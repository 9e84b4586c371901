/** Detector rules and the validation that a rule document must pass before anything is matched. */
module Schema {
  import opened DependencyGraph
  import opened Model

  const SCHEMA_VERSION_V1 := 1
  const CURRENT_SCHEMA_VERSION := 2
  const MAX_RULES := 1000
  const MAX_CONDITION_DEPTH := 16
  const MAX_EVIDENCE_PER_RULE := 256
  const MAX_PATTERN_BYTES := 2048

  const CATEGORIES: set<string> := {
    "cdn_reverse_proxy", "waf", "bot_management", "captcha_challenge", "client_fingerprinting", "third_party_security"
  }

  // ----- The document -----

  datatype Operation = Exact | Contains | Prefix | Suffix

  /**
   * One comparison. Compiling a regular expression yields nothing, if it is malformed, or an expression that is known
   * only by the strings it accepts.
   */
  datatype TextPattern =
    | Literal(operation: Operation, operand: string, caseInsensitive: bool)
    | Regex(expression: string, caseInsensitive: bool, compiled: Option<string -> bool>)

  /** A predicate on one signal, with its weight. An empty group is no group. */
  datatype Evidence = Evidence(
    id: string, group: string, kind: string,
    source: Option<TextPattern>, key: Option<TextPattern>, value: Option<TextPattern>, url: Option<TextPattern>,
    weight: real)

  datatype Condition = Leaf(evidence: Evidence) | All(children: seq<Condition>) | Any(children: seq<Condition>)

  datatype Conflict = Conflict(ruleId: string, penalty: real)

  datatype Rule = Rule(
    id: string, name: string, category: string, vendor: string,
    minimumEvidence: int, minimumScore: real, condition: Condition,
    negative: seq<Evidence>, ambiguous: seq<Evidence>,
    dependencies: seq<string>, conflicts: seq<Conflict>)

  datatype RuleSet = RuleSet(schemaVersion: int, rules: seq<Rule>)

  /** The correlation group that matched evidence counts under. */
  function EvidenceGroup(e: Evidence): string {
    if e.group != "" then e.group else e.id
  }

  /** The predicates of a condition tree, left to right. */
  function Leaves(c: Condition): seq<Evidence>
    decreases c
  {
    match c
    case Leaf(e) => [e]
    case All(children) => LeavesOfAll(children)
    case Any(children) => LeavesOfAll(children)
  }

  function LeavesOfAll(cs: seq<Condition>): seq<Evidence>
    decreases cs
  {
    if cs == [] then [] else LeavesOfAll(cs[..|cs| - 1]) + Leaves(cs[|cs| - 1])
  }

  // ----- What a valid document is -----

  predicate IsAlphanumeric(c: char) {
    'a' <= c <= 'z' || '0' <= c <= '9'
  }

  /** Lower-case alphanumeric words joined by single dots, underscores or hyphens. */
  predicate IsIdentifier(s: string) {
    && s != []
    && IsAlphanumeric(s[0])
    && IsAlphanumeric(s[|s| - 1])
    && forall i | 0 <= i < |s| ::
         IsAlphanumeric(s[i]) || (s[i] in "._-" && i + 1 < |s| && IsAlphanumeric(s[i + 1]))
  }

  predicate ValidPattern(p: TextPattern) {
    var operand := if p.Regex? then p.expression else p.operand;
    operand != "" && ByteLength(operand) <= MAX_PATTERN_BYTES && (p.Regex? ==> p.compiled.Some?)
  }

  predicate ValidField(field: Option<TextPattern>) {
    field.Some? ==> ValidPattern(field.value)
  }

  predicate ValidEvidence(e: Evidence) {
    && IsIdentifier(e.id)
    && (e.group == "" || IsIdentifier(e.group))
    && e.kind in SIGNAL_TYPES
    && 0.0 < e.weight <= 100.0
    && ValidField(e.source) && ValidField(e.key) && ValidField(e.value) && ValidField(e.url)
    && (e.source.Some? || e.key.Some? || e.value.Some? || e.url.Some?)
  }

  /** Every node of the tree is valid by itself: bounded depth, no empty group, valid predicates. */
  predicate WellFormed(c: Condition, depth: nat, version: int)
    decreases c
  {
    && depth <= MAX_CONDITION_DEPTH
    && match c
       case Leaf(e) => ValidEvidence(e) && (version == SCHEMA_VERSION_V1 ==> e.group == "")
       case All(children) => children != [] && forall i | 0 <= i < |children| :: WellFormed(children[i], depth + 1, version)
       case Any(children) => children != [] && forall i | 0 <= i < |children| :: WellFormed(children[i], depth + 1, version)
  }

  ghost predicate DistinctIds(es: seq<Evidence>) {
    forall i, j | 0 <= i < j < |es| :: es[i].id != es[j].id
  }

  ghost function Ids(es: seq<Evidence>): set<string> {
    set i | 0 <= i < |es| :: es[i].id
  }

  ghost function Groups(es: seq<Evidence>): set<string> {
    set i | 0 <= i < |es| :: EvidenceGroup(es[i])
  }

  ghost predicate ValidPenalties(es: seq<Evidence>) {
    forall i | 0 <= i < |es| :: es[i].group == "" && ValidEvidence(es[i])
  }

  ghost predicate ValidRule(r: Rule, version: int) {
    var leaves := Leaves(r.condition);
    && IsIdentifier(r.id) && !Blank(r.name) && r.category in CATEGORIES && !Blank(r.vendor)
    && r.minimumEvidence >= 1
    && 25.0 <= r.minimumScore <= 100.0
    && WellFormed(r.condition, 1, version)
    && r.minimumEvidence <= (if version == CURRENT_SCHEMA_VERSION then |Groups(leaves)| else |leaves|)
    && ValidPenalties(r.negative) && ValidPenalties(r.ambiguous)
    && DistinctIds(leaves + r.negative + r.ambiguous)
    && |leaves| + |r.negative| + |r.ambiguous| <= MAX_EVIDENCE_PER_RULE
    && (forall i | 0 <= i < |r.conflicts| :: IsIdentifier(r.conflicts[i].ruleId) && 0.0 < r.conflicts[i].penalty <= 100.0)
    && (forall i | 0 <= i < |r.dependencies| :: IsIdentifier(r.dependencies[i]))
  }

  ghost predicate Known(rules: seq<Rule>, id: string) {
    exists i :: 0 <= i < |rules| && rules[i].id == id
  }

  ghost predicate UniqueRules(rules: seq<Rule>) {
    forall i, j | 0 <= i < j < |rules| :: rules[i].id != rules[j].id
  }

  /** Dependencies and conflicts name other known rules, once each, and no rule is both. */
  ghost predicate ValidReferences(rules: seq<Rule>, r: Rule) {
    && (forall i | 0 <= i < |r.dependencies| :: r.dependencies[i] != r.id && Known(rules, r.dependencies[i]))
    && (forall i, j | 0 <= i < j < |r.dependencies| :: r.dependencies[i] != r.dependencies[j])
    && (forall i | 0 <= i < |r.conflicts| ::
          r.conflicts[i].ruleId != r.id && Known(rules, r.conflicts[i].ruleId) && r.conflicts[i].ruleId !in r.dependencies)
    && (forall i, j | 0 <= i < j < |r.conflicts| :: r.conflicts[i].ruleId != r.conflicts[j].ruleId)
  }

  /** The graph of the Requires lists. */
  ghost function Requirements(rules: seq<Rule>): Graph<string>
    requires UniqueRules(rules)
  {
    map id | id in RuleIds(rules) :: RuleById(rules, id).dependencies
  }

  ghost function RuleIds(rules: seq<Rule>): set<string> {
    set i | 0 <= i < |rules| :: rules[i].id
  }

  ghost function RuleById(rules: seq<Rule>, id: string): (r: Rule)
    requires Known(rules, id)
    ensures r.id == id && r in rules
  {
    var i :| 0 <= i < |rules| && rules[i].id == id;
    rules[i]
  }

  ghost predicate ValidRuleSet(s: RuleSet) {
    && (s.schemaVersion == SCHEMA_VERSION_V1 || s.schemaVersion == CURRENT_SCHEMA_VERSION)
    && 0 < |s.rules| <= MAX_RULES
    && (forall i | 0 <= i < |s.rules| :: ValidRule(s.rules[i], s.schemaVersion))
    && UniqueRules(s.rules)
    && (forall i | 0 <= i < |s.rules| :: ValidReferences(s.rules, s.rules[i]))
    && Acyclic(Requirements(s.rules))
  }
}

/** RuleSet.Validate and its helpers: each accepts exactly what the schema calls valid. */
module SchemaValidation {
  import opened DependencyGraph
  import opened Model
  import opened Ordering
  import opened Schema

  // ----- Budgets shared by the predicates of one rule -----

  /** es can join a rule that already holds nodes positive predicates and the evidence IDs ids. */
  ghost predicate Fits(es: seq<Evidence>, nodes: nat, ids: set<string>) {
    nodes + |es| <= MAX_EVIDENCE_PER_RULE && DistinctIds(es) && Ids(es) !! ids
  }

  lemma IdsConcat(a: seq<Evidence>, b: seq<Evidence>)
    ensures Ids(a + b) == Ids(a) + Ids(b)
    ensures Groups(a + b) == Groups(a) + Groups(b)
  {
    var c := a + b;
    assert forall i | 0 <= i < |a| :: c[i] == a[i];
    assert forall i | 0 <= i < |b| :: c[|a| + i] == b[i];
    forall i | 0 <= i < |c| ensures c[i].id in Ids(a) + Ids(b) && EvidenceGroup(c[i]) in Groups(a) + Groups(b) {
      if i < |a| { assert c[i] == a[i]; } else { assert c[i] == b[i - |a|]; }
    }
  }

  lemma DistinctConcat(a: seq<Evidence>, b: seq<Evidence>)
    ensures DistinctIds(a + b) <==> DistinctIds(a) && DistinctIds(b) && Ids(a) !! Ids(b)
  {
    var c := a + b;
    assert forall i | 0 <= i < |a| :: c[i] == a[i];
    assert forall i | 0 <= i < |b| :: c[|a| + i] == b[i];
    if DistinctIds(c) {
      forall i, j | 0 <= i < j < |a| ensures a[i].id != a[j].id { assert c[i] == a[i] && c[j] == a[j]; }
      forall i, j | 0 <= i < j < |b| ensures b[i].id != b[j].id { assert c[|a| + i] == b[i] && c[|a| + j] == b[j]; }
      forall i, j | 0 <= i < |a| && 0 <= j < |b| ensures a[i].id != b[j].id { assert c[i] == a[i] && c[|a| + j] == b[j]; }
    }
    if DistinctIds(a) && DistinctIds(b) && Ids(a) !! Ids(b) {
      forall i, j | 0 <= i < j < |c| ensures c[i].id != c[j].id {
        assert i < |a| ==> c[i].id in Ids(a);
        assert j >= |a| ==> c[j] == b[j - |a|] && c[j].id in Ids(b);
        assert i >= |a| ==> c[i] == b[i - |a|];
      }
    }
  }

  lemma FitsConcat(a: seq<Evidence>, b: seq<Evidence>, nodes: nat, ids: set<string>)
    ensures Fits(a + b, nodes, ids) <==> Fits(a, nodes, ids) && Fits(b, nodes + |a|, ids + Ids(a))
  {
    IdsConcat(a, b);
    DistinctConcat(a, b);
  }

  lemma FitsOne(e: Evidence, nodes: nat, ids: set<string>)
    ensures Fits([e], nodes, ids) <==> nodes + 1 <= MAX_EVIDENCE_PER_RULE && e.id !in ids
    ensures Ids([e]) == {e.id} && Groups([e]) == {EvidenceGroup(e)}
  {
    assert Ids([e]) == {e.id} by { assert [e][0].id in Ids([e]); }
    assert Groups([e]) == {EvidenceGroup(e)} by { assert EvidenceGroup([e][0]) in Groups([e]); }
  }

  ghost predicate FirstWellFormed(cs: seq<Condition>, n: nat, depth: nat, version: int)
    requires n <= |cs|
    decreases n
  {
    n == 0 || (FirstWellFormed(cs, n - 1, depth, version) && WellFormed(cs[n - 1], depth, version))
  }

  lemma {:induction false} FirstWellFormedMeans(cs: seq<Condition>, n: nat, depth: nat, version: int)
    requires n <= |cs|
    ensures FirstWellFormed(cs, n, depth, version) <==> forall j | 0 <= j < n :: WellFormed(cs[j], depth, version)
    decreases n
  {
    if n > 0 { FirstWellFormedMeans(cs, n - 1, depth, version); }
  }

  lemma {:induction false} LeavesPrefix(cs: seq<Condition>, k: nat) returns (rest: seq<Evidence>)
    requires k <= |cs|
    ensures LeavesOfAll(cs) == LeavesOfAll(cs[..k]) + rest
    decreases |cs|
  {
    if k == |cs| {
      assert cs[..k] == cs;
      rest := [];
    } else {
      var init := cs[..|cs| - 1];
      var more := LeavesPrefix(init, k);
      assert init[..k] == cs[..k];
      rest := more + Leaves(cs[|cs| - 1]);
    }
  }

  /** A tree fits only if every prefix of its children fits. */
  lemma PrefixFits(cs: seq<Condition>, i: nat, nodes: nat, ids: set<string>)
    requires i < |cs| && Fits(LeavesOfAll(cs), nodes, ids)
    ensures Fits(Leaves(cs[i]), nodes + |LeavesOfAll(cs[..i])|, ids + Ids(LeavesOfAll(cs[..i])))
  {
    var rest := LeavesPrefix(cs, i + 1);
    FitsConcat(LeavesOfAll(cs[..i + 1]), rest, nodes, ids);
    assert cs[..i + 1][..i] == cs[..i];
    FitsConcat(LeavesOfAll(cs[..i]), Leaves(cs[i]), nodes, ids);
  }

  lemma ExtendPrefix(cs: seq<Condition>, i: nat, nodes: nat, ids: set<string>)
    requires i < |cs| && Fits(LeavesOfAll(cs[..i]), nodes, ids)
    requires Fits(Leaves(cs[i]), nodes + |LeavesOfAll(cs[..i])|, ids + Ids(LeavesOfAll(cs[..i])))
    ensures var before, leaves := LeavesOfAll(cs[..i]), Leaves(cs[i]);
            && LeavesOfAll(cs[..i + 1]) == before + leaves
            && Fits(before + leaves, nodes, ids)
            && Ids(before + leaves) == Ids(before) + Ids(leaves)
            && Groups(before + leaves) == Groups(before) + Groups(leaves)
  {
    assert cs[..i + 1][..i] == cs[..i];
    FitsConcat(LeavesOfAll(cs[..i]), Leaves(cs[i]), nodes, ids);
    IdsConcat(LeavesOfAll(cs[..i]), Leaves(cs[i]));
  }

  // ----- One rule -----

  /** The node counter and the ID and group sets that validateRule threads through one rule. */
  class RuleValidator {
    const version: int
    var nodes: nat
    var ids: set<string>
    var groups: set<string>

    constructor (version: int)
      ensures this.version == version && nodes == 0 && ids == {} && groups == {}
    {
      this.version := version;
      nodes, ids, groups := 0, {}, {};
    }

    method ValidateEvidence(e: Evidence) returns (ok: bool)
      modifies this`ids
      ensures ok <==> ValidEvidence(e) && e.id !in old(ids)
      ensures ok ==> ids == old(ids) + {e.id}
    {
      if !IsIdentifier(e.id) || e.id in ids {
        return false;
      }
      ids := ids + {e.id};
      if e.group != "" && !IsIdentifier(e.group) {
        return false;
      }
      if e.kind !in SIGNAL_TYPES || !(0.0 <= e.weight <= 100.0) || e.weight == 0.0 {
        return false;
      }
      var patterns := [e.source, e.key, e.value, e.url];
      var matchedFields: nat := 0;
      for i := 0 to 4
        invariant matchedFields > 0 <==> exists j :: 0 <= j < i && patterns[j].Some?
        invariant forall j | 0 <= j < i :: ValidField(patterns[j])
      {
        if patterns[i].Some? {
          matchedFields := matchedFields + 1;
          if !ValidPattern(patterns[i].value) {
            assert !ValidField(patterns[i]);
            return false;
          }
        }
      }
      assert ValidField(patterns[0]) && ValidField(patterns[1]) && ValidField(patterns[2]) && ValidField(patterns[3]);
      assert e.source.Some? || e.key.Some? || e.value.Some? || e.url.Some? ==>
             patterns[0].Some? || patterns[1].Some? || patterns[2].Some? || patterns[3].Some?;
      ok := matchedFields != 0;
    }

    method ValidateLeaf(e: Evidence) returns (ok: bool)
      requires nodes <= MAX_EVIDENCE_PER_RULE
      modifies this
      ensures ok <==> ValidEvidence(e) && (version == SCHEMA_VERSION_V1 ==> e.group == "") && Fits([e], old(nodes), old(ids))
      ensures ok ==> nodes == old(nodes) + 1 && ids == old(ids) + Ids([e]) && groups == old(groups) + Groups([e])
    {
      FitsOne(e, nodes, ids);
      nodes := nodes + 1;
      if nodes > MAX_EVIDENCE_PER_RULE {
        return false;
      }
      ok := ValidateEvidence(e);
      if !ok {
        return false;
      }
      if version == SCHEMA_VERSION_V1 && e.group != "" {
        return false;
      }
      groups := groups + {EvidenceGroup(e)};
    }

    method ValidateCondition(c: Condition, depth: nat) returns (ok: bool)
      requires nodes <= MAX_EVIDENCE_PER_RULE
      modifies this
      ensures ok <==> WellFormed(c, depth, version) && Fits(Leaves(c), old(nodes), old(ids))
      ensures ok ==> nodes == old(nodes) + |Leaves(c)| && ids == old(ids) + Ids(Leaves(c))
      ensures ok ==> groups == old(groups) + Groups(Leaves(c))
      decreases c, 1
    {
      if depth > MAX_CONDITION_DEPTH {
        return false;
      }
      if c.Leaf? {
        ok := ValidateLeaf(c.evidence);
        return;
      }
      if |c.children| == 0 {
        return false;
      }
      ok := ValidateChildren(c.children, depth + 1);
    }

    /** The child loop. */
    method ValidateChildren(children: seq<Condition>, depth: nat) returns (ok: bool)
      requires nodes <= MAX_EVIDENCE_PER_RULE
      modifies this
      ensures ok <==> (forall j | 0 <= j < |children| :: WellFormed(children[j], depth, version))
                      && Fits(LeavesOfAll(children), old(nodes), old(ids))
      ensures ok ==> nodes == old(nodes) + |LeavesOfAll(children)| && ids == old(ids) + Ids(LeavesOfAll(children))
      ensures ok ==> groups == old(groups) + Groups(LeavesOfAll(children))
      decreases children, 0
    {
      for i := 0 to |children|
        invariant FirstWellFormed(children, i, depth, version)
        invariant Fits(LeavesOfAll(children[..i]), old(nodes), old(ids))
        invariant nodes == old(nodes) + |LeavesOfAll(children[..i])|
        invariant ids == old(ids) + Ids(LeavesOfAll(children[..i]))
        invariant groups == old(groups) + Groups(LeavesOfAll(children[..i]))
      {
        var valid := ValidateCondition(children[i], depth);
        if !valid {
          if Fits(LeavesOfAll(children), old(nodes), old(ids)) {
            PrefixFits(children, i, old(nodes), old(ids));
          }
          return false;
        }
        ExtendPrefix(children, i, old(nodes), old(ids));
      }
      assert children[..|children|] == children;
      FirstWellFormedMeans(children, |children|, depth, version);
      ok := true;
    }

    method ValidatePenalties(es: seq<Evidence>) returns (ok: bool)
      modifies this`ids
      ensures ok <==> ValidPenalties(es) && DistinctIds(es) && Ids(es) !! old(ids)
      ensures ok ==> ids == old(ids) + Ids(es)
    {
      for i := 0 to |es|
        invariant ValidPenalties(es[..i]) && DistinctIds(es[..i]) && Ids(es[..i]) !! old(ids)
        invariant ids == old(ids) + Ids(es[..i])
      {
        var valid := false;
        assert es[..i + 1] == es[..i] + [es[i]];
        PenaltyStep(es, i, old(ids));
        if es[i].group == "" {
          valid := ValidateEvidence(es[i]);
        }
        if !valid {
          return false;
        }
      }
      assert es[..|es|] == es;
      ok := true;
    }
  }

  lemma PenaltyStep(es: seq<Evidence>, i: nat, ids: set<string>)
    requires i < |es|
    requires DistinctIds(es[..i]) && Ids(es[..i]) !! ids
    ensures Ids(es[..i + 1]) == Ids(es[..i]) + {es[i].id}
    ensures es[i].id !in ids + Ids(es[..i]) <==> DistinctIds(es[..i + 1]) && Ids(es[..i + 1]) !! ids
    ensures DistinctIds(es) && Ids(es) !! ids ==> DistinctIds(es[..i + 1]) && Ids(es[..i + 1]) !! ids
  {
    assert es[..i + 1] == es[..i] + [es[i]];
    IdsConcat(es[..i], [es[i]]);
    DistinctConcat(es[..i], [es[i]]);
    FitsOne(es[i], 0, {});
    PrefixDistinct(es, i + 1);
  }

  lemma PrefixDistinct(es: seq<Evidence>, k: nat)
    requires k <= |es|
    ensures DistinctIds(es) ==> DistinctIds(es[..k])
    ensures Ids(es[..k]) <= Ids(es)
  {
    assert es == es[..k] + es[k..];
    DistinctConcat(es[..k], es[k..]);
    IdsConcat(es[..k], es[k..]);
  }

  method ValidateConflicts(conflicts: seq<Conflict>) returns (ok: bool)
    ensures ok <==> forall i | 0 <= i < |conflicts| :: IsIdentifier(conflicts[i].ruleId) && 0.0 < conflicts[i].penalty <= 100.0
  {
    for i := 0 to |conflicts|
      invariant forall j | 0 <= j < i :: IsIdentifier(conflicts[j].ruleId) && 0.0 < conflicts[j].penalty <= 100.0
    {
      if !IsIdentifier(conflicts[i].ruleId) || !(0.0 <= conflicts[i].penalty <= 100.0) || conflicts[i].penalty == 0.0 {
        return false;
      }
    }
    ok := true;
  }

  method ValidateDependencies(dependencies: seq<string>) returns (ok: bool)
    ensures ok <==> forall i | 0 <= i < |dependencies| :: IsIdentifier(dependencies[i])
  {
    for i := 0 to |dependencies|
      invariant forall j | 0 <= j < i :: IsIdentifier(dependencies[j])
    {
      if !IsIdentifier(dependencies[i]) {
        return false;
      }
    }
    ok := true;
  }

  /** Positive predicates first, then both penalty lists, all drawing on one ID set. */
  method ValidateEvidenceOf(r: Rule, version: int) returns (ok: bool)
    ensures ok <==>
            && WellFormed(r.condition, 1, version)
            && r.minimumEvidence <= (if version == CURRENT_SCHEMA_VERSION then |Groups(Leaves(r.condition))| else |Leaves(r.condition)|)
            && ValidPenalties(r.negative) && ValidPenalties(r.ambiguous)
            && DistinctIds(Leaves(r.condition) + r.negative + r.ambiguous)
            && |Leaves(r.condition)| + |r.negative| + |r.ambiguous| <= MAX_EVIDENCE_PER_RULE
  {
    ghost var leaves := Leaves(r.condition);
    RuleBudget(leaves, r.negative, r.ambiguous);
    var validator := new RuleValidator(version);
    ok := validator.ValidateCondition(r.condition, 1);
    if !ok {
      return;
    }
    var available := if version == CURRENT_SCHEMA_VERSION then |validator.groups| else validator.nodes;
    if r.minimumEvidence > available {
      return false;
    }
    ok := validator.ValidatePenalties(r.negative);
    if !ok {
      return;
    }
    ok := validator.ValidatePenalties(r.ambiguous);
    if !ok {
      return;
    }
    ok := |validator.ids| <= MAX_EVIDENCE_PER_RULE;
  }

  method ValidateRule(r: Rule, version: int) returns (ok: bool)
    ensures ok <==> ValidRule(r, version)
  {
    if !IsIdentifier(r.id) || Blank(r.name) || r.category !in CATEGORIES || Blank(r.vendor) {
      return false;
    }
    if r.minimumEvidence < 1 || !(25.0 <= r.minimumScore <= 100.0) {
      return false;
    }
    ok := ValidateEvidenceOf(r, version);
    if !ok {
      return;
    }
    ok := ValidateConflicts(r.conflicts);
    if !ok {
      return;
    }
    ok := ValidateDependencies(r.dependencies);
  }

  lemma RuleBudget(leaves: seq<Evidence>, negative: seq<Evidence>, ambiguous: seq<Evidence>)
    ensures Fits(leaves, 0, {}) <==> |leaves| <= MAX_EVIDENCE_PER_RULE && DistinctIds(leaves)
    ensures DistinctIds(leaves + negative + ambiguous) <==>
            && DistinctIds(leaves)
            && DistinctIds(negative) && Ids(negative) !! Ids(leaves)
            && DistinctIds(ambiguous) && Ids(ambiguous) !! Ids(leaves) + Ids(negative)
    ensures DistinctIds(leaves + negative + ambiguous) ==>
            |Ids(leaves) + Ids(negative) + Ids(ambiguous)| == |leaves| + |negative| + |ambiguous|
  {
    DistinctConcat(leaves, negative);
    IdsConcat(leaves, negative);
    DistinctConcat(leaves + negative, ambiguous);
    IdsConcat(leaves + negative, ambiguous);
    if DistinctIds(leaves + negative + ambiguous) { IdsCount(leaves + negative + ambiguous); }
  }

  lemma {:induction false} IdsCount(es: seq<Evidence>)
    requires DistinctIds(es)
    ensures |Ids(es)| == |es|
  {
    if es != [] {
      var init, last := es[..|es| - 1], es[|es| - 1];
      assert es == init + [last];
      DistinctConcat(init, [last]);
      IdsConcat(init, [last]);
      FitsOne(last, 0, {});
      IdsCount(init);
      assert Ids(es) == Ids(init) + {last.id};
    }
  }

  // ----- The whole document -----

  lemma KnownIds(rules: seq<Rule>, byId: map<string, Rule>)
    requires byId.Keys == RuleIds(rules)
    ensures forall id :: id in byId <==> Known(rules, id)
  {
  }

  method ValidateRequires(r: Rule, byId: map<string, Rule>) returns (ok: bool, seen: set<string>)
    ensures ok <==>
            && (forall i | 0 <= i < |r.dependencies| :: r.dependencies[i] != r.id && r.dependencies[i] in byId)
            && (forall i, j | 0 <= i < j < |r.dependencies| :: r.dependencies[i] != r.dependencies[j])
    ensures ok ==> seen == Elements(r.dependencies)
  {
    seen := {};
    for i := 0 to |r.dependencies|
      invariant seen == Elements(r.dependencies[..i])
      invariant forall j | 0 <= j < i :: r.dependencies[j] != r.id && r.dependencies[j] in byId && r.dependencies[j] in seen
      invariant forall j, k | 0 <= j < k < i :: r.dependencies[j] != r.dependencies[k]
    {
      var dependency := r.dependencies[i];
      if dependency == r.id || dependency !in byId {
        return false, seen;
      }
      if dependency in seen {
        assert dependency in r.dependencies[..i];
        return false, seen;
      }
      assert r.dependencies[..i + 1] == r.dependencies[..i] + [dependency];
      ElementsAppend(r.dependencies[..i], dependency);
      seen := seen + {dependency};
    }
    assert r.dependencies[..|r.dependencies|] == r.dependencies;
    ok := true;
  }

  method ValidateConflictTargets(r: Rule, byId: map<string, Rule>, required: set<string>) returns (ok: bool)
    ensures ok <==>
            && (forall i | 0 <= i < |r.conflicts| ::
                  r.conflicts[i].ruleId != r.id && r.conflicts[i].ruleId in byId && r.conflicts[i].ruleId !in required)
            && (forall i, j | 0 <= i < j < |r.conflicts| :: r.conflicts[i].ruleId != r.conflicts[j].ruleId)
  {
    var seen: set<string> := {};
    for i := 0 to |r.conflicts|
      invariant forall id :: id in seen <==> exists j :: 0 <= j < i && r.conflicts[j].ruleId == id
      invariant forall j | 0 <= j < i ::
                  r.conflicts[j].ruleId != r.id && r.conflicts[j].ruleId in byId && r.conflicts[j].ruleId !in required
      invariant forall j, k | 0 <= j < k < i :: r.conflicts[j].ruleId != r.conflicts[k].ruleId
    {
      var other := r.conflicts[i].ruleId;
      if other == r.id || other !in byId || other in seen || other in required {
        return false;
      }
      seen := seen + {other};
    }
    ok := true;
  }

  method ValidateReferencesOf(rules: seq<Rule>, r: Rule, byId: map<string, Rule>) returns (ok: bool)
    requires byId.Keys == RuleIds(rules)
    ensures ok <==> ValidReferences(rules, r)
  {
    KnownIds(rules, byId);
    var required;
    ok, required := ValidateRequires(r, byId);
    if ok {
      ok := ValidateConflictTargets(r, byId, required);
    }
  }

  ghost predicate Indexes(byId: map<string, Rule>, rules: seq<Rule>) {
    && byId.Keys == RuleIds(rules)
    && forall id | id in byId :: byId[id] in rules && byId[id].id == id
  }

  lemma IndexAppend(byId: map<string, Rule>, rules: seq<Rule>, r: Rule)
    requires Indexes(byId, rules)
    ensures Indexes(byId[r.id := r], rules + [r])
    ensures UniqueRules(rules + [r]) <==> UniqueRules(rules) && r.id !in byId
  {
    var more := rules + [r];
    assert forall i | 0 <= i < |rules| :: more[i] == rules[i];
    assert more[|rules|] == r;
    assert RuleIds(more) == RuleIds(rules) + {r.id} by {
      forall id | id in RuleIds(rules) + {r.id} ensures id in RuleIds(more) {
        if id in RuleIds(rules) {
          var i :| 0 <= i < |rules| && rules[i].id == id;
          assert more[i].id == id;
        } else {
          assert more[|rules|].id == id;
        }
      }
    }
    if UniqueRules(more) {
      forall i, j | 0 <= i < j < |rules| ensures rules[i].id != rules[j].id { assert more[i].id != more[j].id; }
      forall i | 0 <= i < |rules| ensures rules[i].id != r.id { assert more[i].id != more[|rules|].id; }
    }
    if UniqueRules(rules) && r.id !in byId {
      forall i, j | 0 <= i < j < |more| ensures more[i].id != more[j].id {
        if j == |rules| { assert rules[i].id in RuleIds(rules); }
      }
    }
  }

  lemma UniquePrefix(rules: seq<Rule>, k: nat)
    requires k <= |rules| && UniqueRules(rules)
    ensures UniqueRules(rules[..k])
  {
  }

  lemma IndexNext(byId: map<string, Rule>, rules: seq<Rule>, i: nat)
    requires i < |rules| && Indexes(byId, rules[..i]) && UniqueRules(rules[..i])
    ensures Indexes(byId[rules[i].id := rules[i]], rules[..i + 1])
    ensures rules[i].id !in byId ==> UniqueRules(rules[..i + 1])
    ensures rules[i].id in byId ==> !UniqueRules(rules)
  {
    assert rules[..i + 1] == rules[..i] + [rules[i]];
    IndexAppend(byId, rules[..i], rules[i]);
    if UniqueRules(rules) { UniquePrefix(rules, i + 1); }
  }

  lemma UniqueRule(rules: seq<Rule>, r: Rule)
    requires UniqueRules(rules) && r in rules
    ensures Known(rules, r.id) && RuleById(rules, r.id) == r
  {
    var i :| 0 <= i < |rules| && rules[i] == r;
    assert rules[i].id == r.id;
    var other := RuleById(rules, r.id);
    var j :| 0 <= j < |rules| && rules[j] == other;
    assert rules[j].id == other.id == r.id;
    assert !(i < j) && !(j < i);
  }

  /** The graph read off the index is the graph of the Requires lists, and it is closed. */
  lemma IndexedGraph(rules: seq<Rule>, byId: map<string, Rule>, graph: Graph<string>)
    requires UniqueRules(rules) && Indexes(byId, rules)
    requires graph == map id | id in byId :: byId[id].dependencies
    ensures graph == Requirements(rules)
  {
    forall id | id in byId ensures Known(rules, id) && graph[id] == Requirements(rules)[id] {
      UniqueRule(rules, byId[id]);
    }
  }

  lemma ReferencesClose(rules: seq<Rule>)
    requires UniqueRules(rules)
    requires forall i | 0 <= i < |rules| :: ValidReferences(rules, rules[i])
    ensures Closed(Requirements(rules))
  {
    var g := Requirements(rules);
    forall id, dep | id in g && dep in g[id] ensures dep in g {
      var r := RuleById(rules, id);
      var i :| 0 <= i < |rules| && rules[i] == r;
      var j :| 0 <= j < |r.dependencies| && r.dependencies[j] == dep;
      assert ValidReferences(rules, rules[i]) && Known(rules, dep);
    }
  }

  /** The rules before i are valid, have distinct ids, and are filed by id. */
  ghost predicate IndexedUpTo(byId: map<string, Rule>, s: RuleSet, i: nat)
    requires i <= |s.rules|
  {
    && Indexes(byId, s.rules[..i]) && UniqueRules(s.rules[..i])
    && forall j | 0 <= j < i :: ValidRule(s.rules[j], s.schemaVersion)
  }

  ghost predicate RulesHold(s: RuleSet) {
    UniqueRules(s.rules) && forall i | 0 <= i < |s.rules| :: ValidRule(s.rules[i], s.schemaVersion)
  }

  lemma IndexStep(byId: map<string, Rule>, s: RuleSet, i: nat)
    requires i < |s.rules| && IndexedUpTo(byId, s, i)
    ensures !ValidRule(s.rules[i], s.schemaVersion) || s.rules[i].id in byId ==> !RulesHold(s)
    ensures ValidRule(s.rules[i], s.schemaVersion) && s.rules[i].id !in byId ==>
              IndexedUpTo(byId[s.rules[i].id := s.rules[i]], s, i + 1)
  {
    IndexNext(byId, s.rules, i);
  }

  /** Validates every rule by itself and files it under its ID. */
  method IndexRules(s: RuleSet) returns (ok: bool, byId: map<string, Rule>)
    ensures ok <==> UniqueRules(s.rules) && forall i | 0 <= i < |s.rules| :: ValidRule(s.rules[i], s.schemaVersion)
    ensures ok ==> Indexes(byId, s.rules)
  {
    byId := map[];
    for i := 0 to |s.rules|
      invariant IndexedUpTo(byId, s, i)
    {
      var r := s.rules[i];
      IndexStep(byId, s, i);
      var valid := ValidateRule(r, s.schemaVersion);
      if !valid {
        return false, byId;
      }
      if r.id in byId {
        return false, byId;
      }
      byId := byId[r.id := r];
    }
    assert s.rules[..|s.rules|] == s.rules;
    ok := true;
  }

  method ValidateAllReferences(rules: seq<Rule>, byId: map<string, Rule>) returns (ok: bool)
    requires byId.Keys == RuleIds(rules)
    ensures ok <==> forall i | 0 <= i < |rules| :: ValidReferences(rules, rules[i])
  {
    for i := 0 to |rules|
      invariant forall j | 0 <= j < i :: ValidReferences(rules, rules[j])
    {
      var valid := ValidateReferencesOf(rules, rules[i], byId);
      if !valid {
        return false;
      }
    }
    ok := true;
  }

  lemma OrderedIds(rules: seq<Rule>, ordered: seq<string>)
    requires |ordered| == |rules| && forall i | 0 <= i < |rules| :: ordered[i] == rules[i].id
    ensures forall id :: id in RuleIds(rules) <==> id in ordered
  {
    forall id | id in RuleIds(rules) ensures id in ordered {
      var i :| 0 <= i < |rules| && rules[i].id == id;
      assert ordered[i] == id;
    }
  }

  /** The last step: no rule requires itself, directly or through others. */
  method ValidateRequirements(rules: seq<Rule>, byId: map<string, Rule>) returns (ok: bool)
    requires UniqueRules(rules) && Indexes(byId, rules)
    requires forall i | 0 <= i < |rules| :: ValidReferences(rules, rules[i])
    ensures ok <==> Acyclic(Requirements(rules))
  {
    var graph := map id | id in byId :: byId[id].dependencies;
    var ordered := seq(|rules|, i requires 0 <= i < |rules| => rules[i].id);
    IndexedGraph(rules, byId, graph);
    ReferencesClose(rules);
    OrderedIds(rules, ordered);
    ok := ValidateDependencyGraph(ordered, graph);
  }

  /** RuleSet.Validate: rule by rule, then references, then the dependency graph. */
  method Validate(s: RuleSet) returns (ok: bool)
    ensures ok <==> ValidRuleSet(s)
  {
    if s.schemaVersion != SCHEMA_VERSION_V1 && s.schemaVersion != CURRENT_SCHEMA_VERSION {
      return false;
    }
    if |s.rules| == 0 || |s.rules| > MAX_RULES {
      return false;
    }
    var byId;
    ok, byId := IndexRules(s);
    if !ok {
      return;
    }
    ok := ValidateAllReferences(s.rules, byId);
    if !ok {
      return;
    }
    ok := ValidateRequirements(s.rules, byId);
  }
}

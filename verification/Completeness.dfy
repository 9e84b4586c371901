/** The per-scan completeness of every channel, combined from coverage declarations and analyzer status. */
module Completeness {

  datatype CapabilityClaim = CapabilityClaim(kind: string, complete: bool)

  /** One analyzer run: its source, whether it returned without error, and the coverage that it declared. */
  datatype AnalyzerResult = AnalyzerResult(source: string, complete: bool, claims: seq<CapabilityClaim>)

  /** What the scanner checks of every run: one run per source, one declaration per signal type. */
  ghost predicate ValidRuns(analyzers: seq<AnalyzerResult>) {
    && (forall i, j | 0 <= i < j < |analyzers| :: analyzers[i].source != analyzers[j].source)
    && (forall i | 0 <= i < |analyzers| :: DistinctClaims(analyzers[i].claims))
  }

  ghost predicate DistinctClaims(claims: seq<CapabilityClaim>) {
    forall j, k | 0 <= j < k < |claims| :: claims[j].kind != claims[k].kind
  }

  ghost predicate Claims(claims: seq<CapabilityClaim>, kind: string) {
    CapabilityClaim(kind, true) in claims
  }

  /**
   * The meaning of completeness: a run that declared any coverage is complete only for the types it declared
   * complete, a run that declared none is complete when it succeeded, and a source that never ran is not.
   */
  ghost predicate IsComplete(analyzers: seq<AnalyzerResult>, source: string, kind: string) {
    exists i :: 0 <= i < |analyzers| && analyzers[i].source == source && RunCompletes(analyzers[i], kind)
  }

  ghost predicate RunCompletes(a: AnalyzerResult, kind: string) {
    if a.claims == [] then a.complete else Claims(a.claims, kind)
  }

  /** The three maps that the returned closure reads. */
  datatype Completer = Completer(declared: map<string, map<string, bool>>, statuses: map<string, bool>, aware: set<string>)
  {
    predicate Complete(source: string, kind: string) {
      if source in aware then kind in declared && source in declared[kind] && declared[kind][source]
      else source in statuses && statuses[source]
    }
  }

  /** Nothing is filed for sources outside ran, and one run per source of ran decides every type. */
  ghost predicate Decides(c: Completer, analyzers: seq<AnalyzerResult>) {
    && (forall source, kind :: c.Complete(source, kind) <==> IsComplete(analyzers, source, kind))
    && (forall source | source in c.statuses || source in c.aware :: Ran(analyzers, source))
    && (forall kind, source | kind in c.declared && source in c.declared[kind] :: Ran(analyzers, source))
  }

  ghost predicate Ran(analyzers: seq<AnalyzerResult>, source: string) {
    exists i :: 0 <= i < |analyzers| && analyzers[i].source == source
  }

  /** Files every declaration of one run under its source. */
  method FileClaims(declared: map<string, map<string, bool>>, source: string, claims: seq<CapabilityClaim>)
    returns (result: map<string, map<string, bool>>)
    requires DistinctClaims(claims)
    requires forall kind | kind in declared :: source !in declared[kind]
    ensures forall kind, other | other != source ::
              (kind in result && other in result[kind]) <==> (kind in declared && other in declared[kind])
    ensures forall kind, other | other != source && kind in declared && other in declared[kind] ::
              result[kind][other] == declared[kind][other]
    ensures forall kind :: (kind in result && source in result[kind] && result[kind][source]) <==> Claims(claims, kind)
  {
    result := declared;
    for i := 0 to |claims|
      invariant forall kind, other | other != source ::
                  (kind in result && other in result[kind]) <==> (kind in declared && other in declared[kind])
      invariant forall kind, other | other != source && kind in declared && other in declared[kind] ::
                  result[kind][other] == declared[kind][other]
      invariant forall kind :: (kind in result && source in result[kind] && result[kind][source]) <==> Claims(claims[..i], kind)
    {
      var claim := claims[i];
      var bySource := if claim.kind in result then result[claim.kind] else map[];
      assert claims[..i + 1] == claims[..i] + [claim];
      assert !Claims(claims[..i], claim.kind);
      result := result[claim.kind := bySource[source := claim.complete]];
      forall kind ensures (kind in result && source in result[kind] && result[kind][source]) <==> Claims(claims[..i + 1], kind) {
        assert Claims(claims[..i + 1], kind) <==> Claims(claims[..i], kind) || claim == CapabilityClaim(kind, true);
      }
    }
    assert claims[..|claims|] == claims;
  }

  lemma CompleteStep(analyzers: seq<AnalyzerResult>, a: AnalyzerResult, source: string, kind: string)
    requires !Ran(analyzers, a.source)
    ensures IsComplete(analyzers + [a], source, kind) <==>
            if source == a.source then RunCompletes(a, kind) else IsComplete(analyzers, source, kind)
  {
    var more := analyzers + [a];
    assert more[|analyzers|] == a && forall i | 0 <= i < |analyzers| :: more[i] == analyzers[i];
    if IsComplete(analyzers, source, kind) {
      var i :| 0 <= i < |analyzers| && analyzers[i].source == source && RunCompletes(analyzers[i], kind);
      assert more[i].source == source && RunCompletes(more[i], kind);
    }
    if source == a.source && RunCompletes(a, kind) {
      assert more[|analyzers|].source == source && RunCompletes(more[|analyzers|], kind);
    }
  }

  lemma RanStep(analyzers: seq<AnalyzerResult>, a: AnalyzerResult, source: string)
    ensures Ran(analyzers + [a], source) <==> Ran(analyzers, source) || source == a.source
  {
    var more := analyzers + [a];
    assert more[|analyzers|] == a && forall i | 0 <= i < |analyzers| :: more[i] == analyzers[i];
    if Ran(analyzers, source) {
      var i :| 0 <= i < |analyzers| && analyzers[i].source == source;
      assert more[i].source == source;
    }
  }

  lemma SummaryStep(c: Completer, analyzers: seq<AnalyzerResult>, a: AnalyzerResult, declared: map<string, map<string, bool>>)
    requires Decides(c, analyzers) && !Ran(analyzers, a.source)
    requires forall kind, other | other != a.source ::
               (kind in declared && other in declared[kind]) <==> (kind in c.declared && other in c.declared[kind])
    requires forall kind, other | other != a.source && kind in c.declared && other in c.declared[kind] ::
               declared[kind][other] == c.declared[kind][other]
    requires forall kind :: (kind in declared && a.source in declared[kind] && declared[kind][a.source]) <==> Claims(a.claims, kind)
    ensures Decides(
              Completer(declared, c.statuses[a.source := a.complete], if a.claims != [] then c.aware + {a.source} else c.aware),
              analyzers + [a])
  {
    var next := Completer(declared, c.statuses[a.source := a.complete], if a.claims != [] then c.aware + {a.source} else c.aware);
    forall source, kind ensures next.Complete(source, kind) <==> IsComplete(analyzers + [a], source, kind) {
      CompleteStep(analyzers, a, source, kind);
      assert source != a.source ==> (next.Complete(source, kind) <==> c.Complete(source, kind));
    }
    forall source ensures Ran(analyzers + [a], source) <==> Ran(analyzers, source) || source == a.source {
      RanStep(analyzers, a, source);
    }
  }

  lemma FreshRun(analyzers: seq<AnalyzerResult>, i: nat)
    requires ValidRuns(analyzers) && i < |analyzers|
    ensures !Ran(analyzers[..i], analyzers[i].source)
  {
    assert forall j | 0 <= j < i :: analyzers[..i][j] == analyzers[j];
  }

  /** buildCapabilityCompleter. */
  method BuildCapabilityCompleter(analyzers: seq<AnalyzerResult>) returns (c: Completer)
    requires ValidRuns(analyzers)
    ensures forall source, kind :: c.Complete(source, kind) <==> IsComplete(analyzers, source, kind)
  {
    c := Completer(map[], map[], {});
    for i := 0 to |analyzers|
      invariant Decides(c, analyzers[..i])
    {
      var a := analyzers[i];
      FreshRun(analyzers, i);
      var declared := FileClaims(c.declared, a.source, a.claims);
      assert analyzers[..i + 1] == analyzers[..i] + [a];
      SummaryStep(c, analyzers[..i], a, declared);
      c := Completer(declared, c.statuses[a.source := a.complete], if a.claims != [] then c.aware + {a.source} else c.aware);
    }
    assert analyzers[..|analyzers|] == analyzers;
  }
}

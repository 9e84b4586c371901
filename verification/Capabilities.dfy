/** Which sources can produce which signals, and which of those channels were observed completely. */
module Capabilities {
  import opened Model
  import opened Ordering
  import opened Schema
  import opened Matching

  // ----- Sets as canonical lists -----

  lemma {:induction false} ListExists(s: set<string>)
    ensures exists items :: Lists(items, s)
    decreases |s|
  {
    var items := Enumerate(s);
    DeduplicatedLists(items);
    assert Elements(items) == s;
  }

  ghost function Enumerate(s: set<string>): (items: seq<string>)
    ensures forall x :: x in items <==> x in s
    decreases |s|
  {
    if s == {} then []
    else
      var x :| x in s;
      [x] + Enumerate(s - {x})
  }

  /** The strictly sorted list of a set. */
  ghost function ListOf(s: set<string>): (items: seq<string>)
    ensures Lists(items, s)
  {
    ListExists(s);
    var items :| Lists(items, s);
    items
  }

  lemma ListOfUnique(items: seq<string>, s: set<string>)
    requires Lists(items, s)
    ensures items == ListOf(s)
  {
    ListsUnique(items, ListOf(s), s);
  }

  // ----- The registry -----

  datatype Capability = Capability(source: string, kind: string)

  datatype CapabilityRegistry = CapabilityRegistry(byType: map<string, seq<string>>, bySource: map<string, set<string>>)
  {
    predicate Supports(source: string, kind: string) {
      source in bySource && kind in bySource[source]
    }

    ghost function Producers(kind: string): set<string> {
      set source | source in bySource && kind in bySource[source]
    }

    /** Both indexes hold the same pairs, and the sources of a type are in order. */
    ghost predicate Valid() {
      && (forall kind | kind in byType :: Lists(byType[kind], Producers(kind)))
      && (forall source, kind | Supports(source, kind) :: kind in byType)
    }

    function Candidates(kind: string): seq<string> {
      if kind in byType then byType[kind] else []
    }
  }

  predicate Trimmed(s: string) {
    s != "" && !IsSpace(s[0]) && !IsSpace(s[|s| - 1])
  }

  ghost predicate ValidCapabilities(capabilities: seq<Capability>) {
    forall i | 0 <= i < |capabilities| :: Trimmed(capabilities[i].source) && capabilities[i].kind in SIGNAL_TYPES
  }

  /** byType lists the sources of every type in the order of declaration, each once. */
  ghost predicate Declared(capabilities: seq<Capability>, byType: map<string, seq<string>>, bySource: map<string, set<string>>) {
    && (forall source, kind :: CapabilityRegistry(byType, bySource).Supports(source, kind) <==> Capability(source, kind) in capabilities)
    && (forall kind, source :: kind in byType && source in byType[kind] <==> Capability(source, kind) in capabilities)
    && (forall kind | kind in byType :: byType[kind] != [])
  }

  lemma DeclaredStep(capabilities: seq<Capability>, byType: map<string, seq<string>>, bySource: map<string, set<string>>, c: Capability)
    requires Declared(capabilities, byType, bySource)
    ensures var known := if c.source in bySource then bySource[c.source] else {};
            var listed := if c.kind in byType then byType[c.kind] else [];
            && (c.kind in known ==> Declared(capabilities + [c], byType, bySource))
            && (c.kind !in known ==> Declared(capabilities + [c], byType[c.kind := listed + [c.source]], bySource[c.source := known + {c.kind}]))
  {
    var known := if c.source in bySource then bySource[c.source] else {};
    assert c.kind in known <==> CapabilityRegistry(byType, bySource).Supports(c.source, c.kind);
    var listed := if c.kind in byType then byType[c.kind] else [];
    var b, s := byType[c.kind := listed + [c.source]], bySource[c.source := known + {c.kind}];
    if c.kind !in known {
      forall source, kind
        ensures CapabilityRegistry(b, s).Supports(source, kind) <==> Capability(source, kind) in capabilities + [c]
      {
        assert CapabilityRegistry(byType, bySource).Supports(source, kind) <==> Capability(source, kind) in capabilities;
      }
      forall kind, source ensures kind in b && source in b[kind] <==> Capability(source, kind) in capabilities + [c] {
        assert kind in byType && source in byType[kind] <==> Capability(source, kind) in capabilities;
      }
    }
  }

  /** Sorting every list of sources makes the registry canonical. */
  method SortSources(byType: map<string, seq<string>>) returns (sorted: map<string, seq<string>>)
    ensures sorted.Keys == byType.Keys
    ensures forall kind | kind in byType :: Lists(sorted[kind], Elements(byType[kind]))
  {
    sorted := map[];
    var kinds := byType.Keys;
    while kinds != {}
      invariant kinds <= byType.Keys && sorted.Keys == byType.Keys - kinds
      invariant forall kind | kind in sorted :: Lists(sorted[kind], Elements(byType[kind]))
      decreases kinds
    {
      var kind :| kind in kinds;
      var list := DeduplicateSorted(byType[kind]);
      sorted := sorted[kind := list];
      kinds := kinds - {kind};
    }
  }

  /** NewCapabilityRegistry: repeated pairs are harmless. */
  method NewCapabilityRegistry(capabilities: seq<Capability>) returns (ok: bool, registry: CapabilityRegistry)
    ensures ok <==> ValidCapabilities(capabilities)
    ensures ok ==> registry.Valid()
    ensures ok ==> forall source, kind :: registry.Supports(source, kind) <==> Capability(source, kind) in capabilities
  {
    var byType: map<string, seq<string>> := map[];
    var bySource: map<string, set<string>> := map[];
    registry := CapabilityRegistry(map[], map[]);
    for i := 0 to |capabilities|
      invariant ValidCapabilities(capabilities[..i]) && Declared(capabilities[..i], byType, bySource)
    {
      var c := capabilities[i];
      assert capabilities[..i + 1] == capabilities[..i] + [c];
      if !Trimmed(c.source) || c.kind !in SIGNAL_TYPES {
        return false, registry;
      }
      DeclaredStep(capabilities[..i], byType, bySource, c);
      var known := if c.source in bySource then bySource[c.source] else {};
      if c.kind !in known {
        var listed := if c.kind in byType then byType[c.kind] else [];
        byType := byType[c.kind := listed + [c.source]];
        bySource := bySource[c.source := known + {c.kind}];
      }
    }
    assert capabilities[..|capabilities|] == capabilities;
    var sorted := SortSources(byType);
    registry := CapabilityRegistry(sorted, bySource);
    DeclaredIsValid(capabilities, byType, bySource, registry);
    ok := true;
  }

  lemma DeclaredIsValid(capabilities: seq<Capability>, byType: map<string, seq<string>>, bySource: map<string, set<string>>,
                        registry: CapabilityRegistry)
    requires Declared(capabilities, byType, bySource) && registry.bySource == bySource && registry.byType.Keys == byType.Keys
    requires forall kind | kind in byType :: Lists(registry.byType[kind], Elements(byType[kind]))
    ensures registry.Valid()
    ensures forall source, kind :: registry.Supports(source, kind) <==> Capability(source, kind) in capabilities
  {
    var plain := CapabilityRegistry(byType, bySource);
    forall source, kind ensures registry.Supports(source, kind) <==> Capability(source, kind) in capabilities {
      assert plain.Supports(source, kind) <==> Capability(source, kind) in capabilities;
    }
    forall kind | kind in byType ensures Elements(byType[kind]) == registry.Producers(kind) {
      forall source ensures source in byType[kind] <==> source in registry.Producers(kind) {
        assert kind in byType && source in byType[kind] <==> Capability(source, kind) in capabilities;
        assert registry.Supports(source, kind) <==> Capability(source, kind) in capabilities;
      }
    }
  }

  /** The registered sources that could produce a signal for a predicate. */
  ghost function CapableSet(registry: CapabilityRegistry, e: Evidence): set<string> {
    set source | source in registry.Producers(e.kind) && AcceptsField(e.source, source)
  }

  /** CapableSources: the capable sources, in order. */
  method CapableSources(registry: CapabilityRegistry, e: Evidence) returns (sources: seq<string>)
    requires registry.Valid()
    ensures sources == ListOf(CapableSet(registry, e))
  {
    var candidates := registry.Candidates(e.kind);
    CandidatesList(registry, e.kind);
    sources := [];
    for i := 0 to |candidates|
      invariant forall x :: x in sources <==> x in candidates[..i] && AcceptsField(e.source, x)
      invariant StrictlySorted(Before, sources)
      invariant sources != [] ==>
                  i > 0
                  && (sources[|sources| - 1] == candidates[i - 1] || Before(sources[|sources| - 1], candidates[i - 1]))
    {
      var candidate := candidates[i];
      assert candidates[..i + 1] == candidates[..i] + [candidate];
      if i > 0 && sources != [] {
        assert Before(candidates[i - 1], candidate);
        if sources[|sources| - 1] != candidates[i - 1] { BeforeTransitive(sources[|sources| - 1], candidates[i - 1], candidate); }
      }
      if e.source.None? || Accepts(e.source.value, candidate) {
        ExtendStrictly(sources, candidate);
        sources := sources + [candidate];
      }
    }
    assert candidates[..|candidates|] == candidates;
    assert Elements(sources) == CapableSet(registry, e);
    ListOfUnique(sources, CapableSet(registry, e));
  }

  lemma CandidatesList(registry: CapabilityRegistry, kind: string)
    requires registry.Valid()
    ensures Lists(registry.Candidates(kind), registry.Producers(kind))
    ensures forall x :: x in registry.Candidates(kind) <==> x in registry.Producers(kind)
  {
    if kind !in registry.byType {
      forall source ensures source !in registry.Producers(kind) { assert !registry.Supports(source, kind); }
    }
    var items := registry.Candidates(kind);
    assert Elements(items) == registry.Producers(kind);
    forall x ensures x in items <==> x in registry.Producers(kind) { assert x in items <==> x in Elements(items); }
  }
}

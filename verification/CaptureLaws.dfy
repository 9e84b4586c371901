/** What the collector makes of interleaved lifecycles: every id fares as if it were alone, and arrival order is lost. */
module CaptureLaws {
  import opened Model
  import opened Ordering
  import opened Interleaving
  import opened Capture

  // ----- One id alone, without the collector's tables -----

  /** The transactions of one id, oldest first, and the start of the last one while it is open. */
  datatype Trail = Trail(hops: seq<Transaction>, start: Option<real>)

  /** One more event of the id. */
  function Advance(lib: Sanitizer, trail: Trail, e: Event): Trail {
    if e.BeginRequest? then
      if e.id != "" && lib.validText(e.rawURL) && trail.start.None? then
        Trail(trail.hops + [Opened(lib, e)], Some(e.timestamp))
      else trail
    else
      Trail(
        if trail.start.Some? && trail.hops != [] then
          trail.hops[|trail.hops| - 1 := Effect(lib, e, trail.hops[|trail.hops| - 1], trail.start.value)]
        else trail.hops,
        if e.ObserveResponse? then trail.start else None)
  }

  function TrailOf(lib: Sanitizer, events: seq<Event>): Trail {
    if events == [] then Trail([], None)
    else Advance(lib, TrailOf(lib, events[..|events| - 1]), events[|events| - 1])
  }

  // ----- Who opened which transaction -----

  function Owners(limit: nat, lib: Sanitizer, events: seq<Event>): seq<string> {
    if events == [] then []
    else
      var init, e := events[..|events| - 1], events[|events| - 1];
      var so := Owners(limit, lib, init);
      var c := Correlated(limit, lib, init);
      if Opens(lib, c, e) && !Refuses(limit, lib, c, e) then so + [e.id] else so
  }

  /** The transactions of one owner, in order. */
  function Owned(owners: seq<string>, ts: seq<Transaction>, id: string): seq<Transaction>
    requires |owners| == |ts|
  {
    if ts == [] then []
    else
      var rest := Owned(owners[..|owners| - 1], ts[..|ts| - 1], id);
      if owners[|owners| - 1] == id then rest + [ts[|ts| - 1]] else rest
  }

  ghost predicate LatestOf(owners: seq<string>, id: string, i: nat) {
    i < |owners| && owners[i] == id && forall j | i < j < |owners| :: owners[j] != id
  }

  /** Every pending entry points at the latest transaction of its own id. */
  ghost predicate WellOwned(c: Correlation, owners: seq<string>) {
    && |owners| == |c.transactions|
    && forall id | id in c.pending :: LatestOf(owners, id, c.pending[id].index)
  }

  lemma {:induction false} OwnedUpdateOther(owners: seq<string>, ts: seq<Transaction>, id: string, i: nat, t: Transaction)
    requires |owners| == |ts| && i < |ts| && owners[i] != id
    ensures Owned(owners, ts[i := t], id) == Owned(owners, ts, id)
  {
    var last := |ts| - 1;
    if i == last {
      assert ts[i := t][..last] == ts[..last];
    } else {
      OwnedUpdateOther(owners[..last], ts[..last], id, i, t);
      assert ts[i := t][..last] == ts[..last][i := t];
    }
  }

  lemma {:induction false} OwnedUpdateLatest(owners: seq<string>, ts: seq<Transaction>, id: string, i: nat, t: Transaction)
    requires |owners| == |ts| && LatestOf(owners, id, i)
    ensures var hops := Owned(owners, ts, id);
            hops != [] && hops[|hops| - 1] == ts[i] && Owned(owners, ts[i := t], id) == hops[|hops| - 1 := t]
  {
    var last := |ts| - 1;
    if i == last {
      assert ts[i := t][..last] == ts[..last];
    } else {
      assert LatestOf(owners[..last], id, i);
      OwnedUpdateLatest(owners[..last], ts[..last], id, i, t);
      assert ts[i := t][..last] == ts[..last][i := t];
    }
  }

  // ----- The collector follows every trail -----

  /** The collector's view of one id is its trail. */
  ghost predicate Follows(c: Correlation, owners: seq<string>, id: string, trail: Trail) {
    && |owners| == |c.transactions|
    && Owned(owners, c.transactions, id) == trail.hops
    && (id in c.pending <==> trail.start.Some?)
    && (id in c.pending ==> c.pending[id].startTimestamp == trail.start.value)
  }

  function OwnersAfter(limit: nat, lib: Sanitizer, c: Correlation, owners: seq<string>, e: Event): seq<string> {
    if Opens(lib, c, e) && !Refuses(limit, lib, c, e) then owners + [e.id] else owners
  }

  lemma StepWellOwned(limit: nat, lib: Sanitizer, c: Correlation, owners: seq<string>, e: Event)
    requires WellOwned(c, owners)
    ensures WellOwned(Correlate(limit, lib, c, e), OwnersAfter(limit, lib, c, owners, e))
  {
    var next := Correlate(limit, lib, c, e);
    var after := OwnersAfter(limit, lib, c, owners, e);
    forall id | id in next.pending ensures LatestOf(after, id, next.pending[id].index) {
      if after != owners && id != e.id {
        assert LatestOf(owners, id, c.pending[id].index);
      }
    }
  }

  /** An event moves its own id as it moves the trail. */
  lemma StepOwn(limit: nat, lib: Sanitizer, c: Correlation, owners: seq<string>, e: Event, trail: Trail)
    requires WellOwned(c, owners) && Follows(c, owners, e.id, trail) && !Refuses(limit, lib, c, e)
    ensures Follows(Correlate(limit, lib, c, e), OwnersAfter(limit, lib, c, owners, e), e.id, Advance(lib, trail, e))
  {
    if Opens(lib, c, e) {
      var next := Correlate(limit, lib, c, e);
      assert next.transactions[..|c.transactions|] == c.transactions;
      assert (owners + [e.id])[..|owners|] == owners;
    } else if !e.BeginRequest? && e.id in c.pending {
      var p := c.pending[e.id];
      assert LatestOf(owners, e.id, p.index);
      OwnedUpdateLatest(owners, c.transactions, e.id, p.index,
                        Effect(lib, e, c.transactions[p.index], p.startTimestamp));
    }
  }

  /** An event leaves every other id alone. */
  lemma StepOther(limit: nat, lib: Sanitizer, c: Correlation, owners: seq<string>, e: Event, id: string, trail: Trail)
    requires WellOwned(c, owners) && Follows(c, owners, id, trail) && id != e.id
    ensures Follows(Correlate(limit, lib, c, e), OwnersAfter(limit, lib, c, owners, e), id, trail)
  {
    if e.BeginRequest? {
      var next := Correlate(limit, lib, c, e);
      if next != c {
        assert next.transactions[..|c.transactions|] == c.transactions;
        assert (owners + [e.id])[..|owners|] == owners;
      }
    } else if e.id in c.pending {
      var p := c.pending[e.id];
      assert LatestOf(owners, e.id, p.index);
      OwnedUpdateOther(owners, c.transactions, id, p.index,
                       Effect(lib, e, c.transactions[p.index], p.startTimestamp));
    }
  }

  lemma NeverRefusedInit(limit: nat, lib: Sanitizer, events: seq<Event>)
    requires events != [] && NeverRefused(limit, lib, events)
    ensures NeverRefused(limit, lib, events[..|events| - 1])
    ensures !Refuses(limit, lib, Correlated(limit, lib, events[..|events| - 1]), events[|events| - 1])
  {
    var init := events[..|events| - 1];
    forall n | 0 <= n < |init| ensures !Refuses(limit, lib, Correlated(limit, lib, init[..n]), init[n]) {
      assert init[..n] == events[..n];
    }
  }

  lemma {:induction false} RunsAreWellOwned(limit: nat, lib: Sanitizer, events: seq<Event>)
    ensures WellOwned(Correlated(limit, lib, events), Owners(limit, lib, events))
  {
    if events != [] {
      var init := events[..|events| - 1];
      RunsAreWellOwned(limit, lib, init);
      StepWellOwned(limit, lib, Correlated(limit, lib, init), Owners(limit, lib, init), events[|events| - 1]);
    }
  }

  /**
   * However the events of different ids are interleaved, the transactions of an id are those of its own events alone:
   * each response, redirect and end is matched to the request that it belongs to.
   */
  lemma {:induction false} EveryIdIsOnItsOwn(limit: nat, lib: Sanitizer, events: seq<Event>, id: string)
    requires NeverRefused(limit, lib, events)
    ensures Follows(Correlated(limit, lib, events), Owners(limit, lib, events), id, TrailOf(lib, Only(IdOf, id, events)))
  {
    if events != [] {
      var init, e := events[..|events| - 1], events[|events| - 1];
      NeverRefusedInit(limit, lib, events);
      EveryIdIsOnItsOwn(limit, lib, init, id);
      RunsAreWellOwned(limit, lib, init);
      var c, owners, mine := Correlated(limit, lib, init), Owners(limit, lib, init), Only(IdOf, id, init);
      if e.id == id {
        StepOwn(limit, lib, c, owners, e, TrailOf(lib, mine));
        assert (mine + [e])[..|mine|] == mine;
      } else {
        StepOther(limit, lib, c, owners, e, id, TrailOf(lib, mine));
      }
    }
  }

  // ----- The whole collection does not depend on the interleaving -----

  function Zip(owners: seq<string>, ts: seq<Transaction>): (r: seq<(string, Transaction)>)
    requires |owners| == |ts|
    ensures |r| == |ts|
  {
    seq(|ts|, i requires 0 <= i < |ts| => (owners[i], ts[i]))
  }

  function OwnerOf(entry: (string, Transaction)): string { entry.0 }

  function Payload(entry: (string, Transaction)): Option<Transaction> { Some(entry.1) }

  lemma {:induction false} OnlyOfZip(owners: seq<string>, ts: seq<Transaction>, id: string)
    requires |owners| == |ts|
    ensures var hops := Owned(owners, ts, id);
            Only(OwnerOf, id, Zip(owners, ts)) == seq(|hops|, i requires 0 <= i < |hops| => (id, hops[i]))
  {
    if ts != [] {
      OnlyOfZip(owners[..|ts| - 1], ts[..|ts| - 1], id);
      assert Zip(owners, ts)[..|ts| - 1] == Zip(owners[..|ts| - 1], ts[..|ts| - 1]);
    }
  }

  lemma {:induction false} PayloadsOfZip(owners: seq<string>, ts: seq<Transaction>)
    requires |owners| == |ts|
    ensures Interleaving.Collect(Payload, Zip(owners, ts)) == ts
  {
    if ts != [] {
      PayloadsOfZip(owners[..|ts| - 1], ts[..|ts| - 1]);
      assert Zip(owners, ts)[..|ts| - 1] == Zip(owners[..|ts| - 1], ts[..|ts| - 1]);
      assert ts == ts[..|ts| - 1] + [ts[|ts| - 1]];
    }
  }

  ghost predicate SameOwned(o1: seq<string>, t1: seq<Transaction>, o2: seq<string>, t2: seq<Transaction>)
    requires |o1| == |t1| && |o2| == |t2|
  {
    forall id :: Owned(o1, t1, id) == Owned(o2, t2, id)
  }

  lemma SameOwnedSamePart(o1: seq<string>, t1: seq<Transaction>, o2: seq<string>, t2: seq<Transaction>, id: string)
    requires |o1| == |t1| && |o2| == |t2| && SameOwned(o1, t1, o2, t2)
    ensures Only(OwnerOf, id, Zip(o1, t1)) == Only(OwnerOf, id, Zip(o2, t2))
  {
    assert Owned(o1, t1, id) == Owned(o2, t2, id);
    OnlyOfZip(o1, t1, id);
    OnlyOfZip(o2, t2, id);
  }

  lemma SamePartsOfZips(o1: seq<string>, t1: seq<Transaction>, o2: seq<string>, t2: seq<Transaction>)
    requires |o1| == |t1| && |o2| == |t2| && SameParts(OwnerOf, Zip(o1, t1), Zip(o2, t2))
    ensures multiset(t1) == multiset(t2)
  {
    PartsDetermineElements(OwnerOf, Zip(o1, t1), Zip(o2, t2));
    CollectIgnoresOrder(Payload, Zip(o1, t1), Zip(o2, t2));
    PayloadsOfZip(o1, t1);
    PayloadsOfZip(o2, t2);
  }

  lemma OwnedPartsDetermineAll(o1: seq<string>, t1: seq<Transaction>, o2: seq<string>, t2: seq<Transaction>)
    requires |o1| == |t1| && |o2| == |t2| && SameOwned(o1, t1, o2, t2)
    ensures multiset(t1) == multiset(t2)
  {
    forall id ensures Only(OwnerOf, id, Zip(o1, t1)) == Only(OwnerOf, id, Zip(o2, t2)) {
      SameOwnedSamePart(o1, t1, o2, t2, id);
    }
    SamePartsOfZips(o1, t1, o2, t2);
  }

  /** Two traces with the same events of each id capture the same transactions, up to order. */
  lemma InterleavingsCaptureTheSame(limit: nat, lib: Sanitizer, a: seq<Event>, b: seq<Event>)
    requires SameParts(IdOf, a, b)
    requires NeverRefused(limit, lib, a) && NeverRefused(limit, lib, b)
    ensures multiset(Correlated(limit, lib, a).transactions) == multiset(Correlated(limit, lib, b).transactions)
  {
    RunsAreWellOwned(limit, lib, a);
    RunsAreWellOwned(limit, lib, b);
    var oa, ta := Owners(limit, lib, a), Correlated(limit, lib, a).transactions;
    var ob, tb := Owners(limit, lib, b), Correlated(limit, lib, b).transactions;
    forall id ensures Owned(oa, ta, id) == Owned(ob, tb, id) {
      EveryIdIsOnItsOwn(limit, lib, a, id);
      EveryIdIsOnItsOwn(limit, lib, b, id);
      assert Only(IdOf, id, a) == Only(IdOf, id, b);
    }
    assert SameOwned(oa, ta, ob, tb);
    OwnedPartsDetermineAll(oa, ta, ob, tb);
  }

  // ----- The canonical order of transactions -----

  function TextFields(t: Transaction): seq<string> {
    [t.url, t.verb, t.mimeType, t.resourceType, t.protocol]
  }

  function NumberFields(t: Transaction): seq<int> {
    [t.status, t.wireBytes, t.timing.queueMs, t.timing.dnsMs, t.timing.connectMs, t.timing.tlsMs, t.timing.ttfbMs,
     t.timing.totalMs]
  }

  /** The first field that differs decides. */
  predicate FirstDifference<T(==)>(less: (T, T) -> bool, a: seq<T>, b: seq<T>)
    requires |a| == |b|
  {
    a != [] && (if a[0] != b[0] then less(a[0], b[0]) else FirstDifference(less, a[1..], b[1..]))
  }

  predicate Smaller(x: int, y: int) { x < y }

  predicate PrecedesBy(text: seq<string>, numbers: seq<int>, reused: bool, text': seq<string>, numbers': seq<int>, reused': bool)
    requires |text| == |text'| && |numbers| == |numbers'|
  {
    if text != text' then FirstDifference(Before, text, text')
    else if numbers != numbers' then FirstDifference(Smaller, numbers, numbers')
    else !reused && reused'
  }

  predicate Precedes(left: Transaction, right: Transaction) {
    PrecedesBy(TextFields(left), NumberFields(left), left.connectionReused,
               TextFields(right), NumberFields(right), right.connectionReused)
  }

  lemma {:induction false} FieldsTotal<T(!new)>(less: (T, T) -> bool, domain: T -> bool, a: seq<T>, b: seq<T>)
    requires |a| == |b| && StrictTotalOn(less, domain) && (forall x :: domain(x))
    ensures !FirstDifference(less, a, a)
    ensures a != b ==> FirstDifference(less, a, b) || FirstDifference(less, b, a)
  {
    if a != [] {
      FieldsTotal(less, domain, a[1..], b[1..]);
      assert a == [a[0]] + a[1..] && b == [b[0]] + b[1..];
      assert domain(a[0]) && domain(b[0]);
    }
  }

  lemma {:induction false} FieldsTransitive<T(!new)>(
      less: (T, T) -> bool, domain: T -> bool, a: seq<T>, b: seq<T>, c: seq<T>)
    requires |a| == |b| == |c| && StrictTotalOn(less, domain) && (forall x :: domain(x))
    requires FirstDifference(less, a, b) && FirstDifference(less, b, c)
    ensures FirstDifference(less, a, c)
  {
    var x, y, z := a[0], b[0], c[0];
    assert domain(x) && domain(y) && domain(z);
    if x == y == z {
      FieldsTransitive(less, domain, a[1..], b[1..], c[1..]);
    } else if x != y && y != z {
      assert less(x, y) && less(y, z) && !less(x, x);
    }
  }

  lemma FieldsDetermine(a: Transaction, b: Transaction)
    requires TextFields(a) == TextFields(b) && NumberFields(a) == NumberFields(b)
    requires a.connectionReused == b.connectionReused
    ensures a == b
  {
    var s, t, m, n := TextFields(a), TextFields(b), NumberFields(a), NumberFields(b);
    assert s[0] == t[0] && s[1] == t[1] && s[2] == t[2] && s[3] == t[3] && s[4] == t[4];
    assert m[0] == n[0] && m[1] == n[1] && m[2] == n[2] && m[3] == n[3] && m[4] == n[4] && m[5] == n[5];
    assert m[6] == n[6] && m[7] == n[7];
    assert a.timing == b.timing;
  }

  lemma OrdersOfFields()
    ensures StrictTotalOn(Before, (s: string) => true)
    ensures StrictTotalOn(Smaller, (n: int) => true)
  {
    BeforeStrictTotal();
  }

  lemma PrecedesByTotal(s: seq<string>, m: seq<int>, p: bool, t: seq<string>, n: seq<int>, q: bool)
    requires |s| == |t| && |m| == |n|
    ensures !PrecedesBy(s, m, p, s, m, p)
    ensures (s == t && m == n && p == q) || PrecedesBy(s, m, p, t, n, q) || PrecedesBy(t, n, q, s, m, p)
  {
    OrdersOfFields();
    FieldsTotal(Before, (s: string) => true, s, t);
    FieldsTotal(Smaller, (n: int) => true, m, n);
  }

  lemma PrecedesByTransitive(
      s: seq<string>, m: seq<int>, p: bool, t: seq<string>, n: seq<int>, q: bool, u: seq<string>, o: seq<int>, r: bool)
    requires |s| == |t| == |u| && |m| == |n| == |o|
    requires PrecedesBy(s, m, p, t, n, q) && PrecedesBy(t, n, q, u, o, r)
    ensures PrecedesBy(s, m, p, u, o, r)
  {
    OrdersOfFields();
    FieldsTotal(Before, (s: string) => true, s, t);
    FieldsTotal(Smaller, (n: int) => true, m, n);
    if s != t && t != u { FieldsTransitive(Before, (s: string) => true, s, t, u); }
    if m != n && n != o && FirstDifference(Smaller, m, n) && FirstDifference(Smaller, n, o) {
      FieldsTransitive(Smaller, (n: int) => true, m, n, o);
    }
  }

  /** The comparator leaves out no field: it is a strict total order on transactions. */
  lemma PrecedesStrictTotal()
    ensures StrictTotalOn(Precedes, (t: Transaction) => true)
  {
    forall a: Transaction, b: Transaction ensures !Precedes(a, a) && (a == b || Precedes(a, b) || Precedes(b, a)) {
      PrecedesTotal(a, b);
    }
    forall a: Transaction, b: Transaction, c: Transaction | Precedes(a, b) && Precedes(b, c) ensures Precedes(a, c) {
      PrecedesByTransitive(TextFields(a), NumberFields(a), a.connectionReused, TextFields(b), NumberFields(b),
                           b.connectionReused, TextFields(c), NumberFields(c), c.connectionReused);
    }
  }

  lemma PrecedesTotal(a: Transaction, b: Transaction)
    ensures !Precedes(a, a) && (a == b || Precedes(a, b) || Precedes(b, a))
  {
    PrecedesByTotal(TextFields(a), NumberFields(a), a.connectionReused, TextFields(b), NumberFields(b),
                    b.connectionReused);
    if TextFields(a) == TextFields(b) && NumberFields(a) == NumberFields(b) && a.connectionReused == b.connectionReused {
      FieldsDetermine(a, b);
    }
  }

  /** Reports do not depend on arrival order: the sorted transactions of two interleavings are the same list. */
  lemma SortedTransactionsAreCanonical(limit: nat, lib: Sanitizer, a: seq<Event>, b: seq<Event>)
    requires SameParts(IdOf, a, b)
    requires NeverRefused(limit, lib, a) && NeverRefused(limit, lib, b)
    ensures SortBy(Precedes, Correlated(limit, lib, a).transactions)
         == SortBy(Precedes, Correlated(limit, lib, b).transactions)
    ensures forall sorted ::
              Sorted(Precedes, sorted) && multiset(sorted) == multiset(Correlated(limit, lib, b).transactions)
              ==> sorted == SortBy(Precedes, Correlated(limit, lib, a).transactions)
  {
    PrecedesStrictTotal();
    InterleavingsCaptureTheSame(limit, lib, a, b);
    var ta, tb := Correlated(limit, lib, a).transactions, Correlated(limit, lib, b).transactions;
    SortByCanonical(Precedes, (t: Transaction) => true, ta, tb);
    SortBySorts(Precedes, (t: Transaction) => true, ta);
    forall sorted | Sorted(Precedes, sorted) && multiset(sorted) == multiset(tb) ensures sorted == SortBy(Precedes, ta) {
      SortedUnique(Precedes, (t: Transaction) => true, sorted, SortBy(Precedes, ta));
    }
  }

  // ----- What any number of responses leave in a transaction -----

  function PatchAll(lib: Sanitizer, t: Transaction, rs: seq<Observation>, start: real): Transaction {
    if rs == [] then t else PatchTransaction(lib, PatchAll(lib, t, rs[..|rs| - 1], start), rs[|rs| - 1], start)
  }

  /** The last observed value, if there is one. */
  function Latest<T>(rs: seq<Observation>, value: Observation -> T, observed: T -> bool, otherwise: T): T {
    if rs == [] then otherwise
    else if observed(value(rs[|rs| - 1])) then value(rs[|rs| - 1])
    else Latest(rs[..|rs| - 1], value, observed, otherwise)
  }

  predicate IsPositive(x: int) { x > 0 }

  predicate IsText(x: string) { x != "" }

  predicate Always<T>(x: T) { true }

  /**
   * Patching by any number of responses keeps what the request said, the wire size and the total, takes status and reuse
   * from the last response, and every other field from the last response that had anything to say about it.
   */
  lemma {:induction false} LatestObservationWins(lib: Sanitizer, t: Transaction, rs: seq<Observation>, start: real)
    ensures var u := PatchAll(lib, t, rs, start);
            && u.verb == t.verb && u.url == t.url && u.resourceType == t.resourceType && u.wireBytes == t.wireBytes
            && u.status == Latest(rs, (r: Observation) => r.status, Always, t.status)
            && u.connectionReused == Latest(rs, (r: Observation) => r.connectionReused, Always, t.connectionReused)
            && u.mimeType == Latest(rs, (r: Observation) => lib.cleanMetadata(r.mimeType), IsText, t.mimeType)
            && u.protocol == Latest(rs, (r: Observation) => lib.cleanMetadata(r.protocol), IsText, t.protocol)
  {
    if rs != [] { LatestObservationWins(lib, t, rs[..|rs| - 1], start); }
  }

  lemma {:induction false} LatestTimingWins(lib: Sanitizer, t: Transaction, rs: seq<Observation>, start: real)
    ensures var timing := PatchAll(lib, t, rs, start).timing;
            && timing.totalMs == t.timing.totalMs
            && timing.dnsMs == Latest(rs, (r: Observation) => r.timing.dnsMs, IsPositive, t.timing.dnsMs)
            && timing.connectMs == Latest(rs, (r: Observation) => r.timing.connectMs, IsPositive, t.timing.connectMs)
            && timing.tlsMs == Latest(rs, (r: Observation) => r.timing.tlsMs, IsPositive, t.timing.tlsMs)
            && timing.ttfbMs == Latest(rs, (r: Observation) => r.timing.ttfbMs, IsPositive, t.timing.ttfbMs)
            && timing.queueMs
               == Latest(rs, (r: Observation) => BoundedDurationMs(r.requestTime - start), IsPositive, t.timing.queueMs)
  {
    if rs != [] { LatestTimingWins(lib, t, rs[..|rs| - 1], start); }
  }
}

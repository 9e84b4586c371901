/** Strict total orders, the canonical sort they induce, and the order of strings. */
module Ordering {

  // ----- Orders -----

  /** less is a strict total order on the values that satisfy domain. */
  ghost predicate StrictTotalOn<T(!new)>(less: (T, T) -> bool, domain: T -> bool) {
    && (forall x {:trigger less(x, x)} | domain(x) :: !less(x, x))
    && (forall x, y {:trigger less(x, y)} | domain(x) && domain(y) :: x == y || less(x, y) || less(y, x))
    && (forall x, y, z {:trigger less(x, y), less(y, z)} |
          domain(x) && domain(y) && domain(z) && less(x, y) && less(y, z) :: less(x, z))
  }

  ghost predicate AllIn<T>(s: seq<T>, domain: T -> bool) {
    forall x | x in s :: domain(x)
  }

  /** No element is preceded by a larger one. */
  ghost predicate Sorted<T>(less: (T, T) -> bool, s: seq<T>) {
    forall i, j | 0 <= i < j < |s| :: !less(s[j], s[i])
  }

  ghost predicate StrictlySorted<T>(less: (T, T) -> bool, s: seq<T>) {
    forall i, j | 0 <= i < j < |s| :: less(s[i], s[j])
  }

  // ----- The sort -----

  function Insert<T>(less: (T, T) -> bool, s: seq<T>, x: T): (r: seq<T>)
    ensures multiset(r) == multiset(s) + multiset{x}
  {
    if s == [] then [x]
    else if less(x, s[|s| - 1]) then
      assert s == s[..|s| - 1] + [s[|s| - 1]];
      Insert(less, s[..|s| - 1], x) + [s[|s| - 1]]
    else s + [x]
  }

  /** What a library sort with comparator less returns. */
  function SortBy<T>(less: (T, T) -> bool, s: seq<T>): (r: seq<T>)
    ensures multiset(r) == multiset(s)
  {
    if s == [] then []
    else
      assert s == s[..|s| - 1] + [s[|s| - 1]];
      Insert(less, SortBy(less, s[..|s| - 1]), s[|s| - 1])
  }

  lemma SameElements<T>(s: seq<T>, t: seq<T>)
    requires multiset(s) == multiset(t)
    ensures forall x :: x in s <==> x in t
    ensures |s| == |t|
  {
    forall x ensures x in s <==> x in t {
      assert x in s <==> x in multiset(s);
      assert x in t <==> x in multiset(t);
    }
    assert |multiset(s)| == |s| && |multiset(t)| == |t|;
  }

  lemma AppendSorted<T(!new)>(less: (T, T) -> bool, s: seq<T>, x: T)
    requires Sorted(less, s) && forall i | 0 <= i < |s| :: !less(x, s[i])
    ensures Sorted(less, s + [x])
  {
  }

  lemma InitSorted<T(!new)>(less: (T, T) -> bool, s: seq<T>)
    requires Sorted(less, s) && s != []
    ensures Sorted(less, s[..|s| - 1])
    ensures forall i | 0 <= i < |s| - 1 :: !less(s[|s| - 1], s[i])
  {
  }

  lemma {:induction false} InsertSorted<T(!new)>(less: (T, T) -> bool, domain: T -> bool, s: seq<T>, x: T)
    requires StrictTotalOn(less, domain) && AllIn(s, domain) && domain(x)
    requires Sorted(less, s)
    ensures Sorted(less, Insert(less, s, x))
  {
    if s != [] && less(x, s[|s| - 1]) {
      var last, init := s[|s| - 1], s[..|s| - 1];
      var r := Insert(less, init, x);
      InitSorted(less, s);
      InsertSorted(less, domain, init, x);
      SameElements(r, init + [x]);
      forall i | 0 <= i < |r| ensures !less(last, r[i]) {
        assert r[i] in init + [x];
        assert domain(r[i]) && domain(last);
      }
      AppendSorted(less, r, last);
    } else if s != [] {
      var last := s[|s| - 1];
      forall i | 0 <= i < |s| ensures !less(x, s[i]) {
        assert domain(s[i]) && domain(last) && !less(last, s[i]);
      }
      AppendSorted(less, s, x);
    }
  }

  lemma {:induction false} SortBySorts<T(!new)>(less: (T, T) -> bool, domain: T -> bool, s: seq<T>)
    requires StrictTotalOn(less, domain) && AllIn(s, domain)
    ensures Sorted(less, SortBy(less, s))
  {
    if s != [] {
      var init := s[..|s| - 1];
      SortBySorts(less, domain, init);
      SameElements(SortBy(less, init), init);
      InsertSorted(less, domain, SortBy(less, init), s[|s| - 1]);
    }
  }

  lemma LastIsLargest<T(!new)>(less: (T, T) -> bool, domain: T -> bool, s: seq<T>, x: T)
    requires StrictTotalOn(less, domain) && AllIn(s, domain) && Sorted(less, s) && x in s
    ensures !less(s[|s| - 1], x)
  {
    var i :| 0 <= i < |s| && s[i] == x;
    assert domain(x);
  }

  lemma DropEqualLasts<T>(s: seq<T>, t: seq<T>)
    requires s != [] && t != [] && s[|s| - 1] == t[|t| - 1] && multiset(s) == multiset(t)
    ensures multiset(s[..|s| - 1]) == multiset(t[..|t| - 1])
    ensures s[..|s| - 1] == t[..|t| - 1] ==> s == t
  {
    var u, v := s[..|s| - 1], t[..|t| - 1];
    var last := multiset{s[|s| - 1]};
    assert s == u + [s[|s| - 1]] && t == v + [t[|t| - 1]];
    assert multiset(u) == multiset(s) - last && multiset(v) == multiset(t) - last;
  }

  /** Two sorted lists with the same elements, counted, are the same list. */
  lemma {:induction false} SortedUnique<T(!new)>(less: (T, T) -> bool, domain: T -> bool, s: seq<T>, t: seq<T>)
    requires StrictTotalOn(less, domain) && AllIn(s, domain)
    requires Sorted(less, s) && Sorted(less, t) && multiset(s) == multiset(t)
    ensures s == t
  {
    SameElements(s, t);
    if s != [] {
      var a, b := s[|s| - 1], t[|t| - 1];
      LastIsLargest(less, domain, s, b);
      LastIsLargest(less, domain, t, a);
      assert domain(a) && domain(b) && a == b;
      DropEqualLasts(s, t);
      SortedUnique(less, domain, s[..|s| - 1], t[..|t| - 1]);
    }
  }

  /** Sorting forgets the order of its input. */
  lemma SortByCanonical<T(!new)>(less: (T, T) -> bool, domain: T -> bool, s: seq<T>, t: seq<T>)
    requires StrictTotalOn(less, domain) && AllIn(s, domain) && multiset(s) == multiset(t)
    ensures SortBy(less, s) == SortBy(less, t)
  {
    SameElements(s, t);
    SortBySorts(less, domain, s);
    SortBySorts(less, domain, t);
    SameElements(SortBy(less, s), s);
    SortedUnique(less, domain, SortBy(less, s), SortBy(less, t));
  }

  /** In a strictly sorted list the last element does not occur earlier. */
  lemma InitMembers<T(!new)>(less: (T, T) -> bool, domain: T -> bool, init: seq<T>, last: T)
    requires StrictTotalOn(less, domain) && domain(last) && StrictlySorted(less, init + [last])
    ensures StrictlySorted(less, init)
    ensures forall x :: x in init <==> x in init + [last] && x != last
  {
    var s := init + [last];
    forall i | 0 <= i < |init| ensures init[i] != last {
      assert s[i] == init[i] && s[|init|] == last && less(s[i], s[|init|]);
    }
    forall i, j | 0 <= i < j < |init| ensures less(init[i], init[j]) {
      assert s[i] == init[i] && s[j] == init[j];
    }
  }

  lemma StrictlySortedSorts<T(!new)>(less: (T, T) -> bool, domain: T -> bool, s: seq<T>)
    requires StrictTotalOn(less, domain) && AllIn(s, domain) && StrictlySorted(less, s)
    ensures Sorted(less, s)
  {
    forall i, j | 0 <= i < j < |s| ensures !less(s[j], s[i]) {
      assert domain(s[i]) && domain(s[j]) && less(s[i], s[j]) && !less(s[j], s[j]);
    }
  }

  /** Two strictly sorted lists of the same set are the same list. */
  lemma {:induction false} StrictlySortedUnique<T(!new)>(less: (T, T) -> bool, domain: T -> bool, s: seq<T>, t: seq<T>)
    requires StrictTotalOn(less, domain) && AllIn(s, domain)
    requires StrictlySorted(less, s) && StrictlySorted(less, t)
    requires forall x :: x in s <==> x in t
    ensures s == t
    decreases |s|
  {
    if s == [] {
      assert forall i | 0 <= i < |t| :: t[i] in s;
    } else {
      assert s[0] in t;
      assert AllIn(t, domain);
      var a, b := s[|s| - 1], t[|t| - 1];
      StrictlySortedSorts(less, domain, s);
      StrictlySortedSorts(less, domain, t);
      assert b in s && a in t;
      LastIsLargest(less, domain, s, b);
      LastIsLargest(less, domain, t, a);
      assert domain(a) && domain(b) && a == b;
      var u, v := s[..|s| - 1], t[..|t| - 1];
      assert s == u + [a] && t == v + [a];
      InitMembers(less, domain, u, a);
      InitMembers(less, domain, v, a);
      assert AllIn(u, domain);
      StrictlySortedUnique(less, domain, u, v);
    }
  }

  // ----- Strings -----

  /** The order of Go strings: character by character, a proper prefix first. */
  predicate Before(a: string, b: string) {
    b != [] && (a == [] || a[0] < b[0] || (a[0] == b[0] && Before(a[1..], b[1..])))
  }

  lemma {:induction false} BeforeIrreflexive(a: string)
    ensures !Before(a, a)
  {
    if a != [] { BeforeIrreflexive(a[1..]); }
  }

  lemma {:induction false} BeforeTotal(a: string, b: string)
    ensures a == b || Before(a, b) || Before(b, a)
  {
    if a != [] && b != [] && a[0] == b[0] {
      BeforeTotal(a[1..], b[1..]);
      assert a == [a[0]] + a[1..] && b == [b[0]] + b[1..];
    }
  }

  lemma {:induction false} BeforeTransitive(a: string, b: string, c: string)
    requires Before(a, b) && Before(b, c)
    ensures Before(a, c)
  {
    if a != [] && a[0] == b[0] == c[0] {
      BeforeTransitive(a[1..], b[1..], c[1..]);
    }
  }

  lemma BeforeStrictTotal()
    ensures StrictTotalOn(Before, (s: string) => true)
  {
    forall a: string ensures !Before(a, a) { BeforeIrreflexive(a); }
    forall a: string, b: string ensures a == b || Before(a, b) || Before(b, a) { BeforeTotal(a, b); }
    forall a: string, b: string, c: string | Before(a, b) && Before(b, c) ensures Before(a, c) {
      BeforeTransitive(a, b, c);
    }
  }

  /** The elements of a list, as a set. */
  function Elements<T(!new)>(s: seq<T>): (r: set<T>)
    ensures forall x :: x in r <==> x in s
  {
    set x | x in s
  }

  /** items is the strictly sorted list of the strings of s. */
  ghost predicate Lists(items: seq<string>, s: set<string>) {
    StrictlySorted(Before, items) && Elements(items) == s
  }

  lemma ListsUnique(a: seq<string>, b: seq<string>, s: set<string>)
    requires Lists(a, s) && Lists(b, s)
    ensures a == b
  {
    BeforeStrictTotal();
    forall x ensures x in a <==> x in b { assert x in a <==> x in Elements(a); assert x in b <==> x in Elements(b); }
    StrictlySortedUnique(Before, (s: string) => true, a, b);
  }

  lemma ListsEmpty(items: seq<string>, s: set<string>)
    requires Lists(items, s)
    ensures items == [] <==> s == {}
  {
    if items != [] { assert items[0] in s; }
  }

  lemma ElementsAppend<T(!new)>(s: seq<T>, x: T)
    ensures Elements(s + [x]) == Elements(s) + {x}
  {
  }

  lemma ElementsConcat<T(!new)>(s: seq<T>, t: seq<T>)
    ensures Elements(s + t) == Elements(s) + Elements(t)
  {
  }

  lemma ExtendStrictly(s: seq<string>, x: string)
    requires StrictlySorted(Before, s)
    requires s != [] ==> Before(s[|s| - 1], x)
    ensures StrictlySorted(Before, s + [x])
  {
    forall j | 0 <= j < |s| ensures Before(s[j], x) {
      if j < |s| - 1 { BeforeTransitive(s[j], s[|s| - 1], x); }
    }
  }

  /** One copy of every run of equal elements. */
  function DropRuns<T(==)>(s: seq<T>): seq<T> {
    if s == [] then []
    else
      var kept := DropRuns(s[..|s| - 1]);
      if kept == [] || kept[|kept| - 1] != s[|s| - 1] then kept + [s[|s| - 1]] else kept
  }

  lemma ExtendStrictlyBy<T(!new)>(less: (T, T) -> bool, domain: T -> bool, s: seq<T>, x: T)
    requires StrictTotalOn(less, domain) && AllIn(s, domain) && domain(x)
    requires StrictlySorted(less, s)
    requires s != [] ==> less(s[|s| - 1], x)
    ensures StrictlySorted(less, s + [x])
  {
    forall j | 0 <= j < |s| ensures less(s[j], x) {
      if j < |s| - 1 {
        assert domain(s[j]) && domain(s[|s| - 1]);
        assert less(s[j], s[|s| - 1]);
      }
    }
  }

  /** Of a sorted list, one copy of every run is the strictly sorted list of its set. */
  lemma {:induction false} DropRunsStrict<T(!new)>(less: (T, T) -> bool, domain: T -> bool, s: seq<T>)
    requires StrictTotalOn(less, domain) && AllIn(s, domain) && Sorted(less, s)
    ensures StrictlySorted(less, DropRuns(s))
    ensures forall x :: x in DropRuns(s) <==> x in s
    ensures s != [] ==> DropRuns(s) != [] && DropRuns(s)[|DropRuns(s)| - 1] == s[|s| - 1]
  {
    if s != [] {
      var done, x := s[..|s| - 1], s[|s| - 1];
      assert s == done + [x];
      InitSorted(less, s);
      DropRunsStrict(less, domain, done);
      var kept := DropRuns(done);
      if done != [] && kept[|kept| - 1] != x {
        assert domain(x) && domain(done[|done| - 1]);
        ExtendStrictlyBy(less, domain, kept, x);
      }
    }
  }

  lemma DropRunsLists(s: seq<string>)
    requires Sorted(Before, s)
    ensures Lists(DropRuns(s), Elements(s))
  {
    BeforeStrictTotal();
    DropRunsStrict(Before, (s: string) => true, s);
  }

  /** Sorts, then keeps the first of every run of equal strings. */
  method DeduplicateSorted(items: seq<string>) returns (result: seq<string>)
    ensures Lists(result, Elements(items))
  {
    if |items| == 0 {
      return [];
    }
    var sorted := SortBy(Before, items);
    result := [];
    for i := 0 to |sorted|
      invariant result == DropRuns(sorted[..i])
    {
      assert sorted[..i + 1][..i] == sorted[..i];
      if |result| == 0 || result[|result| - 1] != sorted[i] {
        result := result + [sorted[i]];
      }
    }
    assert sorted[..|sorted|] == sorted;
    DeduplicatedLists(items);
  }

  lemma DeduplicatedLists(items: seq<string>)
    ensures Lists(DropRuns(SortBy(Before, items)), Elements(items))
  {
    BeforeStrictTotal();
    SortBySorts(Before, (s: string) => true, items);
    SameElements(SortBy(Before, items), items);
    DropRunsLists(SortBy(Before, items));
  }
}

/** Sequences seen through a key: when the parts of every key determine the whole, up to order. */
module Interleaving {
  import opened Model

  /** The elements with one key, in order. */
  function Only<T, K(==)>(key: T -> K, k: K, s: seq<T>): (r: seq<T>)
    ensures |r| <= |s|
  {
    if s == [] then []
    else
      var rest := Only(key, k, s[..|s| - 1]);
      if key(s[|s| - 1]) == k then rest + [s[|s| - 1]] else rest
  }

  /** Whether two sequences are interleavings of the same parts. */
  ghost predicate SameParts<T, K(!new)>(key: T -> K, s: seq<T>, t: seq<T>) {
    forall k :: Only(key, k, s) == Only(key, k, t)
  }

  lemma {:induction false} OnlyCounts<T, K>(key: T -> K, s: seq<T>, x: T)
    ensures multiset(s)[x] == multiset(Only(key, key(x), s))[x]
  {
    if s != [] {
      assert s == s[..|s| - 1] + [s[|s| - 1]];
      OnlyCounts(key, s[..|s| - 1], x);
    }
  }

  /** Interleavings of the same parts hold the same elements. */
  lemma PartsDetermineElements<T(!new), K(!new)>(key: T -> K, s: seq<T>, t: seq<T>)
    requires SameParts(key, s, t)
    ensures multiset(s) == multiset(t)
  {
    forall x ensures multiset(s)[x] == multiset(t)[x] {
      OnlyCounts(key, s, x);
      OnlyCounts(key, t, x);
      assert Only(key, key(x), s) == Only(key, key(x), t);
    }
  }

  /** What f keeps of each element, in order. */
  function Collect<T, U>(f: T -> Option<U>, s: seq<T>): seq<U> {
    if s == [] then []
    else Collect(f, s[..|s| - 1]) + Single(f(s[|s| - 1]))
  }

  function Single<U>(x: Option<U>): seq<U> {
    if x.None? then [] else [x.value]
  }

  lemma {:induction false} CollectConcat<T, U>(f: T -> Option<U>, s: seq<T>, t: seq<T>)
    ensures Collect(f, s + t) == Collect(f, s) + Collect(f, t)
  {
    if t == [] {
      assert s + t == s;
    } else {
      assert (s + t)[..|s + t| - 1] == s + t[..|t| - 1];
      CollectConcat(f, s, t[..|t| - 1]);
    }
  }

  lemma CollectOne<T, U>(f: T -> Option<U>, x: T)
    ensures Collect(f, [x]) == Single(f(x))
  {
    assert [x][..0] == [];
  }

  /** Taking out one occurrence of an element. */
  lemma TakeOut<T>(s: seq<T>, x: T) returns (a: seq<T>, b: seq<T>)
    requires x in multiset(s)
    ensures s == a + ([x] + b)
    ensures multiset(a + b) == multiset(s) - multiset{x}
  {
    var i :| 0 <= i < |s| && s[i] == x;
    a, b := s[..i], s[i + 1..];
    assert s == a + ([x] + b);
  }

  lemma LastOut<T>(s: seq<T>, init: seq<T>, x: T)
    requires s != [] && init == s[..|s| - 1] && x == s[|s| - 1]
    ensures s == init + ([x] + []) && init == init + []
    ensures x in multiset(s) && multiset(init) == multiset(s) - multiset{x}
  {
    assert s == init + [x];
  }

  /** Collecting does not depend on the order of the input, up to the order of the output. */
  lemma {:induction false} CollectIgnoresOrder<T, U>(f: T -> Option<U>, s: seq<T>, t: seq<T>)
    requires multiset(s) == multiset(t)
    ensures multiset(Collect(f, s)) == multiset(Collect(f, t))
    decreases |s|
  {
    if s == [] {
      assert |multiset(t)| == 0;
    } else {
      var init, x := s[..|s| - 1], s[|s| - 1];
      LastOut(s, init, x);
      var a, b := TakeOut(t, x);
      CollectIgnoresOrder(f, init, a + b);
      CollectMiddle(f, s, init, x, [], init);
      CollectMiddle(f, t, a, x, b, a + b);
    }
  }

  lemma CollectMiddle<T, U>(f: T -> Option<U>, whole: seq<T>, a: seq<T>, x: T, b: seq<T>, rest: seq<T>)
    requires whole == a + ([x] + b) && rest == a + b
    ensures multiset(Collect(f, whole)) == multiset(Collect(f, rest)) + multiset(Single(f(x)))
  {
    CollectConcat(f, a, [x] + b);
    CollectConcat(f, [x], b);
    CollectConcat(f, a, b);
    CollectOne(f, x);
    MultisetMiddle(Collect(f, a), Single(f(x)), Collect(f, b));
  }

  lemma MultisetMiddle<U>(a: seq<U>, x: seq<U>, b: seq<U>)
    ensures multiset(a + (x + b)) == multiset(a + b) + multiset(x)
  {
  }
}

/** Finite sums of reals, and maxima per key: the arithmetic behind correlation groups. */
module Sums {

  /** One scored entry, filed under a key. */
  datatype Item<K> = Item(key: K, score: real)

  // ----- Sum of a table -----

  /** The sum of all values of a table, in any order. */
  ghost function Sum<K>(table: map<K, real>): real {
    if table == map[] then 0.0
    else
      var k :| k in table;
      table[k] + Sum(table - {k})
  }

  /** Any key may be taken out first. */
  lemma {:induction false} SumRemove<K>(table: map<K, real>, k: K)
    requires k in table
    ensures Sum(table) == table[k] + Sum(table - {k})
  {
    var j :| j in table && Sum(table) == table[j] + Sum(table - {j});
    if j != k {
      SumRemove(table - {j}, k);
      SumRemove(table - {k}, j);
      assert (table - {j}) - {k} == (table - {k}) - {j};
    }
  }

  /** Adding or replacing one entry. */
  lemma SumUpdate<K>(table: map<K, real>, k: K, v: real)
    ensures Sum(table[k := v]) == Sum(table) - (if k in table then table[k] else 0.0) + v
  {
    var updated := table[k := v];
    SumRemove(updated, k);
    if k in table {
      SumRemove(table, k);
      assert updated - {k} == table - {k};
    } else {
      assert updated - {k} == table;
    }
  }

  /** A table that maps injectively into a larger one, below it and with nothing negative left over, has a smaller sum. */
  lemma {:induction false} SumInject<K, L>(a: map<K, real>, b: map<L, real>, into: map<K, L>)
    requires into.Keys == a.Keys
    requires forall k | k in a :: into[k] in b && a[k] <= b[into[k]]
    requires forall j, k | j in a && k in a && into[j] == into[k] :: j == k
    requires forall l | l in b :: b[l] >= 0.0
    ensures Sum(a) <= Sum(b)
    ensures |a| <= |b|
    decreases |a|
  {
    if a == map[] {
      SumNonnegative(b);
    } else {
      var k :| k in a;
      var l := into[k];
      SumRemove(a, k);
      SumRemove(b, l);
      SumInject(a - {k}, b - {l}, into - {k});
      assert |a.Keys| == |(a - {k}).Keys| + 1 by { assert (a - {k}).Keys == a.Keys - {k}; }
      assert |b.Keys| == |(b - {l}).Keys| + 1 by { assert (b - {l}).Keys == b.Keys - {l}; }
    }
  }

  lemma {:induction false} SumNonnegative<K>(table: map<K, real>)
    requires forall k | k in table :: table[k] >= 0.0
    ensures Sum(table) >= 0.0
    decreases |table|
  {
    if table != map[] {
      var k :| k in table;
      SumRemove(table, k);
      assert |table.Keys| == |(table - {k}).Keys| + 1 by { assert (table - {k}).Keys == table.Keys - {k}; }
      SumNonnegative(table - {k});
    }
  }

  // ----- Maxima per key -----

  /** The largest score filed under each key. */
  function GroupMaxima<K>(items: seq<Item<K>>): map<K, real> {
    if items == [] then map[]
    else
      var table := GroupMaxima(items[..|items| - 1]);
      var last := items[|items| - 1];
      table[last.key := if last.key in table && table[last.key] >= last.score then table[last.key] else last.score]
  }

  lemma {:induction false} GroupMaximaMeaning<K(!new)>(items: seq<Item<K>>)
    ensures forall k :: k in GroupMaxima(items) <==> exists i :: 0 <= i < |items| && items[i].key == k
    ensures forall i | 0 <= i < |items| :: items[i].key in GroupMaxima(items) && items[i].score <= GroupMaxima(items)[items[i].key]
    ensures forall k | k in GroupMaxima(items) ::
              exists i :: 0 <= i < |items| && items[i].key == k && items[i].score == GroupMaxima(items)[k]
  {
    if items != [] {
      var init := items[..|items| - 1];
      var last := items[|items| - 1];
      GroupMaximaMeaning(init);
      var table := GroupMaxima(items);
      forall k | k in table
        ensures exists i :: 0 <= i < |items| && items[i].key == k && items[i].score == table[k]
      {
        if k in GroupMaxima(init) && table[k] == GroupMaxima(init)[k] {
          var i :| 0 <= i < |init| && init[i].key == k && init[i].score == GroupMaxima(init)[k];
          assert items[i] == init[i];
        } else {
          assert items[|items| - 1].key == k;
        }
      }
      forall i | 0 <= i < |items| ensures items[i].key in table && items[i].score <= table[items[i].key] {
        if i < |init| { assert items[i] == init[i]; }
      }
    }
  }

  /**
   * at embeds a into b: a[i] is below b[at[i]], every b[at[i]] keeps the entries of a apart at least as well
   * as a does, so b files under finer keys.
   */
  ghost predicate Below<K, L>(a: seq<Item<K>>, b: seq<Item<L>>, at: seq<nat>) {
    && |at| == |a|
    && (forall i | 0 <= i < |at| :: at[i] < |b| && a[i].score <= b[at[i]].score)
    && (forall i, j | 0 <= i < |at| && 0 <= j < |at| && b[at[i]].key == b[at[j]].key :: a[i].key == a[j].key)
  }

  /** A position whose entry attains the maximum of key k. */
  ghost function Selected<K(!new)>(items: seq<Item<K>>, k: K): (i: nat)
    requires k in GroupMaxima(items)
    ensures i < |items| && items[i].key == k && items[i].score == GroupMaxima(items)[k]
  {
    GroupMaximaMeaning(items);
    var i: nat :| i < |items| && items[i].key == k && items[i].score == GroupMaxima(items)[k];
    i
  }

  /** The group of b that holds the counterpart of the selected entry of group k. */
  ghost function Counterpart<K(!new), L>(a: seq<Item<K>>, b: seq<Item<L>>, at: seq<nat>, k: K): L
    requires Below(a, b, at) && k in GroupMaxima(a)
  {
    b[at[Selected(a, k)]].key
  }

  lemma CounterpartAbove<K(!new), L(!new)>(a: seq<Item<K>>, b: seq<Item<L>>, at: seq<nat>, k: K)
    requires Below(a, b, at) && k in GroupMaxima(a)
    ensures Counterpart(a, b, at, k) in GroupMaxima(b)
    ensures GroupMaxima(a)[k] <= GroupMaxima(b)[Counterpart(a, b, at, k)]
  {
    GroupMaximaMeaning(b);
    var i := at[Selected(a, k)];
    assert b[i].key in GroupMaxima(b) && b[i].score <= GroupMaxima(b)[b[i].key];
  }

  lemma GroupMaximaNonnegative<K(!new)>(items: seq<Item<K>>)
    requires forall i | 0 <= i < |items| :: items[i].score >= 0.0
    ensures forall k | k in GroupMaxima(items) :: GroupMaxima(items)[k] >= 0.0
  {
    forall k | k in GroupMaxima(items) ensures GroupMaxima(items)[k] >= 0.0 {
      var i := Selected(items, k);
    }
  }

  /** Finer keys and more entries only raise the number of groups and the sum of the group maxima. */
  lemma BelowBounds<K(!new), L(!new)>(a: seq<Item<K>>, b: seq<Item<L>>, at: seq<nat>)
    requires Below(a, b, at)
    requires forall i | 0 <= i < |b| :: b[i].score >= 0.0
    ensures Sum(GroupMaxima(a)) <= Sum(GroupMaxima(b))
    ensures |GroupMaxima(a)| <= |GroupMaxima(b)|
  {
    var into := map k | k in GroupMaxima(a) :: Counterpart(a, b, at, k);
    forall k | k in GroupMaxima(a) ensures into[k] in GroupMaxima(b) && GroupMaxima(a)[k] <= GroupMaxima(b)[into[k]] {
      CounterpartAbove(a, b, at, k);
    }
    forall j, k | j in GroupMaxima(a) && k in GroupMaxima(a) && into[j] == into[k] ensures j == k {
      var x, y := Selected(a, j), Selected(a, k);
      assert b[at[x]].key == b[at[y]].key;
    }
    GroupMaximaNonnegative(b);
    SumInject(GroupMaxima(a), GroupMaxima(b), into);
  }

  /** Entries that the finer keys file together belong to the same coarse group. */
  lemma CounterpartKeeps<K(!new), L(!new)>(a: seq<Item<K>>, b: seq<Item<L>>, at: seq<nat>, k: K, i: nat)
    requires Below(a, b, at) && k in GroupMaxima(a) && i < |at|
    ensures Counterpart(a, b, at, k) == b[at[i]].key ==> k == a[i].key
  {
    var x := Selected(a, k);
    assert b[at[x]].key == b[at[i]].key ==> a[x].key == a[i].key;
  }

  /** Where finer keys tell two entries of one group apart, they count more groups and a larger sum. */
  lemma BelowStrictly<K(!new), L(!new)>(a: seq<Item<K>>, b: seq<Item<L>>, at: seq<nat>, i: nat, j: nat)
    requires Below(a, b, at) && i < |at| && j < |at|
    requires a[i].key == a[j].key && b[at[i]].key != b[at[j]].key
    requires forall k | 0 <= k < |b| :: b[k].score > 0.0
    ensures Sum(GroupMaxima(a)) < Sum(GroupMaxima(b))
    ensures |GroupMaxima(a)| < |GroupMaxima(b)|
  {
    GroupMaximaMeaning(a);
    var spare := if Counterpart(a, b, at, a[i].key) == b[at[i]].key then j else i;
    var other := b[at[spare]].key;
    forall k | k in GroupMaxima(a) ensures Counterpart(a, b, at, k) != other { CounterpartKeeps(a, b, at, k, spare); }
    SpareGroup(a, b, at, spare);
  }

  /** A group of b that is the counterpart of no group of a is left over. */
  lemma SpareGroup<K(!new), L(!new)>(a: seq<Item<K>>, b: seq<Item<L>>, at: seq<nat>, spare: nat)
    requires Below(a, b, at) && spare < |at|
    requires forall k | 0 <= k < |b| :: b[k].score > 0.0
    requires forall k | k in GroupMaxima(a) :: Counterpart(a, b, at, k) != b[at[spare]].key
    ensures Sum(GroupMaxima(a)) < Sum(GroupMaxima(b))
    ensures |GroupMaxima(a)| < |GroupMaxima(b)|
  {
    var other := b[at[spare]].key;
    assert other in GroupMaxima(b) && GroupMaxima(b)[other] > 0.0 by {
      GroupMaximaMeaning(b);
      assert b[at[spare]].score > 0.0;
    }
    var rest := GroupMaxima(b) - {other};
    var into := map k | k in GroupMaxima(a) :: Counterpart(a, b, at, k);
    forall k | k in GroupMaxima(a) ensures into[k] in rest && GroupMaxima(a)[k] <= rest[into[k]] { CounterpartAbove(a, b, at, k); }
    forall k, l | k in GroupMaxima(a) && l in GroupMaxima(a) && into[k] == into[l] ensures k == l {
      CounterpartKeeps(a, b, at, k, Selected(a, l));
    }
    GroupMaximaNonnegative(b);
    SumInject(GroupMaxima(a), rest, into);
    SumRemove(GroupMaxima(b), other);
    assert GroupMaxima(b).Keys == rest.Keys + {other};
  }

  // ----- Sum of a list -----

  ghost function Total(values: seq<real>): real {
    if values == [] then 0.0 else Total(values[..|values| - 1]) + values[|values| - 1]
  }

  lemma {:induction false} TotalMonotone(a: seq<real>, b: seq<real>)
    requires |a| == |b|
    requires forall i | 0 <= i < |a| :: a[i] <= b[i]
    ensures Total(a) <= Total(b)
  {
    if a != [] {
      TotalMonotone(a[..|a| - 1], b[..|b| - 1]);
    }
  }
}

/** What the comparators say: which field decides, and in which direction. */
module OrderMeanings {
  import opened Ordering
  import opened Matching
  import opened Model
  import opened Capture
  import opened CaptureLaws
  import opened Normalize
  import opened Snapshots

  // ----- Strings -----

  /** Where two strings part, at k, the first has ended or has the smaller character. */
  ghost predicate PartsAt(a: string, b: string, k: nat) {
    k <= |a| && k < |b| && a[..k] == b[..k] && (k == |a| || a[k] < b[k])
  }

  lemma {:induction false} BeforeIffParts(a: string, b: string)
    ensures Before(a, b) <==> exists k: nat :: PartsAt(a, b, k)
  {
    if Before(a, b) {
      if a == [] || a[0] < b[0] {
        assert PartsAt(a, b, 0);
      } else {
        BeforeIffParts(a[1..], b[1..]);
        var k: nat :| PartsAt(a[1..], b[1..], k);
        assert a[..k + 1] == [a[0]] + a[1..][..k] && b[..k + 1] == [b[0]] + b[1..][..k];
        assert PartsAt(a, b, k + 1);
      }
    }
    if k: nat :| PartsAt(a, b, k) {
      if k > 0 {
        assert a[0] == a[..k][0] == b[..k][0] == b[0];
        assert a[1..][..k - 1] == a[..k][1..] && b[1..][..k - 1] == b[..k][1..];
        assert PartsAt(a[1..], b[1..], k - 1);
        BeforeIffParts(a[1..], b[1..]);
      }
    }
  }

  // ----- Fields -----

  /** The fields agree up to k, and the k-th is smaller. */
  ghost predicate DecidedAt<T(!new)>(less: (T, T) -> bool, a: seq<T>, b: seq<T>, k: nat) {
    |a| == |b| && k < |a| && a[..k] == b[..k] && a[k] != b[k] && less(a[k], b[k])
  }

  ghost predicate Decided<T(!new)>(less: (T, T) -> bool, a: seq<T>, b: seq<T>) {
    exists k: nat :: DecidedAt(less, a, b, k)
  }

  lemma {:induction false} FirstDifferenceDecides<T(!new)>(less: (T, T) -> bool, a: seq<T>, b: seq<T>)
    requires |a| == |b|
    ensures a != b && FirstDifference(less, a, b) <==> Decided(less, a, b)
  {
    if a != [] {
      FirstDifferenceDecides(less, a[1..], b[1..]);
      assert a == [a[0]] + a[1..] && b == [b[0]] + b[1..];
      if a[0] != b[0] {
        assert less(a[0], b[0]) ==> DecidedAt(less, a, b, 0);
        forall k: nat | DecidedAt(less, a, b, k) ensures k == 0 {
          if k > 0 { AgreeAtFront(a, b, k); }
        }
      } else {
        DecidedShifts(less, a, b);
      }
    }
  }

  lemma AgreeAtFront<T>(a: seq<T>, b: seq<T>, k: nat)
    requires 0 < k <= |a| && k <= |b| && a[..k] == b[..k]
    ensures a[0] == b[0]
  {
    assert a[0] == a[..k][0] && b[0] == b[..k][0];
  }

  lemma DecidedShifts<T(!new)>(less: (T, T) -> bool, a: seq<T>, b: seq<T>)
    requires |a| == |b| > 0 && a[0] == b[0]
    ensures Decided(less, a, b) <==> Decided(less, a[1..], b[1..])
  {
    if k: nat :| DecidedAt(less, a, b, k) {
      assert k > 0;
      assert a[1..][..k - 1] == a[..k][1..] && b[1..][..k - 1] == b[..k][1..];
      assert DecidedAt(less, a[1..], b[1..], k - 1);
    }
    if k: nat :| DecidedAt(less, a[1..], b[1..], k) {
      assert a[..k + 1] == [a[0]] + a[1..][..k] && b[..k + 1] == [b[0]] + b[1..][..k];
      assert DecidedAt(less, a, b, k + 1);
    }
  }

  // ----- Signals -----

  /** Of two matching signals the more confident is stronger; among equals the smaller in type, source, key, value, URL. */
  lemma StrongerMeans(a: Signal, b: Signal)
    ensures StrongerSignal(a, b) <==>
            || a.confidence > b.confidence
            || (a.confidence == b.confidence
                && Decided(Before, [a.kind, a.source, a.key, a.value, a.url], [b.kind, b.source, b.key, b.value, b.url]))
  {
    var s, t := [a.kind, a.source, a.key, a.value, a.url], [b.kind, b.source, b.key, b.value, b.url];
    FirstDifferenceDecides(Before, s, t);
    FiveFields(a.kind, a.source, a.key, a.value, a.url, b.kind, b.source, b.key, b.value, b.url);
  }

  lemma FiveFields(a: string, b: string, c: string, d: string, e: string, a': string, b': string, c': string, d': string, e': string)
    ensures FirstDifference(Before, [a, b, c, d, e], [a', b', c', d', e']) <==>
            if a != a' then Before(a, a') else if b != b' then Before(b, b') else if c != c' then Before(c, c')
            else if d != d' then Before(d, d') else e != e' && Before(e, e')
  {
    assert [a, b, c, d, e][1..] == [b, c, d, e] && [a', b', c', d', e'][1..] == [b', c', d', e'];
    assert [b, c, d, e][1..] == [c, d, e] && [b', c', d', e'][1..] == [c', d', e'];
    ThreeFields(c, d, e, c', d', e');
  }

  lemma ThreeFields(a: string, b: string, c: string, a': string, b': string, c': string)
    ensures FirstDifference(Before, [a, b, c], [a', b', c']) <==>
            if a != a' then Before(a, a') else if b != b' then Before(b, b') else c != c' && Before(c, c')
  {
    assert [a, b, c][1..] == [b, c] && [a', b', c'][1..] == [b', c'];
    TwoFields(b, c, b', c');
  }

  lemma TwoFields(a: string, b: string, a': string, b': string)
    ensures FirstDifference(Before, [a, b], [a', b']) <==> if a != a' then Before(a, a') else b != b' && Before(b, b')
  {
    assert [a, b][1..] == [b] && [a', b'][1..] == [b'];
    assert [b][1..] == [] && [b'][1..] == [];
    assert FirstDifference(Before, [b], [b']) <==> b != b' && Before(b, b');
  }

  // ----- Normalized signals -----

  const BROWSER_KINDS: seq<string> := [
    "network_request", "network_transaction", "network_response", "page_content", "script_url", "iframe_url", "cookie",
    "form_submission"
  ]

  lemma RankIsPosition(i: nat)
    requires i < |BROWSER_KINDS|
    ensures BrowserSignalRank(BROWSER_KINDS[i]) == i
  {
  }

  /** Normalized signals are ordered by the position of their kind, and within a kind by key, value and URL. */
  lemma SignalBeforeMeans(a: Signal, b: Signal, i: nat, j: nat)
    requires i < |BROWSER_KINDS| && j < |BROWSER_KINDS| && a.kind == BROWSER_KINDS[i] && b.kind == BROWSER_KINDS[j]
    ensures SignalBefore(a, b) <==> i < j || (i == j && Decided(Before, [a.key, a.value, a.url], [b.key, b.value, b.url]))
  {
    RankIsPosition(i);
    RankIsPosition(j);
    FirstDifferenceDecides(Before, [a.key, a.value, a.url], [b.key, b.value, b.url]);
    ThreeFields(a.key, a.value, a.url, b.key, b.value, b.url);
  }

  // ----- Transactions -----

  /** Transactions are ordered by their texts, then by their numbers, then fresh connections before reused ones. */
  lemma PrecedesMeans(a: Transaction, b: Transaction)
    ensures
      var s, t := [a.url, a.verb, a.mimeType, a.resourceType, a.protocol], [b.url, b.verb, b.mimeType, b.resourceType, b.protocol];
      var m := [a.status, a.wireBytes, a.timing.queueMs, a.timing.dnsMs, a.timing.connectMs, a.timing.tlsMs, a.timing.ttfbMs,
                a.timing.totalMs];
      var n := [b.status, b.wireBytes, b.timing.queueMs, b.timing.dnsMs, b.timing.connectMs, b.timing.tlsMs, b.timing.ttfbMs,
                b.timing.totalMs];
      Precedes(a, b) <==>
        || Decided(Before, s, t)
        || (s == t && Decided(Smaller, m, n))
        || (s == t && m == n && !a.connectionReused && b.connectionReused)
  {
    FirstDifferenceDecides(Before, TextFields(a), TextFields(b));
    FirstDifferenceDecides(Smaller, NumberFields(a), NumberFields(b));
  }

  // ----- Cookies -----

  lemma CookieBeforeMeans(a: Cookie, b: Cookie)
    ensures CookieBefore(a, b) <==> Decided(Before, [a.name, a.domain], [b.name, b.domain])
  {
    FirstDifferenceDecides(Before, [a.name, a.domain], [b.name, b.domain]);
    TwoFields(a.name, a.domain, b.name, b.domain);
  }
}

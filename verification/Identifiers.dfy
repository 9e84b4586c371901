/** What an identifier is: words joined by single separators. */
module Identifiers {
  import opened Schema

  ghost predicate IsWord(s: string) {
    s != "" && forall i | 0 <= i < |s| :: 'a' <= s[i] <= 'z' || '0' <= s[i] <= '9'
  }

  predicate IsSeparator(c: char) {
    c == '.' || c == '_' || c == '-'
  }

  /** The words with one separator between each two. */
  function Joined(words: seq<string>, separators: string): string
    requires |words| == |separators| + 1
    decreases |words|
  {
    if |words| == 1 then words[0] else words[0] + [separators[0]] + Joined(words[1..], separators[1..])
  }

  ghost predicate Joins(words: seq<string>, separators: string, s: string) {
    && |words| == |separators| + 1
    && (forall i | 0 <= i < |words| :: IsWord(words[i]))
    && (forall i | 0 <= i < |separators| :: IsSeparator(separators[i]))
    && s == Joined(words, separators)
  }

  lemma {:induction false} JoinedIsIdentifier(words: seq<string>, separators: string)
    requires |words| == |separators| + 1 && Joins(words, separators, Joined(words, separators))
    ensures IsIdentifier(Joined(words, separators))
    decreases |words|
  {
    if |words| > 1 {
      var rest := Joined(words[1..], separators[1..]);
      JoinedIsIdentifier(words[1..], separators[1..]);
      JoinIsIdentifier(words[0], separators[0], rest);
    } else {
      assert IsWord(words[0]);
    }
  }

  lemma JoinIsIdentifier(word: string, separator: char, rest: string)
    requires IsWord(word) && IsSeparator(separator) && IsIdentifier(rest)
    ensures IsIdentifier(word + [separator] + rest)
  {
    var s := word + [separator] + rest;
    assert s[|s| - 1] == rest[|rest| - 1] && s[0] == word[0];
    forall i | 0 <= i < |s|
      ensures IsAlphanumeric(s[i]) || (s[i] in "._-" && i + 1 < |s| && IsAlphanumeric(s[i + 1]))
    {
      if i == |word| {
        assert s[i] == separator && s[i + 1] == rest[0];
      } else if i > |word| {
        assert s[i] == rest[i - |word| - 1];
        if !IsAlphanumeric(s[i]) { assert s[i + 1] == rest[i - |word|]; }
      }
    }
  }

  /** The words and separators of an identifier. */
  lemma {:induction false} SplitIdentifier(s: string) returns (words: seq<string>, separators: string)
    requires IsIdentifier(s)
    ensures Joins(words, separators, s)
    decreases |s|
  {
    var n := 0;
    while n < |s| && IsAlphanumeric(s[n])
      invariant 0 <= n <= |s| && forall i | 0 <= i < n :: IsAlphanumeric(s[i])
    {
      n := n + 1;
    }
    if n == |s| {
      words, separators := [s], "";
    } else {
      var word, rest := s[..n], s[n + 1..];
      assert s == word + [s[n]] + rest;
      RestIsIdentifier(s, n);
      var ws, ss := SplitIdentifier(rest);
      words, separators := [word] + ws, [s[n]] + ss;
      assert words[1..] == ws && separators[1..] == ss;
    }
  }

  lemma RestIsIdentifier(s: string, n: nat)
    requires IsIdentifier(s) && n < |s| && !IsAlphanumeric(s[n])
    ensures n + 1 < |s| && IsIdentifier(s[n + 1..]) && IsSeparator(s[n])
  {
    var rest := s[n + 1..];
    assert rest[0] == s[n + 1] && rest[|rest| - 1] == s[|s| - 1];
    forall i | 0 <= i < |rest|
      ensures IsAlphanumeric(rest[i]) || (rest[i] in "._-" && i + 1 < |rest| && IsAlphanumeric(rest[i + 1]))
    {
      assert rest[i] == s[n + 1 + i];
      if !IsAlphanumeric(rest[i]) { assert rest[i + 1] == s[n + 2 + i]; }
    }
  }

  /** Identifiers are exactly lower-case alphanumeric words joined by single dots, underscores or hyphens. */
  lemma IdentifierIffJoined(s: string)
    ensures IsIdentifier(s) <==> exists words, separators :: Joins(words, separators, s)
  {
    if IsIdentifier(s) {
      var words, separators := SplitIdentifier(s);
      assert Joins(words, separators, s);
    }
    if words, separators :| Joins(words, separators, s) {
      JoinedIsIdentifier(words, separators);
    }
  }
}

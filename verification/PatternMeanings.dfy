/** What a predicate says about a signal, in terms of the texts alone. */
module PatternMeanings {
  import opened Model
  import opened Schema
  import opened Matching

  /** Every character is mapped to lower case by itself. */
  ghost predicate Folds(folded: string, s: string) {
    |folded| == |s| && forall i | 0 <= i < |s| :: folded[i] == LowerCase(s[i])
  }

  /** How value is made up of operand. */
  ghost predicate Compares(operation: Operation, value: string, operand: string) {
    match operation
    case Exact => value == operand
    case Contains => exists front: string, back: string :: value == front + operand + back
    case Prefix => exists back: string :: value == operand + back
    case Suffix => exists front: string :: value == front + operand
  }

  /** A literal compares the texts, or both texts folded; an expression accepts what it was compiled to. */
  ghost predicate Says(p: TextPattern, value: string) {
    match p
    case Literal(operation, operand, false) => Compares(operation, value, operand)
    case Literal(operation, operand, true) =>
      exists v, o :: Folds(v, value) && Folds(o, operand) && Compares(operation, v, o)
    case Regex(_, _, compiled) => compiled.Some? && compiled.value(value)
  }

  ghost predicate FieldSays(field: Option<TextPattern>, value: string) {
    field.Some? ==> Says(field.value, value)
  }

  lemma FoldsToLower(folded: string, s: string)
    ensures Folds(folded, s) <==> folded == ToLower(s)
  {
  }

  lemma ContainsMeans(value: string, operand: string)
    ensures Model.Contains(value, operand) <==> exists front: string, back: string :: value == front + operand + back
  {
    if Model.Contains(value, operand) {
      var i :| 0 <= i <= |value| && operand <= value[i..];
      assert value == value[..i] + operand + value[i + |operand|..];
    }
    if front: string, back: string :| value == front + operand + back {
      assert value[|front|..] == operand + back;
    }
  }

  lemma PrefixMeans(value: string, operand: string)
    ensures HasPrefix(value, operand) <==> exists back: string :: value == operand + back
  {
    if HasPrefix(value, operand) { assert value == operand + value[|operand|..]; }
  }

  lemma SuffixMeans(value: string, operand: string)
    ensures HasSuffix(value, operand) <==> exists front: string :: value == front + operand
  {
    if HasSuffix(value, operand) { assert value == value[..|value| - |operand|] + operand; }
    if front: string :| value == front + operand { assert value[|front|..] == operand; }
  }

  /** The comparison of prepared texts. */
  lemma ComparesMeans(operation: Operation, value: string, operand: string)
    ensures PreparedMatches(Prepared(Literal(operation, operand, false), operand), value) <==> Compares(operation, value, operand)
  {
    match operation {
    case Exact =>
    case Contains => ContainsMeans(value, operand);
    case Prefix => PrefixMeans(value, operand);
    case Suffix => SuffixMeans(value, operand);
    }
  }

  lemma FoldedComparesMeans(operation: Operation, value: string, operand: string, prepared: string)
    ensures PreparedMatches(Prepared(Literal(operation, operand, true), prepared), value) <==> Compares(operation, value, prepared)
  {
    match operation {
    case Exact =>
    case Contains => ContainsMeans(value, prepared);
    case Prefix => PrefixMeans(value, prepared);
    case Suffix => SuffixMeans(value, prepared);
    }
  }

  lemma AcceptsMeans(p: TextPattern, value: string)
    ensures Accepts(p, value) <==> Says(p, value)
  {
    match p {
    case Literal(operation, operand, false) => ComparesMeans(operation, value, operand);
    case Literal(operation, operand, true) =>
      var v, o := ToLower(value), ToLower(operand);
      FoldedComparesMeans(operation, v, operand, o);
      FoldsToLower(v, value);
      FoldsToLower(o, operand);
      forall v', o' | Folds(v', value) && Folds(o', operand) ensures v' == v && o' == o {
        FoldsToLower(v', value);
        FoldsToLower(o', operand);
      }
    case Regex(_, _, _) =>
    }
  }

  lemma AcceptsFieldMeans(field: Option<TextPattern>, value: string)
    ensures AcceptsField(field, value) <==> FieldSays(field, value)
  {
    if field.Some? { AcceptsMeans(field.value, value); }
  }

  /** A predicate matches exactly the signals of its kind of which each of its patterns says what it does. */
  lemma MatchesMeans(e: Evidence, s: Signal)
    ensures Matches(e, s) <==>
            && e.kind == s.kind
            && FieldSays(e.source, s.source) && FieldSays(e.key, s.key) && FieldSays(e.value, s.value) && FieldSays(e.url, s.url)
  {
    AcceptsFieldMeans(e.source, s.source);
    AcceptsFieldMeans(e.key, s.key);
    AcceptsFieldMeans(e.value, s.value);
    AcceptsFieldMeans(e.url, s.url);
  }
}

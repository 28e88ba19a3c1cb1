/**
 * Case-insensitive string comparison, as Java's String.equalsIgnoreCase does
 * it, restricted to ASCII letters: the strings have equal length and every pair
 * of characters at the same position is equal, equal after upper-casing, or
 * equal after upper- and then lower-casing.
 */
module CaseFold {

  function UpperChar(c: char): char
  {
    if 'a' <= c <= 'z' then (c as int - 32) as char else c
  }

  function LowerChar(c: char): char
  {
    if 'A' <= c <= 'Z' then (c as int + 32) as char else c
  }

  function ToUpper(s: string): string
  {
    seq(|s|, i requires 0 <= i < |s| => UpperChar(s[i]))
  }

  predicate CharEqualsIgnoreCase(a: char, b: char)
  {
    a == b || UpperChar(a) == UpperChar(b) || LowerChar(UpperChar(a)) == LowerChar(UpperChar(b))
  }

  predicate EqualsIgnoreCase(a: string, b: string): (r: bool)
    ensures r ==> |a| == |b|
    ensures a == b ==> r
    decreases |a|
  {
    |a| == |b| && (a == [] || (CharEqualsIgnoreCase(a[0], b[0]) && EqualsIgnoreCase(a[1..], b[1..])))
  }

  /** Two characters match ignoring case exactly when their upper-case forms agree. */
  lemma CharEqualsIgnoreCaseIsUpperEquality(a: char, b: char)
    ensures CharEqualsIgnoreCase(a, b) <==> UpperChar(a) == UpperChar(b)
  {
  }

  /** Reference definition: equalsIgnoreCase is equality of the upper-cased strings. */
  lemma {:induction false} EqualsIgnoreCaseIsUpperEquality(a: string, b: string)
    ensures EqualsIgnoreCase(a, b) <==> ToUpper(a) == ToUpper(b)
    decreases |a|
  {
    if |a| == |b| && a != [] {
      CharEqualsIgnoreCaseIsUpperEquality(a[0], b[0]);
      EqualsIgnoreCaseIsUpperEquality(a[1..], b[1..]);
      assert ToUpper(a)[0] == UpperChar(a[0]) && ToUpper(a)[1..] == ToUpper(a[1..]);
      assert ToUpper(b)[0] == UpperChar(b[0]) && ToUpper(b)[1..] == ToUpper(b[1..]);
      if ToUpper(a[1..]) == ToUpper(b[1..]) && UpperChar(a[0]) == UpperChar(b[0]) {
        assert ToUpper(a) == [UpperChar(a[0])] + ToUpper(a[1..]);
        assert ToUpper(b) == [UpperChar(b[0])] + ToUpper(b[1..]);
      }
    } else if |a| != |b| {
      assert |ToUpper(a)| != |ToUpper(b)|;
    }
  }

  lemma EqualsIgnoreCaseIsEquivalence(a: string, b: string, c: string)
    ensures EqualsIgnoreCase(a, a)
    ensures EqualsIgnoreCase(a, b) ==> EqualsIgnoreCase(b, a)
    ensures EqualsIgnoreCase(a, b) && EqualsIgnoreCase(b, c) ==> EqualsIgnoreCase(a, c)
  {
    EqualsIgnoreCaseIsUpperEquality(a, a);
    EqualsIgnoreCaseIsUpperEquality(a, b);
    EqualsIgnoreCaseIsUpperEquality(b, a);
    EqualsIgnoreCaseIsUpperEquality(b, c);
    EqualsIgnoreCaseIsUpperEquality(a, c);
  }

  /** Whether a string matches a query depends only on the query's upper-cased form. */
  lemma QueryCaseIsIrrelevant(x: string, query1: string, query2: string)
    requires ToUpper(query1) == ToUpper(query2)
    ensures EqualsIgnoreCase(x, query1) == EqualsIgnoreCase(x, query2)
  {
    EqualsIgnoreCaseIsUpperEquality(x, query1);
    EqualsIgnoreCaseIsUpperEquality(x, query2);
  }
}

/** Case folding as the column lookup applies it. */
module Text {

  /** Upper-cases an ASCII letter and leaves every other character alone. */
  function UpperChar(c: char): char
  {
    if 'a' <= c <= 'z' then (c as int - 'a' as int + 'A' as int) as char else c
  }

  /** The canonical (upper-case) spelling of a name, character by character. */
  function Upper(s: string): string
  {
    seq(|s|, i requires 0 <= i < |s| => UpperChar(s[i]))
  }

  /** True when no character of `s` is a lower-case ASCII letter. */
  predicate IsCanonical(s: string)
  {
    forall i :: 0 <= i < |s| ==> !('a' <= s[i] <= 'z')
  }

  /** Two names that differ at most in the case of their letters. */
  predicate EqualIgnoringCase(a: string, b: string)
    decreases |a|
  {
    |a| == |b| && (a == [] || (UpperChar(a[0]) == UpperChar(b[0]) && EqualIgnoringCase(a[1..], b[1..])))
  }

  /** Upper-casing yields a canonical name and leaves a canonical name unchanged. */
  lemma UpperCanonical(s: string)
    ensures IsCanonical(Upper(s))
    ensures IsCanonical(s) ==> Upper(s) == s
  {
  }

  /** Comparing ignoring case is comparing the canonical spellings. */
  lemma {:induction false} EqualIgnoringCaseIsSameUpper(a: string, b: string)
    ensures EqualIgnoringCase(a, b) <==> Upper(a) == Upper(b)
    decreases |a|
  {
    if |a| == |b| && a != [] {
      EqualIgnoringCaseIsSameUpper(a[1..], b[1..]);
      assert Upper(a)[1..] == Upper(a[1..]);
      assert Upper(b)[1..] == Upper(b[1..]);
      assert Upper(a) == [UpperChar(a[0])] + Upper(a[1..]);
      assert Upper(b) == [UpperChar(b[0])] + Upper(b[1..]);
    }
  }

  /** Ignoring case is an equivalence: a name matches itself, and matches chain. */
  lemma EqualIgnoringCaseEquivalence(a: string, b: string, c: string)
    ensures EqualIgnoringCase(a, a)
    ensures EqualIgnoringCase(a, b) ==> EqualIgnoringCase(b, a)
    ensures EqualIgnoringCase(a, b) && EqualIgnoringCase(b, c) ==> EqualIgnoringCase(a, c)
  {
    EqualIgnoringCaseIsSameUpper(a, a);
    EqualIgnoringCaseIsSameUpper(a, b);
    EqualIgnoringCaseIsSameUpper(b, a);
    EqualIgnoringCaseIsSameUpper(b, c);
    EqualIgnoringCaseIsSameUpper(a, c);
  }

  /** Two canonical names match ignoring case exactly when they are equal. */
  lemma CanonicalNamesMatchOnlyThemselves(a: string, b: string)
    requires IsCanonical(a) && IsCanonical(b)
    ensures EqualIgnoringCase(a, b) <==> a == b
  {
    EqualIgnoringCaseIsSameUpper(a, b);
    UpperCanonical(a);
    UpperCanonical(b);
  }
}

/** ASCII case mapping, the part of Go's `strings.ToUpper` that ticker symbols use. */
module Ascii {

  predicate IsLower(c: char) { 'a' <= c <= 'z' }

  predicate IsUpper(c: char) { 'A' <= c <= 'Z' }

  /** True when `s` holds no lower-case ASCII letter. */
  predicate NoLower(s: string) {
    forall i :: 0 <= i < |s| ==> !IsLower(s[i])
  }

  /** `c` and `d` are the same character up to ASCII letter case. */
  predicate SameLetter(c: char, d: char) {
    || c == d
    || (IsLower(c) && d as int == c as int - 32)
    || (IsUpper(c) && d as int == c as int + 32)
  }

  /** `a` and `b` spell the same text up to ASCII letter case. */
  predicate EqualIgnoringCase(a: string, b: string) {
    |a| == |b| && forall i :: 0 <= i < |a| ==> SameLetter(a[i], b[i])
  }

  function UpperChar(c: char): char {
    if IsLower(c) then (c as int - 32) as char else c
  }

  /** Upper-cases every ASCII letter and leaves every other character alone. */
  function ToUpper(s: string): (u: string)
    ensures |u| == |s|
    ensures NoLower(u)
    ensures forall i :: 0 <= i < |s| ==> SameLetter(s[i], u[i])
  {
    seq(|s|, i requires 0 <= i < |s| => UpperChar(s[i]))
  }

  /** A string without lower-case letters is its own upper-case form. */
  lemma ToUpperOfNoLower(s: string)
    requires NoLower(s)
    ensures ToUpper(s) == s
  {
  }

  /** Upper-casing twice is upper-casing once. */
  lemma ToUpperIdempotent(s: string)
    ensures ToUpper(ToUpper(s)) == ToUpper(s)
  {
    ToUpperOfNoLower(ToUpper(s));
  }

  /** Two strings have the same upper-case form exactly when they differ only in letter case. */
  lemma SameUpperIffEqualIgnoringCase(a: string, b: string)
    ensures ToUpper(a) == ToUpper(b) <==> EqualIgnoringCase(a, b)
  {
    if ToUpper(a) == ToUpper(b) {
      assert |a| == |b|;
      forall i | 0 <= i < |a|
        ensures SameLetter(a[i], b[i])
      {
        assert ToUpper(a)[i] == ToUpper(b)[i];
      }
    }
    if EqualIgnoringCase(a, b) {
      forall i | 0 <= i < |a|
        ensures ToUpper(a)[i] == ToUpper(b)[i]
      {
        assert SameLetter(a[i], b[i]);
      }
    }
  }
}

/**
 * StringComparison.OrdinalIgnoreCase, as the readers use it through
 * string.Equals and string.StartsWith: two strings compare equal when they
 * have the same length and agree character by character after upper-casing.
 * Upper-casing is modelled on ASCII letters only.
 */
module Text {
  import opened Wrappers

  /** !string.IsNullOrEmpty: the string is non-null and has at least one character. */
  predicate NonEmpty(s: Option<string>)
  {
    s.Some? && |s.value| > 0
  }

  /** The upper-case form of an ASCII letter; every other character is its own upper case here. */
  function ToUpper(c: char): (u: char)
    ensures 'a' <= c <= 'z' ==> u as int == c as int - 32
    ensures !('a' <= c <= 'z') ==> u == c
  {
    if 'a' <= c <= 'z' then (c as int - 32) as char else c
  }

  /** string.Equals(a, b, StringComparison.OrdinalIgnoreCase) on two non-null strings. */
  predicate EqualsIgnoreCase(a: string, b: string)
  {
    |a| == |b| && forall i :: 0 <= i < |a| ==> ToUpper(a[i]) == ToUpper(b[i])
  }

  /** s.StartsWith(prefix, StringComparison.OrdinalIgnoreCase). */
  predicate StartsWithIgnoreCase(s: string, prefix: string)
  {
    |prefix| <= |s| && EqualsIgnoreCase(s[..|prefix|], prefix)
  }

  /** Two strings without lower-case ASCII letters compare equal ignoring case exactly when they are equal. */
  lemma EqualsIgnoreCaseUpper(a: string, b: string)
    requires forall i :: 0 <= i < |a| ==> !('a' <= a[i] <= 'z')
    requires forall i :: 0 <= i < |b| ==> !('a' <= b[i] <= 'z')
    ensures EqualsIgnoreCase(a, b) <==> a == b
  {
    if EqualsIgnoreCase(a, b) {
      forall i | 0 <= i < |a|
        ensures a[i] == b[i]
      {
        assert ToUpper(a[i]) == ToUpper(b[i]);
      }
    }
  }
}

/** Case-insensitive comparison of strings as `StringComparison.OrdinalIgnoreCase`
    performs it on ASCII text: two strings are equal ignoring case when their
    ASCII lower-case foldings are equal. */
module Ascii {

  /** Lower-cases one ASCII letter; every other character is returned as is. */
  function Lower(c: char): char {
    if 'A' <= c <= 'Z' then (c as int + 32) as char else c
  }

  /** Folds a string to lower case, character by character. */
  function Fold(s: string): (r: string)
    ensures |r| == |s|
    ensures forall i :: 0 <= i < |s| ==> r[i] == Lower(s[i])
  {
    if |s| == 0 then [] else [Lower(s[0])] + Fold(s[1..])
  }

  predicate EqualsIgnoreCase(a: string, b: string) {
    Fold(a) == Fold(b)
  }

  /** `s.StartsWith(prefix, StringComparison.OrdinalIgnoreCase)`. */
  predicate StartsWithIgnoreCase(s: string, prefix: string) {
    |prefix| <= |s| && EqualsIgnoreCase(s[..|prefix|], prefix)
  }

  /** Folding commutes with taking a prefix, so a prefix test ignoring case
      is a plain prefix test on the foldings. */
  lemma StartsWithIgnoreCaseIsFoldedPrefix(s: string, prefix: string)
    ensures StartsWithIgnoreCase(s, prefix) <==> Fold(prefix) <= Fold(s)
  {
    if |prefix| <= |s| {
      assert Fold(s[..|prefix|]) == Fold(s)[..|prefix|];
    }
  }

  /** The empty prefix starts every string. */
  lemma EmptyPrefixMatchesEverything(s: string)
    ensures StartsWithIgnoreCase(s, "")
  {
  }
}

/** ASCII-only case mapping, as done by Rust's `str::to_ascii_lowercase`:
    only the letters `A`..`Z` change; every other character, including
    non-ASCII ones, is left as it is. */
module Ascii {

  predicate IsUpper(c: char) { 'A' <= c <= 'Z' }

  predicate IsLower(c: char) { 'a' <= c <= 'z' }

  /** The lower-case form of one character: `A`..`Z` map to `a`..`z`. */
  function ToLowerChar(c: char): (r: char)
    ensures !IsUpper(r)
    ensures !IsUpper(c) ==> r == c
    ensures IsUpper(c) ==> IsLower(r) && ToUpperChar(r) == c
  {
    if IsUpper(c) then (c as int + 32) as char else c
  }

  /** The upper-case form of one character: `a`..`z` map to `A`..`Z`. */
  function ToUpperChar(c: char): (r: char)
    ensures !IsLower(r)
    ensures !IsLower(c) ==> r == c
  {
    if IsLower(c) then (c as int - 32) as char else c
  }

  /** Lower-cases a string character by character. */
  function ToLower(s: string): (r: string)
    ensures |r| == |s|
    ensures forall i :: 0 <= i < |s| ==> r[i] == ToLowerChar(s[i])
  {
    seq(|s|, i requires 0 <= i < |s| => ToLowerChar(s[i]))
  }

  /** True when `s` has no upper-case ASCII letter, so that `ToLower` leaves it alone. */
  predicate IsLowerCase(s: string) {
    forall i :: 0 <= i < |s| ==> !IsUpper(s[i])
  }

  /** `s` spells `word` in some ASCII casing: each position holds either the
      character of `word` or, when that is a lower-case letter, its capital. */
  predicate IsCaseVariant(s: string, word: string) {
    && |s| == |word|
    && forall i :: 0 <= i < |s| ==> s[i] == word[i] || (IsLower(word[i]) && s[i] == ToUpperChar(word[i]))
  }

  /** Lower-casing is idempotent and its result is lower case. */
  lemma ToLowerIdempotent(s: string)
    ensures IsLowerCase(ToLower(s))
    ensures ToLower(ToLower(s)) == ToLower(s)
  {
  }

  /** Comparing a lower-cased string with a lower-case word is the same as
      asking whether the string is a case variant of the word: the test is
      insensitive to ASCII case on the left and exact on everything else. */
  lemma ToLowerEqualsIff(s: string, word: string)
    requires IsLowerCase(word)
    ensures ToLower(s) == word <==> IsCaseVariant(s, word)
  {
  }
}

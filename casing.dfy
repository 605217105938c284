/**
  Letter case, restricted to ASCII: `a`..`z` and `A`..`Z` are swapped and
  every other character is left alone.
*/
module Casing {

  predicate IsAsciiLower(c: char) { 'a' <= c <= 'z' }
  predicate IsAsciiUpper(c: char) { 'A' <= c <= 'Z' }

  function UpperChar(c: char): (r: char)
    ensures !IsAsciiLower(r)
    ensures IsAsciiLower(c) ==> r as int == c as int - 32
    ensures !IsAsciiLower(c) ==> r == c
  {
    if IsAsciiLower(c) then (c as int - 32) as char else c
  }

  function LowerChar(c: char): (r: char)
    ensures !IsAsciiUpper(r)
    ensures IsAsciiUpper(c) ==> r as int == c as int + 32
    ensures !IsAsciiUpper(c) ==> r == c
  {
    if IsAsciiUpper(c) then (c as int + 32) as char else c
  }

  /** Rust's `str::to_uppercase`, on ASCII letters. */
  function ToUpper(s: string): (r: string)
    ensures |r| == |s|
    ensures forall i :: 0 <= i < |s| ==> r[i] == UpperChar(s[i])
  {
    if s == [] then [] else [UpperChar(s[0])] + ToUpper(s[1..])
  }

  /** Rust's `str::to_lowercase`, on ASCII letters. */
  function ToLower(s: string): (r: string)
    ensures |r| == |s|
    ensures forall i :: 0 <= i < |s| ==> r[i] == LowerChar(s[i])
  {
    if s == [] then [] else [LowerChar(s[0])] + ToLower(s[1..])
  }

  predicate NoAsciiLower(s: string) { forall i :: 0 <= i < |s| ==> !IsAsciiLower(s[i]) }
  predicate NoAsciiUpper(s: string) { forall i :: 0 <= i < |s| ==> !IsAsciiUpper(s[i]) }

  /** Upper-casing leaves no ASCII lower-case letter, and a text without one is its own upper case. */
  lemma ToUpperFixedPoints(s: string)
    ensures NoAsciiLower(ToUpper(s))
    ensures ToUpper(s) == s <==> NoAsciiLower(s)
  {
    if NoAsciiLower(s) {
      assert forall i :: 0 <= i < |s| ==> ToUpper(s)[i] == s[i];
    }
  }

  /** Lower-casing leaves no ASCII upper-case letter, and a text without one is its own lower case. */
  lemma ToLowerFixedPoints(s: string)
    ensures NoAsciiUpper(ToLower(s))
    ensures ToLower(s) == s <==> NoAsciiUpper(s)
  {
    if NoAsciiUpper(s) {
      assert forall i :: 0 <= i < |s| ==> ToLower(s)[i] == s[i];
    }
  }

  /** Lower-casing forgets any earlier case change. */
  lemma LowerForgetsCase(s: string)
    ensures ToLower(ToUpper(s)) == ToLower(s)
    ensures ToLower(ToLower(s)) == ToLower(s)
  {
    assert forall i :: 0 <= i < |s| ==> ToLower(ToUpper(s))[i] == ToLower(s)[i];
    ToLowerFixedPoints(ToLower(s));
  }

  /** Upper-casing forgets any earlier case change. */
  lemma UpperForgetsCase(s: string)
    ensures ToUpper(ToLower(s)) == ToUpper(s)
    ensures ToUpper(ToUpper(s)) == ToUpper(s)
  {
    assert forall i :: 0 <= i < |s| ==> ToUpper(ToLower(s))[i] == ToUpper(s)[i];
    ToUpperFixedPoints(ToUpper(s));
  }
}

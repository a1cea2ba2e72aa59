/** Rune classes from Go's `unicode` package, and scanning a rune sequence
    for the first rune of a class. */
module Runes {

  /** Go's `unicode.IsSpace`: the Latin-1 spaces, then Unicode's White_Space
      property above Latin-1. */
  predicate IsSpace(c: char) {
    if c <= '\U{FF}' then
      c == '\t' || c == '\n' || c == '\U{0B}' || c == '\U{0C}' || c == '\r' ||
      c == ' ' || c == '\U{85}' || c == '\U{A0}'
    else
      c == '\U{1680}' || ('\U{2000}' <= c <= '\U{200A}') || c == '\U{2028}' ||
      c == '\U{2029}' || c == '\U{202F}' || c == '\U{205F}' || c == '\U{3000}'
  }

  predicate NotSpace(c: char) {
    !IsSpace(c)
  }

  /** Go's `unicode.IsDigit`, restricted to the ASCII digits. */
  predicate IsDigit(c: char) {
    '0' <= c <= '9'
  }

  predicate NotDigit(c: char) {
    !IsDigit(c)
  }

  /** The index of the first rune at or after `i` for which `stop` holds,
      or `|s|` when there is none. */
  function Find(s: string, i: nat, stop: char -> bool): (j: nat)
    requires i <= |s|
    ensures i <= j <= |s|
    ensures forall k :: i <= k < j ==> !stop(s[k])
    ensures j < |s| ==> stop(s[j])
    decreases |s| - i
  {
    if i == |s| || stop(s[i]) then i else Find(s, i + 1, stop)
  }

  /** Where a reader that reads up to and including the first rune at or
      after `i` for which `stop` holds is left: just past that rune, or at
      the end of the text when there is none. */
  function PastStop(s: string, i: nat, stop: char -> bool): nat
    requires i <= |s|
  {
    var j := Find(s, i, stop);
    if j < |s| then j + 1 else |s|
  }

  /** The two properties in Find's contract pin its result down. */
  lemma FindIs(s: string, i: nat, stop: char -> bool, j: nat)
    requires i <= j <= |s|
    requires forall k :: i <= k < j ==> !stop(s[k])
    requires j < |s| ==> stop(s[j])
    ensures Find(s, i, stop) == j
  {
  }
}

/** A model of Go's `strconv.ParseFloat(s, 64)` on decimal text: an optional
    sign, digits with an optional fraction (at least one digit in all) and an
    optional exponent, covering the whole string.  Numbers are exact reals. */
module Strconv {
  import opened Wrappers
  import opened Runes

  /** The value of a run of ASCII digits (0 for the empty run). */
  function DigitsValue(d: string): nat {
    if |d| == 0 then 0
    else
      var last := d[|d| - 1];
      DigitsValue(d[..|d| - 1]) * 10 + (if IsDigit(last) then last as int - '0' as int else 0)
  }

  function Pow10(n: nat): (r: nat)
    ensures r > 0
  {
    if n == 0 then 1 else 10 * Pow10(n - 1)
  }

  /** m * 10^e */
  function Scale(m: nat, e: int): real {
    if e >= 0 then (m * Pow10(e)) as real else m as real / Pow10(-e) as real
  }

  /** The exponent part that starts at `j`: empty, or `e`/`E`, an optional
      sign and at least one digit reaching the end of `s`. */
  function Exponent(s: string, j: nat): Option<int>
    requires j <= |s|
  {
    if j == |s| then Some(0)
    else if s[j] != 'e' && s[j] != 'E' then None
    else
      var signed := j + 1 < |s| && (s[j + 1] == '+' || s[j + 1] == '-');
      var k := if signed then j + 2 else j + 1;
      var m := Find(s, k, NotDigit);
      if m == k || m < |s| then None
      else
        var e: int := DigitsValue(s[k..m]);
        Some(if signed && s[j + 1] == '-' then -e else e)
  }

  function ParseFloat(s: string): Option<real> {
    var signed := |s| > 0 && (s[0] == '+' || s[0] == '-');
    var m := if signed then 1 else 0;
    var i := Find(s, m, NotDigit);
    var j := if i < |s| && s[i] == '.' then Find(s, i + 1, NotDigit) else i;
    var intDigits := s[m..i];
    var fracDigits := if j > i then s[i + 1..j] else [];
    if |intDigits| + |fracDigits| == 0 then None
    else
      match Exponent(s, j)
      case None => None
      case Some(e) =>
        var magnitude := Scale(DigitsValue(intDigits + fracDigits), e - |fracDigits|);
        Some(if signed && s[0] == '-' then -magnitude else magnitude)
  }

  /** A non-empty run of digits parses to its natural value. */
  lemma ParseFloatDigits(d: string)
    requires |d| > 0
    requires forall k :: 0 <= k < |d| ==> IsDigit(d[k])
    ensures ParseFloat(d) == Some(DigitsValue(d) as real)
  {
    FindIs(d, 0, NotDigit, |d|);
    assert !(|d| > 0 && (d[0] == '+' || d[0] == '-'));
    assert d[0..|d|] == d;
    assert Exponent(d, |d|) == Some(0);
    assert d + [] == d;
  }
}

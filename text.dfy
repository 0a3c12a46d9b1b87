/**
 * Character classes, maximal runs and decimal integer printing, shared by the
 * hand-written scanners that stand for the listeners' regular expressions and
 * by the worklog's `'%d'` formatting.
 */
module Text {
  import opened Wrappers

  predicate IsDigit(c: char) { '0' <= c <= '9' }

  predicate IsUpper(c: char) { 'A' <= c <= 'Z' }

  predicate AllDigits(s: string) { forall i :: 0 <= i < |s| ==> IsDigit(s[i]) }

  /** End of the longest run of characters satisfying `p` that starts at `i`. */
  function RunEnd(s: string, i: nat, p: char -> bool): (j: nat)
    requires i <= |s|
    ensures i <= j <= |s|
    ensures forall k :: i <= k < j ==> p(s[k])
    ensures j == |s| || !p(s[j])
    decreases |s| - i
  {
    if i < |s| && p(s[i]) then RunEnd(s, i + 1, p) else i
  }

  /** A run that starts inside another maximal run ends where it ends. */
  lemma {:induction false} RunEndInside(s: string, i: nat, k: nat, p: char -> bool)
    requires i <= |s|
    requires i <= k <= RunEnd(s, i, p)
    ensures RunEnd(s, k, p) == RunEnd(s, i, p)
    decreases k - i
  {
    if i < k {
      assert p(s[i]);
      RunEndInside(s, i + 1, k, p);
    }
  }

  function DigitChar(d: nat): (c: char)
    requires d < 10
    ensures IsDigit(c) && c as int - '0' as int == d
  {
    (d + '0' as int) as char
  }

  function DigitValue(c: char): (d: nat)
    requires IsDigit(c)
    ensures d < 10 && DigitChar(d) == c
  {
    c as int - '0' as int
  }

  /** Decimal digits of `n`, most significant first, with no leading zero. */
  function NatToString(n: nat): (s: string)
    ensures |s| >= 1 && AllDigits(s)
    ensures s[0] == '0' ==> n == 0
    decreases n
  {
    if n < 10 then [DigitChar(n)] else NatToString(n / 10) + [DigitChar(n % 10)]
  }

  /**
   * Python's `'%d' % n` for an integer `n`: a minus sign exactly for a negative
   * number, then its digits without a leading zero; reading the text back
   * gives `n`.
   */
  function IntToString(n: int): (r: string)
    ensures |r| >= 1 && (r[0] == '-' <==> n < 0)
    ensures var d := if n < 0 then r[1..] else r; |d| >= 1 && AllDigits(d) && (|d| > 1 ==> d[0] != '0')
    ensures ParseInt(r) == Some(n)
  {
    if n < 0 then
      var t := NatToString(-n);
      NatRoundTrip(-n);
      assert ("-" + t)[1..] == t;
      "-" + t
    else
      var t := NatToString(n);
      NatRoundTrip(n);
      assert IsDigit(t[0]);
      t
  }

  /** The number a string of decimal digits denotes. */
  function DigitsValue(s: string): nat
    requires AllDigits(s)
  {
    if |s| == 0 then 0 else DigitsValue(s[..|s| - 1]) * 10 + DigitValue(s[|s| - 1])
  }

  /** Reads back a non-empty string of decimal digits; anything else is rejected. */
  function ParseNat(s: string): Option<nat> {
    if |s| > 0 && AllDigits(s) then Some(DigitsValue(s)) else None
  }

  /** Reads back an optionally signed decimal integer; anything else is rejected. */
  function ParseInt(s: string): Option<int> {
    if |s| > 0 && s[0] == '-' then
      match ParseNat(s[1..])
      case Some(d) => Some(0 - d as int)
      case None => None
    else
      match ParseNat(s)
      case Some(d) => Some(d as int)
      case None => None
  }

  lemma {:induction false} NatToStringValue(n: nat)
    ensures DigitsValue(NatToString(n)) == n
    decreases n
  {
    var s := NatToString(n);
    if n >= 10 {
      NatToStringValue(n / 10);
      assert s[..|s| - 1] == NatToString(n / 10);
    }
  }

  lemma NatRoundTrip(n: nat)
    ensures ParseNat(NatToString(n)) == Some(n)
  {
    NatToStringValue(n);
  }
}

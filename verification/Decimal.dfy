/** Decimal integers as `%d` prints them and `strconv.ParseInt(s, 10, 64)` reads them. */
module Decimal {
  import opened Regex
  import opened Int64

  function DigitChar(d: nat): (c: char)
    requires d < 10
    ensures IsDigit(c)
  {
    ('0' as int + d) as char
  }

  function DigitValue(c: char): (d: nat)
    requires IsDigit(c)
    ensures d < 10 && DigitChar(d) == c
  {
    c as int - '0' as int
  }

  function PrintNat(n: nat): (s: string)
    ensures s != [] && forall i :: 0 <= i < |s| ==> IsDigit(s[i])
  {
    if n < 10 then [DigitChar(n)] else PrintNat(n / 10) + [DigitChar(n % 10)]
  }

  function Print(i: int): (s: string)
    ensures s != [] && IsDigit(s[|s| - 1])
    ensures forall k :: 0 <= k < |s| ==> IsDigit(s[k]) || s[k] == '-'
  {
    if i < 0 then "-" + PrintNat(-i) else PrintNat(i)
  }

  function NatOf(s: string): Option<nat> {
    if s == [] || !IsDigit(s[|s| - 1]) then None
    else if |s| == 1 then Some(DigitValue(s[0]))
    else
      match NatOf(s[..|s| - 1])
      case None => None
      case Some(n) => Some(10 * n + DigitValue(s[|s| - 1]))
  }

  function ParseInt(s: string): Option<int> {
    var negative := s != [] && s[0] == '-';
    var digits := if s != [] && s[0] in {'-', '+'} then s[1..] else s;
    match NatOf(digits)
    case None => None
    case Some(n) =>
      var v := if negative then 0 - (n as int) else n as int;
      if Fits(v) then Some(v) else None
  }

  lemma {:induction false} NatRoundTrip(n: nat)
    ensures NatOf(PrintNat(n)) == Some(n)
  {
    var s := PrintNat(n);
    if n >= 10 {
      NatRoundTrip(n / 10);
      assert s[..|s| - 1] == PrintNat(n / 10);
    }
  }

  lemma ParsePrinted(i: int)
    requires Fits(i)
    ensures ParseInt(Print(i)) == Some(i)
  {
    if i < 0 {
      assert Print(i)[1..] == PrintNat(-i);
      NatRoundTrip(-i);
    } else {
      NatRoundTrip(i);
    }
  }

  lemma {:induction false} NatShortest(s: string, n: nat)
    requires NatOf(s) == Some(n)
    ensures |PrintNat(n)| <= |s|
  {
    if |s| > 1 {
      var m := NatOf(s[..|s| - 1]).value;
      NatShortest(s[..|s| - 1], m);
      var d := DigitValue(s[|s| - 1]);
      assert n / 10 == m;
      PrintNatLength(n);
    }
  }

  lemma PrintNatLength(n: nat)
    ensures |PrintNat(n)| <= |PrintNat(n / 10)| + 1
  {
  }

  /** No text that reads as `i` is shorter than its printed form. */
  lemma PrintedIsShortest(s: string, i: int)
    requires ParseInt(s) == Some(i)
    ensures |Print(i)| <= |s|
  {
    var digits := if s != [] && s[0] in {'-', '+'} then s[1..] else s;
    NatShortest(digits, NatOf(digits).value);
  }

  lemma {:induction false} DigitsAccepted(s: string)
    ensures NatOf(s).Some? <==> s != "" && forall i :: 0 <= i < |s| ==> '0' <= s[i] <= '9'
  {
    if |s| > 1 { DigitsAccepted(s[..|s| - 1]); }
  }

  /** A further digit multiplies by ten and adds its value. */
  lemma DigitShifts(s: string, d: char)
    requires NatOf(s).Some? && '0' <= d <= '9'
    ensures NatOf([d]) == Some(d as int - '0' as int)
    ensures NatOf(s + [d]) == Some(10 * NatOf(s).value + (d as int - '0' as int))
  {
    assert (s + [d])[..|s|] == s;
  }

  /** Accepted are digits with an optional sign whose value is within 64 bits. */
  lemma ParseAccepts(s: string, i: int)
    ensures ParseInt(s) == Some(i) <==>
            && -0x8000_0000_0000_0000 <= i <= 0x7FFF_FFFF_FFFF_FFFF
            && ((i >= 0 && (NatOf(s) == Some(i) || (s != "" && s[0] == '+' && NatOf(s[1..]) == Some(i))))
                || (i <= 0 && s != "" && s[0] == '-' && NatOf(s[1..]) == Some(0 - i)))
  {
    DigitsAccepted(s);
  }
}

/** Decimal text: Python's `str(int)`, `int(str)` and the `'{:02d}'` format. */
module Numbers {
  import opened Wrappers

  predicate IsDigit(c: char)
  {
    '0' <= c <= '9'
  }

  predicate AllDigits(s: string)
  {
    forall i :: 0 <= i < |s| ==> IsDigit(s[i])
  }

  function DigitChar(d: nat): (c: char)
    requires d < 10
    ensures IsDigit(c)
  {
    (('0' as int) + d) as char
  }

  function DigitValue(c: char): (d: nat)
    requires IsDigit(c)
    ensures d < 10
  {
    (c as int) - ('0' as int)
  }

  /** The value of a run of decimal digits, leading zeros allowed. */
  function DigitsValue(s: string): nat
    requires AllDigits(s)
  {
    if s == [] then 0 else 10 * DigitsValue(s[..|s| - 1]) + DigitValue(s[|s| - 1])
  }

  /** `str(n)` for a non-negative `n`: the shortest decimal text that denotes `n`. */
  function NatToString(n: nat): (r: string)
    ensures r != [] && AllDigits(r)
    ensures |r| > 1 ==> r[0] != '0'
    ensures |r| == 1 <==> n < 10
    ensures DigitsValue(r) == n
  {
    if n < 10 then [DigitChar(n)]
    else
      var r := NatToString(n / 10) + [DigitChar(n % 10)];
      assert r[..|r| - 1] == NatToString(n / 10);
      r
  }

  /** `str(e)`: a minus sign in front of the magnitude of a negative number. */
  function IntToString(e: int): (r: string)
    ensures e >= 0 ==> AllDigits(r) && r != [] && DigitsValue(r) == e && (|r| > 1 ==> r[0] != '0')
    ensures e < 0 ==>
      && |r| >= 2 && r[0] == '-' && AllDigits(r[1..])
      && DigitsValue(r[1..]) == -e && (|r| > 2 ==> r[1] != '0')
  {
    if e < 0 then "-" + NatToString(-e) else NatToString(e)
  }

  /** The text after a leading sign, or all of `s` when it has none. */
  function Unsigned(s: string): string
  {
    if s != [] && (s[0] == '+' || s[0] == '-') then s[1..] else s
  }

  /** `int(s)`: an optional `+` or `-` followed by one or more ASCII digits, otherwise
      `ValueError`. */
  function ParseInt(s: string): (r: Result<int>)
    ensures r.Ok? <==> s != [] && Unsigned(s) != [] && AllDigits(Unsigned(s))
    ensures r.Err? ==> r.error == ValueError
    ensures r.Ok? ==> r.value == if s[0] == '-' then -(DigitsValue(Unsigned(s)) as int) else DigitsValue(Unsigned(s))
  {
    if s != [] && (s[0] == '+' || s[0] == '-') then
      if |s| > 1 && AllDigits(s[1..]) then
        Ok(if s[0] == '-' then -(DigitsValue(s[1..]) as int) else DigitsValue(s[1..]))
      else Err(ValueError)
    else if s != [] && AllDigits(s) then Ok(DigitsValue(s))
    else Err(ValueError)
  }

  /** A leading zero does not change the value of a run of digits. */
  lemma {:induction false} DigitsValueLeadingZero(s: string)
    requires AllDigits(s)
    ensures AllDigits("0" + s) && DigitsValue("0" + s) == DigitsValue(s)
  {
    if s != [] {
      assert ("0" + s)[..|s|] == "0" + s[..|s| - 1];
      DigitsValueLeadingZero(s[..|s| - 1]);
    }
  }

  /** `int` reads back every number `str` writes. */
  lemma ParseIntOfIntToString(e: int)
    ensures ParseInt(IntToString(e)) == Ok(e)
  {
    if e < 0 {
      assert IntToString(e)[1..] == NatToString(-e);
    }
  }

  /** `int` drops leading zeros: "007" and "7" denote the same number. */
  lemma ParseIntLeadingZeros(s: string)
    requires s != [] && AllDigits(s)
    ensures ParseInt("0" + s) == ParseInt(s) == Ok(DigitsValue(s))
  {
    DigitsValueLeadingZero(s);
    assert Unsigned(s) == s && Unsigned("0" + s) == "0" + s;
  }

  /** `'{:02d}'.format(i)`: at least two digits, padded with a leading zero. */
  function ZeroPad2(i: nat): (r: string)
    ensures AllDigits(r) && |r| >= 2
    ensures i < 100 ==> |r| == 2
    ensures DigitsValue(r) == i
  {
    if i < 10 then
      DigitsValueLeadingZero(NatToString(i));
      "0" + NatToString(i)
    else NatToString(i)
  }
}

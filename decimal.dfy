/**
 * Integers written in decimal, as JavaScript template literals print them:
 * no leading zeros, a leading '-' for negative values.
 */
module Decimal {
  import opened Outcomes

  predicate IsDigit(c: char) {
    '0' <= c <= '9'
  }

  function DigitChar(d: nat): (c: char)
    requires d < 10
    ensures IsDigit(c) && c as int - '0' as int == d
  {
    ('0' as int + d) as char
  }

  /** The decimal digits of `n`, most significant first. */
  function NatToString(n: nat): (s: string)
    ensures |s| > 0
    ensures forall i | 0 <= i < |s| :: IsDigit(s[i])
    ensures s[0] == '0' ==> n == 0 && s == "0"
  {
    if n < 10 then [DigitChar(n)] else NatToString(n / 10) + [DigitChar(n % 10)]
  }

  /** `${i}` for an integer `i`: a sign for negative values only, then the digits of `|i|`. */
  function IntToString(i: int): (s: string)
    ensures |s| > 0
    ensures s[0] == '-' <==> i < 0
    ensures i >= 0 ==> s == NatToString(i)
    ensures i < 0 ==> s == "-" + NatToString(-i)
  {
    if i < 0 then "-" + NatToString(-i) else NatToString(i)
  }

  function DigitValue(c: char): nat
    requires IsDigit(c)
  {
    c as int - '0' as int
  }

  /** The value of a string of decimal digits (the reading direction). */
  function DigitsValue(s: string): nat
    requires forall i | 0 <= i < |s| :: IsDigit(s[i])
  {
    if s == [] then 0 else DigitsValue(s[..|s| - 1]) * 10 + DigitValue(s[|s| - 1])
  }

  /** Reading back what `NatToString` wrote gives the number. */
  lemma {:induction false} NatToStringReadsBack(n: nat)
    ensures DigitsValue(NatToString(n)) == n
  {
    var s := NatToString(n);
    if n >= 10 {
      NatToStringReadsBack(n / 10);
      assert s[..|s| - 1] == NatToString(n / 10);
    }
  }

  /** Different numbers are written differently. */
  lemma NatToStringInjective(a: nat, b: nat)
    ensures NatToString(a) == NatToString(b) ==> a == b
  {
    NatToStringReadsBack(a);
    NatToStringReadsBack(b);
  }

  /** Reading back what `IntToString` wrote: the sign, then the magnitude. */
  lemma IntToStringReadsBack(i: int)
    ensures IntToString(i)[0] == '-' <==> i < 0
    ensures i >= 0 ==> DigitsValue(IntToString(i)) == i
    ensures i < 0 ==> DigitsValue(IntToString(i)[1..]) == -i
  {
    if i < 0 {
      assert IntToString(i)[1..] == NatToString(-i);
      NatToStringReadsBack(-i);
    } else {
      NatToStringReadsBack(i);
    }
  }

  /** Different integers are printed differently. */
  lemma IntToStringInjective(a: int, b: int)
    ensures IntToString(a) == IntToString(b) ==> a == b
  {
    IntToStringReadsBack(a);
    IntToStringReadsBack(b);
  }

  /** Digits as `NatToString` writes them: at least one, and no leading zero unless the text is "0". */
  predicate CanonicalDigits(t: string) {
    && |t| > 0
    && (forall i | 0 <= i < |t| :: IsDigit(t[i]))
    && (t[0] == '0' ==> |t| == 1)
  }

  lemma {:induction false} LeadingDigitPositive(t: string)
    requires |t| > 0 && (forall i | 0 <= i < |t| :: IsDigit(t[i])) && t[0] != '0'
    ensures DigitsValue(t) >= 1
    decreases |t|
  {
    if |t| > 1 {
      var init := t[..|t| - 1];
      assert init[0] == t[0];
      LeadingDigitPositive(init);
    }
  }

  /** Canonical digits are exactly what `NatToString` writes for their value. */
  lemma {:induction false} CanonicalDigitsWritten(t: string)
    requires CanonicalDigits(t)
    ensures NatToString(DigitsValue(t)) == t
    decreases |t|
  {
    var init := t[..|t| - 1];
    var d := DigitValue(t[|t| - 1]);
    if |t| == 1 {
      assert DigitsValue(t) == d;
      assert DigitChar(d) as int == t[0] as int;
    } else {
      assert init[0] == t[0] != '0';
      LeadingDigitPositive(init);
      CanonicalDigitsWritten(init);
      var v := DigitsValue(t);
      assert v == DigitsValue(init) * 10 + d;
      assert v / 10 == DigitsValue(init) && v % 10 == d;
      assert DigitChar(d) as int == t[|t| - 1] as int;
      assert t == init + [t[|t| - 1]];
    }
  }

  /** Reads an integer as `${i}` prints it: an optional '-', then canonical digits (never "-0"). */
  function ReadInt(t: string): Option<int> {
    if |t| > 0 && t[0] == '-' then
      if CanonicalDigits(t[1..]) && t[1] != '0' then Some(-(DigitsValue(t[1..]) as int)) else None
    else if CanonicalDigits(t) then Some(DigitsValue(t) as int)
    else None
  }

  /** `ReadInt` accepts exactly the printed form of each integer, and no other text. */
  lemma ReadIntExactly(t: string, i: int)
    ensures ReadInt(t) == Some(i) <==> t == IntToString(i)
  {
    if t == IntToString(i) {
      ReadIntOfPrinted(i);
    }
    if ReadInt(t) == Some(i) {
      PrintedOfReadInt(t, i);
    }
  }

  lemma ReadIntOfPrinted(i: int)
    ensures ReadInt(IntToString(i)) == Some(i)
  {
    var t := IntToString(i);
    if i < 0 {
      var ds := NatToString(-i);
      assert t == "-" + ds && t[1..] == ds;
      assert CanonicalDigits(ds);
      NatToStringReadsBack(-i);
    } else {
      NatToStringReadsBack(i);
    }
  }

  lemma PrintedOfReadInt(t: string, i: int)
    requires ReadInt(t) == Some(i)
    ensures t == IntToString(i)
  {
    if |t| > 0 && t[0] == '-' {
      var ds := t[1..];
      CanonicalDigitsWritten(ds);
      assert DigitsValue(ds) == -i;
      assert t == "-" + ds;
    } else {
      CanonicalDigitsWritten(t);
    }
  }
}

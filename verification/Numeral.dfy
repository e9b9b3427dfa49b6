/** Numbers as text: positional notation in bases 8, 10 and 16, and the strtol of ISO/IEC 9899:1999,
    section 7.20.1.4, for a 32-bit long. */
module Numeral {
  predicate Base(b: int) {
    b == 8 || b == 10 || b == 16
  }

  function Quot(n: nat, b: nat): nat
    requires Base(b)
  {
    if b == 8 then n / 8 else if b == 10 then n / 10 else n / 16
  }

  function Rem(n: nat, b: nat): (d: nat)
    requires Base(b)
    ensures d < b
  {
    if b == 8 then n % 8 else if b == 10 then n % 10 else n % 16
  }

  function Times(n: nat, b: nat): nat
    requires Base(b)
  {
    if b == 8 then 8 * n else if b == 10 then 10 * n else 16 * n
  }

  const LOWER := "0123456789abcdef"
  const UPPER := "0123456789ABCDEF"

  function Digit(d: nat, upper: bool): char
    requires d < 16
  {
    if upper then UPPER[d] else LOWER[d]
  }

  /** The value of a digit; 16 if it is none. */
  function DigitValue(c: char): (d: nat)
    ensures d <= 16
  {
    if '0' <= c <= '9' then c as int - '0' as int
    else if 'a' <= c <= 'f' then c as int - 'a' as int + 10
    else if 'A' <= c <= 'F' then c as int - 'A' as int + 10
    else 16
  }

  /** Shortest notation of a number. */
  function NumText(n: nat, b: nat, upper: bool): (t: string)
    requires Base(b)
    ensures t != ""
    decreases n
  {
    if n < b then [Digit(n, upper)] else NumText(Quot(n, b), b, upper) + [Digit(Rem(n, b), upper)]
  }

  predicate Digits(t: string, b: nat) {
    forall i :: 0 <= i < |t| ==> DigitValue(t[i]) < b
  }

  function Value(t: string, b: nat): nat
    requires Base(b)
  {
    if t == "" then 0 else Times(Value(t[..|t| - 1], b), b) + DigitValue(t[|t| - 1])
  }

  lemma DigitOfValue(d: nat, upper: bool)
    requires d < 16
    ensures DigitValue(Digit(d, upper)) == d
  {
    var t := if upper then UPPER else LOWER;
    if d < 8 {
      if d < 4 { assert t[0..4] == "0123"; } else { assert t[4..8] == "4567"; }
    } else {
      if d < 12 { assert t[8..10] == "89"; } else { assert t[12..] == if upper then "CDEF" else "cdef"; }
    }
  }

  /** The notation denotes its number. */
  lemma {:induction false} NumTextValue(n: nat, b: nat, upper: bool)
    requires Base(b)
    ensures Digits(NumText(n, b, upper), b) && Value(NumText(n, b, upper), b) == n
    decreases n
  {
    var t := NumText(n, b, upper);
    if n < b {
      DigitOfValue(n, upper);
      assert t[..0] == "";
    } else {
      DigitOfValue(Rem(n, b), upper);
      NumTextValue(Quot(n, b), b, upper);
      assert t[..|t| - 1] == NumText(Quot(n, b), b, upper);
    }
  }

  /** Only zero is written with a leading zero. */
  lemma {:induction false} LeadingZero(n: nat, b: nat, upper: bool)
    requires Base(b)
    ensures NumText(n, b, upper)[0] == '0' <==> n == 0
    ensures n == 0 ==> NumText(n, b, upper) == "0"
    decreases n
  {
    if n >= b {
      LeadingZero(Quot(n, b), b, upper);
    } else {
      DigitOfValue(n, upper);
    }
  }

  function Power(b: nat, k: nat): nat
    requires Base(b)
  {
    if k == 0 then 1 else Times(Power(b, k - 1), b)
  }

  lemma {:induction false} NumTextLength(n: nat, b: nat, upper: bool, k: nat)
    requires Base(b) && k > 0 && n < Power(b, k)
    ensures |NumText(n, b, upper)| <= k
    decreases n
  {
    if n >= b {
      assert k > 1 && Quot(n, b) < Power(b, k - 1);
      NumTextLength(Quot(n, b), b, upper, k - 1);
    }
  }

  const TWO_32 := 0x1_0000_0000
  const LONG_MAX := 0x7FFF_FFFF

  /** At most 11 digits for 32 bits. */
  lemma NumTextFits(n: nat, b: nat, upper: bool)
    requires Base(b) && n < TWO_32
    ensures |NumText(n, b, upper)| <= if b == 8 then 11 else if b == 10 then 10 else 8
  {
    assert Power(b, 2) == b * b && Power(b, 4) == Times(Times(b * b, b), b);
    assert Power(b, 6) == Times(Times(Power(b, 4), b), b) && Power(b, 8) == Times(Times(Power(b, 6), b), b);
    if b != 16 {
      assert Power(b, 10) == Times(Times(Power(b, 8), b), b);
    }
    NumTextLength(n, b, upper, if b == 8 then 11 else if b == 10 then 10 else 8);
  }

  lemma {:induction false} LongerNumber(m: nat, n: nat, b: nat, upper: bool)
    requires Base(b) && m <= n
    ensures |NumText(m, b, upper)| <= |NumText(n, b, upper)|
    decreases n
  {
    if n >= b && m >= b {
      LongerNumber(Quot(m, b), Quot(n, b), b, upper);
    }
  }

  /** No notation is shorter. */
  lemma {:induction false} NumTextShortest(t: string, b: nat, upper: bool)
    requires Base(b) && t != "" && Digits(t, b)
    ensures |NumText(Value(t, b), b, upper)| <= |t|
    decreases |t|
  {
    if |t| > 1 {
      var s := t[..|t| - 1];
      NumTextShortest(s, b, upper);
      assert DigitValue(t[|t| - 1]) < b;
      assert Quot(Value(t, b), b) == Value(s, b);
    } else {
      assert t[..0] == "";
      assert DigitValue(t[0]) < b;
    }
  }

  // ----- strtol

  function DigitPrefix(t: string, b: nat): (p: string)
    ensures p <= t && Digits(p, b)
  {
    if t == "" || DigitValue(t[0]) >= b then "" else [t[0]] + DigitPrefix(t[1..], b)
  }

  lemma {:induction false} AllDigits(t: string, b: nat)
    requires Digits(t, b)
    ensures DigitPrefix(t, b) == t
    decreases |t|
  {
    if t != "" {
      assert DigitValue(t[0]) < b;
      AllDigits(t[1..], b);
      assert t == [t[0]] + t[1..];
    }
  }

  /** Without the optional prefix of base 16. */
  function AfterPrefix(t: string, b: nat): string {
    if b == 16 && |t| > 2 && t[0] == '0' && t[1] in "xX" && DigitValue(t[2]) < 16 then t[2..] else t
  }

  function Unsigned(t: string, b: nat): nat
    requires Base(b)
  {
    Value(DigitPrefix(AfterPrefix(t, b), b), b)
  }

  /** Value of the longest number a text starts with, cut to the range of a 32-bit long; 0 if it starts
      with none.  No text is passed that starts with white space. */
  function Strtol(t: string, b: nat): (r: int)
    requires Base(b)
    ensures -LONG_MAX - 1 <= r <= LONG_MAX
  {
    var n := Unsigned(if t != "" && t[0] in "+-" then t[1..] else t, b);
    if t != "" && t[0] == '-' then (if n > LONG_MAX then -LONG_MAX - 1 else 0 - n)
    else if n > LONG_MAX then LONG_MAX
    else n
  }

  /** A number in decimal, as %ld prints it. */
  function Decimal(v: int): (t: string)
    ensures t != ""
  {
    if v < 0 then "-" + NumText(-v, 10, false) else NumText(v, 10, false)
  }

  lemma FirstDigit(t: string, b: nat)
    requires t != "" && Digits(t, b)
    ensures DigitValue(t[0]) < b
  {
  }

  lemma StrtolDecimal(v: int)
    requires -LONG_MAX - 1 <= v <= LONG_MAX
    ensures Strtol(Decimal(v), 10) == v
  {
    hide NumText, Value, Digits;
    var n := if v < 0 then -v else v;
    var t := NumText(n, 10, false);
    NumTextValue(n, 10, false);
    AllDigits(t, 10);
    FirstDigit(t, 10);
    if v < 0 {
      assert Decimal(v)[1..] == t;
    }
  }

  /** The number read is written at least as short. */
  lemma StrtolShortest(t: string)
    requires t != ""
    ensures |Decimal(Strtol(t, 10))| <= |t|
  {
    hide NumText, Value, DigitPrefix;
    var s := if t[0] in "+-" then t[1..] else t;
    var p, v := DigitPrefix(s, 10), Strtol(t, 10);
    assert v == 0 ==> |Decimal(v)| == 1 by { LeadingZero(0, 10, false); }
    if p == "" {
      assert Value("", 10) == 0 by { NoDigits(); }
    } else {
      NumTextShortest(p, 10, false);
      LongerNumber(if v < 0 then -v else v, Value(p, 10), 10, false);
    }
  }

  lemma NoDigits()
    ensures Value("", 10) == 0
  {
  }
}

/** What section 7.19.6.1 of ISO/IEC 9899:1999 asks of the integer conversions, and where the output of
    crt/putf.c is that text. */
module Conform {
  import opened Numeral
  import opened FieldTrip
  import opened Directives
  import opened RoundTrip
  import P = Putf

  // ----- The standard

  /** Digits with the precision as their minimum number, which is 1 if no precision is given. */
  function StdDigits(u: P.Bits, b: nat, upper: bool, prec: int): string
    requires Base(b)
  {
    if u == 0 && prec == 0 then ""
    else
      var t := NumText(u, b, upper);
      P.Pad('0', prec - |t|) + t
  }

  /** A sign or base indication and digits in a field: blanks on the left, or on the right for '-', or
      zeros behind the indication for '0', which '-' and a precision switch off. */
  function StdLayout(m: P.Mods, lead: string, digits: string): string {
    var gap := m.width - |lead| - |digits|;
    if m.ladjust then lead + digits + P.Pad(' ', gap)
    else if m.zeropad && m.prec < 0 then lead + P.Pad('0', gap) + digits
    else P.Pad(' ', gap) + lead + digits
  }

  /** '#' raises the precision until the first digit is a zero. */
  function StdOctal(u: P.Bits, m: P.Mods): string {
    var d := StdDigits(u, 8, false, m.prec);
    if m.alt && (d == "" || d[0] != '0') then "0" + d else d
  }

  /** '#' puts 0x or 0X in front of a number that is not zero. */
  function StdPrefix(u: P.Bits, m: P.Mods, upper: bool): string {
    if m.alt && u != 0 then (if upper then "0X" else "0x") else ""
  }

  /** The text of the conversions d, i, u, o, x and X. */
  function StdText(c: char, m: P.Mods, u: P.Bits): string {
    match c
    case 'o' => StdLayout(m, "", StdOctal(u, m))
    case 'x' => StdLayout(m, StdPrefix(u, m, false), StdDigits(u, 16, false, m.prec))
    case 'X' => StdLayout(m, StdPrefix(u, m, true), StdDigits(u, 16, true, m.prec))
    case 'u' => StdLayout(m, "", StdDigits(u, 10, false, m.prec))
    case _ =>
      var sign := if P.Signed(u) < 0 then "-" else m.sign;
      StdLayout(m, sign, StdDigits(P.Magnitude(u), 10, false, m.prec))
  }

  // ----- The source

  /** What the source puts out for one conversion. */
  function Output(c: char, m: P.Mods, u: P.Bits): string {
    P.Emit(P.Convert(c, m, [P.Num(u)]).0)
  }

  function HexDigits(u: P.Bits): nat {
    |NumText(u, 16, false)|
  }

  /** The flags, widths, precisions and numbers for which the source follows the standard. */
  predicate Follows(c: char, m: P.Mods, u: P.Bits) {
    match c
    case 'o' => !(m.alt && u == 0 && m.prec == 0)
    case 'x' => HexFollows(m, u)
    case 'X' => HexFollows(m, u)
    case _ => true
  }

  predicate HexFollows(m: P.Mods, u: P.Bits) {
    if m.alt then
      && u != 0 && m.prec <= HexDigits(u)
      && !(m.zeropad && !m.ladjust && m.prec < 0 && m.width > HexDigits(u) + 2)
    else !(u == 0 && m.prec == 0)
  }

  // ----- Fields of an indication and digits

  /** A field of the source without a prefix among its characters is laid out as the standard asks. */
  lemma PlainField(m: P.Mods, sign: string, body: string)
    requires m.prec >= -1
    ensures P.Emit(P.Field(P.IntMods(m, sign), m.prec, body)) == StdLayout(m, sign, P.Pad('0', m.prec - |body|) + body)
  {
    hide P.Pad, P.Emit, P.Realsz, P.Max, StdLayout;
    var f := P.Field(P.IntMods(m, sign), m.prec, body);
    var zeros, gap := P.Pad('0', m.prec - |body|), m.width - P.Realsz(f);
    SizeIs(f);
    EmitIs(f);
    LayoutIs(m, sign, zeros + body, gap);
    if m.ladjust {
      LeftAdjusted(sign, zeros, body, P.Pad(' ', gap));
    } else if f.mods.zeropad {
      NoZeros(m.prec, body);
      ZeroPadded(sign, P.Pad('0', gap), body);
    } else {
      RightAdjusted(P.Pad(' ', gap), sign, zeros, body);
    }
  }

  lemma SizeIs(f: P.Field)
    ensures P.Realsz(f) == |f.mods.sign| + |P.Pad('0', f.dprec - |f.body|) + f.body|
  {
  }

  lemma LayoutIs(m: P.Mods, lead: string, digits: string, gap: int)
    requires gap == m.width - |lead| - |digits|
    ensures m.ladjust ==> StdLayout(m, lead, digits) == lead + digits + P.Pad(' ', gap)
    ensures !m.ladjust && m.zeropad && m.prec < 0 ==> StdLayout(m, lead, digits) == lead + P.Pad('0', gap) + digits
    ensures !m.ladjust && !(m.zeropad && m.prec < 0) ==> StdLayout(m, lead, digits) == P.Pad(' ', gap) + lead + digits
  {
  }

  lemma NoZeros(prec: int, body: string)
    requires prec < 0
    ensures P.Pad('0', prec - |body|) == ""
  {
  }

  /** The parts of an emitted field. */
  lemma EmitIs(f: P.Field)
    ensures
      var zeros, gap := P.Pad('0', f.dprec - |f.body|), f.mods.width - P.Realsz(f);
      P.Emit(f) ==
        if f.mods.ladjust then "" + f.mods.sign + "" + zeros + f.body + P.Pad(' ', gap)
        else if f.mods.zeropad then "" + f.mods.sign + P.Pad('0', gap) + zeros + f.body + ""
        else P.Pad(' ', gap) + f.mods.sign + "" + zeros + f.body + ""
  {
  }

  lemma LeftAdjusted(sign: string, zeros: string, body: string, t: string)
    ensures "" + sign + "" + zeros + body + t == sign + (zeros + body) + t
  {
    assert "" + sign + "" == sign;
    assert sign + zeros + body == sign + (zeros + body);
  }

  lemma ZeroPadded(sign: string, mid: string, body: string)
    ensures "" + sign + mid + "" + body + "" == sign + mid + ("" + body)
  {
    assert "" + sign == sign && "" + body == body;
    assert sign + mid + "" == sign + mid;
  }

  lemma RightAdjusted(a: string, sign: string, zeros: string, body: string)
    ensures a + sign + "" + zeros + body + "" == a + sign + (zeros + body)
  {
    assert a + sign + "" == a + sign;
    assert a + sign + zeros + body == a + sign + (zeros + body);
  }

  lemma DecimalFollows(m: P.Mods, u: P.Bits, c: char)
    requires Possible(m) && c in "diu"
    ensures Output(c, m, u) == StdText(c, m, u)
  {
    hide P.Emit, StdLayout, NumText, P.Pad;
    PadNothing();
    var v := if c == 'u' then u else P.Magnitude(u);
    var sign := if c == 'u' then "" else if P.Signed(u) < 0 then "-" else m.sign;
    PlainField(m, sign, P.DecimalBody(v, m.prec));
    assert StdDigits(v, 10, false, m.prec)
      == P.Pad('0', m.prec - |P.DecimalBody(v, m.prec)|) + P.DecimalBody(v, m.prec);
  }

  // ----- Octal

  /** Precision, then the alternate form, or the other way round. */
  lemma OctalDigits(m: P.Mods, u: P.Bits)
    requires m.prec >= -1 && (u != 0 || m.prec != 0)
    ensures
      var body := P.OctalBody(u, m);
      P.Pad('0', m.prec - |body|) + body == StdOctal(u, m)
  {
    hide NumText;
    var t := NumText(u, 8, false);
    var n := m.prec - |t|;
    LeadingZero(u, 8, false);
    PadNothing();
    assert "" + t == t && "" + ("0" + t) == "0" + t;
    if n > 0 && m.alt && t[0] != '0' {
      P.PadParts('0', n - 1, 1);
      OneZero();
      assert P.Pad('0', n - 1) + ("0" + t) == P.Pad('0', n - 1) + "0" + t;
    }
  }

  lemma OneZero()
    ensures P.Pad('0', 1) == "0" && P.Pad('0', 0) == ""
  {
  }

  /** A field without digits is blank behind its indication, one with the digit 0 is not. */
  lemma DigitShows(m: P.Mods)
    requires m.prec == 0
    ensures StdLayout(m, "", "") != StdLayout(m, "", "0")
  {
    var a, b := StdLayout(m, "", ""), StdLayout(m, "", "0");
    assert forall i :: 0 <= i < |a| ==> a[i] == ' ';
    assert b[if m.ladjust then 0 else |b| - 1] == '0';
  }

  lemma OctalFollows(m: P.Mods, u: P.Bits)
    requires Possible(m)
    ensures Output('o', m, u) == StdText('o', m, u) <==> Follows('o', m, u)
  {
    hide P.Emit, StdLayout, P.OctalBody, StdOctal, P.Pad;
    var body := P.OctalBody(u, m);
    PlainField(m, "", body);
    if u != 0 || m.prec != 0 {
      OctalDigits(m, u);
    } else {
      OctalNothing(m);
      DigitShows(m);
    }
  }

  lemma OctalNothing(m: P.Mods)
    requires m.prec == 0
    ensures P.Pad('0', m.prec - |P.OctalBody(0, m)|) + P.OctalBody(0, m) == ""
    ensures StdOctal(0, m) == if m.alt then "0" else ""
  {
  }

  // ----- Hexadecimal

  /** The digits behind the prefix. */
  function Prefixed(u: P.Bits, upper: bool): string {
    (if upper then "0X" else "0x") + NumText(u, 16, upper)
  }

  lemma HexPlain(c: char, m: P.Mods, u: P.Bits)
    requires Possible(m) && (c == 'x' || c == 'X') && !m.alt
    ensures Output(c, m, u) == StdText(c, m, u) <==> !(u == 0 && m.prec == 0)
  {
    hide P.Emit, StdLayout, NumText, P.Pad;
    var t := NumText(u, 16, c == 'X');
    assert P.HexBody(u, false, c == 'X') == t;
    PlainField(m, "", t);
    if u == 0 && m.prec == 0 {
      LeadingZero(0, 16, c == 'X');
      PadNothing();
      assert P.Pad('0', -1) + "0" == "0";
      DigitShows(m);
    }
  }

  /** With '#', where the source puts the prefix behind the padding zeros and counts it as digits. */
  lemma HexAlternate(c: char, m: P.Mods, u: P.Bits)
    requires Possible(m) && (c == 'x' || c == 'X') && m.alt
    ensures Output(c, m, u) == StdLayout(m, "", P.Pad('0', m.prec - |Prefixed(u, c == 'X')|) + Prefixed(u, c == 'X'))
  {
    hide P.Emit, StdLayout, NumText, P.Pad;
    assert P.HexBody(u, true, c == 'X') == Prefixed(u, c == 'X');
    PlainField(m, "", Prefixed(u, c == 'X'));
  }

  lemma SameLength(u: P.Bits)
    ensures |NumText(u, 16, true)| == |NumText(u, 16, false)|
  {
    LongerCase(u);
  }

  lemma {:induction false} LongerCase(n: nat)
    ensures |NumText(n, 16, true)| == |NumText(n, 16, false)|
    decreases n
  {
    if n >= 16 {
      LongerCase(n / 16);
    }
  }

  /** Where the prefix stays in front. */
  lemma PrefixInFront(m: P.Mods, lead: string, t: string)
    requires |lead| == 2 && m.prec <= |t| && !(m.zeropad && !m.ladjust && m.prec < 0 && m.width > |t| + 2)
    ensures
      StdLayout(m, "", P.Pad('0', m.prec - |lead + t|) + (lead + t)) == StdLayout(m, lead, P.Pad('0', m.prec - |t|) + t)
  {
    hide P.Pad;
    PadNothing();
    assert "" + t == t && "" + (lead + t) == lead + t;
    if !m.ladjust && !(m.zeropad && m.prec < 0) {
      var blanks := P.Pad(' ', m.width - 2 - |t|);
      assert blanks + "" + (lead + t) == blanks + lead + t;
    } else {
      assert lead + "" == lead;
    }
  }

  /** Where the digits of a field are, and its indication. */
  lemma LayoutAt(m: P.Mods, lead: string, digits: string)
    ensures
      var t := StdLayout(m, lead, digits);
      var at := if m.ladjust then |lead| else |t| - |digits|;
      && at >= |lead| && at + |digits| <= |t|
      && (forall k :: 0 <= k < |digits| ==> t[at + k] == digits[k])
      && (m.ladjust || (m.zeropad && m.prec < 0) ==> forall k :: 0 <= k < |lead| ==> t[k] == lead[k])
  {
    hide P.Pad;
  }

  /** Zeros fill the field behind the prefix, or in front of it. */
  lemma PrefixBehindZeros(m: P.Mods, x: char, t: string)
    requires x != '0' && m.zeropad && !m.ladjust && m.prec < 0 && m.width > |t| + 2
    ensures StdLayout(m, "", "" + (['0', x] + t)) != StdLayout(m, ['0', x], "" + t)
  {
    hide P.Pad;
    var zeros := P.Pad('0', m.width - |t| - 2);
    assert zeros[0] == '0' && (|zeros| > 1 ==> zeros[1] == '0');
    assert ("" + zeros + ("" + (['0', x] + t)))[1] == '0';
    assert (['0', x] + zeros + ("" + t))[1] == x;
  }

  /** On the left: the source's prefix is behind its zeros, or its digits are too few. */
  lemma PrefixOnLeft(m: P.Mods, x: char, t: string)
    requires t != "" && t[0] != '0' && x != '0' && m.ladjust && m.prec > |t|
    ensures
      StdLayout(m, "", P.Pad('0', m.prec - |t| - 2) + (['0', x] + t))
        != StdLayout(m, ['0', x], P.Pad('0', m.prec - |t|) + t)
  {
    hide StdLayout, P.Pad;
    var a, b := P.Pad('0', m.prec - |t| - 2) + (['0', x] + t), P.Pad('0', m.prec - |t|) + t;
    LayoutAt(m, "", a);
    LayoutAt(m, ['0', x], b);
    if m.prec > |t| + 2 {
      assert a[1] == '0';
    } else {
      assert a[2] == t[0] && b[0] == '0';
    }
  }

  /** On the right: the character in front of the digits is the prefix, or a zero. */
  lemma PrefixOnRight(m: P.Mods, x: char, t: string)
    requires t != "" && x != '0' && !m.ladjust && m.prec > |t|
    ensures
      StdLayout(m, "", P.Pad('0', m.prec - |t| - 2) + (['0', x] + t))
        != StdLayout(m, ['0', x], P.Pad('0', m.prec - |t|) + t)
  {
    hide StdLayout, P.Pad;
    var a, b := P.Pad('0', m.prec - |t| - 2) + (['0', x] + t), P.Pad('0', m.prec - |t|) + t;
    LayoutAt(m, "", a);
    LayoutAt(m, ['0', x], b);
    assert a[|a| - |t| - 1] == x && b[|b| - |t| - 1] == '0';
  }

  /** Where it does not: more digits are asked for than there are, or zeros fill the field. */
  lemma PrefixMoved(m: P.Mods, x: char, t: string)
    requires t != "" && t[0] != '0' && x != '0'
    requires m.prec > |t| || (m.zeropad && !m.ladjust && m.prec < 0 && m.width > |t| + 2)
    ensures
      StdLayout(m, "", P.Pad('0', m.prec - |t| - 2) + (['0', x] + t))
        != StdLayout(m, ['0', x], P.Pad('0', m.prec - |t|) + t)
  {
    hide StdLayout, P.Pad;
    if m.prec <= |t| {
      PadNothing();
      PrefixBehindZeros(m, x, t);
    } else if m.ladjust {
      PrefixOnLeft(m, x, t);
    } else {
      PrefixOnRight(m, x, t);
    }
  }

  lemma ZerosAndBlanks(m: P.Mods, digits: string)
    requires forall i :: 0 <= i < |digits| ==> digits[i] == '0'
    ensures var t := StdLayout(m, "", digits); forall i :: 0 <= i < |t| ==> t[i] == '0' || t[i] == ' '
  {
    hide P.Pad;
  }

  /** Zero has no prefix. */
  lemma ZeroPrefixed(m: P.Mods, x: char, digits: string)
    requires x != '0' && x != ' ' && (digits == "" || digits == "0")
    ensures
      StdLayout(m, "", P.Pad('0', m.prec - 3) + ['0', x, '0'])
        != StdLayout(m, "", P.Pad('0', m.prec - |digits|) + digits)
  {
    hide StdLayout, P.Pad;
    var a, b := P.Pad('0', m.prec - 3) + ['0', x, '0'], P.Pad('0', m.prec - |digits|) + digits;
    LayoutAt(m, "", a);
    ZerosAndBlanks(m, b);
    assert a[|a| - 2] == x;
  }

  lemma HexFollowsIff(c: char, m: P.Mods, u: P.Bits)
    requires Possible(m) && (c == 'x' || c == 'X')
    ensures Output(c, m, u) == StdText(c, m, u) <==> HexFollows(m, u)
  {
    hide P.Emit, P.Convert, StdLayout, NumText, P.Pad;
    var upper := c == 'X';
    var t := NumText(u, 16, upper);
    SameLength(u);
    if !m.alt {
      HexPlain(c, m, u);
    } else {
      var x := if upper then 'X' else 'x';
      var lead := if upper then "0X" else "0x";
      assert lead == ['0', x];
      HexAlternate(c, m, u);
      LeadingZero(u, 16, upper);
      if u == 0 {
        assert lead + "0" == ['0', x, '0'];
        PadNothing();
        var digits := if m.prec == 0 then "" else "0";
        assert t == "0" && P.Pad('0', 0) + "" == "";
        assert StdDigits(u, 16, upper, m.prec) == P.Pad('0', m.prec - |digits|) + digits;
        assert Prefixed(u, upper) == ['0', x, '0'];
        ZeroPrefixed(m, x, digits);
      } else if HexFollows(m, u) {
        PrefixInFront(m, lead, t);
      } else {
        PrefixMoved(m, x, t);
      }
    }
  }

  // ----- The conversions together

  /** For every integer conversion, all modifiers and all numbers: the source puts out what the standard asks
      for exactly as Follows says. */
  lemma ConformsIff(c: char, m: P.Mods, u: P.Bits)
    requires Possible(m) && c in "diuoxX"
    ensures Output(c, m, u) == StdText(c, m, u) <==> Follows(c, m, u)
  {
    hide Output, StdText, HexFollows;
    if c == 'o' {
      OctalFollows(m, u);
    } else if c == 'x' || c == 'X' {
      HexFollowsIff(c, m, u);
    } else {
      DecimalFollows(m, u, c);
    }
  }

  /** The same for every format of one conversion: any flags, a width, a precision, from the format or the
      arguments, and a length. */
  lemma FormatConformsIff(flags: string, w: Count, p: Count, length: string, c: char, x: P.Bits, y: P.Bits, u: P.Bits)
    requires FlagChars(flags) && WidthOk(w) && PrecOk(p) && LengthChars(length) && c in "diuoxX"
    ensures
      var m := Meaning(flags, w, p, x, y);
      P.Format("%" + Directive(flags, w, p, length, c), StarArgs(w, p, x, y) + [P.Num(u)]) == StdText(c, m, u)
      <==> Follows(c, m, u)
  {
    hide P.Format, P.Emit, StdText, Follows, Meaning, Possible;
    MeaningPossible(flags, w, p, x, y);
    OneDirective(flags, w, p, length, c, x, y, P.Num(u));
    ConformsIff(c, Meaning(flags, w, p, x, y), u);
  }
}

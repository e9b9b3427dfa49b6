/** What a single conversion of formatted input stores (crt/getf.c, vsscanf): base, size, width, suppression, and
    characters. */
module SizeTrip {
  import opened Numeral
  import opened RoundTrip
  import opened FieldTrip
  import P = Putf
  import G = Getf

  /** Length modifiers: an int, a short, a char, a long. */
  predicate Length(t: string) {
    t in ["", "h", "hh", "l"]
  }

  /** What is stored for a number: as many bytes as the length says, with its low bits. */
  function Held(length: string, v: int): G.Stored {
    if length == "h" then G.Number(2, v % 0x1_0000)
    else if length == "hh" then G.Number(1, v % 0x100)
    else G.Number(4, v % 0x1_0000_0000)
  }

  /** A conversion: '*' for suppression, a width in decimal if it is not 0, a length and a character. */
  function Conversion(star: bool, width: nat, length: string, c: char): string {
    (if star then "*" else "") + ((if width == 0 then "" else NumText(width, 10, false)) + (length + [c]))
  }

  predicate Final(c: char) {
    !('0' <= c <= '9') && c !in "*lh%"
  }

  lemma {:induction false} WidthDigits(pre: string, t: string, tail: string, m: G.Mods)
    requires Numeral.Digits(t, 10) && m.width == Value(pre, 10)
    ensures G.Modifiers(t + tail, m) == G.Modifiers(tail, m.(width := Value(pre + t, 10)))
    decreases |t|
  {
    if t == "" {
      assert t + tail == tail && pre + t == pre;
    } else {
      assert DigitValue(t[0]) < 10;
      var m1 := m.(width := Value(pre + [t[0]], 10));
      assert (pre + [t[0]])[..|pre|] == pre;
      assert t + tail == [t[0]] + (t[1..] + tail);
      WidthDigit(t[0], t[1..] + tail, m);
      WidthDigits(pre + [t[0]], t[1..], tail, m1);
      assert pre + [t[0]] + t[1..] == pre + t;
    }
  }

  lemma WidthDigit(c: char, tail: string, m: G.Mods)
    requires '0' <= c <= '9'
    ensures G.Modifiers([c] + tail, m) == G.Modifiers(tail, m.(width := 10 * m.width + DigitValue(c)))
  {
    assert ([c] + tail)[1..] == tail && ([c] + tail)[0] == c;
  }

  lemma OtherModifier(c: char, tail: string, m: G.Mods)
    requires c in "*lh"
    ensures G.Modifiers([c] + tail, m) == G.Modifiers(tail,
      if c == '*' then m.(suppress := true) else if c == 'l' then m.(long := true) else m.(hcnt := G.Inc8(m.hcnt)))
  {
    assert ([c] + tail)[1..] == tail && ([c] + tail)[0] == c;
  }

  lemma FinalEnds(c: char, tail: string, m: G.Mods)
    requires Final(c)
    ensures G.Modifiers([c] + tail, m) == (m, [c] + tail)
  {
  }

  lemma LengthRead(length: string, tail: string, m: G.Mods)
    requires Length(length) && !m.long && m.hcnt == 0
    ensures G.Modifiers(length + tail, m) == G.Modifiers(tail, m.(
      long := length == "l", hcnt := if length == "h" then 1 else if length == "hh" then 2 else 0))
  {
    hide G.Modifiers;
    if length == "" {
      assert length + tail == tail;
    } else if length == "hh" {
      assert "hh" + tail == ['h'] + (['h'] + tail);
      OtherModifier('h', ['h'] + tail, m);
      OtherModifier('h', tail, m.(hcnt := 1));
    } else {
      assert length + tail == [length[0]] + tail;
      OtherModifier(length[0], tail, m);
    }
  }

  /** The modifiers read from a conversion. */
  lemma ConversionRead(star: bool, width: nat, length: string, c: char, tail: string)
    requires Length(length) && Final(c)
    ensures
      G.Modifiers(Conversion(star, width, length, c) + tail, G.NO_MODS) == (
        G.Mods(width, star, length == "l", if length == "h" then 1 else if length == "hh" then 2 else 0),
        [c] + tail)
  {
    hide G.Modifiers, Final, Value, NumText;
    var t1 := [c] + tail;
    var t2 := length + t1;
    var digits := if width == 0 then "" else NumText(width, 10, false);
    var t3 := digits + t2;
    var first := if star then "*" else "";
    assert Conversion(star, width, length, c) + tail == first + t3;
    var m1 := G.NO_MODS.(suppress := star);
    if star {
      assert first + t3 == ['*'] + t3;
      OtherModifier('*', t3, G.NO_MODS);
    } else {
      assert first + t3 == t3;
    }
    NothingValued();
    if width > 0 {
      NumTextValue(width, 10, false);
    }
    WidthDigits("", digits, t2, m1);
    assert "" + digits == digits;
    var m2 := m1.(width := width);
    LengthRead(length, t1, m2);
    FinalEnds(c, tail, m2.(
      long := length == "l", hcnt := if length == "h" then 1 else if length == "hh" then 2 else 0));
  }

  lemma NothingValued()
    ensures Value("", 10) == 0 && Numeral.Digits("", 10)
  {
  }

  lemma NotPercent(star: bool, width: nat, length: string, c: char)
    requires Length(length) && Final(c)
    ensures Conversion(star, width, length, c) != "" && Conversion(star, width, length, c)[0] != '%'
  {
    hide NumText;
    if width > 0 {
      NumTextValue(width, 10, false);
      assert DigitValue(NumText(width, 10, false)[0]) < 10;
    }
  }

  // ----- A whole text and a single conversion

  function BaseFor(c: char): nat {
    match c
    case 'i' => 0
    case 'o' => 8
    case 'x' => 16
    case 'X' => 16
    case _ => 10
  }

  /** An integer conversion of a text that starts with no white space: what is stored. */
  lemma ScanOne(star: bool, width: nat, length: string, c: char, t: string)
    requires Length(length) && c in "diuoxX" && t != "" && !G.IsSpace(t[0])
    requires
      var n := G.ScanInteger(At(t), if width == 0 || width > 15 then 15 else width, BaseFor(c),
        G.Flags(true, true, c == 'x' || c == 'X', true), "");
      !n.flags.noDigits && Base(n.base)
    ensures
      var n := G.ScanInteger(At(t), if width == 0 || width > 15 then 15 else width, BaseFor(c),
        G.Flags(true, true, c == 'x' || c == 'X', true), "");
      G.Sscanf(t, "%" + Conversion(star, width, length, c))
        == if star then (0, []) else (1, [Held(length, Strtol(n.text, n.base))])
  {
    hide G.ScanInteger, Strtol, G.Modifiers, Conversion;
    var t0 := Conversion(star, width, length, c);
    var s := G.Begin(t);
    ConversionRead(star, width, length, c, "");
    NotPercent(star, width, length, c);
    assert t0 + "" == t0 && [c] + "" == [c] && ("%" + t0)[1..] == t0 && [c][1..] == "" && ("%" + t0)[0] == '%';
    var m := G.Mods(width, star, length == "l", if length == "h" then 1 else if length == "hh" then 2 else 0);
    assert G.Modifiers(t0, G.NO_MODS) == (m, [c]);
    assert G.Fetch(s.src) == At(t) && G.SkipToText(At(t)) == G.Found(At(t));
    assert G.Step("%" + t0, s) == G.IntConversion("", c, m, s.(src := At(t)));
    OneStored(m, length, c, s.(src := At(t)));
    RunStep("%" + t0, s);
    RunNothing(G.Step("%" + t0, s).scan);
  }

  /** Without a digit nothing is stored. */
  lemma ScanNone(star: bool, width: nat, length: string, c: char, t: string)
    requires Length(length) && c in "diuoxX" && t != "" && !G.IsSpace(t[0])
    requires
      G.ScanInteger(At(t), if width == 0 || width > 15 then 15 else width, BaseFor(c),
        G.Flags(true, true, c == 'x' || c == 'X', true), "").flags.noDigits
    ensures G.Sscanf(t, "%" + Conversion(star, width, length, c)) == (0, [])
  {
    hide G.ScanInteger, Strtol, G.Modifiers, Conversion;
    var t0 := Conversion(star, width, length, c);
    var s := G.Begin(t);
    ConversionRead(star, width, length, c, "");
    NotPercent(star, width, length, c);
    assert t0 + "" == t0 && [c] + "" == [c] && ("%" + t0)[1..] == t0 && [c][1..] == "" && ("%" + t0)[0] == '%';
    var m := G.Mods(width, star, length == "l", if length == "h" then 1 else if length == "hh" then 2 else 0);
    assert G.Modifiers(t0, G.NO_MODS) == (m, [c]);
    assert G.Fetch(s.src) == At(t) && G.SkipToText(At(t)) == G.Found(At(t));
    assert G.Step("%" + t0, s) == G.IntConversion("", c, m, s.(src := At(t)));
    assert G.BaseOf(c) == BaseFor(c) && G.Start(c) == G.Flags(true, true, c == 'x' || c == 'X', true);
  }

  lemma OneStored(m: G.Mods, length: string, c: char, s: G.Scan)
    requires Length(length) && c in "diuoxX" && s.acnt == 0 && s.out == []
    requires m.long == (length == "l") && m.hcnt == if length == "h" then 1 else if length == "hh" then 2 else 0
    requires
      var n := G.ScanInteger(s.src, if m.width == 0 || m.width > 15 then 15 else m.width, BaseFor(c),
        G.Flags(true, true, c == 'x' || c == 'X', true), "");
      !n.flags.noDigits && Base(n.base)
    ensures
      var n := G.ScanInteger(s.src, if m.width == 0 || m.width > 15 then 15 else m.width, BaseFor(c),
        G.Flags(true, true, c == 'x' || c == 'X', true), "");
      var o := G.IntConversion("", c, m, s);
      && o.Continue? && o.fmt == "" && o.scan.acnt == (if m.suppress then 0 else 1)
      && o.scan.out == if m.suppress then [] else [Held(length, Strtol(n.text, n.base))]
  {
    hide G.ScanInteger, Strtol;
    assert G.BaseOf(c) == BaseFor(c) && G.Start(c) == G.Flags(true, true, c == 'x' || c == 'X', true);
  }

  // ----- What was printed

  /** "%d", "%u", "%o", "%x" and "%X" without modifiers. */
  lemma PrintedPlain(c: char, u: P.Bits)
    requires c in "duoxX"
    ensures
      P.Format("%" + [c], [P.Num(u)]) ==
        if c == 'd' then Decimal(P.Signed(u)) else NumText(u, BaseFor(c), c == 'X')
  {
    hide P.Emit, NumText;
    if c == 'd' {
      FormatLong(false, P.Signed(u), "", []);
      FormatNothing([]);
      assert "%d" + "" == "%d" == "%" + ['d'] && Word(P.Signed(u)) == u && [P.Num(u)] + [] == [P.Num(u)];
      assert Decimal(P.Signed(u)) + "" == Decimal(P.Signed(u));
    } else {
      var ap := [P.Num(u)];
      assert ("%" + [c])[1..] == [c] && [c][1..] == "" && P.Rest(ap) == [];
      assert P.Modifiers([c], ap, P.NO_MODS) == (P.NO_MODS, [c], ap);
      var f := P.Convert(c, P.NO_MODS, ap).0;
      EmitPlain(f);
      FormatNothing([]);
      assert "" + f.body == f.body && f.body + "" == f.body;
      assert "" + NumText(u, 16, c == 'X') == NumText(u, 16, c == 'X');
    }
  }

  /** strtol on notations without a prefix. */
  lemma StrtolPlain(u: P.Bits, b: nat, upper: bool)
    requires Base(b)
    ensures Strtol(NumText(u, b, upper), b) == if u > 0x7FFF_FFFF then 0x7FFF_FFFF else u
  {
    hide NumText, Value;
    var t := NumText(u, b, upper);
    NumTextValue(u, b, upper);
    AllDigits(t, b);
    assert DigitValue(t[0]) < b;
    assert |t| > 1 ==> DigitValue(t[1]) < b;
    assert AfterPrefix(t, b) == t;
  }

  /** A number printed with "%d", "%u", "%o", "%x" or "%X" and read with the same conversion and a length: 4, 2, 1 or
      4 bytes are stored for "", "h", "hh" and "l", with the low bits of the number, cut to 2^31 - 1 if it is
      unsigned. */
  lemma SizedRoundTrip(length: string, c: char, u: P.Bits)
    requires Length(length) && c in "duoxX"
    ensures
      var v := if c == 'd' then (if u > 0x7FFF_FFFF then u - 0x1_0000_0000 else u)
        else if u > 0x7FFF_FFFF then 0x7FFF_FFFF else u;
      G.Sscanf(P.Format("%" + [c], [P.Num(u)]), "%" + length + [c]) == (1, [
        if length == "h" then G.Number(2, v % 0x1_0000)
        else if length == "hh" then G.Number(1, v % 0x100)
        else G.Number(4, v % 0x1_0000_0000)])
  {
    hide G.Sscanf, P.Format, NumText, G.ScanInteger, Strtol;
    PrintedPlain(c, u);
    assert "%" + length + [c] == "%" + Conversion(false, 0, length, c);
    if c == 'd' {
      var v: Long := P.Signed(u);
      NotSpace(v);
      var f := ScanDecimal(v, "", 10);
      assert Decimal(v) + "" == Decimal(v);
      StrtolDecimal(v);
      ScanOne(false, 0, length, c, Decimal(v));
    } else {
      ScanUnsigned(length, c, u);
    }
  }

  lemma ScanUnsigned(length: string, c: char, u: P.Bits)
    requires Length(length) && c in "uoxX"
    ensures
      G.Sscanf(NumText(u, BaseFor(c), c == 'X'), "%" + Conversion(false, 0, length, c))
        == (1, [Held(length, if u > 0x7FFF_FFFF then 0x7FFF_FFFF else u)])
  {
    hide G.Sscanf, NumText, G.ScanInteger, Strtol, Value;
    var b, t := BaseFor(c), NumText(u, BaseFor(c), c == 'X');
    NumTextValue(u, b, c == 'X');
    NumTextFits(u, b, c == 'X');
    StrtolPlain(u, b, c == 'X');
    var f := ScanDigits(t, "", 15, b, G.Flags(true, true, c == 'x' || c == 'X', true), "");
    assert t + "" == t && "" + t == t;
    DigitNoSpace(t, b);
    ScanOne(false, 0, length, c, t);
  }

  lemma DigitNoSpace(t: string, b: nat)
    requires Base(b) && t != "" && Numeral.Digits(t, b)
    ensures !G.IsSpace(t[0])
  {
    assert DigitValue(t[0]) < b;
  }

  /** Digits read with a width and a length: at most so many, and never more than 15, are read; with '*' they are
      read and nothing is stored. */
  lemma WidthRoundTrip(star: bool, width: nat, length: string, t: string)
    requires Length(length) && t != "" && Numeral.Digits(t, 10)
    ensures
      var k := if width == 0 || width > 15 then 15 else width;
      var n := Value(if |t| <= k then t else t[..k], 10);
      G.Sscanf(t, "%" + Conversion(star, width, length, 'd'))
        == if star then (0, []) else (1, [Held(length, if n > 0x7FFF_FFFF then 0x7FFF_FFFF else n)])
  {
    hide G.Sscanf, G.ScanInteger, Strtol, Value, Conversion, Numeral.Digits, Held, Length, G.IsSpace;
    var k := if width == 0 || width > 15 then 15 else width;
    var r := if |t| <= k then t else t[..k];
    ScanAtMost(t, k);
    FirstDigits(t, k);
    ValueCut(r);
    DigitNoSpace(t, 10);
    assert BaseFor('d') == 10;
    ScanOne(star, width, length, 'd', t);
  }

  lemma ValueCut(r: string)
    requires r != "" && Numeral.Digits(r, 10)
    ensures Strtol(r, 10) == if Value(r, 10) > 0x7FFF_FFFF then 0x7FFF_FFFF else Value(r, 10)
  {
    StrtolSigned("", r);
    assert "" + r == r;
  }

  lemma ScanAtMost(t: string, k: nat)
    requires t != "" && Numeral.Digits(t, 10) && k > 0
    ensures
      var n := G.ScanInteger(At(t), k, 10, G.Flags(true, true, false, true), "");
      n.text == (if |t| <= k then t else t[..k]) && n.base == 10 && !n.flags.noDigits
  {
    ScanSome(t, "", k, G.Flags(true, true, false, true), "");
    assert t + "" == t && t[..|t|] == t;
    assert "" + t[..G.Min(|t|, k)] == t[..G.Min(|t|, k)];
  }

  lemma FirstDigits(t: string, k: nat)
    requires t != "" && Numeral.Digits(t, 10) && k > 0
    ensures var r := if |t| <= k then t else t[..k]; r != "" && Numeral.Digits(r, 10)
  {
  }

  // ----- Characters

  lemma {:induction false} SkippedChars(rest: string, n: nat)
    ensures
      G.SkipChars(rest, n) ==
        if n > 0 && |rest| <= 16 * ((n - 1) / 16) then G.Short
        else G.Skipped(if |rest| <= n then "" else rest[n..])
    decreases n
  {
    if n > 0 && rest != "" {
      var k := if n < 16 then n else 16;
      if |rest| <= k {
        assert rest[|rest|..] == "";
        SkippedChars("", n - k);
      } else {
        SkippedChars(rest[k..], n - k);
        if |rest| > n {
          assert rest[k..][n - k..] == rest[n..];
        }
      }
    }
  }

  /** "%c" with a width takes so many characters, white space too, or what there is of them; with '*' it reads them in
      pieces of 16 and fails if a piece starts behind the end.  A character that already waits is all it takes, and
      then it stores nothing. */
  lemma CharStep(star: bool, width: nat, fmt: string, s: G.Scan)
    ensures
      var n, rest := if width == 0 then 1 else width, s.src.rest;
      var counted := s.(ccnt := (s.ccnt + 1) % 256, acnt := if star then s.acnt else (s.acnt + 1) % 256);
      G.Step("%" + (Conversion(star, width, "", 'c') + fmt), s) ==
        if s.src.ready then G.Continue(fmt, counted.(src := G.Source(rest, false, s.src.ch)))
        else if (if star then |rest| <= 16 * ((n - 1) / 16) else rest == "") then
          G.Return(if s.ccnt != 0 then s.acnt else -1, s.out)
        else
          G.Continue(fmt, counted.(src := G.Source(if |rest| <= n then "" else rest[n..], false, s.src.ch),
            out := if star then s.out else s.out + [G.Chars(if |rest| <= n then rest else rest[..n])]))
  {
    hide G.Modifiers, Conversion, G.SkipChars;
    var t0 := Conversion(star, width, "", 'c');
    ConversionRead(star, width, "", 'c', fmt);
    NotPercent(star, width, "", 'c');
    var n, rest := if width == 0 then 1 else width, s.src.rest;
    assert ("%" + (t0 + fmt))[1..] == t0 + fmt && (t0 + fmt)[0] == t0[0] && (['c'] + fmt)[1..] == fmt;
    var m := G.Mods(width, star, false, 0);
    assert G.Step("%" + (t0 + fmt), s) == G.CharConversion(fmt, m, s);
    SkippedChars(rest, n);
    assert rest[..|rest|] == rest && rest[|rest|..] == "";
  }

  /** On its own. */
  lemma CharsRead(width: nat, t: string)
    ensures
      var n := if width == 0 then 1 else width;
      G.Sscanf(t, "%" + Conversion(false, width, "", 'c'))
        == if t == "" then (-1, []) else (1, [G.Chars(if |t| <= n then t else t[..n])])
  {
    hide G.Step, Conversion;
    var t0 := "%" + (Conversion(false, width, "", 'c') + "");
    CharStep(false, width, "", G.Begin(t));
    assert "%" + Conversion(false, width, "", 'c') == t0;
    var n := if width == 0 then 1 else width;
    assert [] + [G.Chars(if |t| <= n then t else t[..n])] == [G.Chars(if |t| <= n then t else t[..n])];
    if t != "" {
      RunStep(t0, G.Begin(t));
      RunNothing(G.Step(t0, G.Begin(t)).scan);
    }
  }

  /** Behind white space in the format, or behind a number, a character already waits; "%c" drops it, counts it and
      stores nothing. */
  lemma WaitingCharLost(v: Long, x: char)
    requires !G.IsSpace(x)
    ensures
      G.Sscanf(Decimal(v) + ([' '] + [x]), "%ld" + ([' '] + "%c")) == (2, [G.Number(4, Word(v))])
  {
    hide G.Step, Decimal, G.Run;
    var s := G.Begin(Decimal(v) + ([' '] + [x]));
    assert G.Available(s.src) && G.Fetch(s.src) == At(Decimal(v) + ([' '] + [x]));
    assert ([' '] + [x])[1..] == [x];
    ScanLong(true, v, [' '] + "%c", [' '] + [x], s);
    RunStep("%ld" + ([' '] + "%c"), s);
    var s1 := G.Scan(G.Source([x], true, ' '), 1, 1, [G.Number(4, Word(v))]);
    assert [] + [G.Number(4, Word(v))] == [G.Number(4, Word(v))];
    SpaceWaits(v, x, s1);
  }

  lemma SpaceWaits(v: Long, x: char, s: G.Scan)
    requires !G.IsSpace(x)
    requires s == G.Scan(G.Source([x], true, ' '), 1, 1, [G.Number(4, Word(v))])
    ensures G.Run([' '] + "%c", s) == (2, [G.Number(4, Word(v))])
  {
    var s1 := s.(src := G.Source("", true, x));
    assert ([' '] + "%c")[1..] == "%c" && [x][1..] == "";
    assert G.Step([' '] + "%c", s) == G.Continue("%c", s1);
    RunStep([' '] + "%c", s);
    assert "%c"[1..] == "c" && "c"[1..] == "" && G.Modifiers("c", G.NO_MODS) == (G.NO_MODS, "c");
    RunStep("%c", s1);
    RunNothing(G.Step("%c", s1).scan);
  }

  // ----- Literals and white space

  predicate White(c: char) {
    c as int in {9, 10, 11, 12, 13, 32}
  }

  lemma WhiteIs(c: char)
    ensures G.IsSpace(c) <==> White(c)
  {
  }

  /** Literal text in a format: a percent sign is written twice. */
  function Escaped(l: string): string {
    if l == "" then "" else (if l[0] == '%' then "%%" else [l[0]]) + Escaped(l[1..])
  }

  lemma EscapedStep(l: string, s: G.Scan)
    requires l != "" && !White(l[0]) && !s.src.ready
    ensures Escaped(l) != ""
    ensures
      G.Step(Escaped(l), s) ==
        if s.src.rest == "" then G.Return(if s.ccnt != 0 then s.acnt else -1, s.out)
        else if s.src.rest[0] != l[0] then G.Return(s.acnt, s.out)
        else G.Continue(Escaped(l[1..]), s.(src := G.Source(s.src.rest[1..], false, s.src.rest[0])))
  {
    WhiteIs(l[0]);
    var rest := Escaped(l[1..]);
    if l[0] == '%' {
      assert ("%%" + rest)[1..] == "%" + rest && ("%" + rest)[1..] == rest;
    } else {
      assert ([l[0]] + rest)[1..] == rest;
    }
  }

  /** Literal text matches its own characters.  A text that ends too early is reported as the end of the input unless
      there has been a conversion; a text that differs is not. */
  lemma {:induction false} LiteralsRun(l: string, s: G.Scan)
    requires (forall i :: 0 <= i < |l| ==> !White(l[i])) && !s.src.ready
    ensures
      G.Run(Escaped(l), s) ==
        (if s.src.rest < l then (if s.ccnt != 0 then s.acnt else -1) else s.acnt, s.out)
    decreases |l|
  {
    hide G.Step, White;
    if l != "" {
      EscapedStep(l, s);
      var t := s.src.rest;
      if t != "" && t[0] == l[0] {
        RunStep(Escaped(l), s);
        LiteralsRun(l[1..], G.Step(Escaped(l), s).scan);
        assert t == [t[0]] + t[1..] && l == [l[0]] + l[1..];
        assert t < l <==> t[1..] < l[1..];
      } else if t != "" {
        assert !(t < l);
        RunReturn(Escaped(l), s);
      } else {
        RunReturn(Escaped(l), s);
      }
    } else {
      RunNothing(s);
    }
  }

  lemma RunReturn(fmt: string, s: G.Scan)
    requires fmt != "" && G.Step(fmt, s).Return?
    ensures G.Run(fmt, s) == (G.Step(fmt, s).ret, G.Step(fmt, s).out)
  {
    hide G.Step;
  }

  lemma {:induction false} SpacesSkipped(w: string, rest: string, ready: bool, ch: char)
    requires (forall i :: 0 <= i < |w| ==> White(w[i])) && (rest != "" ==> !White(rest[0]))
    ensures
      G.SkipSpaces(G.Source(w + rest, ready, ch)) ==
        if rest != "" then G.Source(rest[1..], true, rest[0])
        else G.Source("", ready, if w != "" then w[|w| - 1] else ch)
    decreases |w|
  {
    if w == "" {
      assert w + rest == rest;
      if rest != "" {
        WhiteIs(rest[0]);
      }
    } else {
      WhiteIs(w[0]);
      assert White(w[0]) && (w + rest)[0] == w[0] && (w + rest)[1..] == w[1..] + rest;
      SpacesSkipped(w[1..], rest, ready, w[0]);
    }
  }

  /** White space in a format passes any white space in the text, or none; the character behind it waits, and a
      literal then takes just that one. */
  lemma SpaceStep(c: char, fmt: string, w: string, rest: string, s: G.Scan)
    requires White(c) && (forall i :: 0 <= i < |w| ==> White(w[i])) && (rest != "" ==> !White(rest[0]))
    requires s.src.rest == w + rest
    ensures
      G.Step([c] + fmt, s) == G.Continue(fmt, s.(src :=
        if rest != "" then G.Source(rest[1..], true, rest[0])
        else if w != "" then G.Source("", s.src.ready, w[|w| - 1]) else s.src))
  {
    WhiteIs(c);
    assert ([c] + fmt)[1..] == fmt;
    SpacesSkipped(w, rest, s.src.ready, s.src.ch);
    assert s.src == G.Source(w + rest, s.src.ready, s.src.ch);
  }

  lemma WaitingMatched(l: char, fmt: string, s: G.Scan)
    requires !White(l) && l != '%' && s.src.ready
    ensures
      G.Step([l] + fmt, s) ==
        if s.src.ch == l then G.Continue(fmt, s.(src := s.src.(ready := false))) else G.Return(s.acnt, s.out)
  {
    WhiteIs(l);
    assert ([l] + fmt)[1..] == fmt;
  }

  // ----- Words

  predicate Solid(t: string) {
    forall i :: 0 <= i < |t| ==> !White(t[i])
  }

  lemma SolidMore(t: string, k: nat)
    requires 0 < k <= |t| && !White(t[0]) && Solid(t[1..][..k - 1])
    ensures Solid(t[..k])
  {
    forall i | 0 <= i < k ensures !White(t[..k][i]) {
      if i > 0 {
        assert t[i] == t[1..][..k - 1][i - 1];
      }
    }
  }

  /** The source behind a word of `k` characters: white space that ends it is used up. */
  function WordSource(t: string, k: nat, width: nat): G.Source
    requires t != "" && k <= |t| && k <= width && width > 0
  {
    if k == |t| then G.Source("", false, t[k - 1])
    else if k == width then G.Source(t[k..], false, t[k - 1])
    else G.Source(t[k + 1..], false, t[k])
  }

  lemma WordSourceAgain(t: string, k: nat, width: nat)
    requires |t| > 1 && width > 1 && 0 < k <= |t| && k <= width
    ensures WordSource(t[1..], k - 1, width - 1) == WordSource(t, k, width)
    ensures [t[0]] + t[1..][..k - 1] == t[..k] && (k < |t| ==> t[1..][k - 1] == t[k])
  {
  }

  lemma WordStep(t: string, width: nat)
    requires t != "" && width > 0
    ensures White(t[0]) ==> G.Word(At(t), width) == ("", At(t))
    ensures !White(t[0]) && (width == 1 || |t| == 1) ==> G.Word(At(t), width) == ([t[0]], At(t))
    ensures !White(t[0]) && width > 1 && |t| > 1 ==>
      var w := G.Word(At(t[1..]), width - 1);
      G.Word(At(t), width) == ([t[0]] + w.0, w.1)
  {
    WhiteIs(t[0]);
    if |t| > 1 {
      assert G.Next(At(t)) == At(t[1..]);
    }
  }

  /** The word a text starts with: up to the next white space, the width or the end. */
  lemma {:induction false} WordExact(t: string, width: nat) returns (k: nat)
    requires t != "" && width > 0
    ensures k <= |t| && k <= width && Solid(t[..k]) && (k < |t| && k < width ==> White(t[k]))
    ensures G.Word(At(t), width) == (t[..k], WordSource(t, k, width))
    decreases |t|
  {
    hide White, G.Word;
    WordStep(t, width);
    if White(t[0]) {
      k := 0;
    } else if width == 1 || |t| == 1 {
      k := 1;
      assert t[..1] == [t[0]] && t[1..] == At(t).rest && t[1..][..0] == "";
      SolidMore(t, 1);
    } else {
      var n := WordExact(t[1..], width - 1);
      k := n + 1;
      SolidMore(t, k);
      WordSourceAgain(t, k, width);
    }
  }

  /** "%s" with a width, suppressed or not. */
  lemma WordRead(star: bool, width: nat, t: string) returns (k: nat)
    requires t != "" && !White(t[0])
    ensures
      var most := if width == 0 then 0xFFFF else width;
      && 0 < k <= |t| && k <= most && Solid(t[..k])
      && (k < |t| && k < most ==> White(t[k]))
      && G.Sscanf(t, "%" + Conversion(star, width, "", 's')) == if star then (0, []) else (1, [G.Chars(t[..k])])
  {
    hide G.Modifiers, Conversion, G.Word, WordSource, Solid;
    k := WordExact(t, if width == 0 then 0xFFFF else width);
    WhiteIs(t[0]);
    var t0 := Conversion(star, width, "", 's');
    var s := G.Begin(t);
    ConversionRead(star, width, "", 's', "");
    NotPercent(star, width, "", 's');
    assert t0 + "" == t0 && ['s'] + "" == "s" && ("%" + t0)[1..] == t0 && "s"[1..] == "" && ("%" + t0)[0] == '%';
    var m := G.Mods(width, star, false, 0);
    assert G.Fetch(s.src) == At(t) && G.SkipToText(At(t)) == G.Found(At(t));
    assert G.Step("%" + t0, s) == G.StringConversion("", m, s.(src := At(t)));
    RunStep("%" + t0, s);
    RunNothing(G.Step("%" + t0, s).scan);
    assert [] + [G.Chars(t[..k])] == [G.Chars(t[..k])];
  }

  /** Modifiers without a conversion end the scan. */
  lemma NoConversion(star: bool, length: string, t: string)
    requires Length(length)
    ensures G.Sscanf(t, "%" + ((if star then "*" else "") + length)) == (-1, [])
  {
    hide G.Modifiers;
    var first := if star then "*" else "";
    var m := G.NO_MODS.(suppress := star);
    LengthRead(length, "", m);
    assert length + "" == length;
    Nowhere(m.(long := length == "l", hcnt := if length == "h" then 1 else if length == "hh" then 2 else 0));
    if star {
      OtherModifier('*', length, G.NO_MODS);
      assert ['*'] + length == first + length;
    } else {
      assert first + length == length;
    }
    var fmt := first + length;
    assert ("%" + fmt)[1..] == fmt && ("%" + fmt)[0] == '%';
    assert fmt != "" ==> fmt[0] != '%';
    RunReturn("%" + fmt, G.Begin(t));
  }

  lemma Nowhere(m: G.Mods)
    ensures G.Modifiers("", m) == (m, "")
  {
  }
}

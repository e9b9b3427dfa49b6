/** A number printed with any flags, width and precision, and read back with "%ld" (crt/putf.c, crt/getf.c). */
module FieldTrip {
  import opened Numeral
  import opened RoundTrip
  import opened Directives
  import P = Putf
  import G = Getf

  /** What the modifiers of a format can be. */
  predicate Possible(m: P.Mods) {
    m.width >= 0 && m.prec >= -1 && m.sign in ["", " ", "+"]
  }

  function Absolute(v: Long): P.Bits {
    if v < 0 then 0 - v else v
  }

  function Body(m: P.Mods, v: Long): string {
    P.DecimalBody(Absolute(v), m.prec)
  }

  function Printed(m: P.Mods, v: Long): string {
    P.Emit(P.SignedField(m, Word(v)))
  }

  // ----- The parts of the text

  predicate Blank(t: string) {
    forall i :: 0 <= i < |t| ==> t[i] == ' '
  }

  function Sign(m: P.Mods, v: Long): string {
    if v < 0 then "-" else m.sign
  }

  /** How many zeros there are in front of the digits. */
  function ZeroCount(m: P.Mods, v: Long): int {
    var d := |Body(m, v)|;
    P.Max(m.prec - d, 0) + if m.zeropad && m.prec < 0 && !m.ladjust then P.Max(m.width - d - |Sign(m, v)|, 0) else 0
  }

  /** Zeros and digits. */
  function Numeric(m: P.Mods, v: Long): string {
    P.Pad('0', ZeroCount(m, v)) + Body(m, v)
  }

  lemma EmitParts(f: P.Field) returns (lead: string, zeros: string, trail: string)
    ensures Blank(lead) && Blank(trail)
    ensures var gap := if f.mods.zeropad && !f.mods.ladjust then P.Max(f.mods.width - P.Realsz(f), 0) else 0;
      zeros == P.Pad('0', P.Max(f.dprec - |f.body|, 0) + gap)
    ensures P.Emit(f) == lead + f.mods.sign + zeros + f.body + trail
  {
    hide P.Pad, P.Realsz, P.Max;
    var gap, more := f.mods.width - P.Realsz(f), f.dprec - |f.body|;
    lead := if !f.mods.ladjust && !f.mods.zeropad then P.Pad(' ', gap) else "";
    trail := if f.mods.ladjust then P.Pad(' ', gap) else "";
    PadPositive(gap);
    PadPositive(more);
    zeros := P.Pad('0', P.Max(more, 0));
    if f.mods.zeropad && !f.mods.ladjust {
      P.PadParts('0', P.Max(gap, 0), P.Max(more, 0));
      zeros := P.Pad('0', P.Max(more, 0) + P.Max(gap, 0));
    }
  }

  /** Blanks, a sign, zeros and digits, blanks. */
  lemma PrintedParts(m: P.Mods, v: Long) returns (lead: string, trail: string)
    requires Possible(m)
    ensures Blank(lead) && Blank(trail)
    ensures Printed(m, v) == lead + (if Sign(m, v) == " " then "" else Sign(m, v)) + Numeric(m, v) + trail
  {
    hide P.DecimalBody, P.Pad, P.Emit;
    var f := P.SignedField(m, Word(v));
    assert f.body == Body(m, v) && f.mods.sign == Sign(m, v) && f.dprec == m.prec;
    var zeros;
    lead, zeros, trail := EmitParts(f);
    assert zeros == P.Pad('0', ZeroCount(m, v));
    SignApart(lead, f.mods.sign, zeros, f.body, trail);
    if Sign(m, v) == " " {
      lead := lead + " ";
    }
  }

  lemma SignApart(lead: string, sign: string, zeros: string, body: string, trail: string)
    ensures lead + sign + zeros + body + trail == lead + sign + (zeros + body) + trail
    ensures sign == " " ==> lead + sign + zeros + body + trail == lead + " " + "" + (zeros + body) + trail
  {
  }

  lemma PadPositive(n: int)
    ensures P.Max(n, 0) >= 0 && P.Pad('0', n) == P.Pad('0', P.Max(n, 0)) && P.Pad('0', 0) == ""
    ensures P.Max(P.Max(n, 0), 0) == P.Max(n, 0)
  {
  }

  // ----- Reading

  lemma {:induction false} SkipBlanks(lead: string, t: string)
    requires Blank(lead) && t != "" && !G.IsSpace(t[0])
    ensures G.SkipToText(At(lead + t)) == G.Found(At(t))
    decreases |lead|
  {
    if lead == "" {
      assert lead + t == t;
    } else {
      assert (lead + t)[0] == ' ' && (lead + t)[1..] == lead[1..] + t;
      assert G.Next(At(lead + t)) == At(lead[1..] + t);
      SkipBlanks(lead[1..], t);
    }
  }

  lemma {:induction false} OnlyBlanks(t: string)
    requires Blank(t) && t != ""
    ensures G.SkipToText(At(t)) == G.Nothing
    decreases |t|
  {
    if |t| > 1 {
      assert t[0] == ' ' && G.Next(At(t)) == At(t[1..]);
      OnlyBlanks(t[1..]);
    }
  }

  /** One digit is taken. */
  lemma ScanOneDigit(t: string, width: nat, f: G.Flags, acc: string) returns (f1: G.Flags)
    requires t != "" && DigitValue(t[0]) < 10 && width > 0 && !f.pfxOk
    ensures !f1.noDigits && !f1.pfxOk
    ensures
      G.ScanInteger(At(t), width, 10, f, acc) ==
        if width == 1 || |t| == 1 then G.Integer(acc + [t[0]], At(t), 10, f1)
        else G.ScanInteger(At(t[1..]), width - 1, 10, f1, acc + [t[0]])
  {
    hide G.Judge;
    Judged(t[0], 10, f);
    f1 := G.Judge(t[0], 10, f).flags;
    if |t| > 1 {
      assert G.Next(At(t)) == At(t[1..]);
    }
  }

  /** At most `width` digits are taken. */
  lemma {:induction false} ScanSome(t: string, tail: string, width: nat, f: G.Flags, acc: string)
    requires t != "" && Digits(t, 10) && width > 0 && !f.pfxOk && (tail == "" || !IntegerChar(tail[0]))
    ensures var r := G.ScanInteger(At(t + tail), width, 10, f, acc);
      r.text == acc + t[..G.Min(|t|, width)] && r.base == 10 && !r.flags.noDigits
    decreases |t|
  {
    hide G.ScanInteger, IntegerChar;
    assert DigitValue(t[0]) < 10;
    var f1 := ScanOneDigit(t + tail, width, f, acc);
    assert (t + tail)[1..] == t[1..] + tail && (t + tail)[0] == t[0];
    if width == 1 {
      assert t[..1] == [t[0]];
    } else if |t| > 1 {
      ScanSome(t[1..], tail, width - 1, f1, acc + [t[0]]);
      assert acc + [t[0]] + t[1..][..G.Min(|t| - 1, width - 1)] == acc + t[..G.Min(|t|, width)];
    } else {
      assert t == [t[0]] && t[..1] == t && t[1..] + tail == tail;
      if tail != "" {
        ScanStops(tail, width - 1, f1, acc + [t[0]]);
      }
    }
  }

  /** The text of the number "%ld" takes from a sign, digits and blanks. */
  lemma ScanSigned(sign: string, t: string, tail: string) returns (n: G.Integer)
    requires sign in ["", "-", "+"] && t != "" && Digits(t, 10) && Blank(tail)
    ensures n == G.ScanInteger(At(sign + t + tail), 15, 10, G.Start('d'), "")
    ensures n.text == sign + t[..G.Min(|t|, 15 - |sign|)] && n.base == 10 && !n.flags.noDigits
  {
    hide Digits, G.ScanInteger;
    n := G.ScanInteger(At(sign + t + tail), 15, 10, G.Start('d'), "");
    assert tail != "" ==> !IntegerChar(tail[0]);
    if sign == "" {
      assert sign + t + tail == t + tail;
      ScanSome(t, tail, 15, G.Start('d'), "");
    } else {
      var f := ScanOneSign(sign[0], t + tail);
      assert sign + t + tail == [sign[0]] + (t + tail);
      ScanSome(t, tail, 14, f, sign);
    }
  }

  lemma ScanOneSign(c: char, t: string) returns (f: G.Flags)
    requires t != "" && c in "+-"
    ensures !f.pfxOk && G.ScanInteger(At([c] + t), 15, 10, G.Start('d'), "") == G.ScanInteger(At(t), 14, 10, f, [c])
  {
    assert ([c] + t)[1..] == t;
    f := G.Start('d').(signOk := false);
    assert G.Next(At([c] + t)) == At(t) && "" + [c] == [c];
  }

  // ----- The value read

  lemma {:induction false} ValueAfterZeros(n: int, t: string)
    ensures Value(P.Pad('0', n) + t, 10) == Value(t, 10)
    decreases n
  {
    if n > 0 {
      ValueAfterZeros(n - 1, t);
      ValueAfterZero(P.Pad('0', n - 1) + t, 10);
      assert P.Pad('0', n) + t == "0" + (P.Pad('0', n - 1) + t);
    } else {
      assert P.Pad('0', n) + t == t;
    }
  }

  /** A number without its last digits is smaller by at least a factor of 10. */
  lemma {:induction false} ValuePrefix(t: string, k: nat)
    requires k < |t|
    ensures 10 * Value(t[..k], 10) <= Value(t, 10)
    decreases |t|
  {
    var s := t[..|t| - 1];
    if k < |s| {
      ValuePrefix(s, k);
      assert s[..k] == t[..k];
    } else {
      assert t[..k] == s;
    }
  }

  lemma StrtolSigned(sign: string, t: string)
    requires sign in ["", "-", "+"] && t != "" && Digits(t, 10)
    ensures
      var n := Value(t, 10);
      Strtol(sign + t, 10) ==
        if sign == "-" then
          if n > LONG_MAX then -LONG_MAX - 1 else 0 - n
        else
          if n > LONG_MAX then LONG_MAX else n
  {
    hide Value, Unsigned;
    UnsignedDigits(t);
    assert DigitValue(t[0]) < 10;
    if sign == "" {
      assert sign + t == t;
    } else {
      assert (sign + t)[1..] == t && (sign + t)[0] == sign[0];
    }
  }

  lemma UnsignedDigits(t: string)
    requires Digits(t, 10)
    ensures Unsigned(t, 10) == Value(t, 10)
  {
    hide Value, DigitPrefix;
    AllDigits(t, 10);
  }

  // ----- The round trip

  /** Scanning "%ld" from the start of a text. */
  function ScanOutcome(t: string): (int, seq<G.Stored>) {
    if t == "" then (G.EOF, [])
    else
      match G.SkipToText(At(t))
      case Nothing => (G.EOF, [])
      case Found(src) =>
        var n := G.ScanInteger(src, 15, 10, G.Start('d'), "");
        if n.flags.noDigits || !Base(n.base) then (0, []) else (1, [G.Number(4, G.LowBits(Strtol(n.text, n.base), 4))])
  }

  lemma ScanText(t: string)
    ensures G.Sscanf(t, "%ld") == ScanOutcome(t)
  {
    hide G.ScanInteger, G.SkipToText, Strtol;
    var m := G.Mods(0, false, true, 0);
    var s := G.Begin(t);
    assert "%ld"[1..] == "ld" && "ld"[1..] == "d" && "d"[1..] == "";
    assert G.Modifiers("ld", G.NO_MODS) == (m, "d");
    if t != "" {
      assert G.Fetch(s.src) == At(t);
      var found := G.SkipToText(At(t));
      if found.Found? {
        G.ScanBase(found.src, 15, 10, G.Start('d'), "");
        assert G.Step("%ld", s) == G.IntConversion("", 'd', m, s.(src := found.src));
        if G.Step("%ld", s).Continue? {
          RunStep("%ld", s);
          RunNothing(G.Step("%ld", s).scan);
          var n := G.ScanInteger(found.src, 15, 10, G.Start('d'), "");
          var stored := G.Number(4, G.LowBits(Strtol(n.text, n.base), 4));
          assert [] + [stored] == [stored] && G.Step("%ld", s).fmt == "";
        }
      }
    }
  }

  /** A sign that is read, not skipped. */
  function Mark(m: P.Mods, v: Long): string {
    if Sign(m, v) == " " then "" else Sign(m, v)
  }

  lemma NumericValue(m: P.Mods, v: Long)
    requires Possible(m) && (v != 0 || m.prec != 0)
    ensures
      var t := Numeric(m, v);
      t != "" && Digits(t, 10) && Value(t, 10) == Absolute(v) && |t| == ZeroCount(m, v) + |Body(m, v)|
  {
    hide P.Pad, NumText, Value;
    NumTextValue(Absolute(v), 10, false);
    ValueAfterZeros(ZeroCount(m, v), Body(m, v));
  }

  /** No digits are printed for 0 with precision 0, and none are read. */
  lemma NothingRead(lead: string, mark: string, trail: string)
    requires Blank(lead) && Blank(trail) && mark in ["", "+"]
    ensures ScanOutcome(lead + mark + "" + trail).1 == []
  {
    var t := lead + mark + "" + trail;
    if mark == "" {
      assert Blank(t);
      if t != "" {
        OnlyBlanks(t);
      }
    } else {
      assert t == lead + ("+" + trail) && ("+" + trail)[0] == '+' && ("+" + trail)[1..] == trail;
      SkipBlanks(lead, "+" + trail);
      SignAlone(trail);
    }
  }

  lemma SignAlone(trail: string)
    requires Blank(trail)
    ensures G.ScanInteger(At("+" + trail), 15, 10, G.Start('d'), "").flags.noDigits
  {
    assert ("+" + trail)[1..] == trail;
    if trail != "" {
      assert trail[0] == ' ' && G.Next(At("+" + trail)) == At(trail);
      ScanStops(trail, 14, G.Start('d').(signOk := false), "+");
    }
  }

  /** The number read back from a field of blanks, sign, digits and blanks. */
  lemma SomethingRead(lead: string, mark: string, t: string, trail: string)
    requires Blank(lead) && Blank(trail) && mark in ["", "-", "+"] && t != "" && Digits(t, 10)
    ensures ScanOutcome(lead + mark + t + trail)
         == (1, [G.Number(4, G.LowBits(Strtol(mark + t[..G.Min(|t|, 15 - |mark|)], 10), 4))])
  {
    hide Digits, G.ScanInteger, G.SkipToText, Strtol, Blank;
    var x := mark + t + trail;
    assert lead + mark + t + trail == lead + x && lead + x != "";
    NotBlank(mark, t, trail);
    SkipBlanks(lead, x);
    var n := ScanSigned(mark, t, trail);
  }

  lemma NotBlank(mark: string, t: string, trail: string)
    requires mark in ["", "-", "+"] && t != "" && Digits(t, 10)
    ensures !G.IsSpace((mark + t + trail)[0])
  {
    assert DigitValue(t[0]) < 10;
    assert mark == "" ==> (mark + t + trail)[0] == t[0];
  }

  /** The digits cut at the width of the scanner. */
  lemma CutValue(v: Long, mark: string, t: string, k: nat)
    requires mark in ["", "-", "+"] && (mark == "-" <==> v < 0) && t != "" && Digits(t, 10)
    requires Value(t, 10) == Absolute(v) && 0 < k <= |t|
    ensures Strtol(mark + t[..k], 10) == v <==> k == |t| || v == 0
  {
    hide Value, Strtol;
    StrtolSigned(mark, t[..k]);
    if k < |t| {
      ValuePrefix(t, k);
    } else {
      assert t[..k] == t;
    }
  }

  lemma FieldRead(m: P.Mods, v: Long)
    requires Possible(m)
    ensures ScanOutcome(Printed(m, v)) == (1, [G.Number(4, Word(v))])
       <==> if v == 0 then m.prec != 0 else |Mark(m, v)| + ZeroCount(m, v) + |Body(m, v)| <= 15
  {
    hide P.Emit, Strtol, ScanOutcome, Value, P.Pad, NumText;
    var lead, trail := PrintedParts(m, v);
    var t, mark := Numeric(m, v), Mark(m, v);
    if v == 0 && m.prec == 0 {
      assert t == "" by { PadPositive(0); }
      NothingRead(lead, mark, trail);
    } else {
      NumericValue(m, v);
      SomethingRead(lead, mark, t, trail);
      var k := G.Min(|t|, 15 - |mark|);
      CutValue(v, mark, t, k);
      var w: Long := Strtol(mark + t[..k], 10);
      assert Word(w) == Word(v) <==> w == v;
    }
  }

  // ----- Any format of one number

  lemma MeaningPossible(flags: string, w: Count, p: Count, x: P.Bits, y: P.Bits)
    ensures Possible(Meaning(flags, w, p, x, y))
  {
    hide Value;
  }

  /** A number printed by one %d with any flags, width and precision, from the format or the arguments, is read
      back by "%ld" if and only if it is printed at all and, unless it is 0, its sign, zeros and digits are at most
      15 characters. */
  lemma FieldRoundTrip(flags: string, w: Count, p: Count, length: string, x: P.Bits, y: P.Bits, v: Long)
    requires FlagChars(flags) && WidthOk(w) && PrecOk(p) && LengthChars(length)
    ensures
      var m := Meaning(flags, w, p, x, y);
      var t := P.Format("%" + Directive(flags, w, p, length, 'd'), StarArgs(w, p, x, y) + [P.Num(Word(v))]);
      G.Sscanf(t, "%ld") == (1, [G.Number(4, Word(v))])
      <==> if v == 0 then m.prec != 0 else |Mark(m, v)| + ZeroCount(m, v) + |Body(m, v)| <= 15
  {
    hide P.Emit, P.Format, G.Sscanf, ScanOutcome, ZeroCount, Body, Mark, Meaning, Possible;
    var m := Meaning(flags, w, p, x, y);
    MeaningPossible(flags, w, p, x, y);
    OneDirective(flags, w, p, length, 'd', x, y, P.Num(Word(v)));
    ScanText(Printed(m, v));
    FieldRead(m, v);
  }

  // ----- Words

  predicate NoSpace(t: string) {
    forall i :: 0 <= i < |t| ==> !G.IsSpace(t[i])
  }

  lemma {:induction false} WordTaken(src: G.Source, width: nat)
    requires width > 0
    ensures var w := G.Word(src, width).0; |w| <= width && NoSpace(w) && (!G.IsSpace(src.ch) ==> w != "")
    decreases |src.rest|
  {
    if !G.IsSpace(src.ch) && width > 1 && src.rest != "" {
      WordTaken(G.Next(src), width - 1);
    }
  }

  lemma {:induction false} WordWhole(t: string, width: nat)
    requires t != "" && NoSpace(t) && |t| <= width
    ensures G.Word(At(t), width).0 == t
    decreases |t|
  {
    assert !G.IsSpace(t[0]) && t == [t[0]] + t[1..];
    if |t| > 1 {
      assert G.Next(At(t)) == At(t[1..]);
      assert NoSpace(t[1..]);
      WordWhole(t[1..], width - 1);
    }
  }

  /** "%s" reads back what "%s" has printed if and only if it is a word: not empty, without white space and
      no longer than the scanner's limit. */
  lemma WordRoundTrip(t: string)
    ensures G.Sscanf(P.Format("%s", [P.Str(t)]), "%s") == (1, [G.Chars(t)]) <==> t != "" && NoSpace(t) && |t| <= 0xFFFF
  {
    hide G.SkipToText, G.Word, NoSpace, P.Format;
    FormatWord(t);
    assert "%s"[1..] == "s" && "s"[1..] == "" && G.Modifiers("s", G.NO_MODS) == (G.NO_MODS, "s");
    var s := G.Begin(t);
    if t != "" {
      assert G.Fetch(s.src) == At(t);
      var found := G.SkipToText(At(t));
      if found.Found? {
        NotAtSpace(At(t));
        var w := G.Word(found.src, 0xFFFF);
        WordTaken(found.src, 0xFFFF);
        RunStep("%s", s);
        RunNothing(G.Step("%s", s).scan);
        assert [] + [G.Chars(w.0)] == [G.Chars(w.0)] && G.Step("%s", s).fmt == "";
      }
      if NoSpace(t) && |t| <= 0xFFFF {
        AtWord(t);
        WordWhole(t, 0xFFFF);
      }
    }
  }

  lemma FormatWord(t: string)
    ensures P.Format("%s", [P.Str(t)]) == t
  {
    hide P.Pad;
    assert "%s"[1..] == "s" && "s"[1..] == ""
      && P.Modifiers("s", [P.Str(t)], P.NO_MODS) == (P.NO_MODS, "s", [P.Str(t)]);
    FormatNothing([]);
    assert P.Rest([P.Str(t)]) == [];
    PadNothing();
    var f := P.Field(P.NO_MODS, 0, t);
    assert P.Convert('s', P.NO_MODS, [P.Str(t)]) == (f, []);
    assert P.Emit(f) == t && t + "" == t;
  }

  lemma PadNothing()
    ensures forall n, c :: n <= 0 ==> P.Pad(c, n) == ""
  {
  }

  lemma AtWord(t: string)
    requires t != "" && NoSpace(t)
    ensures G.SkipToText(At(t)) == G.Found(At(t))
  {
  }

  lemma {:induction false} NotAtSpace(src: G.Source)
    requires G.SkipToText(src).Found?
    ensures !G.IsSpace(G.SkipToText(src).src.ch)
    decreases |src.rest|
  {
    if G.IsSpace(src.ch) {
      NotAtSpace(G.Next(src));
    }
  }
}

/** What the modifiers of an output format mean (crt/putf.c, vsprintf): flags, width, precision and length. */
module Directives {
  import opened Numeral
  import P = Putf

  predicate FlagChars(t: string) {
    forall i :: 0 <= i < |t| ==> t[i] in " +-#0"
  }

  predicate LengthChars(t: string) {
    forall i :: 0 <= i < |t| ==> t[i] in "lz"
  }

  /** A width or precision: not there, in digits, or taken from the arguments. */
  datatype Count = Absent | Written(text: string) | Star

  predicate WidthOk(w: Count) {
    w.Written? ==> w.text != "" && Digits(w.text, 10) && w.text[0] != '0'
  }

  predicate PrecOk(p: Count) {
    p.Written? ==> Digits(p.text, 10)
  }

  function WidthText(w: Count): string {
    match w
    case Absent => ""
    case Written(t) => t
    case Star => "*"
  }

  function PrecText(p: Count): string {
    match p
    case Absent => ""
    case Written(t) => "." + t
    case Star => ".*"
  }

  /** A conversion character ends the modifiers. */
  predicate Conversion(c: char) {
    !('0' <= c <= '9') && c !in " +-#lz*."
  }

  /** The text between the percent sign and what follows the conversion. */
  function Directive(flags: string, w: Count, p: Count, length: string, c: char): string {
    flags + (WidthText(w) + (PrecText(p) + (length + [c])))
  }

  /** The arguments for stars, the width in front of the precision. */
  function StarArgs(w: Count, p: Count, x: P.Bits, y: P.Bits): seq<P.Arg> {
    (if w.Star? then [P.Num(x)] else []) + (if p.Star? then [P.Num(y)] else [])
  }

  /** The modifiers: a flag holds if its character occurs, '+' beats ' ', and a negative width from the arguments is
      a width with '-', a negative precision from there is none. */
  function Meaning(flags: string, w: Count, p: Count, x: P.Bits, y: P.Bits): P.Mods {
    P.Mods(
      '#' in flags,
      '-' in flags || (w.Star? && x > 0x7FFF_FFFF),
      '0' in flags,
      if '+' in flags then "+" else if ' ' in flags then " " else "",
      match w case Absent => 0 case Written(t) => Value(t, 10) case Star =>
        (if x > 0x7FFF_FFFF then 0x1_0000_0000 - x else x),
      match p case Absent => -1 case Written(t) => Value(t, 10) case Star => (if y > 0x7FFF_FFFF then -1 else y))
  }

  function WithFlag(c: char, m: P.Mods): P.Mods {
    match c
    case ' ' => if m.sign == "" then m.(sign := " ") else m
    case '+' => m.(sign := "+")
    case '-' => m.(ladjust := true)
    case '#' => m.(alt := true)
    case _ => m.(zeropad := true)
  }

  lemma FlagRead(c: char, tail: string, args: seq<P.Arg>, m: P.Mods)
    requires c in " +-#0"
    ensures P.Modifiers([c] + tail, args, m) == P.Modifiers(tail, args, WithFlag(c, m))
  {
    assert ([c] + tail)[1..] == tail && ([c] + tail)[0] == c;
  }

  function WithFlags(flags: string, m: P.Mods): P.Mods {
    if flags == "" then m else WithFlags(flags[1..], WithFlag(flags[0], m))
  }

  lemma Occurs(t: string, c: char)
    requires t != ""
    ensures c in t <==> c == t[0] || c in t[1..]
  {
    assert t == [t[0]] + t[1..];
  }

  /** What the flags come to: one that occurs holds, and '+' beats ' '. */
  predicate Flagged(flags: string, m: P.Mods, r: P.Mods) {
    && r.alt == (m.alt || '#' in flags) && r.ladjust == (m.ladjust || '-' in flags)
    && r.zeropad == (m.zeropad || '0' in flags)
    && r.sign == (if '+' in flags then "+" else if m.sign == "" && ' ' in flags then " " else m.sign)
    && r.width == m.width && r.prec == m.prec
  }

  lemma {:induction false} FlagsMean(flags: string, m: P.Mods)
    requires FlagChars(flags)
    ensures Flagged(flags, m, WithFlags(flags, m))
    decreases |flags|
  {
    if flags != "" {
      FlagsMean(flags[1..], WithFlag(flags[0], m));
      FirstFlag(flags, m, WithFlags(flags, m));
    }
  }

  lemma FirstFlag(flags: string, m: P.Mods, r: P.Mods)
    requires FlagChars(flags) && flags != "" && Flagged(flags[1..], WithFlag(flags[0], m), r)
    ensures Flagged(flags, m, r)
  {
    assert flags[0] in " +-#0";
    Occurs(flags, '#');
    Occurs(flags, '-');
    Occurs(flags, '0');
    Occurs(flags, '+');
    Occurs(flags, ' ');
  }

  lemma {:induction false} FlagsRead(flags: string, tail: string, args: seq<P.Arg>, m: P.Mods)
    requires FlagChars(flags)
    ensures P.Modifiers(flags + tail, args, m) == P.Modifiers(tail, args, WithFlags(flags, m))
    decreases |flags|
  {
    hide P.Modifiers, WithFlag;
    if flags == "" {
      assert flags + tail == tail;
    } else {
      var c, rest := flags[0], flags[1..];
      assert flags + tail == [c] + (rest + tail);
      FlagRead(c, rest + tail, args, m);
      FlagsRead(rest, tail, args, WithFlag(c, m));
    }
  }

  lemma {:induction false} LengthRead(length: string, tail: string, args: seq<P.Arg>, m: P.Mods)
    requires LengthChars(length)
    ensures P.Modifiers(length + tail, args, m) == P.Modifiers(tail, args, m)
    decreases |length|
  {
    if length == "" {
      assert length + tail == tail;
    } else {
      assert (length + tail)[1..] == length[1..] + tail && (length + tail)[0] == length[0];
      LengthRead(length[1..], tail, args, m);
    }
  }

  predicate NoDigitNext(tail: string) {
    tail != "" ==> !('0' <= tail[0] <= '9')
  }

  /** Digits behind `pre` in the format. */
  lemma {:induction false} NumberRead(pre: string, t: string, tail: string)
    requires Digits(t, 10) && NoDigitNext(tail)
    ensures P.FormatNumber(t + tail, Value(pre, 10)) == (Value(pre + t, 10), tail)
    decreases |t|
  {
    if t == "" {
      assert t + tail == tail && pre + t == pre;
    } else {
      assert DigitValue(t[0]) < 10;
      assert (t + tail)[1..] == t[1..] + tail && (t + tail)[0] == t[0];
      assert pre + [t[0]] + t[1..] == pre + t;
      assert (pre + [t[0]])[..|pre|] == pre;
      NumberRead(pre + [t[0]], t[1..], tail);
    }
  }

  lemma DigitRead(c: char, tail: string, args: seq<P.Arg>, m: P.Mods)
    requires '1' <= c <= '9'
    ensures
      var n := P.FormatNumber(tail, c as int - '0' as int);
      P.Modifiers([c] + tail, args, m) == P.Modifiers(n.1, args, m.(width := n.0))
  {
    hide P.FormatNumber;
    assert ([c] + tail)[1..] == tail && ([c] + tail)[0] == c;
  }

  lemma StarRead(x: P.Bits, tail: string, args: seq<P.Arg>, m: P.Mods)
    ensures
      P.Modifiers("*" + tail, [P.Num(x)] + args, m)
        == P.Modifiers(tail, args, m.(
          ladjust := m.ladjust || x > 0x7FFF_FFFF, width := if x > 0x7FFF_FFFF then 0x1_0000_0000 - x else x))
  {
    assert ("*" + tail)[1..] == tail && ("*" + tail)[0] == '*';
    assert ([P.Num(x)] + args)[1..] == args;
  }

  lemma WidthRead(w: Count, x: P.Bits, tail: string, args: seq<P.Arg>, m: P.Mods)
    requires WidthOk(w) && NoDigitNext(tail) && m.width == 0
    ensures
      P.Modifiers(WidthText(w) + tail, (if w.Star? then [P.Num(x)] else []) + args, m)
        == P.Modifiers(tail, args, m.(
          ladjust := m.ladjust || (w.Star? && x > 0x7FFF_FFFF),
          width := match w case Absent => 0 case Written(t) => Value(t, 10) case Star =>
            (if x > 0x7FFF_FFFF then 0x1_0000_0000 - x else x)))
  {
    hide P.Modifiers, P.FormatNumber, Value;
    match w
    case Absent =>
      assert "" + tail == tail && [] + args == args;
    case Written(t) =>
      assert DigitValue(t[0]) < 10;
      assert t + tail == [t[0]] + (t[1..] + tail) && [] + args == args;
      DigitRead(t[0], t[1..] + tail, args, m);
      OneDigit(t[0]);
      NumberRead([t[0]], t[1..], tail);
      assert [t[0]] + t[1..] == t;
    case Star =>
      StarRead(x, tail, args, m);
  }

  lemma OneDigit(c: char)
    requires '0' <= c <= '9'
    ensures Value([c], 10) == c as int - '0' as int
  {
    assert [c][..0] == "" && Value("", 10) == 0;
  }

  lemma DotRead(tail: string, args: seq<P.Arg>, m: P.Mods)
    ensures
      var p := P.Precision(tail, args);
      P.Modifiers("." + tail, args, m) == P.Modifiers(p.1, p.2, m.(prec := p.0))
  {
    hide P.Precision;
    assert ("." + tail)[1..] == tail && ("." + tail)[0] == '.';
  }

  lemma PrecRead(p: Count, y: P.Bits, tail: string, args: seq<P.Arg>, m: P.Mods)
    requires PrecOk(p) && NoDigitNext(tail) && m.prec == -1 && (tail != "" ==> tail[0] != '*')
    ensures
      P.Modifiers(PrecText(p) + tail, (if p.Star? then [P.Num(y)] else []) + args, m)
        == P.Modifiers(tail, args, m.(
          prec := match p case Absent => -1 case Written(t) => Value(t, 10) case Star =>
            (if y > 0x7FFF_FFFF then -1 else y)))
  {
    hide P.Modifiers, P.FormatNumber, Value;
    match p
    case Absent =>
      assert "" + tail == tail && [] + args == args;
    case Written(t) =>
      DotRead(t + tail, args, m);
      assert "." + t + tail == "." + (t + tail) && [] + args == args;
      NumberRead("", t, tail);
      ValueOfNothing();
      assert "" + t == t;
      DigitsFirst(t, tail);
    case Star =>
      DotRead("*" + tail, [P.Num(y)] + args, m);
      assert ".*" + tail == "." + ("*" + tail) && ("*" + tail)[1..] == tail;
      assert ([P.Num(y)] + args)[1..] == args;
  }

  lemma ValueOfNothing()
    ensures Value("", 10) == 0
  {
  }

  lemma DigitsFirst(t: string, tail: string)
    requires Digits(t, 10) && (tail != "" ==> tail[0] != '*')
    ensures t + tail != "" ==> (t + tail)[0] != '*'
  {
    if t != "" {
      assert (t + tail)[0] == t[0] && DigitValue(t[0]) < 10;
    } else {
      assert t + tail == tail;
    }
  }

  /** The modifiers read, for every string of flags, width, precision and length. */
  lemma ModifiersAre(flags: string, w: Count, p: Count, length: string, c: char, x: P.Bits, y: P.Bits, fmt: string,
      args: seq<P.Arg>)
    requires FlagChars(flags) && WidthOk(w) && PrecOk(p) && LengthChars(length) && Conversion(c)
    ensures
      P.Modifiers(Directive(flags, w, p, length, c) + fmt, StarArgs(w, p, x, y) + args, P.NO_MODS)
        == (Meaning(flags, w, p, x, y), [c] + fmt, args)
  {
    hide P.Modifiers, Value, Conversion, FlagChars, WidthOk, PrecOk, LengthChars, NoDigitNext, WidthText, PrecText;
    hide WithFlags;
    var t1 := [c] + fmt;
    var t2 := length + t1;
    var t3 := PrecText(p) + t2;
    var t4 := WidthText(w) + t3;
    var a1 := (if p.Star? then [P.Num(y)] else []) + args;
    Regrouped(flags, WidthText(w), PrecText(p), length, [c], fmt);
    assert StarArgs(w, p, x, y) + args == (if w.Star? then [P.Num(x)] else []) + a1;
    EndsDigits(c, length, p, fmt);
    FlagsRead(flags, t4, StarArgs(w, p, x, y) + args, P.NO_MODS);
    FlagsMean(flags, P.NO_MODS);
    var m1 := WithFlags(flags, P.NO_MODS);
    WidthRead(w, x, t3, a1, m1);
    var r := Meaning(flags, w, p, x, y);
    var m2 := m1.(ladjust := r.ladjust, width := r.width);
    PrecRead(p, y, t2, args, m2);
    var m3 := m2.(prec := r.prec);
    LengthRead(length, t1, args, m3);
    ConversionEnds(c, fmt, args, m3);
  }

  lemma Regrouped(a: string, b: string, c: string, d: string, e: string, f: string)
    ensures a + (b + (c + (d + e))) + f == a + (b + (c + (d + (e + f))))
  {
  }

  lemma EndsDigits(c: char, length: string, p: Count, fmt: string)
    requires Conversion(c) && LengthChars(length)
    ensures var t2 := length + ([c] + fmt); t2[0] != '*' && NoDigitNext(t2) && NoDigitNext(PrecText(p) + t2)
  {
    var t2 := length + ([c] + fmt);
    assert t2[0] == if length == "" then c else length[0];
  }

  lemma ConversionEnds(c: char, fmt: string, args: seq<P.Arg>, m: P.Mods)
    requires Conversion(c)
    ensures P.Modifiers([c] + fmt, args, m) == (m, [c] + fmt, args)
  {
  }

  /** A directive, and what follows it in the format and among the arguments. */
  lemma DirectiveFirst(flags: string, w: Count, p: Count, length: string, c: char, x: P.Bits, y: P.Bits, fmt: string,
      args: seq<P.Arg>)
    requires FlagChars(flags) && WidthOk(w) && PrecOk(p) && LengthChars(length) && Conversion(c)
    ensures
      var f := P.Convert(c, Meaning(flags, w, p, x, y), args);
      P.Format("%" + Directive(flags, w, p, length, c) + fmt, StarArgs(w, p, x, y) + args)
        == P.Emit(f.0) + P.Format(fmt, f.1)
  {
    hide P.Modifiers, P.Emit, P.Convert, Meaning, Directive, StarArgs, Conversion;
    var t := Directive(flags, w, p, length, c);
    ModifiersAre(flags, w, p, length, c, x, y, fmt, args);
    assert ("%" + t + fmt)[1..] == t + fmt && ("%" + t + fmt)[0] == '%' && ([c] + fmt)[1..] == fmt;
  }

  /** A whole format of one directive. */
  lemma OneDirective(flags: string, w: Count, p: Count, length: string, c: char, x: P.Bits, y: P.Bits, a: P.Arg)
    requires FlagChars(flags) && WidthOk(w) && PrecOk(p) && LengthChars(length) && Conversion(c)
    ensures
      var f := P.Convert(c, Meaning(flags, w, p, x, y), [a]);
      P.Format("%" + Directive(flags, w, p, length, c), StarArgs(w, p, x, y) + [a]) == P.Emit(f.0)
  {
    hide P.Emit, P.Convert, Meaning, Directive, StarArgs, Conversion;
    var t := "%" + Directive(flags, w, p, length, c);
    DirectiveFirst(flags, w, p, length, c, x, y, "", [a]);
    assert t + "" == t;
    var f := P.Convert(c, Meaning(flags, w, p, x, y), [a]);
    assert P.Format("", f.1) == "" && P.Emit(f.0) + "" == P.Emit(f.0);
  }

  // ----- Texts, characters and pointers

  /** Characters in a field: behind them blanks with '-', in front of them zeros with '0', or else blanks. */
  function Filled(m: P.Mods, body: string): string {
    if m.ladjust then body + P.Pad(' ', m.width - |body|)
    else if m.zeropad then P.Pad('0', m.width - |body|) + body
    else P.Pad(' ', m.width - |body|) + body
  }

  lemma EmitFilled(m: P.Mods, body: string)
    ensures P.Emit(P.Field(m.(sign := ""), 0, body)) == Filled(m, body)
  {
    hide P.Pad;
    var f := P.Field(m.(sign := ""), 0, body);
    assert P.Realsz(f) == |body|;
    assert P.Pad('0', 0 - |body|) == "" by { NoPad('0', 0 - |body|); }
    assert "" + body + "" == body;
  }

  lemma NoPad(c: char, n: int)
    requires n <= 0
    ensures P.Pad(c, n) == ""
  {
  }

  /** "%s" and "%P" print a text, or (null) for a null pointer, as far as their precision goes. */
  lemma TextPrinted(flags: string, w: Count, p: Count, length: string, c: char, x: P.Bits, y: P.Bits, a: P.Arg)
    requires FlagChars(flags) && WidthOk(w) && PrecOk(p) && LengthChars(length) && !a.Num? && (c == 's' || c == 'P')
    ensures
      var m := Meaning(flags, w, p, x, y);
      var t := if a.Str? then a.text else "(null)";
      P.Format("%" + Directive(flags, w, p, length, c), StarArgs(w, p, x, y) + [a])
        == Filled(m, if m.prec < 0 || |t| <= m.prec then t else t[..m.prec])
  {
    hide P.Emit, Meaning, Filled;
    OneDirective(flags, w, p, length, c, x, y, a);
    var m := Meaning(flags, w, p, x, y);
    EmitFilled(m, P.Truncated(P.StrArg([a]), m.prec));
  }

  /** Any other conversion prints its character, the percent sign too; those for floating point use up an
      argument, the others leave it to the next directive. */
  lemma OtherPrinted(flags: string, w: Count, p: Count, length: string, c: char, x: P.Bits, y: P.Bits, a: P.Arg,
      fmt: string, args: seq<P.Arg>)
    requires FlagChars(flags) && WidthOk(w) && PrecOk(p) && LengthChars(length) && Conversion(c)
    requires c !in "csPudiopxX"
    ensures
      P.Format("%" + Directive(flags, w, p, length, c) + fmt, StarArgs(w, p, x, y) + ([a] + args))
        == Filled(Meaning(flags, w, p, x, y), [c]) + P.Format(fmt, if c in "eEfgG" then args else [a] + args)
  {
    hide P.Emit, P.Format, Meaning, Filled;
    DirectiveFirst(flags, w, p, length, c, x, y, fmt, [a] + args);
    EmitFilled(Meaning(flags, w, p, x, y), [c]);
    assert ([a] + args)[1..] == args;
  }

  /** "%c" prints the character with the low byte of the number; a precision makes no difference. */
  lemma CharPrinted(flags: string, w: Count, p: Count, length: string, x: P.Bits, y: P.Bits, u: P.Bits)
    requires FlagChars(flags) && WidthOk(w) && PrecOk(p) && LengthChars(length)
    ensures
      P.Format("%" + Directive(flags, w, p, length, 'c'), StarArgs(w, p, x, y) + [P.Num(u)])
        == Filled(Meaning(flags, w, p, x, y), [(u % 0x100) as char])
  {
    hide P.Emit, Meaning, Filled;
    OneDirective(flags, w, p, length, 'c', x, y, P.Num(u));
    EmitFilled(Meaning(flags, w, p, x, y), [(u % 0x100) as char]);
  }

  /** "%p" prints what "%x" prints with '#'. */
  lemma PointerPrinted(flags: string, w: Count, p: Count, length: string, x: P.Bits, y: P.Bits, u: P.Bits)
    requires FlagChars(flags) && WidthOk(w) && PrecOk(p) && LengthChars(length)
    ensures
      P.Format("%" + Directive(flags, w, p, length, 'p'), StarArgs(w, p, x, y) + [P.Num(u)])
        == P.Format("%" + Directive("#" + flags, w, p, length, 'x'), StarArgs(w, p, x, y) + [P.Num(u)])
  {
    hide P.Format, P.Emit, P.Convert, Meaning, Directive, StarArgs, WidthOk, PrecOk, LengthChars;
    OneDirective(flags, w, p, length, 'p', x, y, P.Num(u));
    OneDirective("#" + flags, w, p, length, 'x', x, y, P.Num(u));
    Sharp(flags, w, p, x, y);
    PointerIs(Meaning(flags, w, p, x, y), u);
  }

  lemma PointerIs(m: P.Mods, u: P.Bits)
    ensures P.Emit(P.Convert('p', m, [P.Num(u)]).0) == P.Emit(P.Convert('x', m.(alt := true), [P.Num(u)]).0)
  {
    hide P.HexBody;
    SameEmit(m, P.HexBody(u, true, false));
  }

  lemma Sharp(flags: string, w: Count, p: Count, x: P.Bits, y: P.Bits)
    ensures Meaning("#" + flags, w, p, x, y) == Meaning(flags, w, p, x, y).(alt := true)
  {
    assert ("#" + flags)[0] == '#' && ("#" + flags)[1..] == flags;
    forall c | c in "-0+ #" ensures c in "#" + flags <==> c == '#' || c in flags {
      Occurs("#" + flags, c);
    }
  }

  lemma SameEmit(m: P.Mods, body: string)
    ensures P.Emit(P.Field(P.IntMods(m, ""), m.prec, body))
      == P.Emit(P.Field(P.IntMods(m.(alt := true), ""), m.prec, body))
  {
  }
}

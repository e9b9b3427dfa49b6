/** Formatted output (crt/putf.c) into a string (crt/vsprintf.c).  Integers and pointers have 32 bits. */
module Putf {
  import opened Numeral

  /** A 32-bit word, whatever its signedness. */
  type Bits = b: nat | b < TWO_32

  datatype Arg = Num(bits: Bits) | Str(text: string) | NullStr

  /** va_arg for a number, and what is left. */
  function NumArg(args: seq<Arg>): Bits {
    if args != [] && args[0].Num? then args[0].bits else 0
  }

  function StrArg(args: seq<Arg>): string {
    if args != [] && args[0].Str? then args[0].text else "(null)"
  }

  function Rest(args: seq<Arg>): seq<Arg> {
    if args == [] then [] else args[1..]
  }

  function Signed(b: Bits): (v: int)
    ensures -LONG_MAX - 1 <= v <= LONG_MAX
  {
    if b > LONG_MAX then b - TWO_32 else b
  }

  function Max(a: int, b: int): int {
    if a > b then a else b
  }

  // ----- Modifiers

  datatype Mods = Mods(alt: bool, ladjust: bool, zeropad: bool, sign: string, width: int, prec: int)

  const NO_MODS := Mods(false, false, false, "", 0, -1)

  /** A decimal number in the format, continuing `n`. */
  function FormatNumber(fmt: string, n: nat): (r: (nat, string))
    ensures |r.1| <= |fmt|
  {
    if fmt != "" && '0' <= fmt[0] <= '9' then
      FormatNumber(fmt[1..], 10 * n + (fmt[0] as int - '0' as int))
    else
      (n, fmt)
  }

  function Precision(fmt: string, args: seq<Arg>): (r: (int, string, seq<Arg>))
    ensures |r.1| <= |fmt| && r.0 >= -1
  {
    if fmt != "" && fmt[0] == '*' then (Max(Signed(NumArg(args)), -1), fmt[1..], Rest(args))
    else
      var n := FormatNumber(fmt, 0);
      (n.0, n.1, args)
  }

  function StarWidth(w: int, m: Mods): Mods {
    if w < 0 then m.(ladjust := true, width := -w) else m.(width := w)
  }

  /** All modifiers up to the conversion character.  The length modifiers make no difference. */
  function Modifiers(fmt: string, args: seq<Arg>, m: Mods): (r: (Mods, string, seq<Arg>))
    ensures |r.1| <= |fmt|
    decreases |fmt|
  {
    if fmt == "" then (m, fmt, args)
    else
      match fmt[0]
      case ' ' => Modifiers(fmt[1..], args, if m.sign == "" then m.(sign := " ") else m)
      case '+' => Modifiers(fmt[1..], args, m.(sign := "+"))
      case '-' => Modifiers(fmt[1..], args, m.(ladjust := true))
      case '#' => Modifiers(fmt[1..], args, m.(alt := true))
      case '0' => Modifiers(fmt[1..], args, m.(zeropad := true))
      case 'l' => Modifiers(fmt[1..], args, m)
      case 'z' => Modifiers(fmt[1..], args, m)
      case '*' => Modifiers(fmt[1..], Rest(args), StarWidth(Signed(NumArg(args)), m))
      case '.' =>
        var p := Precision(fmt[1..], args);
        Modifiers(p.1, p.2, m.(prec := p.0))
      case c =>
        if '1' <= c <= '9' then
          var n := FormatNumber(fmt[1..], c as int - '0' as int);
          Modifiers(n.1, args, m.(width := n.0))
        else (m, fmt, args)
  }

  // ----- Conversions

  /** A converted argument: its sign or blank, its characters and the digits it must at least have. */
  datatype Field = Field(mods: Mods, dprec: int, body: string)

  /** Flags of an integer conversion: a precision switches zero padding off. */
  function IntMods(m: Mods, sign: string): Mods {
    m.(sign := sign, zeropad := m.zeropad && m.prec < 0)
  }

  /** The magnitude of a signed argument, in 32 bits. */
  function Magnitude(b: Bits): Bits {
    if b > LONG_MAX then TWO_32 - b else b
  }

  function Truncated(s: string, prec: int): string {
    if 0 <= prec < |s| then s[..prec] else s
  }

  function DecimalBody(u: Bits, prec: int): string {
    if u != 0 || prec != 0 then NumText(u, 10, false) else ""
  }

  function OctalBody(u: Bits, m: Mods): string {
    if u != 0 || m.prec != 0 then
      var t := NumText(u, 8, false);
      if m.alt && t[0] != '0' then "0" + t else t
    else ""
  }

  /** The prefix is written for zero too, and a precision of 0 does not suppress a zero. */
  function HexBody(u: Bits, alt: bool, upper: bool): string {
    (if alt then (if upper then "0X" else "0x") else "") + NumText(u, 16, upper)
  }

  function Convert(ch: char, m: Mods, args: seq<Arg>): (Field, seq<Arg>) {
    match ch
    case 'c' => (Field(m.(sign := ""), 0, [(NumArg(args) % 256) as char]), Rest(args))
    case 's' => (Field(m.(sign := ""), 0, Truncated(StrArg(args), m.prec)), Rest(args))
    case 'P' => (Field(m.(sign := ""), 0, Truncated(StrArg(args), m.prec)), Rest(args))
    case 'u' => (Field(IntMods(m, ""), m.prec, DecimalBody(NumArg(args), m.prec)), Rest(args))
    case 'd' => (SignedField(m, NumArg(args)), Rest(args))
    case 'i' => (SignedField(m, NumArg(args)), Rest(args))
    case 'o' => (Field(IntMods(m, ""), m.prec, OctalBody(NumArg(args), m)), Rest(args))
    case 'p' => (Field(IntMods(m, ""), m.prec, HexBody(NumArg(args), true, false)), Rest(args))
    case 'x' => (Field(IntMods(m, ""), m.prec, HexBody(NumArg(args), m.alt, false)), Rest(args))
    case 'X' => (Field(IntMods(m, ""), m.prec, HexBody(NumArg(args), m.alt, true)), Rest(args))
    case c => (Field(m.(sign := ""), 0, [c]), if c in "gGeEf" then Rest(args) else args)
  }

  function SignedField(m: Mods, b: Bits): Field {
    Field(IntMods(m, if Signed(b) < 0 then "-" else m.sign), m.prec, DecimalBody(Magnitude(b), m.prec))
  }

  // ----- Output

  function Pad(c: char, n: int): (s: string)
    ensures |s| == Max(n, 0) && forall i :: 0 <= i < |s| ==> s[i] == c
  {
    if n <= 0 then "" else [c] + Pad(c, n - 1)
  }

  function Realsz(f: Field): int {
    Max(f.dprec, |f.body|) + |f.mods.sign|
  }

  function Emit(f: Field): string {
    var gap := f.mods.width - Realsz(f);
    (if !f.mods.ladjust && !f.mods.zeropad then Pad(' ', gap) else "")
    + f.mods.sign
    + (if !f.mods.ladjust && f.mods.zeropad then Pad('0', gap) else "")
    + Pad('0', f.dprec - |f.body|)
    + f.body
    + (if f.mods.ladjust then Pad(' ', gap) else "")
  }

  /** What is counted for a field is what was put out. */
  lemma EmitLength(f: Field)
    ensures |Emit(f)| == Max(f.mods.width, Realsz(f))
  {
  }

  /** The whole text. */
  function Format(fmt: string, args: seq<Arg>): string
    decreases |fmt|
  {
    if fmt == "" then ""
    else if fmt[0] != '%' then [fmt[0]] + Format(fmt[1..], args)
    else
      var m := Modifiers(fmt[1..], args, NO_MODS);
      if m.1 == "" then ""
      else
        var c := Convert(m.1[0], m.0, m.2);
        Emit(c.0) + Format(m.1[1..], c.1)
  }

  /** Literal characters go out as they are. */
  lemma {:induction false} FormatLiteral(s: string, fmt: string, args: seq<Arg>)
    requires '%' !in s
    ensures Format(s + fmt, args) == s + Format(fmt, args)
    decreases |s|
  {
    if s == "" {
      assert s + fmt == fmt;
    } else {
      assert (s + fmt)[1..] == s[1..] + fmt;
      FormatLiteral(s[1..], fmt, args);
    }
  }

  lemma FormatRun(out: string, fmt: string, n: nat, args: seq<Arg>)
    requires n <= |fmt| && '%' !in fmt[..n]
    ensures out + Format(fmt, args) == out + fmt[..n] + Format(fmt[n..], args)
  {
    hide Format;
    FormatLiteral(fmt[..n], fmt[n..], args);
    assert fmt[..n] + fmt[n..] == fmt;
  }

  lemma FormatDirective(out: string, fmt: string, args: seq<Arg>)
    requires fmt != "" ==> fmt[0] == '%'
    ensures fmt == "" ==> out + Format(fmt, args) == out
    ensures fmt != "" ==>
      var m := Modifiers(fmt[1..], args, NO_MODS);
      if m.1 == "" then out + Format(fmt, args) == out
      else var c := Convert(m.1[0], m.0, m.2); out + Format(fmt, args) == out + Emit(c.0) + Format(m.1[1..], c.1)
  {
    hide Modifiers, Convert, Emit;
  }

  // ----- The functions of the source

  /** _sputb and the pointer it advances. */
  class StringSink {
    var text: string

    constructor ()
      ensures text == ""
    {
      text := "";
    }

    method Put(s: string)
      modifies this
      ensures text == old(text) + s
    {
      text := text + s;
    }
  }

  const PADSIZE := 16
  const BUF := 16

  lemma PadParts(c: char, m: int, n: int)
    requires m >= 0 && n >= 0
    ensures Pad(c, m) + Pad(c, n) == Pad(c, m + n)
  {
  }

  /** _putpad */
  method PutPad(sink: StringSink, padch: char, count: int)
    modifies sink
    ensures sink.text == old(sink.text) + Pad(padch, count)
  {
    var n := count;
    var pad := Pad(padch, PADSIZE);
    while n > PADSIZE
      invariant n == count || n > 0
      invariant sink.text == old(sink.text) + Pad(padch, count - n)
    {
      sink.Put(pad);
      PadParts(padch, count - n, PADSIZE);
      n := n - PADSIZE;
    }
    if n > 0 {
      sink.Put(Pad(padch, n));
      PadParts(padch, count - n, n);
    }
  }

  /** The digit loops of the integer conversions: digits are written from the end of the buffer and
      never pass its start. */
  method PutDigits(buf: array<char>, u: Bits, base: nat, upper: bool) returns (cp: nat)
    requires buf.Length == BUF && Base(base)
    modifies buf
    ensures BUF - 11 <= cp < BUF && buf[cp..] == NumText(u, base, upper)
  {
    hide Rem, Quot, Digit, NumText;
    NumTextFits(u, base, upper);
    var ulval: nat := u;
    cp := BUF;
    var more := true;
    while more
      invariant 0 <= cp <= BUF
      invariant NumText(u, base, upper) == (if more then NumText(ulval, base, upper) else "") + buf[cp..]
      decreases more, ulval
    {
      NumTextStep(ulval, base, upper);
      ghost var done := buf[cp..];
      cp := cp - 1;
      buf[cp] := Digit(Rem(ulval, base), upper);
      assert buf[cp..] == [buf[cp]] + done;
      ulval := Quot(ulval, base);
      more := ulval != 0;
    }
  }

  lemma NumTextStep(n: nat, b: nat, upper: bool)
    requires Base(b)
    ensures Rem(n, b) < 16 && (Quot(n, b) != 0 ==> Quot(n, b) < n)
    ensures
      NumText(n, b, upper)
        == (if Quot(n, b) != 0 then NumText(Quot(n, b), b, upper) else "") + [Digit(Rem(n, b), upper)]
  {
  }

  /** The type field: the characters of an integer, with a prefix in front if there is room for it. */
  method ConvertNumber(buf: array<char>, ch: char, u: Bits, m: Mods) returns (cp: nat)
    requires buf.Length == BUF && ch in "doxX"
    modifies buf
    ensures cp <= BUF
    ensures
      buf[cp..] ==
        if ch == 'd' then DecimalBody(u, m.prec)
        else if ch == 'o' then OctalBody(u, m)
        else HexBody(u, m.alt, ch == 'X')
  {
    hide NumText;
    cp := BUF;
    if ch == 'd' {
      if u != 0 || m.prec != 0 {
        cp := PutDigits(buf, u, 10, false);
      }
    } else if ch == 'o' {
      if u != 0 || m.prec != 0 {
        cp := PutDigits(buf, u, 8, false);
        if m.alt && buf[cp] != '0' {
          cp := cp - 1;
          buf[cp] := '0';
        }
      }
    } else {
      cp := PutDigits(buf, u, 16, ch == 'X');
      if m.alt {
        ghost var t := buf[cp..];
        cp := cp - 1;
        buf[cp] := ch;
        cp := cp - 1;
        buf[cp] := '0';
        assert buf[cp + 2..] == t;
        assert buf[cp..] == [buf[cp], buf[cp + 1]] + buf[cp + 2..];
      }
    }
  }

  /** A decimal number in the format. */
  method ReadNumber(fmt: string, start: nat) returns (n: nat, rest: string)
    ensures (n, rest) == FormatNumber(fmt, start)
  {
    n, rest := start, fmt;
    while rest != "" && '0' <= rest[0] <= '9'
      invariant FormatNumber(rest, n) == FormatNumber(fmt, start)
      decreases |rest|
    {
      n, rest := 10 * n + (rest[0] as int - '0' as int), rest[1..];
    }
  }

  /** The loop over the modifiers. */
  method ReadModifiers(fmt: string, args: seq<Arg>) returns (m: Mods, rest: string, ap: seq<Arg>)
    ensures (m, rest, ap) == Modifiers(fmt, args, NO_MODS)
    ensures |rest| <= |fmt|
  {
    hide FormatNumber;
    m, rest, ap := NO_MODS, fmt, args;
    while rest != ""
      invariant |rest| <= |fmt| && Modifiers(rest, ap, m) == Modifiers(fmt, args, NO_MODS)
      decreases |rest|
    {
      var ch := rest[0];
      if ch == ' ' {
        if m.sign == "" {
          m := m.(sign := " ");
        }
        rest := rest[1..];
      } else if ch == '+' {
        m, rest := m.(sign := "+"), rest[1..];
      } else if ch == '-' {
        m, rest := m.(ladjust := true), rest[1..];
      } else if ch == '#' {
        m, rest := m.(alt := true), rest[1..];
      } else if ch == '0' {
        m, rest := m.(zeropad := true), rest[1..];
      } else if ch == 'l' || ch == 'z' {
        rest := rest[1..];
      } else if ch == '*' {
        var width := Signed(NumArg(ap));
        m := m.(width := width);
        if width < 0 {
          m := m.(ladjust := true, width := -width);
        }
        rest, ap := rest[1..], Rest(ap);
      } else if ch == '.' {
        rest := rest[1..];
        var prec: int;
        if rest != "" && rest[0] == '*' {
          prec, rest, ap := Signed(NumArg(ap)), rest[1..], Rest(ap);
        } else {
          prec, rest := ReadNumber(rest, 0);
        }
        if prec < 0 {
          prec := -1;
        }
        m := m.(prec := prec);
      } else if '1' <= ch <= '9' {
        var width;
        width, rest := ReadNumber(rest[1..], ch as int - '0' as int);
        m := m.(width := width);
      } else {
        break;
      }
    }
  }

  lemma EmitAfter(t: string, f: Field)
    ensures var gap := f.mods.width - Realsz(f);
      var t1 := t + (if !f.mods.ladjust && !f.mods.zeropad then Pad(' ', gap) else "");
      var t2 := t1 + f.mods.sign;
      var t3 := t2 + (if !f.mods.ladjust && f.mods.zeropad then Pad('0', gap) else "");
      var t4 := t3 + Pad('0', f.dprec - |f.body|) + f.body;
      t4 + (if f.mods.ladjust then Pad(' ', gap) else "") == t + Emit(f)
  {
    hide Pad;
  }

  /** The output of a field; returns what is added to the count. */
  method PutField(sink: StringSink, f: Field) returns (n: int)
    modifies sink
    ensures sink.text == old(sink.text) + Emit(f) && n == |Emit(f)|
  {
    hide Pad, Emit, Realsz, Max;
    EmitLength(f);
    EmitAfter(sink.text, f);
    RealszIs(f);
    var realsz := if f.dprec > |f.body| then f.dprec else |f.body|;
    realsz := realsz + |f.mods.sign|;
    ghost var t := sink.text;
    if !f.mods.ladjust && !f.mods.zeropad {
      PutPad(sink, ' ', f.mods.width - realsz);
    }
    t := t + (if !f.mods.ladjust && !f.mods.zeropad then Pad(' ', f.mods.width - realsz) else "");
    assert sink.text == t;
    if f.mods.sign != "" {
      sink.Put(f.mods.sign);
    }
    t := t + f.mods.sign;
    assert sink.text == t;
    if !f.mods.ladjust && f.mods.zeropad {
      PutPad(sink, '0', f.mods.width - realsz);
    }
    t := t + (if !f.mods.ladjust && f.mods.zeropad then Pad('0', f.mods.width - realsz) else "");
    assert sink.text == t;
    PutPad(sink, '0', f.dprec - |f.body|);
    t := t + Pad('0', f.dprec - |f.body|);
    if f.body != "" {
      sink.Put(f.body);
    }
    t := t + f.body;
    assert sink.text == t;
    if f.mods.ladjust {
      PutPad(sink, ' ', f.mods.width - realsz);
    }
    n := if f.mods.width >= realsz then f.mods.width else realsz;
  }

  lemma RealszIs(f: Field)
    ensures Realsz(f) == (if f.dprec > |f.body| then f.dprec else |f.body|) + |f.mods.sign|
    ensures Max(f.mods.width, Realsz(f)) == if f.mods.width >= Realsz(f) then f.mods.width else Realsz(f)
  {
  }

  /** The type field. */
  method ConvertField(ch: char, m: Mods, args: seq<Arg>) returns (f: Field, ap: seq<Arg>)
    ensures (f, ap) == Convert(ch, m, args)
  {
    hide DecimalBody, OctalBody, HexBody;
    var buf := new char[BUF];
    var cp: nat;
    ap := Rest(args);
    match ch
    case 'c' =>
      f := Field(m.(sign := ""), 0, [(NumArg(args) % 256) as char]);
    case 's' | 'P' =>
      var s := StrArg(args);
      var size := |s|;
      if 0 <= m.prec < size {
        size := m.prec;
      }
      assert s[..|s|] == s;
      f := Field(m.(sign := ""), 0, s[..size]);
    case 'u' =>
      cp := ConvertNumber(buf, 'd', NumArg(args), m);
      f := Field(IntMods(m, ""), m.prec, buf[cp..]);
    case 'd' | 'i' =>
      var ulval := NumArg(args);
      var sign := m.sign;
      if Signed(ulval) < 0 {
        ulval := TWO_32 - ulval;
        sign := "-";
      }
      cp := ConvertNumber(buf, 'd', ulval, m);
      f := Field(IntMods(m, sign), m.prec, buf[cp..]);
    case 'o' =>
      cp := ConvertNumber(buf, 'o', NumArg(args), m);
      f := Field(IntMods(m, ""), m.prec, buf[cp..]);
    case 'p' =>
      cp := ConvertNumber(buf, 'x', NumArg(args), m.(alt := true));
      f := Field(IntMods(m, ""), m.prec, buf[cp..]);
    case 'x' | 'X' =>
      cp := ConvertNumber(buf, ch, NumArg(args), m);
      f := Field(IntMods(m, ""), m.prec, buf[cp..]);
    case _ =>
      if ch !in "gGeEf" {
        ap := args;
      }
      f := Field(m.(sign := ""), 0, [ch]);
  }

  /** _putf: the count returned is the number of characters put out, whatever the format. */
  method Putf(sink: StringSink, fmt: string, args: seq<Arg>) returns (rc: int)
    modifies sink
    ensures sink.text == old(sink.text) + Format(fmt, args)
    ensures rc == |Format(fmt, args)|
  {
    hide Modifiers, Convert, Emit, Format;
    rc := 0;
    var f, ap := fmt, args;
    ghost var before, out := sink.text, "";
    while true
      invariant Format(fmt, args) == out + Format(f, ap) && sink.text == before + out && rc == |out|
      decreases |f|
    {
      var n := 0;
      while n < |f| && f[n] != '%'
        invariant 0 <= n <= |f| && '%' !in f[..n]
      {
        n := n + 1;
      }
      FormatRun(out, f, n, ap);
      if n != 0 {
        sink.Put(f[..n]);
        rc := rc + n;
      }
      out := out + f[..n];
      f := f[n..];
      FormatDirective(out, f, ap);
      if f == "" {
        break;
      }
      var m, rest, ap' := ReadModifiers(f[1..], ap);
      if rest == "" {
        return;
      }
      var field, ap'' := ConvertField(rest[0], m, ap');
      n := PutField(sink, field);
      rc := rc + n;
      out := out + Emit(field);
      f, ap := rest[1..], ap'';
    }
  }

  /** vsprintf: what is written to the buffer, with the terminator behind the text. */
  method Vsprintf(fmt: string, args: seq<Arg>) returns (buffer: string, rc: int)
    ensures buffer == Format(fmt, args) + "\0"
    ensures 0 <= rc < |buffer| && buffer[..rc] == Format(fmt, args) && buffer[rc] == '\0'
  {
    var sink := new StringSink();
    rc := Putf(sink, fmt, args);
    sink.Put("\0");
    buffer := sink.text;
  }
}

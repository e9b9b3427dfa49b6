/** Formatted input (crt/getf.c) from a string (crt/vsscanf.c), without floating point.  Integers have
    32 bits. */
module Getf {
  import opened Numeral

  const EOF := -1
  const BUF := 16

  predicate IsSpace(c: char) {
    c == ' ' || 9 <= c as int <= 13
  }

  /** What is left to read, the last character read, and whether that one is still to be used. */
  datatype Source = Source(rest: string, ready: bool, ch: char)

  datatype Stored = Number(size: nat, bits: nat) | Chars(text: string)

  /** The state between two parts of the format; the counters have 8 bits. */
  datatype Scan = Scan(src: Source, ccnt: nat, acnt: nat, out: seq<Stored>)

  datatype Outcome = Return(ret: int, out: seq<Stored>) | Continue(fmt: string, scan: Scan)

  function Inc8(n: nat): nat {
    (n + 1) % 256
  }

  /** `src` with one more character read. */
  function Next(src: Source): Source
    requires src.rest != ""
  {
    Source(src.rest[1..], src.ready, src.rest[0])
  }

  /** The input is used up. */
  function Ended(s: Scan): Outcome {
    Return(if s.ccnt != 0 then s.acnt else EOF, s.out)
  }

  // ----- White space and literals

  /** White space in the format. */
  function SkipSpaces(src: Source): Source
    decreases |src.rest|
  {
    if src.rest == "" then src
    else if IsSpace(src.rest[0]) then SkipSpaces(Next(src))
    else Next(src).(ready := true)
  }

  predicate Available(src: Source) {
    src.ready || src.rest != ""
  }

  /** The waiting character, or the next one. */
  function Fetch(src: Source): Source
    requires Available(src)
  {
    (if src.ready then src else Next(src)).(ready := false)
  }

  function Literal(c: char, fmt: string, s: Scan): Outcome {
    if !Available(s.src) then Ended(s)
    else if Fetch(s.src).ch != c then Return(s.acnt, s.out)
    else Continue(fmt, s.(src := Fetch(s.src)))
  }

  // ----- Modifiers

  datatype Mods = Mods(width: nat, suppress: bool, long: bool, hcnt: nat)

  const NO_MODS := Mods(0, false, false, 0)

  function Modifiers(fmt: string, m: Mods): (r: (Mods, string))
    ensures |r.1| <= |fmt|
  {
    if fmt == "" then (m, fmt)
    else if fmt[0] == '*' then Modifiers(fmt[1..], m.(suppress := true))
    else if fmt[0] == 'l' then Modifiers(fmt[1..], m.(long := true))
    else if fmt[0] == 'h' then Modifiers(fmt[1..], m.(hcnt := Inc8(m.hcnt)))
    else if '0' <= fmt[0] <= '9' then Modifiers(fmt[1..], m.(width := m.width * 10 + (fmt[0] as int - '0' as int)))
    else (m, fmt)
  }

  // ----- Characters and words

  function Min(a: nat, b: nat): nat {
    if a < b then a else b
  }

  datatype Skipped = Short | Skipped(rest: string)

  /** Suppressed characters, at most a buffer at a time. */
  function SkipChars(rest: string, width: nat): Skipped
    decreases width
  {
    if width == 0 then Skipped(rest)
    else if rest == "" then Short
    else
      var n := Min(width, BUF);
      SkipChars(rest[Min(n, |rest|)..], width - n)
  }

  /** Characters are read past a waiting one, which is dropped; then nothing is stored either. */
  function CharConversion(fmt: string, m: Mods, s: Scan): Outcome {
    var width := if m.width == 0 then 1 else m.width;
    var s1 := s.(ccnt := Inc8(s.ccnt), acnt := if m.suppress then s.acnt else Inc8(s.acnt));
    if s.src.ready then Continue(fmt, s1.(src := s.src.(ready := false)))
    else if m.suppress then
      match SkipChars(s.src.rest, width)
      case Short => Ended(s)
      case Skipped(rest) => Continue(fmt, s1.(src := s.src.(rest := rest)))
    else if s.src.rest == "" then Ended(s)
    else
      var n := Min(width, |s.src.rest|);
      Continue(fmt, s1.(src := s.src.(rest := s.src.rest[n..]), out := s.out + [Chars(s.src.rest[..n])]))
  }

  /** A word from the last character read on, and the source behind it. */
  function Word(src: Source, width: nat): (string, Source)
    decreases |src.rest|
  {
    if IsSpace(src.ch) then ("", src)
    else if width == 1 || src.rest == "" then ([src.ch], src)
    else
      var w := Word(Next(src), if width > 0 then width - 1 else 0);
      ([src.ch] + w.0, w.1)
  }

  function StringConversion(fmt: string, m: Mods, s: Scan): Outcome {
    var w := Word(s.src, if m.width == 0 then 0xFFFF else m.width);
    var s1 := s.(src := w.1, ccnt := Inc8(s.ccnt));
    Continue(fmt, if m.suppress then s1 else s1.(acnt := Inc8(s.acnt), out := s.out + [Chars(w.0)]))
  }

  // ----- Integers

  /** The CF_ flags of an integer. */
  datatype Flags = Flags(signOk: bool, noDigits: bool, pfxOk: bool, nzDigits: bool)

  /** What becomes of a character: it belongs to the number, it is dropped or it waits. */
  datatype Verdict = Take(base: nat, flags: Flags) | Drop | Wait

  function Judge(ch: char, base: nat, f: Flags): Verdict {
    if ch == '0' then
      var b, p := if base == 0 then 8 else base, base == 0 || f.pfxOk;
      Take(b, if f.nzDigits then Flags(false, false, p, false) else Flags(false, false, false, false))
    else if '1' <= ch <= '7' then
      Take(if base == 0 then 10 else base, Flags(false, false, false, f.nzDigits))
    else if ch == '8' || ch == '9' then
      if 0 < base <= 8 then Drop
      else Take(if base == 0 then 10 else base, Flags(false, false, false, f.nzDigits))
    else if 'A' <= ch <= 'F' || 'a' <= ch <= 'f' then
      if base <= 10 then Drop else Take(base, Flags(false, false, false, f.nzDigits))
    else if ch == '-' || ch == '+' then
      if !f.signOk then Drop else Take(base, f.(signOk := false))
    else if ch == 'x' || ch == 'X' then
      if !f.pfxOk then Drop else Take(16, f.(pfxOk := false))
    else Wait
  }

  datatype Integer = Integer(text: string, src: Source, base: nat, flags: Flags)

  /** The characters of an integer, from the last one read on, behind those in `text`. */
  function ScanInteger(src: Source, width: nat, base: nat, f: Flags, text: string): (r: Integer)
    ensures |text| <= |r.text| <= |text| + width
    decreases width
  {
    if width == 0 then Integer(text, src, base, f)
    else
      match Judge(src.ch, base, f)
      case Drop => Integer(text, src, base, f)
      case Wait => Integer(text, src.(ready := true), base, f)
      case Take(b, f1) =>
        if width == 1 || src.rest == "" then Integer(text + [src.ch], src, b, f1)
        else ScanInteger(Next(src), width - 1, b, f1, text + [src.ch])
  }

  /** A digit has been taken only after the base was known. */
  lemma {:induction false} ScanBase(src: Source, width: nat, base: nat, f: Flags, text: string)
    requires base == 0 ==> f.noDigits
    requires base == 0 || Base(base)
    ensures var r := ScanInteger(src, width, base, f, text); !r.flags.noDigits ==> Base(r.base)
    decreases width
  {
    var v := Judge(src.ch, base, f);
    if width > 1 && v.Take? && src.rest != "" {
      ScanBase(Next(src), width - 1, v.base, v.flags, text + [src.ch]);
    }
  }

  function BaseOf(cf: char): (b: nat)
    ensures b == 0 || Base(b)
  {
    if cf == 'i' then 0 else if cf == 'o' then 8 else if cf == 'x' || cf == 'X' then 16 else 10
  }

  function IntWidth(width: nat): nat {
    if width == 0 || width > BUF - 1 then BUF - 1 else width
  }

  function Start(cf: char): Flags {
    Flags(true, true, cf == 'x' || cf == 'X', true)
  }

  /** The number of bytes an integer conversion stores. */
  function Size(m: Mods): nat {
    if m.long then 4 else if m.hcnt == 1 then 2 else if m.hcnt != 0 then 1 else 4
  }

  /** The low bytes of a number. */
  function LowBits(v: int, size: nat): nat {
    if size == 1 then v % 0x100 else if size == 2 then v % 0x1_0000 else v % TWO_32
  }

  function IntConversion(fmt: string, cf: char, m: Mods, s: Scan): Outcome {
    ScanBase(s.src, IntWidth(m.width), BaseOf(cf), Start(cf), "");
    var n := ScanInteger(s.src, IntWidth(m.width), BaseOf(cf), Start(cf), "");
    if n.flags.noDigits then Return(s.acnt, s.out)
    else
      var s1 := s.(src := n.src, ccnt := Inc8(s.ccnt));
      var item := Number(Size(m), LowBits(Strtol(n.text, n.base), Size(m)));
      Continue(fmt, if m.suppress then s1 else s1.(acnt := Inc8(s.acnt), out := s.out + [item]))
  }

  // ----- The whole format

  datatype Found = Nothing | Found(src: Source)

  /** White space in front of a word or an integer. */
  function SkipToText(src: Source): Found
    decreases |src.rest|
  {
    if !IsSpace(src.ch) then Found(src)
    else if src.rest == "" then Nothing
    else SkipToText(Next(src))
  }

  /** A conversion with its modifiers; `fmt` is behind the percent sign. */
  function Directive(fmt: string, s: Scan): (o: Outcome)
    ensures o.Continue? ==> |o.fmt| <= |fmt|
  {
    if fmt != "" && fmt[0] == '%' then Literal('%', fmt[1..], s)
    else
      var (m, rest) := Modifiers(fmt, NO_MODS);
      if rest == "" then Return(EOF, s.out)
      else if rest[0] == 'c' then CharConversion(rest[1..], m, s)
      else if !Available(s.src) then Ended(s)
      else
        match SkipToText(Fetch(s.src))
        case Nothing => Ended(s)
        case Found(src) =>
          if rest[0] == 's' then StringConversion(rest[1..], m, s.(src := src))
          else IntConversion(rest[1..], rest[0], m, s.(src := src))
  }

  function Step(fmt: string, s: Scan): (o: Outcome)
    requires fmt != ""
    ensures o.Continue? ==> |o.fmt| < |fmt|
  {
    if IsSpace(fmt[0]) then Continue(fmt[1..], s.(src := SkipSpaces(s.src)))
    else if fmt[0] != '%' then Literal(fmt[0], fmt[1..], s)
    else Directive(fmt[1..], s)
  }

  /** The value returned and all that was stored. */
  function Run(fmt: string, s: Scan): (int, seq<Stored>)
    decreases |fmt|
  {
    if fmt == "" then (s.acnt, s.out)
    else
      match Step(fmt, s)
      case Return(ret, out) => (ret, out)
      case Continue(rest, s1) => Run(rest, s1)
  }

  function Begin(text: string): Scan {
    Scan(Source(text, false, ' '), 0, 0, [])
  }

  function Sscanf(text: string, fmt: string): (int, seq<Stored>) {
    Run(fmt, Begin(text))
  }
}

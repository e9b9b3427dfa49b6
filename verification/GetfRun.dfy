/** _getf and vsscanf as the source runs them (crt/getf.c, crt/vsscanf.c), proved to do what module Getf
    says. */
module GetfRun {
  import opened Numeral
  import opened Getf

  /** The string _sgetb reads from and the pointer it advances. */
  class StringSource {
    var rest: string

    constructor (text: string)
      ensures rest == text
    {
      rest := text;
    }

    /** _sgetb: up to `count` characters. */
    method Getb(count: nat) returns (got: string)
      modifies this
      ensures var n := Min(count, |old(rest)|); got == old(rest)[..n] && rest == old(rest)[n..]
    {
      got := "";
      while |got| < count && rest != ""
        invariant |got| <= count && |got| <= |old(rest)| && got == old(rest)[..|got|] && rest == old(rest)[|got|..]
        decreases |rest|
      {
        got, rest := got + [rest[0]], rest[1..];
      }
    }

    /** One character into a variable that is left alone at the end of the input. */
    method GetChar(last: char) returns (ok: bool, ch: char)
      modifies this
      ensures
        if old(rest) == "" then !ok && ch == last && rest == "" else ok && ch == old(rest)[0] && rest == old(rest)[1..]
    {
      var got := Getb(1);
      ok := |got| == 1;
      ch := if ok then got[0] else last;
    }

    /** The source with the last character read. */
    ghost function With(ready: bool, ch: char): Source
      reads this
    {
      Source(rest, ready, ch)
    }
  }

  /** White space in the format. */
  method MatchSpace(src: StringSource, ready: bool, ch: char) returns (ready': bool, ch': char)
    modifies src
    ensures src.With(ready', ch') == SkipSpaces(old(src.With(ready, ch)))
  {
    ready', ch' := ready, ch;
    while true
      invariant SkipSpaces(src.With(ready', ch')) == SkipSpaces(old(src.With(ready, ch)))
      decreases |src.rest|
    {
      var ok;
      ok, ch' := src.GetChar(ch');
      if !ok {
        break;
      }
      if !IsSpace(ch') {
        ready' := true;
        break;
      }
    }
  }

  /** White space in front of a word or an integer. */
  method SkipSpace(src: StringSource, ch: char) returns (ok: bool, ch': char)
    modifies src
    ensures SkipToText(old(src.With(false, ch))) == if ok then Found(src.With(false, ch')) else Nothing
  {
    ok, ch' := true, ch;
    while IsSpace(ch')
      invariant ok && SkipToText(src.With(false, ch')) == SkipToText(old(src.With(false, ch)))
      decreases |src.rest|
    {
      ok, ch' := src.GetChar(ch');
      if !ok {
        return;
      }
    }
  }

  method ReadModifiers(fmt: string) returns (m: Mods, rest: string)
    ensures (m, rest) == Modifiers(fmt, NO_MODS)
  {
    m, rest := NO_MODS, fmt;
    while rest != ""
      invariant Modifiers(rest, m) == Modifiers(fmt, NO_MODS)
      decreases |rest|
    {
      var cf := rest[0];
      if cf == '*' {
        m := m.(suppress := true);
      } else if cf == 'l' {
        m := m.(long := true);
      } else if cf == 'h' {
        m := m.(hcnt := Inc8(m.hcnt));
      } else if '0' <= cf <= '9' {
        m := m.(width := m.width * 10 + (cf as int - '0' as int));
      } else {
        break;
      }
      rest := rest[1..];
    }
  }

  /** A %s conversion behind its white space. */
  method ReadWord(src: StringSource, ch: char, width: nat) returns (text: string, ch': char)
    requires width > 0
    modifies src
    ensures (text, src.With(false, ch')) == Word(old(src.With(false, ch)), width)
  {
    text, ch' := "", ch;
    var w := width;
    ghost var goal := Word(src.With(false, ch), width);
    assert "" + goal.0 == goal.0;
    while !IsSpace(ch')
      invariant w > 0
      invariant var r := Word(src.With(false, ch'), w); text + r.0 == goal.0 && r.1 == goal.1
      decreases |src.rest|
    {
      ghost var r := Word(src.With(false, ch'), w);
      assert text + r.0 == text + [ch'] + r.0[1..];
      text := text + [ch'];
      w := w - 1;
      if w == 0 {
        return;
      }
      var ok;
      ok, ch' := src.GetChar(ch');
      if !ok {
        return;
      }
    }
    assert text + "" == text;
  }

  /** Suppressed %c characters, in pieces of the size of the buffer. */
  method DropChars(src: StringSource, width: nat) returns (ok: bool)
    requires width > 0
    modifies src
    ensures SkipChars(old(src.rest), width) == if ok then Skipped(src.rest) else Short
  {
    var w := width;
    while w > BUF
      invariant w > 0 && SkipChars(src.rest, w) == SkipChars(old(src.rest), width)
      decreases w
    {
      var got := src.Getb(BUF);
      if |got| == 0 {
        return false;
      }
      w := w - BUF;
    }
    var got := src.Getb(w);
    ok := |got| != 0;
  }

  /** The loop over the characters of an integer.  The buffer has room for its 15 characters and the
      terminator. */
  method ReadInteger(src: StringSource, ch: char, width: nat, base: nat, flags: Flags) returns (n: Integer)
    requires width <= BUF - 1
    modifies src
    ensures n == ScanInteger(old(src.With(false, ch)), width, base, flags, "") && n.src.rest == src.rest
  {
    hide Judge;
    var buf := new char[BUF];
    var cp, w, b, f, c, ready := 0, width, base, flags, ch, false;
    assert buf[..0] == "";
    while w > 0
      invariant !ready && cp + w == width
      invariant
        ScanInteger(src.With(false, c), w, b, f, buf[..cp])
          == ScanInteger(old(src.With(false, ch)), width, base, flags, "")
      decreases w
    {
      var v := Judge(c, b, f);
      if v.Drop? {
        break;
      }
      if v.Wait? {
        ready := true;
        break;
      }
      b, f := v.base, v.flags;
      ghost var t := buf[..cp];
      buf[cp] := c;
      cp := cp + 1;
      assert buf[..cp] == t + [c];
      if w > 1 {
        var ok;
        ok, c := src.GetChar(c);
        if !ok {
          w := 0;
          break;
        }
      }
      w := w - 1;
    }
    n := Integer(buf[..cp], Source(src.rest, ready, c), b, f);
    buf[cp] := 0 as char;
  }

  /** A literal character of the format. */
  method MatchLiteral(src: StringSource, cf: char, fmt: string, s: Scan) returns (o: Outcome)
    requires s.src.rest == src.rest
    modifies src
    ensures o == Literal(cf, fmt, s) && (o.Continue? ==> o.scan.src.rest == src.rest)
  {
    var ch := s.src.ch;
    if !s.src.ready {
      var ok;
      ok, ch := src.GetChar(ch);
      if !ok {
        return Return(if s.ccnt != 0 then s.acnt else EOF, s.out);
      }
    }
    if ch != cf {
      return Return(s.acnt, s.out);
    }
    return Continue(fmt, s.(src := Source(src.rest, false, ch)));
  }

  method ConvertChars(src: StringSource, fmt: string, m: Mods, s: Scan) returns (o: Outcome)
    requires s.src.rest == src.rest
    modifies src
    ensures o == CharConversion(fmt, m, s) && (o.Continue? ==> o.scan.src.rest == src.rest)
  {
    var width := if m.width == 0 then 1 else m.width;
    var ended := Return(if s.ccnt != 0 then s.acnt else EOF, s.out);
    var acnt, out := s.acnt, s.out;
    if m.suppress {
      if !s.src.ready {
        var ok := DropChars(src, width);
        if !ok {
          return ended;
        }
      }
    } else {
      if !s.src.ready {
        var got := src.Getb(width);
        if |got| == 0 {
          return ended;
        }
        out := out + [Chars(got)];
      }
      acnt := Inc8(acnt);
    }
    return Continue(fmt, Scan(Source(src.rest, false, s.src.ch), Inc8(s.ccnt), acnt, out));
  }

  method ConvertInteger(src: StringSource, fmt: string, cf: char, m: Mods, s: Scan) returns (o: Outcome)
    requires s.src.rest == src.rest && !s.src.ready
    modifies src
    ensures o == IntConversion(fmt, cf, m, s) && (o.Continue? ==> o.scan.src.rest == src.rest)
  {
    hide ScanInteger, Strtol;
    ScanBase(s.src, IntWidth(m.width), BaseOf(cf), Start(cf), "");
    var n := ReadInteger(src, s.src.ch, IntWidth(m.width), BaseOf(cf), Start(cf));
    if n.flags.noDigits {
      return Return(s.acnt, s.out);
    }
    var acnt, out := s.acnt, s.out;
    if !m.suppress {
      acnt, out := Inc8(acnt), out + [Number(Size(m), LowBits(Strtol(n.text, n.base), Size(m)))];
    }
    return Continue(fmt, Scan(n.src, Inc8(s.ccnt), acnt, out));
  }

  /** A conversion specification behind its percent sign. */
  method Convert(src: StringSource, fmt: string, s: Scan) returns (o: Outcome)
    requires s.src.rest == src.rest
    modifies src
    ensures o == Directive(fmt, s) && (o.Continue? ==> o.scan.src.rest == src.rest)
  {
    hide CharConversion, IntConversion, Word, SkipToText, Modifiers;
    if fmt != "" && fmt[0] == '%' {
      o := MatchLiteral(src, '%', fmt[1..], s);
      return;
    }
    var m, rest := ReadModifiers(fmt);
    if rest == "" {
      return Return(EOF, s.out);
    }
    if rest[0] == 'c' {
      o := ConvertChars(src, rest[1..], m, s);
      return;
    }
    var ok, ch := true, s.src.ch;
    if !s.src.ready {
      ok, ch := src.GetChar(ch);
    }
    if ok {
      ok, ch := SkipSpace(src, ch);
    }
    if !ok {
      return Return(if s.ccnt != 0 then s.acnt else EOF, s.out);
    }
    var s1 := s.(src := Source(src.rest, false, ch));
    if rest[0] == 's' {
      var text;
      text, ch := ReadWord(src, ch, if m.width == 0 then 0xFFFF else m.width);
      var acnt, out := s.acnt, s.out;
      if !m.suppress {
        acnt, out := Inc8(acnt), out + [Chars(text)];
      }
      o := Continue(rest[1..], Scan(Source(src.rest, false, ch), Inc8(s.ccnt), acnt, out));
    } else {
      o := ConvertInteger(src, rest[1..], rest[0], m, s1);
    }
  }

  /** _getf and vsscanf */
  method Vsscanf(text: string, fmt: string) returns (ret: int, out: seq<Stored>)
    ensures (ret, out) == Sscanf(text, fmt)
  {
    hide Directive, Literal, SkipSpaces;
    var src := new StringSource(text);
    var f, s := fmt, Begin(text);
    while f != ""
      invariant s.src.rest == src.rest && Run(f, s) == Run(fmt, Begin(text))
      decreases |f|
    {
      var o;
      if IsSpace(f[0]) {
        var ready, ch := MatchSpace(src, s.src.ready, s.src.ch);
        o := Continue(f[1..], s.(src := Source(src.rest, ready, ch)));
      } else if f[0] != '%' {
        o := MatchLiteral(src, f[0], f[1..], s);
      } else {
        o := Convert(src, f[1..], s);
      }
      assert o == Step(f, s);
      if o.Return? {
        return o.ret, o.out;
      }
      f, s := o.fmt, o.scan;
    }
    return s.acnt, s.out;
  }
}

/** What formatted output has printed, formatted input reads back (crt/putf.c and crt/getf.c, on the
    strings of crt/vsprintf.c and crt/vsscanf.c). */
module RoundTrip {
  import opened Numeral
  import P = Putf
  import G = Getf

  /** A signed 32-bit number. */
  type Long = v: int | -LONG_MAX - 1 <= v <= LONG_MAX witness 0

  function Word(v: Long): P.Bits {
    if v < 0 then v + TWO_32 else v
  }

  // ----- A list of numbers

  /** The conversion of an int, or of a long. */
  function Decimals(long: bool): string {
    if long then "%ld" else "%d"
  }

  /** "%d" or "%ld" as often as there are numbers, with a separator in between. */
  function ListFormat(long: bool, sep: char, n: nat): string {
    if n == 0 then "" else if n == 1 then Decimals(long) else Decimals(long) + ([sep] + ListFormat(long, sep, n - 1))
  }

  function Args(vs: seq<Long>): seq<P.Arg> {
    if vs == [] then [] else [P.Num(Word(vs[0]))] + Args(vs[1..])
  }

  function Numbers(vs: seq<Long>): (ns: seq<G.Stored>)
    ensures |ns| == |vs|
  {
    if vs == [] then [] else [G.Number(4, Word(vs[0]))] + Numbers(vs[1..])
  }

  function Join(sep: char, vs: seq<Long>): string {
    if vs == [] then "" else if |vs| == 1 then Decimal(vs[0]) else Decimal(vs[0]) + ([sep] + Join(sep, vs[1..]))
  }

  // ----- Printing

  lemma LongModifiers(long: bool, fmt: string, args: seq<P.Arg>)
    ensures
      var t := Decimals(long) + fmt;
      t[0] == '%' && P.Modifiers(t[1..], args, P.NO_MODS) == (P.NO_MODS, "d" + fmt, args)
  {
    assert ("%ld" + fmt)[1..] == "ld" + fmt && ("ld" + fmt)[1..] == "d" + fmt;
    assert ("%d" + fmt)[1..] == "d" + fmt;
  }

  lemma EmitPlain(f: P.Field)
    requires f.mods.width == 0 && f.dprec == -1 && !f.mods.ladjust
    ensures P.Emit(f) == f.mods.sign + f.body
  {
  }

  /** %ld prints the shortest decimal notation. */
  lemma FormatLong(long: bool, v: Long, fmt: string, args: seq<P.Arg>)
    ensures P.Format(Decimals(long) + fmt, [P.Num(Word(v))] + args) == Decimal(v) + P.Format(fmt, args)
  {
    hide P.Emit, NumText;
    var ap := [P.Num(Word(v))] + args;
    assert ("d" + fmt)[1..] == fmt && P.Rest(ap) == args;
    LongModifiers(long, fmt, ap);
    var f := P.SignedField(P.NO_MODS, Word(v));
    EmitPlain(f);
    assert P.Signed(Word(v)) == v;
    assert f.mods.sign + f.body == Decimal(v);
    assert P.Convert('d', P.NO_MODS, ap) == (f, args);
  }

  lemma {:induction false} PrintedList(long: bool, sep: char, vs: seq<Long>)
    requires sep != '%'
    ensures P.Format(ListFormat(long, sep, |vs|), Args(vs)) == Join(sep, vs)
    decreases |vs|
  {
    hide P.Format;
    if vs == [] {
      FormatNothing([]);
    } else if |vs| == 1 {
      FormatLong(long, vs[0], "", []);
      FormatNothing([]);
      assert Decimals(long) + "" == Decimals(long) && Args(vs) == [P.Num(Word(vs[0]))] + [];
    } else {
      var fmt := ListFormat(long, sep, |vs| - 1);
      FormatLong(long, vs[0], [sep] + fmt, Args(vs[1..]));
      P.FormatLiteral([sep], fmt, Args(vs[1..]));
      PrintedList(long, sep, vs[1..]);
    }
  }

  lemma FormatNothing(args: seq<P.Arg>)
    ensures P.Format("", args) == ""
  {
  }

  // ----- Scanning

  /** Characters the scanner of integers does not leave in the input, whether or not they belong to the
      number. */
  predicate IntegerChar(c: char) {
    '0' <= c <= '9' || 'A' <= c <= 'F' || 'a' <= c <= 'f' || c in "+-xX"
  }

  lemma Judged(c: char, base: nat, f: G.Flags)
    ensures G.Judge(c, base, f).Wait? <==> !IntegerChar(c)
    ensures Base(base) && DigitValue(c) < base ==>
      var v := G.Judge(c, base, f);
      v.Take? && v.base == base && !v.flags.noDigits && (!f.pfxOk ==> !v.flags.pfxOk)
  {
  }

  /** A source that has just read the first character of a text. */
  function At(t: string): G.Source
    requires t != ""
  {
    G.Source(t[1..], false, t[0])
  }

  /** Digits are taken one after the other. */
  lemma {:induction false} ScanDigits(t: string, tail: string, width: nat, b: nat, f: G.Flags, acc: string)
    returns (f1: G.Flags)
    requires t != "" && Base(b) && Digits(t, b) && |t| < width
    ensures !f1.noDigits && (!f.pfxOk ==> !f1.pfxOk)
    ensures G.ScanInteger(At(t + tail), width, b, f, acc)
         == if tail == "" then G.Integer(acc + t, G.Source("", false, t[|t| - 1]), b, f1)
            else G.ScanInteger(At(tail), width - |t|, b, f1, acc + t)
    decreases |t|
  {
    hide G.Judge;
    var v := G.Judge(t[0], b, f);
    assert DigitValue(t[0]) < b;
    Judged(t[0], b, f);
    f1 := v.flags;
    assert (t + tail)[1..] == t[1..] + tail;
    if |t| > 1 {
      f1 := ScanDigits(t[1..], tail, width - 1, b, v.flags, acc + [t[0]]);
      assert acc + [t[0]] + t[1..] == acc + t;
      assert G.Next(At(t + tail)) == At(t[1..] + tail);
    } else {
      assert t == [t[0]] && t[1..] + tail == tail;
      if tail != "" {
        assert G.Next(At(t + tail)) == At(tail);
      }
    }
  }

  lemma DecimalDigits(n: nat)
    requires n < TWO_32
    ensures var t := NumText(n, 10, false); Digits(t, 10) && |t| <= 10 && (n != 0 ==> '1' <= t[0] <= '9')
  {
    hide NumText;
    var t := NumText(n, 10, false);
    NumTextValue(n, 10, false);
    NumTextFits(n, 10, false);
    LeadingZero(n, 10, false);
    assert DigitValue(t[0]) < 10;
  }

  /** A decimal number is taken whole, in base 10 or in a base to be found. */
  lemma ScanDecimal(v: Long, tail: string, base: nat) returns (f1: G.Flags)
    requires base == 0 || base == 10
    requires base == 0 ==> v != 0
    ensures !f1.noDigits && !f1.pfxOk && |Decimal(v)| <= 11
    ensures G.ScanInteger(At(Decimal(v) + tail), 15, base, G.Start('d'), "")
         == if tail == "" then G.Integer(Decimal(v), After(Decimal(v), ""), 10, f1)
            else G.ScanInteger(At(tail), 15 - |Decimal(v)|, 10, f1, Decimal(v))
  {
    hide G.ScanInteger, NumText, Digits;
    var n: nat := if v < 0 then 0 - v else v;
    var t := NumText(n, 10, false);
    DecimalDigits(n);
    if v < 0 {
      assert (Decimal(v) + tail)[1..] == t + tail;
      var f := ScanSign(t + tail, base);
      f1 := ScanMagnitude(t, tail, 14, base, f, "-");
    } else {
      f1 := ScanMagnitude(t, tail, 15, base, G.Start('d'), "");
      assert "" + t == t;
    }
  }

  lemma ScanMagnitude(t: string, tail: string, width: nat, base: nat, f: G.Flags, acc: string) returns (f1: G.Flags)
    requires t != "" && Digits(t, 10) && |t| < width && !f.pfxOk
    requires base == 10 || (base == 0 && '1' <= t[0] <= '9')
    ensures !f1.noDigits && !f1.pfxOk
    ensures G.ScanInteger(At(t + tail), width, base, f, acc)
         == if tail == "" then G.Integer(acc + t, After(t, ""), 10, f1)
            else G.ScanInteger(At(tail), width - |t|, 10, f1, acc + t)
  {
    hide G.ScanInteger, Digits;
    f1 := f;
    if base == 0 {
      f1 := ScanFirst(t + tail, width, f, acc);
    }
    f1 := ScanDigits(t, tail, width, 10, f1, acc);
  }

  lemma ScanSign(t: string, base: nat) returns (f: G.Flags)
    requires t != "" && (base == 0 || base == 10)
    ensures !f.pfxOk && G.ScanInteger(At("-" + t), 15, base, G.Start('d'), "") == G.ScanInteger(At(t), 14, base, f, "-")
  {
    assert ("-" + t)[1..] == t;
    f := G.Start('d').(signOk := false);
    assert G.Next(At("-" + t)) == At(t);
    assert "" + "-" == "-";
  }

  /** A first digit that is not 0 settles base 10. */
  lemma ScanFirst(t: string, width: nat, f: G.Flags, acc: string) returns (f1: G.Flags)
    requires t != "" && '1' <= t[0] <= '9' && width > 0
    ensures f1.pfxOk == f.pfxOk && G.ScanInteger(At(t), width, 0, f, acc) == G.ScanInteger(At(t), width, 10, f1, acc)
  {
    f1 := f;
  }

  /** The source behind a number. */
  function After(t: string, tail: string): G.Source
    requires t != ""
  {
    if tail == "" then G.Source("", false, t[|t| - 1]) else G.Source(tail[1..], true, tail[0])
  }

  lemma NotSpace(v: Long)
    ensures !G.IsSpace(Decimal(v)[0])
  {
    hide NumText;
    var n: nat := if v < 0 then 0 - v else v;
    NumTextValue(n, 10, false);
    assert DigitValue(NumText(n, 10, false)[0]) < 10;
  }

  lemma ScanModifiers(long: bool, fmt: string)
    ensures
      var t := Decimals(long) + fmt;
      t[0] == '%' && t[1] != '%' && ("d" + fmt)[1..] == fmt
      && G.Modifiers(t[1..], G.NO_MODS) == (G.Mods(0, false, long, 0), "d" + fmt)
  {
    assert ("%ld" + fmt)[1..] == "ld" + fmt && ("ld" + fmt)[1..] == "d" + fmt;
    assert ("%d" + fmt)[1..] == "d" + fmt && ("d" + fmt)[1..] == fmt;
  }

  /** Scanning "%d" or "%ld", without regard to where its first character comes from. */
  lemma DirectiveLong(long: bool, fmt: string, s: G.Scan, t: string)
    requires G.Available(s.src) && t != "" && G.Fetch(s.src) == At(t) && !G.IsSpace(t[0])
    ensures G.Step(Decimals(long) + fmt, s) == G.IntConversion(fmt, 'd', G.Mods(0, false, long, 0), s.(src := At(t)))
  {
    hide G.IntConversion, G.Fetch;
    ScanModifiers(long, fmt);
  }

  /** A printed number that is followed by nothing, or by a character that is none of an integer's, is
      read back, and that character waits. */
  lemma ScanLong(long: bool, v: Long, fmt: string, tail: string, s: G.Scan)
    requires tail == "" || !IntegerChar(tail[0])
    requires G.Available(s.src) && G.Fetch(s.src) == At(Decimal(v) + tail)
    ensures G.Step(Decimals(long) + fmt, s)
         == G.Continue(fmt,
           G.Scan(After(Decimal(v), tail), G.Inc8(s.ccnt), G.Inc8(s.acnt), s.out + [G.Number(4, Word(v))]))
  {
    hide G.Step, G.ScanInteger, G.Judge, Decimal, Strtol, G.Fetch;
    var t := Decimal(v);
    NotSpace(v);
    DirectiveLong(long, fmt, s, t + tail);
    var f := ScanDecimal(v, tail, 10);
    if tail != "" {
      ScanStops(tail, 15 - |t|, f, t);
    }
    StrtolDecimal(v);
  }

  lemma ScanStops(tail: string, width: nat, f: G.Flags, acc: string)
    requires tail != "" && !IntegerChar(tail[0]) && width > 0
    ensures G.ScanInteger(At(tail), width, 10, f, acc) == G.Integer(acc, G.Source(tail[1..], true, tail[0]), 10, f)
  {
    hide G.Judge;
    Judged(tail[0], 10, f);
  }

  /** Reading past the separator, in the format and in the input. */
  lemma SkipSeparator(sep: char, fmt: string, t: string, s: G.Scan) returns (src: G.Source)
    requires t != "" && !G.IsSpace(t[0]) && sep != '%' && s.src == G.Source(t, true, sep)
    ensures G.Available(src) && G.Fetch(src) == At(t)
    ensures G.Step([sep] + fmt, s) == G.Continue(fmt, s.(src := src))
  {
    assert ([sep] + fmt)[1..] == fmt;
    src := if G.IsSpace(sep) then G.Source(t[1..], true, t[0]) else G.Source(t, false, sep);
  }

  lemma JoinStart(sep: char, vs: seq<Long>)
    requires vs != []
    ensures Join(sep, vs) != "" && !G.IsSpace(Join(sep, vs)[0])
  {
    hide Decimal;
    NotSpace(vs[0]);
  }

  lemma RunOne(long: bool, v: Long, s: G.Scan)
    requires G.Available(s.src) && G.Fetch(s.src) == At(Decimal(v))
    ensures G.Run(Decimals(long), s) == (G.Inc8(s.acnt), s.out + [G.Number(4, Word(v))])
  {
    hide G.Step, Decimal, G.Fetch;
    assert Decimal(v) + "" == Decimal(v) && Decimals(long) + "" == Decimals(long);
    ScanLong(long, v, "", "", s);
    RunStep(Decimals(long), s);
  }

  /** The number and the separator in front of more. */
  lemma RunMore(long: bool, sep: char, v: Long, fmt: string, t: string, s: G.Scan) returns (s1: G.Scan)
    requires sep != '%' && !IntegerChar(sep) && t != "" && !G.IsSpace(t[0])
    requires G.Available(s.src) && G.Fetch(s.src) == At(Decimal(v) + ([sep] + t))
    ensures G.Available(s1.src) && G.Fetch(s1.src) == At(t)
    ensures s1.acnt == G.Inc8(s.acnt) && s1.out == s.out + [G.Number(4, Word(v))]
    ensures G.Run(Decimals(long) + ([sep] + fmt), s) == G.Run(fmt, s1)
  {
    hide G.Step, Decimal, G.Fetch, IntegerChar, G.Run;
    ScanLong(long, v, [sep] + fmt, [sep] + t, s);
    assert ([sep] + t)[1..] == t;
    s1 := G.Scan(G.Source(t, true, sep), G.Inc8(s.ccnt), G.Inc8(s.acnt), s.out + [G.Number(4, Word(v))]);
    RunStep(Decimals(long) + ([sep] + fmt), s);
    var src := SkipSeparator(sep, fmt, t, s1);
    RunStep([sep] + fmt, s1);
    s1 := s1.(src := src);
  }

  lemma {:induction false} RunList(long: bool, sep: char, vs: seq<Long>, s: G.Scan)
    requires sep != '%' && vs != [] && (|vs| <= 1 || !IntegerChar(sep)) && s.acnt < 256
    requires G.Available(s.src) && G.Fetch(s.src) == At(Join(sep, vs))
    ensures G.Run(ListFormat(long, sep, |vs|), s) == ((s.acnt + |vs|) % 256, s.out + Numbers(vs))
    decreases |vs|
  {
    hide G.Run, Decimal, G.Fetch, G.Available, IntegerChar, G.IsSpace, G.Inc8, ListFormat, Join, Numbers;
    CountOne(s.acnt, |vs| - 1);
    if |vs| == 1 {
      SingleList(long, sep, vs);
      RunOne(long, vs[0], s);
    } else {
      var rest := vs[1..];
      LongerList(long, sep, vs, s.out);
      JoinStart(sep, rest);
      var s1 := RunMore(long, sep, vs[0], ListFormat(long, sep, |rest|), Join(sep, rest), s);
      RunList(long, sep, rest, s1);
    }
  }

  lemma SingleList(long: bool, sep: char, vs: seq<Long>)
    requires |vs| == 1
    ensures ListFormat(long, sep, |vs|) == Decimals(long) && Join(sep, vs) == Decimal(vs[0])
    ensures Numbers(vs) == [G.Number(4, Word(vs[0]))]
  {
    hide Decimal;
  }

  lemma LongerList(long: bool, sep: char, vs: seq<Long>, out: seq<G.Stored>)
    requires |vs| > 1
    ensures ListFormat(long, sep, |vs|) == Decimals(long) + ([sep] + ListFormat(long, sep, |vs| - 1))
    ensures Join(sep, vs) == Decimal(vs[0]) + ([sep] + Join(sep, vs[1..]))
    ensures out + [G.Number(4, Word(vs[0]))] + Numbers(vs[1..]) == out + Numbers(vs)
  {
    hide Decimal;
  }

  lemma CountOne(n: nat, k: nat)
    ensures G.Inc8(n) < 256 && (G.Inc8(n) + k) % 256 == (n + 1 + k) % 256
  {
  }

  lemma RunStep(fmt: string, s: G.Scan)
    requires fmt != "" && G.Step(fmt, s).Continue?
    ensures G.Run(fmt, s) == G.Run(G.Step(fmt, s).fmt, G.Step(fmt, s).scan)
  {
    hide G.Step;
  }

  // ----- Separators that belong to integers

  /** Characters not yet used. */
  function Left(src: G.Source): nat {
    |src.rest| + if src.ready then 1 else 0
  }

  /** Every character taken is gone from the input; base 10 stays. */
  lemma {:induction false} ScanUses(src: G.Source, width: nat, f: G.Flags, acc: string)
    requires !src.ready && !f.pfxOk
    ensures
      var r := G.ScanInteger(src, width, 10, f, acc);
      r.base == 10 && Left(r.src) + |r.text| <= |src.rest| + 1 + |acc|
    ensures
      var r := G.ScanInteger(src, width, 10, f, acc);
      (|r.text| == |acc| ==> r.flags == f) && (!f.noDigits ==> !r.flags.noDigits)
    ensures width > 0 && IntegerChar(src.ch) ==> Left(G.ScanInteger(src, width, 10, f, acc).src) <= |src.rest|
    decreases width
  {
    var v := G.Judge(src.ch, 10, f);
    if width > 1 && v.Take? && src.rest != "" {
      ScanUses(G.Next(src), width - 1, v.flags, acc + [src.ch]);
    }
  }

  lemma {:induction false} SkipUses(src: G.Source)
    requires !src.ready && G.SkipToText(src).Found?
    ensures var r := G.SkipToText(src).src; !r.ready && |r.rest| <= |src.rest|
    decreases |src.rest|
  {
    if G.IsSpace(src.ch) {
      SkipUses(G.Next(src));
    }
  }

  /** A number read takes at least as many characters as it is printed with. */
  lemma LongUses(long: bool, fmt: string, s: G.Scan)
    requires G.Step(Decimals(long) + fmt, s).Continue?
    ensures var c := G.Step(Decimals(long) + fmt, s);
      c.fmt == fmt && |c.scan.out| == |s.out| + 1 && s.out <= c.scan.out
      && forall v: Long :: c.scan.out[|s.out|] == G.Number(4, Word(v)) ==>
        Left(c.scan.src) + |Decimal(v)| <= Left(s.src)
  {
    hide G.ScanInteger, Decimal, Strtol;
    ScanModifiers(long, fmt);
    var src := G.Fetch(s.src);
    SkipUses(src);
    var at := G.SkipToText(src).src;
    ScanUses(at, 15, G.Start('d'), "");
    StrtolShortest(G.ScanInteger(at, 15, 10, G.Start('d'), "").text);
  }

  lemma SeparatorUses(sep: char, fmt: string, s: G.Scan)
    requires IntegerChar(sep) && G.Step([sep] + fmt, s).Continue?
    ensures var c := G.Step([sep] + fmt, s); c.fmt == fmt && c.scan.out == s.out && Left(c.scan.src) == Left(s.src) - 1
  {
    assert ([sep] + fmt)[1..] == fmt;
  }

  lemma StepKeeps(fmt: string, s: G.Scan)
    requires fmt != ""
    ensures var o := G.Step(fmt, s); if o.Return? then o.out == s.out else s.out <= o.scan.out
  {
    hide G.ScanInteger, G.SkipToText, G.Word, G.SkipChars, G.SkipSpaces, Strtol;
  }

  /** What has been stored stays stored. */
  lemma {:induction false} RunKeeps(fmt: string, s: G.Scan)
    ensures s.out <= G.Run(fmt, s).1
    decreases |fmt|
  {
    hide G.Step;
    if fmt != "" {
      StepKeeps(fmt, s);
      var o := G.Step(fmt, s);
      if o.Continue? {
        RunKeeps(o.fmt, o.scan);
      }
    }
  }

  /** To read numbers with such a separator in between the input must be at least as long as they are
      when printed. */
  lemma {:induction false} ListNeeds(long: bool, sep: char, vs: seq<Long>, s: G.Scan)
    requires IntegerChar(sep) && vs != [] && G.Run(ListFormat(long, sep, |vs|), s).1 == s.out + Numbers(vs)
    ensures |Join(sep, vs)| <= Left(s.src)
    decreases |vs|
  {
    hide G.Step, Decimal, IntegerChar, G.Run, Left;
    var fmt := if |vs| == 1 then "" else [sep] + ListFormat(long, sep, |vs| - 1);
    assert Decimals(long) + "" == Decimals(long) && ListFormat(long, sep, |vs|) == Decimals(long) + fmt;
    var s1 := RunFirst(Decimals(long) + fmt, s, vs);
    LongUses(long, fmt, s);
    FirstStored(fmt, s1, s.out, vs);
    if |vs| > 1 {
      var s2 := RunFirst(fmt, s1, vs[1..]);
      SeparatorUses(sep, ListFormat(long, sep, |vs| - 1), s1);
      ListNeeds(long, sep, vs[1..], s2);
    }
  }

  /** A run that stores something more goes on behind its first part. */
  lemma RunFirst(fmt: string, s: G.Scan, vs: seq<Long>) returns (s1: G.Scan)
    requires fmt != "" && vs != [] && G.Run(fmt, s).1 == s.out + Numbers(vs)
    ensures G.Step(fmt, s).Continue? && s1 == G.Step(fmt, s).scan && G.Run(G.Step(fmt, s).fmt, s1) == G.Run(fmt, s)
  {
    hide G.Step;
    StepKeeps(fmt, s);
    s1 := G.Step(fmt, s).scan;
  }

  lemma FirstStored(fmt: string, s1: G.Scan, out: seq<G.Stored>, vs: seq<Long>)
    requires vs != [] && |s1.out| == |out| + 1 && out <= s1.out && G.Run(fmt, s1).1 == out + Numbers(vs)
    ensures s1.out == out + [G.Number(4, Word(vs[0]))]
    ensures G.Run(fmt, s1).1 == s1.out + Numbers(vs[1..])
  {
    hide G.Run;
    RunKeeps(fmt, s1);
    assert s1.out[|out|] == (out + Numbers(vs))[|out|];
  }

  /** The separator, or more, is gone after the number in front of it. */
  lemma FirstLoses(long: bool, sep: char, v: Long, fmt: string, t: string, s: G.Scan)
    requires IntegerChar(sep) && G.Available(s.src) && G.Fetch(s.src) == At(Decimal(v) + ([sep] + t))
    ensures G.Step(Decimals(long) + fmt, s).Continue? && Left(G.Step(Decimals(long) + fmt, s).scan.src) <= |t|
  {
    hide G.ScanInteger, G.Step, Decimal, Strtol, G.Judge, G.Fetch, IntegerChar;
    NotSpace(v);
    DirectiveLong(long, fmt, s, Decimal(v) + ([sep] + t));
    var f := ScanDecimal(v, [sep] + t, 10);
    assert ([sep] + t)[1..] == t;
    ScanUses(At([sep] + t), 15 - |Decimal(v)|, f, Decimal(v));
  }

  lemma ListLost(long: bool, sep: char, vs: seq<Long>)
    requires IntegerChar(sep) && |vs| > 1
    ensures G.Sscanf(Join(sep, vs), ListFormat(long, sep, |vs|)).1 != Numbers(vs)
  {
    hide G.Run, G.Step, Decimal, IntegerChar, Left;
    var s := G.Begin(Join(sep, vs));
    if G.Run(ListFormat(long, sep, |vs|), s).1 == Numbers(vs) {
      var fmt := [sep] + ListFormat(long, sep, |vs| - 1);
      assert s.out + Numbers(vs) == Numbers(vs);
      var s1 := RunFirst(Decimals(long) + fmt, s, vs);
      LongUses(long, fmt, s);
      FirstStored(fmt, s1, s.out, vs);
      FirstLoses(long, sep, vs[0], fmt, Join(sep, vs[1..]), s);
      var s2 := RunFirst(fmt, s1, vs[1..]);
      SeparatorUses(sep, ListFormat(long, sep, |vs| - 1), s1);
      ListNeeds(long, sep, vs[1..], s2);
    }
  }

  lemma ListFound(long: bool, sep: char, vs: seq<Long>)
    requires sep != '%' && (|vs| <= 1 || !IntegerChar(sep))
    ensures G.Sscanf(Join(sep, vs), ListFormat(long, sep, |vs|)) == (|vs| % 256, Numbers(vs))
  {
    hide G.Run, IntegerChar, Decimal;
    if vs == [] {
      RunNothing(G.Begin(""));
    } else {
      JoinStart(sep, vs);
      RunList(long, sep, vs, G.Begin(Join(sep, vs)));
      assert [] + Numbers(vs) == Numbers(vs);
    }
  }

  lemma RunNothing(s: G.Scan)
    ensures G.Run("", s) == (s.acnt, s.out)
  {
  }

  /** Scanning a printed list with the format it was printed with yields its numbers if and only if there
      is at most one, or the separator is no character of an integer; the count returned is their number
      modulo 256. */
  lemma ListRoundTrip(long: bool, sep: char, vs: seq<Long>)
    requires sep != '%'
    ensures var fmt := ListFormat(long, sep, |vs|); var r := G.Sscanf(P.Format(fmt, Args(vs)), fmt);
      && (r.1 == Numbers(vs) <==> |vs| <= 1 || !IntegerChar(sep))
      && (r == (|vs|, Numbers(vs)) <==> |vs| <= 255 && (|vs| <= 1 || !IntegerChar(sep)))
  {
    hide G.Sscanf, IntegerChar, P.Format, Join, ListFormat, Numbers, Args;
    PrintedList(long, sep, vs);
    if |vs| <= 1 || !IntegerChar(sep) {
      ListFound(long, sep, vs);
    } else {
      ListLost(long, sep, vs);
    }
  }

  // ----- Finding the base

  /** A single conversion of the whole text. */
  lemma ScanWhole(t: string, n: G.Integer)
    requires t != "" && !G.IsSpace(t[0]) && n == G.ScanInteger(At(t), 15, 0, G.Start('i'), "")
    requires !n.flags.noDigits && Base(n.base)
    ensures G.Sscanf(t, "%li") == (1, [G.Number(4, G.LowBits(Strtol(n.text, n.base), 4))])
  {
    hide G.ScanInteger, Strtol;
    var m := G.Mods(0, false, true, 0);
    var s := G.Begin(t);
    assert "%li"[1..] == "li" && "li"[1..] == "i" && "i"[1..] == "";
    assert G.Modifiers("li", G.NO_MODS) == (m, "i");
    assert G.Fetch(s.src) == At(t) && G.SkipToText(At(t)) == G.Found(At(t));
    assert G.Step("%li", s) == G.IntConversion("", 'i', m, s.(src := At(t)));
    RunStep("%li", s);
    RunNothing(G.Step("%li", s).scan);
    var stored := G.Number(4, G.LowBits(Strtol(n.text, n.base), 4));
    assert [] + [stored] == [stored] && G.Step("%li", s).fmt == "";
  }

  lemma ZeroFound()
    ensures Decimal(0) == "0" && G.Sscanf("0", "%li") == (1, [G.Number(4, 0)])
  {
    hide G.Sscanf, Strtol, Value;
    LeadingZero(0, 10, false);
    var f := G.Flags(false, false, true, false);
    assert G.ScanInteger(At("0"), 15, 0, G.Start('i'), "") == G.Integer("0", G.Source("", false, '0'), 8, f);
    LeadingZero(0, 8, false);
    StrtolText(0, 8, false);
    ScanWhole("0", G.ScanInteger(At("0"), 15, 0, G.Start('i'), ""));
  }

  lemma {:induction false} ValueAfterZero(t: string, b: nat)
    requires Base(b)
    ensures Value("0" + t, b) == Value(t, b)
    decreases |t|
  {
    var z := "0" + t;
    if t == "" {
      assert z[..0] == "" && z[0] == '0';
    } else {
      assert z[..|z| - 1] == "0" + t[..|t| - 1];
      ValueAfterZero(t[..|t| - 1], b);
    }
  }

  function Cut(u: P.Bits): P.Bits {
    if u > LONG_MAX then LONG_MAX else u
  }

  /** strtol on the notations of formatted output. */
  lemma StrtolText(u: P.Bits, b: nat, upper: bool)
    requires Base(b)
    ensures var t := NumText(u, b, upper);
      && (b == 8 ==> Strtol(t, 8) == Strtol("0" + t, 8) == Cut(u))
      && (b == 16 ==> Strtol((if upper then "0X" else "0x") + t, 16) == Cut(u))
  {
    hide NumText, Value;
    var t := NumText(u, b, upper);
    NumTextValue(u, b, upper);
    AllDigits(t, b);
    assert DigitValue(t[0]) < b;
    if b == 8 {
      var z := "0" + t;
      AllDigits(z, b);
      ValueAfterZero(t, b);
    } else if b == 16 {
      var p := if upper then "0X" else "0x";
      assert (p + t)[2..] == t && (p + t)[0] == '0' && (p + t)[2] == t[0];
    }
  }

  /** The prefix 0 sets base 8. */
  lemma ScanOctal(u: P.Bits) returns (f: G.Flags)
    ensures !f.noDigits
    ensures
      var t := "0" + NumText(u, 8, false);
      G.ScanInteger(At(t), 15, 0, G.Start('i'), "") == G.Integer(t, After(t, ""), 8, f)
  {
    hide NumText;
    var t := NumText(u, 8, false);
    NumTextValue(u, 8, false);
    NumTextFits(u, 8, false);
    var f0 := G.Flags(false, false, true, false);
    ScanZero(t);
    f := ScanDigits(t, "", 14, 8, f0, "0");
    assert t + "" == t;
  }

  lemma ScanZero(t: string)
    requires t != ""
    ensures
      G.ScanInteger(At("0" + t), 15, 0, G.Start('i'), "")
        == G.ScanInteger(At(t), 14, 8, G.Flags(false, false, true, false), "0")
  {
    assert ("0" + t)[1..] == t && "" + "0" == "0" && G.Next(At("0" + t)) == At(t);
  }

  lemma ScanX(x: char, t: string)
    requires t != "" && (x == 'x' || x == 'X')
    ensures G.ScanInteger(At([x] + t), 14, 8, G.Flags(false, false, true, false), "0")
         == G.ScanInteger(At(t), 13, 16, G.Flags(false, false, false, false), "0" + [x])
  {
    assert ([x] + t)[1..] == t && G.Next(At([x] + t)) == At(t);
  }

  lemma Prefixed(x: char, t: string)
    requires t != "" && (x == 'x' || x == 'X')
    ensures "0" + ([x] + t) == "0" + [x] + t == (if x == 'X' then "0X" else "0x") + t
    ensures After("0" + [x] + t, "") == After(t, "")
  {
  }

  /** The prefix 0x sets base 16. */
  lemma ScanHex(u: P.Bits, upper: bool) returns (f: G.Flags)
    ensures !f.noDigits
    ensures
      var t := (if upper then "0X" else "0x") + NumText(u, 16, upper);
      G.ScanInteger(At(t), 15, 0, G.Start('i'), "") == G.Integer(t, After(t, ""), 16, f)
  {
    hide NumText, G.ScanInteger, Digits, Value;
    var t, x := NumText(u, 16, upper), if upper then 'X' else 'x';
    NumTextValue(u, 16, upper);
    NumTextFits(u, 16, upper);
    ScanZero([x] + t);
    ScanX(x, t);
    f := ScanDigits(t, "", 13, 16, G.Flags(false, false, false, false), "0" + [x]);
    assert t + "" == t;
    Prefixed(x, t);
  }

  lemma FormatAlternate(c: char, u: P.Bits)
    requires c in "oxX"
    ensures
      P.Format("%#l" + [c], [P.Num(u)]) ==
        if c == 'o' then P.OctalBody(u, P.NO_MODS.(alt := true)) else P.HexBody(u, true, c == 'X')
  {
    hide P.Emit, NumText, P.OctalBody, P.HexBody;
    var fmt, ap, m := "%#l" + [c], [P.Num(u)], P.NO_MODS.(alt := true);
    assert fmt[1..] == "#l" + [c] && ("#l" + [c])[1..] == "l" + [c] && ("l" + [c])[1..] == [c] && [c][1..] == "";
    assert P.Modifiers("l" + [c], ap, m) == (m, [c], ap);
    assert P.Modifiers("#l" + [c], ap, P.NO_MODS) == (m, [c], ap);
    var f := P.Convert(c, m, ap).0;
    EmitPlain(f);
    assert "" + f.body == f.body && f.body + "" == f.body;
    FormatNothing([]);
  }

  /** "%li" reads back the octal and hexadecimal notations if and only if the number is that of a positive
      long; others are cut to the largest one. */
  lemma AlternateFound(c: char, u: P.Bits)
    requires c in "oxX"
    ensures G.Sscanf(P.Format("%#l" + [c], [P.Num(u)]), "%li") == (1, [G.Number(4, Cut(u))])
    ensures G.Sscanf(P.Format("%#l" + [c], [P.Num(u)]), "%li") == (1, [G.Number(4, u)]) <==> u <= LONG_MAX
  {
    hide G.Sscanf, P.Format, NumText, G.ScanInteger, Strtol;
    FormatAlternate(c, u);
    var upper := c == 'X';
    var t := NumText(u, if c == 'o' then 8 else 16, upper);
    LeadingZero(u, 8, false);
    StrtolText(u, if c == 'o' then 8 else 16, upper);
    if c != 'o' {
      var f := ScanHex(u, upper);
      t := (if upper then "0X" else "0x") + t;
      ScanWhole(t, G.Integer(t, After(t, ""), 16, f));
    } else if u == 0 {
      ZeroFound();
    } else {
      var f := ScanOctal(u);
      t := "0" + t;
      ScanWhole(t, G.Integer(t, After(t, ""), 8, f));
    }
  }

  /** "%li" reads back every number printed with "%ld". */
  lemma DecimalFound(v: Long)
    ensures G.Sscanf(P.Format("%ld", [P.Num(Word(v))]), "%li") == (1, [G.Number(4, Word(v))])
  {
    hide G.Sscanf, P.Format, Decimal, G.ScanInteger, Strtol;
    FormatLong(true, v, "", []);
    FormatNothing([]);
    assert "%ld" + "" == "%ld" && [P.Num(Word(v))] + [] == [P.Num(Word(v))];
    var t := Decimal(v);
    assert t + "" == t && P.Format("%ld", [P.Num(Word(v))]) == t;
    NotSpace(v);
    if v == 0 {
      ZeroFound();
    } else {
      var f := ScanDecimal(v, "", 0);
      StrtolDecimal(v);
      ScanWhole(t, G.Integer(t, After(t, ""), 10, f));
    }
  }

  /** Zero in hexadecimal keeps its prefix, and its digit even with precision 0, other than in decimal. */
  lemma HexOfZero()
    ensures P.Format("%#lx", [P.Num(0)]) == "0x0"
    ensures P.Format("%.0x", [P.Num(0)]) == "0" && P.Format("%.0d", [P.Num(0)]) == ""
  {
    hide P.Emit, P.Format, NumText;
    LeadingZero(0, 16, false);
    FormatAlternate('x', 0);
    assert "%#l" + ['x'] == "%#lx" && P.HexBody(0, true, false) == "0x0" && P.HexBody(0, false, false) == "0";
    NoPrecision('x');
    NoPrecision('d');
    EmitNoPrecision("0");
    EmitNoPrecision("");
  }

  lemma NoPrecision(c: char)
    requires c == 'x' || c == 'd'
    ensures
      P.Format("%.0" + [c], [P.Num(0)])
        == P.Emit(P.Field(P.NO_MODS.(prec := 0), 0, if c == 'x' then P.HexBody(0, false, false) else ""))
    ensures "%.0" + [c] == if c == 'x' then "%.0x" else "%.0d"
  {
    hide P.Emit, P.HexBody;
    var fmt, ap, m := "%.0" + [c], [P.Num(0)], P.NO_MODS.(prec := 0);
    assert fmt[1..] == ".0" + [c] && (".0" + [c])[1..] == "0" + [c] && ("0" + [c])[1..] == [c] && [c][1..] == "";
    assert P.FormatNumber([c], 0) == (0, [c]);
    assert P.FormatNumber("0" + [c], 0) == (0, [c]);
    assert P.Modifiers([c], ap, m) == (m, [c], ap);
    assert P.Modifiers(".0" + [c], ap, P.NO_MODS) == (m, [c], ap);
    var f := P.Convert(c, m, ap).0;
    FormatNothing([]);
    assert P.Emit(f) + "" == P.Emit(f);
  }

  lemma EmitNoPrecision(body: string)
    ensures P.Emit(P.Field(P.NO_MODS.(prec := 0), 0, body)) == body
  {
  }
}

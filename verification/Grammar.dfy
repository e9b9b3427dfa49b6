/** Which characters formatted input takes for an integer (crt/getf.c), against a grammar. */
module Grammar {
  import opened Numeral
  import opened RoundTrip
  import opened SizeTrip
  import G = Getf

  predicate Sign(c: char) {
    c == '+' || c == '-'
  }

  predicate X(c: char) {
    c == 'x' || c == 'X'
  }

  /** A sign can come first; in base 16 an x can come in front of it. */
  predicate SignNext(base: nat, t: string) {
    t == "" || (base == 16 && |t| == 1 && X(t[0]))
  }

  /** A number without its sign. */
  function Unsigned(base: nat, t: string): string {
    if t != "" && Sign(t[0]) then t[1..]
    else if base == 16 && |t| >= 2 && X(t[0]) && Sign(t[1]) then [t[0]] + t[2..]
    else t
  }

  /** What can stand behind the sign: digits of the base.  In base 16 they may follow 0x or an x; in base 0 the first
      digit and an x behind it settle the base. */
  predicate Body(base: nat, u: string) {
    if base == 16 then
      Digits(if |u| >= 2 && u[0] == '0' && X(u[1]) then u[2..] else if u != "" && X(u[0]) then u[1..] else u, 16)
    else if base == 0 then
      || u == ""
      || ('1' <= u[0] <= '9' && Digits(u, 10))
      || (u[0] == '0' && (Digits(u, 8) || (|u| >= 2 && X(u[1]) && Digits(u[2..], 16))))
    else Digits(u, base)
  }

  /** The texts a number can start with. */
  predicate Wellformed(base: nat, t: string) {
    Body(base, Unsigned(base, t))
  }

  /** There is a digit in it. */
  predicate Number(t: string) {
    exists i :: 0 <= i < |t| && DigitValue(t[i]) < 16
  }

  // ----- The state of the scanner behind a text

  function BaseBehind(base: nat, u: string): nat {
    if base != 0 || u == "" then base
    else if u[0] != '0' then 10
    else if |u| >= 2 && X(u[1]) then 16
    else 8
  }

  /** A prefix may follow. */
  predicate PrefixBehind(base: nat, u: string) {
    (u == "0" && (base == 0 || base == 16)) || (u == "" && base == 16)
  }

  predicate Behind(base: nat, t: string, b: nat, f: G.Flags) {
    var u := Unsigned(base, t);
    && b == BaseBehind(base, u)
    && (f.signOk <==> SignNext(base, t))
    && (f.noDigits <==> !Number(t))
    && (f.pfxOk <==> PrefixBehind(base, u))
    && (u == "" ==> f.nzDigits)
    && (u == "0" ==> !f.nzDigits)
  }

  lemma NumberMore(t: string, c: char)
    ensures Number(t + [c]) <==> Number(t) || DigitValue(c) < 16
  {
    var t1 := t + [c];
    if Number(t) {
      var i :| 0 <= i < |t| && DigitValue(t[i]) < 16;
      assert t1[i] == t[i];
    }
    if DigitValue(c) < 16 {
      assert t1[|t|] == c;
    }
  }

  lemma UnsignedMore(base: nat, t: string, c: char)
    ensures Unsigned(base, t + [c]) ==
      if SignNext(base, t) && Sign(c) then Unsigned(base, t) else Unsigned(base, t) + [c]
  {
    var t1 := t + [c];
    if t == "" {
      assert t1 == [c] && t1[1..] == "" && "" + [c] == [c];
    } else {
      assert t1[0] == t[0] && t1[1..] == t[1..] + [c];
      if |t| == 1 {
        assert t == [t[0]] && t1[1] == c && t1[2..] == "" && [t[0]] + "" == t;
      } else {
        assert t1[1] == t[1] && t1[2..] == t[2..] + [c];
        assert [t[0]] + (t[2..] + [c]) == [t[0]] + t[2..] + [c];
      }
    }
  }

  lemma DigitsMore(u: string, c: char, b: nat)
    ensures Digits(u + [c], b) <==> Digits(u, b) && DigitValue(c) < b
  {
    var u1 := u + [c];
    if Digits(u1, b) {
      forall i | 0 <= i < |u| ensures DigitValue(u[i]) < b {
        assert u[i] == u1[i];
      }
      assert DigitValue(u1[|u|]) < b;
    }
  }

  /** The characters that can come next behind the sign. */
  predicate Goes(base: nat, u: string, c: char) {
    var d := DigitValue(c);
    if base == 16 then d < 16 || (X(c) && (u == "" || u == "0"))
    else if base == 0 then
      if u == "" || u[0] != '0' then d < 10
      else if |u| >= 2 && X(u[1]) then d < 16
      else d < 8 || (X(c) && u == "0")
    else d < base
  }

  lemma BodyMore(base: nat, u: string, c: char)
    requires (base == 0 || Base(base)) && Body(base, u)
    ensures Body(base, u + [c]) <==> Goes(base, u, c)
  {
    if base == 16 {
      BodyMore16(u, c);
    } else if base == 0 {
      BodyMore0(u, c);
    } else {
      DigitsMore(u, c, base);
    }
  }

  lemma Tails(u: string, c: char)
    ensures u != "" ==> (u + [c])[0] == u[0] && (u + [c])[1..] == u[1..] + [c]
    ensures |u| >= 2 ==> (u + [c])[1] == u[1] && (u + [c])[2..] == u[2..] + [c]
    ensures u == "" ==> u + [c] == [c] && (u + [c])[1..] == ""
    ensures |u| == 1 ==> u == [u[0]] && (u + [c])[1] == c && (u + [c])[2..] == ""
    ensures Digits("", 16)
  {
  }

  lemma BodyMore16(u: string, c: char)
    requires Body(16, u)
    ensures Body(16, u + [c]) <==> Goes(16, u, c)
  {
    hide Digits;
    Tails(u, c);
    DigitsMore(u, c, 16);
    if |u| >= 2 {
      DigitsMore(u[2..], c, 16);
    }
    if |u| >= 1 {
      DigitsMore(u[1..], c, 16);
    }
    NoXInDigits(u);
    NoXInDigits(u + [c]);
    DigitsMore("", c, 16);
    ZeroDigit();
  }

  lemma ZeroDigit()
    ensures Digits("0", 16) && Digits("0", 8) && DigitValue('0') == 0
  {
  }

  /** Digits have no x among them. */
  lemma NoXInDigits(u: string)
    ensures u != "" && Digits(u, 16) ==> !X(u[0])
    ensures |u| >= 2 && Digits(u, 16) ==> !X(u[1])
  {
    if |u| >= 2 && Digits(u, 16) {
      assert DigitValue(u[1]) < 16;
    }
  }

  lemma BodyMore0(u: string, c: char)
    requires Body(0, u)
    ensures Body(0, u + [c]) <==> Goes(0, u, c)
  {
    hide Digits;
    Tails(u, c);
    DigitsMore(u, c, 10);
    DigitsMore(u, c, 8);
    if |u| >= 2 {
      DigitsMore(u[2..], c, 16);
      OctalNoX(u);
    }
    OneMore(c);
    OctalNoX(u + [c]);
    ZeroDigit();
  }

  lemma OneMore(c: char)
    ensures Digits([c], 10) <==> DigitValue(c) < 10
    ensures Digits([c], 8) <==> DigitValue(c) < 8
    ensures DigitValue(c) < 10 <==> '0' <= c <= '9'
  {
    assert [c][0] == c;
  }

  lemma OctalNoX(u: string)
    ensures |u| >= 2 && Digits(u, 8) ==> !X(u[1])
  {
    if |u| >= 2 && Digits(u, 8) {
      assert DigitValue(u[1]) < 8;
    }
  }

  /** What is taken, in terms of what has been taken. */
  lemma JudgeTakes(base: nat, t: string, b: nat, f: G.Flags, c: char)
    requires (base == 0 || Base(base)) && Behind(base, t, b, f) && Body(base, Unsigned(base, t))
    ensures
      var v := G.Judge(c, b, f);
      && (v.Take? <==> (SignNext(base, t) && Sign(c)) || Goes(base, Unsigned(base, t), c))
      && (v.Wait? <==> !IntegerChar(c))
  {
    hide Body, Number;
    var u := Unsigned(base, t);
    assert u == "" || u[0] == '0' || u[0] != '0';
  }

  /** The state behind a character taken: the sign and the digits, the base, the prefix. */
  lemma SignState(base: nat, t: string, b: nat, f: G.Flags, c: char)
    requires (base == 0 || Base(base)) && Behind(base, t, b, f) && G.Judge(c, b, f).Take?
    ensures
      var g := G.Judge(c, b, f).flags;
      (g.signOk <==> SignNext(base, t + [c])) && (g.noDigits <==> !Number(t + [c]))
  {
    hide Number, BaseBehind;
    NumberMore(t, c);
    assert t == "" ==> t + [c] == [c];
    assert |t + [c]| == 1 ==> t == "";
    assert BaseBehind(base, "") == base by { BaseAtStart(base); }
  }

  lemma BaseAtStart(base: nat)
    ensures BaseBehind(base, "") == base
  {
  }

  lemma BaseState(base: nat, t: string, b: nat, f: G.Flags, c: char)
    requires (base == 0 || Base(base)) && Behind(base, t, b, f) && G.Judge(c, b, f).Take?
    ensures G.Judge(c, b, f).base == BaseBehind(base, Unsigned(base, t + [c]))
  {
    hide Number, Unsigned;
    UnsignedMore(base, t, c);
    Tails(Unsigned(base, t), c);
  }

  lemma PrefixState(base: nat, t: string, b: nat, f: G.Flags, c: char)
    requires (base == 0 || Base(base)) && Behind(base, t, b, f) && G.Judge(c, b, f).Take?
    ensures G.Judge(c, b, f).flags.pfxOk <==> PrefixBehind(base, Unsigned(base, t + [c]))
    ensures
      var g, u := G.Judge(c, b, f).flags, Unsigned(base, t + [c]);
      (u == "" ==> g.nzDigits) && (u == "0" ==> !g.nzDigits)
  {
    hide Number, Unsigned;
    UnsignedMore(base, t, c);
    var u := Unsigned(base, t);
    Tails(u, c);
    assert u + [c] == "0" <==> u == "" && c == '0';
  }

  /** A character is taken if and only if the text goes on to be well-formed; the state follows. */
  lemma TakenIff(base: nat, t: string, b: nat, f: G.Flags, c: char)
    requires base == 0 || Base(base)
    requires Wellformed(base, t) && Behind(base, t, b, f)
    ensures
      var v := G.Judge(c, b, f);
      && (v.Take? <==> Wellformed(base, t + [c]))
      && (v.Take? ==> Behind(base, t + [c], v.base, v.flags))
      && (v.Wait? <==> !IntegerChar(c))
  {
    hide Body, Behind, G.Judge, Goes;
    UnsignedMore(base, t, c);
    BodyMore(base, Unsigned(base, t), c);
    JudgeTakes(base, t, b, f, c);
    if G.Judge(c, b, f).Take? {
      SignState(base, t, b, f, c);
      BaseState(base, t, b, f, c);
      PrefixState(base, t, b, f, c);
      BehindAgain(base, t + [c], G.Judge(c, b, f));
    }
  }

  lemma BehindAgain(base: nat, t: string, v: G.Verdict)
    requires v.Take?
    requires v.base == BaseBehind(base, Unsigned(base, t)) && (v.flags.noDigits <==> !Number(t))
    requires v.flags.signOk <==> SignNext(base, t)
    requires v.flags.pfxOk <==> PrefixBehind(base, Unsigned(base, t))
    requires
      var u := Unsigned(base, t); (u == "" ==> v.flags.nzDigits) && (u == "0" ==> !v.flags.nzDigits)
    ensures Behind(base, t, v.base, v.flags)
  {
  }

  // ----- What is taken

  /** The source behind `k` characters taken: the next one has been read, too, unless the width or the text is used
      up; it waits if it is none of an integer's, and is lost otherwise. */
  function SourceBehind(t: string, k: nat, width: nat): G.Source
    requires t != "" && k <= |t| && k <= width && width > 0
  {
    if k == |t| then G.Source("", false, t[k - 1])
    else if k == width then G.Source(t[k..], false, t[k - 1])
    else G.Source(t[k + 1..], !IntegerChar(t[k]), t[k])
  }

  lemma {:induction false} ScanTakes(base: nat, acc: string, t: string, width: nat, b: nat, f: G.Flags) returns (k: nat)
    requires (base == 0 || Base(base)) && t != "" && width > 0
    requires Wellformed(base, acc) && Behind(base, acc, b, f)
    ensures k <= |t| && k <= width
    ensures
      var r := G.ScanInteger(At(t), width, b, f, acc);
      && r.text == acc + t[..k] && Wellformed(base, r.text)
      && (k < |t| && k < width ==> !Wellformed(base, r.text + [t[k]]))
      && Behind(base, r.text, r.base, r.flags) && r.src == SourceBehind(t, k, width)
    decreases |t|
  {
    hide Wellformed, Behind, IntegerChar, G.Judge;
    TakenIff(base, acc, b, f, t[0]);
    var v := G.Judge(t[0], b, f);
    if v.Take? {
      if width == 1 || |t| == 1 {
        k := 1;
        assert t[..1] == [t[0]];
      } else {
        assert G.Next(At(t)) == At(t[1..]);
        var n := ScanTakes(base, acc + [t[0]], t[1..], width - 1, v.base, v.flags);
        k := n + 1;
        assert acc + [t[0]] + t[1..][..n] == acc + t[..k];
        SourceAgain(t, k, width);
      }
    } else {
      k := 0;
      assert acc + t[..0] == acc;
    }
  }

  lemma SourceAgain(t: string, k: nat, width: nat)
    requires |t| > 1 && width > 1 && 0 < k <= |t| && k <= width
    ensures SourceBehind(t[1..], k - 1, width - 1) == SourceBehind(t, k, width)
  {
    hide IntegerChar;
  }

  /** The integer conversions take the longest start of a text, within the width and 15 characters, that is
      well-formed in their base, and store it if and only if there is a digit in it. */
  lemma IntegerTaken(star: bool, width: nat, length: string, c: char, t: string) returns (k: nat)
    requires Length(length) && c in "diuoxX" && t != "" && !G.IsSpace(t[0])
    ensures
      var base := if c == 'o' then 8 else if c == 'x' || c == 'X' then 16 else if c == 'i' then 0 else 10;
      var most := if width == 0 || width > 15 then 15 else width;
      && k <= |t| && k <= most && Wellformed(base, t[..k])
      && (k < |t| && k < most ==> !Wellformed(base, t[..k + 1]))
      && (Number(t[..k]) ==> Base(BaseBehind(base, Unsigned(base, t[..k]))))
      && G.Sscanf(t, "%" + Conversion(star, width, length, c)) ==
        if !Number(t[..k]) || star then (0, [])
        else (1, [Held(length, Strtol(t[..k], BaseBehind(base, Unsigned(base, t[..k]))))])
  {
    hide G.Sscanf, G.ScanInteger, Conversion, Strtol, Wellformed, Number, Unsigned, BaseBehind, Held, Length;
    var most := if width == 0 || width > 15 then 15 else width;
    k := FromStart(c, t, most);
    if Number(t[..k]) {
      ScanOne(star, width, length, c, t);
    } else {
      ScanNone(star, width, length, c, t);
    }
  }

  lemma FromStart(c: char, t: string, most: nat) returns (k: nat)
    requires c in "diuoxX" && t != "" && most > 0
    ensures k <= |t| && k <= most && Wellformed(BaseFor(c), t[..k])
    ensures k < |t| && k < most ==> !Wellformed(BaseFor(c), t[..k + 1])
    ensures
      var n := G.ScanInteger(At(t), most, BaseFor(c), G.Flags(true, true, c == 'x' || c == 'X', true), "");
      && n.text == t[..k] && (n.flags.noDigits <==> !Number(t[..k]))
      && n.base == BaseBehind(BaseFor(c), Unsigned(BaseFor(c), t[..k]))
      && (Number(t[..k]) ==> Base(n.base))
  {
    hide G.ScanInteger, Wellformed, Number, Unsigned, BaseBehind, SourceBehind;
    var base := BaseFor(c);
    StartState(base);
    k := ScanTakes(base, "", t, most, base, G.Flags(true, true, base == 16, true));
    assert "" + t[..k] == t[..k] && (k < |t| ==> t[..k] + [t[k]] == t[..k + 1]);
    G.ScanBase(At(t), most, base, G.Flags(true, true, base == 16, true), "");
  }

  lemma StartState(base: nat)
    ensures Wellformed(base, "") && Behind(base, "", base, G.Flags(true, true, base == 16, true))
  {
  }

  /** An x without a 0 in front of it makes the number 0. */
  lemma BareX(x: char, t: string)
    requires X(x)
    ensures Strtol([x] + t, 16) == 0
  {
    var u := [x] + t;
    assert u[0] == x && DigitValue(x) == 16;
    assert AfterPrefix(u, 16) == u && DigitPrefix(u, 16) == "";
    NoDigits();
    assert Value("", 16) == 0;
  }
}

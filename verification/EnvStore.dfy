/** The environment in non-volatile memory: the encoding of save_env (crt/setenv.c) and the two-pass
    decoding of findenv (crt/environ.c). */
module EnvStore {
  import opened NvMem
  import opened EnvModel

  const ENVIRON_EE_OFFSET := 256
  const MAX_ENVIRON_ITEM_SIZE := 64
  /** 0x00564E45 as a little-endian word. */
  const MAGIC: seq<byte> := [0x45, 0x4E, 0x56, 0x00]

  // ----- Encoding

  /** Names and values in turn, each with its terminator; an empty name ends the list. */
  function Encode(l: seq<Entry>): (e: seq<byte>)
    ensures |e| > 0
  {
    if l == [] then [0] else l[0].name + [0] + l[0].value + [0] + Encode(l[1..])
  }

  function Image(l: seq<Entry>): seq<byte> {
    MAGIC + Encode(l)
  }

  predicate Fits(nv: seq<byte>, l: seq<Entry>) {
    ENVIRON_EE_OFFSET + |Image(l)| <= |nv|
  }

  /** The memory after saving a list. */
  function Saved(nv: seq<byte>, l: seq<Entry>): (nv': seq<byte>)
    requires Fits(nv, l)
    ensures |nv'| == |nv|
  {
    Overwrite(nv, ENVIRON_EE_OFFSET, Image(l))
  }

  // ----- Decoding

  /** A string read: its length as reported, the address behind it and the characters read. */
  datatype Read = Read(len: nat, addr: nat, text: Text)

  /** read_string with `rc` characters read so far.  It gives up after `siz` + 1 characters, and reports
      length 0 when the memory cannot be read. */
  function ReadFrom(nv: seq<byte>, addr: nat, siz: nat, rc: nat): (r: Read)
    ensures addr <= |nv| ==> r.addr <= |nv|
    ensures r.addr >= addr && (r.len > rc ==> r.addr > addr)
    decreases if rc > siz then 0 else siz + 1 - rc
  {
    if rc > siz then Read(rc, addr, [])
    else if addr >= |nv| then Read(0, addr, [])
    else if nv[addr] == 0 then Read(rc, addr + 1, [])
    else
      var r := ReadFrom(nv, addr + 1, siz, rc + 1);
      Read(r.len, r.addr, [nv[addr]] + r.text)
  }

  function ReadString(nv: seq<byte>, addr: nat, siz: nat): Read {
    ReadFrom(nv, addr, siz, 0)
  }

  function Max(a: nat, b: nat): nat {
    if a < b then b else a
  }

  /** First pass: the length of the longest string, and where the pass ends. */
  function Measure(nv: seq<byte>, addr: nat, longest: nat): (nat, nat)
    requires addr <= |nv|
    decreases |nv| - addr
  {
    var n := ReadString(nv, addr, MAX_ENVIRON_ITEM_SIZE);
    if n.len == 0 then (longest, n.addr)
    else
      var v := ReadString(nv, n.addr, MAX_ENVIRON_ITEM_SIZE);
      Measure(nv, v.addr, Max(Max(longest, n.len), v.len))
  }

  /** Second pass: the variables, and where the pass ends. */
  function Decode(nv: seq<byte>, addr: nat, siz: nat): (seq<Entry>, nat)
    requires addr <= |nv|
    decreases |nv| - addr
  {
    var n := ReadString(nv, addr, siz);
    if n.len == 0 then ([], n.addr)
    else
      var v := ReadString(nv, n.addr, siz);
      var (rest, end) := Decode(nv, v.addr, siz);
      ([Entry(n.text, v.text)] + rest, end)
  }

  /** The list findenv builds when there is none. */
  function Load(nv: seq<byte>): seq<Entry> {
    var start := ENVIRON_EE_OFFSET + |MAGIC|;
    if start <= |nv| && nv[ENVIRON_EE_OFFSET..start] == MAGIC then
      var longest := Measure(nv, start, 0).0;
      if longest > 0 then Decode(nv, start, longest).0 else []
    else []
  }

  /** The second pass stays inside its memory: no string read is longer than the buffer of `siz` + 1 bytes takes,
      and no value is longer than the length reported, for which its copy is allocated. */
  predicate StaysInside(nv: seq<byte>, addr: nat, siz: nat)
    requires addr <= |nv|
    decreases |nv| - addr
  {
    var n := ReadString(nv, addr, siz);
    && |n.text| <= siz
    && (n.len > 0 ==>
      var v := ReadString(nv, n.addr, siz);
      |v.text| <= siz && |v.text| <= v.len && StaysInside(nv, v.addr, siz))
  }

  predicate LoadsInside(nv: seq<byte>) {
    var start := ENVIRON_EE_OFFSET + |MAGIC|;
    start <= |nv| && nv[ENVIRON_EE_OFFSET..start] == MAGIC ==>
      var longest := Measure(nv, start, 0).0;
      longest > 0 ==> StaysInside(nv, start, longest)
  }

  // ----- Round trip

  /** The first pass looks at one character more than its limit. */
  predicate Item(t: Text) {
    NoNul(t) && |t| <= MAX_ENVIRON_ITEM_SIZE + 1
  }

  predicate NoNuls(l: seq<Entry>) {
    forall i :: 0 <= i < |l| ==> NoNul(l[i].name) && NoNul(l[i].value)
  }

  predicate Items(l: seq<Entry>) {
    forall i :: 0 <= i < |l| ==> Item(l[i].name) && Item(l[i].value)
  }

  /** The variables before the first one without a name. */
  function Named(l: seq<Entry>): seq<Entry> {
    if l == [] || l[0].name == [] then [] else [l[0]] + Named(l[1..])
  }

  function Longest(l: seq<Entry>, m: nat): nat {
    if l == [] then m else Longest(l[1..], Max(Max(m, |l[0].name|), |l[0].value|))
  }

  /** `data` lies in the memory at `addr`. */
  predicate Holds(nv: seq<byte>, addr: nat, data: seq<byte>) {
    addr + |data| <= |nv| && nv[addr..addr + |data|] == data
  }

  lemma HoldsParts(nv: seq<byte>, addr: nat, a: seq<byte>, b: seq<byte>)
    requires Holds(nv, addr, a + b)
    ensures Holds(nv, addr, a) && Holds(nv, addr + |a|, b)
  {
    var s := nv[addr..addr + |a + b|];
    assert nv[addr..addr + |a|] == s[..|a|] == a;
    assert nv[addr + |a|..addr + |a| + |b|] == s[|a|..] == b;
  }

  lemma {:induction false} ReadItem(nv: seq<byte>, addr: nat, siz: nat, rc: nat, t: Text)
    requires NoNul(t) && rc + |t| <= siz && Holds(nv, addr, t + [0])
    ensures ReadFrom(nv, addr, siz, rc) == Read(rc + |t|, addr + |t| + 1, t)
    decreases |t|
  {
    HoldsParts(nv, addr, t, [0]);
    assert nv[addr + |t|..addr + |t| + 1][0] == 0;
    if t != [] {
      assert nv[addr] == nv[addr..addr + |t|][0] == t[0];
      assert t + [0] == [t[0]] + (t[1..] + [0]);
      HoldsParts(nv, addr, [t[0]], t[1..] + [0]);
      ReadItem(nv, addr + 1, siz, rc + 1, t[1..]);
      assert [t[0]] + t[1..] == t;
    }
  }

  /** The memory holds an encoded list: where its first name, first value and rest lie. */
  lemma EncodedParts(nv: seq<byte>, addr: nat, l: seq<Entry>)
    requires l != [] && Holds(nv, addr, Encode(l))
    ensures var v := addr + |l[0].name| + 1; var rest := v + |l[0].value| + 1;
      Holds(nv, addr, l[0].name + [0]) && Holds(nv, v, l[0].value + [0]) && Holds(nv, rest, Encode(l[1..]))
        && rest <= |nv|
  {
    hide Holds, Encode;
    var n, v := l[0].name + [0], l[0].value + [0];
    EncodeFirst(l);
    HoldsParts(nv, addr, n, v + Encode(l[1..]));
    HoldsParts(nv, addr + |n|, v, Encode(l[1..]));
    HoldsInside(nv, addr + |n| + |v|, Encode(l[1..]));
  }

  lemma EncodeFirst(l: seq<Entry>)
    requires l != []
    ensures Encode(l) == (l[0].name + [0]) + ((l[0].value + [0]) + Encode(l[1..]))
  {
    var a, b, c, d, e: seq<byte> := l[0].name, [0], l[0].value, [0], Encode(l[1..]);
    assert a + b + c + d + e == (a + b) + ((c + d) + e);
  }

  lemma HoldsInside(nv: seq<byte>, addr: nat, data: seq<byte>)
    requires Holds(nv, addr, data)
    ensures addr + |data| <= |nv|
  {
  }

  /** How many bytes the variables in front take up. */
  function Size(l: seq<Entry>): nat {
    if l == [] then 0 else |l[0].name| + 1 + |l[0].value| + 1 + Size(l[1..])
  }

  lemma {:induction false} EncodedAt(nv: seq<byte>, addr: nat, l: seq<Entry>, k: nat)
    requires Holds(nv, addr, Encode(l)) && k <= |l|
    ensures Holds(nv, addr + Size(l[..k]), Encode(l[k..]))
    decreases k
  {
    hide Holds, Encode;
    if k > 0 {
      EncodedParts(nv, addr, l);
      EncodedAt(nv, addr + |l[0].name| + 1 + |l[0].value| + 1, l[1..], k - 1);
      assert l[1..][k - 1..] == l[k..] && l[..k][1..] == l[1..][..k - 1];
    } else {
      assert l[0..] == l && l[..0] == [];
    }
  }

  /** What is stored, byte by byte: from address 256 on the magic word, from 260 on the variables in order, each
      with its name, a zero, its value and a zero, and a zero behind them. */
  lemma ImageLayout(nv: seq<byte>, l: seq<Entry>, k: nat)
    requires Fits(nv, l) && k < |l|
    ensures var m := Saved(nv, l); var at := 260 + Size(l[..k]);
      && |m| == |nv| >= 260 && m[256..260] == [0x45, 0x4E, 0x56, 0x00] && m[..256] == nv[..256]
      && var v := at + |l[k].name| + 1;
      && v + |l[k].value| + 1 <= |m|
      && m[at..v] == l[k].name + [0] && m[v..v + |l[k].value| + 1] == l[k].value + [0]
      && (k == |l| - 1 ==> v + |l[k].value| + 1 < |m| && m[v + |l[k].value| + 1] == 0)
  {
    hide Saved, Encode, Holds;
    var m, at := Saved(nv, l), 260 + Size(l[..k]);
    SavedHolds(nv, l);
    SavedFront(nv, l);
    EncodedAt(m, 260, l, k);
    EncodedParts(m, at, l[k..]);
    if k == |l| - 1 {
      EncodeEmpty();
      assert l[k..][1..] == [];
      var z := at + |l[k].name| + 1 + |l[k].value| + 1;
      HoldsZero(m, z);
    }
    HoldsSlice(m, at, l[k].name + [0]);
    HoldsSlice(m, at + |l[k].name| + 1, l[k].value + [0]);
  }

  lemma HoldsZero(nv: seq<byte>, addr: nat)
    requires Holds(nv, addr, [0])
    ensures addr < |nv| && nv[addr] == 0
  {
    assert nv[addr..addr + 1][0] == 0;
  }

  lemma HoldsSlice(nv: seq<byte>, addr: nat, data: seq<byte>)
    requires Holds(nv, addr, data)
    ensures addr + |data| <= |nv| && nv[addr..addr + |data|] == data
  {
  }

  lemma SavedFront(nv: seq<byte>, l: seq<Entry>)
    requires Fits(nv, l)
    ensures Saved(nv, l)[..256] == nv[..256]
  {
  }

  /** Without the magic word nothing is loaded, however short the memory is. */
  lemma NoMagic(nv: seq<byte>)
    requires |nv| < 260 || nv[256..260] != [0x45, 0x4E, 0x56, 0x00]
    ensures Load(nv) == [] && LoadsInside(nv)
  {
  }

  /** Where decoding ends: behind the terminator of the list, or of the first empty name. */
  function End(addr: nat, l: seq<Entry>): nat {
    addr + |Encode(Named(l))|
  }

  lemma ReadEnd(nv: seq<byte>, addr: nat, siz: nat)
    requires Holds(nv, addr, [0])
    ensures ReadString(nv, addr, siz) == Read(0, addr + 1, [])
  {
    assert nv[addr..addr + 1][0] == 0;
  }

  lemma EncodeStart(nv: seq<byte>, addr: nat, l: seq<Entry>)
    requires Holds(nv, addr, Encode(l)) && Named(l) == []
    ensures Holds(nv, addr, [0])
  {
    if l != [] {
      EncodedParts(nv, addr, l);
      assert l[0].name + [0] == [0];
    }
  }

  /** A string longer than the limit is cut behind one character more, and the rest is left to the next read. */
  lemma {:induction false} ReadLong(nv: seq<byte>, addr: nat, siz: nat, rc: nat, t: Text)
    requires NoNul(t) && rc + |t| > siz && rc <= siz + 1 && Holds(nv, addr, t)
    ensures ReadFrom(nv, addr, siz, rc) == Read(siz + 1, addr + siz + 1 - rc, t[..siz + 1 - rc])
    decreases |t|
  {
    if rc <= siz {
      assert nv[addr] == nv[addr..addr + |t|][0] == t[0];
      assert t == [t[0]] + t[1..];
      HoldsParts(nv, addr, [t[0]], t[1..]);
      ReadLong(nv, addr + 1, siz, rc + 1, t[1..]);
      assert [t[0]] + t[1..][..siz - rc] == t[..siz + 1 - rc];
    }
  }

  /** What any first pass finds. */
  lemma {:induction false} ReadAtMost(nv: seq<byte>, addr: nat, siz: nat, rc: nat)
    requires rc <= siz + 1
    ensures ReadFrom(nv, addr, siz, rc).len <= siz + 1
    decreases siz + 1 - rc
  {
    if rc <= siz {
      ReadAtMost(nv, addr + 1, siz, rc + 1);
    }
  }

  lemma {:induction false} MeasureBounds(nv: seq<byte>, addr: nat, m: nat)
    requires addr <= |nv| && m <= MAX_ENVIRON_ITEM_SIZE + 1
    ensures m <= Measure(nv, addr, m).0 <= MAX_ENVIRON_ITEM_SIZE + 1
    decreases |nv| - addr
  {
    hide ReadFrom;
    var n := ReadString(nv, addr, MAX_ENVIRON_ITEM_SIZE);
    ReadAtMost(nv, addr, MAX_ENVIRON_ITEM_SIZE, 0);
    if n.len > 0 {
      var v := ReadString(nv, n.addr, MAX_ENVIRON_ITEM_SIZE);
      ReadAtMost(nv, n.addr, MAX_ENVIRON_ITEM_SIZE, 0);
      MeasureBounds(nv, v.addr, Max(Max(m, n.len), v.len));
    }
  }

  function Cut(n: nat): nat {
    if n > MAX_ENVIRON_ITEM_SIZE then MAX_ENVIRON_ITEM_SIZE + 1 else n
  }

  /** The first pass over an encoded list finds the length of its longest string, cut one above the limit.  Once
      it has met a string above the limit it may be out of step, but finds nothing longer. */
  lemma {:induction false} MeasureEncoded(nv: seq<byte>, addr: nat, l: seq<Entry>, m: nat)
    requires addr <= |nv| && Holds(nv, addr, Encode(l)) && NoNuls(l) && m <= MAX_ENVIRON_ITEM_SIZE + 1
    ensures Measure(nv, addr, m).0 == Cut(Longest(Named(l), m))
    ensures Longest(Named(l), 0) <= MAX_ENVIRON_ITEM_SIZE ==> Measure(nv, addr, m).1 == End(addr, l)
    decreases |l|
  {
    hide ReadFrom, Holds, NoNul, Encode;
    if Named(l) == [] {
      EncodeStart(nv, addr, l);
      ReadEnd(nv, addr, MAX_ENVIRON_ITEM_SIZE);
      EncodeEmpty();
    } else {
      EncodedParts(nv, addr, l);
      EncodeNamed(l);
      var v := addr + |l[0].name| + 1;
      var rest := Named(l)[1..];
      var k := Max(Max(0, |l[0].name|), |l[0].value|);
      LongestGrows(rest, 0, k);
      LongestGrows(rest, Max(Max(m, |l[0].name|), |l[0].value|), Max(Max(m, |l[0].name|), |l[0].value|));
      MeasureStep(nv, addr, l[0].name, l[0].value, m);
      if |l[0].name| <= MAX_ENVIRON_ITEM_SIZE && |l[0].value| <= MAX_ENVIRON_ITEM_SIZE {
        MeasureEncoded(nv, v + |l[0].value| + 1, l[1..], Max(Max(m, |l[0].name|), |l[0].value|));
      }
    }
  }

  /** One round of the first pass. */
  lemma MeasureStep(nv: seq<byte>, addr: nat, name: Text, value: Text, m: nat)
    requires addr <= |nv| && name != [] && NoNul(name) && NoNul(value) && m <= MAX_ENVIRON_ITEM_SIZE + 1
    requires Holds(nv, addr, name + [0]) && Holds(nv, addr + |name| + 1, value + [0])
    ensures
      if |name| <= MAX_ENVIRON_ITEM_SIZE && |value| <= MAX_ENVIRON_ITEM_SIZE then
        var rest := addr + |name| + 1 + |value| + 1;
        rest <= |nv| && Measure(nv, addr, m) == Measure(nv, rest, Max(Max(m, |name|), |value|))
      else
        Measure(nv, addr, m).0 == MAX_ENVIRON_ITEM_SIZE + 1
  {
    hide ReadFrom, NoNul;
    if |name| > MAX_ENVIRON_ITEM_SIZE {
      HoldsParts(nv, addr, name, [0]);
      ReadLong(nv, addr, MAX_ENVIRON_ITEM_SIZE, 0, name);
    } else {
      ReadItem(nv, addr, MAX_ENVIRON_ITEM_SIZE, 0, name);
      if |value| > MAX_ENVIRON_ITEM_SIZE {
        HoldsParts(nv, addr + |name| + 1, value, [0]);
        ReadLong(nv, addr + |name| + 1, MAX_ENVIRON_ITEM_SIZE, 0, value);
      } else {
        ReadItem(nv, addr + |name| + 1, MAX_ENVIRON_ITEM_SIZE, 0, value);
      }
    }
    var n := ReadString(nv, addr, MAX_ENVIRON_ITEM_SIZE);
    var v := ReadString(nv, n.addr, MAX_ENVIRON_ITEM_SIZE);
    ReadAtMost(nv, n.addr, MAX_ENVIRON_ITEM_SIZE, 0);
    MeasureBounds(nv, v.addr, Max(Max(m, n.len), v.len));
  }

  lemma EncodeEmpty()
    ensures Encode([]) == [0]
  {
  }

  lemma EncodeNamed(l: seq<Entry>)
    requires Named(l) != []
    ensures Named(l)[0] == l[0] && Named(l)[1..] == Named(l[1..])
    ensures |Encode(Named(l))| == |l[0].name| + 1 + |l[0].value| + 1 + |Encode(Named(l[1..]))|
  {
    assert Named(l)[1..] == Named(l[1..]);
  }

  lemma {:induction false} LongestGrows(l: seq<Entry>, m: nat, k: nat)
    requires m <= k
    ensures m <= Longest(l, m) <= Longest(l, k)
    decreases |l|
  {
    if l != [] {
      LongestGrows(l[1..], Max(Max(m, |l[0].name|), |l[0].value|), Max(Max(k, |l[0].name|), |l[0].value|));
    }
  }

  lemma {:induction false} DecodeEncoded(nv: seq<byte>, addr: nat, l: seq<Entry>, siz: nat)
    requires addr <= |nv| && Holds(nv, addr, Encode(l)) && NoNuls(l) && Longest(Named(l), 0) <= siz
    ensures Decode(nv, addr, siz) == (Named(l), End(addr, l)) && StaysInside(nv, addr, siz)
    decreases |l|
  {
    hide ReadFrom, Holds, NoNul, Encode;
    if Named(l) == [] {
      EncodeStart(nv, addr, l);
      ReadEnd(nv, addr, siz);
      EncodeEmpty();
    } else {
      EncodedParts(nv, addr, l);
      EncodeNamed(l);
      var v := addr + |l[0].name| + 1;
      var k := Max(Max(0, |l[0].name|), |l[0].value|);
      LongestGrows(Named(l[1..]), 0, k);
      LongestGrows(Named(l[1..]), k, k);
      ReadItem(nv, addr, siz, 0, l[0].name);
      ReadItem(nv, v, siz, 0, l[0].value);
      DecodeEncoded(nv, v + |l[0].value| + 1, l[1..], siz);
    }
  }

  /** A string longer than the buffer takes is met in the end. */
  lemma {:induction false} DecodeOverruns(nv: seq<byte>, addr: nat, l: seq<Entry>, siz: nat)
    requires addr <= |nv| && Holds(nv, addr, Encode(l)) && NoNuls(l) && Longest(Named(l), 0) > siz
    ensures !StaysInside(nv, addr, siz)
    decreases |l|
  {
    hide ReadFrom, Holds, NoNul, Encode;
    EncodedParts(nv, addr, l);
    EncodeNamed(l);
    var v := addr + |l[0].name| + 1;
    HoldsParts(nv, addr, l[0].name, [0]);
    HoldsParts(nv, v, l[0].value, [0]);
    if |l[0].name| > siz {
      ReadLong(nv, addr, siz, 0, l[0].name);
    } else {
      ReadItem(nv, addr, siz, 0, l[0].name);
      if |l[0].value| > siz {
        ReadLong(nv, v, siz, 0, l[0].value);
      } else {
        ReadItem(nv, v, siz, 0, l[0].value);
        LongestOfRest(l[1..], Max(Max(0, |l[0].name|), |l[0].value|), siz);
        DecodeOverruns(nv, v + |l[0].value| + 1, l[1..], siz);
      }
    }
  }

  lemma {:induction false} LongestOfRest(l: seq<Entry>, m: nat, siz: nat)
    requires m <= siz && Longest(Named(l), m) > siz
    ensures Longest(Named(l), 0) > siz
  {
    LongestIsMax(Named(l), m);
  }

  lemma {:induction false} LongestIsMax(l: seq<Entry>, m: nat)
    ensures Longest(l, m) == Max(m, Longest(l, 0))
    decreases |l|
  {
    if l != [] {
      var k := Max(|l[0].name|, |l[0].value|);
      LongestIsMax(l[1..], Max(Max(m, |l[0].name|), |l[0].value|));
      LongestIsMax(l[1..], Max(Max(0, |l[0].name|), |l[0].value|));
    }
  }

  /** Every string has at most one character more than the first pass is told. */
  lemma {:induction false} LongestItems(l: seq<Entry>)
    ensures NoNuls(l) && Longest(l, 0) <= MAX_ENVIRON_ITEM_SIZE + 1 <==> Items(l)
    decreases |l|
  {
    if l != [] {
      var k := Max(Max(0, |l[0].name|), |l[0].value|);
      LongestIsMax(l[1..], k);
      LongestItems(l[1..]);
      assert l == [l[0]] + l[1..];
    }
  }

  lemma SavedHolds(nv: seq<byte>, l: seq<Entry>)
    requires Fits(nv, l)
    ensures var start := ENVIRON_EE_OFFSET + |MAGIC|;
      start <= |nv| && Saved(nv, l)[ENVIRON_EE_OFFSET..start] == MAGIC && Holds(Saved(nv, l), start, Encode(l))
  {
    OverwriteRead(nv, ENVIRON_EE_OFFSET, Image(l));
    HoldsParts(Saved(nv, l), ENVIRON_EE_OFFSET, MAGIC, Encode(l));
  }

  /** Loading what was saved, whatever the memory held before: it stays inside its buffer if and only if no string
      up to the first variable without a name has more than 65 characters, and then it yields these variables. */
  lemma LoadSaved(nv: seq<byte>, l: seq<Entry>)
    requires Fits(nv, l) && NoNuls(l)
    ensures LoadsInside(Saved(nv, l)) <==> Items(Named(l))
    ensures Items(Named(l)) ==> Load(Saved(nv, l)) == Named(l)
  {
    hide Saved, Encode, Measure, Decode, Holds, StaysInside, Items, NoNuls;
    var start := ENVIRON_EE_OFFSET + |MAGIC|;
    SavedHolds(nv, l);
    MeasureEncoded(Saved(nv, l), start, l, 0);
    NamedNoNuls(l);
    LongestItems(Named(l));
    if Named(l) == [] {
      assert Longest(Named(l), 0) == 0;
    } else {
      var k := Max(Max(0, |l[0].name|), |l[0].value|);
      LongestGrows(Named(l)[1..], k, k);
      if Items(Named(l)) {
        DecodeEncoded(Saved(nv, l), start, l, Longest(Named(l), 0));
      } else {
        DecodeOverruns(Saved(nv, l), start, l, MAX_ENVIRON_ITEM_SIZE + 1);
      }
    }
  }

  /** An instance: a value of 66 characters, stored with success, is written beyond the buffer at the next load. */
  lemma LongValueOverruns(nv: seq<byte>, value: Text)
    requires |value| == MAX_ENVIRON_ITEM_SIZE + 2 && NoNul(value) && Fits(nv, [Entry([65], value)])
    ensures !LoadsInside(Saved(nv, [Entry([65], value)]))
  {
    hide LoadsInside, Saved, NoNul, Load;
    var l := [Entry([65], value)];
    assert l[1..] == [] && Named(l) == l;
    assert NoNul([65]) by { OneNoNul(); }
    LoadSaved(nv, l);
    assert !Item(l[0].value);
  }

  lemma OneNoNul()
    ensures NoNul([65])
  {
  }

  lemma {:induction false} NamedNoNuls(l: seq<Entry>)
    requires NoNuls(l)
    ensures NoNuls(Named(l))
    decreases |l|
  {
    if l != [] && l[0].name != [] {
      NamedNoNuls(l[1..]);
    }
  }

  /** The round trip is exact, and safe, if and only if every variable has a name and no string has more than 65
      characters. */
  lemma RoundTripIff(nv: seq<byte>, l: seq<Entry>)
    requires Fits(nv, l) && NoNuls(l)
    ensures LoadsInside(Saved(nv, l)) && Load(Saved(nv, l)) == l
      <==> Items(l) && forall i :: 0 <= i < |l| ==> l[i].name != []
  {
    hide Load, LoadsInside, Saved, Items, Encode;
    LoadSaved(nv, l);
    NamedAll(l);
  }

  lemma {:induction false} NamedAll(l: seq<Entry>)
    ensures Named(l) == l <==> forall i :: 0 <= i < |l| ==> l[i].name != []
    decreases |l|
  {
    if l != [] && l[0].name != [] {
      NamedAll(l[1..]);
      if Named(l) == l {
        assert Named(l[1..]) == Named(l)[1..] == l[1..];
        forall i | 0 <= i < |l| ensures l[i].name != [] {
          if i > 0 { assert l[i] == l[1..][i - 1]; }
        }
      }
      if forall i :: 0 <= i < |l| ==> l[i].name != [] {
        assert [l[0]] + l[1..] == l;
      }
    }
  }

  /** Both decoding passes consume exactly the same bytes, if no string is above the limit. */
  lemma PassesAgree(nv: seq<byte>, l: seq<Entry>)
    requires Fits(nv, l) && NoNuls(l) && Longest(Named(l), 0) <= MAX_ENVIRON_ITEM_SIZE
    ensures var start := ENVIRON_EE_OFFSET + |MAGIC|; var nv1 := Saved(nv, l);
      start <= |nv1| && Measure(nv1, start, 0).1 == Decode(nv1, start, Measure(nv1, start, 0).0).1
  {
    hide Saved, Encode, Measure, Decode, Holds, NoNuls, StaysInside;
    var start := ENVIRON_EE_OFFSET + |MAGIC|;
    SavedHolds(nv, l);
    MeasureEncoded(Saved(nv, l), start, l, 0);
    DecodeEncoded(Saved(nv, l), start, l, Longest(Named(l), 0));
  }
}

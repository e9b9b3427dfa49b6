/** The GPIO cable driver of dev/jtag_gpio0.c: TMS bits are packed into a byte buffer and clocked out
    when the buffer is flushed. */
module JtagCable {

  const BUFFER_SIZE := 256

  type byte = b: nat | b < 256

  /** 1 << k */
  function Pow2(k: nat): (p: nat)
    ensures p > 0
  {
    if k == 0 then 1 else 2 * Pow2(k - 1)
  }

  /** The low `n` bits of a number, least significant first. */
  function Bits(b: nat, n: nat): (s: seq<bool>)
    ensures |s| == n
  {
    if n == 0 then [] else [b % 2 == 1] + Bits(b / 2, n - 1)
  }

  /** All bits of whole bytes, in order. */
  function AllBits(bytes: seq<byte>): (s: seq<bool>)
    ensures |s| == 8 * |bytes|
  {
    if bytes == [] then [] else AllBits(bytes[..|bytes| - 1]) + Bits(bytes[|bytes| - 1], 8)
  }

  /** Setting the first bit above the low `k` bits. */
  lemma {:induction false} SetBit(b: nat, k: nat, on: bool)
    requires b < Pow2(k)
    ensures Bits(if on then b + Pow2(k) else b, k + 1) == Bits(b, k) + [on]
    ensures (if on then b + Pow2(k) else b) < Pow2(k + 1)
  {
    if k > 0 {
      SetBit(b / 2, k - 1, on);
      hide Bits;
      assert Pow2(k) == 2 * Pow2(k - 1);
      var b' := if on then b + Pow2(k) else b;
      FirstBit(b', k + 1);
      FirstBit(b, k);
      assert b' / 2 == (if on then b / 2 + Pow2(k - 1) else b / 2) && b' % 2 == b % 2;
    }
  }

  lemma FirstBit(b: nat, n: nat)
    requires n > 0
    ensures Bits(b, n) == [b % 2 == 1] + Bits(b / 2, n - 1)
  {
  }

  /** Moving the lowest bit of `rest` on top of the low `k` bits of `b`. */
  lemma MoveBit(b: nat, k: nat, rest: nat, n: nat)
    requires b < Pow2(k) && k < 8 && n > 0
    ensures var b' := if rest % 2 == 1 then b + Pow2(k) else b;
      b' < Pow2(k + 1) <= 256 && Bits(b', k + 1) + Bits(rest / 2, n - 1) == Bits(b, k) + Bits(rest, n)
  {
    SetBit(b, k, rest % 2 == 1);
    Pow2Bound(k + 1);
    assert Bits(rest, n) == [rest % 2 == 1] + Bits(rest / 2, n - 1);
  }

  lemma Regroup(a: seq<bool>, b: seq<bool>, c: seq<bool>, b': seq<bool>, c': seq<bool>)
    requires b + c == b' + c'
    ensures a + b + c == a + b' + c'
  {
    assert a + b + c == a + (b + c);
    assert a + b' + c' == a + (b' + c');
  }

  lemma {:induction false} Pow2Bound(k: nat)
    requires k <= 8
    ensures Pow2(k) <= 256
    decreases 8 - k
  {
    if k < 8 {
      Pow2Bound(k + 1);
    }
  }

  /** TMS while `len` data bits are transferred. */
  function DataBits(len: nat, last: bool): seq<bool> {
    if len == 0 then [] else [len == 1 && last] + DataBits(len - 1, last)
  }

  /** A byte with one bit replaced. */
  function WithBit(b: nat, k: nat, on: bool): nat {
    if k == 0 then 2 * (b / 2) + (if on then 1 else 0) else b % 2 + 2 * WithBit(b / 2, k - 1, on)
  }

  lemma {:induction false} WithBitBits(b: nat, k: nat, on: bool, n: nat)
    requires k < n
    ensures Bits(WithBit(b, k, on), n) == Bits(b, n)[k := on]
    decreases k
  {
    if k > 0 {
      WithBitBits(b / 2, k - 1, on, n - 1);
    }
  }

  lemma {:induction false} WithBitBound(b: nat, k: nat, on: bool, n: nat)
    requires k < n && b < Pow2(n)
    ensures WithBit(b, k, on) < Pow2(n)
    decreases k
  {
    if k > 0 {
      WithBitBound(b / 2, k - 1, on, n - 1);
    }
  }

  lemma {:induction false} AllBitsAt(bytes: seq<byte>, j: nat)
    requires j < |bytes|
    ensures AllBits(bytes)[8 * j..8 * j + 8] == Bits(bytes[j], 8)
    decreases |bytes|
  {
    hide Bits;
    var rest := bytes[..|bytes| - 1];
    if j < |rest| {
      AllBitsAt(rest, j);
      assert AllBits(bytes)[8 * j..8 * j + 8] == AllBits(rest)[8 * j..8 * j + 8];
    }
  }

  /** The data of a transfer; without a buffer all bits are zero. */
  datatype Output = NoData | Bytes(bytes: seq<byte>) {
    predicate Covers(len: nat) {
      Bytes? ==> len <= 8 * |bytes|
    }

    function Byte(j: nat): byte
      requires Bytes? ==> j < |bytes|
    {
      if NoData? then 0 else bytes[j]
    }

    /** The first `n` bits, the bytes one after the other and least significant bits first. */
    function Data(n: nat): (d: seq<bool>)
      requires Covers(n)
      ensures |d| == n
    {
      if NoData? then seq(n, _ => false) else AllBits(bytes)[..n]
    }
  }

  lemma DataStep(w: Output, j: nat, m: nat)
    requires m <= 8 && w.Covers(8 * j + m) && (m > 0 && w.Bytes? ==> j < |w.bytes|)
    ensures w.Data(8 * j) + (if m == 0 then [] else Bits(w.Byte(j), 8)[..m]) == w.Data(8 * j + m)
  {
    hide Bits, AllBits;
    if m > 0 {
      if w.Bytes? {
        AllBitsAt(w.bytes, j);
        SliceTwice(AllBits(w.bytes), 8 * j, m);
      } else {
        ZeroBits();
        ZerosTwice(8 * j, m);
      }
    }
  }

  lemma ZerosTwice(k: nat, m: nat)
    requires m <= 8
    ensures seq(k, _ => false) + seq(8, _ => false)[..m] == seq(k + m, _ => false)
  {
  }

  lemma SliceTwice(bits: seq<bool>, k: nat, m: nat)
    requires k + 8 <= |bits| && m <= 8
    ensures bits[k..k + 8][..m] == bits[k..k + m] && bits[..k] + bits[k..k + m] == bits[..k + m]
  {
  }

  lemma ZeroBits()
    ensures Bits(0, 8) == seq(8, _ => false)
  {
    assert Bits(0, 4) == [false, false, false, false];
    assert Bits(0, 8) == [false, false, false, false] + Bits(0, 4);
  }

  /** How many bits of the buffer a queue of `n` bits takes up, in whole bytes. */
  function Padded(n: nat): (p: nat)
    ensures n <= p < n + 8 && p % 8 == 0
  {
    (n + 7) / 8 * 8
  }

  /** All bits of the buffer. */
  type Memory = m: seq<bool> | |m| == 8 * BUFFER_SIZE witness seq(8 * BUFFER_SIZE, _ => false)

  /** The buffer with a queue in it: zeros up to the end of the last byte, and behind it what was there. */
  function Filled(queue: seq<bool>, memory: Memory): Memory
    requires |queue| < 8 * BUFFER_SIZE
  {
    var used := Padded(|queue|);
    queue + seq(used - |queue|, _ => false) + memory[used..]
  }

  /** The bits a flush clocks beyond the queue: none, unless the queue ends on a byte boundary, where the byte
      behind it is clocked out as well. */
  function Stale(queue: seq<bool>, memory: Memory): (s: seq<bool>)
    requires |queue| < 8 * BUFFER_SIZE
    ensures |s| == if |queue| % 8 == 0 then 8 else 0
  {
    if |queue| % 8 == 0 then memory[|queue|..|queue| + 8] else []
  }

  /** Filling the buffer changes nothing behind the queue. */
  lemma StaleFilled(queue: seq<bool>, memory: Memory)
    requires |queue| < 8 * BUFFER_SIZE
    ensures Stale(queue, Filled(queue, memory)) == Stale(queue, memory)
  {
  }

  /** A longer queue covers what a shorter one has left. */
  lemma FilledTwice(queue: seq<bool>, longer: seq<bool>, memory: Memory)
    requires |queue| <= |longer| < 8 * BUFFER_SIZE
    ensures Filled(longer, Filled(queue, memory)) == Filled(longer, memory)
  {
  }

  /** Only zeros above the low `k` bits. */
  lemma {:induction false} HighBits(b: nat, k: nat, n: nat)
    requires b < Pow2(k) && k <= n
    ensures Bits(b, n) == Bits(b, k) + seq(n - k, _ => false)
    decreases n
  {
    if k > 0 {
      HighBits(b / 2, k - 1, n - 1);
    } else if n > 0 {
      HighBits(0, 0, n - 1);
    }
  }

  lemma {:induction false} AllBitsAppend(a: seq<byte>, b: seq<byte>)
    ensures AllBits(a + b) == AllBits(a) + AllBits(b)
    decreases |b|
  {
    hide Bits;
    if b == [] {
      assert a + b == a;
    } else {
      assert (a + b)[..|a + b| - 1] == a + b[..|b| - 1];
      AllBitsAppend(a, b[..|b| - 1]);
      assert AllBits(a + b) == AllBits(a) + AllBits(b[..|b| - 1]) + Bits(b[|b| - 1], 8);
    }
  }

  /** How many bytes of the buffer are in use. */
  function Used(bidx: nat, bbit: nat): nat {
    if bbit == 0 then bidx else bidx + 1
  }

  /** The queue in the buffer: whole bytes and the bits of the byte being filled. */
  ghost function QueueOf(buf: seq<byte>, bidx: nat, bbit: nat): (q: seq<bool>)
    requires bidx < |buf|
    ensures |q| == 8 * bidx + bbit
  {
    AllBits(buf[..bidx]) + (if bbit == 0 then [] else Bits(buf[bidx], bbit))
  }

  /** The bytes in use hold the queue and zeros. */
  lemma UsedBits(buf: seq<byte>, bidx: nat, bbit: nat)
    requires bidx < |buf| && bbit < 8 && (bbit > 0 ==> buf[bidx] < Pow2(bbit))
    ensures
      var queue, used := QueueOf(buf, bidx, bbit), Used(bidx, bbit);
      && Padded(|queue|) == 8 * used
      && AllBits(buf[..used]) == queue + seq(8 * used - |queue|, _ => false)
  {
    hide Bits, Pow2, AllBits;
    if bbit > 0 {
      assert buf[..bidx + 1] == buf[..bidx] + [buf[bidx]];
      AllBitsSnoc(buf[..bidx], buf[bidx]);
      HighBits(buf[bidx], bbit, 8);
    } else {
      assert QueueOf(buf, bidx, bbit) == AllBits(buf[..bidx]);
    }
  }

  lemma FilledSplit(queue: seq<bool>, used: seq<bool>, used0: seq<bool>, rest: seq<bool>, memory: Memory)
    requires |queue| < 8 * BUFFER_SIZE && |used| == |used0| == Padded(|queue|) && memory == used0 + rest
    requires used == queue + seq(Padded(|queue|) - |queue|, _ => false)
    ensures used + rest == Filled(queue, memory)
  {
    assert memory[|used0|..] == rest;
  }

  /** A buffer that differs from an earlier one only where the queue is. */
  lemma MemoryIs(buf0: seq<byte>, buf: seq<byte>, bidx: nat, bbit: nat)
    requires |buf0| == |buf| == BUFFER_SIZE && bidx < |buf| && bbit < 8 && (bbit > 0 ==> buf[bidx] < Pow2(bbit))
    requires buf[Used(bidx, bbit)..] == buf0[Used(bidx, bbit)..]
    ensures AllBits(buf) == Filled(QueueOf(buf, bidx, bbit), AllBits(buf0))
  {
    hide Bits, Pow2, AllBits, Filled, QueueOf;
    var used := Used(bidx, bbit);
    assert buf == buf[..used] + buf[used..] && buf0 == buf0[..used] + buf0[used..];
    AllBitsAppend(buf[..used], buf[used..]);
    AllBitsAppend(buf0[..used], buf0[used..]);
    UsedBits(buf, bidx, bbit);
    FilledSplit(QueueOf(buf, bidx, bbit), AllBits(buf[..used]), AllBits(buf0[..used]), AllBits(buf[used..]),
      AllBits(buf0));
  }

  /** The byte behind whole bytes. */
  lemma StaleIs(buf: seq<byte>, bidx: nat, bbit: nat)
    requires |buf| == BUFFER_SIZE && bidx < |buf| && bbit < 8
    ensures
      Stale(QueueOf(buf, bidx, bbit), AllBits(buf)) == if bbit == 0 then Bits(buf[bidx], 8) else []
  {
    hide Bits, AllBits, QueueOf;
    AllBitsAt(buf, bidx);
    assert |QueueOf(buf, bidx, bbit)| == 8 * bidx + bbit;
  }

  /** The buffer of a cable that has been opened. */
  const CLEAR: Memory := seq(8 * BUFFER_SIZE, _ => false)

  lemma {:induction false} ClearBits(n: nat)
    ensures AllBits(seq(n, _ => 0)) == seq(8 * n, _ => false)
  {
    if n > 0 {
      ClearBits(n - 1);
      ZeroBits();
      assert seq(n, _ => 0 as byte)[..n - 1] == seq(n - 1, _ => 0 as byte);
    }
  }

  class CableInfo {
    const buf: array<byte>
    var bidx: nat
    var bbit: nat
    /** The TMS level at every rising edge of TCK so far. */
    ghost var clocked: seq<bool>
    /** The TDI level at every rising edge of TCK of a data transfer. */
    ghost var sent: seq<bool>

    ghost predicate Valid()
      reads this, buf
    {
      && buf.Length == BUFFER_SIZE
      && bidx < BUFFER_SIZE && bbit < 8
      && (bbit > 0 ==> buf[bidx] < Pow2(bbit))
    }

    /** The bits waiting in the buffer. */
    ghost function Queued(): (s: seq<bool>)
      requires Valid()
      reads this, buf
      ensures |s| == 8 * bidx + bbit < 8 * BUFFER_SIZE
    {
      QueueOf(buf[..], bidx, bbit)
    }

    /** All bits of the buffer. */
    ghost function Memory(): Memory
      requires Valid()
      reads this, buf
    {
      AllBits(buf[..])
    }

    /** Everything the controller sees once the buffer is flushed. */
    ghost function Stream(): seq<bool>
      requires Valid()
      reads this, buf
    {
      clocked + Queued()
    }

    constructor ()
      ensures Valid() && fresh(buf) && clocked == [] && Queued() == [] && Memory() == CLEAR
    {
      ClearBits(BUFFER_SIZE);
      buf := new byte[BUFFER_SIZE](_ => 0);
      bidx, bbit, clocked, sent := 0, 0, [], [];
      new;
      assert buf[..] == seq(BUFFER_SIZE, _ => 0);
    }

    /** What the queue is while TmsPut has not stored the bit counter yet. */
    ghost function Pending(bit: nat): seq<bool>
      requires buf.Length == BUFFER_SIZE && bidx < BUFFER_SIZE && bit < 8
      reads this, buf
    {
      QueueOf(buf[..], bidx, bit)
    }

    /** The inner loop of TmsPut: moves bits from `tms` into the byte being filled. */
    static method FillByte(tms: byte, len: nat, cur0: byte, bit0: nat) returns (rest: byte, n: nat, cur: byte, bit: nat)
      requires bit0 < 8 && cur0 < Pow2(bit0)
      ensures bit <= 8 && bit + n == bit0 + len && (len > 0 ==> n < len)
      ensures cur < Pow2(bit) && (bit < 8 ==> n == 0)
      ensures Bits(cur, bit) + Bits(rest, n) == Bits(cur0, bit0) + Bits(tms, len)
    {
      hide Bits, Pow2;
      rest, n, cur, bit := tms, len, cur0, bit0;
      while n > 0 && bit < 8
        invariant bit <= 8 && n <= len && bit + n == bit0 + len
        invariant cur < Pow2(bit)
        invariant Bits(cur, bit) + Bits(rest, n) == Bits(cur0, bit0) + Bits(tms, len)
        decreases n
      {
        MoveBit(cur, bit, rest, n);
        if rest % 2 == 1 {
          cur := cur + Pow2(bit);
        }
        rest := rest / 2;
        bit := bit + 1;
        n := n - 1;
      }
    }

    /** Stores a filled byte and moves on if it is complete. */
    method StoreByte(cur: byte, bit0: nat) returns (bit: nat)
      requires buf.Length == BUFFER_SIZE && 0 < bit0 <= 8 && bidx + bit0 / 8 < BUFFER_SIZE
      requires cur < Pow2(bit0)
      modifies this`bidx, buf
      ensures bidx < BUFFER_SIZE && bit < 8 && 8 * bidx + bit == 8 * old(bidx) + bit0
      ensures bit > 0 ==> buf[bidx] < Pow2(bit)
      ensures Pending(bit) == old(AllBits(buf[..bidx])) + Bits(cur, bit0)
      ensures Used(bidx, bit) == old(bidx) + 1 && buf[old(bidx) + 1..] == old(buf[bidx + 1..])
    {
      hide Bits, Pow2;
      ghost var whole := buf[..bidx];
      buf[bidx] := cur;
      assert buf[..bidx] == whole == buf[..][..bidx];
      bit := bit0;
      if bit >= 8 {
        assert buf[..bidx + 1][..bidx] == whole && buf[..][..bidx + 1] == buf[..bidx + 1];
        bidx := bidx + 1;
        bit := 0;
      }
    }

    /** One round of TmsPut: as many bits as the current byte can take. */
    method PutByte(tms: byte, len: nat, bit0: nat) returns (rest: byte, n: nat, bit: nat)
      requires buf.Length == BUFFER_SIZE && bidx < BUFFER_SIZE && bit0 < 8 && 0 < len
      requires bit0 > 0 ==> buf[bidx] < Pow2(bit0)
      requires 8 * bidx + bit0 + len < 8 * BUFFER_SIZE
      modifies this`bidx, buf
      ensures bidx < BUFFER_SIZE && bit < 8 && n < len && 8 * bidx + bit + n == 8 * old(bidx) + bit0 + len
      ensures bit > 0 ==> buf[bidx] < Pow2(bit)
      ensures Pending(bit) + Bits(rest, n) == old(Pending(bit0)) + Bits(tms, len)
      ensures old(bidx) < Used(bidx, bit) && buf[Used(bidx, bit)..] == old(buf[..])[Used(bidx, bit)..]
    {
      hide AllBits;
      var cur := if bit0 > 0 then buf[bidx] else 0;
      ghost var whole := AllBits(buf[..bidx]);
      ghost var part := Bits(cur, bit0);
      assert buf[..][..bidx] == buf[..bidx];
      assert whole + part == Pending(bit0);
      rest, n, cur, bit := FillByte(tms, len, cur, bit0);
      Regroup(whole, part, Bits(tms, len), Bits(cur, bit), Bits(rest, n));
      bit := StoreByte(cur, bit);
    }

    /** Appends the low `len` bits of `tms` to the queue.  A buffer that fills up is not supported. */
    method TmsPut(tms: byte, len: nat)
      requires Valid() && len <= 8
      requires |Queued()| + len < 8 * BUFFER_SIZE
      modifies this`bidx, this`bbit, buf
      ensures Valid()
      ensures Queued() == old(Queued()) + Bits(tms, len)
      ensures Memory() == Filled(Queued(), old(Memory()))
    {
      hide Bits, AllBits, Pow2, Filled, QueueOf;
      ghost var buf0 := buf[..];
      var rest, n: nat, bit: nat := tms, len, bbit;
      while n > 0
        invariant bidx < BUFFER_SIZE && bit < 8
        invariant bit > 0 ==> buf[bidx] < Pow2(bit)
        invariant 8 * bidx + bit + n < 8 * BUFFER_SIZE
        invariant Pending(bit) + Bits(rest, n) == old(Queued()) + Bits(tms, len)
        invariant buf[Used(bidx, bit)..] == buf0[Used(bidx, bit)..]
        decreases n
      {
        rest, n, bit := PutByte(rest, n, bit);
      }
      bbit := bit;
      MemoryIs(buf0, buf[..], bidx, bbit);
    }

    /** Clocks the low `n` bits of a byte. */
    method ClockBits(cur: byte, n: nat)
      requires n <= 8
      modifies this`clocked
      ensures clocked == old(clocked) + Bits(cur, n)
    {
      var tms, j: nat := cur, n;
      while j > 0
        invariant j <= n && clocked + Bits(tms, j) == old(clocked) + Bits(cur, n)
      {
        clocked := clocked + [tms % 2 == 1];
        tms := tms / 2;
        j := j - 1;
      }
    }

    /** The bits a flush clocks beyond the queue. */
    ghost function Stray(): (s: seq<bool>)
      requires Valid()
      reads this, buf
    {
      Stale(Queued(), Memory())
    }

    method TmsFlush()
      requires Valid()
      modifies this`bidx, this`bbit, this`clocked
      ensures Valid() && Queued() == [] && Memory() == old(Memory())
      ensures clocked == old(Stream()) + old(Stray())
      ensures clocked == old(Stream()) <==> old(bbit) != 0
    {
      hide Bits;
      ghost var whole := AllBits(buf[..bidx]);
      StaleIs(buf[..], bidx, bbit);
      assert buf[..][..bidx] == buf[..bidx];
      ClockBytes(bidx + (if bbit == 0 then 1 else 0));
      if bbit != 0 {
        ClockBits(buf[bidx], bbit);
        bbit := 0;
      } else {
        assert buf[..bidx + 1][..bidx] == buf[..bidx];
      }
      assert clocked == old(clocked) + whole + Bits(buf[bidx], if old(bbit) == 0 then 8 else old(bbit));
      bidx := 0;
    }

    /** Clocks the first `n` bytes of the buffer. */
    method ClockBytes(n: nat)
      requires n <= buf.Length
      modifies this`clocked
      ensures clocked == old(clocked) + AllBits(buf[..n])
    {
      hide Bits;
      var i := 0;
      while i < n
        invariant 0 <= i <= n
        invariant clocked == old(clocked) + AllBits(buf[..i])
      {
        ClockBits(buf[i], 8);
        assert buf[..i + 1][..i] == buf[..i];
        i := i + 1;
      }
    }

    /** Activating the target reset line flushes first. */
    method TargetReset(on: bool)
      requires Valid()
      modifies this`bidx, this`bbit, this`clocked
      ensures Valid()
      ensures Memory() == old(Memory())
      ensures on ==> Queued() == [] && clocked == old(Stream()) + old(Stray())
      ensures !on ==> Queued() == old(Queued()) && clocked == old(clocked)
    {
      if on {
        TmsFlush();
      }
    }

    /** A data transfer, during which `tdo` is what TDO shows at the successive clocks.  TMS stays low, and
        goes high on the last bit of a last transfer; the data goes out on TDI, and TDO comes back in its
        place. */
    method TransferData(w: Output, tdo: seq<bool>, len: nat, last: bool) returns (rbuf: seq<byte>)
      requires Valid() && w.Covers(len) && |tdo| == len
      modifies this`bidx, this`bbit, this`clocked, this`sent
      ensures Valid() && Queued() == [] && Memory() == old(Memory())
      ensures clocked == old(Stream()) + old(Stray()) + DataBits(len, last)
      ensures sent == old(sent) + w.Data(len)
      ensures 8 * |rbuf| < len + 8 && len <= 8 * |rbuf| && AllBits(rbuf)[..len] == tdo
    {
      TmsFlush();
      rbuf := ClockData(w, tdo, len, last);
    }

    /** The loops of TransferData, eight bits of data to a byte. */
    method ClockData(w: Output, tdo: seq<bool>, len: nat, last: bool) returns (rbuf: seq<byte>)
      requires w.Covers(len) && |tdo| == len
      modifies this`clocked, this`sent
      ensures clocked == old(clocked) + DataBits(len, last)
      ensures sent == old(sent) + w.Data(len)
      ensures 8 * |rbuf| < len + 8 && len <= 8 * |rbuf| && AllBits(rbuf)[..len] == tdo
    {
      hide Bits, AllBits, Output.Data, DataBits;
      rbuf := [];
      var n: nat := len;
      NothingYet(w, len, last);
      while n > 0
        invariant n <= len && 8 * |rbuf| < len + 8 && (n > 0 ==> len - n == 8 * |rbuf|) && len - n <= 8 * |rbuf|
        invariant clocked + DataBits(n, last) == old(clocked) + DataBits(len, last)
        invariant sent == old(sent) + w.Data(len - n)
        invariant AllBits(rbuf)[..len - n] == tdo[..len - n]
        decreases n
      {
        DataStep(w, |rbuf|, if n > 8 then 8 else n);
        var val;
        ghost var n0 := n;
        val, n := ClockByte(w, tdo, |rbuf|, n, last);
        AllBitsSnoc(rbuf, val);
        TakeTwo(AllBits(rbuf), Bits(val, 8), tdo, n0 - n);
        rbuf := rbuf + [val];
      }
      assert clocked + [] == clocked && tdo[..len] == tdo;
    }

    lemma NothingYet(w: Output, len: nat, last: bool)
      requires w.Covers(len)
      ensures w.Data(0) == [] && AllBits([]) == [] && DataBits(0, last) == []
    {
    }

    /** The bits of one byte: each is put out and then replaced by the one that comes in. */
    method ClockByte(w: Output, tdo: seq<bool>, j: nat, n0: nat, last: bool) returns (val: byte, n: nat)
      requires 0 < n0 && n0 + 8 * j == |tdo| && w.Covers(|tdo|)
      modifies this`clocked, this`sent
      ensures n == if n0 > 8 then n0 - 8 else 0
      ensures clocked + DataBits(n, last) == old(clocked) + DataBits(n0, last)
      ensures sent == old(sent) + Bits(w.Byte(j), 8)[..n0 - n]
      ensures Bits(val, 8)[..n0 - n] == tdo[8 * j..][..n0 - n]
    {
      hide Bits, Pow2, DataBits;
      EightBits();
      val, n := w.Byte(j), n0;
      ghost var out, back := Bits(val, 8), tdo[8 * j..];
      var k := 0;
      while n > 0 && k < 8
        invariant 0 <= k <= 8 && n == n0 - k
        invariant clocked + DataBits(n, last) == old(clocked) + DataBits(n0, last)
        invariant sent == old(sent) + out[..k]
        invariant forall i :: 0 <= i < 8 ==> Bits(val, 8)[i] == if i < k then back[i] else out[i]
        decreases n
      {
        n := n - 1;
        FirstDataBit(n + 1, last);
        clocked := clocked + [n == 0 && last];
        sent := sent + [Bits(val, 8)[k]];
        assert out[..k] + [out[k]] == out[..k + 1];
        WithBitBits(val, k, back[k], 8);
        WithBitBound(val, k, back[k], 8);
        val := WithBit(val, k, tdo[8 * j + k]);
        k := k + 1;
      }
      assert Bits(val, 8)[..k] == back[..k];
    }
  }

  lemma AllBitsSnoc(bytes: seq<byte>, b: byte)
    ensures AllBits(bytes + [b]) == AllBits(bytes) + Bits(b, 8)
  {
    hide Bits;
    assert (bytes + [b])[..|bytes|] == bytes;
  }

  lemma TakeTwo(x: seq<bool>, y: seq<bool>, bits: seq<bool>, m: nat)
    requires |x| + m <= |bits| && m <= |y| && x[..|x|] == bits[..|x|] && y[..m] == bits[|x|..][..m]
    ensures (x + y)[..|x| + m] == bits[..|x| + m]
  {
    assert (x + y)[..|x| + m] == x[..|x|] + y[..m];
    assert bits[..|x| + m] == bits[..|x|] + bits[|x|..][..m];
  }

  lemma EightBits()
    ensures Pow2(8) == 256
  {
    assert Pow2(4) == 16;
  }

  lemma FirstDataBit(n: nat, last: bool)
    requires n > 0
    ensures DataBits(n, last) == [n == 1 && last] + DataBits(n - 1, last)
  {
  }
}

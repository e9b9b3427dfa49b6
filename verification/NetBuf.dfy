/** Network buffers of dev/netbuf.c: four parts, each owned or borrowed from the buffer this one was
    cloned from, and a reference count in the low bits of the flag byte.

    The heap is modelled as two maps from addresses, one for NETBUF structures and one for data
    blocks, so that releasing memory really removes it and a stale pointer leads nowhere. */
module NetBuf {
  type byte = b: nat | b < 256
  type Ptr = nat
  const NULL: Ptr := 0

  // ----- The flag byte

  const NBAF_REFCNT: bv8 := 0x07
  const NBAF_ALL: bv8 := 0xF0

  /** The reference count, the value of the three lowest bits. */
  function Count(flags: bv8): nat {
    var c := flags & NBAF_REFCNT;
    if c == 0 then 0 else if c == 1 then 1 else if c == 2 then 2 else if c == 3 then 3
    else if c == 4 then 4 else if c == 5 then 5 else if c == 6 then 6 else 7
  }

  /** NBAF_DATALINK, NBAF_NETWORK, NBAF_TRANSPORT and NBAF_APPLICATION */
  function PartFlag(i: nat): bv8
    requires i < 4
  {
    if i == 0 then 0x10 else if i == 1 then 0x20 else if i == 2 then 0x40 else 0x80
  }

  predicate Has(flags: bv8, i: nat)
    requires i < 4
  {
    flags & PartFlag(i) != 0
  }

  lemma SetFlagFacts(flags: bv8, i: nat)
    requires i < 4
    ensures Count(flags | PartFlag(i)) == Count(flags)
    ensures forall j :: 0 <= j < 4 ==> (Has(flags | PartFlag(i), j) <==> j == i || Has(flags, j))
  {
    forall j | 0 <= j < 4 ensures Has(flags | PartFlag(i), j) <==> j == i || Has(flags, j) {
      if i == 0 { OrBit(flags, 0x10, PartFlag(j)); }
      else if i == 1 { OrBit(flags, 0x20, PartFlag(j)); }
      else if i == 2 { OrBit(flags, 0x40, PartFlag(j)); }
      else { OrBit(flags, 0x80, PartFlag(j)); }
    }
  }

  lemma OrBit(flags: bv8, bit: bv8, mask: bv8)
    ensures (flags | bit) & mask != 0 <==> bit & mask != 0 || flags & mask != 0
  {
  }

  /** Counting up stays within the count bits, and carries into no flag, as long as the count is not
      saturated. */
  lemma CountUp(flags: bv8)
    requires flags & NBAF_REFCNT != NBAF_REFCNT
    ensures Count(flags + 1) == Count(flags) + 1 && (flags + 1) & 0xF8 == flags & 0xF8
    ensures forall j :: 0 <= j < 4 ==> (Has(flags + 1, j) <==> Has(flags, j))
  {
  }

  lemma CountDown(flags: bv8)
    requires flags & NBAF_REFCNT != 0
    ensures Count(flags) > 0 && Count(flags - 1) == Count(flags) - 1 && (flags - 1) & 0xF8 == flags & 0xF8
    ensures forall j :: 0 <= j < 4 ==> (Has(flags - 1, j) <==> Has(flags, j))
  {
  }

  // ----- The heap

  /** A data part: where it is and how much of it is used. */
  datatype Part = Part(vp: Ptr, sz: nat)

  const NO_PART := Part(NULL, 0)

  /** The datalink, network, transport and application part. */
  type Parts = p: seq<Part> | |p| == 4 witness [NO_PART, NO_PART, NO_PART, NO_PART]

  datatype NetBuf = NetBuf(next: Ptr, flags: bv8, parts: Parts, ref: Ptr) {
    predicate Owns(i: nat)
      requires i < 4
    {
      Has(flags, i)
    }
  }

  /** A cleared structure, as NutHeapAllocClear returns it. */
  const CLEARED := NetBuf(NULL, 0, [NO_PART, NO_PART, NO_PART, NO_PART], NULL)

  datatype Heap = Heap(bufs: map<Ptr, NetBuf>, blocks: map<Ptr, seq<byte>>)

  predicate OwnsBlock(s: Heap, b: Ptr, i: nat, blk: Ptr)
    requires i < 4
  {
    b in s.bufs && s.bufs[b].Owns(i) && s.bufs[b].parts[i].vp == blk && blk != NULL
  }

  function OwnedBlocks(b: NetBuf): set<Ptr> {
    set i | 0 <= i < 4 && b.Owns(i) :: b.parts[i].vp
  }

  function Clones(s: Heap, b: Ptr): set<Ptr> {
    set c | c in s.bufs && s.bufs[c].ref == b
  }

  /** The bytes of a part. */
  function Data(s: Heap, b: Ptr, i: nat): seq<byte>
    requires i < 4 && b in s.bufs
  {
    var p := s.bufs[b].parts[i];
    if p.vp in s.blocks && p.sz <= |s.blocks[p.vp]| then s.blocks[p.vp][..p.sz] else []
  }

  // ----- The invariant.  `h` counts the handles callers hold, `born` orders structures by age.

  ghost predicate Addresses(s: Heap) {
    NULL !in s.bufs && NULL !in s.blocks && s.bufs.Keys !! s.blocks.Keys
  }

  /** Originals are live and older than their clones. */
  ghost predicate RefsOk(s: Heap, born: map<Ptr, nat>) {
    && (forall c :: c in s.bufs ==> c in born)
    && (forall c :: c in s.bufs && s.bufs[c].ref != NULL ==> s.bufs[c].ref in s.bufs && born[s.bufs[c].ref] < born[c])
  }

  /** One plus the count is the number of handles plus the number of clones. */
  ghost predicate CountsOk(s: Heap, h: multiset<Ptr>) {
    && (forall b :: b in h ==> b in s.bufs)
    && (forall b :: b in s.bufs ==> 1 + Count(s.bufs[b].flags) == h[b] + |Clones(s, b)|)
  }

  /** An owned part is a live block, or nothing. */
  ghost predicate OwnedOk(s: Heap) {
    forall b, i :: b in s.bufs && 0 <= i < 4 && s.bufs[b].Owns(i) ==>
      if s.bufs[b].parts[i].vp == NULL then s.bufs[b].parts[i].sz == 0
      else s.bufs[b].parts[i].vp in s.blocks && s.bufs[b].parts[i].sz <= |s.blocks[s.bufs[b].parts[i].vp]|
  }

  /** No block has two owners. */
  ghost predicate UniqueOk(s: Heap) {
    forall b, i, c, j, blk :: 0 <= i < 4 && 0 <= j < 4 && OwnsBlock(s, b, i, blk) && OwnsBlock(s, c, j, blk) ==>
      b == c && i == j
  }

  /** Every block has an owner. */
  ghost predicate NoLeak(s: Heap) {
    forall blk :: blk in s.blocks ==> exists b, i :: 0 <= i < 4 && OwnsBlock(s, b, i, blk)
  }

  /** `n` references lead from `b` to `o`. */
  ghost predicate Reaches(s: Heap, b: Ptr, o: Ptr, n: nat)
    decreases n
  {
    b in s.bufs && if n == 0 then b == o else Reaches(s, s.bufs[b].ref, o, n - 1)
  }

  /** `o` is `b` or lies on its chain of originals. */
  ghost predicate OnChain(s: Heap, b: Ptr, o: Ptr) {
    exists n: nat :: Reaches(s, b, o, n)
  }

  /** Part `i` of `c` is owned on the chain of originals of `c`. */
  ghost predicate OwnerAbove(s: Heap, c: Ptr, i: nat)
    requires c in s.bufs && i < 4
  {
    exists o :: OnChain(s, c, o) && OwnsBlock(s, o, i, s.bufs[c].parts[i].vp)
  }

  /** A part that is not owned is in a block, large enough, that is owned on the chain of originals. */
  ghost predicate BorrowedOk(s: Heap) {
    forall c, i :: c in s.bufs && 0 <= i < 4 && !s.bufs[c].Owns(i) && s.bufs[c].parts[i].sz > 0 ==>
      && OwnerAbove(s, c, i) && s.bufs[c].parts[i].vp in s.blocks
      && s.bufs[c].parts[i].sz <= |s.blocks[s.bufs[c].parts[i].vp]|
  }

  ghost predicate Inv(s: Heap, h: multiset<Ptr>, born: map<Ptr, nat>) {
    && Addresses(s) && RefsOk(s, born) && CountsOk(s, h)
    && OwnedOk(s) && UniqueOk(s) && NoLeak(s) && BorrowedOk(s)
  }

  // ----- Release

  /** The heap without one structure and the blocks it owns. */
  function Drop(s: Heap, nb: Ptr): Heap
    requires nb in s.bufs
  {
    Heap(s.bufs - {nb}, s.blocks - OwnedBlocks(s.bufs[nb]))
  }

  /** NutNetBufFree: count down; when nothing is left to count, release the buffer and what it keeps
      alive. */
  function Release(s: Heap, nb: Ptr): Heap
    requires nb in s.bufs
    decreases |s.bufs|
  {
    var b := s.bufs[nb];
    if b.flags & NBAF_REFCNT != 0 then s.(bufs := s.bufs[nb := b.(flags := b.flags - 1)])
    else
      var s1 := Drop(s, nb);
      assert |s1.bufs.Keys| == |s.bufs.Keys - {nb}|;
      if b.ref in s1.bufs then Release(s1, b.ref) else s1
  }

  /** The handles after dropping `nb`: its own one is gone, its original gets the one its clone had. */
  function Passed(s: Heap, h: multiset<Ptr>, nb: Ptr): multiset<Ptr>
    requires nb in s.bufs
  {
    h - multiset{nb} + (if s.bufs[nb].ref == NULL then multiset{} else multiset{s.bufs[nb].ref})
  }

  /** A buffer about to be dropped has no clones. */
  lemma NoClones(s: Heap, h: multiset<Ptr>, nb: Ptr)
    requires CountsOk(s, h) && nb in s.bufs && nb in h && s.bufs[nb].flags & NBAF_REFCNT == 0
    ensures h[nb] == 1 && forall c :: c in s.bufs ==> s.bufs[c].ref != nb
  {
    assert 1 + Count(s.bufs[nb].flags) == h[nb] + |Clones(s, nb)|;
    assert Count(s.bufs[nb].flags) == 0;
    assert Clones(s, nb) == {};
    forall c | c in s.bufs ensures s.bufs[c].ref != nb {
      assert c !in Clones(s, nb);
    }
  }

  lemma DropCounts(s: Heap, h: multiset<Ptr>, born: map<Ptr, nat>, nb: Ptr)
    requires RefsOk(s, born) && CountsOk(s, h) && nb in s.bufs && nb in h && s.bufs[nb].flags & NBAF_REFCNT == 0
    requires NULL !in s.bufs
    ensures CountsOk(Drop(s, nb), Passed(s, h, nb)) && RefsOk(Drop(s, nb), born)
    ensures s.bufs[nb].ref != NULL ==> s.bufs[nb].ref in Drop(s, nb).bufs
  {
    hide Count, Clones, OwnedBlocks;
    NoClones(s, h, nb);
    CloneDropped(s, nb);
  }

  lemma CloneDropped(s: Heap, nb: Ptr)
    requires nb in s.bufs
    ensures forall b :: |Clones(s, b)| == |Clones(Drop(s, nb), b)| + if b == s.bufs[nb].ref then 1 else 0
  {
    var s1 := Drop(s, nb);
    forall b ensures |Clones(s, b)| == |Clones(s1, b)| + if b == s.bufs[nb].ref then 1 else 0 {
      if b == s.bufs[nb].ref {
        assert Clones(s, b) == Clones(s1, b) + {nb};
      } else {
        assert Clones(s, b) == Clones(s1, b);
      }
    }
  }

  lemma SameClones(s: Heap, s1: Heap)
    requires s1.bufs.Keys == s.bufs.Keys && forall b :: b in s.bufs ==> s1.bufs[b].ref == s.bufs[b].ref
    ensures forall b :: Clones(s1, b) == Clones(s, b)
  {
  }

  /** A block has one owner. */
  lemma OtherPart(s: Heap, b: Ptr, i: nat, c: Ptr, j: nat, blk: Ptr)
    requires UniqueOk(s) && i < 4 && j < 4 && OwnsBlock(s, b, i, blk) && (b != c || i != j)
    ensures !OwnsBlock(s, c, j, blk)
  {
  }

  lemma OwnedIn(s: Heap, b: Ptr, i: nat, blk: Ptr)
    requires i < 4 && OwnsBlock(s, b, i, blk)
    ensures blk in OwnedBlocks(s.bufs[b])
  {
  }

  lemma NotOwnedIn(s: Heap, b: Ptr, blk: Ptr)
    requires b in s.bufs && blk != NULL && forall i :: 0 <= i < 4 ==> !OwnsBlock(s, b, i, blk)
    ensures blk !in OwnedBlocks(s.bufs[b])
  {
    forall i | 0 <= i < 4 ensures !(s.bufs[b].Owns(i) && s.bufs[b].parts[i].vp == blk) {
      assert !OwnsBlock(s, b, i, blk);
    }
  }

  lemma DropBlocks(s: Heap, nb: Ptr)
    requires OwnedOk(s) && UniqueOk(s) && NoLeak(s) && nb in s.bufs && Addresses(s)
    ensures OwnedOk(Drop(s, nb)) && UniqueOk(Drop(s, nb)) && NoLeak(Drop(s, nb)) && Addresses(Drop(s, nb))
  {
    hide Has;
    var s1 := Drop(s, nb);
    forall b, i | b in s1.bufs && 0 <= i < 4 && s1.bufs[b].Owns(i)
      ensures s1.bufs[b].parts[i].vp != NULL ==> s1.bufs[b].parts[i].vp in s1.blocks
    {
      var blk := s.bufs[b].parts[i].vp;
      if blk != NULL {
        assert OwnsBlock(s, b, i, blk);
        forall j | 0 <= j < 4 ensures !OwnsBlock(s, nb, j, blk) {
          OtherPart(s, b, i, nb, j, blk);
        }
        NotOwnedIn(s, nb, blk);
      }
    }
    forall blk | blk in s1.blocks ensures exists b, i :: 0 <= i < 4 && OwnsBlock(s1, b, i, blk) {
      var b, i :| 0 <= i < 4 && OwnsBlock(s, b, i, blk);
      OwnedIn(s, b, i, blk);
      assert OwnsBlock(s1, b, i, blk);
    }
    forall b, i, c, j, blk | 0 <= i < 4 && 0 <= j < 4 && OwnsBlock(s1, b, i, blk) && OwnsBlock(s1, c, j, blk)
      ensures b == c && i == j
    {
      assert OwnsBlock(s, b, i, blk) && OwnsBlock(s, c, j, blk);
    }
  }

  /** A chain that does not meet `x` stands if nothing but `x` goes away. */
  lemma {:induction false} ReachesKept(s: Heap, s1: Heap, x: Ptr, b: Ptr, o: Ptr, n: nat)
    requires forall c :: c in s.bufs && c != x ==> c in s1.bufs && s1.bufs[c].ref == s.bufs[c].ref
    requires x in s.bufs ==> forall c :: c in s.bufs ==> s.bufs[c].ref != x
    requires b != x && Reaches(s, b, o, n)
    ensures Reaches(s1, b, o, n) && o != x
    decreases n
  {
    if n > 0 {
      ReachesKept(s, s1, x, s.bufs[b].ref, o, n - 1);
    }
  }

  lemma OnChainKept(s: Heap, s1: Heap, x: Ptr, b: Ptr, o: Ptr)
    requires forall c :: c in s.bufs && c != x ==> c in s1.bufs && s1.bufs[c].ref == s.bufs[c].ref
    requires x in s.bufs ==> forall c :: c in s.bufs ==> s.bufs[c].ref != x
    requires b != x && OnChain(s, b, o)
    ensures OnChain(s1, b, o) && o != x
  {
    var n: nat :| Reaches(s, b, o, n);
    ReachesKept(s, s1, x, b, o, n);
  }

  /** Nothing but `x` goes away, with the blocks it owns. */
  lemma BorrowedKept(s: Heap, s1: Heap, x: Ptr)
    requires BorrowedOk(s) && NULL !in s.bufs
    requires s1.bufs.Keys == s.bufs.Keys - {x}
    requires x in s.bufs ==> forall c :: c in s.bufs ==> s.bufs[c].ref != x
    requires forall c :: c in s1.bufs ==> s1.bufs[c].parts == s.bufs[c].parts && s1.bufs[c].ref == s.bufs[c].ref
    requires forall c, i :: c in s1.bufs && 0 <= i < 4 ==> (s1.bufs[c].Owns(i) <==> s.bufs[c].Owns(i))
    requires forall o, i, blk :: 0 <= i < 4 && OwnsBlock(s, o, i, blk) && o != x && blk in s.blocks ==>
      blk in s1.blocks && s1.blocks[blk] == s.blocks[blk]
    ensures BorrowedOk(s1)
  {
    hide Has, OnChain;
    forall c, i | c in s1.bufs && 0 <= i < 4 && !s1.bufs[c].Owns(i) && s1.bufs[c].parts[i].sz > 0
      ensures OwnerAbove(s1, c, i) && s1.bufs[c].parts[i].vp in s1.blocks
      ensures s1.bufs[c].parts[i].sz <= |s1.blocks[s1.bufs[c].parts[i].vp]|
    {
      var blk := s.bufs[c].parts[i].vp;
      var o :| OnChain(s, c, o) && OwnsBlock(s, o, i, blk);
      OnChainKept(s, s1, x, c, o);
      assert OwnsBlock(s1, o, i, blk);
    }
  }

  lemma DropInv(s: Heap, h: multiset<Ptr>, born: map<Ptr, nat>, nb: Ptr)
    requires Inv(s, h, born) && nb in h && s.bufs[nb].flags & NBAF_REFCNT == 0
    ensures Inv(Drop(s, nb), Passed(s, h, nb), born)
    ensures s.bufs[nb].ref != NULL ==> s.bufs[nb].ref in Drop(s, nb).bufs && s.bufs[nb].ref in Passed(s, h, nb)
  {
    hide Count, Has, OwnedOk, UniqueOk, NoLeak, BorrowedOk;
    NoClones(s, h, nb);
    DropCounts(s, h, born, nb);
    DropBlocks(s, nb);
    forall o, i, blk | 0 <= i < 4 && OwnsBlock(s, o, i, blk) && o != nb && blk in s.blocks
      ensures blk in Drop(s, nb).blocks
    {
      forall j | 0 <= j < 4 ensures !OwnsBlock(s, nb, j, blk) {
        OtherPart(s, o, i, nb, j, blk);
      }
      NotOwnedIn(s, nb, blk);
    }
    BorrowedKept(s, Drop(s, nb), nb);
  }

  /** A count-down keeps everything but the count. */
  lemma CountDownInv(s: Heap, h: multiset<Ptr>, born: map<Ptr, nat>, nb: Ptr)
    requires Inv(s, h, born) && nb in h && s.bufs[nb].flags & NBAF_REFCNT != 0
    ensures Inv(Release(s, nb), h - multiset{nb}, born)
  {
    hide Count, Has, RefsOk, CountsOk, OwnedOk, UniqueOk, NoLeak, BorrowedOk;
    InvHandles(s, h, born);
    CountDown(s.bufs[nb].flags);
    FlagsChanged(s, nb, s.bufs[nb].flags - 1);
    RecountOne(s, h, h - multiset{nb}, nb, s.bufs[nb].flags - 1);
  }

  /** Count and handles of one buffer change by the same amount. */
  lemma RecountOne(s: Heap, h: multiset<Ptr>, h1: multiset<Ptr>, nb: Ptr, flags: bv8)
    requires CountsOk(s, h) && nb in s.bufs
    requires Count(flags) + h[nb] == h1[nb] + Count(s.bufs[nb].flags)
    requires forall b :: b != nb ==> h1[b] == h[b]
    ensures CountsOk(s.(bufs := s.bufs[nb := s.bufs[nb].(flags := flags)]), h1)
  {
    hide Count, Clones;
    var s1 := s.(bufs := s.bufs[nb := s.bufs[nb].(flags := flags)]);
    SameClones(s, s1);
    forall b | b in h1 ensures b in s1.bufs {
      assert b == nb || b in h;
    }
  }

  /** Changing flags without changing ownership. */
  lemma FlagsChanged(s: Heap, nb: Ptr, flags: bv8)
    requires nb in s.bufs && forall j :: 0 <= j < 4 ==> (Has(flags, j) <==> s.bufs[nb].Owns(j))
    ensures var s1 := s.(bufs := s.bufs[nb := s.bufs[nb].(flags := flags)]);
      && (forall b, i, blk :: 0 <= i < 4 ==> (OwnsBlock(s1, b, i, blk) <==> OwnsBlock(s, b, i, blk)))
      && (OwnedOk(s) ==> OwnedOk(s1)) && (UniqueOk(s) ==> UniqueOk(s1)) && (NoLeak(s) ==> NoLeak(s1))
      && (Addresses(s) && BorrowedOk(s) ==> BorrowedOk(s1)) && (Addresses(s) ==> Addresses(s1))
      && (forall born :: RefsOk(s, born) ==> RefsOk(s1, born))
  {
    hide Has;
    var s1 := s.(bufs := s.bufs[nb := s.bufs[nb].(flags := flags)]);
    if Addresses(s) && BorrowedOk(s) {
      BorrowedKept(s, s1, NULL);
    }
    if NoLeak(s) {
      forall blk | blk in s1.blocks ensures exists b, i :: 0 <= i < 4 && OwnsBlock(s1, b, i, blk) {
        var b, i :| 0 <= i < 4 && OwnsBlock(s, b, i, blk);
        assert OwnsBlock(s1, b, i, blk);
      }
    }
  }

  /** Releasing a handle keeps the invariant with that handle gone. */
  lemma {:induction false} ReleaseInv(s: Heap, h: multiset<Ptr>, born: map<Ptr, nat>, nb: Ptr)
    requires Inv(s, h, born) && nb in h
    ensures Inv(Release(s, nb), h - multiset{nb}, born)
    decreases |s.bufs|
  {
    hide Inv;
    InvHandles(s, h, born);
    if s.bufs[nb].flags & NBAF_REFCNT != 0 {
      CountDownInv(s, h, born, nb);
    } else {
      var s1, h1, r := Drop(s, nb), Passed(s, h, nb), s.bufs[nb].ref;
      DropInv(s, h, born, nb);
      InvHandles(s1, h1, born);
      if r != NULL {
        assert |s1.bufs.Keys| == |s.bufs.Keys - {nb}|;
        ReleaseInv(s1, h1, born, r);
        assert h1 - multiset{r} == h - multiset{nb};
      } else {
        assert h1 == h - multiset{nb};
      }
    }
  }

  lemma InvHandles(s: Heap, h: multiset<Ptr>, born: map<Ptr, nat>)
    requires Inv(s, h, born)
    ensures NULL !in s.bufs && forall b :: b in h ==> b in s.bufs
  {
  }

  /** What a release leaves of the heap: surviving structures keep everything but their count,
      surviving blocks their contents. */
  ghost predicate Kept(s: Heap, s1: Heap) {
    && s1.bufs.Keys <= s.bufs.Keys && s1.blocks.Keys <= s.blocks.Keys
    && (forall b :: b in s1.bufs ==>
      s1.bufs[b].parts == s.bufs[b].parts && s1.bufs[b].ref == s.bufs[b].ref && s1.bufs[b].next == s.bufs[b].next)
    && (forall b, i :: b in s1.bufs && 0 <= i < 4 ==> (s1.bufs[b].Owns(i) <==> s.bufs[b].Owns(i)))
    && (forall blk :: blk in s1.blocks ==> s1.blocks[blk] == s.blocks[blk])
  }

  lemma KeptSelf(s: Heap)
    ensures Kept(s, s)
  {
  }

  lemma KeptTrans(a: Heap, b: Heap, c: Heap)
    requires Kept(a, b) && Kept(b, c)
    ensures Kept(a, c)
  {
    hide Has;
  }

  lemma CountDownKeeps(s: Heap, nb: Ptr)
    requires nb in s.bufs && s.bufs[nb].flags & NBAF_REFCNT != 0
    ensures Kept(s, s.(bufs := s.bufs[nb := s.bufs[nb].(flags := s.bufs[nb].flags - 1)]))
  {
    hide Has, Count;
    CountDown(s.bufs[nb].flags);
  }

  lemma DropKeeps(s: Heap, nb: Ptr)
    requires nb in s.bufs
    ensures Kept(s, Drop(s, nb)) && |Drop(s, nb).bufs| == |s.bufs| - 1
  {
    hide Has, OwnedBlocks;
    assert |Drop(s, nb).bufs.Keys| == |s.bufs.Keys - {nb}|;
  }

  lemma {:induction false} ReleaseKeeps(s: Heap, nb: Ptr)
    requires nb in s.bufs
    ensures Kept(s, Release(s, nb))
    decreases |s.bufs|
  {
    hide Kept, Drop;
    var b := s.bufs[nb];
    if b.flags & NBAF_REFCNT != 0 {
      CountDownKeeps(s, nb);
    } else {
      var s1 := Drop(s, nb);
      DropKeeps(s, nb);
      if b.ref in s1.bufs {
        ReleaseKeeps(s1, b.ref);
        KeptTrans(s, s1, Release(s1, b.ref));
      }
    }
  }

  // ----- What the invariant means

  /** Every non-empty part of a live buffer is a live block owned by that buffer or by one on its chain
      of originals. */
  lemma OwnerOnChain(s: Heap, h: multiset<Ptr>, born: map<Ptr, nat>, b: Ptr, i: nat) returns (o: Ptr)
    requires Inv(s, h, born) && b in s.bufs && i < 4 && s.bufs[b].parts[i].sz > 0
    ensures OnChain(s, b, o) && OwnsBlock(s, o, i, s.bufs[b].parts[i].vp)
    ensures s.bufs[b].parts[i].vp in s.blocks && s.bufs[b].parts[i].sz <= |s.blocks[s.bufs[b].parts[i].vp]|
  {
    hide Has, CountsOk, UniqueOk, NoLeak, OnChain;
    if s.bufs[b].Owns(i) {
      o := b;
      ChainStart(s, b);
    } else {
      o :| OnChain(s, b, o) && OwnsBlock(s, o, i, s.bufs[b].parts[i].vp);
    }
  }

  lemma ChainStart(s: Heap, b: Ptr)
    requires b in s.bufs
    ensures OnChain(s, b, b)
  {
    assert Reaches(s, b, b, 0);
  }

  lemma ChainUp(s: Heap, b: Ptr, o: Ptr)
    requires b in s.bufs && OnChain(s, s.bufs[b].ref, o)
    ensures OnChain(s, b, o)
  {
    var n: nat :| Reaches(s, s.bufs[b].ref, o, n);
    assert Reaches(s, b, o, n + 1);
  }

  lemma DataSize(s: Heap, h: multiset<Ptr>, born: map<Ptr, nat>, b: Ptr, i: nat)
    requires Inv(s, h, born) && b in s.bufs && i < 4
    ensures |Data(s, b, i)| == s.bufs[b].parts[i].sz
  {
    hide Has, CountsOk, UniqueOk, NoLeak, OwnedOk, BorrowedOk, RefsOk;
    if s.bufs[b].parts[i].sz > 0 {
      var _ := OwnerOnChain(s, h, born, b, i);
    }
  }

  /** Releasing a handle never changes what any buffer that stays live shows: in particular releasing
      an original leaves its clones' data alone, and a buffer somebody holds stays live. */
  lemma ReleaseKeepsData(s: Heap, h: multiset<Ptr>, born: map<Ptr, nat>, nb: Ptr)
    requires Inv(s, h, born) && nb in h
    ensures forall b :: b in h - multiset{nb} ==> b in Release(s, nb).bufs
    ensures
      forall b, i :: b in Release(s, nb).bufs && 0 <= i < 4
        ==> b in s.bufs && Data(Release(s, nb), b, i) == Data(s, b, i)
  {
    hide Inv, Data;
    ReleaseInv(s, h, born, nb);
    InvHandles(s, h, born);
    ReleaseKeeps(s, nb);
    var s1, h1 := Release(s, nb), h - multiset{nb};
    InvHandles(s1, h1, born);
    forall b, i | b in s1.bufs && 0 <= i < 4 ensures Data(s1, b, i) == Data(s, b, i) {
      DataKept(s, s1, h1, born, b, i);
    }
  }

  lemma DataKept(s: Heap, s1: Heap, h1: multiset<Ptr>, born: map<Ptr, nat>, b: Ptr, i: nat)
    requires Kept(s, s1) && Inv(s1, h1, born) && b in s1.bufs && i < 4
    ensures Data(s1, b, i) == Data(s, b, i)
  {
    hide Has, CountsOk, UniqueOk, NoLeak, BorrowedOk, RefsOk;
    if s1.bufs[b].parts[i].sz > 0 {
      var _ := OwnerOnChain(s1, h1, born, b, i);
    }
  }

  lemma NoYounger(s: Heap, born: map<Ptr, nat>, b: Ptr)
    requires RefsOk(s, born) && NULL !in s.bufs && b in s.bufs && forall c :: c in s.bufs ==> born[c] <= born[b]
    ensures Clones(s, b) == {}
  {
  }

  lemma NoOwners(s: Heap)
    requires NoLeak(s) && s.bufs == map[]
    ensures s.blocks == map[]
  {
    forall blk ensures blk !in s.blocks {
      assert forall b, i :: 0 <= i < 4 ==> !OwnsBlock(s, b, i, blk);
    }
  }

  /** With no handle left nothing is live: no structure and no block leaks. */
  lemma NothingLeft(s: Heap, born: map<Ptr, nat>)
    requires Inv(s, multiset{}, born)
    ensures s == Heap(map[], map[])
  {
    hide Clones, NoLeak, OwnedOk, UniqueOk, BorrowedOk, Count;
    if s.bufs != map[] {
      var b := Youngest(s, born, s.bufs.Keys);
      NoYounger(s, born, b);
    }
    NoOwners(s);
  }

  lemma {:induction false} Youngest(s: Heap, born: map<Ptr, nat>, among: set<Ptr>) returns (b: Ptr)
    requires among != {} && among <= born.Keys
    ensures b in among && forall c :: c in among ==> born[c] <= born[b]
    decreases among
  {
    b :| b in among;
    if among != {b} {
      var c := Youngest(s, born, among - {b});
      if born[b] < born[c] {
        b := c;
      }
    }
  }
}
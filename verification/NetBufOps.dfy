/** Allocating, cloning and collecting network buffers (dev/netbuf.c).  The addresses the heap
    allocator answers with, NULL when it is out of memory, are parameters of each operation. */
module NetBufOps {
  import opened NetBuf

  /** An answer of the allocator: out of memory or an unused address. */
  predicate Fresh(s: Heap, p: Ptr) {
    p != NULL ==> p !in s.bufs && p !in s.blocks
  }

  // ----- Building blocks

  /** A new structure that owns exactly the new blocks; a token of its original becomes its
      reference, and it comes with a handle. */
  ghost predicate Addable(s: Heap, h: multiset<Ptr>, born: map<Ptr, nat>, c: Ptr, cb: NetBuf,
      blocks: map<Ptr, seq<byte>>, k: nat) {
    && c != NULL && Fresh(s, c) && cb.flags & NBAF_REFCNT == 0
    && (cb.ref != NULL ==> cb.ref in h && cb.ref in born && born[cb.ref] < k)
    && blocks.Keys == s.blocks.Keys + OwnedBlocks(cb) && c !in blocks
    && (forall p :: p in s.blocks ==> blocks[p] == s.blocks[p])
    && (forall i :: 0 <= i < 4 && cb.Owns(i) ==>
      cb.parts[i].vp != NULL && Fresh(s, cb.parts[i].vp) && cb.parts[i].sz <= |blocks[cb.parts[i].vp]|)
    && (forall i, j :: 0 <= i < 4 && 0 <= j < 4 && cb.Owns(i) && cb.Owns(j) && cb.parts[i].vp == cb.parts[j].vp ==>
      i == j)
    && (forall i :: 0 <= i < 4 && !cb.Owns(i) && cb.parts[i].sz > 0 ==>
      cb.ref in s.bufs && s.bufs[cb.ref].parts[i] == cb.parts[i])
  }

  function TokenOf(cb: NetBuf): multiset<Ptr> {
    if cb.ref == NULL then multiset{} else multiset{cb.ref}
  }

  lemma AddBuf(s: Heap, h: multiset<Ptr>, born: map<Ptr, nat>, c: Ptr, cb: NetBuf, blocks: map<Ptr, seq<byte>>, k: nat)
    requires Inv(s, h, born) && Addable(s, h, born, c, cb, blocks, k)
    ensures Inv(Heap(s.bufs[c := cb], blocks), h - TokenOf(cb) + multiset{c}, born[c := k])
  {
    hide Inv, Addable, Has;
    AddCounts(s, h, born, c, cb, blocks, k);
    AddRefs(s, h, born, c, cb, blocks, k);
    AddOwners(s, h, born, c, cb, blocks, k);
    AddBorrowed(s, h, born, c, cb, blocks, k);
    InvParts(Heap(s.bufs[c := cb], blocks), h - TokenOf(cb) + multiset{c}, born[c := k]);
  }

  lemma InvParts(s: Heap, h: multiset<Ptr>, born: map<Ptr, nat>)
    requires Addresses(s) && RefsOk(s, born) && CountsOk(s, h) && OwnedOk(s) && UniqueOk(s) && NoLeak(s)
    requires BorrowedOk(s)
    ensures Inv(s, h, born)
  {
  }

  lemma AddCounts(s: Heap, h: multiset<Ptr>, born: map<Ptr, nat>, c: Ptr, cb: NetBuf, blocks: map<Ptr, seq<byte>>,
      k: nat)
    requires Inv(s, h, born) && Addable(s, h, born, c, cb, blocks, k)
    ensures CountsOk(Heap(s.bufs[c := cb], blocks), h - TokenOf(cb) + multiset{c})
  {
    hide Has, Count, Clones, RefsOk, OwnedOk, UniqueOk, NoLeak, BorrowedOk, OwnedBlocks;
    CountZero(cb.flags);
    CloneAdded(s, c, cb, blocks);
    assert c !in h;
    assert Clones(s, c) == {} by { NoClonesOf(s, born, c); }
  }

  lemma AddRefs(s: Heap, h: multiset<Ptr>, born: map<Ptr, nat>, c: Ptr, cb: NetBuf, blocks: map<Ptr, seq<byte>>, k: nat)
    requires Inv(s, h, born) && Addable(s, h, born, c, cb, blocks, k)
    ensures RefsOk(Heap(s.bufs[c := cb], blocks), born[c := k])
  {
    hide Has, Count, Clones, OwnedOk, UniqueOk, NoLeak, BorrowedOk, OwnedBlocks;
  }

  lemma CloneAdded(s: Heap, c: Ptr, cb: NetBuf, blocks: map<Ptr, seq<byte>>)
    requires c !in s.bufs
    ensures forall b :: |Clones(Heap(s.bufs[c := cb], blocks), b)| == |Clones(s, b)| + if b == cb.ref then 1 else 0
  {
    var s1 := Heap(s.bufs[c := cb], blocks);
    forall b ensures |Clones(s1, b)| == |Clones(s, b)| + if b == cb.ref then 1 else 0 {
      if b == cb.ref {
        assert Clones(s1, b) == Clones(s, b) + {c};
      } else {
        assert Clones(s1, b) == Clones(s, b);
      }
    }
  }

  lemma NoClonesOf(s: Heap, born: map<Ptr, nat>, c: Ptr)
    requires RefsOk(s, born) && c !in s.bufs && c != NULL
    ensures Clones(s, c) == {}
  {
  }

  lemma CountZero(flags: bv8)
    ensures flags & NBAF_REFCNT == 0 <==> Count(flags) == 0
    ensures flags & NBAF_REFCNT == NBAF_REFCNT <==> Count(flags) == 7
  {
  }

  lemma AddOwners(s: Heap, h: multiset<Ptr>, born: map<Ptr, nat>, c: Ptr, cb: NetBuf, blocks: map<Ptr, seq<byte>>,
      k: nat)
    requires Inv(s, h, born) && Addable(s, h, born, c, cb, blocks, k)
    ensures var s1 := Heap(s.bufs[c := cb], blocks); OwnedOk(s1) && UniqueOk(s1) && NoLeak(s1)
  {
    hide Has, CountsOk, RefsOk, BorrowedOk;
    var s1 := Heap(s.bufs[c := cb], blocks);
    forall b, i, blk | 0 <= i < 4 && OwnsBlock(s1, b, i, blk)
      ensures if b == c then blk in blocks && Fresh(s, blk) else OwnsBlock(s, b, i, blk) && blk in s.blocks
    {
      if b != c {
        assert OwnsBlock(s, b, i, blk);
      }
    }
    forall blk | blk in blocks ensures exists b, i :: 0 <= i < 4 && OwnsBlock(s1, b, i, blk) {
      if blk in s.blocks {
        var b, i :| 0 <= i < 4 && OwnsBlock(s, b, i, blk);
        assert OwnsBlock(s1, b, i, blk);
      } else {
        var i :| 0 <= i < 4 && cb.Owns(i) && cb.parts[i].vp == blk;
        assert OwnsBlock(s1, c, i, blk);
      }
    }
  }

  lemma AddBorrowed(s: Heap, h: multiset<Ptr>, born: map<Ptr, nat>, c: Ptr, cb: NetBuf, blocks: map<Ptr, seq<byte>>,
      k: nat)
    requires Inv(s, h, born) && Addable(s, h, born, c, cb, blocks, k)
    ensures var s1 := Heap(s.bufs[c := cb], blocks); BorrowedOk(s1) && Addresses(s1)
  {
    hide Has, CountsOk, UniqueOk, NoLeak, OnChain, OwnedOk;
    var s1 := Heap(s.bufs[c := cb], blocks);
    assert s1.bufs.Keys !! s1.blocks.Keys by {
      forall p | p in s1.blocks ensures p !in s1.bufs {
        if p !in s.blocks {
          var i :| 0 <= i < 4 && cb.Owns(i) && cb.parts[i].vp == p;
        }
      }
    }
    forall b, i | b in s1.bufs && 0 <= i < 4 && !s1.bufs[b].Owns(i) && s1.bufs[b].parts[i].sz > 0
      ensures OwnerAbove(s1, b, i) && s1.bufs[b].parts[i].vp in s1.blocks
      ensures s1.bufs[b].parts[i].sz <= |s1.blocks[s1.bufs[b].parts[i].vp]|
    {
      var above := if b == c then cb.ref else b;
      var o := OwnerOnChain(s, h, born, above, i);
      OnChainKept(s, s1, NULL, above, o);
      if b == c {
        ChainUp(s1, c, o);
      }
      assert OwnsBlock(s1, o, i, s1.bufs[b].parts[i].vp);
    }
  }

  /** A buffer somebody holds and whose count is zero has no clones. */
  lemma Unshared(s: Heap, h: multiset<Ptr>, born: map<Ptr, nat>, nb: Ptr)
    requires Inv(s, h, born) && nb in h && s.bufs[nb].flags & NBAF_REFCNT == 0
    ensures nb in s.bufs && h[nb] == 1 && forall c :: c in s.bufs ==> s.bufs[c].ref != nb
  {
    NoClones(s, h, nb);
  }

  function WithPart(bufs: map<Ptr, NetBuf>, nb: Ptr, i: nat, part: Part): map<Ptr, NetBuf>
    requires nb in bufs && i < 4
  {
    bufs[nb := bufs[nb].(parts := bufs[nb].parts[i := part])]
  }

  /** The heap with the block of one part released, if the buffer owns it, and the part emptied. */
  function Detached(s: Heap, nb: Ptr, i: nat): Heap
    requires nb in s.bufs && i < 4
  {
    Heap(WithPart(s.bufs, nb, i, NO_PART), if s.bufs[nb].Owns(i) then s.blocks - {s.bufs[nb].parts[i].vp} else s.blocks)
  }

  /** Another buffer borrows part `i` of `nb`. */
  predicate Borrows(s: Heap, nb: Ptr, i: nat, c: Ptr)
    requires nb in s.bufs && i < 4
  {
    && c in s.bufs && c != nb && !s.bufs[c].Owns(i)
    && s.bufs[c].parts[i].sz > 0 && s.bufs[c].parts[i].vp == s.bufs[nb].parts[i].vp
  }

  ghost predicate Lent(s: Heap, nb: Ptr, i: nat)
    requires nb in s.bufs && i < 4
  {
    exists c :: Borrows(s, nb, i, c)
  }

  /** A clone's part lies in an owned block that is to go. */
  ghost predicate Strands(s: Heap, nb: Ptr, i: nat)
    requires nb in s.bufs && i < 4
  {
    s.bufs[nb].Owns(i) && Lent(s, nb, i)
  }

  /** What nobody has cloned is not lent. */
  lemma UnsharedNotLent(s: Heap, h: multiset<Ptr>, born: map<Ptr, nat>, nb: Ptr, i: nat)
    requires Inv(s, h, born) && nb in h && s.bufs[nb].flags & NBAF_REFCNT == 0 && i < 4
    ensures !Strands(s, nb, i)
  {
    hide Inv, Has, OnChain;
    Unshared(s, h, born, nb);
    if Strands(s, nb, i) {
      var c :| Borrows(s, nb, i, c);
      var o := OwnerOnChain(s, h, born, c, i);
      assert OwnsBlock(s, nb, i, s.bufs[nb].parts[i].vp) by { InvAddresses(s, h, born); }
      OneOwner(s, h, born, nb, i, o, i, s.bufs[c].parts[i].vp);
      OnChainKept(s, s, nb, c, o);
    }
  }

  /** Part `i` of one buffer and its block change.  If it is owned and lent, its block stays. */
  lemma BorrowedAfter(s: Heap, s1: Heap, nb: Ptr, i: nat)
    requires BorrowedOk(s) && UniqueOk(s) && NULL !in s.bufs && NULL !in s.blocks && nb in s.bufs && i < 4
    requires s1.bufs.Keys == s.bufs.Keys
    requires forall b :: b in s.bufs ==> s1.bufs[b].ref == s.bufs[b].ref
    requires forall b, j :: b in s.bufs && 0 <= j < 4 && (b != nb || j != i) ==>
      s1.bufs[b].parts[j] == s.bufs[b].parts[j] && (s1.bufs[b].Owns(j) <==> s.bufs[b].Owns(j))
    requires s1.bufs[nb].Owns(i) || s1.bufs[nb].parts[i].sz == 0
    requires forall p :: p in s.blocks && p !in s1.blocks ==> s.bufs[nb].Owns(i) && p == s.bufs[nb].parts[i].vp
    requires forall p :: p in s.blocks && p in s1.blocks ==> s1.blocks[p] == s.blocks[p]
    requires Strands(s, nb, i) ==>
      s1.blocks == s.blocks && s1.bufs[nb].Owns(i) && s1.bufs[nb].parts[i].vp == s.bufs[nb].parts[i].vp
    ensures BorrowedOk(s1)
  {
    hide Has, OnChain;
    forall c, j | c in s1.bufs && 0 <= j < 4 && !s1.bufs[c].Owns(j) && s1.bufs[c].parts[j].sz > 0
      ensures OwnerAbove(s1, c, j) && s1.bufs[c].parts[j].vp in s1.blocks
      ensures s1.bufs[c].parts[j].sz <= |s1.blocks[s1.bufs[c].parts[j].vp]|
    {
      var blk := s.bufs[c].parts[j].vp;
      var o :| OnChain(s, c, o) && OwnsBlock(s, o, j, blk);
      OnChainKept(s, s1, NULL, c, o);
      if s.bufs[nb].Owns(i) && blk == s.bufs[nb].parts[i].vp {
        assert OwnsBlock(s, nb, i, blk) && Borrows(s, nb, j, c);
      }
      assert OwnsBlock(s1, o, j, blk);
    }
  }

  lemma DetachInv(s: Heap, h: multiset<Ptr>, born: map<Ptr, nat>, nb: Ptr, i: nat)
    requires Inv(s, h, born) && nb in s.bufs && i < 4 && !Strands(s, nb, i)
    ensures Inv(Detached(s, nb, i), h, born)
  {
    hide Inv, Has, Count, Lent;
    PartsChanged(s, h, born, nb, Detached(s, nb, i));
    DetachOwners(s, h, born, nb, i);
    DetachBorrowed(s, h, born, nb, i);
    InvParts(Detached(s, nb, i), h, born);
  }

  lemma DetachBorrowed(s: Heap, h: multiset<Ptr>, born: map<Ptr, nat>, nb: Ptr, i: nat)
    requires Inv(s, h, born) && nb in s.bufs && i < 4 && !Strands(s, nb, i)
    ensures BorrowedOk(Detached(s, nb, i))
  {
    hide Has, Count, Lent, RefsOk, CountsOk, UniqueOk, NoLeak, OwnedOk, BorrowedOk;
    BorrowedAfter(s, Detached(s, nb, i), nb, i);
  }

  /** Only one buffer's parts and the blocks differ: references and counts stand. */
  lemma PartsChanged(s: Heap, h: multiset<Ptr>, born: map<Ptr, nat>, nb: Ptr, s1: Heap)
    requires Inv(s, h, born) && nb in s.bufs
    requires s1.bufs.Keys == s.bufs.Keys && forall b :: b in s.bufs && b != nb ==> s1.bufs[b] == s.bufs[b]
    requires s1.bufs[nb].ref == s.bufs[nb].ref && Count(s1.bufs[nb].flags) == Count(s.bufs[nb].flags)
    ensures RefsOk(s1, born) && CountsOk(s1, h)
  {
    hide Has, Count, Clones, OwnedOk, UniqueOk, NoLeak, BorrowedOk;
    assert forall b :: Clones(s1, b) == Clones(s, b) by { SameClones(s, s1); }
  }

  lemma DetachOwners(s: Heap, h: multiset<Ptr>, born: map<Ptr, nat>, nb: Ptr, i: nat)
    requires Inv(s, h, born) && nb in s.bufs && i < 4
    ensures var s1 := Detached(s, nb, i); OwnedOk(s1) && UniqueOk(s1) && NoLeak(s1) && Addresses(s1)
  {
    hide Has, CountsOk, RefsOk, BorrowedOk;
    var s1 := Detached(s, nb, i);
    forall b, j, blk | 0 <= j < 4 && OwnsBlock(s1, b, j, blk)
      ensures OwnsBlock(s, b, j, blk) && blk in s1.blocks
    {
      assert OwnsBlock(s, b, j, blk);
      if s.bufs[nb].Owns(i) {
        OtherPart(s, b, j, nb, i, blk);
      }
    }
    forall b, j | b in s1.bufs && 0 <= j < 4 && s1.bufs[b].Owns(j) && s1.bufs[b].parts[j].vp != NULL
      ensures s1.bufs[b].parts[j].vp in s1.blocks
    {
      assert OwnsBlock(s1, b, j, s1.bufs[b].parts[j].vp);
    }
    forall blk | blk in s1.blocks ensures exists b, j :: 0 <= j < 4 && OwnsBlock(s1, b, j, blk) {
      var b, j :| 0 <= j < 4 && OwnsBlock(s, b, j, blk);
      assert OwnsBlock(s1, b, j, blk);
    }
  }

  /** The heap with a new block given to an empty part. */
  function Attached(s: Heap, nb: Ptr, i: nat, p: Ptr, sz: nat, contents: seq<byte>): Heap
    requires nb in s.bufs && i < 4
  {
    Heap(s.bufs[nb := s.bufs[nb].(flags := s.bufs[nb].flags | PartFlag(i),
      parts := s.bufs[nb].parts[i := Part(p, sz)])],
      s.blocks[p := contents])
  }

  lemma AttachInv(s: Heap, h: multiset<Ptr>, born: map<Ptr, nat>, nb: Ptr, i: nat, p: Ptr, sz: nat, contents: seq<byte>)
    requires Inv(s, h, born) && nb in s.bufs && i < 4
    requires (s.bufs[nb].Owns(i) ==> s.bufs[nb].parts[i].vp == NULL) && p != NULL && Fresh(s, p) && sz <= |contents|
    ensures Inv(Attached(s, nb, i, p, sz, contents), h, born)
  {
    hide Inv, Has, Count;
    SetFlagFacts(s.bufs[nb].flags, i);
    PartsChanged(s, h, born, nb, Attached(s, nb, i, p, sz, contents));
    AttachOwners(s, h, born, nb, i, p, sz, contents);
    AttachBorrowed(s, h, born, nb, i, p, sz, contents);
    InvParts(Attached(s, nb, i, p, sz, contents), h, born);
  }

  lemma AttachBorrowed(s: Heap, h: multiset<Ptr>, born: map<Ptr, nat>, nb: Ptr, i: nat, p: Ptr, sz: nat,
      contents: seq<byte>)
    requires Inv(s, h, born) && nb in s.bufs && i < 4
    requires (s.bufs[nb].Owns(i) ==> s.bufs[nb].parts[i].vp == NULL) && Fresh(s, p)
    ensures BorrowedOk(Attached(s, nb, i, p, sz, contents))
  {
    hide Has, Count, RefsOk, CountsOk, UniqueOk, NoLeak, BorrowedOk, OwnedOk, PartFlag, Lent;
    SetFlagFacts(s.bufs[nb].flags, i);
    EmptyNotLent(s, h, born, nb, i);
    BorrowedAfter(s, Attached(s, nb, i, p, sz, contents), nb, i);
  }

  /** What is nowhere cannot be borrowed. */
  lemma EmptyNotLent(s: Heap, h: multiset<Ptr>, born: map<Ptr, nat>, nb: Ptr, i: nat)
    requires Inv(s, h, born) && nb in s.bufs && i < 4
    ensures s.bufs[nb].parts[i].vp == NULL ==> !Strands(s, nb, i)
  {
    hide Has, RefsOk, CountsOk, UniqueOk, NoLeak, OwnedOk, OwnerAbove;
  }

  lemma AttachOwners(s: Heap, h: multiset<Ptr>, born: map<Ptr, nat>, nb: Ptr, i: nat, p: Ptr, sz: nat,
      contents: seq<byte>)
    requires Inv(s, h, born) && nb in s.bufs && i < 4
    requires (s.bufs[nb].Owns(i) ==> s.bufs[nb].parts[i].vp == NULL) && p != NULL && Fresh(s, p) && sz <= |contents|
    requires forall j :: 0 <= j < 4 ==> (Has(s.bufs[nb].flags | PartFlag(i), j) <==> j == i || s.bufs[nb].Owns(j))
    ensures var s1 := Attached(s, nb, i, p, sz, contents); OwnedOk(s1) && UniqueOk(s1) && NoLeak(s1) && Addresses(s1)
  {
    hide Has, CountsOk, RefsOk, BorrowedOk, OwnedOk, UniqueOk, NoLeak;
    AttachOwned(s, nb, i, p, sz, contents);
    AttachUnique(s, nb, i, p, sz, contents);
    AttachNoLeak(s, nb, i, p, sz, contents);
  }

  /** The owners after attaching: the new one, and those there were. */
  lemma AttachedOwns(s: Heap, nb: Ptr, i: nat, p: Ptr, sz: nat, contents: seq<byte>, b: Ptr, j: nat, blk: Ptr)
    requires OwnedOk(s) && nb in s.bufs && i < 4 && j < 4 && OwnsBlock(Attached(s, nb, i, p, sz, contents), b, j, blk)
    requires forall k :: 0 <= k < 4 ==> (Has(s.bufs[nb].flags | PartFlag(i), k) <==> k == i || s.bufs[nb].Owns(k))
    ensures if b == nb && j == i then blk == p else OwnsBlock(s, b, j, blk) && blk in s.blocks
  {
    hide Has;
    assert b == nb ==> (Has(s.bufs[nb].flags | PartFlag(i), j) <==> j == i || s.bufs[nb].Owns(j));
  }

  lemma AttachOwned(s: Heap, nb: Ptr, i: nat, p: Ptr, sz: nat, contents: seq<byte>)
    requires OwnedOk(s) && Addresses(s) && nb in s.bufs && i < 4 && p != NULL && Fresh(s, p) && sz <= |contents|
    requires forall j :: 0 <= j < 4 ==> (Has(s.bufs[nb].flags | PartFlag(i), j) <==> j == i || s.bufs[nb].Owns(j))
    ensures OwnedOk(Attached(s, nb, i, p, sz, contents)) && Addresses(Attached(s, nb, i, p, sz, contents))
  {
    hide Has;
  }

  lemma AttachUnique(s: Heap, nb: Ptr, i: nat, p: Ptr, sz: nat, contents: seq<byte>)
    requires OwnedOk(s) && UniqueOk(s) && nb in s.bufs && i < 4 && p != NULL && Fresh(s, p)
    requires forall j :: 0 <= j < 4 ==> (Has(s.bufs[nb].flags | PartFlag(i), j) <==> j == i || s.bufs[nb].Owns(j))
    ensures UniqueOk(Attached(s, nb, i, p, sz, contents))
  {
    hide Has, OwnedOk, Attached, OwnsBlock;
    var s1 := Attached(s, nb, i, p, sz, contents);
    forall b, j, c, k, blk | 0 <= j < 4 && 0 <= k < 4 && OwnsBlock(s1, b, j, blk) && OwnsBlock(s1, c, k, blk)
      ensures b == c && j == k
    {
      AttachedOwns(s, nb, i, p, sz, contents, b, j, blk);
      AttachedOwns(s, nb, i, p, sz, contents, c, k, blk);
    }
  }

  lemma AttachNoLeak(s: Heap, nb: Ptr, i: nat, p: Ptr, sz: nat, contents: seq<byte>)
    requires NoLeak(s) && nb in s.bufs && i < 4 && (s.bufs[nb].Owns(i) ==> s.bufs[nb].parts[i].vp == NULL) && p != NULL
    requires forall j :: 0 <= j < 4 ==> (Has(s.bufs[nb].flags | PartFlag(i), j) <==> j == i || s.bufs[nb].Owns(j))
    ensures NoLeak(Attached(s, nb, i, p, sz, contents))
  {
    hide Has;
    var s1 := Attached(s, nb, i, p, sz, contents);
    assert OwnsBlock(s1, nb, i, p);
    forall blk | blk in s1.blocks ensures exists b, j :: 0 <= j < 4 && OwnsBlock(s1, b, j, blk) {
      if blk != p {
        var b, j :| 0 <= j < 4 && OwnsBlock(s, b, j, blk);
        assert OwnsBlock(s1, b, j, blk);
      }
    }
  }

  /** The size of an owned part reduced. */
  lemma ShrinkInv(s: Heap, h: multiset<Ptr>, born: map<Ptr, nat>, nb: Ptr, i: nat, sz: nat)
    requires Inv(s, h, born) && nb in s.bufs && i < 4
    requires s.bufs[nb].Owns(i) && sz <= s.bufs[nb].parts[i].sz
    ensures Inv(Heap(WithPart(s.bufs, nb, i, Part(s.bufs[nb].parts[i].vp, sz)), s.blocks), h, born)
  {
    hide Inv, Has, Count, BorrowedOk;
    var s1 := Heap(WithPart(s.bufs, nb, i, Part(s.bufs[nb].parts[i].vp, sz)), s.blocks);
    PartsChanged(s, h, born, nb, s1);
    assert OwnedOk(s1) && UniqueOk(s1) && NoLeak(s1) && Addresses(s1) by {
      SameOwners(s, h, born, s1);
    }
    InvBorrowed(s, h, born);
    BorrowedAfter(s, s1, nb, i);
    InvParts(s1, h, born);
  }

  lemma InvBorrowed(s: Heap, h: multiset<Ptr>, born: map<Ptr, nat>)
    requires Inv(s, h, born)
    ensures NULL !in s.bufs && NULL !in s.blocks && BorrowedOk(s) && UniqueOk(s)
  {
  }

  /** Sizes of owned parts went down, nothing else about ownership changed. */
  lemma SameOwners(s: Heap, h: multiset<Ptr>, born: map<Ptr, nat>, s1: Heap)
    requires Inv(s, h, born) && s1.blocks == s.blocks && s1.bufs.Keys == s.bufs.Keys
    requires forall b, i :: b in s.bufs && 0 <= i < 4 ==>
      && (s1.bufs[b].Owns(i) <==> s.bufs[b].Owns(i))
      && s1.bufs[b].parts[i].vp == s.bufs[b].parts[i].vp && s1.bufs[b].parts[i].sz <= s.bufs[b].parts[i].sz
    ensures OwnedOk(s1) && UniqueOk(s1) && NoLeak(s1) && Addresses(s1)
  {
    hide Has, CountsOk, RefsOk, BorrowedOk;
    assert forall b, i, blk :: 0 <= i < 4 ==> (OwnsBlock(s1, b, i, blk) <==> OwnsBlock(s, b, i, blk));
    forall blk | blk in s1.blocks ensures exists b, i :: 0 <= i < 4 && OwnsBlock(s1, b, i, blk) {
      var b, i :| 0 <= i < 4 && OwnsBlock(s, b, i, blk);
      assert OwnsBlock(s1, b, i, blk);
    }
  }

  /** A buffer with the same parts in two sound heaps that agree on common blocks shows the same data. */
  lemma SameData(s: Heap, h: multiset<Ptr>, born: map<Ptr, nat>, s1: Heap, h1: multiset<Ptr>, born1: map<Ptr, nat>,
      b: Ptr, i: nat)
    requires Inv(s, h, born) && Inv(s1, h1, born1) && b in s.bufs && b in s1.bufs && i < 4
    requires s1.bufs[b].parts[i] == s.bufs[b].parts[i]
    requires forall p :: p in s.blocks && p in s1.blocks ==> s.blocks[p] == s1.blocks[p]
    ensures Data(s1, b, i) == Data(s, b, i)
  {
    hide Inv, OnChain;
    if s.bufs[b].parts[i].sz > 0 {
      var _ := OwnerOnChain(s, h, born, b, i);
      var _ := OwnerOnChain(s1, h1, born1, b, i);
    } else {
      DataSize(s, h, born, b, i);
      DataSize(s1, h1, born1, b, i);
    }
  }

  // ----- NutNetBufAlloc

  function NewBlock(size: nat): seq<byte> {
    seq(size, _ => 0)
  }

  /** Makes part `i` an owned block of the given size: by reducing the block it has, or by replacing it
      with the one the allocator offers.  Without one the whole buffer is released. */
  function AllocPart(s: Heap, nb: Ptr, i: nat, size: nat, dp: Ptr): (Heap, Ptr)
    requires nb in s.bufs && i < 4
  {
    var b := s.bufs[nb];
    if b.Owns(i) && b.parts[i].sz >= size then (Heap(WithPart(s.bufs, nb, i, Part(b.parts[i].vp, size)), s.blocks), nb)
    else if dp == NULL then (Release(Detached(s, nb, i), nb), NULL)
    else (Attached(Detached(s, nb, i), nb, i, dp, size, NewBlock(size)), nb)
  }

  function Alloc(s: Heap, nb: Ptr, i: nat, size: nat, sp: Ptr, dp: Ptr): (Heap, Ptr)
    requires (nb != NULL ==> nb in s.bufs) && i < 4
  {
    if nb != NULL then AllocPart(s, nb, i, size, dp)
    else if sp != NULL then AllocPart(Heap(s.bufs[sp := CLEARED], s.blocks), sp, i, size, dp)
    else (s, NULL)
  }

  /** Blocks that stay keep their contents, and other buffers their parts. */
  ghost predicate OthersKept(s: Heap, s1: Heap, nb: Ptr) {
    && (forall p :: p in s.blocks && p in s1.blocks ==> s1.blocks[p] == s.blocks[p])
    && (forall b :: b in s1.bufs && b != nb ==> b in s.bufs && s1.bufs[b].parts == s.bufs[b].parts)
  }

  lemma Released(s: Heap, nb: Ptr)
    requires nb in s.bufs && s.bufs[nb].flags & NBAF_REFCNT == 0
    ensures nb !in Release(s, nb).bufs
  {
    hide Kept, OwnedBlocks;
    var s1 := Drop(s, nb);
    if s.bufs[nb].ref in s1.bufs {
      ReleaseKeeps(s1, s.bufs[nb].ref);
      KeptNames(s1, Release(s1, s.bufs[nb].ref));
    }
  }

  lemma KeptNames(s: Heap, s1: Heap)
    requires Kept(s, s1)
    ensures s1.bufs.Keys <= s.bufs.Keys
  {
  }

  /** Without memory the buffer is released; one that is referenced stays, with the part emptied. */
  lemma AllocFails(s: Heap, h: multiset<Ptr>, born: map<Ptr, nat>, nb: Ptr, i: nat)
    requires Inv(s, h, born) && nb in h && nb in s.bufs && i < 4 && !Strands(s, nb, i)
    ensures
      var s1 := Release(Detached(s, nb, i), nb);
      && Inv(s1, h - multiset{nb}, born) && OthersKept(s, s1, nb)
      && (nb in s1.bufs ==> s1.bufs[nb].parts == s.bufs[nb].parts[i := NO_PART])
      && (s.bufs[nb].flags & NBAF_REFCNT == 0 ==> nb !in s1.bufs)
  {
    hide Inv, Has, Count, Release, Lent;
    if s.bufs[nb].flags & NBAF_REFCNT == 0 {
      Released(Detached(s, nb, i), nb);
    }
    DetachInv(s, h, born, nb, i);
    ReleaseInv(Detached(s, nb, i), h, born, nb);
    ReleaseKeeps(Detached(s, nb, i), nb);
  }

  /** The part is replaced by a new block. */
  lemma AllocReplaces(s: Heap, h: multiset<Ptr>, born: map<Ptr, nat>, nb: Ptr, i: nat, size: nat, dp: Ptr)
    requires Inv(s, h, born) && nb in s.bufs && i < 4 && !Strands(s, nb, i) && dp != NULL && Fresh(s, dp)
    ensures var s1 := Attached(Detached(s, nb, i), nb, i, dp, size, NewBlock(size));
      && Inv(s1, h, born) && OthersKept(s, s1, nb)
      && nb in s1.bufs && s1.bufs[nb].Owns(i) && s1.bufs[nb].parts == s.bufs[nb].parts[i := Part(dp, size)]
  {
    hide Inv, Has, Count, Lent;
    var s1 := Detached(s, nb, i);
    DetachInv(s, h, born, nb, i);
    AttachInv(s1, h, born, nb, i, dp, size, NewBlock(size));
    SetFlagFacts(s.bufs[nb].flags, i);
    assert s1.bufs[nb].parts[i := Part(dp, size)] == s.bufs[nb].parts[i := Part(dp, size)];
  }

  /** Allocation would take an owned block that is lent. */
  ghost predicate AllocStrands(s: Heap, nb: Ptr, i: nat, size: nat)
    requires nb in s.bufs && i < 4
  {
    s.bufs[nb].parts[i].sz < size && Strands(s, nb, i)
  }

  /** Allocating in a held buffer: it ends up owning a part of the requested size, or it is released. */
  lemma AllocPartInv(s: Heap, h: multiset<Ptr>, born: map<Ptr, nat>, nb: Ptr, i: nat, size: nat, dp: Ptr)
    requires Inv(s, h, born) && nb in h && nb in s.bufs && i < 4 && size > 0 && Fresh(s, dp)
    requires !AllocStrands(s, nb, i, size)
    ensures var (s1, r) := AllocPart(s, nb, i, size, dp);
      && Inv(s1, if r == NULL then h - multiset{nb} else h, born) && OthersKept(s, s1, nb)
      && (r == NULL || (r == nb && nb in s1.bufs && s1.bufs[nb].Owns(i) && s1.bufs[nb].parts[i].sz == size))
      && (r == NULL && s.bufs[nb].flags & NBAF_REFCNT == 0 ==> nb !in s1.bufs)
      && (nb in s1.bufs ==> forall j :: 0 <= j < 4 && j != i ==> s1.bufs[nb].parts[j] == s.bufs[nb].parts[j])
  {
    hide Inv, Has, Count, Release, Detached, Attached, Fresh, Lent;
    InvHandles(s, h, born);
    var b := s.bufs[nb];
    if b.Owns(i) && b.parts[i].sz >= size {
      ShrinkInv(s, h, born, nb, i, size);
    } else if dp == NULL {
      AllocFails(s, h, born, nb, i);
    } else {
      AllocReplaces(s, h, born, nb, i, size, dp);
    }
  }

  /** A new structure comes into being cleared, with a handle. */
  lemma ClearedInv(s: Heap, h: multiset<Ptr>, born: map<Ptr, nat>, sp: Ptr)
    requires Inv(s, h, born) && sp != NULL && Fresh(s, sp)
    ensures Inv(Heap(s.bufs[sp := CLEARED], s.blocks), h + multiset{sp}, born[sp := 0])
    ensures CLEARED.flags & NBAF_REFCNT == 0 && sp !in h
  {
    hide Inv;
    assert OwnedBlocks(CLEARED) == {};
    InvHandles(s, h, born);
    AddBuf(s, h, born, sp, CLEARED, s.blocks, 0);
    assert h - TokenOf(CLEARED) + multiset{sp} == h + multiset{sp};
  }

  /** The handles and ages after NutNetBufAlloc: the caller gets a handle for a new buffer, and loses the one it
      had when a null pointer is returned. */
  function HandlesAfter(h: multiset<Ptr>, nb: Ptr, r: Ptr): multiset<Ptr> {
    if r == NULL then h - multiset{nb} else if nb == NULL then h + multiset{r} else h
  }

  function BornAfter(born: map<Ptr, nat>, nb: Ptr, sp: Ptr): map<Ptr, nat> {
    if nb == NULL then born[sp := 0] else born
  }

  lemma AllocKeeps(s: Heap, h: multiset<Ptr>, born: map<Ptr, nat>, nb: Ptr, i: nat, size: nat, sp: Ptr, dp: Ptr)
    requires Inv(s, h, born) && i < 4 && size > 0 && Fresh(s, sp) && Fresh(s, dp) && (sp != NULL ==> sp != dp)
    requires nb != NULL ==> nb in h && nb in s.bufs && !AllocStrands(s, nb, i, size)
    ensures var (s1, r) := Alloc(s, nb, i, size, sp, dp);
      Inv(s1, HandlesAfter(h, nb, r), BornAfter(born, nb, sp))
  {
    hide Inv, Has, AllocPart, AllocStrands;
    InvHandles(s, h, born);
    if nb != NULL {
      AllocPartInv(s, h, born, nb, i, size, dp);
    } else if sp != NULL {
      ClearedInv(s, h, born, sp);
      var s0 := Heap(s.bufs[sp := CLEARED], s.blocks);
      ClearedOwnsNothing(s, sp, i, size);
      AllocPartInv(s0, h + multiset{sp}, born[sp := 0], sp, i, size, dp);
      assert h + multiset{sp} - multiset{sp} == h - multiset{NULL};
    } else {
      assert h - multiset{NULL} == h;
      BornMore(s, h, born, sp, 0);
    }
  }

  lemma ClearedOwnsNothing(s: Heap, sp: Ptr, i: nat, size: nat)
    requires i < 4
    ensures !AllocStrands(Heap(s.bufs[sp := CLEARED], s.blocks), sp, i, size)
  {
  }

  /** NutNetBufAlloc, whatever the reference count: what is returned owns a part of the size asked for, and the
      invariant is kept if and only if no owned block that is too small is replaced while another buffer borrows
      it. */
  lemma AllocInv(s: Heap, h: multiset<Ptr>, born: map<Ptr, nat>, nb: Ptr, i: nat, size: nat, sp: Ptr, dp: Ptr)
    requires Inv(s, h, born) && i < 4 && size > 0 && Fresh(s, sp) && Fresh(s, dp) && (sp != NULL ==> sp != dp)
    requires nb != NULL ==> nb in h && nb in s.bufs
    ensures var (s1, r) := Alloc(s, nb, i, size, sp, dp);
      && (Inv(s1, HandlesAfter(h, nb, r), BornAfter(born, nb, sp))
        <==> !(nb != NULL && AllocStrands(s, nb, i, size)))
      && (r != NULL ==> r in s1.bufs && s1.bufs[r].Owns(i) && s1.bufs[r].parts[i].sz == size)
      && (nb != NULL ==> r == NULL || r == nb)
  {
    hide Inv, Has, Strands, Release, NothingDangles, Detached, PartFlag;
    var (s1, r) := Alloc(s, nb, i, size, sp, dp);
    if nb != NULL {
      SetFlagFacts(s.bufs[nb].flags, i);
    } else {
      SetFlagFacts(CLEARED.flags, i);
    }
    DetachedFlags(s, nb, i);
    DetachedFlags(Heap(s.bufs[sp := CLEARED], s.blocks), sp, i);
    AllocDangles(s, h, born, nb, i, size, sp, dp);
    if nb != NULL && AllocStrands(s, nb, i, size) {
      if Inv(s1, HandlesAfter(h, nb, r), BornAfter(born, nb, sp)) {
        InvNothingDangles(s1, HandlesAfter(h, nb, r), BornAfter(born, nb, sp));
      }
    } else {
      AllocKeeps(s, h, born, nb, i, size, sp, dp);
    }
  }

  lemma DetachedFlags(s: Heap, nb: Ptr, i: nat)
    requires i < 4
    ensures nb in s.bufs ==> nb in Detached(s, nb, i).bufs && Detached(s, nb, i).bufs[nb].flags == s.bufs[nb].flags
  {
  }

  /** Part `i` of a buffer is owned and large enough. */
  predicate LargeEnough(s: Heap, nb: Ptr, i: nat, size: nat)
    requires i < 4
  {
    nb in s.bufs && s.bufs[nb].flags & PartFlag(i) != 0 && s.bufs[nb].parts[i].sz >= size
  }

  /** When NutNetBufAlloc fails: if and only if there is no memory for a structure that is needed, or none for a block
      that is needed.  Otherwise the buffer given, or the new one, is returned; only its part and the flag for it
      have changed, and the part is its old block cut to size, or the new block. */
  lemma AllocExact(s: Heap, h: multiset<Ptr>, born: map<Ptr, nat>, nb: Ptr, i: nat, size: nat, sp: Ptr, dp: Ptr)
    requires Inv(s, h, born) && i < 4 && size > 0 && Fresh(s, sp) && Fresh(s, dp) && (sp != NULL ==> sp != dp)
    requires nb != NULL ==> nb in h && nb in s.bufs
    ensures var (s1, r) := Alloc(s, nb, i, size, sp, dp);
      var was := if nb == NULL then CLEARED else s.bufs[nb];
      var large := nb != NULL && LargeEnough(s, nb, i, size);
      && (r == NULL <==> (nb == NULL && sp == NULL) || (dp == NULL && !large))
      && (r == NULL && nb == NULL ==> s1 == s)
      && (r != NULL ==>
        && r == (if nb == NULL then sp else nb) && r in s1.bufs
        && s1.bufs[r].next == was.next && s1.bufs[r].ref == was.ref && Count(s1.bufs[r].flags) == Count(was.flags)
        && s1.bufs[r].parts == was.parts[i := Part(if large then was.parts[i].vp else dp, size)]
        && (forall j :: 0 <= j < 4 ==> (s1.bufs[r].Owns(j) <==> j == i || was.Owns(j)))
        && (forall b :: b in s.bufs && b != nb ==> b in s1.bufs && s1.bufs[b] == s.bufs[b])
        && s1.bufs.Keys == s.bufs.Keys + {r}
        && (large ==> s1.blocks == s.blocks)
        && (!large ==> dp in s1.blocks && |s1.blocks[dp]| == size))
  {
    hide Inv, Has, Count, Release, PartFlag;
    InvHandles(s, h, born);
    if nb != NULL {
      PartExact(s, nb, i, size, dp);
    } else if sp != NULL {
      var s0 := Heap(s.bufs[sp := CLEARED], s.blocks);
      NoFlagSet(i);
      PartExact(s0, sp, i, size, dp);
      if dp == NULL {
        ClearedReleased(s, sp, i);
      }
    }
  }

  lemma NoFlagSet(i: nat)
    requires i < 4
    ensures CLEARED.flags & PartFlag(i) == 0 && CLEARED.flags & NBAF_REFCNT == 0
  {
  }

  lemma ClearedReleased(s: Heap, sp: Ptr, i: nat)
    requires sp !in s.bufs && sp != NULL && NULL !in s.bufs && i < 4
    ensures Release(Detached(Heap(s.bufs[sp := CLEARED], s.blocks), sp, i), sp) == s
  {
    var s0 := Detached(Heap(s.bufs[sp := CLEARED], s.blocks), sp, i);
    assert !CLEARED.Owns(i) && s0.bufs[sp].ref == NULL && OwnedBlocks(s0.bufs[sp]) == {};
    assert s0.blocks == s.blocks && Drop(s0, sp).bufs == s.bufs && Drop(s0, sp).blocks == s.blocks;
  }

  lemma PartExact(s: Heap, nb: Ptr, i: nat, size: nat, dp: Ptr)
    requires nb in s.bufs && nb != NULL && i < 4
    ensures var (s1, r) := AllocPart(s, nb, i, size, dp);
      var was, large := s.bufs[nb], LargeEnough(s, nb, i, size);
      && (r == NULL <==> dp == NULL && !large)
      && (r == NULL ==> s1 == Release(Detached(s, nb, i), nb))
      && (r != NULL ==>
        && r == nb && r in s1.bufs
        && s1.bufs[r].next == was.next && s1.bufs[r].ref == was.ref && Count(s1.bufs[r].flags) == Count(was.flags)
        && s1.bufs[r].parts == was.parts[i := Part(if large then was.parts[i].vp else dp, size)]
        && (forall j :: 0 <= j < 4 ==> (s1.bufs[r].Owns(j) <==> j == i || was.Owns(j)))
        && (forall b :: b in s.bufs && b != nb ==> b in s1.bufs && s1.bufs[b] == s.bufs[b])
        && s1.bufs.Keys == s.bufs.Keys
        && (large ==> s1.blocks == s.blocks)
        && (!large ==> dp in s1.blocks && |s1.blocks[dp]| == size))
  {
    hide Count, Release, PartFlag, Detached, Attached;
    if !LargeEnough(s, nb, i, size) {
      Replaced(s, nb, i, size, dp);
    }
  }

  lemma Replaced(s: Heap, nb: Ptr, i: nat, size: nat, dp: Ptr)
    requires nb in s.bufs && i < 4
    ensures nb in Detached(s, nb, i).bufs
    ensures var s1 := Attached(Detached(s, nb, i), nb, i, dp, size, NewBlock(size));
      var was := s.bufs[nb];
      && nb in s1.bufs
      && s1.bufs[nb].next == was.next && s1.bufs[nb].ref == was.ref && Count(s1.bufs[nb].flags) == Count(was.flags)
      && s1.bufs[nb].parts == was.parts[i := Part(dp, size)]
      && (forall j :: 0 <= j < 4 ==> (s1.bufs[nb].Owns(j) <==> j == i || was.Owns(j)))
      && (forall b :: b in s.bufs && b != nb ==> b in s1.bufs && s1.bufs[b] == s.bufs[b])
      && s1.bufs.Keys == s.bufs.Keys && dp in s1.blocks && |s1.blocks[dp]| == size
  {
    hide Count, PartFlag, Has;
    SetFlagFacts(s.bufs[nb].flags, i);
    assert s.bufs[nb].parts[i := NO_PART][i := Part(dp, size)] == s.bufs[nb].parts[i := Part(dp, size)];
  }

  lemma BornMore(s: Heap, h: multiset<Ptr>, born: map<Ptr, nat>, p: Ptr, k: nat)
    requires Inv(s, h, born) && p !in s.bufs
    ensures Inv(s, h, born[p := k])
  {
  }

  /** NutNetBufAlloc, whatever the reference count, leaves the data of every buffer as it was, except for the part
      asked for, if it takes nothing that is lent; a new structure has no other data. */
  lemma AllocKeepsData(s: Heap, h: multiset<Ptr>, born: map<Ptr, nat>, nb: Ptr, i: nat, size: nat, sp: Ptr, dp: Ptr,
      b: Ptr, j: nat)
    requires Inv(s, h, born) && i < 4 && size > 0 && Fresh(s, sp) && Fresh(s, dp) && (sp != NULL ==> sp != dp)
    requires nb != NULL ==> nb in h && nb in s.bufs && !AllocStrands(s, nb, i, size)
    requires b in Alloc(s, nb, i, size, sp, dp).0.bufs && j < 4 && (b == (if nb == NULL then sp else nb) ==> j != i)
    ensures
      var s1 := Alloc(s, nb, i, size, sp, dp).0;
      if b in s.bufs then Data(s1, b, j) == Data(s, b, j) else nb == NULL && b == sp && Data(s1, b, j) == []
  {
    hide Inv, Has, AllocPart, Data, AllocStrands;
    InvHandles(s, h, born);
    if nb != NULL {
      AllocPartInv(s, h, born, nb, i, size, dp);
      AllocPartKeepsData(s, h, born, nb, i, size, dp, b, j);
    } else if sp != NULL {
      var s0, h0, born0 := Heap(s.bufs[sp := CLEARED], s.blocks), h + multiset{sp}, born[sp := 0];
      ClearedInv(s, h, born, sp);
      ClearedOwnsNothing(s, sp, i, size);
      AllocPartInv(s0, h0, born0, sp, i, size, dp);
      AllocPartKeepsData(s0, h0, born0, sp, i, size, dp, b, j);
      ClearedData(s, sp, b, j);
    }
  }

  lemma ClearedData(s: Heap, sp: Ptr, b: Ptr, j: nat)
    requires j < 4 && (b == sp || b in s.bufs) && sp !in s.bufs
    ensures Data(Heap(s.bufs[sp := CLEARED], s.blocks), b, j) == if b == sp then [] else Data(s, b, j)
  {
  }

  lemma AllocPartKeepsData(s: Heap, h: multiset<Ptr>, born: map<Ptr, nat>, nb: Ptr, i: nat, size: nat, dp: Ptr, b: Ptr,
      j: nat)
    requires Inv(s, h, born) && nb in h && nb in s.bufs && i < 4 && size > 0 && Fresh(s, dp)
    requires !AllocStrands(s, nb, i, size)
    requires b in AllocPart(s, nb, i, size, dp).0.bufs && j < 4 && (b == nb ==> j != i)
    ensures b in s.bufs && Data(AllocPart(s, nb, i, size, dp).0, b, j) == Data(s, b, j)
  {
    hide Inv, Has, AllocPart, Data, AllocStrands;
    InvHandles(s, h, born);
    AllocPartInv(s, h, born, nb, i, size, dp);
    var (s1, r) := AllocPart(s, nb, i, size, dp);
    SameData(s, h, born, s1, if r == NULL then h - multiset{nb} else h, born, b, j);
  }

  // ----- Allocating in a referenced buffer

  /** A part that is not empty but has no live block, or not one of its size. */
  predicate Dangles(s: Heap, c: Ptr, j: nat)
    requires j < 4
  {
    && c in s.bufs && s.bufs[c].parts[j].sz > 0
    && (s.bufs[c].parts[j].vp in s.blocks ==> s.bufs[c].parts[j].sz > |s.blocks[s.bufs[c].parts[j].vp]|)
  }

  ghost predicate NothingDangles(s: Heap) {
    forall c, j :: 0 <= j < 4 ==> !Dangles(s, c, j)
  }

  lemma InvNothingDangles(s: Heap, h: multiset<Ptr>, born: map<Ptr, nat>)
    requires Inv(s, h, born)
    ensures NothingDangles(s)
  {
    hide Inv, Has, OnChain;
    forall c, j | 0 <= j < 4 ensures !Dangles(s, c, j) {
      if c in s.bufs && s.bufs[c].parts[j].sz > 0 {
        var _ := OwnerOnChain(s, h, born, c, j);
      }
    }
  }

  /** A part in an owned block that is not the owner's borrows it. */
  lemma OnlyBorrowers(s: Heap, h: multiset<Ptr>, born: map<Ptr, nat>, nb: Ptr, i: nat, c: Ptr, j: nat)
    requires Inv(s, h, born) && nb in s.bufs && i < 4 && s.bufs[nb].Owns(i)
    requires c in s.bufs && j < 4 && (c != nb || j != i) && s.bufs[c].parts[j].sz > 0
    requires s.bufs[c].parts[j].vp == s.bufs[nb].parts[i].vp
    ensures j == i && Borrows(s, nb, i, c)
  {
    hide Inv, Has, OnChain;
    var blk := s.bufs[c].parts[j].vp;
    var o := OwnerOnChain(s, h, born, c, j);
    assert OwnsBlock(s, nb, i, blk) by { InvAddresses(s, h, born); }
    OneOwner(s, h, born, nb, i, o, j, blk);
    if s.bufs[c].Owns(j) {
      assert OwnsBlock(s, c, j, blk);
      OneOwner(s, h, born, nb, i, c, j, blk);
    }
  }

  lemma OneOwner(s: Heap, h: multiset<Ptr>, born: map<Ptr, nat>, b: Ptr, i: nat, c: Ptr, j: nat, blk: Ptr)
    requires Inv(s, h, born) && i < 4 && j < 4 && OwnsBlock(s, b, i, blk) && OwnsBlock(s, c, j, blk)
    ensures b == c && i == j
  {
  }

  lemma InvAddresses(s: Heap, h: multiset<Ptr>, born: map<Ptr, nat>)
    requires Inv(s, h, born)
    ensures NULL !in s.bufs && NULL !in s.blocks
  {
  }

  /** Emptying a part, and releasing its block if it is owned, leaves parts dangling exactly if it is owned and
      lent; and those that dangle lie in blocks there were before. */
  lemma DetachDangles(s: Heap, h: multiset<Ptr>, born: map<Ptr, nat>, nb: Ptr, i: nat)
    requires Inv(s, h, born) && nb in s.bufs && i < 4
    ensures NothingDangles(Detached(s, nb, i)) <==> !(s.bufs[nb].Owns(i) && Lent(s, nb, i))
    ensures forall c, j :: 0 <= j < 4 && Dangles(Detached(s, nb, i), c, j) ==> s.bufs[c].parts[j].vp in s.blocks
  {
    hide Inv, Has, OnChain;
    var s1 := Detached(s, nb, i);
    InvNothingDangles(s, h, born);
    forall c, j | 0 <= j < 4 && Dangles(s1, c, j)
      ensures s.bufs[nb].Owns(i) && Borrows(s, nb, i, c) && s.bufs[c].parts[j].vp in s.blocks
    {
      assert !Dangles(s, c, j) && s1.bufs[c].parts[j] == s.bufs[c].parts[j];
      OnlyBorrowers(s, h, born, nb, i, c, j);
    }
    if s.bufs[nb].Owns(i) && Lent(s, nb, i) {
      var c :| Borrows(s, nb, i, c);
      assert Dangles(s1, c, i);
    }
  }

  /** Once a block that is lent is gone, its borrowers dangle. */
  lemma BorrowerDangles(s: Heap, nb: Ptr, i: nat, s1: Heap)
    requires nb in s.bufs && i < 4 && Strands(s, nb, i) && s.bufs[nb].parts[i].vp !in s1.blocks
    requires forall c :: c in s.bufs && c != nb ==> c in s1.bufs && s1.bufs[c].parts == s.bufs[c].parts
    ensures !NothingDangles(s1)
  {
    hide Has;
    var c :| Borrows(s, nb, i, c);
    assert Dangles(s1, c, i);
  }

  /** NutNetBufAlloc, whatever the reference count: a part is left without its block if and only if an owned block
      that is too small is replaced while another buffer borrows it.  A new structure, and a block that is large
      enough, do no harm. */
  lemma AllocDangles(s: Heap, h: multiset<Ptr>, born: map<Ptr, nat>, nb: Ptr, i: nat, size: nat, sp: Ptr, dp: Ptr)
    requires Inv(s, h, born) && i < 4 && size > 0 && (nb != NULL ==> nb in h && nb in s.bufs)
    requires Fresh(s, sp) && Fresh(s, dp) && (sp != NULL ==> sp != dp)
    ensures NothingDangles(Alloc(s, nb, i, size, sp, dp).0) <==> !(nb != NULL && AllocStrands(s, nb, i, size))
  {
    hide Inv, Has, Count, Strands, Release, NothingDangles, PartFlag;
    var (s1, r) := Alloc(s, nb, i, size, sp, dp);
    if nb == NULL || !AllocStrands(s, nb, i, size) {
      AllocKeeps(s, h, born, nb, i, size, sp, dp);
      InvNothingDangles(s1, HandlesAfter(h, nb, r), BornAfter(born, nb, sp));
    } else {
      StrandsOwned(s, h, born, nb, i);
      if dp == NULL {
        CountedDown(Detached(s, nb, i), nb);
      }
      BorrowerDangles(s, nb, i, s1);
    }
  }

  lemma StrandsOwned(s: Heap, h: multiset<Ptr>, born: map<Ptr, nat>, nb: Ptr, i: nat)
    requires Inv(s, h, born) && nb in h && nb in s.bufs && i < 4 && Strands(s, nb, i)
    ensures s.bufs[nb].Owns(i) && s.bufs[nb].parts[i].vp in s.blocks && s.bufs[nb].flags & NBAF_REFCNT != 0
  {
    hide Inv, Has, OnChain;
    if s.bufs[nb].flags & NBAF_REFCNT == 0 {
      UnsharedNotLent(s, h, born, nb, i);
    }
    var c :| Borrows(s, nb, i, c);
    var o := OwnerOnChain(s, h, born, c, i);
  }

  lemma CountedDown(s: Heap, nb: Ptr)
    requires nb in s.bufs && s.bufs[nb].flags & NBAF_REFCNT != 0
    ensures Release(s, nb).blocks == s.blocks && Release(s, nb).bufs.Keys == s.bufs.Keys
    ensures forall c :: c in s.bufs ==> Release(s, nb).bufs[c].parts == s.bufs[c].parts
  {
  }

  // ----- NutNetBufClonePart

  predicate Copies(parts: Parts, inserts: bv8, i: nat)
    requires i < 4
  {
    parts[i].sz > 0 && Has(inserts, i)
  }

  predicate Borrowing(parts: Parts, inserts: bv8) {
    exists i :: 0 <= i < 4 && parts[i].sz > 0 && !Has(inserts, i)
  }

  function ClonedPart(parts: Parts, inserts: bv8, at: seq<Ptr>, i: nat): Part
    requires i < 4 && |at| == 4
  {
    if parts[i].sz == 0 then NO_PART else if Has(inserts, i) then Part(at[i], parts[i].sz) else parts[i]
  }

  function ClonedParts(parts: Parts, inserts: bv8, at: seq<Ptr>): Parts
    requires |at| == 4
  {
    [ClonedPart(parts, inserts, at, 0), ClonedPart(parts, inserts, at, 1), ClonedPart(parts, inserts, at, 2),
      ClonedPart(parts, inserts, at, 3)]
  }

  function ClonedFlags(parts: Parts, inserts: bv8, n: nat): bv8
    requires n <= 4
  {
    if n == 0 then 0
    else if Copies(parts, inserts, n - 1) then ClonedFlags(parts, inserts, n - 1) | PartFlag(n - 1)
    else ClonedFlags(parts, inserts, n - 1)
  }

  function Bytes(blocks: map<Ptr, seq<byte>>, p: Part): seq<byte> {
    if p.vp in blocks && p.sz <= |blocks[p.vp]| then blocks[p.vp][..p.sz] else []
  }

  function ClonedBlocks(blocks: map<Ptr, seq<byte>>, parts: Parts, inserts: bv8, at: seq<Ptr>,
      n: nat): map<Ptr, seq<byte>>
    requires n <= 4 && |at| == 4
  {
    if n == 0 then blocks
    else
      var before := ClonedBlocks(blocks, parts, inserts, at, n - 1);
      if Copies(parts, inserts, n - 1) then before[at[n - 1] := Bytes(blocks, parts[n - 1])] else before
  }

  /** The answers for a clone's structure and its four parts: unused and pairwise different. */
  predicate Answers(s: Heap, c: Ptr, at: seq<Ptr>) {
    && |at| == 4 && Fresh(s, c)
    && (forall i :: 0 <= i < 4 ==> Fresh(s, at[i]) && (at[i] != NULL ==> at[i] != c))
    && (forall i, j :: 0 <= i < j < 4 && at[i] != NULL ==> at[i] != at[j])
  }

  /** A saturated buffer cannot be referenced once more, so everything is copied. */
  function Inserts(nb: NetBuf, inserts: bv8): bv8 {
    if nb.flags & NBAF_REFCNT == NBAF_REFCNT then NBAF_ALL else inserts
  }

  function ClonePart(s: Heap, nbp: Ptr, inserts: bv8, c: Ptr, at: seq<Ptr>): (Heap, Ptr)
    requires nbp in s.bufs && |at| == 4
  {
    var nb := s.bufs[nbp];
    var ins := Inserts(nb, inserts);
    if c == NULL || (exists i :: 0 <= i < 4 && Copies(nb.parts, ins, i) && at[i] == NULL) then (s, NULL)
    else
      var blocks := ClonedBlocks(s.blocks, nb.parts, ins, at, 4);
      var cb := NetBuf(NULL, ClonedFlags(nb.parts, ins, 4), ClonedParts(nb.parts, ins, at), NULL);
      if Borrowing(nb.parts, ins) then
        (Heap(s.bufs[nbp := nb.(flags := nb.flags + 1)][c := cb.(ref := nbp)], blocks), c)
      else
        (Heap(s.bufs[c := cb], blocks), c)
  }

  lemma {:induction false} ClonedFlagsFacts(parts: Parts, inserts: bv8, n: nat)
    requires n <= 4
    ensures ClonedFlags(parts, inserts, n) & NBAF_REFCNT == 0
    ensures forall j :: 0 <= j < 4 ==> (Has(ClonedFlags(parts, inserts, n), j) <==> j < n && Copies(parts, inserts, j))
  {
    hide Copies, Count, Has, PartFlag;
    if n > 0 {
      var before := ClonedFlags(parts, inserts, n - 1);
      ClonedFlagsFacts(parts, inserts, n - 1);
      SetFlagFacts(before, n - 1);
      CountZero(before);
      CountZero(before | PartFlag(n - 1));
      forall j | 0 <= j < 4 ensures Has(ClonedFlags(parts, inserts, n), j) <==> j < n && Copies(parts, inserts, j) {
        assert Has(before, j) <==> j < n - 1 && Copies(parts, inserts, j);
      }
    } else {
      NoFlags();
    }
  }

  lemma NoFlags()
    ensures forall j :: 0 <= j < 4 ==> !Has(0, j) && Has(NBAF_ALL, j)
  {
  }

  function CopyTargets(parts: Parts, inserts: bv8, at: seq<Ptr>, n: nat): set<Ptr>
    requires n <= 4 && |at| == 4
  {
    set i | 0 <= i < n && Copies(parts, inserts, i) :: at[i]
  }

  lemma {:induction false} ClonedBlocksFacts(s: Heap, c: Ptr, parts: Parts, inserts: bv8, at: seq<Ptr>, n: nat)
    requires n <= 4 && Answers(s, c, at)
    requires forall i :: 0 <= i < 4 && Copies(parts, inserts, i) ==> at[i] != NULL
    ensures var blocks := ClonedBlocks(s.blocks, parts, inserts, at, n);
      && blocks.Keys == s.blocks.Keys + CopyTargets(parts, inserts, at, n)
      && (forall p :: p in s.blocks ==> blocks[p] == s.blocks[p])
      && (forall i :: 0 <= i < n && Copies(parts, inserts, i) ==> blocks[at[i]] == Bytes(s.blocks, parts[i]))
  {
    hide Copies, Bytes;
    if n > 0 {
      ClonedBlocksFacts(s, c, parts, inserts, at, n - 1);
    }
  }

  lemma CloneAddable(s: Heap, h: multiset<Ptr>, born: map<Ptr, nat>, nbp: Ptr, ins: bv8, c: Ptr, at: seq<Ptr>,
      cb: NetBuf, k: nat)
    requires Inv(s, h, born) && nbp in s.bufs && Answers(s, c, at) && c != NULL
    requires forall i :: 0 <= i < 4 && Copies(s.bufs[nbp].parts, ins, i) ==> at[i] != NULL
    requires cb.flags == ClonedFlags(s.bufs[nbp].parts, ins, 4) && cb.parts == ClonedParts(s.bufs[nbp].parts, ins, at)
    requires
      if Borrowing(s.bufs[nbp].parts, ins) then
        cb.ref == nbp && nbp in h && nbp in born && born[nbp] < k
      else
        cb.ref == NULL
    ensures Addable(s, h, born, c, cb, ClonedBlocks(s.blocks, s.bufs[nbp].parts, ins, at, 4), k)
  {
    hide Inv, Has, Count, ClonedBlocks, ClonedFlags, PartFlag, Bytes, Copies;
    var parts := s.bufs[nbp].parts;
    var blocks := ClonedBlocks(s.blocks, parts, ins, at, 4);
    ClonedFlagsFacts(parts, ins, 4);
    ClonedBlocksFacts(s, c, parts, ins, at, 4);
    forall i | 0 <= i < 4
      ensures cb.parts[i] == ClonedPart(parts, ins, at, i)
      ensures if Copies(parts, ins, i) then cb.parts[i] == Part(at[i], |blocks[at[i]]|)
        else cb.parts[i] == NO_PART || (cb.parts[i] == parts[i] && parts[i].sz > 0 && Borrowing(parts, ins))
    {
      CopiedSize(s, h, born, nbp, ins, i);
    }
    assert OwnedBlocks(cb) == CopyTargets(parts, ins, at, 4);
  }

  lemma CopiedSize(s: Heap, h: multiset<Ptr>, born: map<Ptr, nat>, b: Ptr, ins: bv8, i: nat)
    requires Inv(s, h, born) && b in s.bufs && i < 4
    ensures |Bytes(s.blocks, s.bufs[b].parts[i])| == s.bufs[b].parts[i].sz
    ensures Copies(s.bufs[b].parts, ins, i) <==> s.bufs[b].parts[i].sz > 0 && Has(ins, i)
  {
    hide Inv, OnChain, Has;
    DataSize(s, h, born, b, i);
  }

  /** NutNetBufClonePart keeps the invariant; the clone comes with a handle of its own. */
  lemma CloneInv(s: Heap, h: multiset<Ptr>, born: map<Ptr, nat>, nbp: Ptr, inserts: bv8, c: Ptr, at: seq<Ptr>)
    requires Inv(s, h, born) && nbp in s.bufs && Answers(s, c, at)
    ensures var (s1, r) := ClonePart(s, nbp, inserts, c, at);
      && nbp in born && (r == NULL ==> s1 == s)
      && (r != NULL ==> r == c && Inv(s1, h + multiset{r}, born[r := born[nbp] + 1]))
  {
    hide Inv, Has, Count, Addable, ClonedBlocks, ClonedFlags, PartFlag;
    var nb := s.bufs[nbp];
    var ins := Inserts(nb, inserts);
    var (s1, r) := ClonePart(s, nbp, inserts, c, at);
    InvBorn(s, h, born, nbp);
    InvHandles(s, h, born);
    if r != NULL {
      var cb := NetBuf(NULL, ClonedFlags(nb.parts, ins, 4), ClonedParts(nb.parts, ins, at), NULL);
      var blocks := ClonedBlocks(s.blocks, nb.parts, ins, at, 4);
      if Borrowing(nb.parts, ins) {
        NotSaturated(nb, inserts);
        var s0, h0 := s.(bufs := s.bufs[nbp := nb.(flags := nb.flags + 1)]), h + multiset{nbp};
        CountUpInv(s, h, born, nbp);
        CloneAddable(s0, h0, born, nbp, ins, c, at, cb.(ref := nbp), born[nbp] + 1);
        AddBuf(s0, h0, born, c, cb.(ref := nbp), blocks, born[nbp] + 1);
        assert h0 - multiset{nbp} + multiset{c} == h + multiset{c};
      } else {
        CloneAddable(s, h, born, nbp, ins, c, at, cb, born[nbp] + 1);
        AddBuf(s, h, born, c, cb, blocks, born[nbp] + 1);
        assert h - multiset{} + multiset{c} == h + multiset{c};
      }
    }
  }

  /** A part that a clone gets a copy of: one that is asked for, or any if the count is saturated. */
  predicate Duplicated(nb: NetBuf, inserts: bv8, i: nat)
    requires i < 4
  {
    nb.parts[i].sz > 0 && (nb.flags & NBAF_REFCNT == NBAF_REFCNT || inserts & PartFlag(i) != 0)
  }

  /** When NutNetBufClonePart fails: if and only if there is no memory for the structure or for a part that is to be
      copied, and then nothing has changed.  Otherwise the clone owns copies of just these parts and borrows the
      other parts that are not empty; it refers to the original, which counts it, if and only if it borrows. */
  lemma CloneExact(s: Heap, h: multiset<Ptr>, born: map<Ptr, nat>, nbp: Ptr, inserts: bv8, c: Ptr, at: seq<Ptr>)
    requires Inv(s, h, born) && nbp in s.bufs && Answers(s, c, at)
    ensures var (s1, r) := ClonePart(s, nbp, inserts, c, at);
      var nb := s.bufs[nbp];
      var borrows := exists i :: 0 <= i < 4 && nb.parts[i].sz > 0 && !Duplicated(nb, inserts, i);
      && (r == NULL <==> c == NULL || exists i :: 0 <= i < 4 && Duplicated(nb, inserts, i) && at[i] == NULL)
      && (r == NULL ==> s1 == s)
      && (r != NULL ==>
        && r == c && c in s1.bufs && s1.bufs.Keys == s.bufs.Keys + {c}
        && s1.bufs[c].next == NULL && Count(s1.bufs[c].flags) == 0 && s1.bufs[c].ref == (if borrows then nbp else NULL)
        && (forall i :: 0 <= i < 4 ==>
          && (s1.bufs[c].Owns(i) <==> Duplicated(nb, inserts, i))
          && (nb.parts[i].sz == 0 ==> s1.bufs[c].parts[i] == NO_PART)
          && (Duplicated(nb, inserts, i) ==> s1.bufs[c].parts[i] == Part(at[i], nb.parts[i].sz))
          && (nb.parts[i].sz > 0 && !Duplicated(nb, inserts, i) ==> s1.bufs[c].parts[i] == nb.parts[i]))
        && nbp in s1.bufs && s1.bufs[nbp] == nb.(flags := s1.bufs[nbp].flags)
        && Count(s1.bufs[nbp].flags) == Count(nb.flags) + (if borrows then 1 else 0)
        && (forall b :: b in s.bufs && b != nbp ==> b in s1.bufs && s1.bufs[b] == s.bufs[b])
        && (forall p :: p in s.blocks ==> p in s1.blocks && s1.blocks[p] == s.blocks[p]))
  {
    hide Inv, Count, ClonedFlags, ClonedBlocks, PartFlag, Bytes;
    var nb := s.bufs[nbp];
    var ins := Inserts(nb, inserts);
    var (s1, r) := ClonePart(s, nbp, inserts, c, at);
    DuplicatedIs(nb, inserts);
    if r != NULL {
      ClonedFlagsFacts(nb.parts, ins, 4);
      CountZero(ClonedFlags(nb.parts, ins, 4));
      ClonedBlocksFacts(s, c, nb.parts, ins, at, 4);
      if Borrowing(nb.parts, ins) {
        NotSaturated(nb, inserts);
        CountUp(nb.flags);
      }
      forall i | 0 <= i < 4 ensures s1.bufs[c].parts[i] == ClonedPart(nb.parts, ins, at, i) {
      }
    }
  }

  lemma DuplicatedIs(nb: NetBuf, inserts: bv8)
    ensures forall i :: 0 <= i < 4 ==>
      (Duplicated(nb, inserts, i) <==> Copies(nb.parts, Inserts(nb, inserts), i))
    ensures Borrowing(nb.parts, Inserts(nb, inserts))
      <==> exists i :: 0 <= i < 4 && nb.parts[i].sz > 0 && !Duplicated(nb, inserts, i)
  {
    hide PartFlag;
    NoFlags();
  }

  lemma InvBorn(s: Heap, h: multiset<Ptr>, born: map<Ptr, nat>, b: Ptr)
    requires Inv(s, h, born) && b in s.bufs
    ensures b in born
  {
  }

  /** A saturated buffer is copied as a whole, so only an unsaturated one gets referenced. */
  lemma NotSaturated(nb: NetBuf, inserts: bv8)
    requires Borrowing(nb.parts, Inserts(nb, inserts))
    ensures nb.flags & NBAF_REFCNT != NBAF_REFCNT
  {
    NoFlags();
  }

  lemma CountUpInv(s: Heap, h: multiset<Ptr>, born: map<Ptr, nat>, nb: Ptr)
    requires Inv(s, h, born) && nb in s.bufs && s.bufs[nb].flags & NBAF_REFCNT != NBAF_REFCNT
    ensures Inv(s.(bufs := s.bufs[nb := s.bufs[nb].(flags := s.bufs[nb].flags + 1)]), h + multiset{nb}, born)
  {
    hide Count, Has, RefsOk, CountsOk, OwnedOk, UniqueOk, NoLeak, BorrowedOk;
    CountUp(s.bufs[nb].flags);
    FlagsChanged(s, nb, s.bufs[nb].flags + 1);
    RecountOne(s, h, h + multiset{nb}, nb, s.bufs[nb].flags + 1);
  }

  /** The clone shows the original's data, and everybody else shows what they showed before. */
  lemma CloneData(s: Heap, h: multiset<Ptr>, born: map<Ptr, nat>, nbp: Ptr, inserts: bv8, c: Ptr, at: seq<Ptr>, b: Ptr,
      i: nat)
    requires Inv(s, h, born) && nbp in s.bufs && Answers(s, c, at) && i < 4
    requires ClonePart(s, nbp, inserts, c, at).1 != NULL && (b == c || b in s.bufs)
    ensures
      var s1 := ClonePart(s, nbp, inserts, c, at).0;
      b in s1.bufs && Data(s1, b, i) == Data(s, if b == c then nbp else b, i)
  {
    hide Inv, Has, Count, Addable, ClonedBlocks, ClonedFlags, PartFlag;
    var nb := s.bufs[nbp];
    var ins := Inserts(nb, inserts);
    var s1 := ClonePart(s, nbp, inserts, c, at).0;
    CloneInv(s, h, born, nbp, inserts, c, at);
    ClonedBlocksFacts(s, c, nb.parts, ins, at, 4);
    var born1 := born[c := born[nbp] + 1];
    if b != c {
      assert s1.bufs[b].parts == s.bufs[b].parts;
      SameData(s, h, born, s1, h + multiset{c}, born1, b, i);
    } else {
      assert s1.bufs[c].parts[i] == ClonedPart(nb.parts, ins, at, i);
      DataSize(s, h, born, nbp, i);
      DataSize(s1, h + multiset{c}, born1, c, i);
    }
  }
}

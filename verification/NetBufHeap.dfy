/** The operations of dev/netbuf.c statement by statement on a heap that is updated in place, each
    proved to do what the functions of NetBuf, NetBufOps and NetBufRuns say.  That no operation
    touches released memory or releases a block twice is in the preconditions of HeapFree and of every
    map access. */
module NetBufHeap {
  import opened NetBuf
  import opened NetBufOps
  import opened NetBufRuns

  // ----- Releasing along a chain of originals

  /** The owned blocks of a buffer that are released first. */
  function OwnedUpTo(b: NetBuf, n: nat): set<Ptr>
    requires n <= 4
  {
    set i | 0 <= i < n && b.Owns(i) :: b.parts[i].vp
  }

  ghost predicate BlocksReleasable(s: Heap, b: NetBuf) {
    && NULL !in s.blocks
    && (forall i :: 0 <= i < 4 && b.Owns(i) && b.parts[i].vp != NULL ==> b.parts[i].vp in s.blocks)
    && (forall i, j :: 0 <= i < j < 4 && b.Owns(i) && b.Owns(j) && b.parts[i].vp != NULL ==>
      b.parts[i].vp != b.parts[j].vp)
  }

  /** Everything a release will touch is there to be touched. */
  ghost predicate Releasable(s: Heap, nb: Ptr, born: map<Ptr, nat>)
    decreases |s.bufs|
  {
    && nb in s.bufs && nb in born
    && (s.bufs[nb].flags & NBAF_REFCNT == 0 ==>
      && BlocksReleasable(s, s.bufs[nb])
      && (s.bufs[nb].ref != NULL ==>
        && s.bufs[nb].ref in Drop(s, nb).bufs && s.bufs[nb].ref in born && born[s.bufs[nb].ref] < born[nb]
        && (assert |Drop(s, nb).bufs.Keys| == |s.bufs.Keys - {nb}|; Releasable(Drop(s, nb), s.bufs[nb].ref, born)))
      && (s.bufs[nb].ref == NULL ==> NULL !in s.bufs))
  }

  lemma {:induction false} InvReleasable(s: Heap, h: multiset<Ptr>, born: map<Ptr, nat>, nb: Ptr)
    requires Inv(s, h, born) && nb in h
    ensures Releasable(s, nb, born)
    decreases |s.bufs|
  {
    hide Has, Count;
    if s.bufs[nb].flags & NBAF_REFCNT == 0 {
      InvBlocksReleasable(s, h, born, nb);
      DropInv(s, h, born, nb);
      if s.bufs[nb].ref != NULL {
        assert |Drop(s, nb).bufs.Keys| == |s.bufs.Keys - {nb}|;
        InvReleasable(Drop(s, nb), Passed(s, h, nb), born, s.bufs[nb].ref);
      }
    }
  }

  /** A buffer with one part emptied can be released, be it referenced or not. */
  lemma DetachReleasable(s: Heap, h: multiset<Ptr>, born: map<Ptr, nat>, nb: Ptr, i: nat)
    requires Inv(s, h, born) && nb in h && nb in s.bufs && i < 4
    ensures Releasable(Detached(s, nb, i), nb, born)
  {
    hide Inv, Has, Count, Strands;
    if s.bufs[nb].flags & NBAF_REFCNT == 0 {
      UnsharedNotLent(s, h, born, nb, i);
      DetachInv(s, h, born, nb, i);
      InvReleasable(Detached(s, nb, i), h, born, nb);
    } else {
      InvBorn(s, h, born, nb);
    }
  }

  lemma InvBlocksReleasable(s: Heap, h: multiset<Ptr>, born: map<Ptr, nat>, nb: Ptr)
    requires Inv(s, h, born) && nb in s.bufs
    ensures BlocksReleasable(s, s.bufs[nb])
  {
    hide Has, CountsOk, RefsOk, NoLeak, BorrowedOk;
    var b := s.bufs[nb];
    forall i, j | 0 <= i < j < 4 && b.Owns(i) && b.Owns(j) && b.parts[i].vp != NULL
      ensures b.parts[i].vp != b.parts[j].vp {
      assert OwnsBlock(s, nb, i, b.parts[i].vp);
      OtherPart(s, nb, i, nb, j, b.parts[i].vp);
    }
  }

  /** A structure younger than everything on the chain does not matter to a release. */
  lemma {:induction false} ReleasableBeside(s: Heap, z: Ptr, zb: NetBuf, x: Ptr, born: map<Ptr, nat>)
    requires Releasable(s, x, born) && z !in s.bufs && z != NULL && z in born && born[x] < born[z]
    ensures Releasable(s.(bufs := s.bufs[z := zb]), x, born)
    decreases |s.bufs|
  {
    hide BlocksReleasable, Drop;
    DropBeside(s, z, zb, x);
    var b := s.bufs[x];
    if b.flags & NBAF_REFCNT == 0 {
      SameBlocksReleasable(s, s.(bufs := s.bufs[z := zb]), b);
      if b.ref != NULL {
        assert |Drop(s, x).bufs.Keys| == |s.bufs.Keys - {x}|;
        ReleasableBeside(Drop(s, x), z, zb, b.ref, born);
      }
    }
  }

  lemma {:induction false} ReleaseBeside(s: Heap, z: Ptr, zb: NetBuf, x: Ptr, born: map<Ptr, nat>)
    requires Releasable(s, x, born) && z !in s.bufs && z != NULL && z in born && born[x] < born[z]
    ensures Release(s.(bufs := s.bufs[z := zb]), x) == Release(s, x).(bufs := Release(s, x).bufs[z := zb])
    ensures z !in Release(s, x).bufs
    decreases |s.bufs|
  {
    hide BlocksReleasable, Drop;
    DropBeside(s, z, zb, x);
    var sz, b := s.(bufs := s.bufs[z := zb]), s.bufs[x];
    if b.flags & NBAF_REFCNT != 0 {
      MapPutCommutes(s.bufs, x, b.(flags := b.flags - 1), z, zb);
    } else if b.ref != NULL {
      assert |Drop(s, x).bufs.Keys| == |s.bufs.Keys - {x}|;
      ReleaseBeside(Drop(s, x), z, zb, b.ref, born);
      ReleaseStep(s, x);
      ReleaseStep(sz, x);
    }
  }

  lemma MapPutCommutes<K, V>(m: map<K, V>, k: K, v: V, l: K, w: V)
    requires k != l
    ensures m[k := v][l := w] == m[l := w][k := v]
  {
  }

  lemma ReleaseStep(s: Heap, x: Ptr)
    requires x in s.bufs && s.bufs[x].flags & NBAF_REFCNT == 0 && s.bufs[x].ref in Drop(s, x).bufs
    ensures Release(s, x) == Release(Drop(s, x), s.bufs[x].ref)
  {
  }

  lemma DropBeside(s: Heap, z: Ptr, zb: NetBuf, x: Ptr)
    requires x in s.bufs && z !in s.bufs
    ensures Drop(s.(bufs := s.bufs[z := zb]), x) == Drop(s, x).(bufs := Drop(s, x).bufs[z := zb])
    ensures Drop(s, x).bufs == s.bufs - {x} && Drop(s.(bufs := s.bufs[z := zb]), x).bufs == s.bufs[z := zb] - {x}
  {
  }

  lemma SameBlocksReleasable(s: Heap, s1: Heap, b: NetBuf)
    requires BlocksReleasable(s, b) && s1.blocks == s.blocks
    ensures BlocksReleasable(s1, b)
  {
  }

  class NutHeap {
    var bufs: map<Ptr, NetBuf>
    var blocks: map<Ptr, seq<byte>>

    function Store(): Heap
      reads this
    {
      Heap(bufs, blocks)
    }

    constructor ()
      ensures Store() == Heap(map[], map[])
    {
      bufs, blocks := map[], map[];
    }

    /** NutHeapFree, for data blocks; releasing a null pointer does nothing. */
    method HeapFree(p: Ptr)
      requires NULL !in blocks && (p == NULL || p in blocks)
      modifies this`blocks
      ensures blocks == old(blocks) - {p}
    {
      if p != NULL {
        blocks := blocks - {p};
      }
    }

    /** NutNetBufAllocData: `p` is the allocator's answer. */
    method AllocData(p: Ptr, size: nat) returns (part: Part, rc: int)
      requires Fresh(Store(), p)
      modifies this`blocks
      ensures p == NULL ==> rc == -1 && part == NO_PART && blocks == old(blocks)
      ensures p != NULL ==> rc == 0 && part == Part(p, size) && blocks == old(blocks)[p := NewBlock(size)]
    {
      if p != NULL {
        blocks := blocks[p := NewBlock(size)];
        return Part(p, size), 0;
      }
      return NO_PART, -1;
    }

    method NetBufFree(nb: Ptr, ghost born: map<Ptr, nat>)
      requires Releasable(Store(), nb, born) && nb != NULL
      modifies this
      ensures Store() == Release(old(Store()), nb)
      decreases born[nb]
    {
      hide Has, Count;
      ghost var s := Store();
      var b := bufs[nb];
      if b.flags & NBAF_REFCNT != 0 {
        bufs := bufs[nb := b.(flags := b.flags - 1)];
      } else {
        FreeParts(b);
        ghost var s1 := Drop(s, nb);
        assert Store() == s1.(bufs := s1.bufs[nb := b]);
        if b.ref != NULL {
          ReleasableBeside(s1, nb, b, b.ref, born);
          ReleaseBeside(s1, nb, b, b.ref, born);
          NetBufFree(b.ref, born);
          assert bufs - {nb} == Release(s1, b.ref).bufs;
        } else {
          assert bufs - {nb} == s1.bufs;
        }
        bufs := bufs - {nb};
      }
    }

    /** Releases the parts a structure owns. */
    method FreeParts(b: NetBuf)
      requires BlocksReleasable(Store(), b)
      modifies this`blocks
      ensures blocks == old(blocks) - OwnedBlocks(b)
    {
      hide Has;
      var i := 0;
      while i < 4
        invariant 0 <= i <= 4
        invariant blocks == old(blocks) - OwnedUpTo(b, i)
      {
        assert OwnedUpTo(b, i + 1) == if b.Owns(i) then OwnedUpTo(b, i) + {b.parts[i].vp} else OwnedUpTo(b, i);
        if b.Owns(i) {
          HeapFree(b.parts[i].vp);
        }
        i := i + 1;
      }
      assert OwnedUpTo(b, 4) == OwnedBlocks(b);
    }

    method NetBufAlloc(nb: Ptr, i: nat, size: nat, sp: Ptr, dp: Ptr, ghost h: multiset<Ptr>, ghost born: map<Ptr, nat>)
      returns (r: Ptr)
      requires Inv(Store(), h, born) && i < 4 && size > 0 && Fresh(Store(), sp) && Fresh(Store(), dp)
      requires (sp != NULL ==> sp != dp)
      requires nb != NULL ==> nb in h && nb in bufs
      modifies this
      ensures (Store(), r) == Alloc(old(Store()), nb, i, size, sp, dp)
    {
      hide Inv, Has, Count, Release, Releasable;
      InvHandles(Store(), h, born);
      r := nb;
      ghost var h1, born1 := h, born;
      if r == NULL {
        if sp != NULL {
          ClearedInv(Store(), h, born, sp);
          h1, born1 := h + multiset{sp}, born[sp := 0];
          bufs := bufs[sp := CLEARED];
        }
        r := sp;
      }
      if r != NULL {
        r := AllocIn(r, i, size, dp, h1, born1);
      }
    }

    /** NutNetBufAlloc once there is a structure. */
    method AllocIn(nb: Ptr, i: nat, size: nat, dp: Ptr, ghost h: multiset<Ptr>, ghost born: map<Ptr, nat>)
      returns (r: Ptr)
      requires Inv(Store(), h, born) && nb in h && nb in bufs && nb != NULL
      requires i < 4 && size > 0 && Fresh(Store(), dp)
      modifies this
      ensures (Store(), r) == AllocPart(old(Store()), nb, i, size, dp)
    {
      hide Inv, Has, Count, Release, Releasable, Detached, Attached, WithPart, Fresh, PartFlag;
      ghost var s := Store();
      InvHandles(s, h, born);
      DetachReleasable(s, h, born, nb, i);
      OwnedPartLive(s, h, born, nb, i);
      r := nb;
      var part := bufs[nb].parts[i];
      if bufs[nb].Owns(i) {
        if part.sz < size {
          HeapFree(part.vp);
          part := part.(sz := 0);
        } else {
          part := part.(sz := size);
        }
      } else {
        part := part.(sz := 0);
      }
      bufs := WithPart(bufs, nb, i, part);
      ghost var s1 := Store();
      if part.sz == 0 {
        ReplacingPart(s, s1, nb, i, part, dp, size);
        var rc;
        part, rc := AllocData(dp, size);
        bufs := WithPart(bufs, nb, i, part);
        if rc != 0 {
          NetBufFree(nb, born);
          r := NULL;
        } else {
          bufs := bufs[nb := bufs[nb].(flags := bufs[nb].flags | PartFlag(i))];
        }
      }
    }

    /** One part of NutNetBufClonePart: copied into a new block or borrowed. */
    method CloneOne(nb: Ptr, ins: bv8, c: Ptr, i: nat, answer: Ptr) returns (e: int)
      requires nb in bufs && c in bufs && c != nb && i < 4 && bufs[nb].parts[i].sz > 0 && Fresh(Store(), answer)
      requires bufs[nb].parts[i].vp in blocks && bufs[nb].parts[i].sz <= |blocks[bufs[nb].parts[i].vp]|
      modifies this
      ensures
        !Has(ins, i) ==> e == 0 && blocks == old(blocks) && bufs == WithPart(old(bufs), c, i, old(bufs)[nb].parts[i])
      ensures
        Has(ins, i) && answer == NULL ==> e != 0 && blocks == old(blocks) && bufs == WithPart(old(bufs), c, i, NO_PART)
      ensures Has(ins, i) && answer != NULL ==>
        && e == 0
        && blocks == old(blocks)[answer := Bytes(old(blocks), old(bufs)[nb].parts[i])]
        && bufs == old(bufs)[c := old(bufs)[c].(flags := old(bufs)[c].flags | PartFlag(i),
          parts := old(bufs)[c].parts[i := Part(answer, old(bufs)[nb].parts[i].sz)])]
    {
      hide Has, PartFlag;
      e := 0;
      var from := bufs[nb].parts[i];
      if Has(ins, i) {
        var part;
        part, e := AllocData(answer, from.sz);
        bufs := WithPart(bufs, c, i, part);
        if e == 0 {
          blocks := blocks[part.vp := blocks[from.vp][..from.sz]];
          bufs := bufs[c := bufs[c].(flags := bufs[c].flags | PartFlag(i))];
        }
      } else {
        bufs := WithPart(bufs, c, i, from);
      }
    }

    method NetBufClonePart(nb: Ptr, inserts: bv8, c: Ptr, at: seq<Ptr>, ghost h: multiset<Ptr>,
        ghost born: map<Ptr, nat>)
      returns (cb: Ptr)
      requires Inv(Store(), h, born) && nb in bufs && Answers(Store(), c, at)
      modifies this
      ensures (Store(), cb) == ClonePart(old(Store()), nb, inserts, c, at)
    {
      hide Inv, Has, Count, PartFlag, ClonedFlags, ClonedBlocks, PartialClone, Release, Releasable, Copies;
      hide Bytes, Answers;
      ghost var s := Store();
      ghost var parts := bufs[nb].parts;
      var ins := inserts;
      if bufs[nb].flags & NBAF_REFCNT == NBAF_REFCNT {
        ins := NBAF_ALL;
      }
      cb := c;
      if cb != NULL {
        CloneBegins(s, nb, ins, c, at);
        bufs := bufs[cb := CLEARED];
        var referenced, e, i := false, 0, 0;
        ghost var n: nat := 0;
        while i < 4
          invariant 0 <= i <= 4 && n <= i && (e == 0 ==> n == i)
          invariant bufs == s.bufs[c := PartialClone(parts, ins, at, n)]
          invariant blocks == ClonedBlocks(s.blocks, parts, ins, at, n)
          invariant e != 0 ==> n < 4 && Copies(parts, ins, n) && at[n] == NULL
          invariant AllAnswered(parts, ins, at, n)
          invariant referenced <==> exists j :: 0 <= j < n && parts[j].sz > 0 && !Has(ins, j)
        {
          if bufs[nb].parts[i].sz > 0 && e == 0 {
            CloneStepReady(s, h, born, nb, ins, c, at, i);
            e := CloneOne(nb, ins, cb, i, at[i]);
            if !Has(ins, i) {
              referenced := true;
            }
          }
          CloneStep(s, nb, ins, c, at, i);
          i := i + 1;
          if e == 0 {
            n := i;
          }
        }
        PartialCloneDone(s, nb, ins, c, at, n);
        CloneOutcome(s, nb, inserts, c, at, n, e != 0, referenced);
        if e != 0 {
          PartialCloneReleased(s, h, born, nb, ins, c, at, n);
          NetBufFree(cb, born[c := 0]);
          cb := NULL;
        } else if referenced {
          bufs := bufs[cb := bufs[cb].(ref := nb)];
          bufs := bufs[nb := bufs[nb].(flags := bufs[nb].flags + 1)];
        }
      }
    }

    /** Appends to the block being filled. */
    method Append(dp: Ptr, used: nat, data: seq<byte>)
      requires dp in blocks && used + |data| <= |blocks[dp]|
      modifies this`blocks
      ensures blocks == old(blocks)[dp := AppendAt(old(blocks)[dp], used, data)]
    {
      blocks := blocks[dp := blocks[dp][..used] + data + blocks[dp][used + |data|..]];
    }

    method NetBufCollect(nbq: Ptr, total: nat, dp: Ptr, ghost q: seq<Ptr>, ghost h: multiset<Ptr>,
        ghost born: map<Ptr, nat>)
      returns (rc: nat)
      requires Inv(Store(), h, born) && nbq in h && nbq in bufs && Fresh(Store(), dp)
      requires multiset([nbq] + q) <= h && Linked(Store(), bufs[nbq].next, q) && bufs[nbq].parts[AP].sz <= total
      modifies this
      ensures nbq in old(bufs) && forall b :: b in q ==> b in old(bufs)
      ensures (Store(), rc) == Collect(old(Store()), nbq, q, total, dp)
    {
      hide Inv, Has, Count, PartFlag, Release, Releasable, Linked, Collecting, FitCount, Gather, Collect;
      hide Data, AppendAt, Bytes, Joining, Fresh;
      ghost var s := Store();
      rc := 0;
      InvHandles(s, h, born);
      CollectBegins(s, h, born, nbq, q, total, dp);
      var nbd, e := AllocData(dp, total);
      if e == 0 {
        nbd := nbd.(sz := bufs[nbq].parts[AP].sz);
        Append(dp, 0, Bytes(blocks, bufs[nbq].parts[AP]));
        var nb := bufs[nbq].next;
        while nb != NULL && total >= nbd.sz + bufs[nb].parts[AP].sz
          invariant nbd.vp == dp && rc <= |q| && nb == (if rc < |q| then q[rc] else NULL)
          invariant Collecting(s, nbq, q, total, dp, rc, nbd.sz, Store())
          invariant nb != NULL ==> nb in bufs && bufs[nb].parts[AP].sz == s.bufs[nb].parts[AP].sz
          decreases |q| - rc
        {
          ghost var now, used := Store(), nbd.sz;
          CollectReady(s, h, born, nbq, q, total, dp, rc, used, now);
          var nbx := bufs[nb].next;
          Append(dp, nbd.sz, Bytes(blocks, bufs[nb].parts[AP]));
          nbd := nbd.(sz := nbd.sz + bufs[nb].parts[AP].sz);
          NetBufFree(nb, born);
          CollectStep(s, h, born, nbq, q, total, dp, rc, used, now);
          nb := nbx;
          rc := rc + 1;
        }
        CollectEnds(s, h, born, nbq, q, total, dp, rc, nbd.sz, Store());
        JoinHead(nbq, nb, nbd);
      }
    }

    /** The last statements of NutNetBufCollect. */
    method JoinHead(nbq: Ptr, nb: Ptr, nbd: Part)
      requires nbq in bufs && NULL !in blocks
      requires bufs[nbq].Owns(AP) ==> bufs[nbq].parts[AP].vp == NULL || bufs[nbq].parts[AP].vp in blocks
      modifies this
      ensures Store() == Joining(old(Store()), nbq, nb, nbd)
    {
      hide Has, PartFlag;
      JoiningSteps(Store(), nbq, nb, nbd);
      bufs := bufs[nbq := bufs[nbq].(next := nb)];
      if bufs[nbq].Owns(AP) {
        HeapFree(bufs[nbq].parts[AP].vp);
      } else {
        bufs := bufs[nbq := bufs[nbq].(flags := bufs[nbq].flags | PartFlag(AP))];
      }
      bufs := WithPart(bufs, nbq, AP, nbd);
    }
  }

  // ----- Collecting

  /** `rc` followers have been released, and their data is in the new block, which no structure refers
      to yet. */
  ghost predicate Collecting(s: Heap, nbq: Ptr, q: seq<Ptr>, total: nat, dp: Ptr, rc: nat, used: nat, now: Heap)
    requires nbq in s.bufs && forall b :: b in q ==> b in s.bufs
  {
    && rc <= |q| && used <= total
    && now == WithBlock(ReleaseAll(s, q[..rc]), dp, Collected(s, nbq, q, rc), total)
    && used == |Collected(s, nbq, q, rc)|
    && rc + FitCount(s, q[rc..], used, total) == FitCount(s, q, s.bufs[nbq].parts[AP].sz, total)
  }

  /** The head's data and that of its first `rc` followers. */
  function Collected(s: Heap, nbq: Ptr, q: seq<Ptr>, rc: nat): seq<byte>
    requires nbq in s.bufs && rc <= |q| && forall b :: b in q ==> b in s.bufs
  {
    Data(s, nbq, AP) + Gather(s, q[..rc])
  }

  /** A block of `total` bytes that begins with `data`. */
  function Filled(data: seq<byte>, total: nat): seq<byte> {
    data + NewBlock(if total < |data| then 0 else total - |data|)
  }

  function WithBlock(s: Heap, p: Ptr, data: seq<byte>, total: nat): Heap {
    s.(blocks := s.blocks[p := Filled(data, total)])
  }

  /** The block with `data` copied to offset `used`. */
  function AppendAt(block: seq<byte>, used: nat, data: seq<byte>): seq<byte> {
    if used + |data| <= |block| then block[..used] + data + block[used + |data|..] else block
  }

  lemma FilledAppend(data: seq<byte>, more: seq<byte>, total: nat)
    requires |data| + |more| <= total
    ensures |Filled(data, total)| == total
    ensures AppendAt(Filled(data, total), |data|, more) == Filled(data + more, total)
  {
  }

  /** An unreferenced block does not matter to a release. */
  lemma {:induction false} ReleaseWithBlock(s: Heap, x: Ptr, born: map<Ptr, nat>, p: Ptr, v: seq<byte>)
    requires Releasable(s, x, born) && p !in s.blocks && p != NULL
    ensures Releasable(s.(blocks := s.blocks[p := v]), x, born)
    ensures Release(s.(blocks := s.blocks[p := v]), x) == Release(s, x).(blocks := Release(s, x).blocks[p := v])
    decreases |s.bufs|
  {
    hide Has, Count;
    var sp, b := s.(blocks := s.blocks[p := v]), s.bufs[x];
    if b.flags & NBAF_REFCNT == 0 {
      DropWithBlock(s, x, p, v);
      if b.ref != NULL {
        assert |Drop(s, x).bufs.Keys| == |s.bufs.Keys - {x}|;
        ReleaseWithBlock(Drop(s, x), b.ref, born, p, v);
      }
    }
  }

  lemma DropWithBlock(s: Heap, x: Ptr, p: Ptr, v: seq<byte>)
    requires x in s.bufs && BlocksReleasable(s, s.bufs[x]) && p !in s.blocks && p != NULL
    ensures Drop(s.(blocks := s.blocks[p := v]), x) == Drop(s, x).(blocks := Drop(s, x).blocks[p := v])
    ensures p !in Drop(s, x).blocks && BlocksReleasable(s.(blocks := s.blocks[p := v]), s.bufs[x])
  {
    hide Has;
    assert p !in OwnedBlocks(s.bufs[x]);
  }

  lemma {:induction false} ReleaseAllSnoc(s: Heap, h: multiset<Ptr>, born: map<Ptr, nat>, q: seq<Ptr>, x: Ptr)
    requires Inv(s, h, born) && multiset(q + [x]) <= h
    ensures x in ReleaseAll(s, q).bufs && ReleaseAll(s, q + [x]) == Release(ReleaseAll(s, q), x)
    decreases |q|
  {
    hide Inv, Release;
    InvHandles(s, h, born);
    if q == [] {
      assert q + [x] == [x];
      assert x in multiset([x]);
      assert ReleaseAll(s, [x]) == ReleaseAll(Release(s, x), [x][1..]);
    } else {
      var all := q + [x];
      assert all == [q[0]] + all[1..] && all[1..] == q[1..] + [x];
      assert q[0] in multiset(all);
      assert multiset(all) == multiset{q[0]} + multiset(all[1..]);
      ReleaseInv(s, h, born, q[0]);
      ReleaseAllSnoc(Release(s, q[0]), h - multiset{q[0]}, born, q[1..], x);
    }
  }

  lemma {:induction false} LinkedAt(s: Heap, first: Ptr, q: seq<Ptr>, k: nat)
    requires Linked(s, first, q) && k < |q|
    ensures q[k] != NULL && q[k] in s.bufs && s.bufs[q[k]].next == if k + 1 < |q| then q[k + 1] else NULL
    ensures first == q[0]
    decreases k
  {
    if k > 0 {
      LinkedAt(s, s.bufs[first].next, q[1..], k - 1);
    }
  }

  lemma {:induction false} GatherSnoc(s: Heap, q: seq<Ptr>, x: Ptr)
    requires x in s.bufs && forall b :: b in q ==> b in s.bufs
    ensures Gather(s, q + [x]) == Gather(s, q) + Data(s, x, AP)
    decreases |q|
  {
    hide Data;
    if q == [] {
      assert q + [x] == [x];
    } else {
      assert (q + [x])[1..] == q[1..] + [x];
      GatherSnoc(s, q[1..], x);
    }
  }

  /** What the head and the not yet released followers are in the meantime. */
  lemma CollectAt(s: Heap, h: multiset<Ptr>, born: map<Ptr, nat>, nbq: Ptr, q: seq<Ptr>, rc: nat)
    requires Inv(s, h, born) && nbq in h && nbq in s.bufs && multiset([nbq] + q) <= h && rc <= |q|
    ensures var sk, hk := ReleaseAll(s, q[..rc]), h - multiset(q[..rc]);
      && Inv(sk, hk, born) && Kept(s, sk) && nbq in hk && nbq in sk.bufs
      && (rc < |q| ==> q[rc] in hk && q[rc] in sk.bufs)
  {
    hide Inv, Kept, Has, Count;
    HeldAfterRun(h, nbq, q, rc);
    var sk, hk := ReleaseAll(s, q[..rc]), h - multiset(q[..rc]);
    ReleaseAllInv(s, h, born, q[..rc]);
    if rc < |q| {
      FollowerHeld(h, nbq, q, rc);
    }
    InvHandles(sk, hk, born);
  }

  lemma FollowerHeld(h: multiset<Ptr>, nbq: Ptr, q: seq<Ptr>, rc: nat)
    requires multiset([nbq] + q) <= h && rc < |q|
    ensures q[rc] in h - multiset(q[..rc]) && multiset(q[..rc] + [q[rc]]) <= h && q[..rc + 1] == q[..rc] + [q[rc]]
  {
    assert q == q[..rc] + ([q[rc]] + q[rc + 1..]);
    var taken: multiset<Ptr>, left: multiset<Ptr> := multiset(q[..rc]), multiset(q[rc + 1..]);
    assert multiset([nbq] + q) == multiset{nbq} + (taken + (multiset{q[rc]} + left));
    assert h[q[rc]] >= taken[q[rc]] + 1;
    assert multiset(q[..rc] + [q[rc]]) == taken + multiset{q[rc]};
  }

  lemma CollectBegins(s: Heap, h: multiset<Ptr>, born: map<Ptr, nat>, nbq: Ptr, q: seq<Ptr>, total: nat, dp: Ptr)
    requires nbq in s.bufs && Inv(s, h, born) && nbq in h && Fresh(s, dp)
    requires multiset([nbq] + q) <= h && Linked(s, s.bufs[nbq].next, q) && s.bufs[nbq].parts[AP].sz <= total
    ensures forall b :: b in q ==> b in s.bufs && b != NULL
    ensures s.bufs[nbq].next == if q == [] then NULL else q[0]
    ensures dp != NULL ==>
      var data := Bytes(s.blocks[dp := NewBlock(total)], s.bufs[nbq].parts[AP]);
      && |data| == s.bufs[nbq].parts[AP].sz
      && Collecting(s, nbq, q, total, dp, 0, |data|,
        Heap(s.bufs, s.blocks[dp := NewBlock(total)][dp := AppendAt(NewBlock(total), 0, data)]))
    ensures dp == NULL ==> Collect(s, nbq, q, total, dp) == (s, 0)
  {
    hide Inv, Linked, FitCount, Has, Data, Gather, Bytes, AppendAt, Collected, Filled, ReleaseAll, NewBlock;
    InvHandles(s, h, born);
    forall b | b in q ensures b in h {
      assert b in multiset([nbq] + q);
    }
    if q != [] {
      LinkedAt(s, s.bufs[nbq].next, q, 0);
    } else {
      LinkedEmpty(s, s.bufs[nbq].next);
    }
    if dp != NULL {
      DataSize(s, h, born, nbq, AP);
      BytesData(s, h, born, nbq, dp, NewBlock(total));
      NothingCollected(s, nbq, q, total);
      MapPutTwice(s.blocks, dp, NewBlock(total), AppendAt(NewBlock(total), 0, Data(s, nbq, AP)));
    }
  }

  lemma NothingCollected(s: Heap, nbq: Ptr, q: seq<Ptr>, total: nat)
    requires nbq in s.bufs && |Data(s, nbq, AP)| <= total && forall b :: b in q ==> b in s.bufs
    ensures Collected(s, nbq, q, 0) == Data(s, nbq, AP) && ReleaseAll(s, q[..0]) == s && q[0..] == q
    ensures AppendAt(NewBlock(total), 0, Data(s, nbq, AP)) == Filled(Data(s, nbq, AP), total)
  {
    hide Data;
    FilledAppend([], Data(s, nbq, AP), total);
    assert [] + Data(s, nbq, AP) == Data(s, nbq, AP) == Data(s, nbq, AP) + [];
  }

  lemma LinkedEmpty(s: Heap, first: Ptr)
    requires Linked(s, first, [])
    ensures first == NULL
  {
  }

  lemma BytesData(s: Heap, h: multiset<Ptr>, born: map<Ptr, nat>, b: Ptr, p: Ptr, v: seq<byte>)
    requires Inv(s, h, born) && b in s.bufs && p !in s.blocks
    ensures Bytes(s.blocks[p := v], s.bufs[b].parts[AP]) == Data(s, b, AP)
  {
    hide Inv, OnChain, Has;
    if s.bufs[b].parts[AP].sz > 0 {
      var _ := OwnerOnChain(s, h, born, b, AP);
    }
  }

  /** What the next round of the collecting loop needs. */
  lemma CollectReady(s: Heap, h: multiset<Ptr>, born: map<Ptr, nat>, nbq: Ptr, q: seq<Ptr>, total: nat, dp: Ptr,
      rc: nat, used: nat, now: Heap)
    requires Inv(s, h, born) && nbq in h && nbq in s.bufs && Fresh(s, dp) && dp != NULL
    requires multiset([nbq] + q) <= h && Linked(s, s.bufs[nbq].next, q) && forall b :: b in q ==> b in s.bufs
    requires rc < |q| && Collecting(s, nbq, q, total, dp, rc, used, now) && used + s.bufs[q[rc]].parts[AP].sz <= total
    ensures var nb := q[rc];
      && nb in now.bufs && nb != NULL && now.bufs[nb].next == (if rc + 1 < |q| then q[rc + 1] else NULL)
      && now.bufs[nb].parts[AP] == s.bufs[nb].parts[AP]
      && dp in now.blocks && |now.blocks[dp]| == total && Bytes(now.blocks, now.bufs[nb].parts[AP]) == Data(s, nb, AP)
      && |Data(s, nb, AP)| == s.bufs[nb].parts[AP].sz
    ensures var v := AppendAt(now.blocks[dp], used, Data(s, q[rc], AP));
      Releasable(Heap(now.bufs, now.blocks[dp := v]), q[rc], born)
  {
    hide Inv, Linked, FitCount, Has, Count, Releasable, Data, Gather, Bytes, Kept, ReleaseAll, AppendAt;
    var nb, sk, hk := q[rc], ReleaseAll(s, q[..rc]), h - multiset(q[..rc]);
    CollectAt(s, h, born, nbq, q, rc);
    KeptParts(s, sk, nb);
    LinkedAt(s, s.bufs[nbq].next, q, rc);
    DataSize(s, h, born, nb, AP);
    DataKept(s, sk, hk, born, nb, AP);
    FreshKept(s, sk, dp);
    FilledAppend(Collected(s, nbq, q, rc), Data(s, nb, AP), total);
    BytesData(sk, hk, born, nb, dp, Filled(Collected(s, nbq, q, rc), total));
    InvReleasable(sk, hk, born, nb);
    var v := AppendAt(now.blocks[dp], used, Data(s, nb, AP));
    ReleaseWithBlock(sk, nb, born, dp, v);
    assert now.blocks[dp := v] == sk.blocks[dp := v];
  }

  lemma CollectedSnoc(s: Heap, nbq: Ptr, q: seq<Ptr>, rc: nat)
    requires nbq in s.bufs && rc < |q| && forall b :: b in q ==> b in s.bufs
    ensures Collected(s, nbq, q, rc + 1) == Collected(s, nbq, q, rc) + Data(s, q[rc], AP)
  {
    hide Data;
    assert q[..rc + 1] == q[..rc] + [q[rc]];
    GatherSnoc(s, q[..rc], q[rc]);
  }

  lemma CollectStepHeap(s: Heap, h: multiset<Ptr>, born: map<Ptr, nat>, nbq: Ptr, q: seq<Ptr>, total: nat, dp: Ptr,
      rc: nat)
    requires Inv(s, h, born) && nbq in h && nbq in s.bufs && Fresh(s, dp) && dp != NULL
    requires multiset([nbq] + q) <= h && (forall b :: b in q ==> b in s.bufs) && nbq in s.bufs
    requires rc < |q| && |Collected(s, nbq, q, rc)| + |Data(s, q[rc], AP)| <= total
    ensures var now := WithBlock(ReleaseAll(s, q[..rc]), dp, Collected(s, nbq, q, rc), total);
      var v := AppendAt(now.blocks[dp], |Collected(s, nbq, q, rc)|, Data(s, q[rc], AP));
      q[rc] in now.bufs && Release(Heap(now.bufs, now.blocks[dp := v]), q[rc])
        == WithBlock(ReleaseAll(s, q[..rc + 1]), dp, Collected(s, nbq, q, rc + 1), total)
  {
    hide Inv, Has, Count, Releasable, Data, AppendAt, Filled, Kept, ReleaseAll, Release, Fresh, Collected;
    var nb, sk, hk := q[rc], ReleaseAll(s, q[..rc]), h - multiset(q[..rc]);
    var data := Collected(s, nbq, q, rc);
    CollectAt(s, h, born, nbq, q, rc);
    FreshKept(s, sk, dp);
    NotABlock(sk, dp);
    FilledAppend(data, Data(s, nb, AP), total);
    InvReleasable(sk, hk, born, nb);
    ReleaseWithBlock(sk, nb, born, dp, Filled(data + Data(s, nb, AP), total));
    assert sk.blocks[dp := Filled(data, total)][dp := Filled(data + Data(s, nb, AP), total)]
      == sk.blocks[dp := Filled(data + Data(s, nb, AP), total)];
    FollowerHeld(h, nbq, q, rc);
    ReleaseAllSnoc(s, h, born, q[..rc], nb);
    CollectedSnoc(s, nbq, q, rc);
  }

  lemma NotABlock(s: Heap, p: Ptr)
    requires Fresh(s, p) && p != NULL
    ensures p !in s.blocks
  {
  }

  lemma CollectStep(s: Heap, h: multiset<Ptr>, born: map<Ptr, nat>, nbq: Ptr, q: seq<Ptr>, total: nat, dp: Ptr,
      rc: nat, used: nat, now: Heap)
    requires Inv(s, h, born) && nbq in h && nbq in s.bufs && Fresh(s, dp) && dp != NULL
    requires multiset([nbq] + q) <= h && forall b :: b in q ==> b in s.bufs
    requires rc < |q| && Collecting(s, nbq, q, total, dp, rc, used, now) && used + s.bufs[q[rc]].parts[AP].sz <= total
    requires q[rc] in now.bufs && dp in now.blocks
    ensures var v := AppendAt(now.blocks[dp], used, Data(s, q[rc], AP));
      var after := Release(Heap(now.bufs, now.blocks[dp := v]), q[rc]);
      && Collecting(s, nbq, q, total, dp, rc + 1, used + s.bufs[q[rc]].parts[AP].sz, after)
      && (rc + 1 < |q|
        ==> q[rc + 1] in after.bufs && after.bufs[q[rc + 1]].parts[AP].sz == s.bufs[q[rc + 1]].parts[AP].sz)
  {
    hide Inv, Has, Count, Data, AppendAt, Filled, Kept, ReleaseAll, Release, Fresh, Collected;
    InvHandles(s, h, born);
    DataSize(s, h, born, q[rc], AP);
    CollectStepHeap(s, h, born, nbq, q, total, dp, rc);
    CollectedSnoc(s, nbq, q, rc);
    CollectAt(s, h, born, nbq, q, rc + 1);
    assert q[rc..][1..] == q[rc + 1..];
    if rc + 1 < |q| {
      KeptParts(s, ReleaseAll(s, q[..rc + 1]), q[rc + 1]);
    }
  }

  /** The loop stops where FitCount does. */
  lemma CollectEnds(s: Heap, h: multiset<Ptr>, born: map<Ptr, nat>, nbq: Ptr, q: seq<Ptr>, total: nat, dp: Ptr,
      rc: nat, used: nat, now: Heap)
    requires Inv(s, h, born) && nbq in h && nbq in s.bufs && Fresh(s, dp) && dp != NULL
    requires multiset([nbq] + q) <= h && forall b :: b in q ==> b in s.bufs
    requires Collecting(s, nbq, q, total, dp, rc, used, now) && (rc < |q| ==> total < used + s.bufs[q[rc]].parts[AP].sz)
    ensures nbq in now.bufs && NULL !in now.blocks
    ensures now.bufs[nbq].Owns(AP) ==> now.bufs[nbq].parts[AP].vp == NULL || now.bufs[nbq].parts[AP].vp in now.blocks
    ensures Collect(s, nbq, q, total, dp) == (Joining(now, nbq, if rc < |q| then q[rc] else NULL, Part(dp, used)), rc)
  {
    hide Inv, Has, Count, Data, Gather, Releasable;
    var sk, hk := ReleaseAll(s, q[..rc]), h - multiset(q[..rc]);
    CollectAt(s, h, born, nbq, q, rc);
    FreshKept(s, sk, dp);
    OwnedPartLive(sk, hk, born, nbq, AP);
    assert FitCount(s, q[rc..], used, total) == 0;
    JoiningIsJoined(sk, nbq, if rc < |q| then q[rc] else NULL, dp, Collected(s, nbq, q, rc), total);
  }

  /** The code's last statements: relink, release the head's old block, and let it own the new one. */
  function Joining(now: Heap, nbq: Ptr, next: Ptr, part: Part): Heap
    requires nbq in now.bufs
  {
    var b := now.bufs[nbq].(next := next);
    var flags := if b.Owns(AP) then b.flags else b.flags | PartFlag(AP);
    Heap(now.bufs[nbq := b.(flags := flags, parts := b.parts[AP := part])],
      if b.Owns(AP) then now.blocks - {b.parts[AP].vp} else now.blocks)
  }

  lemma JoiningSteps(now: Heap, nbq: Ptr, next: Ptr, part: Part)
    requires nbq in now.bufs
    ensures var b := now.bufs[nbq].(next := next); var linked := now.bufs[nbq := b];
      && WithPart(linked, nbq, AP, part) == now.bufs[nbq := b.(parts := b.parts[AP := part])]
      && WithPart(linked[nbq := b.(flags := b.flags | PartFlag(AP))], nbq, AP, part)
        == now.bufs[nbq := b.(flags := b.flags | PartFlag(AP), parts := b.parts[AP := part])]
  {
    hide PartFlag;
    var b := now.bufs[nbq].(next := next);
    var f := b.(flags := b.flags | PartFlag(AP));
    MapPutTwice(now.bufs, nbq, b, b.(parts := b.parts[AP := part]));
    MapPutTwice(now.bufs, nbq, b, f);
    MapPutTwice(now.bufs, nbq, f, f.(parts := b.parts[AP := part]));
  }

  lemma JoiningIsJoined(s: Heap, nbq: Ptr, next: Ptr, dp: Ptr, data: seq<byte>, total: nat)
    requires nbq in s.bufs && dp !in s.blocks && dp != NULL
    requires s.bufs[nbq].Owns(AP) ==> s.bufs[nbq].parts[AP].vp != dp
    ensures Joining(WithBlock(s, dp, data, total), nbq, next, Part(dp, |data|)) == Joined(s, nbq, next, dp, data, total)
  {
    hide PartFlag, NewBlock, Has, Filled, Joined;
    var b := s.bufs[nbq].(next := next);
    JoinedIs(s, nbq, next, dp, data, total);
    if b.Owns(AP) {
      HasIsSet(b.flags, AP);
      BlockMoves(s.blocks, dp, Filled(data, total), b.parts[AP].vp);
    }
  }

  lemma BlockMoves(blocks: map<Ptr, seq<byte>>, p: Ptr, v: seq<byte>, stale: Ptr)
    requires p != stale
    ensures blocks[p := v] - {stale} == (blocks - {stale})[p := v]
  {
  }

  lemma JoinedIs(s: Heap, nbq: Ptr, next: Ptr, dp: Ptr, data: seq<byte>, total: nat)
    requires nbq in s.bufs
    ensures var b := s.bufs[nbq].(next := next);
      var blocks := if b.Owns(AP) then s.blocks - {b.parts[AP].vp} else s.blocks;
      Joined(s, nbq, next, dp, data, total) == Heap(
        s.bufs[nbq := b.(flags := b.flags | PartFlag(AP), parts := b.parts[AP := Part(dp, |data|)])],
          blocks[dp := Filled(data, total)])
  {
    hide PartFlag, NewBlock, Has;
    var b := s.bufs[nbq].(next := next);
    var cleared := b.(parts := b.parts[AP := NO_PART]);
    MapPutTwice(s.bufs, nbq, b, cleared);
    MapPutTwice(s.bufs, nbq, cleared,
      b.(flags := b.flags | PartFlag(AP), parts := cleared.parts[AP := Part(dp, |data|)]));
    assert cleared.parts[AP := Part(dp, |data|)] == b.parts[AP := Part(dp, |data|)];
  }

  lemma HasIsSet(flags: bv8, i: nat)
    requires i < 4 && Has(flags, i)
    ensures flags | PartFlag(i) == flags
  {
  }

  // ----- A clone in the making

  /** The clone after `n` of its parts have been dealt with. */
  function PartialClone(parts: Parts, ins: bv8, at: seq<Ptr>, n: nat): NetBuf
    requires n <= 4 && |at| == 4
  {
    NetBuf(NULL, ClonedFlags(parts, ins, n),
      seq(4, j requires 0 <= j < 4 => if j < n then ClonedPart(parts, ins, at, j) else NO_PART), NULL)
  }

  ghost predicate AllAnswered(parts: Parts, ins: bv8, at: seq<Ptr>, n: nat)
    requires n <= 4 && |at| == 4
  {
    forall j :: 0 <= j < n && Copies(parts, ins, j) ==> at[j] != NULL
  }

  lemma CloneBegins(s: Heap, nb: Ptr, ins: bv8, c: Ptr, at: seq<Ptr>)
    requires nb in s.bufs && Answers(s, c, at) && c != NULL
    ensures |at| == 4 && c !in s.bufs && c != nb
    ensures PartialClone(s.bufs[nb].parts, ins, at, 0) == CLEARED
    ensures ClonedBlocks(s.blocks, s.bufs[nb].parts, ins, at, 0) == s.blocks
  {
    assert PartialClone(s.bufs[nb].parts, ins, at, 0).parts == CLEARED.parts;
  }

  /** What the next part needs is there. */
  lemma CloneStepReady(s: Heap, h: multiset<Ptr>, born: map<Ptr, nat>, nb: Ptr, ins: bv8, c: Ptr, at: seq<Ptr>, i: nat)
    requires Inv(s, h, born) && nb in s.bufs && Answers(s, c, at) && c != NULL && i < 4 && s.bufs[nb].parts[i].sz > 0
    requires AllAnswered(s.bufs[nb].parts, ins, at, i)
    ensures var p := s.bufs[nb].parts; var blocks := ClonedBlocks(s.blocks, p, ins, at, i);
      && Fresh(Heap(s.bufs[c := PartialClone(p, ins, at, i)], blocks), at[i])
      && p[i].vp in blocks && p[i].sz <= |blocks[p[i].vp]| && Bytes(blocks, p[i]) == Bytes(s.blocks, p[i])
  {
    hide Inv, Has, OnChain, Copies;
    var _ := OwnerOnChain(s, h, born, nb, i);
    PrefixBlocks(s, c, s.bufs[nb].parts, ins, at, i);
  }

  lemma {:induction false} PrefixBlocks(s: Heap, c: Ptr, parts: Parts, ins: bv8, at: seq<Ptr>, n: nat)
    requires n <= 4 && Answers(s, c, at) && AllAnswered(parts, ins, at, n)
    ensures var blocks := ClonedBlocks(s.blocks, parts, ins, at, n);
      && blocks.Keys == s.blocks.Keys + CopyTargets(parts, ins, at, n)
      && (forall p :: p in s.blocks ==> blocks[p] == s.blocks[p])
  {
    hide Copies, Bytes;
    if n > 0 {
      PrefixBlocks(s, c, parts, ins, at, n - 1);
    }
  }

  /** The effect of one part on the clone in the making. */
  lemma CloneStep(s: Heap, nb: Ptr, ins: bv8, c: Ptr, at: seq<Ptr>, i: nat)
    requires nb in s.bufs && |at| == 4 && i < 4 && c !in s.bufs
    ensures
      var p := s.bufs[nb].parts;
      var was := PartialClone(p, ins, at, i); var now := PartialClone(p, ins, at, i + 1);
      var blocks := ClonedBlocks(s.blocks, p, ins, at, i);
      && (p[i].sz == 0 ==> now == was && ClonedBlocks(s.blocks, p, ins, at, i + 1) == blocks)
      && (p[i].sz > 0 && !Has(ins, i) ==>
        WithPart(s.bufs[c := was], c, i, p[i]) == s.bufs[c := now]
          && ClonedBlocks(s.blocks, p, ins, at, i + 1) == blocks)
      && (p[i].sz > 0 && Has(ins, i) ==>
        && s.bufs[c := was][c := was.(flags := was.flags | PartFlag(i), parts := was.parts[i := Part(at[i], p[i].sz)])]
          == s.bufs[c := now]
        && WithPart(s.bufs[c := was], c, i, NO_PART) == s.bufs[c := was]
        && ClonedBlocks(s.blocks, p, ins, at, i + 1) == blocks[at[i] := Bytes(s.blocks, p[i])])
      && (Copies(p, ins, i) <==> p[i].sz > 0 && Has(ins, i))
  {
    hide Has, PartFlag, Bytes;
    var p := s.bufs[nb].parts;
    var was, now := PartialClone(p, ins, at, i), PartialClone(p, ins, at, i + 1);
    assert now.parts == was.parts[i := ClonedPart(p, ins, at, i)];
    assert was.parts[i := NO_PART] == was.parts;
  }

  lemma PartialCloneDone(s: Heap, nb: Ptr, ins: bv8, c: Ptr, at: seq<Ptr>, n: nat)
    requires nb in s.bufs && |at| == 4 && n <= 4
    ensures var p := s.bufs[nb].parts;
      n == 4 ==> PartialClone(p, ins, at, n) == NetBuf(NULL, ClonedFlags(p, ins, 4), ClonedParts(p, ins, at), NULL)
  {
    if n == 4 {
      assert PartialClone(s.bufs[nb].parts, ins, at, n).parts == ClonedParts(s.bufs[nb].parts, ins, at);
    }
  }

  /** What ClonePart yields, in the order in which the code links the clone and counts it. */
  lemma CloneOutcome(s: Heap, nb: Ptr, inserts: bv8, c: Ptr, at: seq<Ptr>, n: nat, failed: bool, referenced: bool)
    requires nb in s.bufs && Answers(s, c, at) && c != NULL && n <= 4
    requires var p := s.bufs[nb].parts; var ins := Inserts(s.bufs[nb], inserts);
      && AllAnswered(p, ins, at, n) && (if failed then n < 4 && Copies(p, ins, n) && at[n] == NULL else n == 4)
      && (referenced <==> exists j :: 0 <= j < n && p[j].sz > 0 && !Has(ins, j))
    ensures var p := s.bufs[nb].parts; var ins := Inserts(s.bufs[nb], inserts);
      var cb := NetBuf(NULL, ClonedFlags(p, ins, 4), ClonedParts(p, ins, at), NULL);
      var blocks := ClonedBlocks(s.blocks, p, ins, at, 4);
      && c != nb
      && (failed ==> ClonePart(s, nb, inserts, c, at) == (s, NULL))
      && (!failed && !referenced ==> ClonePart(s, nb, inserts, c, at) == (Heap(s.bufs[c := cb], blocks), c))
      && (!failed && referenced ==>
        var bufs := s.bufs[c := cb][c := cb.(ref := nb)][nb := s.bufs[nb].(flags := s.bufs[nb].flags + 1)];
        ClonePart(s, nb, inserts, c, at) == (Heap(bufs, blocks), c))
  {
    hide Has, Copies, ClonedBlocks, ClonedFlags, ClonedPart;
    var b := s.bufs[nb];
    var ins := Inserts(b, inserts);
    var cb := NetBuf(NULL, ClonedFlags(b.parts, ins, 4), ClonedParts(b.parts, ins, at), NULL);
    MapPutTwice(s.bufs, c, cb, cb.(ref := nb));
    MapPutCommutes(s.bufs, nb, b.(flags := b.flags + 1), c, cb.(ref := nb));
  }

  /** Giving up half way: releasing the clone restores the heap. */
  lemma PartialCloneReleased(s: Heap, h: multiset<Ptr>, born: map<Ptr, nat>, nb: Ptr, ins: bv8, c: Ptr, at: seq<Ptr>,
      n: nat)
    requires Inv(s, h, born) && nb in s.bufs && Answers(s, c, at) && c != NULL && n <= 4
    requires AllAnswered(s.bufs[nb].parts, ins, at, n)
    ensures var p := s.bufs[nb].parts;
      var s1 := Heap(s.bufs[c := PartialClone(p, ins, at, n)], ClonedBlocks(s.blocks, p, ins, at, n));
      Releasable(s1, c, born[c := 0]) && Release(s1, c) == s
  {
    hide Inv, Has, Count, PartFlag, ClonedBlocks, ClonedFlags, Copies;
    var p := s.bufs[nb].parts;
    var cb := PartialClone(p, ins, at, n);
    var s1 := Heap(s.bufs[c := cb], ClonedBlocks(s.blocks, p, ins, at, n));
    InvHandles(s, h, born);
    assert NULL !in s.blocks by { OwnedPartLive(s, h, born, nb, 0); }
    ClonedFlagsFacts(p, ins, n);
    PrefixBlocks(s, c, p, ins, at, n);
    forall j | 0 <= j < n && Copies(p, ins, j) ensures cb.parts[j].vp == at[j] {
      assert Copies(p, ins, j) ==> p[j].sz > 0 && Has(ins, j) by { CloneStep(s, nb, ins, c, at, j); }
    }
    assert OwnedBlocks(cb) == CopyTargets(p, ins, at, n);
    assert Drop(s1, c) == s;
  }

  lemma MapPutTwice<K, V>(m: map<K, V>, k: K, v: V, w: V)
    ensures m[k := v][k := w] == m[k := w]
  {
  }

  /** Setting a part twice. */
  lemma PartTwice(bufs: map<Ptr, NetBuf>, nb: Ptr, i: nat, p: Part, q: Part)
    requires nb in bufs && i < 4
    ensures nb in WithPart(bufs, nb, i, p) && WithPart(WithPart(bufs, nb, i, p), nb, i, q) == WithPart(bufs, nb, i, q)
  {
    hide Has;
    var b := bufs[nb];
    assert b.parts[i := p][i := q] == b.parts[i := q];
    MapPutTwice(bufs, nb, b.(parts := b.parts[i := p]), b.(parts := b.parts[i := q]));
  }

  /** Setting a part and then a flag. */
  lemma PartThenFlag(bufs: map<Ptr, NetBuf>, nb: Ptr, i: nat, p: Part, flag: bv8)
    requires nb in bufs && i < 4
    ensures var w := WithPart(bufs, nb, i, p);
      && nb in w
      && w[nb := w[nb].(flags := w[nb].flags | flag)]
        == bufs[nb := bufs[nb].(flags := bufs[nb].flags | flag, parts := bufs[nb].parts[i := p])]
  {
    hide Has;
    var b := bufs[nb];
    MapPutTwice(bufs, nb, b.(parts := b.parts[i := p]), b.(flags := b.flags | flag, parts := b.parts[i := p]));
  }

  /** Emptying a part in two steps, and giving it a new block in three. */
  lemma ReplacingPart(s: Heap, s1: Heap, nb: Ptr, i: nat, part: Part, dp: Ptr, size: nat)
    requires nb in s.bufs && i < 4 && Fresh(s, dp)
    requires
      s1 == Heap(WithPart(s.bufs, nb, i, part),
        if s.bufs[nb].Owns(i) then s.blocks - {s.bufs[nb].parts[i].vp} else s.blocks)
    ensures nb in s1.bufs && Fresh(s1, dp) && Heap(WithPart(s1.bufs, nb, i, NO_PART), s1.blocks) == Detached(s, nb, i)
    ensures var bufs := WithPart(s1.bufs, nb, i, Part(dp, size));
      && nb in bufs
      && Heap(bufs[nb := bufs[nb].(flags := bufs[nb].flags | PartFlag(i))], s1.blocks[dp := NewBlock(size)])
        == Attached(Detached(s, nb, i), nb, i, dp, size, NewBlock(size))
  {
    hide Has, PartFlag, WithPart;
    PartTwice(s.bufs, nb, i, part, NO_PART);
    PartTwice(s.bufs, nb, i, part, Part(dp, size));
    PartTwice(s.bufs, nb, i, NO_PART, Part(dp, size));
    PartThenFlag(WithPart(s.bufs, nb, i, NO_PART), nb, i, Part(dp, size), PartFlag(i));
    assert forall p :: p in s1.bufs <==> p in s.bufs by { PartKeys(s.bufs, nb, i, part); }
  }

  lemma PartKeys(bufs: map<Ptr, NetBuf>, nb: Ptr, i: nat, p: Part)
    requires nb in bufs && i < 4
    ensures WithPart(bufs, nb, i, p).Keys == bufs.Keys
  {
  }

  lemma OwnedPartLive(s: Heap, h: multiset<Ptr>, born: map<Ptr, nat>, nb: Ptr, i: nat)
    requires Inv(s, h, born) && nb in s.bufs && i < 4
    ensures NULL !in s.blocks
    ensures s.bufs[nb].Owns(i) ==> s.bufs[nb].parts[i].vp == NULL || s.bufs[nb].parts[i].vp in s.blocks
  {
  }
}

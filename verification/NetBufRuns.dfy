/** Collecting a queue of network buffers, and whole histories of operations (dev/netbuf.c). */
module NetBufRuns {
  import opened NetBuf
  import opened NetBufOps

  /** Index of the application part. */
  const AP := 3

  // ----- NutNetBufCollect

  /** `q` is the list of buffers from `first` on. */
  predicate Linked(s: Heap, first: Ptr, q: seq<Ptr>)
    decreases |q|
  {
    if q == [] then first == NULL
    else first == q[0] && first != NULL && first in s.bufs && Linked(s, s.bufs[first].next, q[1..])
  }

  /** How many of the buffers in `q` are taken while everything fits. */
  function FitCount(s: Heap, q: seq<Ptr>, used: nat, total: nat): (k: nat)
    requires forall b :: b in q ==> b in s.bufs
    ensures k <= |q|
    decreases |q|
  {
    if q == [] || total < used + s.bufs[q[0]].parts[AP].sz then 0
    else 1 + FitCount(s, q[1..], used + s.bufs[q[0]].parts[AP].sz, total)
  }

  function Sizes(s: Heap, q: seq<Ptr>): nat
    requires forall b :: b in q ==> b in s.bufs
    decreases |q|
  {
    if q == [] then 0 else s.bufs[q[0]].parts[AP].sz + Sizes(s, q[1..])
  }

  /** Exactly the longest run that fits is taken. */
  lemma {:induction false} FitIsLongest(s: Heap, q: seq<Ptr>, used: nat, total: nat, j: nat)
    requires (forall b :: b in q ==> b in s.bufs) && used <= total && j <= |q|
    ensures used + Sizes(s, q[..j]) <= total <==> j <= FitCount(s, q, used, total)
    decreases |q|
  {
    if j > 0 {
      assert q[..j][1..] == q[1..][..j - 1];
      if total >= used + s.bufs[q[0]].parts[AP].sz {
        FitIsLongest(s, q[1..], used + s.bufs[q[0]].parts[AP].sz, total, j - 1);
      }
    }
  }

  function ReleaseAll(s: Heap, q: seq<Ptr>): Heap
    decreases |q|
  {
    if q == [] || q[0] !in s.bufs then s else ReleaseAll(Release(s, q[0]), q[1..])
  }

  lemma {:induction false} ReleaseAllInv(s: Heap, h: multiset<Ptr>, born: map<Ptr, nat>, q: seq<Ptr>)
    requires Inv(s, h, born) && multiset(q) <= h
    ensures Inv(ReleaseAll(s, q), h - multiset(q), born) && Kept(s, ReleaseAll(s, q))
    decreases |q|
  {
    hide Inv, Has, Release, Kept;
    if q == [] {
      assert h - multiset(q) == h;
      KeptSelf(s);
    } else {
      assert q == [q[0]] + q[1..];
      assert multiset(q) == multiset{q[0]} + multiset(q[1..]);
      assert q[0] in multiset(q);
      InvHandles(s, h, born);
      ReleaseInv(s, h, born, q[0]);
      ReleaseKeeps(s, q[0]);
      ReleaseAllInv(Release(s, q[0]), h - multiset{q[0]}, born, q[1..]);
      assert h - multiset{q[0]} - multiset(q[1..]) == h - multiset(q);
      KeptTrans(s, Release(s, q[0]), ReleaseAll(s, q));
    }
  }

  /** The application data of the buffers in `q`, one after the other. */
  function Gather(s: Heap, q: seq<Ptr>): seq<byte>
    requires forall b :: b in q ==> b in s.bufs
    decreases |q|
  {
    if q == [] then [] else Data(s, q[0], AP) + Gather(s, q[1..])
  }

  function WithNext(s: Heap, nb: Ptr, next: Ptr): Heap
    requires nb in s.bufs
  {
    s.(bufs := s.bufs[nb := s.bufs[nb].(next := next)])
  }

  /** Joins the application data of the queue's head `nbq` and of the longest run of its followers
      that fits; the run is released and the rest stays linked. */
  function Collect(s: Heap, nbq: Ptr, q: seq<Ptr>, total: nat, dp: Ptr): (Heap, nat)
    requires nbq in s.bufs && forall b :: b in q ==> b in s.bufs
  {
    if dp == NULL then (s, 0)
    else
      var k := FitCount(s, q, s.bufs[nbq].parts[AP].sz, total);
      var s1 := ReleaseAll(s, q[..k]);
      if nbq !in s1.bufs then (s1, k)
      else (Joined(s1, nbq, if k < |q| then q[k] else NULL, dp, Data(s, nbq, AP) + Gather(s, q[..k]), total), k)
  }

  function Joined(s: Heap, nbq: Ptr, next: Ptr, dp: Ptr, data: seq<byte>, total: nat): Heap
    requires nbq in s.bufs
  {
    Attached(Detached(WithNext(s, nbq, next), nbq, AP), nbq, AP, dp, |data|,
      data + NewBlock(if total < |data| then 0 else total - |data|))
  }

  lemma NextInv(s: Heap, h: multiset<Ptr>, born: map<Ptr, nat>, nb: Ptr, next: Ptr)
    requires Inv(s, h, born) && nb in s.bufs
    ensures Inv(WithNext(s, nb, next), h, born)
    ensures forall i :: 0 <= i < 4 ==> (Strands(WithNext(s, nb, next), nb, i) <==> Strands(s, nb, i))
  {
    hide Inv, Has, Count, BorrowedOk;
    var s1 := WithNext(s, nb, next);
    PartsChanged(s, h, born, nb, s1);
    SameOwners(s, h, born, s1);
    InvBorrowed(s, h, born);
    BorrowedKept(s, s1, NULL);
    InvParts(s1, h, born);
    assert forall i, c :: 0 <= i < 4 ==> (Borrows(s1, nb, i, c) <==> Borrows(s, nb, i, c));
  }

  /** What joining makes of the heap, whoever borrows from the head. */
  lemma JoinedParts(s: Heap, nbq: Ptr, next: Ptr, dp: Ptr, data: seq<byte>, total: nat)
    requires nbq in s.bufs && Fresh(s, dp)
    ensures
      var s1 := Joined(s, nbq, next, dp, data, total);
      && nbq in s1.bufs && s1.bufs[nbq].next == next && Data(s1, nbq, AP) == data
      && s1.bufs.Keys == s.bufs.Keys && s1.blocks.Keys <= s.blocks.Keys + {dp}
      && (dp != NULL && s.bufs[nbq].Owns(AP) ==> s.bufs[nbq].parts[AP].vp in s.blocks ==>
        s.bufs[nbq].parts[AP].vp !in s1.blocks)
      && (forall p :: p in s.blocks && p in s1.blocks && p != dp ==> s1.blocks[p] == s.blocks[p])
      && (forall b, i :: b in s.bufs && 0 <= i < 4 && (b != nbq || i != AP) ==>
        s1.bufs[b].parts[i] == s.bufs[b].parts[i])
  {
    hide Has, Count, PartFlag;
  }

  lemma JoinedInv(s: Heap, h: multiset<Ptr>, born: map<Ptr, nat>, nbq: Ptr, next: Ptr, dp: Ptr, data: seq<byte>,
      total: nat)
    requires Inv(s, h, born) && nbq in s.bufs && dp != NULL && Fresh(s, dp) && !Strands(s, nbq, AP)
    ensures Inv(Joined(s, nbq, next, dp, data, total), h, born)
  {
    hide Inv, Has, Count, PartFlag, Strands;
    var s1 := WithNext(s, nbq, next);
    NextInv(s, h, born, nbq, next);
    DetachInv(s1, h, born, nbq, AP);
    AttachInv(Detached(s1, nbq, AP), h, born, nbq, AP, dp, |data|,
      data + NewBlock(if total < |data| then 0 else total - |data|));
  }

  /** The heap once the run that fits has been released. */
  function RunReleased(s: Heap, nbq: Ptr, q: seq<Ptr>, total: nat): Heap
    requires nbq in s.bufs && forall b :: b in q ==> b in s.bufs
  {
    ReleaseAll(s, q[..FitCount(s, q, s.bufs[nbq].parts[AP].sz, total)])
  }

  /** Collecting would take the head's own block while, after the run has been released, it is lent. */
  ghost predicate CollectStrands(s: Heap, nbq: Ptr, q: seq<Ptr>, total: nat)
    requires nbq in s.bufs && forall b :: b in q ==> b in s.bufs
  {
    var s1 := RunReleased(s, nbq, q, total);
    nbq in s1.bufs && Strands(s1, nbq, AP)
  }

  /** The run goes, the head stays. */
  lemma RunGone(s: Heap, h: multiset<Ptr>, born: map<Ptr, nat>, nbq: Ptr, q: seq<Ptr>, total: nat, dp: Ptr)
    requires Inv(s, h, born) && nbq in h && Fresh(s, dp) && multiset([nbq] + q) <= h
    ensures nbq in s.bufs && forall b :: b in q ==> b in s.bufs
    ensures
      var k := FitCount(s, q, s.bufs[nbq].parts[AP].sz, total);
      var s1 := RunReleased(s, nbq, q, total);
      && Inv(s1, h - multiset(q[..k]), born) && Kept(s, s1) && Fresh(s1, dp)
      && nbq in s1.bufs && nbq in h - multiset(q[..k])
  {
    hide Inv, Has, Kept;
    InvHandles(s, h, born);
    forall b | b in q ensures b in h {
      assert b in multiset([nbq] + q);
    }
    var k := FitCount(s, q, s.bufs[nbq].parts[AP].sz, total);
    HeldAfterRun(h, nbq, q, k);
    ReleaseAllInv(s, h, born, q[..k]);
    InvHandles(RunReleased(s, nbq, q, total), h - multiset(q[..k]), born);
    FreshKept(s, RunReleased(s, nbq, q, total), dp);
  }

  /** NutNetBufCollect, whatever the reference counts: the head's application part becomes its own data followed
      by that of the released run, and the invariant is kept if and only if the head's own block is not replaced
      while another buffer borrows it. */
  lemma CollectInv(s: Heap, h: multiset<Ptr>, born: map<Ptr, nat>, nbq: Ptr, q: seq<Ptr>, total: nat, dp: Ptr)
    requires Inv(s, h, born) && nbq in h && Fresh(s, dp) && multiset([nbq] + q) <= h
    ensures nbq in s.bufs && forall b :: b in q ==> b in s.bufs
    ensures var (s1, k) := Collect(s, nbq, q, total, dp);
      && k <= |q| && (Inv(s1, h - multiset(q[..k]), born) <==> !(dp != NULL && CollectStrands(s, nbq, q, total)))
      && (dp == NULL ==> s1 == s && k == 0)
      && (dp != NULL ==>
        && nbq in s1.bufs && s1.bufs[nbq].next == (if k < |q| then q[k] else NULL)
        && Data(s1, nbq, AP) == Data(s, nbq, AP) + Gather(s, q[..k]))
  {
    hide Inv, Has, Kept, Data, Gather, Strands, NothingDangles, Joined;
    RunGone(s, h, born, nbq, q, total, dp);
    var (s1, k) := Collect(s, nbq, q, total, dp);
    CollectDangles(s, h, born, nbq, q, total, dp);
    if dp == NULL {
      assert h - multiset(q[..0]) == h;
    } else {
      var data := Data(s, nbq, AP) + Gather(s, q[..k]);
      var next := if k < |q| then q[k] else NULL;
      JoinedParts(RunReleased(s, nbq, q, total), nbq, next, dp, data, total);
      if CollectStrands(s, nbq, q, total) {
        if Inv(s1, h - multiset(q[..k]), born) {
          InvNothingDangles(s1, h - multiset(q[..k]), born);
        }
      } else {
        JoinedInv(RunReleased(s, nbq, q, total), h - multiset(q[..k]), born, nbq, next, dp, data, total);
      }
    }
  }

  lemma FreshKept(s: Heap, s1: Heap, p: Ptr)
    requires Kept(s, s1) && Fresh(s, p)
    ensures Fresh(s1, p)
  {
  }

  /** Everybody else's data, and the head's other parts, are as before, if nothing that is lent is taken. */
  lemma CollectKeepsData(s: Heap, h: multiset<Ptr>, born: map<Ptr, nat>, nbq: Ptr, q: seq<Ptr>, total: nat, dp: Ptr,
      b: Ptr, i: nat)
    requires Inv(s, h, born) && nbq in h && Fresh(s, dp) && multiset([nbq] + q) <= h
    requires nbq in s.bufs && forall b :: b in q ==> b in s.bufs
    requires dp != NULL ==> !CollectStrands(s, nbq, q, total)
    requires b in Collect(s, nbq, q, total, dp).0.bufs && i < 4 && (b != nbq || i != AP)
    ensures b in s.bufs && Data(Collect(s, nbq, q, total, dp).0, b, i) == Data(s, b, i)
  {
    hide Inv, Has, Data, Gather, Joined, Strands;
    RunGone(s, h, born, nbq, q, total, dp);
    if dp != NULL {
      var (s2, k) := Collect(s, nbq, q, total, dp);
      CollectInv(s, h, born, nbq, q, total, dp);
      var s1, h1 := RunReleased(s, nbq, q, total), h - multiset(q[..k]);
      var data := Data(s, nbq, AP) + Gather(s, q[..k]);
      JoinedParts(s1, nbq, if k < |q| then q[k] else NULL, dp, data, total);
      KeptParts(s, s1, b);
      FreshNotThere(s, s1, dp);
      KeptBlocks(s, s1, s2);
      SameData(s, h, born, s2, h1, born, b, i);
    }
  }

  lemma FreshNotThere(s: Heap, s1: Heap, dp: Ptr)
    requires Kept(s, s1) && Fresh(s, dp) && dp != NULL
    ensures dp !in s.blocks && dp !in s1.blocks
  {
  }

  lemma KeptParts(s: Heap, s1: Heap, b: Ptr)
    requires Kept(s, s1) && b in s1.bufs
    ensures b in s.bufs && s1.bufs[b].parts == s.bufs[b].parts && s1.bufs[b].next == s.bufs[b].next
  {
  }

  lemma KeptBlocks(s: Heap, s1: Heap, s2: Heap)
    requires Kept(s, s1) && forall p :: p in s1.blocks && p in s2.blocks ==> s2.blocks[p] == s1.blocks[p]
    requires forall p :: p in s2.blocks && p in s.blocks ==> p in s1.blocks
    ensures forall p :: p in s.blocks && p in s2.blocks ==> s.blocks[p] == s2.blocks[p]
  {
  }

  /** NutNetBufCollect, whatever the head's reference count: a part is left without its block if and only if the
      head owns its application block while, after the run has been released, another buffer borrows it. */
  lemma CollectDangles(s: Heap, h: multiset<Ptr>, born: map<Ptr, nat>, nbq: Ptr, q: seq<Ptr>, total: nat, dp: Ptr)
    requires Inv(s, h, born) && nbq in h && nbq in s.bufs && Fresh(s, dp) && multiset([nbq] + q) <= h
    requires forall b :: b in q ==> b in s.bufs
    ensures NothingDangles(Collect(s, nbq, q, total, dp).0)
      <==> !(dp != NULL && CollectStrands(s, nbq, q, total))
  {
    hide Inv, Has, Kept, Data, Gather, Strands, NothingDangles, Joined;
    RunGone(s, h, born, nbq, q, total, dp);
    var (s2, k) := Collect(s, nbq, q, total, dp);
    if dp == NULL {
      InvNothingDangles(s, h, born);
    } else {
      var s1, h1 := RunReleased(s, nbq, q, total), h - multiset(q[..k]);
      var data := Data(s, nbq, AP) + Gather(s, q[..k]);
      var next := if k < |q| then q[k] else NULL;
      if CollectStrands(s, nbq, q, total) {
        StrandsOwned(s1, h1, born, nbq, AP);
        JoinedParts(s1, nbq, next, dp, data, total);
        SameParts(s1, s2, nbq);
        BorrowerDangles(s1, nbq, AP, s2);
      } else {
        JoinedInv(s1, h1, born, nbq, next, dp, data, total);
        InvNothingDangles(s2, h1, born);
      }
    }
  }

  lemma SameParts(s: Heap, s1: Heap, nb: Ptr)
    requires s1.bufs.Keys == s.bufs.Keys
    requires forall b, i :: b in s.bufs && 0 <= i < 4 && (b != nb || i != AP) ==>
      s1.bufs[b].parts[i] == s.bufs[b].parts[i]
    ensures forall b :: b in s.bufs && b != nb ==> s1.bufs[b].parts == s.bufs[b].parts
  {
    forall b | b in s.bufs && b != nb ensures s1.bufs[b].parts == s.bufs[b].parts {
      assert forall i :: 0 <= i < 4 ==> s1.bufs[b].parts[i] == s.bufs[b].parts[i];
    }
  }

  lemma HeldAfterRun(h: multiset<Ptr>, nbq: Ptr, q: seq<Ptr>, k: nat)
    requires multiset([nbq] + q) <= h && k <= |q|
    ensures multiset(q[..k]) <= h && nbq in h - multiset(q[..k])
  {
    assert q == q[..k] + q[k..];
    var taken: multiset<Ptr>, left: multiset<Ptr> := multiset(q[..k]), multiset(q[k..]);
    assert multiset([nbq] + q) == multiset{nbq} + (taken + left);
    assert (multiset{nbq} + (taken + left))[nbq] >= 1 + taken[nbq];
  }

  // ----- Histories

  datatype World = World(s: Heap, h: multiset<Ptr>, born: map<Ptr, nat>)

  datatype Op =
    | OpAlloc(nb: Ptr, part: nat, size: nat, sp: Ptr, dp: Ptr)
    | OpClone(nb: Ptr, inserts: bv8, c: Ptr, at: seq<Ptr>)
    | OpFree(nb: Ptr)
    | OpCollect(nbq: Ptr, q: seq<Ptr>, total: nat, dp: Ptr)

  /** What callers owe: they pass buffers they hold, and the allocator answers with unused addresses. */
  ghost predicate Allowed(w: World, op: Op) {
    && (forall b :: b in w.h ==> b in w.s.bufs)
    && match op
      case OpAlloc(nb, part, size, sp, dp) =>
        && part < 4 && size > 0 && Fresh(w.s, sp) && Fresh(w.s, dp) && (sp != NULL ==> sp != dp)
        && (nb != NULL ==> nb in w.h)
      case OpClone(nb, _, c, at) => nb in w.h && Answers(w.s, c, at)
      case OpFree(nb) => nb in w.h
      case OpCollect(nbq, q, total, dp) =>
        && nbq in w.h && Fresh(w.s, dp)
        && multiset([nbq] + q) <= w.h && Linked(w.s, w.s.bufs[nbq].next, q)
        && w.s.bufs[nbq].parts[AP].sz <= total && (forall b :: b in q ==> b in w.s.bufs)
  }

  ghost function Step(w: World, op: Op): World
    requires Allowed(w, op)
  {
    match op
    case OpAlloc(nb, part, size, sp, dp) =>
      var (s1, r) := Alloc(w.s, nb, part, size, sp, dp);
      World(s1, HandlesAfter(w.h, nb, r), BornAfter(w.born, nb, sp))
    case OpClone(nb, inserts, c, at) =>
      var (s1, r) := ClonePart(w.s, nb, inserts, c, at);
      if r == NULL then w.(s := s1)
      else World(s1, w.h + multiset{r}, w.born[r := (if nb in w.born then w.born[nb] else 0) + 1])
    case OpFree(nb) => w.(s := Release(w.s, nb), h := w.h - multiset{nb})
    case OpCollect(nbq, q, total, dp) =>
      var (s1, k) := Collect(w.s, nbq, q, total, dp);
      w.(s := s1, h := w.h - multiset(q[..k]))
  }

  ghost predicate Sound(w: World) {
    Inv(w.s, w.h, w.born)
  }

  /** The operation takes a block that another buffer borrows. */
  ghost predicate TakesLent(w: World, op: Op)
    requires Allowed(w, op)
  {
    match op
    case OpAlloc(nb, part, size, _, _) => nb != NULL && AllocStrands(w.s, nb, part, size)
    case OpCollect(nbq, q, total, dp) => dp != NULL && CollectStrands(w.s, nbq, q, total)
    case _ => false
  }

  lemma StepSound(w: World, op: Op)
    requires Sound(w) && Allowed(w, op)
    ensures Sound(Step(w, op)) <==> !TakesLent(w, op)
  {
    hide Inv, Alloc, ClonePart, Release, Collect, Linked, AllocStrands, CollectStrands;
    match op
    case OpAlloc(nb, part, size, sp, dp) => AllocInv(w.s, w.h, w.born, nb, part, size, sp, dp);
    case OpClone(nb, inserts, c, at) => CloneInv(w.s, w.h, w.born, nb, inserts, c, at);
    case OpFree(nb) => ReleaseInv(w.s, w.h, w.born, nb);
    case OpCollect(nbq, q, total, dp) => CollectInv(w.s, w.h, w.born, nbq, q, total, dp);
  }

  /** A history: every operation is allowed where it happens. */
  ghost predicate History(w: World, ops: seq<Op>, end: World)
    decreases |ops|
  {
    if ops == [] then w == end else Allowed(w, ops[0]) && History(Step(w, ops[0]), ops[1..], end)
  }

  /** The invariant holds from `w` on after every operation. */
  ghost predicate SoundThroughout(w: World, ops: seq<Op>, end: World)
    requires History(w, ops, end)
    decreases |ops|
  {
    Sound(w) && (ops != [] ==> SoundThroughout(Step(w, ops[0]), ops[1..], end))
  }

  ghost predicate NeverTakesLent(w: World, ops: seq<Op>, end: World)
    requires History(w, ops, end)
    decreases |ops|
  {
    ops != [] ==> !TakesLent(w, ops[0]) && NeverTakesLent(Step(w, ops[0]), ops[1..], end)
  }

  /** In every history the invariant holds throughout if and only if no operation takes what is lent. */
  lemma {:induction false} HistorySound(w: World, ops: seq<Op>, end: World)
    requires Sound(w) && History(w, ops, end)
    ensures SoundThroughout(w, ops, end) <==> NeverTakesLent(w, ops, end)
    ensures NeverTakesLent(w, ops, end) ==> Sound(end)
    decreases |ops|
  {
    hide Sound, Step, Allowed, TakesLent;
    if ops != [] {
      StepSound(w, ops[0]);
      if !TakesLent(w, ops[0]) {
        HistorySound(Step(w, ops[0]), ops[1..], end);
      } else {
        StartsUnsound(Step(w, ops[0]), ops[1..], end);
      }
    }
  }

  lemma StartsUnsound(w: World, ops: seq<Op>, end: World)
    requires History(w, ops, end) && !Sound(w)
    ensures !SoundThroughout(w, ops, end)
  {
  }

  const EMPTY := World(Heap(map[], map[]), multiset{}, map[])

  /** Whatever callers do with the buffers they hold, referenced or not, starting with an empty heap and never
      taking what is lent: every part of a live buffer lies in a live block that the buffer or one on its chain of
      originals owns; one plus the count is the number of handles plus the number of clones; and once all handles
      are given back, nothing is left. */
  lemma EveryHistory(ops: seq<Op>, end: World)
    requires History(EMPTY, ops, end) && NeverTakesLent(EMPTY, ops, end)
    ensures Sound(end) && RefsOk(end.s, end.born) && NULL !in end.s.bufs
    ensures forall b :: b in end.s.bufs ==> 1 + Count(end.s.bufs[b].flags) == end.h[b] + |Clones(end.s, b)|
    ensures forall b, i :: b in end.s.bufs && 0 <= i < 4 && end.s.bufs[b].parts[i].sz > 0 ==>
      exists o :: OnChain(end.s, b, o) && OwnsBlock(end.s, o, i, end.s.bufs[b].parts[i].vp)
    ensures end.h == multiset{} ==> end.s == Heap(map[], map[])
  {
    hide Sound, OnChain, OwnsBlock, History, Count, Clones, RefsOk;
    EmptySound();
    HistorySound(EMPTY, ops, end);
    PartsOwned(end);
    CountsConserved(end);
  }

  lemma CountsConserved(w: World)
    requires Sound(w)
    ensures forall b :: b in w.s.bufs ==> 1 + Count(w.s.bufs[b].flags) == w.h[b] + |Clones(w.s, b)|
    ensures w.h == multiset{} ==> w.s == Heap(map[], map[])
  {
    if w.h == multiset{} {
      NothingLeft(w.s, w.born);
    }
  }

  lemma EmptySound()
    ensures Sound(EMPTY)
  {
  }

  lemma PartsOwned(w: World)
    requires Sound(w)
    ensures RefsOk(w.s, w.born) && NULL !in w.s.bufs
    ensures forall b, i :: b in w.s.bufs && 0 <= i < 4 && w.s.bufs[b].parts[i].sz > 0 ==>
      exists o :: OnChain(w.s, b, o) && OwnsBlock(w.s, o, i, w.s.bufs[b].parts[i].vp)
  {
    hide OnChain, OwnsBlock, OwnedOk, UniqueOk, NoLeak, BorrowedOk, CountsOk;
    forall b, i | b in w.s.bufs && 0 <= i < 4 && w.s.bufs[b].parts[i].sz > 0
      ensures exists o :: OnChain(w.s, b, o) && OwnsBlock(w.s, o, i, w.s.bufs[b].parts[i].vp)
    {
      var o := OwnerOnChain(w.s, w.h, w.born, b, i);
    }
  }

  // ----- A clone that loses its data

  /** A buffer of four bytes is allocated and cloned, borrowing its data. */
  const LENDING: seq<Op> := [OpAlloc(NULL, 0, 4, 1, 2), OpClone(1, 0, 3, [NULL, NULL, NULL, NULL])]

  /** An instance: the history is allowed, and allocating eight bytes in the original, which has a clone now,
      leaves the clone's part without a block. */
  lemma CloneLosesData() returns (w: World)
    ensures History(EMPTY, LENDING, w) && w.s.bufs.Keys == {1, 3} && w.s.bufs[1].flags & NBAF_REFCNT != 0
    ensures !NothingDangles(Alloc(w.s, 1, 0, 8, NULL, 4).0) && Dangles(Alloc(w.s, 1, 0, 8, NULL, 4).0, 3, 0)
  {
    hide Alloc, ClonePart, NothingDangles, Dangles;
    FirstBuffer();
    FirstClone();
    var w1 := World(Heap(map[1 := ORIGINAL], map[2 := NewBlock(4)]), multiset{1}, map[1 := 0]);
    assert EMPTY.h + multiset{1} == multiset{1};
    assert Allowed(EMPTY, LENDING[0]) && Step(EMPTY, LENDING[0]) == w1;
    assert Allowed(w1, LENDING[1]);
    w := Step(w1, LENDING[1]);
    assert LENDING[1..] == [LENDING[1]] && LENDING[1..][1..] == [];
    assert w.s == Heap(map[1 := ORIGINAL.(flags := 0x11), 3 := CLONE], map[2 := NewBlock(4)]);
    assert History(w, [], w) && History(w1, LENDING[1..], w);
    LargerBlock();
  }

  const ORIGINAL := NetBuf(NULL, 0x10, [Part(2, 4), NO_PART, NO_PART, NO_PART], NULL)
  const CLONE := NetBuf(NULL, 0, [Part(2, 4), NO_PART, NO_PART, NO_PART], 1)

  lemma FirstBuffer()
    ensures Alloc(EMPTY.s, NULL, 0, 4, 1, 2) == (Heap(map[1 := ORIGINAL], map[2 := NewBlock(4)]), 1)
  {
    var s := Heap(map[1 := CLEARED], map[]);
    assert EMPTY.s.bufs[1 := CLEARED] == s.bufs && !Has(0, 0);
    assert CLEARED.parts[0 := NO_PART] == CLEARED.parts;
    assert Detached(s, 1, 0) == s;
    assert CLEARED.parts[0 := Part(2, 4)] == ORIGINAL.parts && CLEARED.flags | PartFlag(0) == 0x10;
    assert Attached(s, 1, 0, 2, 4, NewBlock(4)) == Heap(map[1 := ORIGINAL], map[2 := NewBlock(4)]);
  }

  lemma {:induction false} NothingCopied(blocks: map<Ptr, seq<byte>>, parts: Parts, at: seq<Ptr>, n: nat)
    requires n <= 4 && |at| == 4
    ensures ClonedFlags(parts, 0, n) == 0 && ClonedBlocks(blocks, parts, 0, at, n) == blocks
    decreases n
  {
    if n > 0 {
      assert !Has(0, n - 1);
      NothingCopied(blocks, parts, at, n - 1);
    }
  }

  lemma FirstClone()
    ensures ClonePart(Heap(map[1 := ORIGINAL], map[2 := NewBlock(4)]), 1, 0, 3, [NULL, NULL, NULL, NULL])
      == (Heap(map[1 := ORIGINAL.(flags := 0x11), 3 := CLONE], map[2 := NewBlock(4)]), 3)
  {
    hide ClonedFlags, ClonedBlocks;
    var parts, at, blocks: map<Ptr, seq<byte>> := ORIGINAL.parts, [NULL, NULL, NULL, NULL], map[2 := NewBlock(4)];
    assert forall i :: 0 <= i < 4 ==> !Has(0, i);
    assert ClonedParts(parts, 0, at) == CLONE.parts;
    NothingCopied(blocks, parts, at, 4);
    assert parts[0].sz > 0 && Borrowing(parts, 0);
    assert ORIGINAL.flags & NBAF_REFCNT != NBAF_REFCNT && ORIGINAL.flags + 1 == 0x11;
    assert forall i :: 0 <= i < 4 ==> !Copies(parts, 0, i);
    assert Inserts(ORIGINAL, 0) == 0;
    var referenced := map[1 := ORIGINAL][1 := ORIGINAL.(flags := 0x11)];
    assert referenced[3 := CLONE] == map[1 := ORIGINAL.(flags := 0x11), 3 := CLONE];
  }

  lemma LargerBlock()
    ensures
      var s := Heap(map[1 := ORIGINAL.(flags := 0x11), 3 := CLONE], map[2 := NewBlock(4)]);
      Dangles(Alloc(s, 1, 0, 8, NULL, 4).0, 3, 0) && !NothingDangles(Alloc(s, 1, 0, 8, NULL, 4).0)
  {
    var s := Heap(map[1 := ORIGINAL.(flags := 0x11), 3 := CLONE], map[2 := NewBlock(4)]);
    assert s.bufs[1].Owns(0);
    assert Dangles(Alloc(s, 1, 0, 8, NULL, 4).0, 3, 0);
  }
}

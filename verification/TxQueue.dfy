/** The transmit queue of the Ethernet driver (dev/dm9000.c): senders, the interrupt handler and the
    receiver thread that resets the chip, in any order. */
module TxQueue {
  const ETHERMTU := 1500

  /** Sizes of the parts of a NETBUF. */
  datatype Packet = Packet(dl: nat, nw: nat, tp: nat, ap: nat)

  /** Payload as the 16-bit variable holds it. */
  function Payload(p: Packet): nat {
    (p.nw + p.tp + p.ap) % 0x1_0000
  }

  /** Length given to the chip: even, in 16 bits. */
  function TxLen(p: Packet): nat {
    var sz := (Payload(p) + p.dl) % 0x1_0000;
    (sz + sz % 2) % 0x1_0000
  }

  /** The bytes of a frame, and with a byte more if they are odd. */
  function Total(p: Packet): nat {
    p.dl + p.nw + p.tp + p.ap
  }

  function Even(n: nat): nat {
    if n % 2 == 1 then n + 1 else n
  }

  /** A packet that is not too large is sent in full, rounded up by at most one byte. */
  lemma TxLenExact(p: Packet)
    requires p.nw + p.tp + p.ap <= ETHERMTU && p.dl < 0x8000
    ensures Payload(p) <= ETHERMTU && TxLen(p) == Even(Total(p)) && TxLen(p) % 2 == 0
    ensures p.dl + p.nw + p.tp + p.ap <= TxLen(p) <= p.dl + p.nw + p.tp + p.ap + 1
    ensures TxLen(p) == 0 <==> p.dl + p.nw + p.tp + p.ap == 0
  {
    NoWrap(p.nw + p.tp + p.ap);
    NoWrap(Total(p));
    NoWrap(Total(p) + Total(p) % 2);
    EvenIs(Total(p));
  }

  lemma EvenIs(n: nat)
    ensures Even(n) == n + n % 2 && Even(n) % 2 == 0 && n <= Even(n) <= n + 1
  {
  }

  lemma NoWrap(n: nat)
    requires n < 0x1_0000
    ensures n % 0x1_0000 == n
  {
  }

  /** The driver's counters and what the chip does: it is sending, or has sent and raises the transmit
      interrupt.  `accepted` and `started` are the lengths accepted and started since the last reset. */
  datatype Queue = Queue(queued: int, quelen: int, busy: bool, pts: bool, accepted: seq<int>, started: seq<int>)

  const EMPTY := Queue(0, 0, false, false, [], [])

  function Start(q: Queue, len: int): Queue {
    q.(busy := true, started := q.started + [len])
  }

  /** NicPutPacket behind its checks. */
  function Accept(q: Queue, len: int): Queue {
    var q1 := if q.queued == 0 then Start(q, len) else q.(quelen := len);
    q1.(queued := q.queued + 1, accepted := q.accepted + [len])
  }

  /** The transmitter part of NicInterrupt. */
  function Irq(q: Queue): Queue {
    if !q.pts then q
    else if q.queued == 0 then q.(pts := false)
    else
      var q1 := if q.quelen != 0 then Start(q, q.quelen).(quelen := 0) else q;
      q1.(queued := q.queued - 1, pts := false)
  }

  // ----- The machine

  /** The mutex and what its holder has found out. */
  datatype Lock = Free | Entered | Room | NoRoom | Done

  /** `reset` counts the assignments the receiver thread has done after it has restarted the chip. */
  datatype State = State(q: Queue, insane: bool, lock: Lock, restarted: bool, reset: nat)

  datatype Event =
    | Lock              // a sender gets the mutex
    | Check             // it looks at ni_tx_queued
    | Put(p: Packet)    // NicPutPacket, with interrupts disabled
    | Unlock            // it releases the mutex, after any waiting
    | Sent              // the chip has sent a packet
    | Interrupt         // NicInterrupt
    | GoInsane          // receiver overflow, or a weird status word
    | Restart           // NicStart by the receiver thread
    | ClearInsane | ClearQueued | ClearQuelen

  /** Threads change only where they wait, so senders do not run between the assignments of a reset. */
  predicate Enabled(s: State, e: Event) {
    match e
    case Lock => s.lock == Free && s.reset == 0
    case Check => s.lock == Entered && s.reset == 0
    case Put(_) => s.lock == Room && s.reset == 0
    case Unlock => s.lock in {NoRoom, Done} && s.reset == 0
    case Sent => s.q.busy
    case Interrupt => true
    case GoInsane => true
    case Restart => s.insane && s.reset == 0
    case ClearInsane => s.restarted && s.reset == 0
    case ClearQueued => s.reset == 1
    case ClearQuelen => s.reset == 2
  }

  /** The packet is accepted: it is not too large, and the chip is not to be restarted. */
  predicate Accepts(s: State, p: Packet) {
    Payload(p) <= ETHERMTU && !s.insane
  }

  function Step(s: State, e: Event): State
    requires Enabled(s, e)
  {
    match e
    case Lock => s.(lock := Entered)
    case Check => s.(lock := if s.q.queued > 1 then NoRoom else Room)
    case Put(p) => if Accepts(s, p) then s.(q := Accept(s.q, TxLen(p)), lock := Done) else s.(lock := Done)
    case Unlock => s.(lock := Free)
    case Sent => s.(q := s.q.(busy := false, pts := true))
    case Interrupt => s.(q := Irq(s.q))
    case GoInsane => s.(insane := true)
    case Restart => s.(q := s.q.(busy := false, pts := false), restarted := true)
    case ClearInsane => s.(insane := false, reset := 1)
    case ClearQueued => s.(q := s.q.(queued := 0, accepted := [], started := []), reset := 2)
    case ClearQuelen => s.(q := s.q.(quelen := 0), reset := 0, restarted := false)
  }

  const BEGIN := State(EMPTY, false, Free, false, 0)

  // ----- The invariant

  /** The packet behind the one with the chip. */
  function Waiting(q: Queue): seq<int> {
    if q.queued == 2 then [q.quelen] else []
  }

  /** One packet with the chip, at most one behind it, in the order of acceptance. */
  predicate Consistent(q: Queue) {
    && 0 <= q.queued <= 2
    && (q.quelen != 0 <==> q.queued == 2)
    && q.accepted == q.started + Waiting(q)
    && !(q.busy && q.pts)
  }

  /** The chip has something to do or to report exactly if a packet is counted. */
  predicate Live(q: Queue) {
    q.queued > 0 <==> q.busy || q.pts
  }

  predicate Inv(s: State) {
    && s.reset <= 2
    && (s.reset < 2 ==> Consistent(s.q))
    && (s.reset == 2 ==> s.q.queued == 0 && s.q.accepted == [] && s.q.started == [])
    && (if s.restarted then !s.q.busy && !s.q.pts && (s.insane || s.reset > 0) else s.reset == 0 && Live(s.q))
    && (s.lock == Room ==> s.q.queued <= 1)
  }

  /** A packet without any bytes is accepted while another one is with the chip. */
  predicate EmptyBehind(s: State, e: Event) {
    e.Put? && Accepts(s, e.p) && TxLen(e.p) == 0 && s.q.queued == 1
  }

  /** A step keeps the invariant if and only if it does not accept an empty packet behind another one. */
  lemma StepKeeps(s: State, e: Event)
    requires Inv(s) && Enabled(s, e)
    ensures Inv(Step(s, e)) <==> !EmptyBehind(s, e)
  {
  }

  ghost predicate Allowed(s: State, es: seq<Event>)
    decreases |es|
  {
    es != [] ==> Enabled(s, es[0]) && Allowed(Step(s, es[0]), es[1..])
  }

  ghost function Run(s: State, es: seq<Event>): State
    requires Allowed(s, es)
    decreases |es|
  {
    if es == [] then s else Run(Step(s, es[0]), es[1..])
  }

  ghost predicate NeverEmptyBehind(s: State, es: seq<Event>)
    requires Allowed(s, es)
    decreases |es|
  {
    es != [] ==> !EmptyBehind(s, es[0]) && NeverEmptyBehind(Step(s, es[0]), es[1..])
  }

  ghost predicate InvThroughout(s: State, es: seq<Event>)
    requires Allowed(s, es)
    decreases |es|
  {
    Inv(s) && (es != [] ==> InvThroughout(Step(s, es[0]), es[1..]))
  }

  /** Over all interleavings the invariant holds throughout if and only if no empty packet is accepted behind
      another one. */
  lemma {:induction false} RunKeeps(s: State, es: seq<Event>)
    requires Inv(s) && Allowed(s, es)
    ensures InvThroughout(s, es) <==> NeverEmptyBehind(s, es)
    ensures NeverEmptyBehind(s, es) ==> Inv(Run(s, es))
    decreases |es|
  {
    hide Inv, Enabled, Step, EmptyBehind;
    if es != [] {
      StepKeeps(s, es[0]);
      if EmptyBehind(s, es[0]) {
        StartsOutside(Step(s, es[0]), es[1..]);
      } else {
        RunKeeps(Step(s, es[0]), es[1..]);
      }
    }
  }

  lemma StartsOutside(s: State, es: seq<Event>)
    requires Allowed(s, es) && !Inv(s)
    ensures !InvThroughout(s, es)
  {
  }

  // ----- What follows for runs

  /** Lengths of the packets a run accepts, from its events. */
  ghost function AcceptedBy(s: State, es: seq<Event>): seq<int>
    requires Allowed(s, es)
    decreases |es|
  {
    if es == [] then []
    else
      (if es[0].Put? && Accepts(s, es[0].p) then [TxLen(es[0].p)] else [])
      + AcceptedBy(Step(s, es[0]), es[1..])
  }

  predicate NoReset(es: seq<Event>) {
    forall i :: 0 <= i < |es| ==> es[i] != ClearQueued
  }

  lemma {:induction false} RunAccepts(s: State, es: seq<Event>)
    requires Allowed(s, es) && NoReset(es)
    ensures Run(s, es).q.accepted == s.q.accepted + AcceptedBy(s, es)
    decreases |es|
  {
    if es != [] {
      assert es[0] != ClearQueued;
      RunAccepts(Step(s, es[0]), es[1..]);
    }
  }

  /** Between resets, whatever senders, interrupts and errors do: packets are started in the order they are
      accepted, each once and with its own length.  Unless an empty packet has been accepted behind another one,
      only the last one, counted as queued behind another, may still be to start. */
  lemma StartedInOrder(es: seq<Event>)
    requires Allowed(BEGIN, es) && NoReset(es)
    ensures var q := Run(BEGIN, es).q;
      && q.started <= AcceptedBy(BEGIN, es)
      && (NeverEmptyBehind(BEGIN, es) ==>
        && 0 <= q.queued <= 2
        && (q.quelen != 0 <==> q.queued == 2)
        && AcceptedBy(BEGIN, es) == q.started + Waiting(q))
  {
    hide Allowed, Run, AcceptedBy, NeverEmptyBehind;
    RunKeeps(BEGIN, es);
    RunAccepts(BEGIN, es);
    NotCleared(BEGIN, es);
    RunOrdered(BEGIN, es);
    assert BEGIN.q.accepted + AcceptedBy(BEGIN, es) == AcceptedBy(BEGIN, es);
  }

  lemma {:induction false} NotCleared(s: State, es: seq<Event>)
    requires Allowed(s, es) && NoReset(es) && s.reset < 2
    ensures Run(s, es).reset < 2
    decreases |es|
  {
    if es != [] {
      assert es[0] != ClearQueued;
      NotCleared(Step(s, es[0]), es[1..]);
    }
  }

  /** No packet is started while the chip is sending. */
  lemma StartsWhenIdle(s: State, e: Event)
    requires Inv(s) && Enabled(s, e) && Step(s, e).q.started != s.q.started && e != ClearQueued
    ensures !s.q.busy && Step(s, e).q.started == s.q.started + [Step(s, e).q.started[|s.q.started|]]
  {
  }

  /** Nothing is left behind: once the chip has sent what it was given and the handler has run for it,
      twice at most, all packets accepted have been started and none is counted. */
  lemma Drains(s: State)
    requires Inv(s) && !s.restarted
    ensures
      Drained(Drained(s)).q == s.q.(queued := 0, quelen := 0, busy := false, pts := false, started := s.q.accepted)
  {
  }

  /** The chip sends its packet, if it has one, and the handler runs. */
  function Drained(s: State): State {
    var s1 := if s.q.busy then Step(s, Sent) else s;
    Step(s1, Interrupt)
  }

  // ----- What a sender gets

  /** A sender that gets the mutex may put its packet if and only if at most one is queued.  A packet of at most
      1500 bytes, while the chip is sane, is then accepted with its length rounded up to even, and is started at
      once if and only if nothing was queued; any other leaves the queue alone.  In the end the mutex is free. */
  lemma SenderServed(s: State, p: Packet)
    requires Inv(s) && s.reset == 0 && s.lock == Free
    ensures Enabled(s, Lock) && Enabled(Step(s, Lock), Check)
    ensures
      var s2 := Step(Step(s, Lock), Check);
      && s2.q == s.q && s2.insane == s.insane && (Enabled(s2, Put(p)) <==> s.q.queued <= 1)
      && (s.q.queued > 1 ==> Enabled(s2, Unlock) && Step(s2, Unlock) == s)
      && (s.q.queued <= 1 ==>
        var s3, total := Step(s2, Put(p)), p.dl + p.nw + p.tp + p.ap;
        var len := if total % 2 == 1 then total + 1 else total;
        && (p.nw + p.tp + p.ap <= 1500 && p.dl < 0x8000 && !s.insane ==>
          && s3.q.accepted == s.q.accepted + [len]
          && s3.q.started == s.q.started + (if s.q.queued == 0 then [len] else [])
          && s3.q.queued == s.q.queued + 1 && s3.q.busy == (s.q.queued == 0 || s.q.busy)
          && (s.q.queued == 1 ==> s3.q.quelen == len))
        && (s.insane || 1500 < p.nw + p.tp + p.ap < 0x1_0000 ==> s3.q == s.q)
        && Enabled(s3, Unlock) && Step(s3, Unlock).lock == Free && Step(s3, Unlock).q == s3.q)
  {
    hide TxLen, Payload;
    if p.nw + p.tp + p.ap < 0x1_0000 {
      PayloadIs(p);
    }
    if p.nw + p.tp + p.ap <= 1500 && p.dl < 0x8000 {
      TxLenExact(p);
    }
  }

  lemma PayloadIs(p: Packet)
    requires p.nw + p.tp + p.ap < 0x1_0000
    ensures Payload(p) == p.nw + p.tp + p.ap
  {
  }

  /** An error can be found in whatever state, and the receiver thread's reset then leaves the queue empty and the
      chip sane. */
  lemma ResetRecovers(s: State)
    requires s.reset == 0
    ensures Allowed(s, [GoInsane, Restart, ClearInsane, ClearQueued, ClearQuelen])
    ensures
      Run(s, [GoInsane, Restart, ClearInsane, ClearQueued, ClearQuelen]) == State(EMPTY, false, s.lock, false, 0)
  {
    var s0 := Step(s, GoInsane);
    var s1 := Step(s0, Restart);
    var s2 := Step(s1, ClearInsane);
    var s3 := Step(s2, ClearQueued);
    RunLast(s3, ClearQuelen);
    RunFirst(s2, ClearQueued, [ClearQuelen]);
    RunFirst(s1, ClearInsane, [ClearQueued, ClearQuelen]);
    RunFirst(s0, Restart, [ClearInsane, ClearQueued, ClearQuelen]);
    RunFirst(s, GoInsane, [Restart, ClearInsane, ClearQueued, ClearQuelen]);
  }

  lemma RunLast(s: State, e: Event)
    requires Enabled(s, e)
    ensures Allowed(s, [e]) && Run(s, [e]) == Step(s, e)
  {
    assert [e][1..] == [];
  }

  lemma RunFirst(s: State, e: Event, es: seq<Event>)
    requires Enabled(s, e) && Allowed(Step(s, e), es)
    ensures Allowed(s, [e] + es) && Run(s, [e] + es) == Run(Step(s, e), es)
  {
    hide Enabled, Step;
    assert ([e] + es)[1..] == es;
  }

  // ----- What an empty packet does

  /** A packet is counted, and the chip is idle or about to be, with no length to start next. */
  predicate Stuck(s: State) {
    && s.q.queued > 0 && !(s.q.busy && s.q.pts)
    && (s.q.busy || s.q.pts ==> s.q.queued > 1 && s.q.quelen == 0 && s.lock != Room)
  }

  lemma StuckStep(s: State, e: Event)
    requires Stuck(s) && Enabled(s, e) && e != ClearQueued
    ensures Stuck(Step(s, e)) && Step(s, e).q.started == s.q.started && s.q.accepted <= Step(s, e).q.accepted
  {
  }

  /** Until the next reset nothing is started any more. */
  lemma {:induction false} StuckForever(s: State, es: seq<Event>)
    requires Stuck(s) && Allowed(s, es) && NoReset(es)
    ensures Stuck(Run(s, es)) && Run(s, es).q.started == s.q.started
    decreases |es|
  {
    hide Stuck, Enabled, Step;
    if es != [] {
      assert es[0] != ClearQueued;
      StuckStep(s, es[0]);
      StuckForever(Step(s, es[0]), es[1..]);
    }
  }

  /** Once an empty packet has been accepted behind another one, in whatever state and whatever comes after it:
      until the transmit counter is reset no packet is started, neither this one nor any accepted later. */
  lemma EmptyPacketStays(s: State, e: Event, es: seq<Event>)
    requires Inv(s) && Enabled(s, e) && EmptyBehind(s, e)
    requires Allowed(s, [e] + es) && NoReset(es)
    ensures Run(s, [e] + es).q.started == s.q.started && Run(s, [e] + es).q.queued > 0
  {
    assert ([e] + es)[1..] == es;
    StuckForever(Step(s, e), es);
  }

  /** An instance: from the start a packet, an empty one, and the first one sent. */
  lemma EmptyPacketExample(p: Packet)
    requires Payload(p) <= ETHERMTU && TxLen(p) != 0
    ensures var q := Accept(Accept(EMPTY, TxLen(p)), TxLen(Packet(0, 0, 0, 0)));
      var q1 := Irq(q.(busy := false, pts := true));
      q1.queued == 1 && !q1.busy && !q1.pts && q1.started == [TxLen(p)] && q1.accepted == [TxLen(p), 0]
  {
  }

  /** The invariant holds, or nothing is started any more. */
  predicate Ordered(s: State) {
    (Inv(s) && s.reset < 2) || (Stuck(s) && s.q.started <= s.q.accepted)
  }

  lemma OrderedStep(s: State, e: Event)
    requires Ordered(s) && Enabled(s, e) && e != ClearQueued
    ensures Ordered(Step(s, e))
  {
    hide Enabled, Step;
    if Inv(s) && s.reset < 2 {
      StepKeeps(s, e);
      OneMore(s, e);
    } else {
      StuckStep(s, e);
    }
  }

  lemma OneMore(s: State, e: Event)
    requires Inv(s) && s.reset < 2 && Enabled(s, e) && e != ClearQueued
    ensures Step(s, e).reset < 2
    ensures EmptyBehind(s, e) ==> Stuck(Step(s, e)) && Step(s, e).q.started <= Step(s, e).q.accepted
  {
  }

  lemma {:induction false} RunOrdered(s: State, es: seq<Event>)
    requires Ordered(s) && Allowed(s, es) && NoReset(es)
    ensures Run(s, es).q.started <= Run(s, es).q.accepted
    decreases |es|
  {
    hide Enabled, Step, Ordered;
    if es == [] {
      OrderedPrefix(s);
    } else {
      assert es[0] != ClearQueued;
      OrderedStep(s, es[0]);
      RunOrdered(Step(s, es[0]), es[1..]);
    }
  }

  lemma OrderedPrefix(s: State)
    requires Ordered(s)
    ensures s.q.started <= s.q.accepted
  {
  }

  // ----- The functions of the source

  /** NICINFO and the registers of the chip that take part. */
  class NicInfo {
    var ni_tx_queued: int
    var ni_tx_quelen: int
    var ni_insane: bool
    /** NIC_TXPL and NIC_TXPL + 1. */
    var txplLow: nat
    var txplHigh: nat
    var busy: bool
    /** NIC_ISR_PTS and NIC_ISR_ROS */
    var pts: bool
    var ros: bool
    ghost var accepted: seq<int>
    ghost var started: seq<int>

    ghost function Contents(): Queue
      reads this
    {
      Queue(ni_tx_queued, ni_tx_quelen, busy, pts, accepted, started)
    }

    constructor ()
      ensures Contents() == EMPTY && !ni_insane
    {
      ni_tx_queued, ni_tx_quelen, ni_insane := 0, 0, false;
      txplLow, txplHigh, busy, pts, ros := 0, 0, false, false, false;
      accepted, started := [], [];
    }

    /** NIC_TCR_TXREQ: the chip sends as many bytes as its two length registers say. */
    method Request()
      modifies this`busy, this`started
      ensures busy && started == old(started) + [txplLow + 0x100 * txplHigh]
    {
      busy := true;
      started := started + [txplLow + 0x100 * txplHigh];
    }

    /** NicInterrupt */
    method Interrupt()
      requires 0 <= ni_tx_quelen < 0x1_0000
      modifies this
      ensures Contents() == Irq(old(Contents())) && ni_insane == (old(ni_insane) || old(ros)) && !ros
      ensures !pts && (busy != old(busy) ==> old(pts) && old(ni_tx_quelen) != 0 && ni_tx_quelen == 0)
    {
      if pts {
        if ni_tx_queued != 0 {
          if ni_tx_quelen != 0 {
            txplLow := ni_tx_quelen % 0x100;
            txplHigh := ni_tx_quelen / 0x100 % 0x100;
            ni_tx_quelen := 0;
            Request();
          }
          ni_tx_queued := ni_tx_queued - 1;
        }
        pts := false;
      }
      if ros {
        ros := false;
        ni_insane := true;
      }
    }

    /** NicPutPacket, without the transfer of the data and the wait at its end. */
    method PutPacket(nb: Packet) returns (rc: int)
      modifies this
      ensures var ok := Payload(nb) <= ETHERMTU && !old(ni_insane);
        rc == (if ok then 0 else -1) && Contents() == if ok then Accept(old(Contents()), TxLen(nb)) else old(Contents())
      ensures ni_insane == old(ni_insane)
      // The event of the machine, and what it comes to.
      ensures forall s: State :: s.q == old(Contents()) && s.insane == old(ni_insane) && Enabled(s, Put(nb)) ==>
        Step(s, Put(nb)).q == Contents()
      ensures var total := nb.dl + nb.nw + nb.tp + nb.ap;
        var len := if total % 2 == 1 then total + 1 else total;
        && (old(ni_insane) ==> rc == -1)
        && (1500 < nb.nw + nb.tp + nb.ap < 0x1_0000 ==> rc == -1)
        && (nb.nw + nb.tp + nb.ap <= 1500 && nb.dl < 0x8000 && !old(ni_insane) ==>
          && rc == 0 && accepted == old(accepted) + [len]
          && started == old(started) + if old(ni_tx_queued) == 0 then [len] else [])
    {
      if nb.nw + nb.tp + nb.ap < 0x1_0000 {
        PayloadIs(nb);
      }
      if nb.nw + nb.tp + nb.ap <= 1500 && nb.dl < 0x8000 {
        TxLenExact(nb);
      }
      rc := Put16(nb);
    }

    /** Its statements, in 16 bits. */
    method Put16(nb: Packet) returns (rc: int)
      modifies this
      ensures var ok := Payload(nb) <= ETHERMTU && !old(ni_insane);
        rc == (if ok then 0 else -1) && Contents() == if ok then Accept(old(Contents()), TxLen(nb)) else old(Contents())
      ensures ni_insane == old(ni_insane)
    {
      rc := -1;
      var sz := (nb.nw + nb.tp + nb.ap) % 0x1_0000;
      if sz > ETHERMTU {
        return;
      }
      sz := (sz + nb.dl) % 0x1_0000;
      if sz % 2 == 1 {
        sz := (sz + 1) % 0x1_0000;
      }
      if !ni_insane {
        if ni_tx_queued == 0 {
          txplLow := sz % 0x100;
          txplHigh := sz / 0x100;
          Request();
        } else {
          ni_tx_quelen := sz;
        }
        ni_tx_queued := ni_tx_queued + 1;
        accepted := accepted + [sz];
        rc := 0;
      }
    }
  }
}

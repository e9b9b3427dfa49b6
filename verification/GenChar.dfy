/** The receive side of the sample character driver (dev/genchar.c): the interrupt handler fills a buffer
    that one reader empties. */
module GenChar {
  type byte = b: nat | b < 256

  /** Bytes the receive buffer holds. */
  const RBUFF := 16

  // ----- Interleaved steps

  /** GenCharRead between its steps: how many bytes it will take, and those it has copied. */
  datatype Reader = Idle | Called(size: nat) | Copying(rc: nat, got: seq<byte>)

  /** `buf` is the used part of the buffer.  `accepted` are all bytes stored in it, `taken` all that left
      it, by reading or by discarding. */
  datatype State = State(buf: seq<byte>, reader: Reader, accepted: seq<byte>, taken: seq<byte>)

  datatype Event =
    | Receive(b: byte)   // the receive interrupt, at any time the reader has not disabled it
    | Call(size: nat)    // GenCharRead with a buffer
    | Sample             // it looks at the counter, which is not zero
    | Timeout            // the counter stays zero
    | Copy               // memcpy, byte by byte
    | Finish             // counter and rest of the buffer are moved, with the interrupt disabled
    | Discard            // GenCharRead without a buffer

  predicate Enabled(s: State, e: Event) {
    match e
    case Receive(_) => true
    case Call(_) => s.reader.Idle?
    case Sample => s.reader.Called? && s.buf != []
    case Timeout => s.reader.Called?
    case Copy => s.reader.Copying? && |s.reader.got| < s.reader.rc <= |s.buf|
    case Finish => s.reader.Copying? && |s.reader.got| == s.reader.rc <= |s.buf|
    case Discard => s.reader.Idle?
  }

  function Stored(buf: seq<byte>, b: byte): seq<byte> {
    if |buf| < RBUFF then buf + [b] else buf
  }

  function Step(s: State, e: Event): State
    requires Enabled(s, e)
  {
    match e
    case Receive(b) => s.(buf := Stored(s.buf, b), accepted := if |s.buf| < RBUFF then s.accepted + [b] else s.accepted)
    case Call(size) => s.(reader := Called(size))
    case Sample => s.(reader := Copying(if |s.buf| > s.reader.size then s.reader.size else |s.buf|, []))
    case Timeout => s.(reader := Idle)
    case Copy => s.(reader := Copying(s.reader.rc, s.reader.got + [s.buf[|s.reader.got|]]))
    case Finish => s.(buf := s.buf[s.reader.rc..], reader := Idle, taken := s.taken + s.reader.got)
    case Discard => s.(buf := [], taken := s.taken + s.buf)
  }

  /** No byte is lost, repeated or moved. */
  predicate Inv(s: State) {
    && |s.buf| <= RBUFF && s.taken + s.buf == s.accepted
    && (s.reader.Copying? ==> |s.reader.got| <= s.reader.rc <= |s.buf| && s.reader.got == s.buf[..|s.reader.got|])
  }

  lemma StepKeeps(s: State, e: Event)
    requires Inv(s) && Enabled(s, e)
    ensures Inv(Step(s, e))
  {
    if e == Finish {
      assert s.reader.got + s.buf[s.reader.rc..] == s.buf;
      assert s.taken + s.reader.got + s.buf[s.reader.rc..] == s.taken + (s.reader.got + s.buf[s.reader.rc..]);
    }
  }

  ghost predicate Allowed(s: State, es: seq<Event>)
    decreases |es|
  {
    es != [] ==> Enabled(s, es[0]) && Allowed(Step(s, es[0]), es[1..])
  }

  ghost function Run(s: State, es: seq<Event>): State
    requires Allowed(s, es)
    decreases |es|
  {
    if es == [] then s else Run(Step(s, es[0]), es[1..])
  }

  /** Over any interleaving, the bytes taken followed by the bytes buffered are the bytes accepted, in
      order. */
  lemma {:induction false} RunKeeps(s: State, es: seq<Event>)
    requires Inv(s) && Allowed(s, es)
    ensures Inv(Run(s, es))
    decreases |es|
  {
    hide Inv, Enabled, Step;
    if es != [] {
      StepKeeps(s, es[0]);
      RunKeeps(Step(s, es[0]), es[1..]);
    }
  }

  // ----- What a read yields

  /** How many bytes a read takes is settled when it looks at the counter: the smaller of what is there and what the
      caller asks for. */
  lemma SampleBounds(s: State)
    requires Enabled(s, Sample)
    ensures
      var r := Step(s, Sample).reader;
      && r.Copying? && r.got == [] && r.rc <= s.reader.size && r.rc <= |s.buf|
      && (r.rc == s.reader.size || r.rc == |s.buf|)
      && Step(s, Sample).buf == s.buf && Step(s, Sample).taken == s.taken
  {
  }

  /** The interrupt can come at any time; it stores the byte unless 16 are there. */
  lemma ReceivedAnytime(s: State, b: byte)
    ensures Enabled(s, Receive(b))
    ensures Step(s, Receive(b)) ==
      if |s.buf| < 16 then s.(buf := s.buf + [b], accepted := s.accepted + [b]) else s
  {
  }

  /** A reader that calls goes on if and only if something is there; one that gives up takes nothing, and one
      without a buffer of its own takes all there is. */
  lemma ReaderServed(s: State, size: nat)
    requires s.reader.Idle?
    ensures Enabled(s, Call(size)) && Enabled(s, Discard)
    ensures Enabled(Step(s, Call(size)), Sample) <==> s.buf != []
    ensures Enabled(Step(s, Call(size)), Timeout) && Step(Step(s, Call(size)), Timeout) == s
    ensures Step(s, Discard) == s.(buf := [], taken := s.taken + s.buf)
  {
  }

  function Copies(n: nat): (es: seq<Event>)
    ensures |es| == n + 1
  {
    seq(n, _ => Copy) + [Finish]
  }

  lemma {:induction false} CopyAll(s: State)
    requires Inv(s) && s.reader.Copying?
    ensures
      var es := Copies(s.reader.rc - |s.reader.got|);
      && Allowed(s, es)
      && Run(s, es) == State(s.buf[s.reader.rc..], Idle, s.accepted, s.taken + s.buf[..s.reader.rc])
    decreases s.reader.rc - |s.reader.got|
  {
    var n := s.reader.rc - |s.reader.got|;
    if n == 0 {
      assert Copies(n) == [Finish] && [Finish][1..] == [];
    } else {
      var s1 := Step(s, Copy);
      assert Copies(n)[0] == Copy && Copies(n)[1..] == Copies(n - 1);
      assert Inv(s1) by { StepKeeps(s, Copy); }
      CopyAll(s1);
    }
  }

  /** A read of up to `size` bytes takes the oldest ones, `size` of them or as many as there are, and leaves the
      rest. */
  lemma WholeRead(s: State, size: nat)
    requires Inv(s) && s.reader.Idle? && s.buf != []
    ensures
      var rc := if |s.buf| < size then |s.buf| else size;
      var es := [Call(size), Sample] + Copies(rc);
      && Allowed(s, es)
      && Run(s, es) == State(s.buf[rc..], Idle, s.accepted, s.taken + s.buf[..rc])
  {
    var rc := if |s.buf| < size then |s.buf| else size;
    var es := [Call(size), Sample] + Copies(rc);
    var s1 := Step(s, Call(size));
    var s2 := Step(s1, Sample);
    assert es[0] == Call(size) && es[1..] == [Sample] + Copies(rc) && es[1..][1..] == Copies(rc);
    assert Inv(s2) by {
      StepKeeps(s, Call(size));
      StepKeeps(s1, Sample);
    }
    CopyAll(s2);
  }

  // ----- The buffer in place

  class Dcb {
    var rbuff: array<byte>
    var rcnt: nat

    ghost predicate Valid()
      reads this
    {
      rbuff.Length == RBUFF && rcnt <= RBUFF
    }

    ghost function Contents(): seq<byte>
      requires Valid()
      reads this, rbuff
    {
      rbuff[..rcnt]
    }

    constructor ()
      ensures Valid() && Contents() == [] && fresh(rbuff)
    {
      rbuff, rcnt := new byte[RBUFF], 0;
    }

    /** The receive part of GenCharInterrupt; posts the event with the first byte. */
    method Receive(b: byte) returns (post: bool)
      requires Valid()
      modifies this`rcnt, rbuff
      ensures Valid() && Contents() == Stored(old(Contents()), b)
      ensures Contents() == if |old(Contents())| < 16 then old(Contents()) + [b] else old(Contents())
      ensures post <==> |Contents()| == 1
    {
      if rcnt < rbuff.Length {
        rbuff[rcnt] := b;
        rcnt := rcnt + 1;
      }
      post := rcnt == 1;
    }

    /** The end of GenCharRead: the rest moves to the front. */
    method Remove(rc: nat)
      requires Valid() && rc <= rcnt
      modifies this`rcnt, rbuff
      ensures Valid() && Contents() == old(Contents())[rc..]
    {
      rcnt := rcnt - rc;
      var i := 0;
      while i < rcnt
        invariant rcnt == old(rcnt) - rc && 0 <= i <= rcnt
        invariant rbuff[..i] == old(rbuff[rc..rc + i])
        invariant rbuff[i..] == old(rbuff[i..])
      {
        assert rbuff[rc + i] == rbuff[i..][rc];
        rbuff[i] := rbuff[rc + i];
        i := i + 1;
      }
    }
  }
}

/** The TAP driver of dev/jtag_tap.c against the TAP controller of clause 6 of IEEE Std 1149.1-2001. */
module JtagTap {
  import opened JtagCable

  // ----- The controller

  /** State codes as in include/dev/jtag_tap.h. */
  type State = s: nat | s < 16

  const TEST_LOGIC_RESET: State := 0
  const RUN_TEST_IDLE: State := 1
  const SELECT_DR_SCAN: State := 2
  const CAPTURE_DR: State := 3
  const SHIFT_DR: State := 4
  const EXIT1_DR: State := 5
  const PAUSE_DR: State := 6
  const EXIT2_DR: State := 7
  const UPDATE_DR: State := 8
  const SELECT_IR_SCAN: State := 9
  const CAPTURE_IR: State := 10
  const SHIFT_IR: State := 11
  const EXIT1_IR: State := 12
  const PAUSE_IR: State := 13
  const EXIT2_IR: State := 14
  const UPDATE_IR: State := 15
  const UNKNOWN_STATE: nat := 16

  /** One rising edge of TCK. */
  function Next(s: State, tms: bool): State {
    match s
    case 0 => if tms then TEST_LOGIC_RESET else RUN_TEST_IDLE
    case 1 => if tms then SELECT_DR_SCAN else RUN_TEST_IDLE
    case 2 => if tms then SELECT_IR_SCAN else CAPTURE_DR
    case 3 => if tms then EXIT1_DR else SHIFT_DR
    case 4 => if tms then EXIT1_DR else SHIFT_DR
    case 5 => if tms then UPDATE_DR else PAUSE_DR
    case 6 => if tms then EXIT2_DR else PAUSE_DR
    case 7 => if tms then UPDATE_DR else SHIFT_DR
    case 8 => if tms then SELECT_DR_SCAN else RUN_TEST_IDLE
    case 9 => if tms then TEST_LOGIC_RESET else CAPTURE_IR
    case 10 => if tms then EXIT1_IR else SHIFT_IR
    case 11 => if tms then EXIT1_IR else SHIFT_IR
    case 12 => if tms then UPDATE_IR else PAUSE_IR
    case 13 => if tms then EXIT2_IR else PAUSE_IR
    case 14 => if tms then UPDATE_IR else SHIFT_IR
    case _ => if tms then SELECT_DR_SCAN else RUN_TEST_IDLE
  }

  function Run(s: State, tms: seq<bool>): State
    decreases |tms|
  {
    if tms == [] then s else Run(Next(s, tms[0]), tms[1..])
  }

  // ----- The path table

  type PathLength = n: nat | n <= 8

  datatype Path = Path(len: PathLength, code: byte)

  // The mode path table, one row per state to start from.
  const FROM_TEST_LOGIC_RESET: seq<Path> := [
    Path(0, 0x00), Path(1, 0x00), Path(2, 0x02), Path(3, 0x02),
    Path(4, 0x02), Path(4, 0x0a), Path(5, 0x0a), Path(6, 0x2a),
    Path(5, 0x1a), Path(3, 0x06), Path(4, 0x06), Path(5, 0x06),
    Path(5, 0x16), Path(6, 0x16), Path(7, 0x56), Path(6, 0x36)]
  const FROM_RUN_TEST_IDLE: seq<Path> := [
    Path(3, 0x07), Path(0, 0x00), Path(1, 0x01), Path(2, 0x01),
    Path(3, 0x01), Path(3, 0x05), Path(4, 0x05), Path(5, 0x15),
    Path(4, 0x0d), Path(2, 0x03), Path(3, 0x03), Path(4, 0x03),
    Path(4, 0x0b), Path(5, 0x0b), Path(6, 0x2b), Path(5, 0x1b)]
  const FROM_SELECT_DR_SCAN: seq<Path> := [
    Path(2, 0x03), Path(3, 0x03), Path(0, 0x00), Path(1, 0x00),
    Path(2, 0x00), Path(2, 0x02), Path(3, 0x02), Path(4, 0x0a),
    Path(3, 0x06), Path(1, 0x01), Path(2, 0x01), Path(3, 0x01),
    Path(3, 0x05), Path(4, 0x05), Path(5, 0x15), Path(4, 0x0d)]
  const FROM_CAPTURE_DR: seq<Path> := [
    Path(5, 0x1f), Path(3, 0x03), Path(3, 0x07), Path(0, 0x00),
    Path(1, 0x00), Path(1, 0x01), Path(2, 0x01), Path(3, 0x05),
    Path(2, 0x03), Path(4, 0x0f), Path(5, 0x0f), Path(6, 0x0f),
    Path(6, 0x2f), Path(7, 0x2f), Path(8, 0xaf), Path(7, 0x6f)]
  const FROM_SHIFT_DR: seq<Path> := [
    Path(5, 0x1f), Path(3, 0x03), Path(3, 0x07), Path(4, 0x07),
    Path(0, 0x00), Path(1, 0x01), Path(2, 0x01), Path(3, 0x05),
    Path(2, 0x03), Path(4, 0x0f), Path(5, 0x0f), Path(6, 0x0f),
    Path(6, 0x2f), Path(7, 0x2f), Path(8, 0xaf), Path(7, 0x6f)]
  const FROM_EXIT1_DR: seq<Path> := [
    Path(4, 0x0f), Path(2, 0x01), Path(2, 0x03), Path(3, 0x03),
    Path(4, 0x03), Path(0, 0x00), Path(1, 0x00), Path(2, 0x02),
    Path(1, 0x01), Path(3, 0x07), Path(4, 0x07), Path(5, 0x07),
    Path(5, 0x17), Path(6, 0x17), Path(7, 0x57), Path(6, 0x37)]
  const FROM_PAUSE_DR: seq<Path> := [
    Path(5, 0x1f), Path(3, 0x03), Path(3, 0x07), Path(4, 0x07),
    Path(2, 0x01), Path(3, 0x05), Path(0, 0x00), Path(1, 0x01),
    Path(2, 0x03), Path(4, 0x0f), Path(5, 0x0f), Path(6, 0x0f),
    Path(6, 0x2f), Path(7, 0x2f), Path(8, 0xaf), Path(7, 0x6f)]
  const FROM_EXIT2_DR: seq<Path> := [
    Path(4, 0x0f), Path(2, 0x01), Path(2, 0x03), Path(3, 0x03),
    Path(1, 0x00), Path(2, 0x02), Path(3, 0x02), Path(0, 0x00),
    Path(1, 0x01), Path(3, 0x07), Path(4, 0x07), Path(5, 0x07),
    Path(5, 0x17), Path(6, 0x17), Path(7, 0x57), Path(6, 0x37)]
  const FROM_UPDATE_DR: seq<Path> := [
    Path(3, 0x07), Path(1, 0x00), Path(1, 0x01), Path(2, 0x01),
    Path(3, 0x01), Path(3, 0x05), Path(4, 0x05), Path(5, 0x15),
    Path(0, 0x00), Path(2, 0x03), Path(3, 0x03), Path(4, 0x03),
    Path(4, 0x0b), Path(5, 0x0b), Path(6, 0x2b), Path(5, 0x1b)]
  const FROM_SELECT_IR_SCAN: seq<Path> := [
    Path(1, 0x01), Path(2, 0x01), Path(3, 0x05), Path(4, 0x05),
    Path(5, 0x05), Path(5, 0x15), Path(6, 0x15), Path(7, 0x55),
    Path(6, 0x35), Path(0, 0x00), Path(1, 0x00), Path(2, 0x00),
    Path(2, 0x02), Path(3, 0x02), Path(4, 0x0a), Path(3, 0x06)]
  const FROM_CAPTURE_IR: seq<Path> := [
    Path(5, 0x1f), Path(3, 0x03), Path(3, 0x07), Path(4, 0x07),
    Path(5, 0x07), Path(5, 0x17), Path(6, 0x17), Path(7, 0x57),
    Path(6, 0x37), Path(4, 0x0f), Path(0, 0x00), Path(1, 0x00),
    Path(1, 0x01), Path(2, 0x01), Path(3, 0x05), Path(2, 0x03)]
  const FROM_SHIFT_IR: seq<Path> := [
    Path(5, 0x1f), Path(3, 0x03), Path(3, 0x07), Path(4, 0x07),
    Path(5, 0x07), Path(5, 0x17), Path(6, 0x17), Path(7, 0x57),
    Path(6, 0x37), Path(4, 0x0f), Path(5, 0x0f), Path(0, 0x00),
    Path(1, 0x01), Path(2, 0x01), Path(3, 0x05), Path(2, 0x03)]
  const FROM_EXIT1_IR: seq<Path> := [
    Path(4, 0x0f), Path(2, 0x01), Path(2, 0x03), Path(3, 0x03),
    Path(4, 0x03), Path(4, 0x0b), Path(5, 0x0b), Path(6, 0x2b),
    Path(5, 0x1b), Path(3, 0x07), Path(4, 0x07), Path(5, 0x07),
    Path(0, 0x00), Path(1, 0x00), Path(2, 0x02), Path(1, 0x01)]
  const FROM_PAUSE_IR: seq<Path> := [
    Path(5, 0x1f), Path(3, 0x03), Path(3, 0x07), Path(4, 0x07),
    Path(5, 0x07), Path(5, 0x17), Path(6, 0x17), Path(7, 0x57),
    Path(6, 0x37), Path(4, 0x0f), Path(5, 0x0f), Path(2, 0x01),
    Path(3, 0x05), Path(0, 0x00), Path(1, 0x01), Path(2, 0x03)]
  const FROM_EXIT2_IR: seq<Path> := [
    Path(4, 0x0f), Path(2, 0x01), Path(2, 0x03), Path(3, 0x03),
    Path(4, 0x03), Path(4, 0x0b), Path(5, 0x0b), Path(6, 0x2b),
    Path(5, 0x1b), Path(3, 0x07), Path(4, 0x07), Path(1, 0x00),
    Path(2, 0x02), Path(3, 0x02), Path(0, 0x00), Path(1, 0x01)]
  const FROM_UPDATE_IR: seq<Path> := [
    Path(3, 0x07), Path(1, 0x00), Path(1, 0x01), Path(2, 0x01),
    Path(3, 0x01), Path(3, 0x05), Path(4, 0x05), Path(5, 0x15),
    Path(4, 0x0d), Path(2, 0x03), Path(3, 0x03), Path(4, 0x03),
    Path(4, 0x0b), Path(5, 0x0b), Path(6, 0x2b), Path(0, 0x00)]

  function ModePaths(from: State): (row: seq<Path>)
    ensures |row| == 16
  {
    match from
    case 0 => FROM_TEST_LOGIC_RESET
    case 1 => FROM_RUN_TEST_IDLE
    case 2 => FROM_SELECT_DR_SCAN
    case 3 => FROM_CAPTURE_DR
    case 4 => FROM_SHIFT_DR
    case 5 => FROM_EXIT1_DR
    case 6 => FROM_PAUSE_DR
    case 7 => FROM_EXIT2_DR
    case 8 => FROM_UPDATE_DR
    case 9 => FROM_SELECT_IR_SCAN
    case 10 => FROM_CAPTURE_IR
    case 11 => FROM_SHIFT_IR
    case 12 => FROM_EXIT1_IR
    case 13 => FROM_PAUSE_IR
    case 14 => FROM_EXIT2_IR
    case _ => FROM_UPDATE_IR
  }

  /** The table is a routing table: each path is one clock followed by the path from the state that
      clock leads to. */
  predicate Routes(from: State, to: State) {
    var p := ModePaths(from)[to];
    if from == to then p == Path(0, 0)
    else p.len > 0 && ModePaths(Next(from, p.code % 2 == 1))[to] == Path(p.len - 1, p.code / 2)
  }

  lemma RoutesReset(from: State, to: State)
    requires TEST_LOGIC_RESET <= from <= RUN_TEST_IDLE
    ensures Routes(from, to)
  {
  }

  lemma RoutesSelectDr(from: State, to: State)
    requires SELECT_DR_SCAN <= from <= CAPTURE_DR
    ensures Routes(from, to)
  {
  }

  lemma RoutesShiftDr(from: State, to: State)
    requires SHIFT_DR <= from <= EXIT1_DR
    ensures Routes(from, to)
  {
  }

  lemma RoutesPauseDr(from: State, to: State)
    requires PAUSE_DR <= from <= EXIT2_DR
    ensures Routes(from, to)
  {
  }

  lemma RoutesUpdateDr(from: State, to: State)
    requires UPDATE_DR <= from <= SELECT_IR_SCAN
    ensures Routes(from, to)
  {
  }

  lemma RoutesCaptureIr(from: State, to: State)
    requires CAPTURE_IR <= from <= SHIFT_IR
    ensures Routes(from, to)
  {
  }

  lemma RoutesExitIr(from: State, to: State)
    requires EXIT1_IR <= from <= PAUSE_IR
    ensures Routes(from, to)
  {
  }

  lemma RoutesUpdateIr(from: State, to: State)
    requires EXIT2_IR <= from <= UPDATE_IR
    ensures Routes(from, to)
  {
  }

  /** All 256 paths: clocking the path from one state to another gets the controller there. */
  lemma {:induction false} PathLeads(from: State, to: State)
    ensures var p := ModePaths(from)[to]; Run(from, Bits(p.code, p.len)) == to
    decreases ModePaths(from)[to].len
  {
    if from <= RUN_TEST_IDLE { RoutesReset(from, to); }
    else if from <= CAPTURE_DR { RoutesSelectDr(from, to); }
    else if from <= EXIT1_DR { RoutesShiftDr(from, to); }
    else if from <= EXIT2_DR { RoutesPauseDr(from, to); }
    else if from <= SELECT_IR_SCAN { RoutesUpdateDr(from, to); }
    else if from <= SHIFT_IR { RoutesCaptureIr(from, to); }
    else if from <= PAUSE_IR { RoutesExitIr(from, to); }
    else { RoutesUpdateIr(from, to); }
    var p := ModePaths(from)[to];
    if from != to {
      PathLeads(Next(from, p.code % 2 == 1), to);
      assert Bits(p.code, p.len)[1..] == Bits(p.code / 2, p.len - 1);
    }
  }

  /** Going back from Exit1 to the shift state of the same register: the table goes through Update and Capture. */
  predicate ThroughUpdate(from: State, to: State) {
    (from == EXIT1_DR && to == SHIFT_DR) || (from == EXIT1_IR && to == SHIFT_IR)
  }

  function Distance(from: State, to: State): nat {
    if ThroughUpdate(from, to) then 3 else ModePaths(from)[to].len
  }

  /** No clock brings the controller closer by more than one. */
  predicate Near(from: State, to: State) {
    && Distance(from, to) <= 1 + Distance(Next(from, false), to)
    && Distance(from, to) <= 1 + Distance(Next(from, true), to)
    && (from == to ==> Distance(from, to) == 0)
  }

  lemma NearReset(from: State, to: State)
    requires TEST_LOGIC_RESET <= from <= RUN_TEST_IDLE
    ensures Near(from, to)
  {
  }

  lemma NearCaptureDr(from: State, to: State)
    requires SELECT_DR_SCAN <= from <= CAPTURE_DR
    ensures Near(from, to)
  {
  }

  lemma NearShiftDr(from: State, to: State)
    requires SHIFT_DR <= from <= EXIT1_DR
    ensures Near(from, to)
  {
  }

  lemma NearPauseDr(from: State, to: State)
    requires PAUSE_DR <= from <= EXIT2_DR
    ensures Near(from, to)
  {
  }

  lemma NearUpdateDr(from: State, to: State)
    requires UPDATE_DR <= from <= SELECT_IR_SCAN
    ensures Near(from, to)
  {
  }

  lemma NearCaptureIr(from: State, to: State)
    requires CAPTURE_IR <= from <= SHIFT_IR
    ensures Near(from, to)
  {
  }

  lemma NearExitIr(from: State, to: State)
    requires EXIT1_IR <= from <= PAUSE_IR
    ensures Near(from, to)
  {
  }

  lemma NearUpdateIr(from: State, to: State)
    requires EXIT2_IR <= from <= UPDATE_IR
    ensures Near(from, to)
  {
  }

  lemma NearAll(from: State, to: State)
    ensures Near(from, to)
  {
    if from <= RUN_TEST_IDLE { NearReset(from, to); }
    else if from <= CAPTURE_DR { NearCaptureDr(from, to); }
    else if from <= EXIT1_DR { NearShiftDr(from, to); }
    else if from <= EXIT2_DR { NearPauseDr(from, to); }
    else if from <= SELECT_IR_SCAN { NearUpdateDr(from, to); }
    else if from <= SHIFT_IR { NearCaptureIr(from, to); }
    else if from <= PAUSE_IR { NearExitIr(from, to); }
    else { NearUpdateIr(from, to); }
  }

  lemma {:induction false} AtLeast(from: State, to: State, tms: seq<bool>)
    requires Run(from, tms) == to
    ensures Distance(from, to) <= |tms|
    decreases |tms|
  {
    hide Distance;
    NearAll(from, to);
    if tms != [] {
      AtLeast(Next(from, tms[0]), to, tms[1..]);
    }
  }

  /** A path of the table is a shortest one if and only if it does not lead from Exit1 back to Shift of the same
      register. */
  lemma PathShortest(from: State, to: State)
    ensures
      (forall tms: seq<bool> :: Run(from, tms) == to ==> ModePaths(from)[to].len <= |tms|)
      <==> !ThroughUpdate(from, to)
  {
    if ThroughUpdate(from, to) {
      BackThroughPause(from, to);
      assert Run(from, [false, true, false]) == to;
    } else {
      forall tms: seq<bool> | Run(from, tms) == to ensures ModePaths(from)[to].len <= |tms| {
        AtLeast(from, to, tms);
      }
    }
  }

  lemma BackThroughPause(from: State, to: State)
    requires ThroughUpdate(from, to)
    ensures Run(from, [false, true, false]) == to && ModePaths(from)[to].len > 3
  {
    assert [false, true, false][1..] == [true, false] && [true, false][1..] == [false];
  }

  /** How many ones away from Test-Logic-Reset a state is. */
  function OnesToReset(s: State): nat {
    if s == TEST_LOGIC_RESET then 0
    else if s == SELECT_IR_SCAN then 1
    else if s == SELECT_DR_SCAN then 2
    else if s == RUN_TEST_IDLE || s == UPDATE_DR || s == UPDATE_IR then 3
    else if s == EXIT1_DR || s == EXIT2_DR || s == EXIT1_IR || s == EXIT2_IR then 4
    else 5
  }

  /** Five ones reach Test-Logic-Reset from every state. */
  lemma {:induction false} OnesReset(s: State, code: nat, n: nat)
    requires OnesToReset(s) <= n && code + 1 == Pow2(n)
    ensures Run(s, Bits(code, n)) == TEST_LOGIC_RESET
    decreases n
  {
    if n > 0 {
      assert Bits(code, n)[1..] == Bits(code / 2, n - 1);
      OnesReset(Next(s, true), code / 2, n - 1);
    }
  }

  lemma FiveOnesReset(s: State)
    ensures Run(s, Bits(0x1F, 5)) == TEST_LOGIC_RESET
  {
    assert Pow2(5) == 32;
    OnesReset(s, 0x1F, 5);
  }

  lemma Associate(a: seq<bool>, b: seq<bool>, c: seq<bool>)
    ensures a + b + c == a + (b + c)
  {
  }

  lemma {:induction false} RunAppend(s: State, a: seq<bool>, b: seq<bool>)
    ensures Run(s, a + b) == Run(Run(s, a), b)
    decreases |a|
  {
    if a == [] {
      assert a + b == b;
    } else {
      assert (a + b)[1..] == a[1..] + b;
      RunAppend(Next(s, a[0]), a[1..], b);
    }
  }

  /** In a state in which the controller stays while TMS is low, a transfer leaves it there up to its last bit. */
  lemma {:induction false} RunDataBits(s: State, len: nat, last: bool)
    requires Next(s, false) == s
    ensures Run(s, DataBits(len, last)) == if len > 0 && last then Next(s, true) else s
    decreases len
  {
    if len > 0 {
      assert DataBits(len, last)[1..] == DataBits(len - 1, last);
      if len > 1 {
        RunDataBits(s, len - 1, last);
      }
    }
  }

  // ----- The driver over the cable contract: TMS bits reach the controller in the order given

  datatype Tap = Tap(state: nat, irSize: nat) {
    predicate Valid() { state <= UNKNOWN_STATE }
  }

  /** Driver calls; after a target reset the controller is in whatever state the target left it in. */
  datatype Op =
    | StateWalk(to: State)
    | Data(len: nat, last: bool)
    | Instruction(last: bool)
    | TargetReset(found: State)
    | SetIrSize(size: nat)

  function FromReset(tap: Tap, to: State): bool {
    tap.state >= UNKNOWN_STATE || to == TEST_LOGIC_RESET
  }

  function WalkBits(tap: Tap, to: State): seq<bool>
    requires tap.Valid()
  {
    var from := if FromReset(tap, to) then TEST_LOGIC_RESET else tap.state;
    var p := ModePaths(from)[to];
    (if FromReset(tap, to) then Bits(0x1F, 5) else []) + Bits(p.code, p.len)
  }

  function Emit(tap: Tap, op: Op): seq<bool>
    requires tap.Valid()
  {
    match op
    case StateWalk(to) => WalkBits(tap, to)
    case Data(len, last) => WalkBits(tap, SHIFT_DR) + DataBits(len, last)
    case Instruction(last) => WalkBits(tap, SHIFT_IR) + DataBits(tap.irSize, last)
    case TargetReset(_) => []
    case SetIrSize(_) => []
  }

  function After(tap: Tap, op: Op): (tap': Tap)
    requires tap.Valid()
    ensures tap'.Valid()
  {
    match op
    case StateWalk(to) => tap.(state := to)
    case Data(_, last) => tap.(state := if last then SHIFT_DR + 1 else SHIFT_DR)
    case Instruction(last) => tap.(state := if last then SHIFT_IR + 1 else SHIFT_IR)
    case TargetReset(_) => tap.(state := UNKNOWN_STATE)
    case SetIrSize(size) => tap.(irSize := size)
  }

  /** The controller's own state after the call. */
  function Hardware(tap: Tap, hw: State, op: Op): State
    requires tap.Valid()
  {
    if op.TargetReset? then op.found else Run(hw, Emit(tap, op))
  }

  /** The driver's idea of the controller's state, if it has one, is right. */
  predicate Tracks(tap: Tap, hw: State) {
    tap.state == UNKNOWN_STATE || tap.state == hw
  }

  /** A final transfer without any bit in it: the driver steps on to Exit1, the controller does not. */
  predicate EmptyFinalTransfer(tap: Tap, op: Op) {
    match op
    case Data(len, last) => last && len == 0
    case Instruction(last) => last && tap.irSize == 0
    case _ => false
  }

  lemma WalkArrives(tap: Tap, hw: State, to: State)
    requires tap.Valid() && Tracks(tap, hw)
    ensures Run(hw, WalkBits(tap, to)) == to
  {
    var from := if FromReset(tap, to) then TEST_LOGIC_RESET else tap.state;
    var p := ModePaths(from)[to];
    PathLeads(from, to);
    FiveOnesReset(hw);
    var first := if FromReset(tap, to) then Bits(0x1F, 5) else [];
    RunAppend(hw, first, Bits(p.code, p.len));
  }

  lemma WalkBitsAre(tap: Tap, to: State)
    requires tap.Valid()
    ensures
      var p := ModePaths(if FromReset(tap, to) then TEST_LOGIC_RESET else tap.state)[to];
      WalkBits(tap, to) == (if FromReset(tap, to) then Bits(0x1F, 5) else []) + Bits(p.code, p.len)
  {
  }

  /** The state the driver expects after a transfer. */
  function Expected(shift: State, last: bool): State
    requires shift == SHIFT_DR || shift == SHIFT_IR
  {
    if last then shift + 1 else shift
  }

  /** One call keeps track of the controller exactly when it is not an empty final transfer. */
  lemma StepTracks(tap: Tap, hw: State, op: Op)
    requires tap.Valid() && Tracks(tap, hw)
    ensures Tracks(After(tap, op), Hardware(tap, hw, op)) <==> !EmptyFinalTransfer(tap, op)
  {
    match op
    case StateWalk(to) => WalkArrives(tap, hw, to);
    case Data(len, last) =>
      WalkArrives(tap, hw, SHIFT_DR);
      RunAppend(hw, WalkBits(tap, SHIFT_DR), DataBits(len, last));
      RunDataBits(SHIFT_DR, len, last);
    case Instruction(last) =>
      WalkArrives(tap, hw, SHIFT_IR);
      RunAppend(hw, WalkBits(tap, SHIFT_IR), DataBits(tap.irSize, last));
      RunDataBits(SHIFT_IR, tap.irSize, last);
    case TargetReset(_) =>
    case SetIrSize(_) =>
  }

  function AfterAll(tap: Tap, ops: seq<Op>): (tap': Tap)
    requires tap.Valid()
    ensures tap'.Valid()
    decreases |ops|
  {
    if ops == [] then tap else AfterAll(After(tap, ops[0]), ops[1..])
  }

  function HardwareAll(tap: Tap, hw: State, ops: seq<Op>): State
    requires tap.Valid()
    decreases |ops|
  {
    if ops == [] then hw else HardwareAll(After(tap, ops[0]), Hardware(tap, hw, ops[0]), ops[1..])
  }

  predicate NoEmptyFinalTransfer(tap: Tap, ops: seq<Op>)
    requires tap.Valid()
    decreases |ops|
  {
    ops == [] || (!EmptyFinalTransfer(tap, ops[0]) && NoEmptyFinalTransfer(After(tap, ops[0]), ops[1..]))
  }

  /** Over every run, from any state of driver and controller that agree - in particular from a
      freshly opened driver and any controller - a known driver state is the controller's state. */
  lemma {:induction false} RunTracks(tap: Tap, hw: State, ops: seq<Op>)
    requires tap.Valid() && Tracks(tap, hw) && NoEmptyFinalTransfer(tap, ops)
    ensures Tracks(AfterAll(tap, ops), HardwareAll(tap, hw, ops))
    decreases |ops|
  {
    if ops != [] {
      StepTracks(tap, hw, ops[0]);
      RunTracks(After(tap, ops[0]), Hardware(tap, hw, ops[0]), ops[1..]);
    }
  }

  // ----- The driver over the GPIO cable

  /** Driver, queue and buffer of the cable, and the state the controller is in before the queue is clocked. */
  datatype Line = Line(tap: Tap, queue: seq<bool>, memory: Memory, hw: State) {
    /** There is room for one more walk. */
    predicate Valid() { tap.Valid() && |queue| + 13 < 8 * BUFFER_SIZE }

    predicate InTrack() { Tracks(tap, Run(hw, queue)) }
  }

  lemma WalkShort(tap: Tap, to: State)
    requires tap.Valid()
    ensures |WalkBits(tap, to)| <= 13
  {
  }

  /** A transfer: the walk is queued, the queue and what is stale behind it are clocked, and then the data. */
  function Transferred(l: Line, shift: State, len: nat, last: bool): Line
    requires l.Valid() && (shift == SHIFT_DR || shift == SHIFT_IR)
  {
    WalkShort(l.tap, shift);
    var queue := l.queue + WalkBits(l.tap, shift);
    Line(l.tap.(state := Expected(shift, last)), [], Filled(queue, l.memory),
      Run(l.hw, queue + (Stale(queue, l.memory) + DataBits(len, last))))
  }

  function LineAfter(l: Line, op: Op): Line
    requires l.Valid()
  {
    match op
    case StateWalk(to) =>
      WalkShort(l.tap, to);
      var queue := l.queue + WalkBits(l.tap, to);
      Line(After(l.tap, op), queue, Filled(queue, l.memory), l.hw)
    case Data(len, last) => Transferred(l, SHIFT_DR, len, last)
    case Instruction(last) => Transferred(l, SHIFT_IR, l.tap.irSize, last)
    case TargetReset(found) => Line(After(l.tap, op), [], l.memory, found)
    case SetIrSize(_) => l.(tap := After(l.tap, op))
  }

  /** The stray bits and the data lead from the shift state to the state the driver expects. */
  predicate TransferFits(l: Line, shift: State, len: nat, last: bool)
    requires l.Valid() && (shift == SHIFT_DR || shift == SHIFT_IR)
  {
    WalkShort(l.tap, shift);
    var stray := Stale(l.queue + WalkBits(l.tap, shift), l.memory);
    Run(shift, stray + DataBits(len, last)) == Expected(shift, last)
  }

  predicate Fits(l: Line, op: Op)
    requires l.Valid()
  {
    match op
    case Data(len, last) => TransferFits(l, SHIFT_DR, len, last)
    case Instruction(last) => TransferFits(l, SHIFT_IR, l.tap.irSize, last)
    case _ => true
  }

  /** After a transfer the driver still tracks the controller if and only if the stray bits fit; without stray
      bits they do, unless it is a final transfer of no bits. */
  lemma TransferTracks(l: Line, shift: State, len: nat, last: bool)
    requires l.Valid() && l.InTrack() && (shift == SHIFT_DR || shift == SHIFT_IR)
    ensures Transferred(l, shift, len, last).InTrack() <==> TransferFits(l, shift, len, last)
    ensures Transferred(l, shift, len, last).Valid()
    ensures |l.queue + WalkBits(l.tap, shift)| % 8 != 0 ==>
      (TransferFits(l, shift, len, last) <==> !(last && len == 0))
  {
    hide WalkBits, DataBits, Stale, Filled;
    WalkShort(l.tap, shift);
    var walk := WalkBits(l.tap, shift);
    var queue := l.queue + walk;
    var rest := Stale(queue, l.memory) + DataBits(len, last);
    RunAppend(l.hw, queue, rest);
    RunAppend(l.hw, l.queue, walk);
    WalkArrives(l.tap, Run(l.hw, l.queue), shift);
    if |queue| % 8 != 0 {
      assert rest == DataBits(len, last);
      RunDataBits(shift, len, last);
    }
  }

  lemma StepTracksOverCable(l: Line, op: Op)
    requires l.Valid() && l.InTrack()
    ensures LineAfter(l, op).InTrack() <==> Fits(l, op)
  {
    hide WalkBits, DataBits, Stale, Filled, Transferred, TransferFits;
    match op
    case StateWalk(to) =>
      WalkArrives(l.tap, Run(l.hw, l.queue), to);
      RunAppend(l.hw, l.queue, WalkBits(l.tap, to));
    case Data(len, last) => TransferTracks(l, SHIFT_DR, len, last);
    case Instruction(last) => TransferTracks(l, SHIFT_IR, l.tap.irSize, last);
    case TargetReset(_) =>
    case SetIrSize(_) =>
  }

  /** The buffer has room for every walk of a run. */
  predicate Roomy(l: Line, ops: seq<Op>)
    decreases |ops|
  {
    l.Valid() && (ops != [] ==> Roomy(LineAfter(l, ops[0]), ops[1..]))
  }

  predicate TracksThroughout(l: Line, ops: seq<Op>)
    requires Roomy(l, ops)
    decreases |ops|
  {
    l.InTrack() && (ops != [] ==> TracksThroughout(LineAfter(l, ops[0]), ops[1..]))
  }

  predicate AllFit(l: Line, ops: seq<Op>)
    requires Roomy(l, ops)
    decreases |ops|
  {
    ops != [] ==> Fits(l, ops[0]) && AllFit(LineAfter(l, ops[0]), ops[1..])
  }

  /** Over every run of the driver and the GPIO cable: track is never lost if and only if the stray bits of every
      transfer fit. */
  lemma {:induction false} RunTracksOverCable(l: Line, ops: seq<Op>)
    requires Roomy(l, ops) && l.InTrack()
    ensures TracksThroughout(l, ops) <==> AllFit(l, ops)
    decreases |ops|
  {
    hide LineAfter, Fits;
    if ops != [] {
      var next := LineAfter(l, ops[0]);
      StepTracksOverCable(l, ops[0]);
      if next.InTrack() {
        RunTracksOverCable(next, ops[1..]);
      } else {
        LostAlready(next, ops[1..]);
      }
    }
  }

  lemma LostAlready(l: Line, ops: seq<Op>)
    requires Roomy(l, ops) && !l.InTrack()
    ensures !TracksThroughout(l, ops)
  {
  }

  /** Track that was lost is found again: a walk to Test-Logic-Reset, and any walk or transfer from the unknown
      state, first clocks five ones, after which the driver is right whatever it took the state to be. */
  lemma ResetResyncs(l: Line, to: State)
    requires l.Valid() && (to == TEST_LOGIC_RESET || l.tap.state == UNKNOWN_STATE)
    ensures LineAfter(l, StateWalk(to)).InTrack() && LineAfter(l, StateWalk(to)).tap.state == to
    ensures var queue := LineAfter(l, StateWalk(to)).queue;
      l.queue + [true, true, true, true, true] <= queue && Run(l.hw, queue) == to
  {
    hide Filled, Run, ModePaths, Bits;
    var p := ModePaths(TEST_LOGIC_RESET)[to];
    var ones := Bits(0x1F, 5);
    var hw := Run(l.hw, l.queue);
    WalkBitsAre(l.tap, to);
    FiveOnesReset(hw);
    PathLeads(TEST_LOGIC_RESET, to);
    RunAppend(hw, ones, Bits(p.code, p.len));
    RunAppend(l.hw, l.queue, WalkBits(l.tap, to));
    OnesAre();
    assert l.queue + (ones + Bits(p.code, p.len)) == l.queue + ones + Bits(p.code, p.len);
  }

  lemma OnesAre()
    ensures Bits(0x1F, 5) == [true, true, true, true, true]
  {
  }

  // ----- The driver itself

  class JtagTap {
    const cable: CableInfo
    var tapState: nat
    var tapIrSize: nat

    function Model(): Tap
      reads this
    {
      Tap(tapState, tapIrSize)
    }

    ghost predicate Valid()
      reads this, cable, cable.buf
    {
      cable.Valid() && tapState <= UNKNOWN_STATE
    }

    /** What there is if the controller was in state `start` before the first clock. */
    ghost function Current(start: State): Line
      requires cable.Valid()
      reads this, cable, cable.buf
    {
      Line(Model(), cable.Queued(), cable.Memory(), Run(start, cable.clocked))
    }

    constructor (cable: CableInfo)
      requires cable.Valid()
      ensures this.cable == cable && Valid() && Model() == Tap(UNKNOWN_STATE, 0)
    {
      this.cable := cable;
      tapState := UNKNOWN_STATE;
      tapIrSize := 0;
    }

    method StateWalk(state: State)
      requires Valid() && |cable.Queued()| + 13 < 8 * BUFFER_SIZE
      modifies this`tapState, cable`bidx, cable`bbit, cable.buf
      ensures Valid() && Model() == After(old(Model()), Op.StateWalk(state))
      ensures cable.Queued() == old(cable.Queued()) + WalkBits(old(Model()), state)
      ensures cable.Memory() == Filled(cable.Queued(), old(cable.Memory()))
      ensures forall start: State :: Current(start) == LineAfter(old(Current(start)), Op.StateWalk(state))
    {
      hide ModePaths, Bits, Filled, CableInfo.Queued, CableInfo.Valid, CableInfo.Stray, WalkBits, Run;
      ghost var tap, q0, m0 := Model(), cable.Queued(), cable.Memory();
      if tapState == UNKNOWN_STATE || state == TEST_LOGIC_RESET {
        cable.TmsPut(0x1F, 5);
        FilledTwice(q0 + Bits(0x1F, 5), q0 + Bits(0x1F, 5), m0);
        tapState := TEST_LOGIC_RESET;
      }
      ghost var first := if FromReset(tap, state) then Bits(0x1F, 5) else [];
      assert cable.Queued() == q0 + first;
      var p := ModePaths(tapState)[state];
      cable.TmsPut(p.code, p.len);
      ghost var second := Bits(p.code, p.len);
      FilledTwice(q0 + first, q0 + first + second, m0);
      Associate(q0, first, second);
      WalkBitsAre(tap, state);
      tapState := state;
    }

    /** The common part of TapData and TapInstruction. */
    method Transfer(shift: State, w: Output, tdo: seq<bool>, len: nat, last: bool) returns (rbuf: seq<byte>)
      requires Valid() && |cable.Queued()| + 13 < 8 * BUFFER_SIZE && w.Covers(len) && |tdo| == len
      requires shift == SHIFT_DR || shift == SHIFT_IR
      modifies this`tapState, cable`bidx, cable`bbit, cable`clocked, cable`sent, cable.buf
      ensures Valid() && cable.Queued() == []
      ensures tapState == Expected(shift, last) && tapIrSize == old(tapIrSize)
      ensures
        var queue := old(cable.Queued()) + WalkBits(old(Model()), shift);
        var stray := Stale(queue, old(cable.Memory()));
        && cable.clocked == old(cable.clocked) + (queue + (stray + DataBits(len, last)))
        && cable.Memory() == Filled(queue, old(cable.Memory()))
      ensures forall start: State ::
        && Current(start) == Transferred(old(Current(start)), shift, len, last)
        && (old(Current(start)).InTrack() ==>
          (Current(start).InTrack() <==> TransferFits(old(Current(start)), shift, len, last)))
      ensures cable.sent == old(cable.sent) + w.Data(len)
      ensures len <= 8 * |rbuf| && AllBits(rbuf)[..len] == tdo
    {
      hide ModePaths, WalkBits, DataBits, Bits, AllBits, Output.Data, CableInfo.Queued, CableInfo.Valid;
      hide Run, Tracks, Filled, Stale, TransferFits, CableInfo.Memory;
      ghost var clocked0, queue, memory0 := cable.clocked, cable.Queued() + WalkBits(Model(), shift), cable.Memory();
      StateWalk(shift);
      StaleFilled(queue, memory0);
      ghost var stray := Stale(queue, memory0);
      rbuf := cable.TransferData(w, tdo, len, last);
      if last {
        tapState := tapState + 1;
      }
      Clocked(clocked0, queue, stray, DataBits(len, last));
      forall start: State
        ensures Current(start) == Transferred(old(Current(start)), shift, len, last)
        ensures old(Current(start)).InTrack() ==>
          (Current(start).InTrack() <==> TransferFits(old(Current(start)), shift, len, last))
      {
        RunAppend(start, clocked0, queue + (stray + DataBits(len, last)));
        if old(Current(start)).InTrack() {
          TransferTracks(old(Current(start)), shift, len, last);
        }
      }
    }

    method Data(w: Output, tdo: seq<bool>, len: nat, last: bool) returns (rbuf: seq<byte>)
      requires Valid() && |cable.Queued()| + 13 < 8 * BUFFER_SIZE && w.Covers(len) && |tdo| == len
      modifies this`tapState, cable`bidx, cable`bbit, cable`clocked, cable`sent, cable.buf
      ensures Valid() && Model() == After(old(Model()), Op.Data(len, last)) && cable.Queued() == []
      ensures forall start: State :: Current(start) == LineAfter(old(Current(start)), Op.Data(len, last))
      ensures cable.sent == old(cable.sent) + w.Data(len)
      ensures len <= 8 * |rbuf| && AllBits(rbuf)[..len] == tdo
    {
      hide Transferred, TransferFits;
      rbuf := Transfer(SHIFT_DR, w, tdo, len, last);
    }

    /** The code is a 32-bit word, so the instruction register has at most 32 bits. */
    method Instruction(code: seq<byte>, tdo: seq<bool>, last: bool)
      requires Valid() && |cable.Queued()| + 13 < 8 * BUFFER_SIZE
      requires |code| == 4 && tapIrSize <= 32 && |tdo| == tapIrSize
      modifies this`tapState, cable`bidx, cable`bbit, cable`clocked, cable`sent, cable.buf
      ensures Valid() && Model() == After(old(Model()), Op.Instruction(last)) && cable.Queued() == []
      ensures forall start: State :: Current(start) == LineAfter(old(Current(start)), Op.Instruction(last))
      ensures cable.sent == old(cable.sent) + AllBits(code)[..tapIrSize]
    {
      hide Transferred, TransferFits;
      var rbuf := Transfer(SHIFT_IR, Bytes(code), tdo, tapIrSize, last);
    }

    method TargetReset()
      requires Valid()
      modifies this`tapState, cable`bidx, cable`bbit, cable`clocked
      ensures Valid() && cable.clocked == old(cable.Stream()) + old(cable.Stray())
      ensures forall start: State, found: State :: |old(cable.Queued())| + 13 < 8 * BUFFER_SIZE ==>
        Current(start).(hw := found) == LineAfter(old(Current(start)), Op.TargetReset(found))
    {
      cable.TargetReset(true);
      cable.TargetReset(false);
      tapState := UNKNOWN_STATE;
    }

    method SetIrSize(size: nat)
      requires Valid()
      modifies this`tapIrSize
      ensures Model() == After(old(Model()), Op.SetIrSize(size))
    {
      tapIrSize := size;
    }
  }

  lemma Clocked(before: seq<bool>, queue: seq<bool>, stray: seq<bool>, data: seq<bool>)
    ensures before + queue + stray + data == before + (queue + (stray + data))
  {
  }

  // ----- Second transfers in a row

  /** Bits of a number, clocked one by one. */
  function RunByte(s: State, code: nat, n: nat): State
    decreases n
  {
    if n == 0 then s else RunByte(Next(s, code % 2 == 1), code / 2, n - 1)
  }

  lemma {:induction false} RunByteIs(s: State, code: nat, n: nat)
    ensures RunByte(s, code, n) == Run(s, Bits(code, n))
    decreases n
  {
    if n > 0 {
      assert Bits(code, n)[1..] == Bits(code / 2, n - 1);
      RunByteIs(Next(s, code % 2 == 1), code / 2, n - 1);
    }
  }

  /** The states from which a walk to a shift state leaves a first byte in the buffer that leads from there back
      to there. */
  function Returning(shift: State): set<State> {
    if shift == SHIFT_DR then {SELECT_DR_SCAN, CAPTURE_DR, EXIT2_DR, SELECT_IR_SCAN, CAPTURE_IR, SHIFT_IR, PAUSE_IR}
    else {CAPTURE_DR, SHIFT_DR, PAUSE_DR, SELECT_IR_SCAN, CAPTURE_IR, EXIT2_IR}
  }

  /** Where the byte that a walk from `from` leaves takes the controller from the shift state. */
  function StrayLeads(from: State, shift: State): State {
    if from in Returning(shift) then shift
    else if shift == SHIFT_DR then
      if from in {EXIT1_DR, EXIT1_IR, EXIT2_IR} then RUN_TEST_IDLE else PAUSE_DR
    else if from in {EXIT1_DR, EXIT2_DR, EXIT1_IR} then SHIFT_DR
    else if from in {SELECT_DR_SCAN, PAUSE_IR} then PAUSE_IR
    else RUN_TEST_IDLE
  }

  lemma StrayBytes(from: State, shift: State)
    requires from != shift && (shift == SHIFT_DR || shift == SHIFT_IR)
    ensures var p := ModePaths(from)[shift];
      0 < p.len < 8 && p.code < Pow2(p.len) && RunByte(shift, p.code, 8) == StrayLeads(from, shift)
  {
    hide RunByte, Pow2, ModePaths, StrayLeads;
    if shift == SHIFT_DR {
      if from < 8 { StrayLowDr(from); } else { StrayHighDr(from); }
    } else {
      if from < 8 { StrayLowIr(from); } else { StrayHighIr(from); }
    }
  }

  /** A path shorter than a byte whose code leads to a state. */
  predicate Leaves(p: Path, shift: State, to: State) {
    0 < p.len < 8 && p.code < Pow2(p.len) && RunByte(shift, p.code, 8) == to
  }

  lemma StrayLowDr(from: State)
    requires from < 8 && from != SHIFT_DR
    ensures Leaves(ModePaths(from)[SHIFT_DR], SHIFT_DR, StrayLeads(from, SHIFT_DR))
  {
    hide RunByte, Pow2;
    ByteRuns();
    SmallPowers();
  }

  lemma StrayHighDr(from: State)
    requires from >= 8
    ensures Leaves(ModePaths(from)[SHIFT_DR], SHIFT_DR, StrayLeads(from, SHIFT_DR))
  {
    hide RunByte, Pow2;
    ByteRuns();
    SmallPowers();
  }

  lemma StrayLowIr(from: State)
    requires from < 8
    ensures Leaves(ModePaths(from)[SHIFT_IR], SHIFT_IR, StrayLeads(from, SHIFT_IR))
  {
    hide RunByte, Pow2;
    ByteRuns();
    SmallPowers();
  }

  lemma StrayHighIr(from: State)
    requires from >= 8 && from != SHIFT_IR
    ensures Leaves(ModePaths(from)[SHIFT_IR], SHIFT_IR, StrayLeads(from, SHIFT_IR))
  {
    hide RunByte, Pow2;
    ByteRuns();
    SmallPowers();
  }

  lemma TwoBits(s: State, code: nat, n: nat)
    requires n >= 2
    ensures
      RunByte(s, code, n) == RunByte(Next(Next(s, code % 2 == 1), code / 2 % 2 == 1), code / 4, n - 2)
  {
    assert RunByte(s, code, n) == RunByte(Next(s, code % 2 == 1), code / 2, n - 1);
  }

  function Four(s: State, a: bool, b: bool, c: bool, d: bool): State {
    Next(Next(Next(Next(s, a), b), c), d)
  }

  lemma LowNibble(s: State, code: nat)
    requires code < 16
    ensures
      RunByte(s, code, 8) ==
        Four(Four(s, code % 2 == 1, code / 2 % 2 == 1, code / 4 % 2 == 1, code / 8 % 2 == 1),
          false, false, false, false)
  {
    hide Next, RunByte;
    NibbleParts(code);
    TwoBits(s, code, 8);
    var s2 := Next(Next(s, code % 2 == 1), code / 2 % 2 == 1);
    TwoBits(s2, code / 4, 6);
    var s4 := Next(Next(s2, code / 4 % 2 == 1), code / 8 % 2 == 1);
    TwoBits(s4, 0, 4);
    var s6 := Next(Next(s4, false), false);
    TwoBits(s6, 0, 2);
    NoBits(Next(Next(s6, false), false));
  }

  lemma NoBits(s: State)
    ensures RunByte(s, 0, 0) == s
  {
  }

  lemma NibbleParts(code: nat)
    requires code < 16
    ensures code / 4 / 2 % 2 == code / 8 % 2 && code / 4 / 4 == 0
  {
  }

  lemma ByteRuns()
    ensures RunByte(SHIFT_DR, 0x00, 8) == SHIFT_DR && RunByte(SHIFT_DR, 0x01, 8) == PAUSE_DR
    ensures RunByte(SHIFT_DR, 0x02, 8) == PAUSE_DR && RunByte(SHIFT_DR, 0x03, 8) == RUN_TEST_IDLE
    ensures RunByte(SHIFT_DR, 0x05, 8) == SHIFT_DR && RunByte(SHIFT_DR, 0x07, 8) == SHIFT_DR
    ensures RunByte(SHIFT_IR, 0x00, 8) == SHIFT_IR && RunByte(SHIFT_IR, 0x01, 8) == PAUSE_IR
    ensures RunByte(SHIFT_IR, 0x03, 8) == RUN_TEST_IDLE && RunByte(SHIFT_IR, 0x06, 8) == RUN_TEST_IDLE
    ensures RunByte(SHIFT_IR, 0x07, 8) == SHIFT_DR && RunByte(SHIFT_IR, 0x0F, 8) == SHIFT_IR
  {
    hide RunByte;
    forall s: State, code: nat | code < 16
      ensures
        RunByte(s, code, 8) ==
          Four(Four(s, code % 2 == 1, code / 2 % 2 == 1, code / 4 % 2 == 1, code / 8 % 2 == 1),
            false, false, false, false)
    {
      LowNibble(s, code);
    }
  }

  lemma SmallPowers()
    ensures Pow2(1) == 2 && Pow2(2) == 4 && Pow2(3) == 8 && Pow2(4) == 16 && Pow2(5) == 32 && Pow2(6) == 64
  {
  }

  /** The byte a first walk from the unknown state leaves in the buffer. */
  function FirstWalk(shift: State): seq<bool> {
    if shift == SHIFT_DR then [true, true, true, true, true, false, true, false]
    else [true, true, true, true, true, false, true, true]
  }

  lemma FirstWalkIs(shift: State, irSize: nat)
    requires shift == SHIFT_DR || shift == SHIFT_IR
    ensures
      var walk := WalkBits(Tap(UNKNOWN_STATE, irSize), shift);
      8 < |walk| < 16 && walk[..8] == FirstWalk(shift) && WalkBits(Tap(shift, irSize), shift) == []
  {
    hide Bits;
    FirstBits(0x00, 0);
    FirstBits(0x01, 1);
    FirstBits(0x07, 3);
    FirstBits(0x1F, 5);
    FirstBits(0x00, 2);
    FirstBits(0x02, 4);
    FirstBits(0x01, 3);
    FirstBits(0x06, 5);
  }

  lemma FirstBits(b: nat, n: nat)
    ensures n == 0 ==> Bits(b, n) == []
    ensures n == 1 ==> Bits(b, n) == [b % 2 == 1]
    ensures n >= 2 ==> Bits(b, n) == [b % 2 == 1, b / 2 % 2 == 1] + Bits(b / 4, n - 2)
  {
  }

  lemma FirstDataClock(s: State, len: nat, last: bool)
    requires len > 0
    ensures Run(s, DataBits(len, last)) == Run(Next(s, len == 1 && last), DataBits(len - 1, last))
    ensures len == 1 ==> Run(s, DataBits(len, last)) == Next(s, last)
  {
    assert DataBits(len, last)[1..] == DataBits(len - 1, last);
  }

  lemma StrayLeadsTo(shift: State)
    requires shift == SHIFT_DR || shift == SHIFT_IR
    ensures Run(shift, FirstWalk(shift)[..5]) == TEST_LOGIC_RESET
    ensures Run(shift, FirstWalk(shift)) == if shift == SHIFT_DR then CAPTURE_DR else SELECT_IR_SCAN
  {
    var ones, rest := Bits(0x1F, 5), FirstWalk(shift)[5..];
    assert FirstWalk(shift) == ones + rest && FirstWalk(shift)[..5] == ones;
    FiveOnesReset(shift);
    RunAppend(shift, ones, rest);
    var b := shift == SHIFT_IR;
    assert rest[1..] == [true, b] && [true, b][1..] == [b];
    assert Run(RUN_TEST_IDLE, [true, b]) == Run(SELECT_DR_SCAN, [b]) == Next(SELECT_DR_SCAN, b);
  }

  /** A second transfer to the same register, after a first one whose walk started in `from`, gets back to where the
      driver expects it. */
  predicate GetsBack(from: nat, shift: State, len: nat, last: bool) {
    if from == UNKNOWN_STATE then len > (if shift == SHIFT_DR then 0 else 1)
    else from in Returning(shift) && !(last && len == 0)
  }

  /** What the first walk leaves in the first byte of the buffer. */
  lemma WalkLeaves(from: nat, irSize: nat, shift: State, memory: Memory)
    requires from <= UNKNOWN_STATE && from != shift && (shift == SHIFT_DR || shift == SHIFT_IR)
    ensures
      var walk := WalkBits(Tap(from, irSize), shift);
      && 0 < |walk| <= 13 && |walk| % 8 != 0
      && Stale([], Filled(walk, memory)) ==
        if from == UNKNOWN_STATE then FirstWalk(shift) else Bits(ModePaths(from)[shift].code, 8)
  {
    hide Bits, RunByte, Pow2, ModePaths;
    if from == UNKNOWN_STATE {
      FirstWalkIs(shift, irSize);
      WalkShort(Tap(from, irSize), shift);
    } else {
      var p := ModePaths(from)[shift];
      StrayBytes(from, shift);
      HighBits(p.code, p.len, 8);
    }
  }

  /** All sixteen states and the unknown one, both registers, every length: the bits of a second transfer in a row
      lead the controller from the shift state to the state the driver expects if and only if they get back. */
  lemma SecondTransferTracksIff(from: nat, irSize: nat, shift: State, memory: Memory, len: nat, last: bool)
    requires from <= UNKNOWN_STATE && from != shift && (shift == SHIFT_DR || shift == SHIFT_IR)
    ensures
      var walk := WalkBits(Tap(from, irSize), shift);
      && |walk| < 8 * BUFFER_SIZE
      && (Run(shift, Stale([], Filled(walk, memory)) + DataBits(len, last)) == Expected(shift, last)
        <==> GetsBack(from, shift, len, last))
      && (from < UNKNOWN_STATE && !last ==>
        Run(shift, Stale([], Filled(walk, memory)) + DataBits(len, last)) == StrayLeads(from, shift))
  {
    hide Bits, RunByte, Pow2, ModePaths, WalkBits, Filled, Stale, DataBits, Run;
    WalkLeaves(from, irSize, shift, memory);
    var stray := Stale([], Filled(WalkBits(Tap(from, irSize), shift), memory));
    RunAppend(shift, stray, DataBits(len, last));
    if from == UNKNOWN_STATE {
      AfterFirstWalk(shift, len, last);
    } else {
      StrayBytes(from, shift);
      RunByteIs(shift, ModePaths(from)[shift].code, 8);
      RunDataBits(StrayLeads(from, shift), len, last);
    }
  }

  lemma AfterFirstWalk(shift: State, len: nat, last: bool)
    requires shift == SHIFT_DR || shift == SHIFT_IR
    ensures Run(Run(shift, FirstWalk(shift)), DataBits(len, last)) == Expected(shift, last)
      <==> len > (if shift == SHIFT_DR then 0 else 1)
  {
    hide DataBits;
    StrayLeadsTo(shift);
    var from := if shift == SHIFT_DR then CAPTURE_DR else SELECT_IR_SCAN;
    NoDataBits(from, last);
    if len > 0 {
      FirstDataClock(from, len, last);
      if shift == SHIFT_DR {
        RunDataBits(shift, len - 1, last);
      } else if len > 1 {
        FirstDataClock(CAPTURE_IR, len - 1, last);
        RunDataBits(shift, len - 2, last);
      }
    }
  }

  lemma NoDataBits(s: State, last: bool)
    ensures Run(s, DataBits(0, last)) == s
  {
  }

  /** Two transfers in a row, from any state in which nothing is queued and the driver is right about the
      controller: it still is after the first one, and after the second one if and only if that is to the other
      register, or the first one was a last one, or its bits get back - and it is no final transfer of no bits. */
  lemma TwoTransfersTrack(l: Line, shift1: State, len1: nat, last1: bool, shift2: State, len2: nat, last2: bool)
    requires l.Valid() && l.queue == [] && l.InTrack() && l.tap.state != shift1 && !(last1 && len1 == 0)
    requires shift1 in {SHIFT_DR, SHIFT_IR} && shift2 in {SHIFT_DR, SHIFT_IR}
    ensures
      var l1 := Transferred(l, shift1, len1, last1);
      && l1.Valid() && l1.InTrack()
      && (Transferred(l1, shift2, len2, last2).InTrack() <==>
        if shift2 == shift1 && !last1 then GetsBack(l.tap.state, shift1, len2, last2) else !(last2 && len2 == 0))
  {
    hide WalkBits, Filled, Stale, DataBits, Run, ModePaths;
    var l1 := Transferred(l, shift1, len1, last1);
    var walk := WalkBits(l.tap, shift1);
    WalkLeaves(l.tap.state, l.tap.irSize, shift1, l.memory);
    assert l.queue + walk == walk;
    TransferTracks(l, shift1, len1, last1);
    TransferTracks(l1, shift2, len2, last2);
    if shift2 == shift1 && !last1 {
      NoWalk(l1.tap, shift2);
      SecondTransferTracksIff(l.tap.state, l.tap.irSize, shift1, l.memory, len2, last2);
    } else {
      WalkLeaves(l1.tap.state, l1.tap.irSize, shift2, l1.memory);
    }
    assert l1.queue + WalkBits(l1.tap, shift2) == WalkBits(l1.tap, shift2);
  }

  lemma NoWalk(tap: Tap, to: State)
    requires tap.state == to && (to == SHIFT_DR || to == SHIFT_IR)
    ensures WalkBits(tap, to) == []
  {
    hide ModePaths;
    EmptyPath(to);
  }

  lemma EmptyPath(to: State)
    requires to == SHIFT_DR || to == SHIFT_IR
    ensures ModePaths(to)[to] == Path(0, 0x00)
  {
  }

  /** A data register in pieces: transfers in a row, only the last of which may be a final one.  Behind a first
      piece whose walk started in `from`, all of them keep track if and only if each of them gets back. */
  lemma {:induction false} PiecesTrack(from: State, memory: Memory, l: Line, pieces: seq<Op>)
    requires from != SHIFT_DR && l.Valid() && l.queue == [] && l.tap.state == SHIFT_DR
    requires l.InTrack() && l.memory == Filled(WalkBits(Tap(from, l.tap.irSize), SHIFT_DR), memory)
    requires forall i :: 0 <= i < |pieces| ==> pieces[i].Data? && (i < |pieces| - 1 ==> !pieces[i].last)
    ensures Roomy(l, pieces)
    ensures TracksThroughout(l, pieces)
      <==> forall i :: 0 <= i < |pieces| ==> GetsBack(from, SHIFT_DR, pieces[i].len, pieces[i].last)
    decreases |pieces|
  {
    hide WalkBits, Filled, Stale, DataBits, Run, ModePaths, GetsBack, Tracks;
    if pieces != [] {
      var p := pieces[0];
      var walk := WalkBits(Tap(from, l.tap.irSize), SHIFT_DR);
      WalkLeaves(from, l.tap.irSize, SHIFT_DR, memory);
      NoWalk(l.tap, SHIFT_DR);
      NothingFilled(l.memory);
      SecondTransferTracksIff(from, l.tap.irSize, SHIFT_DR, memory, p.len, p.last);
      StepTracksOverCable(l, p);
      var next := LineAfter(l, p);
      if |pieces| == 1 {
        assert pieces[1..] == [];
      } else if next.InTrack() {
        PiecesTrack(from, memory, next, pieces[1..]);
      } else {
        RoomForPieces(next, pieces[1..]);
        LostAlready(next, pieces[1..]);
      }
    }
  }

  lemma NothingFilled(memory: Memory)
    ensures Filled([], memory) == memory
  {
  }

  /** Pieces need no room. */
  lemma {:induction false} RoomForPieces(l: Line, pieces: seq<Op>)
    requires l.Valid() && l.queue == []
    requires forall i :: 0 <= i < |pieces| ==> pieces[i].Data?
    ensures Roomy(l, pieces)
    decreases |pieces|
  {
    hide WalkBits, Filled, Stale, DataBits, Run;
    if pieces != [] {
      RoomForPieces(LineAfter(l, pieces[0]), pieces[1..]);
    }
  }

  /** Two transfers in a row on the driver. */
  method TwoTransfers(tap: JtagTap, shift1: State, tdo1: seq<bool>, last1: bool, shift2: State, tdo2: seq<bool>,
      last2: bool)
    requires tap.Valid() && tap.cable.Queued() == [] && tap.tapState != shift1 && !(last1 && tdo1 == [])
    requires shift1 in {SHIFT_DR, SHIFT_IR} && shift2 in {SHIFT_DR, SHIFT_IR}
    modifies tap`tapState, tap.cable`bidx, tap.cable`bbit, tap.cable`clocked, tap.cable`sent, tap.cable.buf
    ensures tap.Valid() && tap.tapState == Expected(shift2, last2)
    ensures forall start: State :: old(tap.Current(start)).InTrack() ==>
      (tap.Current(start).InTrack() <==>
        if shift2 == shift1 && !last1 then GetsBack(old(tap.tapState), shift1, |tdo2|, last2)
        else !(last2 && tdo2 == []))
  {
    hide Transferred, TransferFits, GetsBack, Tracks, Run, CableInfo.Queued, CableInfo.Memory;
    var rbuf := tap.Transfer(shift1, NoData, tdo1, |tdo1|, last1);
    rbuf := tap.Transfer(shift2, NoData, tdo2, |tdo2|, last2);
    forall start: State | old(tap.Current(start)).InTrack()
      ensures tap.Current(start).InTrack() <==>
        if shift2 == shift1 && !last1 then GetsBack(old(tap.tapState), shift1, |tdo2|, last2)
        else !(last2 && tdo2 == [])
    {
      TwoTransfersTrack(old(tap.Current(start)), shift1, |tdo1|, last1, shift2, |tdo2|, last2);
    }
  }

  /** An instance: an instruction register of one bit is written twice without leaving Shift-IR.  The controller
      ends up in Capture-IR, wherever it started. */
  method LoseTrack() returns (tap: JtagTap)
    ensures fresh(tap) && fresh(tap.cable) && tap.Valid() && tap.cable.Queued() == []
    ensures tap.tapState == SHIFT_IR && forall start: State :: Run(start, tap.cable.clocked) == CAPTURE_IR
  {
    hide Transferred, TransferFits, GetsBack, Run, CableInfo.Queued, CableInfo.Memory, AllBits;
    var cable := new CableInfo();
    tap := new JtagTap(cable);
    tap.SetIrSize(1);
    label Opened:
    tap.Instruction([1, 0, 0, 0], [false], false);
    tap.Instruction([0, 0, 0, 0], [false], false);
    forall start: State ensures Run(start, cable.clocked) == CAPTURE_IR {
      OneBitTwice(old@Opened(tap.Current(start)));
    }
  }

  lemma OneBitTwice(l: Line)
    requires l.tap == Tap(UNKNOWN_STATE, 1) && l.queue == []
    ensures
      var l1 := LineAfter(l, Instruction(false));
      l1.Valid() && LineAfter(l1, Instruction(false)).hw == CAPTURE_IR
  {
    hide WalkBits, Filled, Stale, DataBits, Run, ModePaths, Tracks;
    var l1 := LineAfter(l, Instruction(false));
    WalkLeaves(UNKNOWN_STATE, 1, SHIFT_IR, l.memory);
    assert l.queue + WalkBits(l.tap, SHIFT_IR) == WalkBits(l.tap, SHIFT_IR);
    Unknown(l);
    TransferTracks(l, SHIFT_IR, 1, false);
    AtShift(l1);
    NoWalk(l1.tap, SHIFT_IR);
    var stray := FirstWalk(SHIFT_IR);
    assert [] + (stray + DataBits(1, false)) == stray + DataBits(1, false);
    RunAppend(SHIFT_IR, stray, DataBits(1, false));
    StrayLeadsTo(SHIFT_IR);
    FirstDataClock(SELECT_IR_SCAN, 1, false);
  }

  lemma AtShift(l: Line)
    requires l.queue == [] && l.InTrack() && l.tap.state < UNKNOWN_STATE
    ensures l.hw == l.tap.state
  {
  }

  /** An instance of everyday use: an instruction of four bits, then two data transfers of a byte each.  The
      controller ends up in Run-Test/Idle while the driver takes it to be in Shift-DR. */
  method LoseTrackInPieces() returns (tap: JtagTap)
    ensures fresh(tap) && fresh(tap.cable) && tap.Valid() && tap.cable.Queued() == []
    ensures tap.tapState == SHIFT_DR && forall start: State :: Run(start, tap.cable.clocked) == RUN_TEST_IDLE
  {
    hide Transferred, TransferFits, GetsBack, Run, CableInfo.Queued, CableInfo.Memory, AllBits;
    var cable := new CableInfo();
    tap := new JtagTap(cable);
    tap.SetIrSize(4);
    label Opened:
    tap.Instruction([1, 0, 0, 0], [false, false, false, false], true);
    var byte := [false, false, false, false, false, false, false, false];
    var rbuf := tap.Data(NoData, byte, 8, false);
    rbuf := tap.Data(NoData, byte, 8, false);
    forall start: State ensures Run(start, cable.clocked) == RUN_TEST_IDLE {
      TwoBytes(old@Opened(tap.Current(start)));
    }
  }

  lemma TwoBytes(l: Line)
    requires l.tap == Tap(UNKNOWN_STATE, 4) && l.queue == []
    ensures
      var l1 := LineAfter(l, Instruction(true));
      && l1.Valid()
      && var l2 := LineAfter(l1, Data(8, false));
      l2.Valid() && LineAfter(l2, Data(8, false)).hw == RUN_TEST_IDLE
  {
    hide WalkBits, Filled, Stale, DataBits, Run, ModePaths, Tracks;
    var l1 := LineAfter(l, Instruction(true));
    WalkLeaves(UNKNOWN_STATE, 4, SHIFT_IR, l.memory);
    assert l.queue + WalkBits(l.tap, SHIFT_IR) == WalkBits(l.tap, SHIFT_IR);
    Unknown(l);
    TransferTracks(l, SHIFT_IR, 4, true);
    var l2 := LineAfter(l1, Data(8, false));
    WalkLeaves(EXIT1_IR, 4, SHIFT_DR, l1.memory);
    assert l1.queue + WalkBits(l1.tap, SHIFT_DR) == WalkBits(l1.tap, SHIFT_DR);
    TransferTracks(l1, SHIFT_DR, 8, false);
    AtShift(l2);
    NoWalk(l2.tap, SHIFT_DR);
    SecondTransferTracksIff(EXIT1_IR, 4, SHIFT_DR, l1.memory, 8, false);
    var stray := Stale([], l2.memory);
    assert [] + (stray + DataBits(8, false)) == stray + DataBits(8, false);
  }

  lemma Unknown(l: Line)
    requires l.tap.state == UNKNOWN_STATE
    ensures l.InTrack()
  {
  }
}

/** The periodic CAN broadcast: which frames each 10 ms tick queues, and at what rate over any pattern of updates. */
module Scheduler {
  import opened Prelude
  import opened MasterStore

  datatype CanKind =
    | McuState | McuFaults
    | McuAnalogSpeed | McuAnalogPowertrain | McuAnalogFuelCell | McuAnalogAccessory
    | McuAnalogPedals | McuInputs | ProtiumState
    | ProtiumPower | ProtiumThermal | ProtiumHydrogen | ProtiumSetpoints | ProtiumStasis | ProtiumMisc
    | McuAnalogUnassigned

  /** A CAN frame: its identifier and the values packed into it. */
  datatype CanFrame = CanFrame(kind: CanKind, content: Content)

  /** The four `uint8_t` counters of the thread. */
  datatype Counters = Counters(cnt100ms: Byte, cnt1000ms: Byte, cnt1s: Byte, cntUnassign: Byte)

  const ZERO := Counters(0, 0, 0, 0)

  /** What one pass of the loop sees: whether an update is running, and its copy of the store. */
  datatype TickIn = TickIn(dfu: bool, d: MasterData)

  /** `uint8_t` increment: 255 wraps to 0. */
  function Increment(b: Byte): Byte { if b == 255 then 0 else b + 1 }

  function If(condition: bool, frames: seq<CanFrame>): seq<CanFrame> {
    if condition then frames else []
  }

  function EveryTick(d: MasterData): seq<CanFrame> {
    If(d.status.valid, [CanFrame(McuState, d.status.value)])
    + If(d.faults.valid, [CanFrame(McuFaults, d.faults.value)])
  }

  function Every100ms(d: MasterData): seq<CanFrame> {
    If(d.measurements.valid,
       [CanFrame(McuAnalogSpeed, d.measurements.value), CanFrame(McuAnalogPowertrain, d.measurements.value),
        CanFrame(McuAnalogFuelCell, d.measurements.value), CanFrame(McuAnalogAccessory, d.measurements.value)])
  }

  function Every1000ms(d: MasterData): seq<CanFrame> {
    PedalsAndInputs(d) + ProtiumStateFrame(d) + ProtiumFrames(d)
  }

  function PedalsAndInputs(d: MasterData): seq<CanFrame> {
    If(d.measurements.valid,
       [CanFrame(McuAnalogPedals, d.measurements.value), CanFrame(McuInputs, d.measurements.value)])
  }

  function ProtiumStateFrame(d: MasterData): seq<CanFrame> {
    If(d.operatingState.valid, [CanFrame(ProtiumState, d.operatingState.value)])
  }

  function ProtiumFrames(d: MasterData): seq<CanFrame> {
    If(d.protiumValues.valid,
       [CanFrame(ProtiumPower, d.protiumValues.value), CanFrame(ProtiumThermal, d.protiumValues.value),
        CanFrame(ProtiumHydrogen, d.protiumValues.value), CanFrame(ProtiumSetpoints, d.protiumValues.value),
        CanFrame(ProtiumStasis, d.protiumValues.value), CanFrame(ProtiumMisc, d.protiumValues.value)])
  }

  function Every10s(d: MasterData): seq<CanFrame> {
    If(d.measurements.valid, [CanFrame(McuAnalogUnassigned, d.measurements.value)])
  }

  /** The frames due when `a` ticks were active in all and `b` since the last update tick. */
  function Schedule(a: nat, b: nat, d: MasterData): seq<CanFrame> {
    EveryTick(d)
    + (if b % 10 == 0 then Every100ms(d) else [])
    + (if b % 100 == 0 then Every1000ms(d) else [])
    + (if a % 1000 == 0 then Every10s(d) else [])
  }

  /** The payload a CAN frame is made from. */
  function Source(k: CanKind): Kind {
    match k
    case McuState => Status
    case McuFaults => Faults
    case ProtiumState => OperatingState
    case ProtiumPower | ProtiumThermal | ProtiumHydrogen | ProtiumSetpoints | ProtiumStasis | ProtiumMisc =>
      ProtiumValues
    case _ => Measurements
  }

  /** The kinds whose turn has come, in the order they are queued. */
  function Turns(a: nat, b: nat): seq<CanKind> {
    [McuState, McuFaults]
    + (if b % 10 == 0 then [McuAnalogSpeed, McuAnalogPowertrain, McuAnalogFuelCell, McuAnalogAccessory] else [])
    + (if b % 100 == 0
       then [McuAnalogPedals, McuInputs, ProtiumState,
             ProtiumPower, ProtiumThermal, ProtiumHydrogen, ProtiumSetpoints, ProtiumStasis, ProtiumMisc]
       else [])
    + (if a % 1000 == 0 then [McuAnalogUnassigned] else [])
  }

  /** One frame for each of `kinds` whose payload is valid, made from that payload. */
  function Frames(kinds: seq<CanKind>, d: MasterData): seq<CanFrame> {
    if kinds == [] then []
    else
      var slot := d.Get(Source(kinds[0]));
      (if slot.valid then [CanFrame(kinds[0], slot.value)] else []) + Frames(kinds[1..], d)
  }

  lemma {:induction false} FramesAppend(xs: seq<CanKind>, ys: seq<CanKind>, d: MasterData)
    ensures Frames(xs + ys, d) == Frames(xs, d) + Frames(ys, d)
  {
    if xs == [] {
      assert xs + ys == ys;
    } else {
      assert (xs + ys)[1..] == xs[1..] + ys;
      FramesAppend(xs[1..], ys, d);
    }
  }

  // Which of the thread's counters run over on the coming active tick.
  predicate Ends100ms(c: Counters) { Increment(c.cnt100ms) >= 10 }
  predicate Ends1000ms(c: Counters) { Increment(c.cnt1000ms) >= 100 }
  predicate Ends1s(c: Counters) { Increment(c.cnt1s) >= 100 }
  predicate Ends10s(c: Counters) { Ends1s(c) && Increment(c.cntUnassign) >= 10 }

  function Advance(c: Counters): Counters {
    Counters(
      if Ends100ms(c) then 0 else Increment(c.cnt100ms),
      if Ends1000ms(c) then 0 else Increment(c.cnt1000ms),
      if Ends1s(c) then 0 else Increment(c.cnt1s),
      if Ends10s(c) then 0 else if Ends1s(c) then Increment(c.cntUnassign) else c.cntUnassign)
  }

  function Due(c: Counters, d: MasterData): seq<CanFrame> {
    DueInTime(c, d) + if Ends10s(c) then Every10s(d) else []
  }

  /** The groups the two counters that updates reset are for. */
  function DueInTime(c: Counters, d: MasterData): seq<CanFrame> {
    EveryTick(d)
    + (if Ends100ms(c) then Every100ms(d) else [])
    + (if Ends1000ms(c) then Every1000ms(d) else [])
  }

  /** One pass of the loop on the counters: the new counters, the frames queued, and whether it reports. */
  function Tick(c: Counters, input: TickIn): (Counters, seq<CanFrame>, bool) {
    if input.dfu then (c.(cnt100ms := 0, cnt1000ms := 0), [], false)
    else (Advance(c), Due(c, input.d), Ends1s(c))
  }

  /** The counters at the loop head after a trace of ticks. */
  function CountersAfter(trace: seq<TickIn>): Counters {
    if trace == [] then ZERO else Tick(CountersAfter(trace[..|trace| - 1]), trace[|trace| - 1]).0
  }

  /** Ticks of the trace with no update running. */
  function Active(trace: seq<TickIn>): nat {
    if trace == [] then 0
    else Active(trace[..|trace| - 1]) + if trace[|trace| - 1].dfu then 0 else 1
  }

  /** Those after the last update tick. */
  function SinceDfu(trace: seq<TickIn>): nat {
    if trace == [] || trace[|trace| - 1].dfu then 0 else 1 + SinceDfu(trace[..|trace| - 1])
  }

  /** Every counter below its limit, as it is at every loop head. */
  predicate InRange(c: Counters) {
    c.cnt100ms < 10 && c.cnt1000ms < 100 && c.cnt1s < 100 && c.cntUnassign < 10
  }

  lemma TickInRange(c: Counters, input: TickIn)
    requires InRange(c)
    ensures InRange(Tick(c, input).0)
  {}

  lemma {:induction false} CountersInRange(trace: seq<TickIn>)
    ensures InRange(CountersAfter(trace))
  {
    if trace != [] {
      CountersInRange(trace[..|trace| - 1]);
      TickInRange(CountersAfter(trace[..|trace| - 1]), trace[|trace| - 1]);
    }
  }

  // ---------------------------------------------------------------- closed form

  /** The counters when `a` ticks were active in all and `b` since the last update tick. */
  function ClosedForm(a: nat, b: nat): Counters {
    Counters(b % 10, b % 100, a % 100, a / 100 % 10)
  }

  /** The counters over every pattern of updates: none ever comes near the end of a `uint8_t`. */
  lemma {:induction false} CountersClosedForm(trace: seq<TickIn>)
    ensures CountersAfter(trace) == ClosedForm(Active(trace), SinceDfu(trace))
  {
    if trace != [] {
      var before := trace[..|trace| - 1];
      CountersClosedForm(before);
      ClosedFormTick(Active(before), SinceDfu(before), trace[|trace| - 1]);
    }
  }

  /** Each active tick queues exactly what is due, each group at exact multiples; an update tick queues nothing. */
  lemma TickFollowsSchedule(trace: seq<TickIn>, input: TickIn)
    ensures var (_, frames, report) := Tick(CountersAfter(trace), input);
            if input.dfu then frames == [] && !report
            else
              && frames == Schedule(Active(trace) + 1, SinceDfu(trace) + 1, input.d)
              && (report <==> (Active(trace) + 1) % 100 == 0)
  {
    CountersClosedForm(trace);
    ClosedFormTick(Active(trace), SinceDfu(trace), input);
  }

  // ---------------------------------------------------------------- order

  /** What is due is queued in a fixed order, kinds whose payload is not valid left out. */
  lemma ScheduleInOrder(a: nat, b: nat, d: MasterData)
    ensures Schedule(a, b, d) == Frames(Turns(a, b), d)
  {
    hide EveryTick, Every100ms, Every1000ms, Every10s, Frames;
    FastInOrder(d);
    SlowInOrder(d);
    NoTurns(d);
    var f, t := [McuState, McuFaults], if b % 10 == 0 then FAST_ANALOG else [];
    var s, w := if b % 100 == 0 then SLOW_GROUP else [], if a % 1000 == 0 then [McuAnalogUnassigned] else [];
    assert Turns(a, b) == f + t + s + w;
    FramesAppend(f + t + s, w, d);
    FramesAppend(f + t, s, d);
    FramesAppend(f, t, d);
  }

  const FAST_ANALOG: seq<CanKind> := [McuAnalogSpeed, McuAnalogPowertrain, McuAnalogFuelCell, McuAnalogAccessory]
  const PROTIUM: seq<CanKind> :=
    [ProtiumPower, ProtiumThermal, ProtiumHydrogen, ProtiumSetpoints, ProtiumStasis, ProtiumMisc]
  const SLOW_GROUP: seq<CanKind> := [McuAnalogPedals, McuInputs] + [ProtiumState] + PROTIUM

  lemma NoTurns(d: MasterData)
    ensures Frames([], d) == []
  {}

  lemma FramesOne(k: CanKind, d: MasterData)
    ensures Frames([k], d) == If(d.Get(Source(k)).valid, [CanFrame(k, d.Get(Source(k)).value)])
  {
    assert Frames([k][1..], d) == [];
  }

  lemma FramesTwo(k: CanKind, j: CanKind, d: MasterData)
    ensures Frames([k, j], d) == Frames([k], d) + Frames([j], d)
  {
    assert [k, j] == [k] + [j];
    FramesAppend([k], [j], d);
  }

  lemma FastInOrder(d: MasterData)
    ensures Frames([McuState, McuFaults], d) == EveryTick(d)
    ensures Frames(FAST_ANALOG, d) == Every100ms(d)
    ensures Frames([McuAnalogUnassigned], d) == Every10s(d)
  {
    hide Frames;
    FramesTwo(McuState, McuFaults, d);
    FramesOne(McuState, d);
    FramesOne(McuFaults, d);
    FramesOne(McuAnalogUnassigned, d);
    assert FAST_ANALOG == [McuAnalogSpeed, McuAnalogPowertrain] + [McuAnalogFuelCell, McuAnalogAccessory];
    FramesAppend([McuAnalogSpeed, McuAnalogPowertrain], [McuAnalogFuelCell, McuAnalogAccessory], d);
    FramesTwo(McuAnalogSpeed, McuAnalogPowertrain, d);
    FramesTwo(McuAnalogFuelCell, McuAnalogAccessory, d);
    FramesOne(McuAnalogSpeed, d);
    FramesOne(McuAnalogPowertrain, d);
    FramesOne(McuAnalogFuelCell, d);
    FramesOne(McuAnalogAccessory, d);
  }

  lemma SlowInOrder(d: MasterData)
    ensures Frames(SLOW_GROUP, d) == Every1000ms(d)
  {
    hide Frames;
    FramesAppend([McuAnalogPedals, McuInputs] + [ProtiumState], PROTIUM, d);
    FramesAppend([McuAnalogPedals, McuInputs], [ProtiumState], d);
    FramesTwo(McuAnalogPedals, McuInputs, d);
    FramesOne(McuAnalogPedals, d);
    FramesOne(McuInputs, d);
    FramesOne(ProtiumState, d);
    ProtiumInOrder(d);
  }

  lemma ProtiumInOrder(d: MasterData)
    ensures Frames(PROTIUM, d) == ProtiumFrames(d)
  {
    hide Frames;
    assert PROTIUM
        == [ProtiumPower, ProtiumThermal] + [ProtiumHydrogen, ProtiumSetpoints] + [ProtiumStasis, ProtiumMisc];
    FramesAppend([ProtiumPower, ProtiumThermal] + [ProtiumHydrogen, ProtiumSetpoints], [ProtiumStasis, ProtiumMisc], d);
    FramesAppend([ProtiumPower, ProtiumThermal], [ProtiumHydrogen, ProtiumSetpoints], d);
    FramesTwo(ProtiumPower, ProtiumThermal, d);
    FramesTwo(ProtiumHydrogen, ProtiumSetpoints, d);
    FramesTwo(ProtiumStasis, ProtiumMisc, d);
    FramesOne(ProtiumPower, d);
    FramesOne(ProtiumThermal, d);
    FramesOne(ProtiumHydrogen, d);
    FramesOne(ProtiumSetpoints, d);
    FramesOne(ProtiumStasis, d);
    FramesOne(ProtiumMisc, d);
  }

  /** The thousandth tick of an undisturbed life, with all five payloads there: all 16 frames, in this order. */
  lemma ThousandthTick(m: Content, s: Content, p: Content, o: Content, f: Content)
    ensures Schedule(1000, 1000, MasterData(Slot(m, true), Slot(s, true), Slot(p, true), Slot(o, true), Slot(f, true)))
         == [CanFrame(McuState, s), CanFrame(McuFaults, f),
             CanFrame(McuAnalogSpeed, m), CanFrame(McuAnalogPowertrain, m),
             CanFrame(McuAnalogFuelCell, m), CanFrame(McuAnalogAccessory, m),
             CanFrame(McuAnalogPedals, m), CanFrame(McuInputs, m), CanFrame(ProtiumState, o),
             CanFrame(ProtiumPower, p), CanFrame(ProtiumThermal, p), CanFrame(ProtiumHydrogen, p),
             CanFrame(ProtiumSetpoints, p), CanFrame(ProtiumStasis, p), CanFrame(ProtiumMisc, p),
             CanFrame(McuAnalogUnassigned, m)]
  {}

  lemma ClosedFormTick(a: nat, b: nat, input: TickIn)
    ensures Tick(ClosedForm(a, b), input) ==
            if input.dfu then (ClosedForm(a, 0), [], false)
            else (ClosedForm(a + 1, b + 1), Schedule(a + 1, b + 1, input.d), (a + 1) % 100 == 0)
  {
    ClosedFormEnds(a, b);
    NextSecond(a);
    NextTick(b);
  }

  lemma ClosedFormEnds(a: nat, b: nat)
    ensures Ends100ms(ClosedForm(a, b)) <==> (b + 1) % 10 == 0
    ensures Ends1000ms(ClosedForm(a, b)) <==> (b + 1) % 100 == 0
    ensures Ends1s(ClosedForm(a, b)) <==> (a + 1) % 100 == 0
    ensures Ends10s(ClosedForm(a, b)) <==> (a + 1) % 1000 == 0
  {
    NextSecond(a);
    NextTick(b);
  }

  lemma NextTick(n: nat)
    ensures (n + 1) % 10 == if n % 10 == 9 then 0 else n % 10 + 1
    ensures (n + 1) % 100 == if n % 100 == 99 then 0 else n % 100 + 1
  {
    var q, r := n / 10, n % 10;
    if r < 9 { DivMod10(n + 1, q, r + 1); } else { DivMod10(n + 1, q + 1, 0); }
    NextHundredth(n);
  }

  lemma NextHundredth(n: nat)
    ensures (n + 1) % 100 == if n % 100 == 99 then 0 else n % 100 + 1
  {
    var q, r := n / 100, n % 100;
    if r < 99 { DivMod100(n + 1, q, r + 1); } else { DivMod100(n + 1, q + 1, 0); }
  }

  lemma HundredMore(n: nat)
    ensures (n + 100) % 10 == n % 10 && (n + 100) % 100 == n % 100
  {
    DivMod10(n + 100, n / 10 + 10, n % 10);
    DivMod100(n + 100, n / 100 + 1, n % 100);
  }

  lemma NextSecond(n: nat)
    ensures (n + 1) % 100 == if n % 100 == 99 then 0 else n % 100 + 1
    ensures (n + 1) / 100 % 10 ==
            if n % 100 < 99 then n / 100 % 10 else if n / 100 % 10 == 9 then 0 else n / 100 % 10 + 1
    ensures (n + 1) % 1000 == 0 <==> n % 100 == 99 && n / 100 % 10 == 9
  {
    var r, h := n % 100, n / 100;
    var m, t := h / 10, h % 10;
    Digits(n, m, t, r);
    if r < 99 {
      Digits(n + 1, m, t, r + 1);
    } else if t < 9 {
      Digits(n + 1, m, t + 1, 0);
    } else {
      Digits(n + 1, m + 1, 0, 0);
    }
  }

  lemma Digits(n: nat, m: nat, t: nat, r: nat)
    requires n == 1000 * m + 100 * t + r && t < 10 && r < 100
    ensures n % 100 == r && n / 100 % 10 == t && n % 1000 == 100 * t + r
  {
    DivMod100(n, 10 * m + t, r);
    DivMod10(10 * m + t, m, t);
    DivMod1000(n, m, 100 * t + r);
  }

  lemma DivMod10(n: int, q: int, r: int)
    requires n == 10 * q + r && 0 <= r < 10
    ensures n / 10 == q && n % 10 == r
  {}

  lemma DivMod100(n: int, q: int, r: int)
    requires n == 100 * q + r && 0 <= r < 100
    ensures n / 100 == q && n % 100 == r
  {}

  lemma DivMod1000(n: int, q: int, r: int)
    requires n == 1000 * q + r && 0 <= r < 1000
    ensures n / 1000 == q && n % 1000 == r
  {}
}

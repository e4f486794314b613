/** The rates the 1 s report prints, against the number of frames the thread tried to queue. */
module Rates {
  import opened Prelude
  import opened MasterStore
  import opened Scheduler

  function Count(k: CanKind, frames: seq<CanFrame>): nat {
    if frames == [] then 0 else Count(k, frames[..|frames| - 1]) + Is(k, frames[|frames| - 1])
  }

  function Is(k: CanKind, f: CanFrame): nat {
    if f.kind == k then 1 else 0
  }

  /** How often one pass tries to queue a frame of kind `k`: see `SentWhenDue`. */
  function Sends(k: CanKind, c: Counters, input: TickIn): nat {
    if !input.dfu && Phase(k, c) + 1 == Period(k) && Available(k, input.d) then 1 else 0
  }

  /** Attempts to queue a frame of kind `k` over a whole trace: see `AttemptsAreFrames`. */
  function Attempts(k: CanKind, trace: seq<TickIn>): nat {
    if trace == [] then 0
    else
      var before := trace[..|trace| - 1];
      Attempts(k, before) + Sends(k, CountersAfter(before), trace[|trace| - 1])
  }

  /** Everything the thread tried to queue over the trace, in order. */
  function AllFrames(trace: seq<TickIn>): seq<CanFrame> {
    if trace == [] then []
    else
      var before := trace[..|trace| - 1];
      AllFrames(before) + Tick(CountersAfter(before), trace[|trace| - 1]).1
  }

  /** One kind's running count, its copy from the last report, and the rate that report printed. */
  datatype Meter = Meter(count: UInt32, previous: UInt32, hz: UInt32)

  /** `n` increments of a `uint32_t`. */
  function Add32(c: UInt32, n: nat): UInt32
    decreases n
  {
    if n == 0 then c else if c == TWO_32 - 1 then Add32(0, n - 1) else Add32(c + 1, n - 1)
  }

  function Subtract32(a: UInt32, b: UInt32): UInt32 {
    if a >= b then a - b else a - b + TWO_32
  }

  /** A tick that queued `n` frames of the kind; the report subtracts in 32 bits. */
  function MeterTick(m: Meter, n: nat, report: bool): Meter {
    var count := Add32(m.count, n);
    if report then Meter(count, count, Subtract32(count, m.previous)) else m.(count := count)
  }

  function MeterAfter(k: CanKind, trace: seq<TickIn>): Meter {
    if trace == [] then Meter(0, 0, 0)
    else
      var before := trace[..|trace| - 1];
      MeterTick(MeterAfter(k, before), Sends(k, CountersAfter(before), trace[|trace| - 1]), Reports(trace))
  }

  /** Does the last tick of the trace print the report? */
  predicate Reports(trace: seq<TickIn>)
    requires trace != []
  {
    Tick(CountersAfter(trace[..|trace| - 1]), trace[|trace| - 1]).2
  }

  /** Length of the trace up to and including its last reporting tick (0 if there was none). */
  function LastReport(trace: seq<TickIn>): (n: nat)
    ensures n <= |trace|
  {
    if trace == [] then 0
    else if Reports(trace) then |trace|
    else LastReport(trace[..|trace| - 1])
  }

  // ---------------------------------------------------------------- when a kind is sent

  /** A kind is due every so many active ticks. */
  function Period(k: CanKind): nat {
    match k
    case McuState | McuFaults => 1
    case McuAnalogSpeed | McuAnalogPowertrain | McuAnalogFuelCell | McuAnalogAccessory => 10
    case McuAnalogUnassigned => 1000
    case _ => 100
  }

  /** How many turns of a kind fit in 100 active ticks. */
  function PerSecond(k: CanKind): nat {
    match Period(k)
    case 1 => 100
    case 10 => 10
    case _ => 1
  }

  /** Active ticks towards the kind's next turn. Only the slowest group survives an update. */
  function Phase(k: CanKind, c: Counters): nat {
    match Period(k)
    case 1 => 0
    case 10 => c.cnt100ms
    case 100 => c.cnt1000ms
    case _ => 100 * c.cntUnassign + c.cnt1s
  }

  /** Is the payload the kind is made from in the store? */
  predicate Available(k: CanKind, d: MasterData) {
    match k
    case McuState => d.status.valid
    case McuFaults => d.faults.valid
    case ProtiumState => d.operatingState.valid
    case ProtiumPower | ProtiumThermal | ProtiumHydrogen | ProtiumSetpoints | ProtiumStasis | ProtiumMisc =>
      d.protiumValues.valid
    case _ => d.measurements.valid
  }

  lemma {:induction false} CountAppend(k: CanKind, xs: seq<CanFrame>, ys: seq<CanFrame>)
    ensures Count(k, xs + ys) == Count(k, xs) + Count(k, ys)
  {
    if ys == [] {
      assert xs + ys == xs;
    } else {
      assert (xs + ys)[..|xs + ys| - 1] == xs + ys[..|ys| - 1];
      CountAppend(k, xs, ys[..|ys| - 1]);
    }
  }

  lemma Count1(k: CanKind, a: CanFrame)
    ensures Count(k, [a]) == Is(k, a)
  {
    assert [a][..0] == [];
  }

  lemma Count2(k: CanKind, a: CanFrame, b: CanFrame)
    ensures Count(k, [a, b]) == Is(k, a) + Is(k, b)
  {
    assert [a, b] == [a] + [b];
    CountAppend(k, [a], [b]);
    Count1(k, a);
    Count1(k, b);
  }

  lemma CountFast(k: CanKind, d: MasterData)
    ensures Count(k, EveryTick(d)) == if Period(k) == 1 && Available(k, d) then 1 else 0
  {
    var s, f := CanFrame(McuState, d.status.value), CanFrame(McuFaults, d.faults.value);
    CountAppend(k, If(d.status.valid, [s]), If(d.faults.valid, [f]));
    Count1(k, s);
    Count1(k, f);
  }

  lemma Count100ms(k: CanKind, d: MasterData)
    ensures Count(k, Every100ms(d)) == if Period(k) == 10 && Available(k, d) then 1 else 0
  {
    if d.measurements.valid {
      var fs := Every100ms(d);
      assert fs == [fs[0], fs[1]] + [fs[2], fs[3]];
      CountAppend(k, [fs[0], fs[1]], [fs[2], fs[3]]);
      Count2(k, fs[0], fs[1]);
      Count2(k, fs[2], fs[3]);
    }
  }

  lemma CountProtium(k: CanKind, d: MasterData)
    ensures Count(k, ProtiumFrames(d)) ==
            if Period(k) == 100 && k !in {McuAnalogPedals, McuInputs, ProtiumState} && d.protiumValues.valid then 1
            else 0
  {
    if d.protiumValues.valid {
      var fs := ProtiumFrames(d);
      assert fs == [fs[0], fs[1]] + [fs[2], fs[3]] + [fs[4], fs[5]];
      CountAppend(k, [fs[0], fs[1]] + [fs[2], fs[3]], [fs[4], fs[5]]);
      CountAppend(k, [fs[0], fs[1]], [fs[2], fs[3]]);
      Count2(k, fs[0], fs[1]);
      Count2(k, fs[2], fs[3]);
      Count2(k, fs[4], fs[5]);
    }
  }

  lemma CountPedalsAndInputs(k: CanKind, d: MasterData)
    ensures Count(k, PedalsAndInputs(d)) ==
            if k in {McuAnalogPedals, McuInputs} && d.measurements.valid then 1 else 0
  {
    Count2(k, CanFrame(McuAnalogPedals, d.measurements.value), CanFrame(McuInputs, d.measurements.value));
  }

  lemma CountProtiumState(k: CanKind, d: MasterData)
    ensures Count(k, ProtiumStateFrame(d)) == if k == ProtiumState && d.operatingState.valid then 1 else 0
  {
    Count1(k, CanFrame(ProtiumState, d.operatingState.value));
  }

  lemma Count1000ms(k: CanKind, d: MasterData)
    ensures Count(k, Every1000ms(d)) == if Period(k) == 100 && Available(k, d) then 1 else 0
  {
    hide Count, PedalsAndInputs, ProtiumStateFrame, ProtiumFrames;
    CountParts(k, [], PedalsAndInputs(d), ProtiumStateFrame(d), ProtiumFrames(d));
    assert [] + PedalsAndInputs(d) == PedalsAndInputs(d);
    CountNone(k);
    CountPedalsAndInputs(k, d);
    CountProtiumState(k, d);
    CountProtium(k, d);
  }

  lemma CountParts(k: CanKind, f: seq<CanFrame>, t: seq<CanFrame>, s: seq<CanFrame>, w: seq<CanFrame>)
    ensures Count(k, f + t + s + w) == Count(k, f) + Count(k, t) + Count(k, s) + Count(k, w)
  {
    CountAppend(k, f + t + s, w);
    CountAppend(k, f + t, s);
    CountAppend(k, f, t);
  }

  lemma Count10s(k: CanKind, d: MasterData)
    ensures Count(k, Every10s(d)) == if Period(k) == 1000 && Available(k, d) then 1 else 0
  {
    Count1(k, CanFrame(McuAnalogUnassigned, d.measurements.value));
  }

  /** Which counter a kind's turn hangs on. */
  lemma DueTurns(k: CanKind, c: Counters)
    requires InRange(c)
    ensures Phase(k, c) + 1 == Period(k) <==>
            match Period(k) case 1 => true case 10 => Ends100ms(c) case 100 => Ends1000ms(c) case _ => Ends10s(c)
  {}

  lemma DueCount(k: CanKind, c: Counters, d: MasterData)
    requires InRange(c)
    ensures Count(k, Due(c, d)) == if Phase(k, c) + 1 == Period(k) && Available(k, d) then 1 else 0
  {
    hide Count, EveryTick, Every100ms, Every1000ms, Every10s, Ends100ms, Ends1000ms, Ends10s, Phase, Available;
    var f, t := EveryTick(d), if Ends100ms(c) then Every100ms(d) else [];
    var s, w := if Ends1000ms(c) then Every1000ms(d) else [], if Ends10s(c) then Every10s(d) else [];
    CountFast(k, d);
    Count100ms(k, d);
    Count1000ms(k, d);
    Count10s(k, d);
    CountParts(k, f, t, s, w);
    CountNone(k);
    assert Due(c, d) == f + t + s + w;
    DueTurns(k, c);
    SomePeriod(k);
    hide Period;
  }

  lemma CountNone(k: CanKind)
    ensures Count(k, []) == 0
  {}

  lemma SomePeriod(k: CanKind)
    ensures Period(k) in {1, 10, 100, 1000}
  {}

  /** A pass queues a kind once if its turn has come and its payload is there, and never otherwise. */
  lemma SentWhenDue(k: CanKind, c: Counters, input: TickIn)
    requires InRange(c)
    ensures Count(k, Tick(c, input).1) == Sends(k, c, input)
  {
    hide Count, Due, Phase, Period, Available, Advance;
    CountNone(k);
    DueCount(k, c, input.d);
  }

  lemma {:induction false} AttemptsAreFrames(k: CanKind, trace: seq<TickIn>)
    ensures Attempts(k, trace) == Count(k, AllFrames(trace))
  {
    if trace != [] {
      var before, input := trace[..|trace| - 1], trace[|trace| - 1];
      AttemptsAreFrames(k, before);
      CountersInRange(before);
      SentWhenDue(k, CountersAfter(before), input);
      CountAppend(k, AllFrames(before), Tick(CountersAfter(before), input).1);
    }
  }

  // ---------------------------------------------------------------- pace

  /** `n` periods of a kind, in active ticks. */
  function Cost(k: CanKind, n: int): int {
    match Period(k)
    case 1 => n
    case 10 => 10 * n
    case 100 => 100 * n
    case _ => 1000 * n
  }

  /** `n` frames sent while the phase went from `from` to `to` over `active` ticks. */
  predicate Balanced(k: CanKind, n: int, from: nat, active: nat, to: nat, exact: bool) {
    0 <= n && Cost(k, n) <= from + active - to && (exact ==> Cost(k, n) == from + active - to)
  }

  /** Over one tick, a frame costs a whole period, and an active tick pays one. */
  lemma TickPace(k: CanKind, c: Counters, input: TickIn)
    requires InRange(c)
    ensures Balanced(k, Sends(k, c, input), Phase(k, c), if input.dfu then 0 else 1, Phase(k, Tick(c, input).0),
                     !input.dfu && Available(k, input.d))
  {}

  /** The payload is there, and no update runs, throughout the window. */
  ghost predicate Undisturbed(k: CanKind, window: seq<TickIn>) {
    forall i | 0 <= i < |window| :: !window[i].dfu && Available(k, window[i].d)
  }

  /** Going from one trace to a longer one, frames times period never outruns the active ticks. */
  ghost predicate InStep(k: CanKind, before: seq<TickIn>, all: seq<TickIn>, exact: bool) {
    && Active(all) >= Active(before)
    && Balanced(k, Attempts(k, all) - Attempts(k, before), Phase(k, CountersAfter(before)),
                Active(all) - Active(before), Phase(k, CountersAfter(all)), exact)
  }

  /** It never does over any stretch of ticks, and it keeps step with them when the stretch is undisturbed. */
  lemma {:induction false} Pace(k: CanKind, before: seq<TickIn>, window: seq<TickIn>)
    ensures InStep(k, before, before + window, Undisturbed(k, window))
  {
    if window == [] {
      assert before + window == before;
    } else {
      var w, input := window[..|window| - 1], window[|window| - 1];
      Pace(k, before, w);
      PaceStep(k, before, before + w, input, Undisturbed(k, w));
      OneMore(k, before, window);
    }
  }

  lemma OneMore(k: CanKind, before: seq<TickIn>, window: seq<TickIn>)
    requires window != []
    ensures var w, input := window[..|window| - 1], window[|window| - 1];
            && before + window == before + w + [input]
            && Undisturbed(k, window) == (Undisturbed(k, w) && !input.dfu && Available(k, input.d))
  {
    var w, input := window[..|window| - 1], window[|window| - 1];
    assert window == w + [input];
  }

  lemma PaceStep(k: CanKind, before: seq<TickIn>, all: seq<TickIn>, input: TickIn, exact: bool)
    requires InStep(k, before, all, exact)
    ensures InStep(k, before, all + [input], exact && !input.dfu && Available(k, input.d))
  {
    hide Attempts, CountersAfter, Active, Sends, Tick, Phase, Available, Balanced;
    var c, next := CountersAfter(all), all + [input];
    CountersInRange(all);
    TickPace(k, c, input);
    AttemptsNext(k, all, input);
    ActiveNext(all, input);
    BalancedAdds(k, Attempts(k, all) - Attempts(k, before), Phase(k, CountersAfter(before)),
                 Active(all) - Active(before), Phase(k, c), exact,
                 Sends(k, c, input), Active(next) - Active(all), Phase(k, CountersAfter(next)),
                 !input.dfu && Available(k, input.d));
  }

  lemma AttemptsNext(k: CanKind, trace: seq<TickIn>, input: TickIn)
    ensures Attempts(k, trace + [input]) == Attempts(k, trace) + Sends(k, CountersAfter(trace), input)
    ensures CountersAfter(trace + [input]) == Tick(CountersAfter(trace), input).0
  {
    assert (trace + [input])[..|trace|] == trace;
  }

  lemma BalancedAdds(
    k: CanKind, m: int, from: nat, a: nat, mid: nat, exactA: bool, n: int, b: nat, to: nat, exactB: bool)
    requires Balanced(k, m, from, a, mid, exactA) && Balanced(k, n, mid, b, to, exactB)
    ensures Balanced(k, m + n, from, a + b, to, exactA && exactB)
  {}

  lemma ActiveNext(trace: seq<TickIn>, input: TickIn)
    ensures Active(trace + [input]) == Active(trace) + if input.dfu then 0 else 1
    ensures SinceDfu(trace + [input]) == if input.dfu then 0 else 1 + SinceDfu(trace)
  {
    assert (trace + [input])[..|trace|] == trace;
  }

  // ---------------------------------------------------------------- the report

  /** Does the meter hold the totals `now` and `then`, wrapped? */
  predicate Holds(m: Meter, now: nat, reported: nat) {
    m.count == now % TWO_32 && m.previous == reported % TWO_32
  }

  lemma MeterTickHolds(m: Meter, now: nat, reported: nat, n: nat, report: bool)
    requires Holds(m, now, reported) && reported <= now
    ensures Holds(MeterTick(m, n, report), now + n, if report then now + n else reported)
    ensures report && now + n - reported < TWO_32 ==> MeterTick(m, n, report).hz == now + n - reported
  {
    WrapAdd(now, n);
    if now + n - reported < TWO_32 {
      WrapSubtract(now + n, reported);
    }
  }

  lemma {:induction false} WrapAdd(now: nat, n: nat)
    ensures Add32(now % TWO_32, n) == (now + n) % TWO_32
    decreases n
  {
    if n > 0 {
      NextWrap(now);
      WrapAdd(now + 1, n - 1);
    }
  }

  lemma NextWrap(n: nat)
    ensures (n + 1) % TWO_32 == if n % TWO_32 == TWO_32 - 1 then 0 else n % TWO_32 + 1
  {
    var q, r := n / TWO_32, n % TWO_32;
    if r < TWO_32 - 1 {
      DivModWrap(n + 1, q, r + 1);
    } else {
      DivModWrap(n + 1, q + 1, 0);
    }
  }

  lemma DivModWrap(n: int, q: int, r: int)
    requires n == TWO_32 * q + r && 0 <= r < TWO_32
    ensures n % TWO_32 == r
  {}

  lemma WrapSubtract(n: nat, m: nat)
    requires m <= n < m + TWO_32
    ensures Subtract32(n % TWO_32, m % TWO_32) == n - m
  {}

  /** Attempts up to the last report. */
  function Reported(k: CanKind, trace: seq<TickIn>): nat {
    Attempts(k, trace[..LastReport(trace)])
  }

  /** The wrapping counters hold the true number of attempts, now and at the last report. */
  ghost predicate MeterTrue(k: CanKind, trace: seq<TickIn>) {
    Reported(k, trace) <= Attempts(k, trace) && Holds(MeterAfter(k, trace), Attempts(k, trace), Reported(k, trace))
  }

  lemma {:induction false} MeterIsTrue(k: CanKind, trace: seq<TickIn>)
    ensures MeterTrue(k, trace)
  {
    if trace != [] {
      var before, input := trace[..|trace| - 1], trace[|trace| - 1];
      MeterIsTrue(k, before);
      assert trace == before + [input];
      MeterStep(k, before, input);
    }
  }

  lemma MeterStep(k: CanKind, before: seq<TickIn>, input: TickIn)
    requires MeterTrue(k, before)
    ensures MeterTrue(k, before + [input])
  {
    hide Attempts, MeterAfter, LastReport, CountersAfter, Reports, Sends, MeterTick, Holds;
    var trace, n := before + [input], Sends(k, CountersAfter(before), input);
    MeterNext(k, before, input);
    AttemptsNext(k, before, input);
    LastReportNext(before, input);
    MeterTickHolds(MeterAfter(k, before), Attempts(k, before), Reported(k, before), n, Reports(trace));
    assert Reported(k, trace) == if Reports(trace) then Attempts(k, trace) else Reported(k, before);
  }

  /** The rate a report prints is the true number of attempts since the one before it. */
  lemma ReportIsTrue(k: CanKind, before: seq<TickIn>, input: TickIn)
    requires Reports(before + [input])
    ensures var n := Attempts(k, before + [input]) - Reported(k, before);
            n < TWO_32 ==> MeterAfter(k, before + [input]).hz == n
  {
    MeterIsTrue(k, before);
    MeterNext(k, before, input);
    AttemptsNext(k, before, input);
    MeterTickHolds(MeterAfter(k, before), Attempts(k, before), Reported(k, before),
                   Sends(k, CountersAfter(before), input), true);
  }

  lemma MeterNext(k: CanKind, before: seq<TickIn>, input: TickIn)
    ensures MeterAfter(k, before + [input])
         == MeterTick(MeterAfter(k, before), Sends(k, CountersAfter(before), input), Reports(before + [input]))
  {
    assert (before + [input])[..|before|] == before;
  }

  lemma LastReportNext(before: seq<TickIn>, input: TickIn)
    ensures var trace := before + [input];
            trace[..LastReport(trace)] == if Reports(trace) then trace else before[..LastReport(before)]
  {
    var trace := before + [input];
    assert trace[..|before|] == before && trace[..|trace|] == trace;
    var n := LastReport(before);
    assert trace[..n] == before[..n];
  }

  /** The active ticks since the last report, out of 100. */
  lemma {:induction false} ActiveSinceReport(trace: seq<TickIn>)
    ensures Active(trace) - Active(trace[..LastReport(trace)]) == Active(trace) % 100
  {
    if trace != [] {
      var before, input := trace[..|trace| - 1], trace[|trace| - 1];
      ActiveSinceReport(before);
      assert trace == before + [input];
      LastReportNext(before, input);
      ReportsEveryHundred(before, input);
      ActiveNext(before, input);
    }
  }

  lemma ReportsEveryHundred(before: seq<TickIn>, input: TickIn)
    ensures Reports(before + [input]) <==> !input.dfu && Active(before) % 100 == 99
    ensures Active(before + [input]) % 100 ==
            if input.dfu then Active(before) % 100 else if Active(before) % 100 == 99 then 0
            else Active(before) % 100 + 1
  {
    assert (before + [input])[..|before|] == before;
    TickFollowsSchedule(before, input);
    NextHundredth(Active(before));
  }

  /** Over 100 active ticks: how many frames there can be, and how many there are if nothing disturbs. */
  lemma RateOver100(k: CanKind, head: seq<TickIn>, window: seq<TickIn>)
    requires Active(head + window) - Active(head) == 100
    ensures var n := Attempts(k, head + window) - Attempts(k, head);
            && 0 <= n <= PerSecond(k)
            && (Undisturbed(k, window) && Period(k) <= 100 ==> n == PerSecond(k))
  {
    Pace(k, head, window);
    CountersInRange(head);
    if Undisturbed(k, window) && Period(k) <= 100 {
      UndisturbedCounts(k, head, window);
      SamePhase(k, head, head + window);
    }
    RateBound(k, Attempts(k, head + window) - Attempts(k, head), Phase(k, CountersAfter(head)),
              Phase(k, CountersAfter(head + window)), Undisturbed(k, window));
  }

  lemma SamePhase(k: CanKind, head: seq<TickIn>, all: seq<TickIn>)
    requires SinceDfu(all) == SinceDfu(head) + 100 && Period(k) <= 100
    ensures Phase(k, CountersAfter(all)) == Phase(k, CountersAfter(head))
  {
    CountersClosedForm(head);
    CountersClosedForm(all);
    HundredMore(SinceDfu(head));
  }

  lemma RateBound(k: CanKind, n: nat, from: nat, to: nat, exact: bool)
    requires from < Period(k) && Balanced(k, n, from, 100, to, exact)
    ensures n <= PerSecond(k)
    ensures exact && Period(k) <= 100 && from == to ==> n == PerSecond(k)
  {}

  /**
   * The rate a report computes for a kind (and prints, but for the unassigned inputs) is the true number of
   * attempts in the last 100 active ticks, even when the counters wrap. It is at most 100, 10, 1 and 1 for the four
   * groups whatever updates do, and exactly 100, 10 and 1 for the first three when nothing has disturbed the kind
   * since the last report.
   */
  lemma ReportedRate(k: CanKind, trace: seq<TickIn>)
    requires trace != [] && Reports(trace)
    ensures var start := LastReport(trace[..|trace| - 1]);
            var hz := MeterAfter(k, trace).hz;
            && Active(trace) - Active(trace[..start]) == 100
            && hz == Attempts(k, trace) - Attempts(k, trace[..start])
            && hz <= PerSecond(k)
            && (Undisturbed(k, trace[start..]) && Period(k) <= 100 ==> hz == PerSecond(k))
  {
    hide *;
    var before, input := trace[..|trace| - 1], trace[|trace| - 1];
    assert trace == before + [input];
    var start := LastReport(before);
    var head, window := trace[..start], trace[start..];
    SinceLastReport(k, trace);
    ActiveSinceReport(before);
    ReportsEveryHundred(before, input);
    ActiveNext(before, input);
    assert head + window == trace;
    RateOver100(k, head, window);
    ReportIsTrue(k, before, input);
  }

  lemma SinceLastReport(k: CanKind, trace: seq<TickIn>)
    requires trace != []
    ensures var before := trace[..|trace| - 1];
            var start := LastReport(before);
            && trace == trace[..start] + trace[start..] && trace[..start] == before[..start]
            && Reported(k, before) == Attempts(k, trace[..start]) && PerSecond(k) < TWO_32
  {
    hide Attempts, LastReport;
    var before := trace[..|trace| - 1];
    var start := LastReport(before);
    assert trace[..start] == before[..start];
  }

  lemma {:induction false} UndisturbedCounts(k: CanKind, before: seq<TickIn>, window: seq<TickIn>)
    requires Undisturbed(k, window)
    ensures Active(before + window) == Active(before) + |window|
    ensures SinceDfu(before + window) == SinceDfu(before) + |window|
  {
    if window == [] {
      assert before + window == before;
    } else {
      var w, input := window[..|window| - 1], window[|window| - 1];
      UndisturbedCounts(k, before, w);
      OneMore(k, before, window);
      ActiveNext(before + w, input);
    }
  }
}

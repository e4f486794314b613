/**
 * How far the 32-slot transmit queue can fill: the periodic thread and the test button put frames in, the
 * transmit thread takes them out.
 */
module Backlog {
  import opened MasterStore
  import opened MsgQueue
  import opened Scheduler

  /** A 10 ms sleep, in which the transmit thread took `removed` frames, and the pass after it; or a button press. */
  datatype Event = Sleep(removed: nat, input: TickIn) | Press(d: MasterData)

  /** `rest` counts the ticks since the last press, from a start with the button long at rest. */
  datatype Pipe = Pipe(c: Counters, queue: seq<CanFrame>, dropped: nat, rest: nat)

  /** The button handler holds on for 2 s, 200 ticks; this many already do. */
  const PRESS_GAP := 20

  const START := Pipe(ZERO, [], 0, PRESS_GAP)

  /** What a press queues: valid or not, all but the Protium values; the operating state only if valid. */
  function TestFrames(d: MasterData): seq<CanFrame> {
    var m := d.measurements.value;
    [CanFrame(McuAnalogSpeed, m), CanFrame(McuAnalogPedals, m), CanFrame(McuAnalogPowertrain, m),
     CanFrame(McuAnalogFuelCell, m), CanFrame(McuAnalogAccessory, m), CanFrame(McuAnalogUnassigned, m),
     CanFrame(McuInputs, m), CanFrame(McuState, d.status.value), CanFrame(McuFaults, d.faults.value)]
    + ProtiumStateFrame(d)
  }

  function Take(queue: seq<CanFrame>, n: nat): seq<CanFrame> {
    if n <= |queue| then queue[n..] else []
  }

  function Step(p: Pipe, e: Event): Pipe {
    match e
    case Sleep(removed, input) =>
      var (c, frames, _) := Tick(p.c, input);
      Offer(p.(c := c, queue := Take(p.queue, removed), rest := p.rest + 1), frames)
    case Press(d) => Offer(p.(rest := 0), TestFrames(d))
  }

  function Offer(p: Pipe, frames: seq<CanFrame>): Pipe {
    var queue := PutAll(p.queue, frames);
    var lost := |p.queue| + |frames| - |queue|;
    p.(queue := queue, dropped := p.dropped + if lost > 0 then lost else 0)
  }

  function Run(p: Pipe, events: seq<Event>): Pipe {
    if events == [] then p else Step(Run(p, events[..|events| - 1]), events[|events| - 1])
  }

  /** The transmit thread keeps up with three frames a tick, or empties the queue; presses do not bunch. */
  predicate Fair(p: Pipe, e: Event) {
    match e
    case Sleep(removed, _) => removed >= 3 || removed >= |p.queue|
    case Press(_) => p.rest >= PRESS_GAP
  }

  predicate AllFair(p: Pipe, events: seq<Event>) {
    events == [] ||
    (AllFair(p, events[..|events| - 1]) && Fair(Run(p, events[..|events| - 1]), events[|events| - 1]))
  }

  // ---------------------------------------------------------------- the potential

  /** A frame per thousand: what each group still to come has saved up since its last turn. */
  function Potential(c: Counters): nat {
    400 * c.cnt100ms + 90 * c.cnt1000ms + 100 * c.cntUnassign + c.cnt1s
  }

  function Load(p: Pipe): nat {
    1000 * |p.queue| + Potential(p.c)
  }

  predicate AllValid(d: MasterData) {
    d.measurements.valid && d.status.valid && d.protiumValues.valid && d.operatingState.valid && d.faults.valid
  }

  /** Any active tick queues and saves up at most 2.491 frames' worth, and exactly that when all payloads are there. */
  lemma TickCost(c: Counters, d: MasterData)
    requires InRange(c)
    ensures var now := 1000 * |Due(c, d)| + Potential(Advance(c));
            now <= Potential(c) + 2491 && (AllValid(d) ==> now == Potential(c) + 2491)
  {
    assert |EveryTick(d)| <= 2 && (AllValid(d) ==> |EveryTick(d)| == 2);
    assert |Every100ms(d)| <= 4 && (AllValid(d) ==> |Every100ms(d)| == 4);
    assert |Every1000ms(d)| <= 9 && (AllValid(d) ==> |Every1000ms(d)| == 9);
    assert |Every10s(d)| <= 1 && (AllValid(d) ==> |Every10s(d)| == 1);
  }

  /** What the load is bounded by: 16 frames' worth, and for a while after a press up to 10 more. */
  function Limit(p: Pipe, pressed: bool): int {
    if pressed && 26000 - 509 * p.rest > 16000 then 26000 - 509 * p.rest else 16000
  }

  ghost predicate Inv(p: Pipe, pressed: bool) {
    InRange(p.c) && p.dropped == 0 && Load(p) <= Limit(p, pressed)
  }

  /** With room for all of them, frames are just appended. */
  lemma OfferFits(p: Pipe, frames: seq<CanFrame>)
    requires |p.queue| + |frames| <= CAPACITY
    ensures Offer(p, frames) == p.(queue := p.queue + frames)
  {
    PutAllKeepsPrefix(p.queue, frames);
    assert frames[..|frames|] == frames;
  }

  /** A pass with or without an update running costs at most 2.491 frames' worth, one with none. */
  lemma PassCost(c: Counters, input: TickIn)
    requires InRange(c)
    ensures var (c', frames, _) := Tick(c, input);
            && InRange(c') && |frames| <= 16 && Potential(c') <= 13509
            && 1000 * |frames| + Potential(c') <= Potential(c) + 2491
  {
    TickInRange(c, input);
    if !input.dfu {
      TickCost(c, input.d);
    }
  }

  lemma LoadFalls(queued: nat, left: nat, frames: nat, before: nat, after: nat, limit: int, next: int)
    requires if queued >= 3 then left <= queued - 3 else left == 0
    requires 1000 * frames + after <= before + 2491 && before <= 13509
    requires 1000 * queued + before <= limit && next >= 16000 && next >= limit - 509
    ensures 1000 * (left + frames) + after <= next
  {}

  lemma SleepKeepsInv(p: Pipe, e: Event, pressed: bool)
    requires Inv(p, pressed) && e.Sleep? && Fair(p, e)
    ensures Inv(Step(p, e), pressed)
  {
    var left := Take(p.queue, e.removed);
    var (c, frames, _) := Tick(p.c, e.input);
    PassCost(p.c, e.input);
    assert Potential(p.c) <= 13509;
    var q := p.(c := c, queue := left, rest := p.rest + 1);
    LoadFalls(|p.queue|, |left|, |frames|, Potential(p.c), Potential(c), Limit(p, pressed), Limit(q, pressed));
    OfferFits(q, frames);
  }

  lemma PressKeepsInv(p: Pipe, e: Event, pressed: bool)
    requires Inv(p, pressed) && e.Press? && Fair(p, e)
    ensures Inv(Step(p, e), true)
  {
    assert |TestFrames(e.d)| <= 10;
    OfferFits(p.(rest := 0), TestFrames(e.d));
  }

  predicate Pressed(events: seq<Event>) {
    events != [] && (Pressed(events[..|events| - 1]) || events[|events| - 1].Press?)
  }

  lemma {:induction false} RunKeepsInv(events: seq<Event>)
    requires AllFair(START, events)
    ensures Inv(Run(START, events), Pressed(events))
  {
    if events != [] {
      hide Step, Inv, Fair;
      var before, e := events[..|events| - 1], events[|events| - 1];
      RunKeepsInv(before);
      if e.Sleep? {
        SleepKeepsInv(Run(START, before), e, Pressed(before));
      } else {
        PressKeepsInv(Run(START, before), e, Pressed(before));
      }
    }
  }

  /**
   * Under every pattern of updates and valid flags, if the transmit thread takes at least three frames per tick
   * or all there are, no frame is ever dropped: 16 wait at most, or 26 with test presses at least 20 ticks apart.
   */
  lemma BacklogBound(events: seq<Event>)
    requires AllFair(START, events)
    ensures Run(START, events).dropped == 0
    ensures |Run(START, events).queue| <= if Pressed(events) then 26 else 16
  {
    RunKeepsInv(events);
  }

  /** In particular three frames a tick are always enough. */
  lemma {:induction false} ThreePerTickSuffice(events: seq<Event>)
    requires forall e | e in events :: e.Sleep? && e.removed >= 3
    ensures AllFair(START, events) && !Pressed(events)
    ensures Run(START, events).dropped == 0 && |Run(START, events).queue| <= 16
  {
    ThreeAreFair(events);
    BacklogBound(events);
  }

  lemma {:induction false} ThreeAreFair(events: seq<Event>)
    requires forall e | e in events :: e.Sleep? && e.removed >= 3
    ensures AllFair(START, events) && !Pressed(events)
  {
    if events != [] {
      var before, e := events[..|events| - 1], events[|events| - 1];
      assert e in events && forall x | x in before :: x in events;
      hide Run;
      ThreeAreFair(before);
    }
  }

  // ---------------------------------------------------------------- the bounds are reached

  const FULL_SLOT := Slot([], true)
  const FULL := MasterData(FULL_SLOT, FULL_SLOT, FULL_SLOT, FULL_SLOT, FULL_SLOT)

  /** Undisturbed ticks with all payloads there and the queue emptied before each. */
  function Drained(n: nat): seq<Event> {
    if n == 0 then [] else Drained(n - 1) + [Sleep(CAPACITY, TickIn(false, FULL))]
  }

  lemma DrainedStep(p: Pipe, n: nat)
    requires p.c == ClosedForm(n, n) && |p.queue| <= CAPACITY
    ensures Step(p, Sleep(CAPACITY, TickIn(false, FULL)))
         == Pipe(ClosedForm(n + 1, n + 1), Schedule(n + 1, n + 1, FULL), p.dropped, p.rest + 1)
    ensures |Schedule(n + 1, n + 1, FULL)| <= CAPACITY
  {
    ClosedFormTick(n, n, TickIn(false, FULL));
    var frames := Schedule(n + 1, n + 1, FULL);
    ScheduleLength(n + 1);
    OfferFits(Pipe(ClosedForm(n + 1, n + 1), [], p.dropped, p.rest + 1), frames);
    assert [] + frames == frames;
  }

  lemma ScheduleLength(n: nat)
    ensures |Schedule(n, n, FULL)| == 2 + (if n % 10 == 0 then 4 else 0) + (if n % 100 == 0 then 9 else 0)
                                    + (if n % 1000 == 0 then 1 else 0)
  {}

  /** Where `n` such ticks lead. */
  function DrainedPipe(n: nat): Pipe {
    if n == 0 then START else Pipe(ClosedForm(n, n), Schedule(n, n, FULL), 0, PRESS_GAP + n)
  }

  lemma DrainedNext(n: nat)
    ensures Step(DrainedPipe(n), Sleep(CAPACITY, TickIn(false, FULL))) == DrainedPipe(n + 1)
    ensures |DrainedPipe(n).queue| <= 16
  {
    assert ClosedForm(0, 0) == ZERO;
    if n > 0 {
      ScheduleLength(n);
    }
    DrainedStep(DrainedPipe(n), n);
  }

  lemma OneEvent(before: seq<Event>, e: Event)
    ensures Run(START, before + [e]) == Step(Run(START, before), e)
    ensures AllFair(START, before + [e]) <==> AllFair(START, before) && Fair(Run(START, before), e)
    ensures Pressed(before + [e]) <==> Pressed(before) || e.Press?
  {
    hide Step, Fair;
    assert (before + [e])[..|before|] == before;
  }

  lemma DrainedNothing()
    ensures AllFair(START, []) && !Pressed([]) && Run(START, []) == DrainedPipe(0)
  {}

  lemma {:induction false} DrainedRun(n: nat)
    ensures AllFair(START, Drained(n)) && !Pressed(Drained(n))
    ensures Run(START, Drained(n)) == DrainedPipe(n)
  {
    hide Run, AllFair, Pressed, Step, DrainedPipe;
    if n == 0 {
      DrainedNothing();
    } else {
      DrainedRun(n - 1);
      OneEvent(Drained(n - 1), Sleep(CAPACITY, TickIn(false, FULL)));
      DrainedNext(n - 1);
    }
  }

  /** Neither bound can be lowered. */
  lemma PeaksAreReached() returns (quiet: seq<Event>, pressed: seq<Event>)
    ensures AllFair(START, quiet) && !Pressed(quiet) && |Run(START, quiet).queue| == 16
    ensures AllFair(START, pressed) && |Run(START, pressed).queue| == 26
  {
    quiet := Drained(1000);
    DrainedRun(1000);
    ScheduleLength(1000);
    pressed := quiet + [Press(FULL)];
    OneEvent(quiet, Press(FULL));
    OfferFits(Run(START, quiet).(rest := 0), TestFrames(FULL));
  }

  /** Undisturbed ticks with all payloads there and a bus that takes nothing. */
  function Stalled(n: nat): seq<Event> {
    if n == 0 then [] else Stalled(n - 1) + [Sleep(0, TickIn(false, FULL))]
  }

  lemma StalledStep(p: Pipe, n: nat)
    requires p.c == ClosedForm(n, n) && |p.queue| + |Schedule(n + 1, n + 1, FULL)| <= 32
    ensures Step(p, Sleep(0, TickIn(false, FULL)))
         == Pipe(ClosedForm(n + 1, n + 1), p.queue + Schedule(n + 1, n + 1, FULL), p.dropped, p.rest + 1)
  {
    ClosedFormTick(n, n, TickIn(false, FULL));
    OfferFits(Pipe(ClosedForm(n + 1, n + 1), p.queue, p.dropped, p.rest + 1), Schedule(n + 1, n + 1, FULL));
  }

  lemma {:induction false} StalledRun(n: nat)
    requires n <= 14
    ensures var p := Run(START, Stalled(n));
            && p.c == ClosedForm(n, n) && p.dropped == 0 && p.rest == 20 + n
            && |p.queue| == 2 * n + if n >= 10 then 4 else 0
  {
    hide Run, Step, Schedule, AllFair, Fair, Pressed;
    if n == 0 {
      DrainedNothing();
      assert ClosedForm(0, 0) == ZERO;
    } else {
      hide ClosedForm;
      StalledRun(n - 1);
      OneEvent(Stalled(n - 1), Sleep(0, TickIn(false, FULL)));
      ScheduleLength(n);
      StalledStep(Run(START, Stalled(n - 1)), n - 1);
    }
  }

  /** The queue holds 32 frames and not one more: a stalled bus fills it in 14 ticks, and the next tick loses two. */
  lemma StallFills()
    ensures |Run(START, Stalled(14)).queue| == 32 && Run(START, Stalled(14)).dropped == 0
    ensures Run(START, Stalled(15)) == Run(START, Stalled(14)).(c := ClosedForm(15, 15), rest := 35, dropped := 2)
  {
    hide Run, Step;
    StalledRun(14);
    OneEvent(Stalled(14), Sleep(0, TickIn(false, FULL)));
    StalledOver(Run(START, Stalled(14)));
  }

  /** Nothing of a tick fits a queue of 32. */
  lemma StalledOver(p: Pipe)
    requires p.c == ClosedForm(14, 14) && |p.queue| == 32
    ensures Step(p, Sleep(0, TickIn(false, FULL)))
         == p.(c := ClosedForm(15, 15), rest := p.rest + 1, dropped := p.dropped + 2)
  {
    ClosedFormTick(14, 14, TickIn(false, FULL));
    ScheduleLength(15);
    var frames := Schedule(15, 15, FULL);
    PutAllKeepsPrefix(p.queue, frames);
    assert frames[..0] == [] && p.queue + [] == p.queue;
  }

  // ---------------------------------------------------------------- three is the threshold

  /** An undisturbed tick with all payloads there in which the transmit thread takes at most two frames. */
  predicate Slow(e: Event) {
    e.Sleep? && e.removed <= 2 && !e.input.dfu && AllValid(e.input.d)
  }

  function Gauge(p: Pipe): int {
    1000 * (|p.queue| + p.dropped) + 400 * p.c.cnt100ms + 90 * p.c.cnt1000ms
  }

  lemma SlowStep(p: Pipe, e: Event)
    requires InRange(p.c) && |p.queue| <= CAPACITY && Slow(e)
    ensures var q := Step(p, e);
            && InRange(q.c) && |q.queue| <= CAPACITY
            && Gauge(q) >= Gauge(p) + 490
  {
    var left := Take(p.queue, e.removed);
    TickInRange(p.c, e.input);
    TickCost(p.c, e.input.d);
    PutAllKeepsPrefix(left, Due(p.c, e.input.d));
  }

  lemma {:induction false} SlowRun(p: Pipe, events: seq<Event>)
    requires InRange(p.c) && |p.queue| <= CAPACITY && forall e | e in events :: Slow(e)
    ensures var q := Run(p, events);
            && InRange(q.c) && |q.queue| <= CAPACITY
            && Gauge(q) >= Gauge(p) + 490 * |events|
  {
    if events != [] {
      var before, e := events[..|events| - 1], events[|events| - 1];
      assert e in events && forall x | x in before :: x in events;
      SlowRun(p, before);
      SlowStep(Run(p, before), e);
    }
  }

  /** `x` after `n` increments modulo `limit`, one at a time as the counters do it. */
  function Around(x: nat, n: nat, limit: nat): nat
    decreases n
  {
    if n == 0 then x else if Around(x, n - 1, limit) + 1 >= limit then 0 else Around(x, n - 1, limit) + 1
  }

  lemma {:induction false} AroundIsRemainder(x: nat, n: nat)
    ensures x < 10 ==> Around(x, n, 10) == (x + n) % 10
    ensures x < 100 ==> Around(x, n, 100) == (x + n) % 100
  {
    if n > 0 {
      AroundIsRemainder(x, n - 1);
      NextTick(x + n - 1);
    }
  }

  /** The counters go round without a break. */
  lemma {:induction false} SlowPhases(p: Pipe, events: seq<Event>)
    requires InRange(p.c) && forall e | e in events :: Slow(e)
    ensures Run(p, events).c.cnt1000ms == Around(p.c.cnt1000ms, |events|, 100)
    ensures Run(p, events).c.cnt100ms == Around(p.c.cnt100ms, |events|, 10)
  {
    if events != [] {
      var before, e := events[..|events| - 1], events[|events| - 1];
      assert e in events && forall x | x in before :: x in events;
      SlowPhases(p, before);
      assert Run(p, events).c == Advance(Run(p, before).c);
    }
  }

  /** From any state, a hundred such ticks in a row lose at least 17 frames: 249 come and 200 go. */
  lemma TwoPerTickDrops(p: Pipe, events: seq<Event>)
    requires InRange(p.c) && |p.queue| <= 32
    requires |events| == 100
    requires forall e | e in events :: e.Sleep? && e.removed <= 2 && !e.input.dfu && AllValid(e.input.d)
    ensures Run(p, events).dropped >= p.dropped + 17
  {
    SlowRun(p, events);
    SlowPhases(p, events);
    FullCircle(p.c);
  }

  lemma FullCircle(c: Counters)
    requires InRange(c)
    ensures Around(c.cnt1000ms, 100, 100) == c.cnt1000ms && Around(c.cnt100ms, 100, 10) == c.cnt100ms
  {
    hide Around;
    AroundIsRemainder(c.cnt1000ms, 100);
    AroundIsRemainder(c.cnt100ms, 100);
    HundredMore(c.cnt1000ms);
    HundredMore(c.cnt100ms);
  }
}

/** The periodic thread as the object it is: its counters, the shared frame counters, and the transmit queue. */
module Periodic {
  import opened Prelude
  import opened MasterStore
  import opened MsgQueue
  import opened Scheduler
  import opened Rates
  import opened Backlog

  /** A `uint32_t` for every frame kind. */
  type FrameCounts = m: map<CanKind, UInt32> | forall k: CanKind :: k in m witness (map k: CanKind | true :: 0)

  const ALL_ZERO: FrameCounts := map k: CanKind | true :: 0

  /** The shared counters, the thread's copy of them, and the rates it last printed. */
  datatype Meters = Meters(counts: FrameCounts, previous: FrameCounts, printed: FrameCounts) {
    function At(k: CanKind): Meter {
      Meter(counts[k], previous[k], printed[k])
    }
  }

  /** Every kind's meter has taken one tick in which `frames` were sent. */
  ghost predicate AllTicked(m: Meters, m': Meters, frames: seq<CanFrame>, report: bool) {
    forall k: CanKind :: m'.At(k) == MeterTick(m.At(k), Count(k, frames), report)
  }

  /** `now` is `before` with every frame of `sent` counted once under its kind. */
  ghost predicate Counted(now: FrameCounts, before: FrameCounts, sent: seq<CanFrame>) {
    forall k: CanKind :: now[k] == Add32(before[k], Count(k, sent))
  }

  /** The report's subtraction, for every kind. */
  function Differences(counts: FrameCounts, previous: FrameCounts): FrameCounts {
    map k: CanKind | true :: Subtract32(counts[k], previous[k])
  }

  /** How many frames of a kind a press sends: whatever the flags, but for the operating state. */
  function TestCount(k: CanKind, d: MasterData): nat {
    match k
    case ProtiumPower | ProtiumThermal | ProtiumHydrogen | ProtiumSetpoints | ProtiumStasis | ProtiumMisc => 0
    case ProtiumState => if d.operatingState.valid then 1 else 0
    case _ => 1
  }

  /** A frame for each of `kinds`, whether or not its payload has ever come. */
  function Always(kinds: seq<CanKind>, d: MasterData): seq<CanFrame> {
    seq(|kinds|, i requires 0 <= i < |kinds| => CanFrame(kinds[i], d.Get(Source(kinds[i])).value))
  }

  /** A press sends nine frames in a fixed order, each made from the payload its kind is for, and the state if valid. */
  lemma TestFramesInOrder(d: MasterData)
    ensures TestFrames(d)
         == Always([McuAnalogSpeed, McuAnalogPedals, McuAnalogPowertrain, McuAnalogFuelCell, McuAnalogAccessory,
                    McuAnalogUnassigned, McuInputs, McuState, McuFaults], d)
            + Frames([ProtiumState], d)
  {
    FramesOne(ProtiumState, d);
    hide Frames;
  }

  lemma Count4(k: CanKind, fs: seq<CanFrame>)
    requires |fs| == 4
    ensures Count(k, fs) == Is(k, fs[0]) + Is(k, fs[1]) + Is(k, fs[2]) + Is(k, fs[3])
  {
    hide Count;
    assert fs == [fs[0], fs[1]] + [fs[2], fs[3]];
    CountAppend(k, [fs[0], fs[1]], [fs[2], fs[3]]);
    Count2(k, fs[0], fs[1]);
    Count2(k, fs[2], fs[3]);
  }

  lemma CountPress(k: CanKind, d: MasterData)
    ensures Count(k, TestFrames(d)) == TestCount(k, d)
  {
    hide Count, ProtiumStateFrame;
    var fs := TestFrames(d);
    var state := ProtiumStateFrame(d);
    assert fs == fs[..4] + fs[4..8] + [fs[8]] + state;
    CountParts(k, fs[..4], fs[4..8], [fs[8]], state);
    Count4(k, fs[..4]);
    Count4(k, fs[4..8]);
    Count1(k, fs[8]);
    CountProtiumState(k, d);
  }

  class PeriodicThread {
    const queue: Ring<CanFrame>
    var cnt100ms: Byte
    var cnt1000ms: Byte
    var cnt1s: Byte
    var cntUnassign: Byte
    var frameCounts: FrameCounts
    var prevFrames: FrameCounts
    /** The rates of the last report, which prints all but that of the unassigned inputs. */
    var printed: FrameCounts

    function State(): Counters
      reads this
    {
      Counters(cnt100ms, cnt1000ms, cnt1s, cntUnassign)
    }

    function AllMeters(): Meters
      reads this
    {
      Meters(frameCounts, prevFrames, printed)
    }

    constructor ()
      ensures queue.Valid() && fresh(queue) && fresh(queue.slots)
      ensures State() == ZERO && queue.Contents() == []
      ensures AllMeters() == Meters(ALL_ZERO, ALL_ZERO, ALL_ZERO)
    {
      queue := new Ring();
      cnt100ms, cnt1000ms, cnt1s, cntUnassign := 0, 0, 0, 0;
      frameCounts, prevFrames, printed := ALL_ZERO, ALL_ZERO, ALL_ZERO;
    }

    /** Every `send_*`: enqueue without waiting, and count the attempt whether or not there was room. */
    method Send(frame: CanFrame)
      requires queue.Valid()
      modifies this`frameCounts, queue, queue.slots
      ensures queue.Valid() && queue.Contents() == Put(old(queue.Contents()), frame)
      ensures forall k: CanKind :: frameCounts[k] == Add32(old(frameCounts)[k], Is(k, frame))
    {
      var ok := queue.PutNoWait(frame);
      var n := frameCounts[frame.kind];
      frameCounts := frameCounts[frame.kind := if n == TWO_32 - 1 then 0 else n + 1];
    }

    /** Sends `frames` one by one, after `sent` has been offered to queue `q` and added to `counts`. */
    method SendAll(frames: seq<CanFrame>, ghost q: seq<CanFrame>, ghost counts: FrameCounts, ghost sent: seq<CanFrame>)
      requires queue.Valid() && queue.Contents() == PutAll(q, sent) && Counted(frameCounts, counts, sent)
      modifies this`frameCounts, queue, queue.slots
      ensures queue.Valid() && queue.Contents() == PutAll(q, sent + frames)
      ensures Counted(frameCounts, counts, sent + frames)
    {
      hide *;
      assert sent + frames[..0] == sent;
      for i := 0 to |frames|
        invariant queue.Valid() && queue.Contents() == PutAll(q, sent + frames[..i])
        invariant Counted(frameCounts, counts, sent + frames[..i])
      {
        ghost var done, before := sent + frames[..i], frameCounts;
        assert sent + frames[..i + 1] == done + [frames[i]];
        SentNext(q, done, frames[i]);
        Send(frames[i]);
        CountedNext(frameCounts, before, counts, done, frames[i]);
      }
      assert frames[..|frames|] == frames;
    }

    /** The 10 ms and 100 ms groups. */
    method SendFast(d: MasterData, ghost q: seq<CanFrame>, ghost counts: FrameCounts)
      requires queue.Valid() && queue.Contents() == PutAll(q, []) && Counted(frameCounts, counts, [])
      modifies this`cnt100ms, this`cnt1000ms, this`frameCounts, queue, queue.slots
      ensures queue.Valid()
      ensures var sent := EveryTick(d) + if Ends100ms(old(State())) then Every100ms(d) else [];
              queue.Contents() == PutAll(q, sent) && Counted(frameCounts, counts, sent)
      ensures cnt100ms == (if Ends100ms(old(State())) then 0 else Increment(old(cnt100ms)))
      ensures cnt1000ms == Increment(old(cnt1000ms))
    {
      hide PutAll, Counted, EveryTick, Every100ms;
      ghost var f := EveryTick(d);
      SendAll(EveryTick(d), q, counts, []);
      assert [] + f == f && f + [] == f;
      cnt100ms := Increment(cnt100ms);
      cnt1000ms := Increment(cnt1000ms);
      if cnt100ms >= 10 {
        cnt100ms := 0;
        SendAll(Every100ms(d), q, counts, f);
      }
    }

    /** The 1000 ms group, after `sent`. */
    method SendSlow(d: MasterData, ghost q: seq<CanFrame>, ghost counts: FrameCounts, ghost sent: seq<CanFrame>)
      requires queue.Valid() && queue.Contents() == PutAll(q, sent) && Counted(frameCounts, counts, sent)
      modifies this`cnt1000ms, this`frameCounts, queue, queue.slots
      ensures queue.Valid()
      ensures var sent' := sent + if old(cnt1000ms) >= 100 then Every1000ms(d) else [];
              queue.Contents() == PutAll(q, sent') && Counted(frameCounts, counts, sent')
      ensures cnt1000ms == if old(cnt1000ms) >= 100 then 0 else old(cnt1000ms)
    {
      hide PutAll, Counted, Every1000ms;
      assert sent + [] == sent;
      if cnt1000ms >= 100 {
        cnt1000ms := 0;
        SendAll(Every1000ms(d), q, counts, sent);
      }
    }

    /** The once-a-second part: the 10 s group and the report. */
    method EndTick(d: MasterData, ghost q: seq<CanFrame>, ghost counts: FrameCounts, ghost sent: seq<CanFrame>)
      requires queue.Valid() && queue.Contents() == PutAll(q, sent) && Counted(frameCounts, counts, sent)
      modifies this`cnt1s, this`cntUnassign, this`frameCounts, this`prevFrames, this`printed, queue, queue.slots
      ensures queue.Valid()
      ensures var sent' := sent + if Ends10s(old(State())) then Every10s(d) else [];
              && queue.Contents() == PutAll(q, sent') && Counted(frameCounts, counts, sent')
      ensures Ends1s(old(State())) ==>
                prevFrames == frameCounts && printed == Differences(frameCounts, old(prevFrames))
      ensures !Ends1s(old(State())) ==> prevFrames == old(prevFrames) && printed == old(printed)
      ensures cnt1s == Advance(old(State())).cnt1s && cntUnassign == Advance(old(State())).cntUnassign
    {
      hide PutAll, Counted, Differences, Every10s;
      assert sent + [] == sent;
      cnt1s := Increment(cnt1s);
      if cnt1s >= 100 {
        cnt1s := 0;
        cntUnassign := Increment(cntUnassign);
        if cntUnassign >= 10 {
          cntUnassign := 0;
          SendAll(Every10s(d), q, counts, sent);
        }
        printed := Differences(frameCounts, prevFrames);
        prevFrames := frameCounts;
      }
    }

    /** The 10 ms, 100 ms and 1000 ms groups. */
    method SendTimed(d: MasterData, ghost q: seq<CanFrame>, ghost counts: FrameCounts)
      requires queue.Valid() && queue.Contents() == PutAll(q, []) && Counted(frameCounts, counts, [])
      modifies this`cnt100ms, this`cnt1000ms, this`frameCounts, queue, queue.slots
      ensures queue.Valid()
      ensures var sent := DueInTime(old(State()), d);
              queue.Contents() == PutAll(q, sent) && Counted(frameCounts, counts, sent)
      ensures State() == Advance(old(State())).(cnt1s := old(cnt1s), cntUnassign := old(cntUnassign))
    {
      hide PutAll, Counted, EveryTick, Every100ms, Every1000ms;
      ghost var c := State();
      SendFast(d, q, counts);
      SendSlow(d, q, counts, EveryTick(d) + if Ends100ms(c) then Every100ms(d) else []);
    }

    method ActivePass(d: MasterData)
      requires queue.Valid()
      modifies this, queue, queue.slots
      ensures queue.Valid() && State() == Advance(old(State()))
      ensures queue.Contents() == PutAll(old(queue.Contents()), Due(old(State()), d))
      ensures AllTicked(old(AllMeters()), AllMeters(), Due(old(State()), d), Ends1s(old(State())))
    {
      hide PutAll, Counted, AllTicked, Differences, DueInTime, Every10s;
      ghost var q, m, c := queue.Contents(), AllMeters(), State();
      NothingSent(q, frameCounts);
      SendTimed(d, q, m.counts);
      EndTick(d, q, m.counts, DueInTime(c, d));
      MetersTick(m, frameCounts, Due(c, d), Ends1s(c));
    }

    /** One turn of the loop, after its sleep. */
    method Pass(input: TickIn)
      requires queue.Valid()
      modifies this, queue, queue.slots
      ensures queue.Valid()
      ensures var (c, frames, report) := Tick(old(State()), input);
              && State() == c
              && queue.Contents() == PutAll(old(queue.Contents()), frames)
              && AllTicked(old(AllMeters()), AllMeters(), frames, report)
    {
      hide PutAll, Counted, AllTicked, Advance, Due, Ends1s;
      if input.dfu {
        NothingSent(queue.Contents(), frameCounts);
        MetersTick(AllMeters(), frameCounts, [], false);
        cnt100ms := 0;
        cnt1000ms := 0;
        return;
      }
      ActivePass(input.d);
    }

    /** A press of the test button, in its own thread. */
    method TestSendAll(d: MasterData)
      requires queue.Valid()
      modifies this`frameCounts, queue, queue.slots
      ensures queue.Valid() && queue.Contents() == PutAll(old(queue.Contents()), TestFrames(d))
      ensures forall k: CanKind :: frameCounts[k] == Add32(old(frameCounts)[k], TestCount(k, d))
    {
      forall k: CanKind { CountPress(k, d); }
      hide TestFrames, TestCount, Count, PutAll;
      NothingSent(queue.Contents(), frameCounts);
      SendAll(TestFrames(d), queue.Contents(), frameCounts, []);
      assert [] + TestFrames(d) == TestFrames(d);
    }
  }

  /** The ticks of an event list. */
  function Inputs(events: seq<Event>): seq<TickIn> {
    if events == [] then []
    else
      var e := events[|events| - 1];
      Inputs(events[..|events| - 1]) + if e.Sleep? then [e.input] else []
  }

  /** The meters are those of a thread that has lived through `trace` and no test press. */
  ghost predicate MetersAfter(m: Meters, trace: seq<TickIn>) {
    forall k: CanKind :: m.At(k) == MeterAfter(k, trace)
  }

  lemma MetersNext(m: Meters, m': Meters, trace: seq<TickIn>, input: TickIn)
    requires MetersAfter(m, trace)
    requires var (_, frames, report) := Tick(CountersAfter(trace), input); AllTicked(m, m', frames, report)
    ensures MetersAfter(m', trace + [input])
  {
    hide Tick, Count, Sends, CountersAfter, MeterAfter, MeterTick;
    forall k: CanKind ensures m'.At(k) == MeterAfter(k, trace + [input]) {
      CountersInRange(trace);
      SentWhenDue(k, CountersAfter(trace), input);
      MeterNext(k, trace, input);
      ReportsIs(trace, input);
    }
  }

  lemma ReportsIs(trace: seq<TickIn>, input: TickIn)
    ensures Reports(trace + [input]) == Tick(CountersAfter(trace), input).2
  {
    assert (trace + [input])[..|trace|] == trace;
  }

  /**
   * The whole machine from power-up: sleeps in which the transmit thread takes frames, passes, and presses. The
   * object goes through exactly the states of `Backlog.Run`, and without presses its meters are `MeterAfter`.
   */
  method Life(events: seq<Event>) returns (t: PeriodicThread)
    ensures fresh(t) && t.queue.Valid()
    ensures t.State() == Run(START, events).c && t.queue.Contents() == Run(START, events).queue
    ensures !Pressed(events) ==> MetersAfter(t.AllMeters(), Inputs(events))
  {
    t := new PeriodicThread();
    for i := 0 to |events|
      invariant fresh(t) && fresh(t.queue) && fresh(t.queue.slots) && t.queue.Valid()
      invariant Follows(t, events[..i])
    {
      hide Follows;
      Happens(t, events[i], events[..i]);
      assert events[..i] + [events[i]] == events[..i + 1];
    }
    assert events[..|events|] == events;
  }

  /** One event in the life of a thread that has lived through `past`. */
  method Happens(t: PeriodicThread, e: Event, ghost past: seq<Event>)
    requires t.queue.Valid() && Follows(t, past)
    modifies t, t.queue, t.queue.slots
    ensures t.queue.Valid() && Follows(t, past + [e])
  {
    hide Run, Pressed, Inputs, AllFair, Tick, TestFrames, PutAll, MetersAfter, AllTicked;
    EventNext(past, e);
    match e {
      case Press(d) =>
        t.TestSendAll(d);
      case Sleep(removed, input) =>
        ghost var m := t.AllMeters();
        TakeFrames(t, removed);
        t.Pass(input);
        if !Pressed(past) {
          MetersNext(m, t.AllMeters(), Inputs(past), input);
        }
    }
  }

  ghost predicate Follows(t: PeriodicThread, past: seq<Event>)
    requires t.queue.Valid()
    reads t, t.queue, t.queue.slots
  {
    && t.State() == Run(START, past).c && t.queue.Contents() == Run(START, past).queue
    && (!Pressed(past) ==>
          MetersAfter(t.AllMeters(), Inputs(past)) && Run(START, past).c == CountersAfter(Inputs(past)))
  }

  /** The transmit thread at work while the periodic thread sleeps. */
  method TakeFrames(t: PeriodicThread, removed: nat)
    requires t.queue.Valid()
    modifies t.queue
    ensures t.queue.Valid() && t.queue.Contents() == Take(old(t.queue.Contents()), removed)
  {
    ghost var q := t.queue.Contents();
    var n := 0;
    while n < removed && t.queue.count > 0
      invariant t.queue.Valid() && n <= removed && n <= |q| && t.queue.Contents() == q[n..]
    {
      var frame := t.queue.Get();
      n := n + 1;
    }
  }

  lemma EventNext(past: seq<Event>, e: Event)
    ensures var next := past + [e];
            && Run(START, next) == Step(Run(START, past), e)
            && Pressed(next) == (Pressed(past) || e.Press?)
            && Inputs(next) == Inputs(past) + (if e.Sleep? then [e.input] else [])
            && (e.Sleep? ==> CountersAfter(Inputs(next)) == Tick(CountersAfter(Inputs(past)), e.input).0)
  {
    var next := past + [e];
    assert next[..|next| - 1] == past;
    if e.Sleep? {
      assert Inputs(next)[..|Inputs(next)| - 1] == Inputs(past);
    }
  }

  lemma NothingSent(q: seq<CanFrame>, counts: FrameCounts)
    ensures PutAll(q, []) == q && Counted(counts, counts, [])
  {}

  lemma SentNext(q: seq<CanFrame>, sent: seq<CanFrame>, frame: CanFrame)
    ensures PutAll(q, sent + [frame]) == Put(PutAll(q, sent), frame)
  {
    PutAllAppend(q, sent, [frame]);
    PutAllOne(PutAll(q, sent), frame);
  }

  lemma CountedNext(
    next: FrameCounts, now: FrameCounts, before: FrameCounts, sent: seq<CanFrame>, frame: CanFrame)
    requires Counted(now, before, sent)
    requires forall k: CanKind :: next[k] == Add32(now[k], Is(k, frame))
    ensures Counted(next, before, sent + [frame])
  {
    hide Count, Add32, Is;
    forall k: CanKind ensures next[k] == Add32(before[k], Count(k, sent + [frame])) {
      CountAppend(k, sent, [frame]);
      Count1(k, frame);
      AddAdd32(before[k], Count(k, sent), Is(k, frame));
    }
  }

  /** Counting the frames of a tick, and subtracting if it reports, ticks every meter. */
  lemma MetersTick(m: Meters, counts: FrameCounts, frames: seq<CanFrame>, report: bool)
    ensures Counted(counts, m.counts, frames) ==>
              AllTicked(m, if report then Meters(counts, counts, Differences(counts, m.previous))
                           else m.(counts := counts), frames, report)
  {}

  lemma {:induction false} AddAdd32(c: UInt32, a: nat, b: nat)
    ensures Add32(Add32(c, a), b) == Add32(c, a + b)
    decreases a
  {
    if a > 0 {
      AddAdd32(if c == TWO_32 - 1 then 0 else c + 1, a - 1, b);
    }
  }
}

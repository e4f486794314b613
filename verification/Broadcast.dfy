/**
 * The path as a whole: from the messages sent over RS485, through the shared store and its snapshots, the schedule
 * and the transmit queue, to the frames offered to the CAN driver. Without test-button presses.
 */
module Broadcast {
  import opened Prelude
  import opened MasterStore
  import opened Scheduler
  import opened Rates
  import C = CobsStream
  import R = Receiver
  import S = Snapshot
  import T = TxPath

  /** The frame carries the last payload of its kind among the first `m` updates. */
  predicate Newest(f: CanFrame, history: seq<MasterFrame>, m: nat) {
    m <= |history| && LastOf(Source(f.kind), history[..m]) == Some(f.content)
  }

  /** Each frame of a pass carries a valid payload of the store the pass has seen. */
  predicate CarriedBy(f: CanFrame, d: MasterData) {
    d.Get(Source(f.kind)) == Slot(f.content, true)
  }

  lemma FastGroupsCarry(d: MasterData)
    ensures forall f | f in EveryTick(d) :: CarriedBy(f, d)
    ensures forall f | f in Every100ms(d) :: CarriedBy(f, d)
    ensures forall f | f in Every10s(d) :: CarriedBy(f, d)
  {}

  lemma SlowGroupCarries(d: MasterData)
    ensures forall f | f in PedalsAndInputs(d) :: CarriedBy(f, d)
    ensures forall f | f in ProtiumStateFrame(d) :: CarriedBy(f, d)
    ensures forall f | f in ProtiumFrames(d) :: CarriedBy(f, d)
  {}

  lemma GroupsCarry(d: MasterData)
    ensures forall f | f in EveryTick(d) :: CarriedBy(f, d)
    ensures forall f | f in Every100ms(d) :: CarriedBy(f, d)
    ensures forall f | f in Every1000ms(d) :: CarriedBy(f, d)
    ensures forall f | f in Every10s(d) :: CarriedBy(f, d)
  {
    hide EveryTick, Every100ms, Every10s, PedalsAndInputs, ProtiumStateFrame, ProtiumFrames, CarriedBy;
    FastGroupsCarry(d);
    SlowGroupCarries(d);
  }

  lemma FramesCarry(c: Counters, input: TickIn)
    ensures forall f | f in Tick(c, input).1 :: CarriedBy(f, input.d) && !input.dfu
  {
    hide EveryTick, Every100ms, Every1000ms, Every10s, CarriedBy, Advance, Ends100ms, Ends1000ms, Ends10s, Ends1s;
    GroupsCarry(input.d);
  }

  /** Each active tick of the trace works on one of the snapshots, and later ticks not on earlier ones. */
  ghost predicate FromSnapshots(trace: seq<TickIn>, shots: seq<S.Shot>, taken: seq<nat>) {
    && |taken| == |trace|
    && (forall i :: 0 <= i < |trace| && !trace[i].dfu ==> taken[i] < |shots| && trace[i].d == shots[taken[i]].data)
    && (forall i, j :: 0 <= i < j < |trace| && !trace[i].dfu && !trace[j].dfu ==> taken[i] <= taken[j])
  }

  /** The ages of frames: how many updates each has seen, never fewer than the one before it. */
  ghost predicate Ages(frames: seq<CanFrame>, history: seq<MasterFrame>, ages: seq<nat>) {
    && |ages| == |frames|
    && (forall p :: 0 <= p < |frames| ==> Newest(frames[p], history, ages[p]))
    && (forall p, q :: 0 <= p < q < |frames| ==> ages[p] <= ages[q])
  }

  /** Every snapshot is sound: what it says is valid is the newest there was, and later ones are never older. */
  ghost predicate Sound(shots: seq<S.Shot>, history: seq<MasterFrame>) {
    && (forall j, k: Kind :: 0 <= j < |shots| && shots[j].data.Get(k).valid ==>
          shots[j].updates <= |history|
          && LastOf(k, history[..shots[j].updates]) == Some(shots[j].data.Get(k).value))
    && (forall i, j :: 0 <= i <= j < |shots| ==> shots[i].updates <= shots[j].updates)
  }

  ghost predicate AllUnset(d: MasterData) {
    forall k: Kind :: !d.Get(k).valid
  }

  lemma SnapshotsAreSound(d0: MasterData, readers: nat, steps: seq<S.Step>, s: S.State, blank: MasterData)
    requires S.SameShape(d0, blank) && AllUnset(d0) && S.Runs(S.Init(d0, readers), steps, s, blank, true)
    ensures Sound(s.shots, s.history)
  {
    hide S.Runs, LastOf, S.SameShape;
    S.SnapshotsAreWhole(d0, readers, steps, s, blank);
    forall j, k: Kind | 0 <= j < |s.shots| && s.shots[j].data.Get(k).valid
      ensures s.shots[j].updates <= |s.history|
      ensures LastOf(k, s.history[..s.shots[j].updates]) == Some(s.shots[j].data.Get(k).value)
    {
      S.FlagMeansNewest(d0, readers, steps, s, blank, j, k);
    }
  }

  lemma AgesAppend(
    xs: seq<CanFrame>, ys: seq<CanFrame>, history: seq<MasterFrame>, ages: seq<nat>, m: nat)
    returns (all: seq<nat>)
    requires Ages(xs, history, ages) && (forall p :: 0 <= p < |ages| ==> ages[p] <= m)
    requires forall f | f in ys :: Newest(f, history, m)
    ensures Ages(xs + ys, history, all) && (forall p :: 0 <= p < |all| ==> all[p] <= m)
  {
    hide Newest;
    all := ages + seq(|ys|, _ => m);
  }

  /** Over a whole trace, by the snapshots its ticks have seen; none with more than `limit` updates. */
  lemma {:induction false} FramesAge(
    trace: seq<TickIn>, shots: seq<S.Shot>, taken: seq<nat>, history: seq<MasterFrame>, limit: nat)
    returns (ages: seq<nat>)
    requires Sound(shots, history) && FromSnapshots(trace, shots, taken)
    requires forall i :: 0 <= i < |trace| && !trace[i].dfu ==> shots[taken[i]].updates <= limit
    ensures Ages(AllFrames(trace), history, ages) && (forall p :: 0 <= p < |ages| ==> ages[p] <= limit)
    decreases |trace|
  {
    if trace == [] {
      ages := [];
    } else {
      var last := |trace| - 1;
      var before, input := trace[..last], trace[last];
      var m := if input.dfu then limit else shots[taken[last]].updates;
      assert forall i, j :: 0 <= i <= j < |shots| ==> shots[i].updates <= shots[j].updates;
      hide Newest, Sound, Tick;
      ages := FramesAge(before, shots, taken[..last], history, m);
      TickIsNewest(CountersAfter(before), input, shots, history, if input.dfu then 0 else taken[last]);
      ages := AgesAppend(AllFrames(before), Tick(CountersAfter(before), input).1, history, ages, m);
    }
  }

  lemma TickIsNewest(c: Counters, input: TickIn, shots: seq<S.Shot>, history: seq<MasterFrame>, j: nat)
    requires Sound(shots, history) && (!input.dfu ==> j < |shots| && input.d == shots[j].data)
    ensures forall f | f in Tick(c, input).1 :: !input.dfu && Newest(f, history, shots[j].updates)
  {
    hide Tick, LastOf;
    FramesCarry(c, input);
  }

  /**
   * Every frame the thread tries to queue carries the last complete payload of its kind after some number of
   * updates of the store, and those numbers never go down.
   */
  lemma FramesAreNewest(
    d0: MasterData, readers: nat, steps: seq<S.Step>, s: S.State, blank: MasterData,
    trace: seq<TickIn>, taken: seq<nat>)
    returns (ages: seq<nat>)
    requires S.SameShape(d0, blank) && AllUnset(d0) && S.Runs(S.Init(d0, readers), steps, s, blank, true)
    requires FromSnapshots(trace, s.shots, taken)
    ensures Ages(AllFrames(trace), s.history, ages)
  {
    hide S.Runs, S.SameShape, Ages, AllFrames;
    SnapshotsAreSound(d0, readers, steps, s, blank);
    S.SnapshotsAreWhole(d0, readers, steps, s, blank);
    ages := FramesAge(trace, s.shots, taken, s.history, |s.history|);
  }

  /**
   * And so does every frame offered to the driver, whatever has been dropped on a full queue or purged: a later one
   * never carries an older payload.
   */
  lemma OfferedAreNewest(
    frames: seq<CanFrame>, history: seq<MasterFrame>, ages: seq<nat>, steps: seq<T.Step>, t: T.State)
    requires Ages(frames, history, ages) && T.Runs(T.INIT, steps, t) && t.attempted <= |frames|
    ensures forall i :: 0 <= i < |t.offered| ==> t.offered[i] < |frames|
    ensures forall i :: 0 <= i < |t.offered| ==> Newest(frames[t.offered[i]], history, ages[t.offered[i]])
    ensures forall i, j :: 0 <= i < j < |t.offered| ==> ages[t.offered[i]] <= ages[t.offered[j]]
  {
    hide T.Runs, Newest;
    T.Conservation(steps, t);
    forall i | 0 <= i < |t.offered| ensures t.offered[i] < |frames| {
      assert t.offered[i] == t.taken[i] && t.taken[i] in t.taken;
    }
    forall i, j | 0 <= i < j < |t.offered| ensures ages[t.offered[i]] <= ages[t.offered[j]] {
      assert t.offered[i] == (t.taken + t.queue)[i] && t.offered[j] == (t.taken + t.queue)[j];
    }
  }

  /**
   * From the sender to the bus, on a clean line: whatever the packets, the interleaving of receiver and snapshots,
   * the updates, and the fortunes of the queue and the bus, each frame offered to the driver carries the content of
   * the last message of its kind among the first so many messages sent, and later frames never go back.
   */
  lemma SenderToBus(
    decode: R.Codec, msgs: seq<MasterFrame>, payloads: seq<seq<Byte>>, arrivals: R.Arrivals,
    d0: MasterData, readers: nat, steps: seq<S.Step>, s: S.State, blank: MasterData,
    trace: seq<TickIn>, taken: seq<nat>, txSteps: seq<T.Step>, t: T.State)
    returns (ages: seq<nat>)
    requires R.Serialised(decode, msgs, payloads) && R.Received(arrivals) == C.Wire(payloads)
    requires S.SameShape(d0, blank) && AllUnset(d0) && S.Runs(S.Init(d0, readers), steps, s, blank, true)
    requires s.history <= R.Decoded(decode, C.FeedAll(C.IDLE, R.Received(arrivals)).1)
    requires FromSnapshots(trace, s.shots, taken)
    requires T.Runs(T.INIT, txSteps, t) && t.attempted <= |AllFrames(trace)|
    ensures |ages| == |t.offered|
    ensures forall i :: 0 <= i < |ages| ==>
      t.offered[i] < |AllFrames(trace)| && Newest(AllFrames(trace)[t.offered[i]], msgs, ages[i])
    ensures forall i, j :: 0 <= i < j < |ages| ==> ages[i] <= ages[j]
  {
    hide S.Runs, T.Runs, S.SameShape, AllFrames, FromSnapshots, R.Received, C.Wire, C.FeedAll, R.Decoded, LastOf;
    C.WireDelivers(payloads);
    R.AllDecode(decode, msgs, payloads);
    var all := FramesAreNewest(d0, readers, steps, s, blank, trace, taken);
    OfferedAreNewest(AllFrames(trace), s.history, all, txSteps, t);
    ages := seq(|t.offered|, i requires 0 <= i < |t.offered| => all[t.offered[i]]);
    forall i | 0 <= i < |ages|
      ensures t.offered[i] < |AllFrames(trace)| && Newest(AllFrames(trace)[t.offered[i]], msgs, ages[i])
    {
      assert Newest(AllFrames(trace)[t.offered[i]], s.history, ages[i]);
      assert msgs[..ages[i]] == s.history[..ages[i]];
    }
  }
}

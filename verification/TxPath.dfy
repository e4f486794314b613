/**
 * The CAN transmit path as interleaved steps: any producer, the transmit thread, the driver's completion
 * callback (at any time after an accepted send), the bus state callback and the recovery work item.
 * Frames are numbered by the attempt that queued them.
 */
module TxPath {
  import opened Prelude
  import opened MsgQueue

  /** Where the transmit thread stands. */
  datatype Pc =
    | AtGet
    | AtSend(frame: nat)
    | AtTake(frame: nat)
    | AtResult(frame: nat)

  /** One completion callback: the frame it was for and the error it reported. */
  datatype Callback = Callback(frame: nat, error: int)

  datatype State = State(
    // Fields of the firmware.
    queue: seq<nat>, pc: Pc, sem: nat, result: int, txOk: UInt32,
    pending: bool, running: bool,
    // What has happened so far.
    attempted: nat, dropped: set<nat>, purged: set<nat>, taken: seq<nat>, offered: seq<nat>,
    outstanding: set<nat>, accepted: nat, callbacks: seq<Callback>, tokens: nat, lost: nat, timeouts: nat,
    counted: seq<nat>,
    // Callbacks that came when the thread was not waiting for their frame.
    late: nat,
    // A bus-off that no recovery attempt has answered yet, and whether it came during the current attempt.
    busOff: bool, sinceStart: bool)

  datatype Step =
    | Enqueue
    | Dequeue
    | SendAccepted
    | SendRefused
    | Complete(frame: nat, error: int)
    | TakeToken
    | TimeOut
    | ReadResult
    | BusOff
    | RecoveryStarts
    | RecoveryEnds(ok: bool)

  const INIT := State(
    [], AtGet, 0, 0, 0, false, false, 0, {}, {}, [], [], {}, 0, [], 0, 0, 0, [], 0, false, false)

  predicate Enabled(s: State, step: Step) {
    match step
    case Enqueue => true
    case Dequeue => s.pc.AtGet? && s.queue != []
    case SendAccepted => s.pc.AtSend?
    case SendRefused => s.pc.AtSend?
    case Complete(f, _) => f in s.outstanding
    case TakeToken => s.pc.AtTake? && s.sem > 0
    case TimeOut => s.pc.AtTake? && s.sem == 0
    case ReadResult => s.pc.AtResult?
    case BusOff => true
    case RecoveryStarts => s.pending && !s.running
    case RecoveryEnds(_) => s.running
  }

  function Do(s: State, step: Step): State
    requires Enabled(s, step)
  {
    match step
    case Enqueue =>
      var queue := Put(s.queue, s.attempted);
      s.(queue := queue, attempted := s.attempted + 1,
         dropped := s.dropped + if queue == s.queue then {s.attempted} else {})
    case Dequeue => s.(queue := s.queue[1..], pc := AtSend(s.queue[0]), taken := s.taken + [s.queue[0]])
    case SendAccepted =>
      s.(pc := AtTake(s.pc.frame), offered := s.offered + [s.pc.frame],
         outstanding := s.outstanding + {s.pc.frame}, accepted := s.accepted + 1)
    case SendRefused => s.(pc := AtGet, offered := s.offered + [s.pc.frame])
    case Complete(f, error) =>
      // A binary semaphore: a second give is lost.
      s.(outstanding := s.outstanding - {f}, callbacks := s.callbacks + [Callback(f, error)], result := error,
         sem := 1, lost := s.lost + s.sem, late := s.late + if s.pc == AtTake(f) then 0 else 1)
    case TakeToken => s.(pc := AtResult(s.pc.frame), sem := s.sem - 1, tokens := s.tokens + 1)
    case TimeOut => s.(pc := AtGet, timeouts := s.timeouts + 1)
    case ReadResult =>
      if s.result != 0 then s.(pc := AtGet)
      else s.(pc := AtGet, txOk := (s.txOk + 1) % TWO_32, counted := s.counted + [s.pc.frame])
    case BusOff =>
      s.(queue := [], purged := s.purged + Elements(s.queue), pending := true, busOff := true, sinceStart := true)
    case RecoveryStarts => s.(pending := false, running := true, sinceStart := false)
    case RecoveryEnds(ok) =>
      // Success is a return of 0 or -ENOTSUP; anything else reschedules the work.
      if ok then s.(running := false, busOff := s.sinceStart) else s.(running := false, pending := true)
  }

  function Elements(q: seq<nat>): set<nat> {
    set f | f in q
  }

  predicate Runs(s: State, steps: seq<Step>, t: State)
    decreases |steps|
  {
    if steps == [] then s == t
    else Enabled(s, steps[0]) && Runs(Do(s, steps[0]), steps[1..], t)
  }

  // ---------------------------------------------------------------- conservation and order

  predicate Increasing(q: seq<nat>) {
    forall i, j | 0 <= i < j < |q| :: q[i] < q[j]
  }

  /** The thread's frame in hand is the last one taken; every other taken frame went to `can_send`. */
  ghost predicate HandInv(s: State) {
    if s.pc.AtSend? then s.taken == s.offered + [s.pc.frame] else s.taken == s.offered
  }

  /** Every attempt is in exactly one place, and what is or was queued is in order of attempt. */
  ghost predicate PlaceInv(s: State) {
    && Increasing(s.taken + s.queue)
    && (forall f: nat :: f < s.attempted <==> f in s.dropped || f in s.purged || f in s.taken || f in s.queue)
    && (forall f | f in s.dropped :: f !in s.purged && f !in s.taken && f !in s.queue)
    && (forall f | f in s.purged :: f !in s.taken && f !in s.queue)
    && s.attempted == |s.dropped| + |s.purged| + |s.taken| + |s.queue|
  }

  // ---------------------------------------------------------------- the completion handshake

  function OkFrames(callbacks: seq<Callback>): seq<nat> {
    if callbacks == [] then []
    else
      var c := callbacks[|callbacks| - 1];
      OkFrames(callbacks[..|callbacks| - 1]) + if c.error == 0 then [c.frame] else []
  }

  /** Tokens given are taken, waiting, or lost; sends accepted are completed or outstanding, and are waited for,
      taken, or timed out. */
  ghost predicate TokenInv(s: State) {
    && s.sem <= 1
    && |s.callbacks| == s.tokens + s.sem + s.lost
    && s.accepted == |s.callbacks| + |s.outstanding|
    && s.accepted == s.tokens + s.timeouts + (if s.pc.AtTake? then 1 else 0)
    && (forall f | f in s.outstanding :: f in s.offered)
    && s.accepted <= |s.offered|
    && |s.counted| + (if s.pc.AtResult? then 1 else 0) <= s.tokens
    && (s.timeouts == 0 ==> s.lost == 0)
    && |s.queue| <= CAPACITY
  }

  ghost predicate CounterInv(s: State) {
    s.txOk == |s.counted| % TWO_32
  }

  /** As long as no callback was late, each token is for the frame being waited for, and so is the last result. */
  ghost predicate PromptInv(s: State) {
    match s.pc
    case AtGet => s.sem == 0 && s.counted == OkFrames(s.callbacks)
    case AtSend(_) => s.sem == 0 && s.counted == OkFrames(s.callbacks)
    case AtTake(f) => if s.sem == 0 then s.counted == OkFrames(s.callbacks) else f !in s.outstanding && LastIs(s, f)
    case AtResult(f) => s.sem == 0 && LastIs(s, f)
  }

  /** Without timeouts only the frame being waited for is outstanding, so no callback is late. */
  ghost predicate QuietInv(s: State) {
    s.late == 0 && (s.pc.AtTake? && s.sem == 0 ==> s.outstanding == {s.pc.frame})
  }

  /** No frame has a second callback to come. */
  ghost predicate CallbackInv(s: State) {
    forall f | f in OkFrames(s.callbacks) :: f in s.offered && f !in s.outstanding
  }

  ghost predicate LastIs(s: State, f: nat) {
    && s.callbacks != []
    && s.callbacks[|s.callbacks| - 1] == Callback(f, s.result)
    && s.counted == OkFrames(s.callbacks[..|s.callbacks| - 1])
  }

  /** The work is pending or running exactly until an attempt that started after the last bus-off succeeds. */
  ghost predicate RecoveryInv(s: State) {
    && (s.busOff <==> s.pending || s.running)
    && (s.sinceStart && s.busOff ==> s.pending)
    && (s.running && s.pending ==> s.sinceStart)
  }

  ghost predicate Inv(s: State) {
    && HandInv(s) && PlaceInv(s) && TokenInv(s) && CounterInv(s) && RecoveryInv(s) && CallbackInv(s)
    && (s.late == 0 ==> PromptInv(s)) && (s.timeouts == 0 ==> QuietInv(s))
  }

  lemma StepKeepsHand(s: State, step: Step)
    requires HandInv(s) && Enabled(s, step)
    ensures HandInv(Do(s, step))
  {
    hide PlaceInv, TokenInv, CounterInv, PromptInv, QuietInv, CallbackInv, RecoveryInv, Put, Elements;
  }

  lemma IncreasingParts(a: seq<nat>, b: seq<nat>)
    requires Increasing(a + b)
    ensures Increasing(a) && Increasing(b)
    ensures forall f | f in a :: f !in b
  {
    forall i, j | 0 <= i < j < |a| ensures a[i] < a[j] {
      assert (a + b)[i] < (a + b)[j];
    }
    forall i, j | 0 <= i < j < |b| ensures b[i] < b[j] {
      assert (a + b)[|a| + i] < (a + b)[|a| + j];
    }
    forall i, j | 0 <= i < |a| && 0 <= j < |b| ensures a[i] < b[j] {
      assert (a + b)[i] < (a + b)[|a| + j];
    }
  }

  lemma {:induction false} ElementsCount(q: seq<nat>)
    requires Increasing(q)
    ensures |Elements(q)| == |q|
  {
    if q != [] {
      var r, last := q[..|q| - 1], q[|q| - 1];
      ElementsCount(r);
      assert q == r + [last];
      assert Elements(q) == Elements(r) + {last};
      assert last !in r;
    }
  }

  lemma EnqueueKeepsPlace(s: State)
    requires PlaceInv(s) && HandInv(s)
    ensures PlaceInv(Do(s, Enqueue))
  {
    var t, q := Do(s, Enqueue), s.taken + s.queue;
    forall i | 0 <= i < |q| ensures q[i] < s.attempted {
      assert q[i] in s.taken || q[i] in s.queue;
    }
    if |s.queue| < CAPACITY {
      assert t.taken + t.queue == q + [s.attempted];
    } else {
      assert t.taken + t.queue == q;
    }
  }

  lemma PurgeKeepsPlace(s: State)
    requires PlaceInv(s)
    ensures PlaceInv(Do(s, BusOff))
  {
    IncreasingParts(s.taken, s.queue);
    assert s.taken + [] == s.taken;
    ElementsCount(s.queue);
    assert s.purged !! Elements(s.queue);
  }

  lemma DequeueKeepsPlace(s: State)
    requires PlaceInv(s) && Enabled(s, Dequeue)
    ensures PlaceInv(Do(s, Dequeue))
  {
    var t := Do(s, Dequeue);
    assert t.taken + t.queue == s.taken + s.queue;
    assert s.queue == [s.queue[0]] + s.queue[1..];
    forall f ensures f in t.taken || f in t.queue <==> f in s.taken || f in s.queue {
      assert f in t.taken + t.queue <==> f in s.taken + s.queue;
    }
  }

  lemma StepKeepsPlace(s: State, step: Step)
    requires HandInv(s) && PlaceInv(s) && Enabled(s, step)
    ensures PlaceInv(Do(s, step))
  {
    hide TokenInv, CounterInv, PromptInv, QuietInv, CallbackInv, RecoveryInv, PlaceInv, Put, Elements;
    match step {
      case Enqueue => EnqueueKeepsPlace(s);
      case Dequeue => DequeueKeepsPlace(s);
      case BusOff => PurgeKeepsPlace(s);
      case _ => OtherKeepsPlace(s, step);
    }
  }

  lemma OtherKeepsPlace(s: State, step: Step)
    requires PlaceInv(s) && Enabled(s, step) && !step.Enqueue? && !step.Dequeue? && !step.BusOff?
    ensures PlaceInv(Do(s, step))
  {
    hide Increasing;
  }

  /** The frame in hand has never been offered before, so its callback cannot be outstanding. */
  lemma HandIsNew(s: State)
    requires HandInv(s) && PlaceInv(s) && TokenInv(s) && s.pc.AtSend?
    ensures s.pc.frame !in s.offered && s.pc.frame !in s.outstanding
  {
    IncreasingParts(s.taken, s.queue);
    IncreasingParts(s.offered, [s.pc.frame]);
    assert s.pc.frame in [s.pc.frame];
  }

  lemma StepKeepsTokens(s: State, step: Step)
    requires HandInv(s) && PlaceInv(s) && TokenInv(s) && Enabled(s, step)
    ensures TokenInv(Do(s, step))
  {
    hide HandInv, PlaceInv, CounterInv, PromptInv, QuietInv, CallbackInv, RecoveryInv, Elements;
    match step {
      case SendAccepted => AcceptKeepsTokens(s);
      case SendRefused => RefuseKeepsTokens(s);
      case Complete(f, error) => CompleteKeepsTokens(s, f, error);
      case _ => OtherKeepsTokens(s, step);
    }
  }

  lemma OtherKeepsTokens(s: State, step: Step)
    requires TokenInv(s) && Enabled(s, step) && !step.SendAccepted? && !step.SendRefused? && !step.Complete?
    ensures TokenInv(Do(s, step))
  {
    hide Elements;
    match step {
      case Enqueue =>
      case Dequeue =>
      case TakeToken =>
      case TimeOut =>
      case ReadResult =>
      case BusOff =>
      case RecoveryStarts =>
      case RecoveryEnds(_) =>
    }
  }

  lemma AcceptKeepsTokens(s: State)
    requires HandInv(s) && PlaceInv(s) && TokenInv(s) && s.pc.AtSend?
    ensures TokenInv(Do(s, SendAccepted))
  {
    HandIsNew(s);
    hide HandInv, PlaceInv;
    var f, t := s.pc.frame, Do(s, SendAccepted);
    assert |t.outstanding| == |s.outstanding| + 1;
    forall g | g in t.outstanding ensures g in t.offered {
      assert g == f || g in s.offered;
    }
  }

  lemma RefuseKeepsTokens(s: State)
    requires TokenInv(s) && s.pc.AtSend?
    ensures TokenInv(Do(s, SendRefused))
  {
    var t := Do(s, SendRefused);
    forall g | g in t.outstanding ensures g in t.offered {
      assert g in s.offered;
    }
  }

  lemma CompleteKeepsTokens(s: State, f: nat, error: int)
    requires TokenInv(s) && f in s.outstanding
    ensures TokenInv(Do(s, Complete(f, error)))
  {
    assert |s.outstanding - {f}| == |s.outstanding| - 1;
  }

  lemma StepKeepsCounter(s: State, step: Step)
    requires CounterInv(s) && Enabled(s, step)
    ensures CounterInv(Do(s, step))
  {
    hide Put, Elements;
    CountWraps(|s.counted|);
  }

  lemma CountWraps(n: nat)
    ensures (n % TWO_32 + 1) % TWO_32 == (n + 1) % TWO_32
  {}

  lemma OkNext(callbacks: seq<Callback>, c: Callback)
    ensures OkFrames(callbacks + [c]) == OkFrames(callbacks) + if c.error == 0 then [c.frame] else []
  {
    assert (callbacks + [c])[..|callbacks|] == callbacks;
  }

  /** Without timeouts nothing is outstanding and no token waits unless the thread is waiting for one. */
  lemma QuietUnlessWaiting(s: State)
    requires TokenInv(s) && s.timeouts == 0
    ensures s.lost == 0
    ensures s.sem + |s.outstanding| == if s.pc.AtTake? then 1 else 0
    ensures !s.pc.AtTake? ==> s.outstanding == {}
  {}

  lemma StepKeepsPrompt(s: State, step: Step)
    requires TokenInv(s) && PromptInv(s) && Enabled(s, step) && Do(s, step).late == 0
    ensures PromptInv(Do(s, step))
  {
    assert s.sem <= 1;
    hide HandInv, PlaceInv, TokenInv, CounterInv, RecoveryInv, CallbackInv, QuietInv, OkFrames, Elements, Put;
    match step {
      case Complete(f, error) => CompleteKeepsPrompt(s, f, error);
      case ReadResult => ResultKeepsPrompt(s);
      case _ => OtherKeepsPrompt(s, step);
    }
  }

  lemma OtherKeepsPrompt(s: State, step: Step)
    requires PromptInv(s) && s.sem <= 1 && Enabled(s, step) && !step.Complete? && !step.ReadResult?
    ensures PromptInv(Do(s, step))
  {
    hide OkFrames, Elements, Put;
    match step {
      case SendAccepted =>
      case TakeToken =>
      case Dequeue =>
      case SendRefused =>
      case TimeOut =>
      case _ =>
    }
  }

  lemma CompleteKeepsPrompt(s: State, f: nat, error: int)
    requires f in s.outstanding && PromptInv(s) && s.pc == AtTake(f)
    ensures PromptInv(Do(s, Complete(f, error)))
  {
    hide OkFrames;
    var c := Callback(f, error);
    assert (s.callbacks + [c])[..|s.callbacks|] == s.callbacks;
  }

  lemma ResultKeepsPrompt(s: State)
    requires s.pc.AtResult? && PromptInv(s)
    ensures PromptInv(Do(s, ReadResult))
  {
    hide OkFrames;
    var all, last := s.callbacks, |s.callbacks| - 1;
    assert all == all[..last] + [all[last]];
    OkNext(all[..last], all[last]);
    assert OkFrames(all[..last]) + [] == OkFrames(all[..last]);
  }

  lemma StepKeepsQuiet(s: State, step: Step)
    requires TokenInv(s) && QuietInv(s) && Enabled(s, step) && Do(s, step).timeouts == 0
    ensures QuietInv(Do(s, step))
  {
    TimeoutsOnlyGrow(s, step);
    QuietUnlessWaiting(s);
    hide HandInv, PlaceInv, TokenInv, CounterInv, RecoveryInv, CallbackInv, PromptInv, QuietInv, Elements, Put;
    match step {
      case TimeOut => assert false;
      case SendAccepted => assert s.outstanding + {s.pc.frame} == {s.pc.frame}; OtherKeepsQuiet(s, step);
      case Complete(f, error) => CompleteKeepsQuiet(s, f, error);
      case _ => OtherKeepsQuiet(s, step);
    }
  }

  lemma CompleteKeepsQuiet(s: State, f: nat, error: int)
    requires QuietInv(s) && s.sem + |s.outstanding| == (if s.pc.AtTake? then 1 else 0) && f in s.outstanding
    ensures QuietInv(Do(s, Complete(f, error)))
  {
    assert |s.outstanding - {f}| == |s.outstanding| - 1;
  }

  lemma OtherKeepsQuiet(s: State, step: Step)
    requires QuietInv(s) && Enabled(s, step) && !step.TimeOut? && !step.Complete?
    requires step.SendAccepted? ==> s.outstanding + {s.pc.frame} == {s.pc.frame}
    ensures QuietInv(Do(s, step))
  {
    hide Elements, Put;
  }

  lemma StepKeepsCallbacks(s: State, step: Step)
    requires HandInv(s) && PlaceInv(s) && TokenInv(s) && CallbackInv(s) && Enabled(s, step)
    ensures CallbackInv(Do(s, step))
  {
    hide CounterInv, RecoveryInv, PromptInv, QuietInv, CallbackInv, OkFrames, Elements, Put;
    match step {
      case SendAccepted => HandIsNew(s); OtherKeepsCallbacks(s, step);
      case Complete(f, error) => CompleteKeepsCallbacks(s, f, error);
      case _ => OtherKeepsCallbacks(s, step);
    }
  }

  lemma CompleteKeepsCallbacks(s: State, f: nat, error: int)
    requires CallbackInv(s) && f in s.outstanding && f in s.offered
    ensures CallbackInv(Do(s, Complete(f, error)))
  {
    OkNext(s.callbacks, Callback(f, error));
    hide OkFrames;
  }

  lemma OtherKeepsCallbacks(s: State, step: Step)
    requires CallbackInv(s) && Enabled(s, step) && !step.Complete?
    requires step.SendAccepted? ==> s.pc.frame !in s.offered
    ensures CallbackInv(Do(s, step))
  {
    hide OkFrames, Elements, Put;
  }

  lemma StepKeepsRecovery(s: State, step: Step)
    requires RecoveryInv(s) && Enabled(s, step)
    ensures RecoveryInv(Do(s, step))
  {}

  lemma StepKeepsInv(s: State, step: Step)
    requires Inv(s) && Enabled(s, step)
    ensures Inv(Do(s, step))
  {
    StepKeepsHand(s, step);
    StepKeepsPlace(s, step);
    StepKeepsTokens(s, step);
    StepKeepsCounter(s, step);
    StepKeepsRecovery(s, step);
    StepKeepsCallbacks(s, step);
    TimeoutsOnlyGrow(s, step);
    assert Do(s, step).late == 0 ==> PromptInv(s);
    assert Do(s, step).timeouts == 0 ==> QuietInv(s);
    hide Do, Enabled, HandInv, PlaceInv, TokenInv, CounterInv, PromptInv, QuietInv, CallbackInv, RecoveryInv;
    if Do(s, step).late == 0 {
      StepKeepsPrompt(s, step);
    }
    if Do(s, step).timeouts == 0 {
      StepKeepsQuiet(s, step);
    }
  }

  lemma TimeoutsOnlyGrow(s: State, step: Step)
    requires Enabled(s, step)
    ensures Do(s, step).timeouts >= s.timeouts && Do(s, step).late >= s.late
  {
    hide Put, Elements;
  }

  lemma {:induction false} RunKeepsInv(s: State, steps: seq<Step>, t: State)
    requires Inv(s) && Runs(s, steps, t)
    ensures Inv(t)
    decreases |steps|
  {
    hide Inv, Do, Enabled;
    if steps != [] {
      StepKeepsInv(s, steps[0]);
      RunKeepsInv(Do(s, steps[0]), steps[1..], t);
    }
  }

  lemma IsInv(s: State)
    requires HandInv(s) && PlaceInv(s) && TokenInv(s) && CounterInv(s) && RecoveryInv(s) && CallbackInv(s)
    requires PromptInv(s) && QuietInv(s)
    ensures Inv(s)
  {
    hide HandInv, PlaceInv, TokenInv, CounterInv, PromptInv, QuietInv, CallbackInv, RecoveryInv;
  }

  lemma InitTokens()
    ensures TokenInv(INIT)
  {}

  lemma InitRest()
    ensures HandInv(INIT) && CounterInv(INIT) && RecoveryInv(INIT) && QuietInv(INIT)
  {}

  lemma InitPlace()
    ensures PlaceInv(INIT)
  {}

  lemma InitCallbacks()
    ensures CallbackInv(INIT) && PromptInv(INIT)
  {
    NoCallbacks();
    hide OkFrames;
  }

  lemma Reached(steps: seq<Step>, t: State)
    requires Runs(INIT, steps, t)
    ensures Inv(t)
  {
    InitPlace();
    InitCallbacks();
    InitTokens();
    InitRest();
    hide *;
    IsInv(INIT);
    RunKeepsInv(INIT, steps, t);
  }

  // ---------------------------------------------------------------- what holds over every run

  /**
   * Every attempt was dropped on a full queue, purged by a bus-off, is still queued, or was taken; frames are
   * taken in the order of the attempts; and all of those but the one in hand were offered to the driver.
   */
  lemma Conservation(steps: seq<Step>, t: State)
    requires Runs(INIT, steps, t)
    ensures t.attempted == |t.dropped| + |t.purged| + |t.queue| + |t.taken|
    ensures t.dropped !! t.purged !! (set f | f in t.taken) !! (set f | f in t.queue)
    ensures Increasing(t.taken + t.queue) && |t.queue| <= 32
    ensures forall f: nat :: f < t.attempted <==> f in t.dropped || f in t.purged || f in t.taken || f in t.queue
    ensures t.taken == t.offered + if t.pc.AtSend? then [t.pc.frame] else []
  {
    hide Runs, Increasing, OkFrames;
    Reached(steps, t);
    IncreasingParts(t.taken, t.queue);
  }

  /** Whatever happens, no success without a callback, no callback without a send, no send without a frame taken. */
  lemma Handshake(steps: seq<Step>, t: State)
    requires Runs(INIT, steps, t)
    ensures |t.counted| <= |t.callbacks| <= t.accepted <= |t.offered| <= |t.taken|
    ensures t.txOk == |t.counted| % TWO_32
  {
    hide Runs, Increasing, OkFrames;
    Reached(steps, t);
  }

  /**
   * Where stale tokens come from: at a loop head the tokens waiting, the tokens lost and the callbacks still to
   * come are together exactly the sends that timed out.
   */
  lemma StaleTokens(steps: seq<Step>, t: State)
    requires Runs(INIT, steps, t)
    ensures t.sem + t.lost + |t.outstanding| == t.timeouts + if t.pc.AtTake? then 1 else 0
  {
    hide Runs, Increasing, OkFrames;
    Reached(steps, t);
  }

  /** As long as no callback was late the count is exact, frame by frame, however many waits have timed out. */
  lemma ExactUnlessLate(steps: seq<Step>, t: State)
    requires Runs(INIT, steps, t) && t.late == 0
    ensures t.pc.AtGet? ==> t.sem == 0 && t.counted == OkFrames(t.callbacks)
  {
    hide Runs, Increasing, OkFrames;
    Reached(steps, t);
  }

  /** In particular without timeouts, when no callback can be late. */
  lemma ExactWithoutTimeouts(steps: seq<Step>, t: State)
    requires Runs(INIT, steps, t) && t.timeouts == 0
    ensures t.late == 0 && |t.outstanding| <= 1
    ensures t.pc.AtGet? ==> t.sem == 0 && t.outstanding == {} && t.counted == OkFrames(t.callbacks)
  {
    hide Runs, Increasing, OkFrames;
    Reached(steps, t);
    QuietUnlessWaiting(t);
    ExactUnlessLate(steps, t);
  }

  // ---------------------------------------------------------------- recovery

  /** The recovery work is pending or running in just those states where a bus-off is unanswered. */
  lemma RecoveryWhenOwed(steps: seq<Step>, t: State)
    requires Runs(INIT, steps, t)
    ensures t.busOff <==> t.pending || t.running
  {
    hide Runs, Increasing, OkFrames;
    Reached(steps, t);
  }

  /** Does an attempt start and, after it, one succeed? */
  predicate Answered(steps: seq<Step>) {
    exists i, j :: 0 <= i < j < |steps| && steps[i] == RecoveryStarts && steps[j] == RecoveryEnds(true)
  }

  /** From a bus-off on, until an attempt has started after it and succeeded, the work is pending or running. */
  lemma RecoveryNeverForgotten(s: State, future: seq<Step>, t: State)
    requires Runs(Do(s, BusOff), future, t) && !Answered(future)
    ensures t.pending || t.running
  {
    hide Runs, Answered;
    PendingUntilAnswered(Do(s, BusOff), future, t);
  }

  lemma {:induction false} PendingUntilAnswered(s: State, steps: seq<Step>, t: State)
    requires s.pending && Runs(s, steps, t) && !Answered(steps)
    ensures t.pending || t.running
    decreases |steps|
  {
    if steps != [] {
      var rest := steps[1..];
      hide Put, Elements;
      if steps[0] == RecoveryStarts {
        forall j | 0 <= j < |rest| ensures rest[j] != RecoveryEnds(true) {
          assert steps[0] == RecoveryStarts && rest[j] == steps[j + 1];
        }
        OwedUntilSuccess(Do(s, steps[0]), rest, t);
      } else {
        assert forall j :: 0 <= j < |rest| ==> rest[j] == steps[j + 1];
        PendingUntilAnswered(Do(s, steps[0]), rest, t);
      }
    }
  }

  lemma {:induction false} OwedUntilSuccess(s: State, steps: seq<Step>, t: State)
    requires (s.pending || s.running) && Runs(s, steps, t)
    requires forall j :: 0 <= j < |steps| ==> steps[j] != RecoveryEnds(true)
    ensures t.pending || t.running
    decreases |steps|
  {
    if steps != [] {
      hide Put, Elements;
      OwedUntilSuccess(Do(s, steps[0]), steps[1..], t);
    }
  }

  /** Once an attempt that no bus-off has interrupted succeeds, there is no more recovery until the next bus-off. */
  lemma RecoverySettles(s: State, during: seq<Step>, m: State, future: seq<Step>, t: State)
    requires Enabled(s, RecoveryStarts) && Runs(Do(s, RecoveryStarts), during, m)
    requires BusOff !in during && RecoveryEnds(true) !in during && RecoveryEnds(false) !in during
    requires Enabled(m, RecoveryEnds(true)) && Runs(Do(m, RecoveryEnds(true)), future, t) && BusOff !in future
    ensures !t.pending && !t.running
  {
    hide Runs;
    NoNewWork(Do(s, RecoveryStarts), during, m);
    NoNewWork(Do(m, RecoveryEnds(true)), future, t);
  }

  /** Only a bus-off or a failed attempt asks for more work. */
  lemma {:induction false} NoNewWork(s: State, steps: seq<Step>, t: State)
    requires !s.pending && Runs(s, steps, t) && BusOff !in steps
    requires s.running ==> RecoveryEnds(false) !in steps
    ensures !t.pending && (t.running ==> s.running)
    decreases |steps|
  {
    if steps != [] {
      assert steps[0] in steps && forall e :: e in steps[1..] ==> e in steps;
      AsksForNoWork(s, steps[0]);
      hide Do, Enabled;
      NoNewWork(Do(s, steps[0]), steps[1..], t);
    }
  }

  lemma AsksForNoWork(s: State, step: Step)
    requires !s.pending && Enabled(s, step) && step != BusOff && step != RecoveryEnds(false)
    ensures !Do(s, step).pending && (Do(s, step).running ==> s.running)
  {
    hide Put, Elements;
  }

  /** In every reachable state recovery can be completed, and nothing but its own flags changes. */
  lemma CanRecover(past: seq<Step>, s: State) returns (steps: seq<Step>, t: State)
    requires Runs(INIT, past, s)
    ensures Runs(s, steps, t) && !t.busOff && !t.pending && !t.running
    ensures t == s.(pending := false, running := false, busOff := false, sinceStart := t.sinceStart)
  {
    RecoveryWhenOwed(past, s);
    steps, t := [], s;
    EmptyRun(s);
    hide Runs;
    if s.pending {
      steps, t := AttemptSucceeds(s.(running := false));
    }
    if s.running {
      if !s.pending {
        steps, t := [], Do(s, RecoveryEnds(true));
        EmptyRun(t);
        RecoverySinceStart(past, s);
      } else {
        steps, t := AttemptSucceeds(Do(s, RecoveryEnds(true)));
      }
      FirstStep(s, RecoveryEnds(true), steps, t);
      steps := [RecoveryEnds(true)] + steps;
    }
  }

  lemma RecoverySinceStart(steps: seq<Step>, t: State)
    requires Runs(INIT, steps, t) && t.busOff && !t.pending
    ensures !t.sinceStart
  {
    hide Runs, Increasing, OkFrames;
    Reached(steps, t);
  }

  lemma AttemptSucceeds(s: State) returns (steps: seq<Step>, t: State)
    requires s.pending && !s.running
    ensures Runs(s, steps, t) && t == s.(pending := false, busOff := false, sinceStart := false)
  {
    hide Runs;
    var u := Do(s, RecoveryStarts);
    t := Do(u, RecoveryEnds(true));
    EmptyRun(t);
    FirstStep(u, RecoveryEnds(true), [], t);
    FirstStep(s, RecoveryStarts, [RecoveryEnds(true)] + [], t);
    steps := [RecoveryStarts] + ([RecoveryEnds(true)] + []);
  }

  lemma EmptyRun(s: State)
    ensures Runs(s, [], s)
  {}

  lemma FirstStep(s: State, step: Step, steps: seq<Step>, t: State)
    requires Enabled(s, step) && Runs(Do(s, step), steps, t)
    ensures Runs(s, [step] + steps, t)
  {
    hide Do, Enabled;
    assert ([step] + steps)[1..] == steps;
  }

  // ---------------------------------------------------------------- progress

  /** The thread always gets back to the loop head, without any callback; the frame in hand has been offered. */
  lemma CanReachLoopHead(s: State) returns (steps: seq<Step>, t: State)
    ensures Runs(s, steps, t) && t.pc.AtGet? && t.queue == s.queue && t.taken == s.taken
    ensures t.callbacks == s.callbacks
    ensures t.offered == s.offered + if s.pc.AtSend? then [s.pc.frame] else []
  {
    hide Runs;
    EmptyRun(s);
    steps, t := [], s;
    if s.pc.AtTake? && s.sem > 0 {
      var u := Do(s, TakeToken);
      t := Do(u, ReadResult);
      EmptyRun(t);
      FirstStep(u, ReadResult, [], t);
      FirstStep(s, TakeToken, [ReadResult] + [], t);
      steps := [TakeToken] + ([ReadResult] + []);
    } else if !s.pc.AtGet? {
      var step := if s.pc.AtSend? then SendRefused else if s.pc.AtTake? then TimeOut else ReadResult;
      t := Do(s, step);
      EmptyRun(t);
      FirstStep(s, step, [], t);
      steps := [step] + [];
    }
  }

  /** The next frame sent, reported a success, and counted. */
  ghost function SentOne(s: State): State
    requires s.pc.AtGet? && s.queue != []
  {
    var f := s.queue[0];
    Do(Do(Do(Do(Do(s, Dequeue), SendAccepted), Complete(f, 0)), TakeToken), ReadResult)
  }

  lemma OneSent(s: State, steps: seq<Step>, t: State) returns (steps': seq<Step>)
    requires s.pc.AtGet? && s.queue != [] && Runs(SentOne(s), steps, t)
    ensures Runs(s, steps', t)
  {
    hide Runs, Put, Elements;
    var f := s.queue[0];
    var taken := Do(s, Dequeue);
    var sent := Do(taken, SendAccepted);
    var done := Do(sent, Complete(f, 0));
    var seen := Do(done, TakeToken);
    FirstStep(seen, ReadResult, steps, t);
    FirstStep(done, TakeToken, [ReadResult] + steps, t);
    steps' := [TakeToken] + ([ReadResult] + steps);
    FirstStep(sent, Complete(f, 0), steps', t);
    FirstStep(taken, SendAccepted, [Complete(f, 0)] + steps', t);
    steps' := [SendAccepted] + ([Complete(f, 0)] + steps');
    FirstStep(s, Dequeue, steps', t);
    steps' := [Dequeue] + steps';
  }

  /** From any loop head, whatever has gone wrong before, everything queued can be sent, in order, and counted. */
  lemma {:induction false} CanSendAll(s: State) returns (steps: seq<Step>, t: State)
    requires s.pc.AtGet?
    ensures Runs(s, steps, t) && t.pc.AtGet? && t.queue == [] && t.timeouts == s.timeouts
    ensures t.offered == s.offered + s.queue && t.counted == s.counted + s.queue
    decreases |s.queue|
  {
    hide Runs;
    if s.queue == [] {
      EmptyRun(s);
      steps, t := [], s;
    } else {
      steps, t := CanSendAll(SentOne(s));
      assert s.queue == [s.queue[0]] + s.queue[1..];
      steps := OneSent(s, steps, t);
    }
  }

  // ---------------------------------------------------------------- the purge

  /** Since the purge at attempt `mark`, when `before` had been taken, only newer frames have been. */
  ghost predicate Newer(t: State, before: seq<nat>, mark: nat) {
    && t.attempted >= mark
    && before <= t.taken
    && (forall i | |before| <= i < |t.taken| :: t.taken[i] >= mark)
    && (forall i | 0 <= i < |t.queue| :: t.queue[i] >= mark)
  }

  lemma StepKeepsNewer(s: State, step: Step, before: seq<nat>, mark: nat)
    requires Newer(s, before, mark) && Enabled(s, step)
    ensures Newer(Do(s, step), before, mark)
  {
    hide Elements;
  }

  lemma {:induction false} RunKeepsNewer(s: State, steps: seq<Step>, t: State, before: seq<nat>, mark: nat)
    requires Newer(s, before, mark) && Runs(s, steps, t)
    ensures Newer(t, before, mark)
    decreases |steps|
  {
    if steps != [] {
      StepKeepsNewer(s, steps[0], before, mark);
      hide Do, Enabled, Newer;
      RunKeepsNewer(Do(s, steps[0]), steps[1..], t, before, mark);
    }
  }

  /**
   * After a bus-off purge no frame attempted before it reaches the driver any more, except the one the thread
   * may already have had in hand, and that one first.
   */
  lemma PurgeIsFinal(past: seq<Step>, s: State, future: seq<Step>, t: State)
    requires Runs(INIT, past, s) && Runs(Do(s, BusOff), future, t)
    ensures s.offered <= t.offered
    ensures forall i | |s.offered| <= i < |t.offered| ::
              t.offered[i] >= s.attempted || (i == |s.offered| && s.pc == AtSend(t.offered[i]))
  {
    hide Runs, PlaceInv, TokenInv, CounterInv, PromptInv, QuietInv, CallbackInv, RecoveryInv, Elements;
    Reached(past, s);
    StepKeepsInv(s, BusOff);
    var purged := Do(s, BusOff);
    assert purged.taken == s.taken && purged.offered == s.offered && purged.queue == [];
    RunKeepsInv(purged, future, t);
    assert Newer(purged, s.taken, s.attempted);
    RunKeepsNewer(purged, future, t, s.taken, s.attempted);
    OfferedGrows(purged, future, t);
    OnlyTheHandIsOld(s, t);
  }

  lemma OnlyTheHandIsOld(s: State, t: State)
    requires HandInv(s) && HandInv(t) && Newer(t, s.taken, s.attempted) && s.offered <= t.offered
    ensures forall i | |s.offered| <= i < |t.offered| ::
              t.offered[i] >= s.attempted || (i == |s.offered| && s.pc == AtSend(t.offered[i]))
  {
    forall i | |s.offered| <= i < |t.offered|
      ensures t.offered[i] >= s.attempted || (i == |s.offered| && s.pc == AtSend(t.offered[i]))
    {
      assert t.offered[i] == t.taken[i];
      if i < |s.taken| {
        assert t.taken[i] == s.taken[i];
      }
    }
  }

  lemma {:induction false} OfferedGrows(s: State, steps: seq<Step>, t: State)
    requires Runs(s, steps, t)
    ensures s.offered <= t.offered
    decreases |steps|
  {
    if steps != [] {
      OfferedGrowsOnce(s, steps[0]);
      hide Do, Enabled;
      OfferedGrows(Do(s, steps[0]), steps[1..], t);
    }
  }

  lemma OfferedGrowsOnce(s: State, step: Step)
    requires Enabled(s, step)
    ensures s.offered <= Do(s, step).offered
  {
    hide Put, Elements;
  }

  // ---------------------------------------------------------------- late callbacks

  /** The thread is done with frame `f`, and so is the driver. */
  ghost predicate Past(t: State, f: nat) {
    f in t.offered && f !in t.outstanding && (t.pc.AtGet? || t.pc.frame != f)
  }

  /** What has been said of `f`: whether its callback reported success, and whether it was counted. */
  ghost predicate Verdict(t: State, f: nat, reported: bool, counted: bool) {
    (f in OkFrames(t.callbacks) <==> reported) && (f in t.counted <==> counted)
  }

  lemma OfferedIsNotQueued(s: State, f: nat)
    requires Inv(s) && f in s.offered
    ensures f !in s.queue
  {
    hide TokenInv, CounterInv, PromptInv, QuietInv, CallbackInv, RecoveryInv;
    IncreasingParts(s.taken, s.queue);
  }

  lemma CompleteKeepsVerdict(s: State, g: nat, error: int, f: nat, reported: bool, counted: bool)
    requires g in s.outstanding && Past(s, f) && Verdict(s, f, reported, counted)
    ensures Past(Do(s, Complete(g, error)), f) && Verdict(Do(s, Complete(g, error)), f, reported, counted)
  {
    OkNext(s.callbacks, Callback(g, error));
    hide OkFrames;
  }

  lemma OtherKeepsVerdict(s: State, step: Step, f: nat, reported: bool, counted: bool)
    requires Enabled(s, step) && !step.Complete? && Past(s, f) && Verdict(s, f, reported, counted) && f !in s.queue
    ensures Past(Do(s, step), f) && Verdict(Do(s, step), f, reported, counted)
  {
    hide OkFrames, Elements, Put;
  }

  lemma {:induction false} RunKeepsVerdict(s: State, steps: seq<Step>, t: State, f: nat, reported: bool, counted: bool)
    requires Inv(s) && Past(s, f) && Verdict(s, f, reported, counted) && Runs(s, steps, t)
    ensures Verdict(t, f, reported, counted)
    decreases |steps|
  {
    if steps != [] {
      OfferedIsNotQueued(s, f);
      assert steps[0].Complete? ==> steps[0].frame in s.outstanding;
      hide Do, Enabled, Inv, Verdict;
      if steps[0].Complete? {
        CompleteKeepsVerdict(s, steps[0].frame, steps[0].error, f, reported, counted);
      } else {
        OtherKeepsVerdict(s, steps[0], f, reported, counted);
      }
      StepKeepsInv(s, steps[0]);
      hide Past;
      RunKeepsVerdict(Do(s, steps[0]), steps[1..], t, f, reported, counted);
    }
  }

  /**
   * A callback that comes when the thread is done with its frame finds the verdict made: whether the frame is
   * counted never changes any more. So if the callback disagrees, the frames counted are never again just those
   * that succeeded; their number may still come out right.
   */
  lemma LateVerdictStands(past: seq<Step>, s: State, f: nat, error: int, future: seq<Step>, t: State)
    requires Runs(INIT, past, s) && f in s.outstanding && s.pc != AtTake(f) && s.pc != AtResult(f)
    requires Runs(Do(s, Complete(f, error)), future, t)
    ensures f in OkFrames(t.callbacks) <==> error == 0
    ensures f in t.counted <==> f in s.counted
    ensures !(error == 0 <==> f in s.counted) ==> t.counted != OkFrames(t.callbacks)
  {
    hide Runs, Increasing, OkFrames;
    Reached(past, s);
    if s.pc.AtSend? {
      HandIsNew(s);
    }
    assert f in s.offered;
    OkNext(s.callbacks, Callback(f, error));
    StepKeepsInv(s, Complete(f, error));
    hide Inv;
    RunKeepsVerdict(Do(s, Complete(f, error)), future, t, f, error == 0, f in s.counted);
  }

  lemma NoCallbacks()
    ensures OkFrames([]) == []
  {}
}

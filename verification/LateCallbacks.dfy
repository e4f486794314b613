/**
 * What late callbacks do to the transmit thread's count of successes: exactly when the count is right, and how wrong
 * it can get.
 */
module LateCallbacks {
  import opened Prelude
  import opened MsgQueue
  import opened TxPath

  // ---------------------------------------------------------------- putting executions together

  lemma {:induction false} RunsOneMore(s: State, steps: seq<Step>, t: State, step: Step)
    requires Runs(s, steps, t) && Enabled(t, step)
    ensures Runs(s, steps + [step], Do(t, step))
    decreases |steps|
  {
    if steps == [] {
      assert Runs(Do(t, step), [step][1..], Do(t, step));
    } else {
      assert (steps + [step])[1..] == steps[1..] + [step];
      RunsOneMore(Do(s, steps[0]), steps[1..], t, step);
    }
  }

  lemma Then(steps: seq<Step>, t: State, step: Step) returns (steps': seq<Step>, t': State)
    requires Runs(INIT, steps, t) && Enabled(t, step)
    ensures Runs(INIT, steps', t') && t' == Do(t, step)
  {
    RunsOneMore(INIT, steps, t, step);
    steps', t' := steps + [step], Do(t, step);
  }

  /** The first `n` frames waiting, nothing sent. */
  ghost predicate Queued(t: State, n: nat) {
    && t.queue == Numbers(n) && t.attempted == n && t.pc.AtGet? && t.sem == 0 && t.outstanding == {}
    && t.callbacks == [] && t.counted == [] && t.timeouts == 0 && t.late == 0
  }

  function Numbers(n: nat): seq<nat> {
    seq(n, i => i)
  }

  lemma {:induction false} QueueUp(n: nat) returns (steps: seq<Step>, t: State)
    requires n <= CAPACITY
    ensures Runs(INIT, steps, t) && Queued(t, n)
    decreases n
  {
    hide Runs, Elements;
    if n == 0 {
      EmptyRun(INIT);
      steps, t := [], INIT;
    } else {
      steps, t := QueueUp(n - 1);
      steps, t := Then(steps, t, Enqueue);
    }
  }

  /** Frame 0 of `n` has been sent, and the wait for its callback has timed out. */
  lemma TimedOut(n: nat) returns (steps: seq<Step>, t: State)
    requires 0 < n <= CAPACITY
    ensures Runs(INIT, steps, t) && t.pc.AtGet? && t.sem == 0 && t.timeouts == 1 && t.late == 0
    ensures t.queue == Numbers(n)[1..] && t.outstanding == {0} && t.callbacks == [] && t.counted == []
  {
    hide Runs, OkFrames, Put, Elements;
    steps, t := QueueUp(n);
    steps, t := Then(steps, t, Dequeue);
    steps, t := Then(steps, t, SendAccepted);
    steps, t := Then(steps, t, TimeOut);
  }

  // ---------------------------------------------------------------- frames counted wrongly, or rightly by chance

  /** One timeout is enough to break it: frame 1 is counted on frame 0's late callback, and then fails. */
  lemma LateCallbackMiscounts() returns (steps: seq<Step>, t: State)
    ensures Runs(INIT, steps, t) && t.pc.AtGet? && t.timeouts == 1
    ensures t.counted == [1] && OkFrames(t.callbacks) == [0]
  {
    hide Runs, OkFrames, Put, Elements;
    steps, t := TimedOut(2);
    assert t.queue == [1];
    steps, t := Then(steps, t, Complete(0, 0));
    steps, t := CountedUnseen(steps, t, [], 1);
    steps, t := Then(steps, t, Complete(1, -5));
    assert t.callbacks == [Callback(0, 0), Callback(1, -5)];
    OneSucceededOneFailed();
  }

  lemma OneSucceededOneFailed()
    ensures OkFrames([Callback(0, 0), Callback(1, -5)]) == [0]
  {
    var a, b := Callback(0, 0), Callback(1, -5);
    NoCallbacks();
    OkNext([], a);
    OkNext([a], b);
    hide OkFrames;
    assert [] + [a] == [a] && [a] + [b] == [a, b];
  }

  /** Frame `f` is counted on a token and a result left over from others, before its own callback. */
  lemma CountedUnseen(past: seq<Step>, s: State, counted: seq<nat>, f: nat) returns (past': seq<Step>, s': State)
    requires Runs(INIT, past, s) && s.pc.AtGet? && s.queue == [f] && s.outstanding == {} && s.sem == 1
    requires s.counted == counted && s.result == 0
    ensures Runs(INIT, past', s') && s'.pc.AtGet? && s'.outstanding == {f} && s'.callbacks == s.callbacks
    ensures s'.counted == counted + [f] && s'.timeouts == s.timeouts
  {
    hide Runs, OkFrames, Put, Elements;
    past', s' := Then(past, s, Dequeue);
    past', s' := Then(past', s', SendAccepted);
    past', s' := Then(past', s', TakeToken);
    past', s' := Then(past', s', ReadResult);
  }

  /**
   * A late success need not show: frame 2 is counted on a token left over from frame 0, before its own callback,
   * which then agrees.
   */
  lemma LateSuccessCanFit() returns (past: seq<Step>, s: State)
    ensures Runs(INIT, past, s) && 2 in s.outstanding && s.pc.AtGet?
    ensures var t := Do(s, Complete(2, 0)); t.pc.AtGet? && t.counted == [1, 2] == OkFrames(t.callbacks)
  {
    hide Runs, OkFrames, Put, Elements;
    past, s := TimedOut(3);
    assert s.queue == [1, 2];
    past, s := Then(past, s, Complete(0, -5));
    past, s := FitsSoFar(past, s);
    past, s := CountedUnseen(past, s, [1], 2);
    assert Do(s, Complete(2, 0)).callbacks == [Callback(0, -5), Callback(1, 0), Callback(2, 0)];
    OneFailedTwoSucceeded();
  }

  lemma OneFailedTwoSucceeded()
    ensures OkFrames([Callback(0, -5), Callback(1, 0), Callback(2, 0)]) == [1, 2]
  {
    var a, b, c := Callback(0, -5), Callback(1, 0), Callback(2, 0);
    NoCallbacks();
    OkNext([], a);
    OkNext([a], b);
    OkNext([a, b], c);
    hide OkFrames;
    assert [] + [a] == [a] && [a] + [b] == [a, b] && [a, b] + [c] == [a, b, c];
  }

  /** Frame 1 takes the token frame 0 left, and its own success comes just in time. */
  lemma FitsSoFar(past: seq<Step>, s: State) returns (past': seq<Step>, s': State)
    requires Runs(INIT, past, s) && s.pc.AtGet? && s.queue == [1, 2] && s.outstanding == {} && s.sem == 1
    requires s.callbacks == [Callback(0, -5)] && s.counted == []
    ensures Runs(INIT, past', s') && s'.pc.AtGet? && s'.queue == [2] && s'.outstanding == {} && s'.sem == 1
    ensures s'.callbacks == [Callback(0, -5), Callback(1, 0)] && s'.counted == [1] && s'.result == 0
  {
    hide Runs, OkFrames, Put, Elements;
    past', s' := Then(past, s, Dequeue);
    past', s' := Then(past', s', SendAccepted);
    past', s' := Then(past', s', TakeToken);
    past', s' := Then(past', s', Complete(1, 0));
    past', s' := Then(past', s', ReadResult);
  }

  // ---------------------------------------------------------------- when the count is right

  /** With at most so many timeouts and late callbacks, is the counter right at every loop head? */
  ghost predicate CountIsRight(timeouts: nat, late: nat) {
    forall steps, t :: Runs(INIT, steps, t) && t.timeouts <= timeouts && t.late <= late ==>
      (t.pc.AtGet? ==> t.txOk == |OkFrames(t.callbacks)| % TWO_32)
  }

  /** And has it counted just the frames that succeeded? */
  ghost predicate FramesAreRight(timeouts: nat, late: nat) {
    forall steps, t :: Runs(INIT, steps, t) && t.timeouts <= timeouts && t.late <= late ==>
      (t.pc.AtGet? ==> t.counted == OkFrames(t.callbacks))
  }

  /** Exactly if neither or only one of the two can happen: it takes a timeout and a late callback to spoil either. */
  lemma WhenCountIsRight(timeouts: nat, late: nat)
    ensures CountIsRight(timeouts, late) <==> timeouts == 0 || late == 0
    ensures FramesAreRight(timeouts, late) <==> timeouts == 0 || late == 0
  {
    hide Runs, OkFrames;
    if timeouts == 0 || late == 0 {
      forall steps, t | Runs(INIT, steps, t) && t.timeouts <= timeouts && t.late <= late
        ensures t.pc.AtGet? ==> t.counted == OkFrames(t.callbacks) && t.txOk == |OkFrames(t.callbacks)| % TWO_32
      {
        Handshake(steps, t);
        if t.timeouts == 0 {
          ExactWithoutTimeouts(steps, t);
        } else {
          ExactUnlessLate(steps, t);
        }
      }
    } else {
      var steps, t := SuccessMissed();
    }
  }

  /** A success reported after the timeout is not counted. */
  lemma SuccessMissed() returns (steps: seq<Step>, t: State)
    ensures Runs(INIT, steps, t) && t.pc.AtGet? && t.timeouts == 1 && t.late == 1
    ensures t.counted == [] && t.txOk == 0 && OkFrames(t.callbacks) == [0]
  {
    hide Runs, OkFrames, Put, Elements;
    steps, t := TimedOut(1);
    steps, t := Then(steps, t, Complete(0, 0));
    assert t.callbacks == [] + [Callback(0, 0)];
    OkNext([], Callback(0, 0));
    NoCallbacks();
    Handshake(steps, t);
  }

  // ---------------------------------------------------------------- how wrong it can get

  /** All sent, all called back, one stale token left after one timeout; the count is off by `d`. */
  ghost predicate Adrift(t: State, d: int) {
    && t.pc.AtGet? && t.queue == [] && t.outstanding == {} && t.sem == 1 && t.result == -5 && t.timeouts == 1
    && |t.counted| == |OkFrames(t.callbacks)| + d
  }

  /** A frame is queued, sent, and let go on the token left over from an earlier one. */
  lemma SentOnStaleToken(steps: seq<Step>, s: State) returns (steps': seq<Step>, t: State)
    requires Runs(INIT, steps, s) && s.pc.AtGet? && s.queue == [] && s.outstanding == {} && s.sem == 1
    ensures Runs(INIT, steps', t) && t.pc.AtResult? && t.queue == [] && t.outstanding == {t.pc.frame} && t.sem == 0
    ensures t.callbacks == s.callbacks && t.counted == s.counted && t.result == s.result && t.timeouts == s.timeouts
  {
    hide Runs, OkFrames, Elements;
    steps', t := Then(steps, s, Enqueue);
    assert t.queue == [s.attempted];
    steps', t := Then(steps', t, Dequeue);
    steps', t := Then(steps', t, SendAccepted);
    steps', t := Then(steps', t, TakeToken);
  }

  /** The frame is called back just in time, and the thread reads that. */
  lemma CalledBackInTime(steps: seq<Step>, s: State, error: int) returns (steps': seq<Step>, t: State)
    requires Runs(INIT, steps, s) && s.pc.AtResult? && s.queue == [] && s.outstanding == {s.pc.frame} && s.sem == 0
    ensures Runs(INIT, steps', t) && t.pc.AtGet? && t.queue == [] && t.outstanding == {} && t.sem == 1
    ensures t.result == error && t.timeouts == s.timeouts
    ensures |OkFrames(t.callbacks)| == |OkFrames(s.callbacks)| + if error == 0 then 1 else 0
    ensures |t.counted| == |s.counted| + if error == 0 then 1 else 0
  {
    var f := s.pc.frame;
    OkNext(s.callbacks, Callback(f, error));
    hide Runs, OkFrames, Put, Elements;
    steps', t := Then(steps, s, Complete(f, error));
    steps', t := Then(steps', t, ReadResult);
  }

  /** The thread reads the result of an earlier frame, and then this one is called back. */
  lemma CalledBackLate(steps: seq<Step>, s: State, error: int) returns (steps': seq<Step>, t: State)
    requires Runs(INIT, steps, s) && s.pc.AtResult? && s.queue == [] && s.outstanding == {s.pc.frame} && s.sem == 0
    ensures Runs(INIT, steps', t) && t.pc.AtGet? && t.queue == [] && t.outstanding == {} && t.sem == 1
    ensures t.result == error && t.timeouts == s.timeouts
    ensures |OkFrames(t.callbacks)| == |OkFrames(s.callbacks)| + if error == 0 then 1 else 0
    ensures |t.counted| == |s.counted| + if s.result == 0 then 1 else 0
  {
    var f := s.pc.frame;
    OkNext(s.callbacks, Callback(f, error));
    hide Runs, OkFrames, Put, Elements;
    steps', t := Then(steps, s, ReadResult);
    steps', t := Then(steps', t, Complete(f, error));
  }

  /** Two frames, a success in time and a failure counted on its result, take the count up by one. */
  lemma DriftUp(steps: seq<Step>, s: State, d: int) returns (steps': seq<Step>, t: State)
    requires Runs(INIT, steps, s) && Adrift(s, d)
    ensures Runs(INIT, steps', t) && Adrift(t, d + 1)
  {
    hide Runs, OkFrames;
    steps', t := SentOnStaleToken(steps, s);
    steps', t := CalledBackInTime(steps', t, 0);
    steps', t := SentOnStaleToken(steps', t);
    steps', t := CalledBackLate(steps', t, -5);
  }

  /** Two frames, a success too late and a failure in time, take it down by one. */
  lemma DriftDown(steps: seq<Step>, s: State, d: int) returns (steps': seq<Step>, t: State)
    requires Runs(INIT, steps, s) && Adrift(s, d)
    ensures Runs(INIT, steps', t) && Adrift(t, d - 1)
  {
    hide Runs, OkFrames;
    steps', t := SentOnStaleToken(steps, s);
    steps', t := CalledBackLate(steps', t, 0);
    steps', t := SentOnStaleToken(steps', t);
    steps', t := CalledBackInTime(steps', t, -5);
  }

  lemma {:induction false} Drifts(d: int) returns (steps: seq<Step>, t: State)
    ensures Runs(INIT, steps, t) && Adrift(t, d)
    decreases if d < 0 then -d else d
  {
    hide Runs, Adrift;
    if d == 0 {
      steps, t := NotYetAdrift();
    } else if d > 0 {
      steps, t := Drifts(d - 1);
      steps, t := DriftUp(steps, t, d - 1);
    } else {
      steps, t := Drifts(d + 1);
      steps, t := DriftDown(steps, t, d + 1);
    }
  }

  lemma NotYetAdrift() returns (steps: seq<Step>, t: State)
    ensures Runs(INIT, steps, t) && Adrift(t, 0)
  {
    hide Runs, OkFrames, Put, Elements;
    steps, t := TimedOut(1);
    steps, t := Then(steps, t, Complete(0, -5));
    OkNext([], Callback(0, -5));
    NoCallbacks();
  }

  /** One timeout, and every callback in: the counter can be off by any number whatsoever, in either direction. */
  lemma OffByAnything(d: int) returns (steps: seq<Step>, t: State)
    ensures Runs(INIT, steps, t) && t.pc.AtGet? && t.timeouts == 1 && t.outstanding == {}
    ensures |t.counted| == |OkFrames(t.callbacks)| + d
    ensures t.txOk == (|OkFrames(t.callbacks)| + d) % TWO_32
  {
    hide Runs, OkFrames;
    steps, t := Drifts(d);
    Handshake(steps, t);
  }
}

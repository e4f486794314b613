/**
 * The RS485 tester's automated mode: five streams with their own deadlines, polled in one loop, each message
 * COBS-encoded and written with two delimiters. Times are whole milliseconds.
 */
module SenderSchedule {
  import opened Prelude
  import opened Cobs
  import opened CobsStream
  import opened MasterStore
  import opened Receiver

  function Interval(k: Kind): nat {
    match k
    case Measurements => 25
    case Status => 100
    case Faults => 100
    case OperatingState => 100
    case ProtiumValues => 1000
  }

  /** One message sent. */
  datatype Message = Message(kind: Kind, body: seq<Byte>)

  /** Builds the message of a stream in a given pass; the contents are random readings. */
  type Maker = (Kind, nat) -> seq<Byte>

  // ---------------------------------------------------------------- the schedule of one stream

  /** The next deadline of a stream after passes at `times`. */
  function Deadline(start: nat, interval: nat, times: seq<nat>): nat {
    if times == [] then start + interval
    else
      var next := Deadline(start, interval, times[..|times| - 1]);
      if times[|times| - 1] >= next then next + interval else next
  }

  /** The passes in which it sends. */
  function SendPasses(start: nat, interval: nat, times: seq<nat>): seq<nat> {
    if times == [] then []
    else
      var front := times[..|times| - 1];
      SendPasses(start, interval, front) +
      (if times[|times| - 1] >= Deadline(start, interval, front) then [|front|] else [])
  }

  /** The order in which the streams have their turns in a pass. */
  const ORDER: seq<Kind> := [Measurements, Status, Faults, OperatingState, ProtiumValues]

  /** Everything sent in whole passes, in the order it was sent. */
  function Session(make: Maker, start: nat, times: seq<nat>): seq<Message> {
    if times == [] then [] else Session(make, start, times[..|times| - 1]) + Turns(make, start, times, 5)
  }

  /** What the first `n` streams send in the last pass. */
  function Turns(make: Maker, start: nat, times: seq<nat>, n: nat): seq<Message>
    requires times != [] && n <= 5
  {
    if n == 0 then [] else Turns(make, start, times, n - 1) + DueMessage(make, start, times, ORDER[n - 1])
  }

  /** Everything sent when the last pass is interrupted after `n` turns. */
  function Interrupted(make: Maker, start: nat, times: seq<nat>, n: nat): seq<Message>
    requires n <= 5
  {
    if times == [] then [] else Session(make, start, times[..|times| - 1]) + Turns(make, start, times, n)
  }

  function DueMessage(make: Maker, start: nat, times: seq<nat>, k: Kind): seq<Message>
    requires times != []
  {
    var front := times[..|times| - 1];
    if times[|times| - 1] >= Deadline(start, Interval(k), front) then [Message(k, make(k, |front|))] else []
  }

  function Bodies(session: seq<Message>): seq<seq<Byte>> {
    if session == [] then [] else [session[0].body] + Bodies(session[1..])
  }

  // ---------------------------------------------------------------- the tester

  class SerialPort {
    var written: seq<Byte>

    constructor ()
      ensures written == []
    {
      written := [];
    }

    method SendFrame(encoded: seq<Byte>)
      modifies this
      ensures written == old(written) + (encoded + [0, 0])
    {
      written := written + (encoded + [0, 0]);
    }
  }

  /** One stream's turn in a pass. */
  method SendWhenDue(port: SerialPort, now: nat, next: nat, interval: nat, body: seq<Byte>) returns (next': nat)
    modifies port
    ensures next' == if now >= next then next + interval else next
    ensures port.written == old(port.written) + if now >= next then Encode(body) + [0, 0] else []
  {
    next' := next;
    if now >= next {
      var encoded := CobsEncode(body);
      port.SendFrame(encoded);
      next' := next + interval;
    }
  }

  /** The loop with passes at `times`, left by an interrupt after `turns` turns of the last pass. */
  method RunAutomatedMode(port: SerialPort, start: nat, times: seq<nat>, make: Maker, turns: nat)
    requires turns <= 5
    modifies port
    ensures port.written == old(port.written) + Wire(Bodies(Interrupted(make, start, times, turns)))
  {
    hide Encode, Wire, Bodies, Interval, Turns, Session, DueMessage, Interrupted, Deadline;
    FirstDeadlines(start);
    var nextMeasurements := start + 25;
    var nextStatus := start + 100;
    var nextFaults := start + 100;
    var nextOperatingState := start + 100;
    var nextProtiumValues := start + 1000;
    NothingWritten(make, start);
    assert times[..0] == [];
    for i := 0 to |times|
      invariant i == |times| && times != [] ==> turns == 5
      invariant nextMeasurements == Deadline(start, 25, times[..i])
      invariant nextStatus == Deadline(start, 100, times[..i])
      invariant nextFaults == Deadline(start, 100, times[..i])
      invariant nextOperatingState == Deadline(start, 100, times[..i])
      invariant nextProtiumValues == Deadline(start, 1000, times[..i])
      invariant port.written == old(port.written) + Wire(Bodies(Session(make, start, times[..i])))
    {
      ghost var upTo := times[..i + 1];
      assert upTo[..i] == times[..i];
      assert i + 1 == |times| ==> upTo == times;
      var now, last := times[i], i + 1 == |times|;
      TurnsWritten(make, start, upTo, old(port.written));
      DeadlineNext(start, 25, upTo);
      DeadlineNext(start, 100, upTo);
      DeadlineNext(start, 1000, upTo);
      if last && turns == 0 { return; }
      nextMeasurements := SendWhenDue(port, now, nextMeasurements, 25, make(Measurements, i));
      if last && turns == 1 { return; }
      nextStatus := SendWhenDue(port, now, nextStatus, 100, make(Status, i));
      if last && turns == 2 { return; }
      nextFaults := SendWhenDue(port, now, nextFaults, 100, make(Faults, i));
      if last && turns == 3 { return; }
      nextOperatingState := SendWhenDue(port, now, nextOperatingState, 100, make(OperatingState, i));
      if last && turns == 4 { return; }
      nextProtiumValues := SendWhenDue(port, now, nextProtiumValues, 1000, make(ProtiumValues, i));
    }
    assert times[..|times|] == times;
    NotInterrupted(make, start, times, turns);
  }

  lemma FirstDeadlines(start: nat)
    ensures forall interval: nat :: Deadline(start, interval, []) == start + interval
  {}

  lemma DeadlineNext(start: nat, interval: nat, times: seq<nat>)
    requires times != []
    ensures var now, next := times[|times| - 1], Deadline(start, interval, times[..|times| - 1]);
            Deadline(start, interval, times) == if now >= next then next + interval else next
  {}

  lemma NothingWritten(make: Maker, start: nat)
    ensures Wire(Bodies(Session(make, start, []))) == []
  {}

  lemma NotInterrupted(make: Maker, start: nat, times: seq<nat>, turns: nat)
    requires turns <= 5 && (times != [] ==> turns == 5)
    ensures Interrupted(make, start, times, turns) == Session(make, start, times)
  {
    hide Turns;
  }

  /** What one stream's turn adds to the wire. */
  function Turn(make: Maker, start: nat, times: seq<nat>, k: Kind, interval: nat): seq<Byte>
    requires times != []
  {
    var pass := |times| - 1;
    if times[pass] >= Deadline(start, interval, times[..pass]) then Encode(make(k, pass)) + [0, 0] else []
  }

  /** The last pass on the wire, turn by turn. */
  lemma TurnsWritten(make: Maker, start: nat, times: seq<nat>, before: seq<Byte>)
    requires times != []
    ensures Interrupted(make, start, times, 0) == Session(make, start, times[..|times| - 1])
    ensures Interrupted(make, start, times, 5) == Session(make, start, times)
    ensures OneTurn(make, start, times, 0, Measurements, 25, before)
    ensures OneTurn(make, start, times, 1, Status, 100, before)
    ensures OneTurn(make, start, times, 2, Faults, 100, before)
    ensures OneTurn(make, start, times, 3, OperatingState, 100, before)
    ensures OneTurn(make, start, times, 4, ProtiumValues, 1000, before)
  {
    hide Wire, Bodies, Turn, OneTurn, DueMessage, Interrupted, Turns;
    WholePasses(make, start, times);
    TurnStep(make, start, times, 0, before);
    TurnStep(make, start, times, 1, before);
    TurnStep(make, start, times, 2, before);
    TurnStep(make, start, times, 3, before);
    TurnStep(make, start, times, 4, before);
  }

  lemma WholePasses(make: Maker, start: nat, times: seq<nat>)
    requires times != []
    ensures Interrupted(make, start, times, 0) == Session(make, start, times[..|times| - 1])
    ensures Interrupted(make, start, times, 5) == Session(make, start, times)
  {
    var s := Session(make, start, times[..|times| - 1]);
    assert Turns(make, start, times, 0) == [] && s + [] == s;
    hide Turns, DueMessage;
  }

  ghost predicate OneTurn(
    make: Maker, start: nat, times: seq<nat>, n: nat, k: Kind, interval: nat, before: seq<Byte>)
    requires times != [] && n < 5
  {
    before + Wire(Bodies(Interrupted(make, start, times, n))) + Turn(make, start, times, k, interval)
      == before + Wire(Bodies(Interrupted(make, start, times, n + 1)))
  }

  lemma TurnStep(make: Maker, start: nat, times: seq<nat>, n: nat, before: seq<Byte>)
    requires times != [] && n < 5
    ensures OneTurn(make, start, times, n, ORDER[n], Interval(ORDER[n]), before)
  {
    hide Turns, Session, DueMessage, Wire, Bodies, Turn, Interval;
    var s, turns := Session(make, start, times[..|times| - 1]), Turns(make, start, times, n);
    var due := DueMessage(make, start, times, ORDER[n]);
    TurnWritten(make, start, times, ORDER[n], before, s + turns);
    TurnsNext(make, start, times, n);
    assert s + turns + due == s + (turns + due);
  }

  lemma TurnWritten(make: Maker, start: nat, times: seq<nat>, k: Kind, before: seq<Byte>, s: seq<Message>)
    requires times != []
    ensures before + Wire(Bodies(s)) + Turn(make, start, times, k, Interval(k))
         == before + Wire(Bodies(s + DueMessage(make, start, times, k)))
  {
    hide Encode, Wire, Bodies, Deadline;
    var m := Message(k, make(k, |times| - 1));
    OneMore(s, m);
    assert s + [] == s;
    var w, e := Wire(Bodies(s)), Encode(m.body) + [0, 0];
    assert before + w + e == before + (w + e);
  }

  lemma {:induction false} OneMore(s: seq<Message>, m: Message)
    ensures Wire(Bodies(s + [m])) == Wire(Bodies(s)) + (Encode(m.body) + [0, 0])
    decreases |s|
  {
    hide Encode;
    if s == [] {
      assert Bodies([m]) == [m.body] by { assert [m][1..] == []; }
      assert [m.body][1..] == [] && s + [m] == [m];
      assert Wire([]) == [];
    } else {
      assert (s + [m])[1..] == s[1..] + [m];
      OneMore(s[1..], m);
      var head := s[0].body;
      assert Bodies(s)[1..] == Bodies(s[1..]);
      assert Bodies(s + [m])[1..] == Bodies(s[1..] + [m]);
    }
  }

  // ---------------------------------------------------------------- what the schedule promises

  /** Deadlines of a stream that have come by time `t`. */
  function Due(start: nat, interval: nat, t: nat): nat
    requires interval > 0
  {
    if t < start then 0 else (t - start) / interval
  }

  lemma MulMonotone(a: nat, b: nat, i: nat)
    requires a <= b
    ensures a * i <= b * i
  {
    assert b * i == a * i + (b - a) * i;
  }

  lemma {:induction false} DueIs(start: nat, interval: nat, t: nat, n: nat)
    requires interval > 0 && t >= start
    ensures start + n * interval <= t <==> n <= Due(start, interval, t)
  {
    var q := Due(start, interval, t);
    assert start + q * interval <= t < start + (q + 1) * interval;
    if n <= q {
      MulMonotone(n, q, interval);
    } else {
      MulMonotone(q + 1, n, interval);
    }
  }

  /** Deadlines do not drift: late passes never move them. */
  lemma {:induction false} NoDrift(start: nat, interval: nat, times: seq<nat>)
    ensures Deadline(start, interval, times) == start + (|SendPasses(start, interval, times)| + 1) * interval
    decreases |times|
  {
    if times != [] {
      var front := times[..|times| - 1];
      NoDrift(start, interval, front);
      var n := |SendPasses(start, interval, front)| + 1;
      assert (n + 1) * interval == n * interval + interval;
    }
  }

  /** At most one send in a pass, and the n-th no earlier than its deadline. */
  lemma {:induction false} NthSend(start: nat, interval: nat, times: seq<nat>, n: nat)
    requires n < |SendPasses(start, interval, times)|
    ensures var passes := SendPasses(start, interval, times);
            && passes[n] < |times| && times[passes[n]] >= start + (n + 1) * interval
            && (n > 0 ==> passes[n - 1] < passes[n])
    decreases |times|
  {
    var front := times[..|times| - 1];
    var before := SendPasses(start, interval, front);
    if n < |before| {
      NthSend(start, interval, front, n);
    } else {
      NoDrift(start, interval, front);
      if n > 0 {
        NthSend(start, interval, front, n - 1);
      }
    }
  }

  /** The clock: never before `start`, never backwards. */
  predicate Clock(start: nat, times: seq<nat>) {
    && (forall i :: 0 <= i < |times| ==> start <= times[i])
    && forall i, j :: 0 <= i < j < |times| ==> times[i] <= times[j]
  }

  function Last(start: nat, times: seq<nat>): nat {
    if times == [] then start else times[|times| - 1]
  }

  /** A stream never runs ahead of its rate. */
  lemma {:induction false} NeverAhead(start: nat, interval: nat, times: seq<nat>)
    requires interval > 0 && Clock(start, times)
    ensures |SendPasses(start, interval, times)| <= Due(start, interval, Last(start, times))
    decreases |times|
  {
    if times != [] {
      var front := times[..|times| - 1];
      NeverAhead(start, interval, front);
      NoDrift(start, interval, front);
      DueMonotone(start, interval, Last(start, front), Last(start, times));
      DueIs(start, interval, Last(start, times), |SendPasses(start, interval, front)| + 1);
    }
  }

  lemma DueMonotone(start: nat, interval: nat, s: nat, t: nat)
    requires interval > 0 && start <= s <= t
    ensures Due(start, interval, s) <= Due(start, interval, t)
  {
    var n := Due(start, interval, s);
    DueIs(start, interval, s, n);
    DueIs(start, interval, t, n);
  }

  /** One more pass sends exactly when more deadlines have come than messages were sent. */
  lemma PassSends(start: nat, interval: nat, times: seq<nat>)
    requires interval > 0 && times != [] && Clock(start, times)
    ensures var sent := |SendPasses(start, interval, times[..|times| - 1])|;
            |SendPasses(start, interval, times)| ==
            if sent < Due(start, interval, Last(start, times)) then sent + 1 else sent
  {
    var front := times[..|times| - 1];
    NoDrift(start, interval, front);
    DueIs(start, interval, Last(start, times), |SendPasses(start, interval, front)| + 1);
  }

  /** The reading before pass `i`. */
  function Before(start: nat, times: seq<nat>, i: nat): nat
    requires i < |times|
  {
    if i == 0 then start else times[i - 1]
  }

  /** No pass comes so late that two deadlines fall due in it. */
  predicate NoneSkipped(start: nat, interval: nat, times: seq<nat>)
    requires interval > 0
  {
    forall i :: 0 <= i < |times| ==>
      Due(start, interval, times[i]) <= Due(start, interval, Before(start, times, i)) + 1
  }

  /** Has every deadline been met by the pass in which it fell due, at every pass so far? */
  ghost predicate OnTime(start: nat, interval: nat, times: seq<nat>)
    requires interval > 0
  {
    forall n :: 0 <= n <= |times| ==>
      |SendPasses(start, interval, times[..n])| == Due(start, interval, Last(start, times[..n]))
  }

  /** A stream is on time at every pass exactly if no pass lets two of its deadlines fall due. */
  lemma {:induction false} OnTimeWhen(start: nat, interval: nat, times: seq<nat>)
    requires interval > 0 && Clock(start, times)
    ensures OnTime(start, interval, times) <==> NoneSkipped(start, interval, times)
    decreases |times|
  {
    hide SendPasses, Due;
    if times == [] {
      NothingDue(start, interval);
      assert times[..0] == [];
    } else {
      var last := |times| - 1;
      var front := times[..last];
      OnTimeWhen(start, interval, front);
      SplitOnTime(start, interval, times);
      SplitNoneSkipped(start, interval, times);
      PassSends(start, interval, times);
      DueMonotone(start, interval, Last(start, front), Last(start, times));
      assert front[..last] == front && times[..last] == front;
    }
  }

  lemma NothingDue(start: nat, interval: nat)
    requires interval > 0
    ensures SendPasses(start, interval, []) == [] && Due(start, interval, start) == 0
  {}

  lemma SplitOnTime(start: nat, interval: nat, times: seq<nat>)
    requires interval > 0 && times != []
    ensures var front := times[..|times| - 1];
            OnTime(start, interval, times) <==>
            OnTime(start, interval, front) &&
            |SendPasses(start, interval, times)| == Due(start, interval, Last(start, times))
  {
    hide SendPasses, Due;
    var front := times[..|times| - 1];
    assert times[..|times|] == times;
    forall n | 0 <= n <= |front| ensures times[..n] == front[..n] {}
  }

  lemma SplitNoneSkipped(start: nat, interval: nat, times: seq<nat>)
    requires interval > 0 && times != []
    ensures var front := times[..|times| - 1];
            NoneSkipped(start, interval, times) <==>
            NoneSkipped(start, interval, front) &&
            Due(start, interval, Last(start, times)) <= Due(start, interval, Last(start, front)) + 1
  {
    hide Due;
    var front := times[..|times| - 1];
    forall i | 0 <= i < |times|
      ensures Before(start, times, i) == if i < |front| then Before(start, front, i) else Last(start, front)
    {}
    assert forall i :: 0 <= i < |front| ==> times[i] == front[i];
    assert Before(start, times, |front|) == Last(start, front);
  }

  lemma DueSoon(start: nat, interval: nat, s: nat, t: nat)
    requires interval > 0 && start <= s && start <= t <= s + interval
    ensures Due(start, interval, t) <= Due(start, interval, s) + 1
  {
    var n := Due(start, interval, s);
    hide Due;
    DueIs(start, interval, s, n + 1);
    DueIs(start, interval, t, n + 2);
    assert (n + 2) * interval == (n + 1) * interval + interval;
  }

  /** In particular when passes are never further apart than the interval. */
  lemma CloseEnough(start: nat, interval: nat, times: seq<nat>)
    requires interval > 0 && Clock(start, times)
    requires forall i :: 0 <= i < |times| ==> times[i] <= Before(start, times, i) + interval
    ensures |SendPasses(start, interval, times)| == Due(start, interval, Last(start, times))
  {
    hide Due, SendPasses;
    forall i | 0 <= i < |times|
      ensures Due(start, interval, times[i]) <= Due(start, interval, Before(start, times, i)) + 1
    {
      DueSoon(start, interval, Before(start, times, i), times[i]);
    }
    OnTimeWhen(start, interval, times);
    assert times[..|times|] == times;
  }

  /** Deadlines missed are not lost: one is made up in every pass until none is left. */
  lemma {:induction false} CatchesUp(start: nat, interval: nat, times: seq<nat>, more: seq<nat>)
    requires interval > 0 && Clock(start, times + more)
    ensures var sent := |SendPasses(start, interval, times + more)|;
            || sent >= Due(start, interval, Last(start, times))
            || sent == |SendPasses(start, interval, times)| + |more|
    decreases |more|
  {
    if more == [] {
      assert times + more == times;
    } else {
      var less := more[..|more| - 1];
      assert (times + more)[..|times + more| - 1] == times + less;
      CatchesUp(start, interval, times, less);
      PassSends(start, interval, times + more);
      NeverBehindItself(start, times, more);
      DueMonotone(start, interval, Last(start, times), Last(start, times + more));
    }
  }

  lemma NeverBehindItself(start: nat, times: seq<nat>, more: seq<nat>)
    requires Clock(start, times + more)
    ensures start <= Last(start, times) <= Last(start, times + more)
  {
    var all := times + more;
    if times != [] {
      assert all[|times| - 1] == Last(start, times);
    }
    if times == [] && more != [] {
      assert all[|all| - 1] >= start;
    }
  }

  // ---------------------------------------------------------------- the session as a whole

  /** The messages of one stream. */
  function OfKind(session: seq<Message>, k: Kind): seq<Message> {
    if session == [] then []
    else
      var last := session[|session| - 1];
      OfKind(session[..|session| - 1], k) + (if last.kind == k then [last] else [])
  }

  lemma {:induction false} OfKindAppend(xs: seq<Message>, ys: seq<Message>, k: Kind)
    ensures OfKind(xs + ys, k) == OfKind(xs, k) + OfKind(ys, k)
    decreases |ys|
  {
    if ys == [] {
      assert xs + ys == xs;
    } else {
      assert (xs + ys)[..|xs + ys| - 1] == xs + ys[..|ys| - 1];
      OfKindAppend(xs, ys[..|ys| - 1], k);
    }
  }

  /** What a stream sends on its own, in the given passes. */
  function Stream(make: Maker, k: Kind, passes: seq<nat>): (r: seq<Message>)
    ensures |r| == |passes|
  {
    if passes == [] then []
    else Stream(make, k, passes[..|passes| - 1]) + [Message(k, make(k, passes[|passes| - 1]))]
  }

  /** Sharing the loop costs no stream anything: it sends just the messages it would send alone, in that order. */
  lemma {:induction false} StreamsIndependent(make: Maker, start: nat, times: seq<nat>, k: Kind)
    ensures OfKind(Session(make, start, times), k) == Stream(make, k, SendPasses(start, Interval(k), times))
    decreases |times|
  {
    if times != [] {
      var front := times[..|times| - 1];
      StreamsIndependent(make, start, front, k);
      hide Turns, DueMessage, OfKind, Stream, Interval;
      OfKindAppend(Session(make, start, front), Turns(make, start, times, 5), k);
      TurnsOf(make, start, times, k, 5);
      StreamNext(make, start, times, k);
    }
  }

  lemma StreamNext(make: Maker, start: nat, times: seq<nat>, k: Kind)
    requires times != []
    ensures Stream(make, k, SendPasses(start, Interval(k), times))
         == Stream(make, k, SendPasses(start, Interval(k), times[..|times| - 1])) + DueMessage(make, start, times, k)
  {
    var passes := SendPasses(start, Interval(k), times[..|times| - 1]);
    var pass := |times| - 1;
    assert (passes + [pass])[..|passes|] == passes;
    assert passes + [] == passes;
    assert Stream(make, k, passes) + [] == Stream(make, k, passes);
  }

  function Position(k: Kind): (n: nat)
    ensures n < 5 && ORDER[n] == k
  {
    match k
    case Measurements => 0
    case Status => 1
    case Faults => 2
    case OperatingState => 3
    case ProtiumValues => 4
  }

  /** Of the turns of a pass, a stream has its own and no other. */
  lemma {:induction false} TurnsOf(make: Maker, start: nat, times: seq<nat>, k: Kind, n: nat)
    requires times != [] && n <= 5
    ensures OfKind(Turns(make, start, times, n), k)
         == if Position(k) < n then DueMessage(make, start, times, k) else []
    decreases n
  {
    hide DueMessage, OfKind, Turns, Position;
    if n == 0 {
      NoTurns(make, start, times, k);
    } else {
      var turn := ORDER[n - 1];
      TurnsOf(make, start, times, k, n - 1);
      TurnsNext(make, start, times, n - 1);
      OfKindAppend(Turns(make, start, times, n - 1), DueMessage(make, start, times, turn), k);
      DueOf(make, start, times, turn, k);
      OneTurnEach(n - 1, k);
    }
  }

  lemma NoTurns(make: Maker, start: nat, times: seq<nat>, k: Kind)
    requires times != []
    ensures OfKind(Turns(make, start, times, 0), k) == []
  {}

  lemma TurnsNext(make: Maker, start: nat, times: seq<nat>, n: nat)
    requires times != [] && n < 5
    ensures Turns(make, start, times, n + 1) == Turns(make, start, times, n) + DueMessage(make, start, times, ORDER[n])
  {
    hide DueMessage;
  }

  lemma OneTurnEach(n: nat, k: Kind)
    requires n < 5
    ensures ORDER[n] == k <==> Position(k) == n
  {}

  lemma DueOf(make: Maker, start: nat, times: seq<nat>, turn: Kind, k: Kind)
    requires times != []
    ensures var due := DueMessage(make, start, times, turn);
            OfKind(due, k) == if turn == k then due else []
  {
    hide Deadline;
    var m := Message(turn, make(turn, |times| - 1));
    assert [m][..0] == [] && OfKind([m][..0], k) == [];
  }

  /** Messages of a kind in a session so far: never more than its rate, and just that if no pass is 25 ms late. */
  lemma MessagesSent(make: Maker, start: nat, times: seq<nat>)
    requires Clock(start, times)
    ensures var session, elapsed := Session(make, start, times), Last(start, times) - start;
            && |OfKind(session, Measurements)| <= elapsed / 25
            && |OfKind(session, Status)| <= elapsed / 100
            && |OfKind(session, Faults)| <= elapsed / 100
            && |OfKind(session, OperatingState)| <= elapsed / 100
            && |OfKind(session, ProtiumValues)| <= elapsed / 1000
    ensures var session, elapsed := Session(make, start, times), Last(start, times) - start;
            (forall i :: 0 <= i < |times| ==> times[i] <= Before(start, times, i) + 25) ==>
              && |OfKind(session, Measurements)| == elapsed / 25
              && |OfKind(session, Status)| == elapsed / 100
              && |OfKind(session, Faults)| == elapsed / 100
              && |OfKind(session, OperatingState)| == elapsed / 100
              && |OfKind(session, ProtiumValues)| == elapsed / 1000
  {
    hide Session, OfKind, Clock, Before;
    MessagesOfKind(make, start, times, Measurements, 25);
    MessagesOfKind(make, start, times, Status, 100);
    MessagesOfKind(make, start, times, Faults, 100);
    MessagesOfKind(make, start, times, OperatingState, 100);
    MessagesOfKind(make, start, times, ProtiumValues, 1000);
  }

  lemma MessagesOfKind(make: Maker, start: nat, times: seq<nat>, k: Kind, interval: nat)
    requires Clock(start, times) && Interval(k) == interval >= 25
    ensures Last(start, times) >= start
    ensures |OfKind(Session(make, start, times), k)| <= Due(start, interval, Last(start, times))
    ensures (forall i :: 0 <= i < |times| ==> times[i] <= Before(start, times, i) + 25) ==>
              |OfKind(Session(make, start, times), k)| == Due(start, interval, Last(start, times))
  {
    hide Session, OfKind, Stream, SendPasses, Due;
    StreamsIndependent(make, start, times, k);
    NeverAhead(start, interval, times);
    if forall i :: 0 <= i < |times| ==> times[i] <= Before(start, times, i) + 25 {
      CloseEnough(start, interval, times);
    }
  }

  /** A first pass in which every stream is due shows the order of the turns. */
  lemma AllDue(make: Maker, start: nat, now: nat)
    requires now >= start + 1000
    ensures Session(make, start, [now])
         == [Message(Measurements, make(Measurements, 0)), Message(Status, make(Status, 0)),
             Message(Faults, make(Faults, 0)), Message(OperatingState, make(OperatingState, 0)),
             Message(ProtiumValues, make(ProtiumValues, 0))]
  {
    var times := [now];
    assert times[..0] == [] && Session(make, start, []) == [];
    FirstDeadlines(start);
    forall k: Kind ensures DueMessage(make, start, times, k) == [Message(k, make(k, 0))] {}
    hide Session, DueMessage, Deadline;
    FiveTurns(make, start, times);
    OnePass(make, start, now);
  }

  lemma OnePass(make: Maker, start: nat, now: nat)
    ensures Session(make, start, [now]) == Turns(make, start, [now], 5)
  {
    assert [now][..0] == [] && Session(make, start, [now][..0]) == [];
    hide Turns;
  }

  lemma FiveTurns(make: Maker, start: nat, times: seq<nat>)
    requires times != []
    ensures Turns(make, start, times, 5)
         == DueMessage(make, start, times, Measurements) + DueMessage(make, start, times, Status)
            + DueMessage(make, start, times, Faults) + DueMessage(make, start, times, OperatingState)
            + DueMessage(make, start, times, ProtiumValues)
  {
    assert Turns(make, start, times, 0) == [];
    hide DueMessage, Turns;
    TurnsNext(make, start, times, 4);
    TurnsNext(make, start, times, 3);
    TurnsNext(make, start, times, 2);
    TurnsNext(make, start, times, 1);
    TurnsNext(make, start, times, 0);
  }

  // ---------------------------------------------------------------- from the tester's loop to the converter's store

  /** The codec on a session: message by message it decodes to a frame of the stream's kind. */
  ghost predicate Speaks(decode: Codec, session: seq<Message>, msgs: seq<MasterFrame>) {
    && |msgs| == |session|
    && forall i :: 0 <= i < |session| ==>
         && decode(session[i].body) == Some(msgs[i])
         && Target(msgs[i]).Some? && Target(msgs[i]).value.0 == session[i].kind
  }

  lemma {:induction false} BodiesAt(session: seq<Message>)
    ensures |Bodies(session)| == |session|
    ensures forall i :: 0 <= i < |session| ==> Bodies(session)[i] == session[i].body
    decreases |session|
  {
    if session != [] {
      BodiesAt(session[1..]);
    }
  }

  lemma {:induction false} HeardOf(decode: Codec, session: seq<Message>, msgs: seq<MasterFrame>, k: Kind)
    requires Speaks(decode, session, msgs)
    ensures OfKind(session, k) != [] <==> LastOf(k, msgs).Some?
    decreases |msgs|
  {
    if msgs != [] {
      var last := |msgs| - 1;
      HeardOf(decode, session[..last], msgs[..last], k);
    }
  }

  /**
   * From end to end: however the line is cut into packets and whatever was on it before, a stream whose first
   * deadline has come by the last pass has its slot filled with the last message it sent.
   */
  lemma StoreIsFilled(
    decode: Codec, make: Maker, start: nat, times: seq<nat>, msgs: seq<MasterFrame>,
    r: Reception, garbage: seq<Byte>, arrivals: Arrivals, k: Kind)
    requires Clock(start, times) && Speaks(decode, Session(make, start, times), msgs)
    requires Received(arrivals) == garbage + [0] + Wire(Bodies(Session(make, start, times)))
    requires times != [] && times[|times| - 1] >= start + Interval(k)
    ensures LastOf(k, msgs).Some?
    ensures Receive(decode, r, Received(arrivals)).data.Get(k) == Slot(LastOf(k, msgs).value, true)
  {
    hide Session, Receive, Received, Wire, Bodies, LastOf, OfKind, SendPasses, Clock;
    var session := Session(make, start, times);
    BodiesAt(session);
    EndToEnd(decode, msgs, Bodies(session), r, garbage, arrivals);
    HeardOf(decode, session, msgs, k);
    StreamsIndependent(make, start, times, k);
    PassSends(start, Interval(k), times);
    NoLaterThan(start, Interval(k), times);
  }

  lemma NoLaterThan(start: nat, interval: nat, times: seq<nat>)
    requires interval > 0 && times != [] && times[|times| - 1] >= start + interval
    ensures Due(start, interval, Last(start, times)) >= 1
  {
    DueIs(start, interval, Last(start, times), 1);
  }
}

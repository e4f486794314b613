/** The firmware-update tool: what it sends, in what order, and what it waits for. */
module DfuHost {
  import opened Prelude
  import opened Crc

  const PAYLOAD: nat := 6
  const BATCH: nat := 32
  const STATUS_OK: Byte := 0
  const RSP_ID: nat := 0x7E2

  /** The first sequence number that does not fit the frame's two bytes. */
  const SEQ_LIMIT: nat := 0x1_0000

  /** The frames the host sends. */
  datatype Message = Request(size: nat) | Data(number: nat, payload: seq<Octet>) | Commit(crc: bv32)

  /** What the host has done: frames sent and status bytes read. */
  datatype Event = Sent(message: Message) | Got(status: Byte)

  /** A frame on its way to the host, and when it arrives (in milliseconds). */
  datatype Incoming = Incoming(time: nat, id: nat, extended: bool, data: seq<Byte>)

  datatype Outcome =
    | Done
    | Rejected(status: Byte)
    | TimedOut
    | PackError  // a number too large for its field: `struct.pack` raises

  // ---------------------------------------------------------------- the dialogue, as a specification

  function FrameCount(size: nat): nat { (size + PAYLOAD - 1) / PAYLOAD }

  /** The payload of data frame `i`. */
  function Chunk(fw: seq<Octet>, i: nat): seq<Octet> {
    fw[Upto(fw, i)..Upto(fw, i + 1)]
  }

  /** Bytes sent after `k` data frames. */
  function Upto(fw: seq<Octet>, k: nat): (n: nat)
    ensures n <= |fw|
  {
    if PAYLOAD * k <= |fw| then PAYLOAD * k else |fw|
  }

  /** A dialogue in which everything is answered with OK, up to and including data frame `k` and its batch ACK. */
  function HostLog(fw: seq<Octet>, k: nat): seq<Event>
    decreases k
  {
    if k == 0 then [Sent(Request(|fw|)), Got(STATUS_OK)]
    else HostLog(fw, k - 1) + [Sent(Data(k - 1, Chunk(fw, k - 1)))] + (if k % BATCH == 0 then [Got(STATUS_OK)] else [])
  }

  /** The whole dialogue. */
  function FullLog(fw: seq<Octet>): seq<Event> {
    HostLog(fw, FrameCount(|fw|)) + [Sent(Commit(Crc32(fw))), Got(STATUS_OK)]
  }

  /** Can every number of the dialogue be packed into its field? */
  predicate Packable(fw: seq<Octet>) {
    |fw| < TWO_32 && FrameCount(|fw|) <= SEQ_LIMIT
  }

  /** How the log of a run relates to its outcome: it is the full dialogue, or that up to where it broke off. */
  ghost predicate Explains(fw: seq<Octet>, log: seq<Event>, outcome: Outcome) {
    match outcome
    case Done => Packable(fw) && log == FullLog(fw)
    case Rejected(status) =>
      && status != STATUS_OK && log != [] && log[|log| - 1] == Got(status)
      && log[..|log| - 1] + [Got(STATUS_OK)] <= FullLog(fw)
    case TimedOut => log + [Got(STATUS_OK)] <= FullLog(fw)
    case PackError => !Packable(fw) && log == if |fw| >= TWO_32 then [] else HostLog(fw, SEQ_LIMIT)
  }

  // ---------------------------------------------------------------- waiting

  predicate IsResponse(m: Incoming) {
    m.id == RSP_ID && m.extended && |m.data| >= 1
  }

  /** Waiting until `deadline` in one go: the status found, if any, the time it is then, and what is left to read. */
  function Wait(now: nat, inbox: seq<Incoming>, deadline: nat): (Option<Byte>, nat, seq<Incoming>)
    decreases |inbox|
  {
    if now >= deadline then (None, now, inbox)
    else if inbox == [] || inbox[0].time > deadline then (None, deadline, inbox)
    else
      var time := if inbox[0].time > now then inbox[0].time else now;
      if IsResponse(inbox[0]) then (Some(inbox[0].data[0]), time, inbox[1..])
      else Wait(time, inbox[1..], deadline)
  }

  /** The adapter: the clock, the frames still to arrive (in order of arrival), and the dialogue so far. */
  class Bus {
    var now: nat
    var inbox: seq<Incoming>
    var log: seq<Event>

    constructor (now: nat, inbox: seq<Incoming>)
      ensures this.now == now && this.inbox == inbox && log == []
    {
      this.now, this.inbox, log := now, inbox, [];
    }

    /** Blocks until the next frame arrives or the timeout has passed. */
    method Recv(timeout: nat) returns (message: Option<Incoming>)
      modifies this`now, this`inbox
      ensures var arrives := old(inbox) != [] && old(inbox)[0].time <= old(now) + timeout;
              if arrives then
                && message == Some(old(inbox)[0]) && inbox == old(inbox)[1..]
                && now == if old(inbox)[0].time > old(now) then old(inbox)[0].time else old(now)
              else message == None && inbox == old(inbox) && now == old(now) + timeout
    {
      if |inbox| > 0 && inbox[0].time <= now + timeout {
        message := Some(inbox[0]);
        now := if inbox[0].time > now then inbox[0].time else now;
        inbox := inbox[1..];
      } else {
        message := None;
        now := now + timeout;
      }
    }

    method Send(m: Message)
      modifies this`log
      ensures log == old(log) + [Sent(m)]
    {
      log := log + [Sent(m)];
    }

    method Sleep(delay: nat)
      modifies this`now
      ensures now == old(now) + delay
    {
      now := now + delay;
    }
  }

  /** Polling in slices of at most 100 ms finds just what one long wait would. */
  method WaitResponse(bus: Bus, timeout: nat) returns (status: Option<Byte>)
    modifies bus
    ensures (status, bus.now, bus.inbox) == Wait(old(bus.now), old(bus.inbox), old(bus.now) + timeout)
    ensures bus.log == old(bus.log) + if status.Some? then [Got(status.value)] else []
  {
    var deadline := bus.now + timeout;
    while bus.now < deadline
      invariant bus.now <= deadline && bus.log == old(bus.log)
      invariant Wait(bus.now, bus.inbox, deadline) == Wait(old(bus.now), old(bus.inbox), deadline)
      decreases |bus.inbox|, deadline - bus.now
    {
      var remaining := deadline - bus.now;
      var message := bus.Recv(if remaining < 100 then remaining else 100);
      if message.Some? && IsResponse(message.value) {
        status := Some(message.value.data[0]);
        bus.log := bus.log + [Got(status.value)];
        return;
      }
    }
    status := None;
  }

  // ---------------------------------------------------------------- the tool

  /** Where a run stands: the dialogue so far and the bus; the outcome is `Done` as long as all answers were OK. */
  datatype Report = Report(outcome: Outcome, log: seq<Event>, now: nat, inbox: seq<Incoming>)

  /** A wait for an answer and what comes of it. */
  function Asking(at: Report, timeout: nat): Report {
    var (status, time, rest) := Wait(at.now, at.inbox, at.now + timeout);
    match status
    case None => Report(TimedOut, at.log, time, rest)
    case Some(answer) =>
      Report(if answer == STATUS_OK then Done else Rejected(answer), at.log + [Got(answer)], time, rest)
  }

  function Sending(fw: seq<Octet>, delay: nat, k: nat, at: Report): Report
    decreases |fw| - Upto(fw, k)
  {
    if Upto(fw, k) == |fw| then
      Asking(at.(log := at.log + [Sent(Commit(Crc32(fw)))]), 10000)
    else if k >= SEQ_LIMIT then
      at.(outcome := PackError)
    else
      var sent := at.(log := at.log + [Sent(Data(k, Chunk(fw, k)))]);
      var next := if (k + 1) % BATCH == 0 then Asking(sent, 5000) else sent;
      if next.outcome == Done then Sending(fw, delay, k + 1, next.(now := next.now + delay)) else next
  }

  function Updating(fw: seq<Octet>, delay: nat, at: Report): Report {
    if |fw| >= TWO_32 then
      at.(outcome := PackError)
    else
      var next := Asking(at.(log := at.log + [Sent(Request(|fw|))]), 15000);
      if next.outcome == Done then Sending(fw, delay, 0, next) else next
  }

  /** The data frames; unless it is `Done`, the run is over. */
  method SendImage(bus: Bus, fw: seq<Octet>, delay: nat) returns (outcome: Outcome, crc: bv32)
    modifies bus
    ensures var end := Sending(fw, delay, 0, Report(Done, old(bus.log), old(bus.now), old(bus.inbox)));
            if outcome == Done then
              && crc == Crc32(fw)
              && end == Asking(Report(Done, bus.log + [Sent(Commit(crc))], bus.now, bus.inbox), 10000)
            else end == Report(outcome, bus.log, bus.now, bus.inbox)
  {
    hide Wait, Update, Crc32, Chunk, Upto;
    ghost var end := Sending(fw, delay, 0, Report(Done, bus.log, bus.now, bus.inbox));
    crc := 0;
    var number: nat := 0;
    var sent: nat := 0;
    NothingSent(fw);
    while sent < |fw|
      invariant sent == Upto(fw, number) && crc == Crc32(fw[..sent])
      invariant Sending(fw, delay, number, Report(Done, bus.log, bus.now, bus.inbox)) == end
      decreases |fw| - sent
    {
      var chunk := fw[sent..if sent + PAYLOAD <= |fw| then sent + PAYLOAD else |fw|];
      ChunkIs(fw, number);
      crc := Update(crc, chunk);
      if number >= SEQ_LIMIT {
        return PackError, crc;
      }
      bus.Send(Data(number, chunk));
      sent := sent + |chunk|;
      number := number + 1;
      if number % BATCH == 0 {
        var status := WaitResponse(bus, 5000);
        if status.None? {
          return TimedOut, crc;
        }
        if status.value != STATUS_OK {
          return Rejected(status.value), crc;
        }
      }
      if delay > 0 {
        bus.Sleep(delay);
      }
    }
    assert fw[..sent] == fw;
    outcome := Done;
  }

  method RunDfu(bus: Bus, fw: seq<Octet>, delay: nat) returns (outcome: Outcome)
    modifies bus
    ensures Report(outcome, bus.log, bus.now, bus.inbox)
         == Updating(fw, delay, Report(Done, old(bus.log), old(bus.now), old(bus.inbox)))
    ensures old(bus.log) <= bus.log && Explains(fw, bus.log[|old(bus.log)|..], outcome)
  {
    hide Explains, Wait, Sending, Crc32;
    UpdatingExplained(fw, delay, Report(Done, bus.log, bus.now, bus.inbox));
    // Step 1: REQUEST
    if |fw| >= TWO_32 {
      return PackError;
    }
    bus.Send(Request(|fw|));
    var status := WaitResponse(bus, 15000);
    if status.None? {
      return TimedOut;
    }
    if status.value != STATUS_OK {
      return Rejected(status.value);
    }

    // Step 2: DATA frames
    var crc;
    outcome, crc := SendImage(bus, fw, delay);
    if outcome != Done {
      return;
    }

    // Step 3: COMMIT
    bus.Send(Commit(crc));
    status := WaitResponse(bus, 10000);
    if status.None? {
      return TimedOut;
    }
    if status.value != STATUS_OK {
      return Rejected(status.value);
    }
    outcome := Done;
  }

  /** Whatever arrives and whenever, the dialogue and the outcome fit together. */
  lemma UpdatingExplained(fw: seq<Octet>, delay: nat, at: Report)
    requires at.outcome == Done
    ensures var end := Updating(fw, delay, at);
            at.log <= end.log && Explains(fw, end.log[|at.log|..], end.outcome)
  {
    hide Explains, HostLog, FullLog, Sending;
    if |fw| >= TWO_32 {
      TooLarge(fw);
      assert at.log[|at.log|..] == [];
    } else {
      var log := [Sent(Request(|fw|))];
      RequestAwaits(fw);
      LogIsPart(fw, 0);
      var next := Asked(fw, at.log, log, at.(log := at.log + log), 15000);
      if next.outcome == Done {
        NothingSent(fw);
        SendingExplained(fw, delay, 0, at.log, next);
      }
    }
  }

  lemma {:induction false} SendingExplained(fw: seq<Octet>, delay: nat, k: nat, start: seq<Event>, at: Report)
    requires |fw| < TWO_32 && k <= FrameCount(|fw|) && k <= SEQ_LIMIT
    requires Upto(fw, k) == |fw| ==> k == FrameCount(|fw|)
    requires at.outcome == Done && at.log == start + HostLog(fw, k)
    ensures var end := Sending(fw, delay, k, at);
            start <= end.log && Explains(fw, end.log[|start|..], end.outcome)
    decreases |fw| - Upto(fw, k)
  {
    hide Explains, HostLog, FullLog, FrameCount, Chunk, Upto, Asking, Packable, Crc32, Update, Wait;
    if Upto(fw, k) == |fw| {
      var log := HostLog(fw, k) + [Sent(Commit(Crc32(fw)))];
      CommitAwaits(fw);
      assert at.log + [Sent(Commit(Crc32(fw)))] == start + log;
      var next := Asked(fw, start, log, at.(log := start + log), 10000);
      if next.outcome == Done {
        Finished(fw);
        assert next.log[|start|..] == FullLog(fw);
      }
    } else if k >= SEQ_LIMIT {
      TooMany(fw);
      assert at.log[|start|..] == HostLog(fw, SEQ_LIMIT);
    } else {
      var log := HostLog(fw, k) + [Sent(Data(k, Chunk(fw, k)))];
      var sent := at.(log := start + log);
      assert at.log + [Sent(Data(k, Chunk(fw, k)))] == start + log;
      ChunkIs(fw, k);
      FrameSent(fw, k + 1);
      var next := sent;
      if (k + 1) % BATCH == 0 {
        next := Asked(fw, start, log, sent, 5000);
      }
      if next.outcome == Done {
        SendingExplained(fw, delay, k + 1, start, next.(now := next.now + delay));
      }
    }
  }

  // ---------------------------------------------------------------- its steps in the specification

  lemma TooLarge(fw: seq<Octet>)
    requires |fw| >= TWO_32
    ensures Explains(fw, [], PackError)
  {}

  lemma TooMany(fw: seq<Octet>)
    requires |fw| < TWO_32 && Upto(fw, SEQ_LIMIT) < |fw|
    ensures Explains(fw, HostLog(fw, SEQ_LIMIT), PackError)
  {
    hide HostLog;
  }

  lemma Finished(fw: seq<Octet>)
    requires |fw| < TWO_32 && FrameCount(|fw|) <= SEQ_LIMIT
    ensures Explains(fw, FullLog(fw), Done)
  {
    hide FullLog;
  }

  /** Where the full dialogue has an answer next, silence and refusal are explained, and OK leads on. */
  lemma Asked(fw: seq<Octet>, start: seq<Event>, log: seq<Event>, at: Report, timeout: nat) returns (next: Report)
    requires log + [Got(STATUS_OK)] <= FullLog(fw) && at.log == start + log
    ensures next == Asking(at, timeout) && start <= next.log
    ensures next.outcome == Done ==> next.log == start + (log + [Got(STATUS_OK)])
    ensures next.outcome != Done ==> Explains(fw, next.log[|start|..], next.outcome)
  {
    hide FullLog, Wait;
    next := Asking(at, timeout);
    var heard := next.log[|start|..];
    if next.outcome == TimedOut {
      assert heard == log;
    } else {
      assert heard[..|heard| - 1] == log;
    }
  }

  lemma {:induction false} LogGrows(fw: seq<Octet>, k: nat, n: nat)
    requires k <= n
    ensures HostLog(fw, k) <= HostLog(fw, n)
    decreases n
  {
    if k < n {
      LogGrows(fw, k, n - 1);
    }
  }

  lemma RequestAwaits(fw: seq<Octet>)
    ensures [Sent(Request(|fw|))] + [Got(STATUS_OK)] == HostLog(fw, 0)
  {}

  lemma LogIsPart(fw: seq<Octet>, k: nat)
    requires k <= FrameCount(|fw|)
    ensures HostLog(fw, k) <= FullLog(fw)
  {
    LogGrows(fw, k, FrameCount(|fw|));
    hide HostLog;
  }

  lemma NothingSent(fw: seq<Octet>)
    ensures Upto(fw, 0) == 0 && Crc32(fw[..0]) == 0 && 0 <= FrameCount(|fw|)
    ensures |fw| == 0 ==> FrameCount(|fw|) == 0
  {
    UpdateNothing(0);
    assert fw[..0] == [];
  }

  /** One more chunk of the image. */
  lemma ChunkIs(fw: seq<Octet>, k: nat)
    requires Upto(fw, k) < |fw|
    ensures var sent := Upto(fw, k);
            var chunk := fw[sent..if sent + PAYLOAD <= |fw| then sent + PAYLOAD else |fw|];
            && chunk == Chunk(fw, k) && sent + |chunk| == Upto(fw, k + 1)
            && Update(Crc32(fw[..sent]), chunk) == Crc32(fw[..Upto(fw, k + 1)])
    ensures k < FrameCount(|fw|)
    ensures Upto(fw, k + 1) == |fw| ==> k + 1 == FrameCount(|fw|)
  {
    hide Update;
    var sent, next := Upto(fw, k), Upto(fw, k + 1);
    assert fw[..next] == fw[..sent] + fw[sent..next];
    UpdateAppend(0, fw[..sent], fw[sent..next]);
  }

  lemma FrameSent(fw: seq<Octet>, k: nat)
    requires 0 < k <= FrameCount(|fw|)
    ensures var log := HostLog(fw, k - 1) + [Sent(Data(k - 1, Chunk(fw, k - 1)))];
            if k % BATCH == 0 then log + [Got(STATUS_OK)] == HostLog(fw, k) && HostLog(fw, k) <= FullLog(fw)
            else log == HostLog(fw, k)
  {
    LogIsPart(fw, k);
    hide Chunk, FrameCount, FullLog;
  }

  lemma CommitAwaits(fw: seq<Octet>)
    ensures HostLog(fw, FrameCount(|fw|)) + [Sent(Commit(Crc32(fw)))] + [Got(STATUS_OK)] == FullLog(fw)
  {
    hide HostLog, Crc32;
  }

  // ---------------------------------------------------------------- what waiting finds

  /** Frames come off the bus in the order they arrive. */
  predicate Ordered(inbox: seq<Incoming>) {
    forall i, j :: 0 <= i < j < |inbox| ==> inbox[i].time <= inbox[j].time
  }

  /** Frame `i` is the first extended frame with identifier 0x7E2 and at least one byte. */
  predicate FirstResponse(inbox: seq<Incoming>, i: nat) {
    && i < |inbox| && inbox[i].id == 0x7E2 && inbox[i].extended && |inbox[i].data| >= 1
    && forall j :: 0 <= j < i ==> inbox[j].id != 0x7E2 || !inbox[j].extended || inbox[j].data == []
  }

  /** A response is found exactly when it is in by the deadline and the frame before it was in earlier than that. */
  lemma {:induction false} WaitFinds(now: nat, inbox: seq<Incoming>, deadline: nat, i: nat)
    requires Ordered(inbox) && FirstResponse(inbox, i)
    ensures var (status, time, rest) := Wait(now, inbox, deadline);
            var inTime := now < deadline && inbox[i].time <= deadline && (i > 0 ==> inbox[i - 1].time < deadline);
            if inTime then status == Some(inbox[i].data[0]) && rest == inbox[i + 1..] && time <= deadline
            else status == None
    decreases i
  {
    if i > 0 && now < deadline && inbox[0].time <= deadline {
      assert FirstResponse(inbox[1..], i - 1);
      WaitFinds(if inbox[0].time > now then inbox[0].time else now, inbox[1..], deadline, i - 1);
    }
  }

  /** With no response among the frames, the wait times out, not before its deadline. */
  lemma {:induction false} WaitFindsNone(now: nat, inbox: seq<Incoming>, deadline: nat)
    requires forall j :: 0 <= j < |inbox| ==> inbox[j].id != 0x7E2 || !inbox[j].extended || inbox[j].data == []
    ensures Wait(now, inbox, deadline).0 == None && Wait(now, inbox, deadline).1 >= deadline
    decreases |inbox|
  {
    if now < deadline && inbox != [] && inbox[0].time <= deadline {
      WaitFindsNone(if inbox[0].time > now then inbox[0].time else now, inbox[1..], deadline);
    }
  }

  // ---------------------------------------------------------------- what a full dialogue is worth

  /** The image bytes in the data frames of `log`, in the order they were sent. */
  function Payloads(log: seq<Event>): seq<Octet> {
    if log == [] then []
    else
      var (front, last) := (log[..|log| - 1], log[|log| - 1]);
      Payloads(front) + (if last.Sent? && last.message.Data? then last.message.payload else [])
  }

  function DataSent(log: seq<Event>): nat {
    if log == [] then 0
    else
      var (front, last) := (log[..|log| - 1], log[|log| - 1]);
      DataSent(front) + (if last.Sent? && last.message.Data? then 1 else 0)
  }

  function Answers(log: seq<Event>): nat {
    if log == [] then 0
    else
      var (front, last) := (log[..|log| - 1], log[|log| - 1]);
      Answers(front) + (if last.Got? then 1 else 0)
  }

  /** Every data frame carries the number of data frames before it, fits a CAN frame, and every answer is OK. */
  ghost predicate InOrder(log: seq<Event>) {
    forall i :: 0 <= i < |log| ==>
      match log[i]
      case Sent(Data(number, payload)) => number == DataSent(log[..i]) && 1 <= |payload| <= 6
      case Got(status) => status == 0
      case _ => true
  }

  /** Data frames go out only after the first answer, and never more than 32 of them unacknowledged. */
  ghost predicate InWindow(log: seq<Event>) {
    if Answers(log) == 0 then DataSent(log) == 0
    else DataSent(log) - 32 * (Answers(log) - 1) <= 32
  }

  lemma AddEvent(log: seq<Event>, e: Event)
    ensures Payloads(log + [e]) == Payloads(log) + (if e.Sent? && e.message.Data? then e.message.payload else [])
    ensures DataSent(log + [e]) == DataSent(log) + (if e.Sent? && e.message.Data? then 1 else 0)
    ensures Answers(log + [e]) == Answers(log) + (if e.Got? then 1 else 0)
  {
    assert (log + [e])[..|log|] == log;
  }

  lemma InOrderAdd(log: seq<Event>, e: Event)
    requires InOrder(log)
    requires e.Got? ==> e.status == STATUS_OK
    requires e.Sent? && e.message.Data? ==> e.message.number == DataSent(log) && 1 <= |e.message.payload| <= PAYLOAD
    ensures InOrder(log + [e])
  {
    hide DataSent;
    var longer := log + [e];
    assert longer[..|log|] == log;
    forall i | 0 <= i < |log| ensures longer[..i] == log[..i] && longer[i] == log[i] {}
  }

  /** After `k` data frames: the first bytes of the image, numbered in order, one ACK for every full batch. */
  lemma {:induction false} HostLogIs(fw: seq<Octet>, k: nat)
    requires k <= FrameCount(|fw|)
    ensures Payloads(HostLog(fw, k)) == fw[..Upto(fw, k)]
    ensures DataSent(HostLog(fw, k)) == k && Answers(HostLog(fw, k)) == 1 + k / BATCH
    ensures InOrder(HostLog(fw, k))
    decreases k
  {
    hide HostLog, Payloads, DataSent, Answers, InOrder, Chunk;
    if k == 0 {
      Opening(fw);
    } else {
      HostLogIs(fw, k - 1);
      ChunkSize(fw, k - 1);
      BatchStep(k);
      HostLogStep(fw, k, HostLog(fw, k - 1), Sent(Data(k - 1, Chunk(fw, k - 1))));
    }
  }

  lemma Opening(fw: seq<Octet>)
    ensures Payloads(HostLog(fw, 0)) == fw[..Upto(fw, 0)] && InOrder(HostLog(fw, 0))
    ensures DataSent(HostLog(fw, 0)) == 0 && Answers(HostLog(fw, 0)) == 1
    ensures forall log :: log <= HostLog(fw, 0) ==> InWindow(log)
  {
    var opening := [Sent(Request(|fw|))];
    AddEvent([], Sent(Request(|fw|)));
    assert [] + opening == opening;
    AddEvent(opening, Got(STATUS_OK));
    assert opening + [Got(STATUS_OK)] == HostLog(fw, 0);
    forall log | log <= HostLog(fw, 0) ensures InWindow(log) {
      assert log == [] || log == opening || log == HostLog(fw, 0);
    }
  }

  lemma HostLogStep(fw: seq<Octet>, k: nat, before: seq<Event>, data: Event)
    requires k > 0 && before == HostLog(fw, k - 1) && data == Sent(Data(k - 1, Chunk(fw, k - 1)))
    requires Payloads(before) == fw[..Upto(fw, k - 1)] && DataSent(before) == k - 1 && InOrder(before)
    requires 1 <= |Chunk(fw, k - 1)| <= PAYLOAD
    ensures Payloads(HostLog(fw, k)) == fw[..Upto(fw, k)]
    ensures DataSent(HostLog(fw, k)) == k && InOrder(HostLog(fw, k))
    ensures Answers(HostLog(fw, k)) == Answers(before) + if k % BATCH == 0 then 1 else 0
  {
    hide Payloads, DataSent, Answers, InOrder, Chunk, Upto, HostLog;
    ChunkContinues(fw, k - 1);
    HostLogNext(fw, k);
    var sent := before + [data];
    AddEvent(before, data);
    InOrderAdd(before, data);
    if k % BATCH == 0 {
      AddEvent(sent, Got(STATUS_OK));
      InOrderAdd(sent, Got(STATUS_OK));
    }
  }

  lemma ChunkContinues(fw: seq<Octet>, k: nat)
    ensures fw[..Upto(fw, k + 1)] == fw[..Upto(fw, k)] + Chunk(fw, k)
  {}

  lemma HostLogNext(fw: seq<Octet>, k: nat)
    requires k > 0
    ensures var sent := HostLog(fw, k - 1) + [Sent(Data(k - 1, Chunk(fw, k - 1)))];
            HostLog(fw, k) == if k % BATCH == 0 then sent + [Got(STATUS_OK)] else sent
  {
    hide Chunk;
  }

  lemma BatchStep(k: nat)
    requires k > 0
    ensures k / BATCH == (k - 1) / BATCH + if k % BATCH == 0 then 1 else 0
  {}

  /** Data frame `k` carries the next six bytes, the last one what is left: there are size/6 of them, rounded up. */
  lemma ChunkSize(fw: seq<Octet>, k: nat)
    ensures FrameCount(|fw|) == (|fw| + 5) / 6
    ensures k < FrameCount(|fw|) <==> 6 * k < |fw|
    ensures 6 * k < |fw| ==> Chunk(fw, k) == fw[6 * k..if 6 * k + 6 <= |fw| then 6 * k + 6 else |fw|]
  {}

  /** A finished update sent exactly the image, in order, and read exactly 2 + N/32 answers, all OK. */
  lemma DoneMeans(fw: seq<Octet>, log: seq<Event>)
    requires Explains(fw, log, Done)
    ensures Payloads(log) == fw && InOrder(log)
    ensures DataSent(log) == (|fw| + 5) / 6 <= 0x1_0000 && Answers(log) == 2 + (|fw| + 5) / 6 / 32
    ensures log[|log| - 2] == Sent(Commit(Crc32(fw)))
  {
    hide Payloads, DataSent, Answers, InOrder, HostLog, Crc32;
    var sent := HostLog(fw, FrameCount(|fw|));
    HostLogIs(fw, FrameCount(|fw|));
    assert fw[..Upto(fw, FrameCount(|fw|))] == fw;
    AddEvent(sent, Sent(Commit(Crc32(fw))));
    InOrderAdd(sent, Sent(Commit(Crc32(fw))));
    var asked := sent + [Sent(Commit(Crc32(fw)))];
    AddEvent(asked, Got(STATUS_OK));
    InOrderAdd(asked, Got(STATUS_OK));
    assert log == asked + [Got(STATUS_OK)];
  }

  lemma {:induction false} WindowUpTo(fw: seq<Octet>, k: nat, log: seq<Event>)
    requires k <= FrameCount(|fw|) && log <= HostLog(fw, k)
    ensures InWindow(log)
    decreases k
  {
    hide FrameCount, Chunk, HostLog, DataSent, Answers, Payloads, InOrder;
    if k == 0 {
      Opening(fw);
    } else if log <= HostLog(fw, k - 1) {
      WindowUpTo(fw, k - 1, log);
    } else {
      var before, data := HostLog(fw, k - 1), Sent(Data(k - 1, Chunk(fw, k - 1)));
      HostLogIs(fw, k - 1);
      HostLogIs(fw, k);
      AddEvent(before, data);
      BatchStep(k);
      LongerPrefix(fw, k, log);
    }
  }

  lemma LongerPrefix(fw: seq<Octet>, k: nat, log: seq<Event>)
    requires k > 0 && log <= HostLog(fw, k) && !(log <= HostLog(fw, k - 1))
    ensures log == HostLog(fw, k - 1) + [Sent(Data(k - 1, Chunk(fw, k - 1)))] || log == HostLog(fw, k)
  {
    hide Chunk;
    var sent := HostLog(fw, k - 1) + [Sent(Data(k - 1, Chunk(fw, k - 1)))];
    assert |log| > |HostLog(fw, k - 1)|;
    assert |log| == |sent| ==> log == sent;
  }

  /** Flow control: at every point of the dialogue. */
  lemma Window(fw: seq<Octet>, log: seq<Event>)
    requires log <= FullLog(fw)
    ensures InWindow(log)
  {
    hide InWindow, HostLog, Crc32, DataSent, Answers;
    var sent := HostLog(fw, FrameCount(|fw|));
    var asked := sent + [Sent(Commit(Crc32(fw)))];
    WindowUpTo(fw, FrameCount(|fw|), if |log| <= |sent| then log else sent);
    if |log| == |sent| + 1 {
      assert log == asked;
      CommitKeepsWindow(sent, Sent(Commit(Crc32(fw))));
    } else if |log| == |sent| + 2 {
      assert log == asked + [Got(STATUS_OK)];
      CommitKeepsWindow(sent, Sent(Commit(Crc32(fw))));
      CommitKeepsWindow(asked, Got(STATUS_OK));
    }
  }

  lemma CommitKeepsWindow(log: seq<Event>, e: Event)
    requires InWindow(log) && (e.Got? || e.message.Commit?)
    ensures InWindow(log + [e])
  {
    hide DataSent, Answers;
    AddEvent(log, e);
  }

  /** An update that breaks off does so where an answer is due: refused by another than 0, or for want of one. */
  lemma BrokeOff(fw: seq<Octet>, log: seq<Event>, outcome: Outcome)
    requires Explains(fw, log, outcome) && (outcome.Rejected? || outcome.TimedOut?)
    ensures var heard := if outcome.Rejected? then log[..|log| - 1] else log;
            && heard <= FullLog(fw) && InOrder(heard) && InWindow(heard)
            && |heard| < |FullLog(fw)| && FullLog(fw)[|heard|] == Got(0)
    ensures outcome.Rejected? ==> outcome.status != 0 && log[|log| - 1] == Got(outcome.status)
  {
    var heard := if outcome.Rejected? then log[..|log| - 1] else log;
    var full := FullLog(fw);
    Window(fw, heard);
    FullLogInOrder(fw);
    hide InWindow, FullLog, DataSent, Answers;
    assert (heard + [Got(0)])[|heard|] == full[|heard|];
    forall i | 0 <= i < |heard| ensures heard[i] == full[i] && heard[..i] == full[..i] {}
  }

  lemma FullLogInOrder(fw: seq<Octet>)
    ensures InOrder(FullLog(fw))
  {
    hide InOrder, HostLog, Crc32;
    var sent := HostLog(fw, FrameCount(|fw|));
    HostLogIs(fw, FrameCount(|fw|));
    InOrderAdd(sent, Sent(Commit(Crc32(fw))));
    InOrderAdd(sent + [Sent(Commit(Crc32(fw)))], Got(0));
    assert FullLog(fw) == sent + [Sent(Commit(Crc32(fw)))] + [Got(0)];
  }

  /** Images up to 65536 frames can be sent, and no others: the 234 KiB slots of the board are within that. */
  lemma WhichFit(fw: seq<Octet>)
    ensures Packable(fw) <==> |fw| <= 393216
    ensures |fw| <= 239616 ==> Packable(fw)
  {}

  /** An update of a larger image sends 65536 numbered frames before it fails, unless the size does not fit either. */
  lemma PackErrorMeans(fw: seq<Octet>, log: seq<Event>)
    requires Explains(fw, log, PackError)
    ensures |fw| > 393216
    ensures if |fw| >= 0x1_0000_0000 then log == []
            else InOrder(log) && DataSent(log) == 0x1_0000 && Answers(log) == 1 + 2048 && Payloads(log) == fw[..393216]
  {
    WhichFit(fw);
    if |fw| < TWO_32 {
      HostLogIs(fw, SEQ_LIMIT);
    }
    hide InOrder, DataSent, Answers, Payloads;
  }

  // ---------------------------------------------------------------- the dialogue, event by event

  /** Two events to open, then a frame each time, and an answer after each 32. */
  lemma {:induction false} HostLogLength(fw: seq<Octet>, k: nat)
    ensures |HostLog(fw, k)| == 2 + k + k / 32
    decreases k
  {
    if k > 0 {
      HostLogLength(fw, k - 1);
      BatchStep(k);
      HostLogNext(fw, k);
      hide HostLog;
    }
  }

  /** It opens with the size, closes with the CRC, and both are answered. */
  lemma OpenAndClose(fw: seq<Octet>)
    ensures var log := FullLog(fw);
            && |log| == 4 + (|fw| + 5) / 6 + (|fw| + 5) / 6 / 32
            && log[0] == Sent(Request(|fw|)) && log[1] == Got(0)
            && log[|log| - 2] == Sent(Commit(Crc32(fw))) && log[|log| - 1] == Got(0)
  {
    var n := FrameCount(|fw|);
    HostLogLength(fw, n);
    LogGrows(fw, 0, n);
    assert HostLog(fw, 0) == [Sent(Request(|fw|)), Got(0)];
    hide HostLog, Crc32;
    assert HostLog(fw, n)[..2] == HostLog(fw, 0);
  }

  /** Where data frame `k` stands, and that an answer is awaited next just if it is the last of 32. */
  lemma FrameAt(fw: seq<Octet>, k: nat)
    requires 6 * k < |fw|
    ensures var log, at := FullLog(fw), 2 + k + k / 32;
            && at + 1 < |log|
            && log[at] == Sent(Data(k, fw[6 * k..if 6 * k + 6 <= |fw| then 6 * k + 6 else |fw|]))
            && (if (k + 1) % 32 == 0 then log[at + 1] == Got(0) else log[at + 1].Sent?)
  {
    ChunkSize(fw, k);
    HostLogLength(fw, k);
    hide HostLog, Chunk, FullLog, FrameCount;
    FrameAndNext(fw, k, HostLog(fw, k), FullLog(fw));
  }

  lemma FrameAndNext(fw: seq<Octet>, k: nat, before: seq<Event>, log: seq<Event>)
    requires k < FrameCount(|fw|) && before == HostLog(fw, k) && log == FullLog(fw)
    ensures |before| + 1 < |log| && log[|before|] == Sent(Data(k, Chunk(fw, k)))
    ensures if (k + 1) % 32 == 0 then log[|before| + 1] == Got(0) else log[|before| + 1].Sent?
  {
    hide HostLog, Chunk, FullLog, FrameCount, Crc32;
    var sent := before + [Sent(Data(k, Chunk(fw, k)))];
    FrameSent(fw, k + 1);
    if (k + 1) % 32 == 0 {
      assert (sent + [Got(0)])[|before|] == log[|before|];
    } else if k + 1 == FrameCount(|fw|) {
      CommitAwaits(fw);
    } else {
      var next := Sent(Data(k + 1, Chunk(fw, k + 1)));
      HostLogNext(fw, k + 2);
      LogIsPart(fw, k + 2);
      assert sent + [next] <= log;
      assert (sent + [next])[|before|] == log[|before|];
    }
  }

  // ---------------------------------------------------------------- when an answer is still heard

  /** Frame `i` is the first response and comes within `timeout` of `now`, in time for the last look at the bus. */
  predicate Heard(now: nat, inbox: seq<Incoming>, timeout: nat, i: nat) {
    FirstResponse(inbox, i) && inbox[i].time <= now + timeout && (i > 0 ==> inbox[i - 1].time < now + timeout)
  }

  lemma {:induction false} SendingExtends(fw: seq<Octet>, delay: nat, k: nat, at: Report)
    ensures at.log <= Sending(fw, delay, k, at).log
    decreases |fw| - Upto(fw, k)
  {
    hide Chunk, Crc32, Wait, FrameCount;
    if Upto(fw, k) < |fw| && k < SEQ_LIMIT {
      var sent := at.(log := at.log + [Sent(Data(k, Chunk(fw, k)))]);
      var next := if (k + 1) % BATCH == 0 then Asking(sent, 5000) else sent;
      SendingExtends(fw, delay, k + 1, next.(now := next.now + delay));
    }
  }

  lemma Answer(at: Report, timeout: nat, i: nat)
    requires timeout > 0 && Ordered(at.inbox) && FirstResponse(at.inbox, i)
    ensures var next := Asking(at, timeout);
            if Heard(at.now, at.inbox, timeout, i) then
              && next.log == at.log + [Got(at.inbox[i].data[0])] && next.inbox == at.inbox[i + 1..]
              && next.outcome == if at.inbox[i].data[0] == 0 then Done else Rejected(at.inbox[i].data[0])
            else next.outcome == TimedOut && next.log == at.log
  {
    WaitFinds(at.now, at.inbox, at.now + timeout, i);
  }

  /** The answer to the REQUEST is waited for 15 s. */
  lemma RequestHeard(fw: seq<Octet>, delay: nat, at: Report, i: nat)
    requires |fw| < 0x1_0000_0000 && at.outcome == Done && Ordered(at.inbox) && FirstResponse(at.inbox, i)
    ensures var end := Updating(fw, delay, at);
            var asked := at.log + [Sent(Request(|fw|))];
            if Heard(at.now, at.inbox, 15000, i) then asked + [Got(at.inbox[i].data[0])] <= end.log
            else end.outcome == TimedOut && end.log == asked
  {
    var sent := at.(log := at.log + [Sent(Request(|fw|))]);
    Answer(sent, 15000, i);
    hide Asking, Sending, Heard;
    var next := Asking(sent, 15000);
    SendingExtends(fw, delay, 0, next);
  }

  lemma BatchAsked(fw: seq<Octet>, delay: nat, k: nat, at: Report)
    requires 6 * k < |fw| && k < 0x1_0000 && (k + 1) % 32 == 0
    ensures var next := Asking(at.(log := at.log + [Sent(Data(k, Chunk(fw, k)))]), 5000);
            Sending(fw, delay, k, at) ==
            if next.outcome == Done then Sending(fw, delay, k + 1, next.(now := next.now + delay)) else next
  {
    hide Asking, Chunk, Crc32;
  }

  /** That to a full batch 5 s. */
  lemma BatchHeard(fw: seq<Octet>, delay: nat, k: nat, at: Report, i: nat)
    requires 6 * k < |fw| && k < 0x1_0000 && (k + 1) % 32 == 0
    requires at.outcome == Done && Ordered(at.inbox) && FirstResponse(at.inbox, i)
    ensures var end := Sending(fw, delay, k, at);
            var asked := at.log + [Sent(Data(k, Chunk(fw, k)))];
            if Heard(at.now, at.inbox, 5000, i) then asked + [Got(at.inbox[i].data[0])] <= end.log
            else end.outcome == TimedOut && end.log == asked
  {
    BatchAsked(fw, delay, k, at);
    hide Asking, Heard, Chunk, Sending;
    var sent := at.(log := at.log + [Sent(Data(k, Chunk(fw, k)))]);
    Answer(sent, 5000, i);
    var next := Asking(sent, 5000);
    SendingExtends(fw, delay, k + 1, next.(now := next.now + delay));
  }

  /** And that to the COMMIT 10 s. */
  lemma CommitHeard(fw: seq<Octet>, delay: nat, k: nat, at: Report, i: nat)
    requires 6 * k >= |fw| && at.outcome == Done && Ordered(at.inbox) && FirstResponse(at.inbox, i)
    ensures var end := Sending(fw, delay, k, at);
            var asked := at.log + [Sent(Commit(Crc32(fw)))];
            if Heard(at.now, at.inbox, 10000, i) then end.log == asked + [Got(at.inbox[i].data[0])]
            else end.outcome == TimedOut && end.log == asked
  {
    var sent := at.(log := at.log + [Sent(Commit(Crc32(fw)))]);
    Answer(sent, 10000, i);
    hide Asking, Heard, Crc32;
  }

  // ---------------------------------------------------------------- with a device that answers at once

  /** All these frames are in already, and each is an OK. */
  predicate Prompt(now: nat, inbox: seq<Incoming>) {
    forall j :: 0 <= j < |inbox| ==>
      inbox[j].time <= now && inbox[j].id == 0x7E2 && inbox[j].extended && |inbox[j].data| >= 1 && inbox[j].data[0] == 0
  }

  lemma PromptAnswer(at: Report, timeout: nat)
    requires timeout > 0 && Prompt(at.now, at.inbox) && at.inbox != []
    ensures Asking(at, timeout) == Report(Done, at.log + [Got(0)], at.now, at.inbox[1..])
  {}

  lemma PromptStep(fw: seq<Octet>, delay: nat, k: nat, start: seq<Event>, at: Report) returns (next: Report)
    requires Packable(fw) && k < FrameCount(|fw|) && Prompt(at.now, at.inbox) && at.inbox != []
    requires at.outcome == Done && at.log == start + HostLog(fw, k)
    ensures Sending(fw, delay, k, at) == Sending(fw, delay, k + 1, next)
    ensures next.outcome == Done && next.log == start + HostLog(fw, k + 1) && next.now == at.now + delay
    ensures next.inbox == if (k + 1) % 32 == 0 then at.inbox[1..] else at.inbox
  {
    hide Chunk, HostLog, Asking, Crc32, Prompt;
    var data := Sent(Data(k, Chunk(fw, k)));
    var sent := at.(log := at.log + [data]);
    ChunkSize(fw, k);
    HostLogNext(fw, k + 1);
    assert start + HostLog(fw, k) + [data] == start + (HostLog(fw, k) + [data]);
    next := sent;
    if (k + 1) % 32 == 0 {
      PromptAnswer(sent, 5000);
      next := Asking(sent, 5000);
    }
    next := next.(now := next.now + delay);
  }

  lemma PromptEnd(fw: seq<Octet>, delay: nat, start: seq<Event>, at: Report)
    requires Prompt(at.now, at.inbox) && at.inbox != []
    requires at.outcome == Done && at.log == start + HostLog(fw, FrameCount(|fw|))
    ensures Sending(fw, delay, FrameCount(|fw|), at) == Report(Done, start + FullLog(fw), at.now, at.inbox[1..])
  {
    hide HostLog, FullLog, Asking, Crc32, Prompt;
    var sent := at.(log := at.log + [Sent(Commit(Crc32(fw)))]);
    CommitAwaits(fw);
    PromptAnswer(sent, 10000);
    var log := HostLog(fw, FrameCount(|fw|));
    assert start + log + [Sent(Commit(Crc32(fw)))] + [Got(0)] == start + (log + [Sent(Commit(Crc32(fw)))] + [Got(0)]);
  }

  /** `n` pauses. */
  function Pauses(n: nat, delay: nat): nat {
    n * delay
  }

  lemma OnePause(n: nat, delay: nat)
    requires n > 0
    ensures Pauses(n, delay) == delay + Pauses(n - 1, delay) && Pauses(0, delay) == 0
  {}

  /** Batch ACKs among the first `k` frames. */
  function Acks(k: nat): nat {
    k / 32
  }

  lemma NextAck(k: nat)
    ensures Acks(k + 1) == Acks(k) + if (k + 1) % 32 == 0 then 1 else 0
  {}

  lemma AcksGrow(k: nat, n: nat)
    requires k <= n
    ensures Acks(k) <= Acks(n)
  {}

  /** The run has come to data frame `k`, and of the frames still to come `read` will be read. */
  ghost predicate OnTheWay(
    fw: seq<Octet>, k: nat, start: seq<Event>, at: Report, read: seq<Incoming>, rest: seq<Incoming>)
  {
    && k <= FrameCount(|fw|) && Prompt(at.now, at.inbox) && at.outcome == Done && at.log == start + HostLog(fw, k)
    && at.inbox == read + rest && |read| == 1 + Acks(FrameCount(|fw|)) - Acks(k)
  }

  lemma NextOnTheWay(
    fw: seq<Octet>, delay: nat, k: nat, start: seq<Event>, at: Report, read: seq<Incoming>, rest: seq<Incoming>)
    returns (next: Report, left: seq<Incoming>)
    requires Packable(fw) && OnTheWay(fw, k, start, at, read, rest) && k < FrameCount(|fw|)
    ensures OnTheWay(fw, k + 1, start, next, left, rest) && next.now == at.now + delay
    ensures Sending(fw, delay, k, at) == Sending(fw, delay, k + 1, next)
  {
    AcksGrow(k + 1, FrameCount(|fw|));
    NextAck(k);
    hide FrameCount, HostLog, Sending, Prompt, Packable, Acks;
    FirstRead(read, rest);
    next := PromptStep(fw, delay, k, start, at);
    StillPrompt(at, next);
    left := if (k + 1) % 32 == 0 then read[1..] else read;
  }

  lemma EndOfTheWay(
    fw: seq<Octet>, delay: nat, k: nat, start: seq<Event>, at: Report, read: seq<Incoming>, rest: seq<Incoming>)
    requires OnTheWay(fw, k, start, at, read, rest) && k == FrameCount(|fw|)
    ensures Sending(fw, delay, k, at) == Report(Done, start + FullLog(fw), at.now, rest)
  {
    hide FrameCount, HostLog, FullLog, Sending, Prompt, Acks;
    FirstRead(read, rest);
    PromptEnd(fw, delay, start, at);
  }

  lemma {:induction false} PromptSending(
    fw: seq<Octet>, delay: nat, k: nat, start: seq<Event>, at: Report, read: seq<Incoming>, end: Report)
    requires Packable(fw) && OnTheWay(fw, k, start, at, read, end.inbox) && k <= FrameCount(|fw|)
    requires end.outcome == Done && end.log == start + FullLog(fw)
    requires end.now == at.now + Pauses(FrameCount(|fw|) - k, delay)
    ensures Sending(fw, delay, k, at) == end
    decreases FrameCount(|fw|) - k
  {
    hide *;
    if k == FrameCount(|fw|) {
      OnePause(1, delay);
      EndOfTheWay(fw, delay, k, start, at, read, end.inbox);
    } else {
      OnePause(FrameCount(|fw|) - k, delay);
      var next, left := NextOnTheWay(fw, delay, k, start, at, read, end.inbox);
      PromptSending(fw, delay, k + 1, start, next, left, end);
    }
  }

  lemma FirstRead(read: seq<Incoming>, rest: seq<Incoming>)
    requires read != []
    ensures (read + rest)[1..] == read[1..] + rest && (|read| == 1 ==> (read + rest)[1..] == rest)
  {}

  lemma StillPrompt(at: Report, next: Report)
    requires Prompt(at.now, at.inbox) && next.now >= at.now
    requires next.inbox == at.inbox || (at.inbox != [] && next.inbox == at.inbox[1..])
    ensures Prompt(next.now, next.inbox)
  {}

  /**
   * If all the answers the dialogue needs are there and OK, the update of every image that fits is completed, it
   * takes just the pauses between the data frames, and further answers are not read.
   */
  lemma PromptUpdate(fw: seq<Octet>, delay: nat, at: Report)
    requires Packable(fw) && at.outcome == Done && Prompt(at.now, at.inbox)
    requires |at.inbox| >= 2 + (|fw| + 5) / 6 / 32
    ensures var n := (|fw| + 5) / 6;
            Updating(fw, delay, at)
            == Report(Done, at.log + FullLog(fw), at.now + n * delay, at.inbox[2 + n / 32..])
  {
    hide HostLog, FullLog, Sending, Prompt, Asking;
    var sent := at.(log := at.log + [Sent(Request(|fw|))]);
    PromptAnswer(sent, 15000);
    var next := Asking(sent, 15000);
    StillPrompt(at, next);
    RequestAwaits(fw);
    assert at.log + [Sent(Request(|fw|))] + [Got(0)] == at.log + HostLog(fw, 0);
    var read := 1 + FrameCount(|fw|) / 32;
    assert next.inbox == next.inbox[..read] + next.inbox[read..];
    var n := FrameCount(|fw|);
    PromptSending(fw, delay, 0, at.log, next, next.inbox[..read],
      Report(Done, at.log + FullLog(fw), at.now + n * delay, next.inbox[read..]));
  }

  lemma {:induction false} TimeGoesOn(now: nat, inbox: seq<Incoming>, deadline: nat)
    ensures Wait(now, inbox, deadline).1 >= now
    decreases |inbox|
  {
    if now < deadline && inbox != [] && inbox[0].time <= deadline {
      TimeGoesOn(if inbox[0].time > now then inbox[0].time else now, inbox[1..], deadline);
    }
  }

  lemma SendingTakesOnce(fw: seq<Octet>, delay: nat, k: nat, at: Report) returns (next: Report)
    requires k < FrameCount(|fw|) && Sending(fw, delay, k, at).outcome == Done
    ensures Sending(fw, delay, k, at) == Sending(fw, delay, k + 1, next) && next.now >= at.now + delay
  {
    hide Chunk, Crc32, Wait;
    TimeGoesOn(at.now, at.inbox, at.now + 5000);
    var sent := at.(log := at.log + [Sent(Data(k, Chunk(fw, k)))]);
    next := if (k + 1) % BATCH == 0 then Asking(sent, 5000) else sent;
    next := next.(now := next.now + delay);
  }

  lemma {:induction false} SendingTakes(fw: seq<Octet>, delay: nat, k: nat, at: Report)
    requires k <= FrameCount(|fw|) && Sending(fw, delay, k, at).outcome == Done
    ensures Sending(fw, delay, k, at).now >= at.now + Pauses(FrameCount(|fw|) - k, delay)
    decreases FrameCount(|fw|) - k
  {
    if k < FrameCount(|fw|) {
      hide Sending, FrameCount;
      var next := SendingTakesOnce(fw, delay, k, at);
      OnePause(FrameCount(|fw|) - k, delay);
      hide Pauses;
      SendingTakes(fw, delay, k + 1, next);
    } else {
      TimeGoesOn(at.now, at.inbox, at.now + 10000);
      hide Crc32, Wait;
    }
  }

  /** However late the answers: a finished update has paused after each of its data frames. */
  lemma UpdateTakes(fw: seq<Octet>, delay: nat, at: Report)
    requires Updating(fw, delay, at).outcome == Done
    ensures Updating(fw, delay, at).now >= at.now + (|fw| + 5) / 6 * delay
  {
    hide Wait, Sending;
    var sent := at.(log := at.log + [Sent(Request(|fw|))]);
    TimeGoesOn(at.now, at.inbox, at.now + 15000);
    SendingTakes(fw, delay, 0, Asking(sent, 15000));
  }
}

/**
 * The update tool and the device as two processes on the bus, step by step. The tool's side is the dialogue of
 * `DfuHost`; the device's side is an assumption, taken from the protocol text of the tool, since the firmware's
 * own receiver is not part of this model. The channels are queues; a run may also lose, copy and move frames.
 */
module DfuProtocol {
  import opened Prelude
  import opened Crc
  import opened DfuHost

  /** Where the tool stands, with the number of data frames it has sent. A tool that gives up just stops. */
  datatype Host =
    | Idle
    | WaitRequest
    | Upload(k: nat)
    | WaitBatch(k: nat)
    | WaitCommit
    | Success
    | Failure(status: Byte)

  /** The device: waiting for a REQUEST, taking data, or rebooting into a committed image. */
  datatype Phase = Off | Receiving | Committed

  datatype State = State(
    host: Host, log: seq<Event>,
    toDevice: seq<Message>, toHost: seq<Byte>,
    phase: Phase, image: seq<Octet>, accepted: nat,
    // What has happened so far: requests served, batches acknowledged, frames accepted over all sessions, commits
    // confirmed; copies made by the bus of REQUESTs and of OK answers.
    served: nat, batches: nat, total: nat, confirmed: nat,
    copiedRequests: nat, copiedOks: nat,
    // Batch ACKs the tool has passed.
    passed: nat)

  datatype Step =
    | HostSend
    | HostRead
    | DeviceStep
    // A channel that misbehaves, and a device that reports an error.
    | Lose(i: nat)
    | Copy(i: nat, at: nat)
    | Move(i: nat, at: nat)
    | LoseStatus(i: nat)
    | CopyStatus(i: nat, at: nat)
    | MoveStatus(i: nat, at: nat)
    | Complain(status: Byte)

  const INIT := State(Idle, [], [], [], Off, [], 0, 0, 0, 0, 0, 0, 0, 0)

  // ---------------------------------------------------------------- the tool

  /** What the tool sends next, unless it is waiting or the number does not fit. */
  function Sends(fw: seq<Octet>, h: Host): Option<Message> {
    match h
    case Idle => if |fw| < TWO_32 then Some(Request(|fw|)) else None
    case Upload(k) =>
      if Upto(fw, k) == |fw| then Some(Commit(Crc32(fw)))
      else if k < SEQ_LIMIT then Some(Data(k, Chunk(fw, k)))
      else None
    case _ => None
  }

  function AfterSend(fw: seq<Octet>, h: Host): Host
    requires Sends(fw, h).Some?
  {
    match h
    case Idle => WaitRequest
    case Upload(k) =>
      if Upto(fw, k) == |fw| then WaitCommit
      else if (k + 1) % BATCH == 0 then WaitBatch(k + 1)
      else Upload(k + 1)
  }

  predicate Waits(h: Host) {
    h.WaitRequest? || h.WaitBatch? || h.WaitCommit?
  }

  function AfterRead(h: Host, status: Byte): Host
    requires Waits(h)
  {
    if status != STATUS_OK then Failure(status)
    else
      match h
      case WaitRequest => Upload(0)
      case WaitBatch(k) => Upload(k)
      case WaitCommit => Success
  }

  // ---------------------------------------------------------------- the device (assumed)

  const STATUS_CRC_FAIL: Byte := 1

  /** A frame reaches the device: at most one status comes back. Data out of sequence is not taken. */
  function Process(s: State, m: Message): State {
    match m
    case Request(_) =>
      if s.phase.Committed? then s
      else s.(phase := Receiving, image := [], accepted := 0, toHost := s.toHost + [STATUS_OK], served := s.served + 1)
    case Data(number, payload) =>
      if !s.phase.Receiving? || number != s.accepted then s
      else
        var t := s.(image := s.image + payload, accepted := s.accepted + 1, total := s.total + 1);
        if t.accepted % BATCH == 0 then t.(toHost := s.toHost + [STATUS_OK], batches := s.batches + 1) else t
    case Commit(crc) =>
      if !s.phase.Receiving? then s
      else if Crc32(s.image) == crc then
        s.(phase := Committed, toHost := s.toHost + [STATUS_OK], confirmed := s.confirmed + 1)
      else s.(toHost := s.toHost + [STATUS_CRC_FAIL])
  }

  // ---------------------------------------------------------------- steps and runs

  function Without<T>(q: seq<T>, i: nat): seq<T>
    requires i < |q|
  {
    q[..i] + q[i + 1..]
  }

  function With<T>(q: seq<T>, at: nat, x: T): seq<T>
    requires at <= |q|
  {
    q[..at] + [x] + q[at..]
  }

  predicate Enabled(fw: seq<Octet>, s: State, step: Step) {
    match step
    case HostSend => Sends(fw, s.host).Some?
    case HostRead => Waits(s.host) && s.toHost != []
    case DeviceStep => s.toDevice != []
    case Lose(i) => i < |s.toDevice|
    case Copy(i, at) => i < |s.toDevice| && at <= |s.toDevice|
    case Move(i, at) => i < |s.toDevice| && at < |s.toDevice|
    case LoseStatus(i) => i < |s.toHost|
    case CopyStatus(i, at) => i < |s.toHost| && at <= |s.toHost|
    case MoveStatus(i, at) => i < |s.toHost| && at < |s.toHost|
    case Complain(status) => status != STATUS_OK
  }

  function Do(fw: seq<Octet>, s: State, step: Step): State
    requires Enabled(fw, s, step)
  {
    match step
    case HostSend =>
      var m := Sends(fw, s.host).value;
      s.(host := AfterSend(fw, s.host), log := s.log + [Sent(m)], toDevice := s.toDevice + [m])
    case HostRead =>
      s.(host := AfterRead(s.host, s.toHost[0]), log := s.log + [Got(s.toHost[0])], toHost := s.toHost[1..],
         passed := s.passed + if s.host.WaitBatch? && s.toHost[0] == STATUS_OK then 1 else 0)
    case DeviceStep => Process(s.(toDevice := s.toDevice[1..]), s.toDevice[0])
    case Lose(i) => s.(toDevice := Without(s.toDevice, i))
    case Copy(i, at) =>
      s.(toDevice := With(s.toDevice, at, s.toDevice[i]),
         copiedRequests := s.copiedRequests + if s.toDevice[i].Request? then 1 else 0)
    case Move(i, at) => s.(toDevice := With(Without(s.toDevice, i), at, s.toDevice[i]))
    case LoseStatus(i) => s.(toHost := Without(s.toHost, i))
    case CopyStatus(i, at) =>
      s.(toHost := With(s.toHost, at, s.toHost[i]),
         copiedOks := s.copiedOks + if s.toHost[i] == STATUS_OK then 1 else 0)
    case MoveStatus(i, at) => s.(toHost := With(Without(s.toHost, i), at, s.toHost[i]))
    case Complain(status) => s.(toHost := s.toHost + [status])
  }

  predicate Runs(fw: seq<Octet>, s: State, steps: seq<Step>, t: State)
    decreases |steps|
  {
    if steps == [] then s == t
    else Enabled(fw, s, steps[0]) && Runs(fw, Do(fw, s, steps[0]), steps[1..], t)
  }

  /** A bus that keeps every frame in order and a device with nothing to complain about. */
  predicate Faultless(steps: seq<Step>) {
    forall i :: 0 <= i < |steps| ==> steps[i].HostSend? || steps[i].HostRead? || steps[i].DeviceStep?
  }

  // ---------------------------------------------------------------- the tool's side is the dialogue of `DfuHost`

  /** The dialogue that has led the tool to `h`. */
  function LogAt(fw: seq<Octet>, h: Host): seq<Event> {
    match h
    case Idle => []
    case WaitRequest => [Sent(Request(|fw|))]
    case Upload(k) => HostLog(fw, k)
    case WaitBatch(k) => if k == 0 then [] else HostLog(fw, k - 1) + [Sent(Data(k - 1, Chunk(fw, k - 1)))]
    case WaitCommit => HostLog(fw, FrameCount(|fw|)) + [Sent(Commit(Crc32(fw)))]
    case Success => FullLog(fw)
    case Failure(_) => []
  }

  /** Where the tool can be. */
  predicate HostAt(fw: seq<Octet>, h: Host) {
    match h
    case Idle => true
    case Failure(status) => |fw| < TWO_32 && status != STATUS_OK
    case Upload(k) => |fw| < TWO_32 && k <= FrameCount(|fw|) && k <= SEQ_LIMIT
    case WaitBatch(k) => |fw| < TWO_32 && 0 < k <= FrameCount(|fw|) && k <= SEQ_LIMIT && k % BATCH == 0
    case WaitRequest => |fw| < TWO_32
    case _ => Packable(fw)
  }

  /** The log is the dialogue up to here, or that up to the refusal. */
  ghost predicate HostInv(fw: seq<Octet>, s: State) {
    && HostAt(fw, s.host)
    && (if s.host.Failure? then Explains(fw, s.log, Rejected(s.host.status)) else s.log == LogAt(fw, s.host))
  }

  lemma SendFollows(fw: seq<Octet>, h: Host)
    requires HostAt(fw, h) && Sends(fw, h).Some?
    ensures HostAt(fw, AfterSend(fw, h)) && !AfterSend(fw, h).Failure?
    ensures LogAt(fw, AfterSend(fw, h)) == LogAt(fw, h) + [Sent(Sends(fw, h).value)]
  {
    hide FullLog, Chunk, Crc32;
    match h {
      case Idle =>
      case Upload(k) =>
        AtTheEnd(fw, k);
        if Upto(fw, k) < |fw| && (k + 1) % BATCH != 0 {
          assert HostLog(fw, k + 1) == HostLog(fw, k) + [Sent(Data(k, Chunk(fw, k)))];
        }
    }
  }

  lemma AtTheEnd(fw: seq<Octet>, k: nat)
    requires k <= FrameCount(|fw|)
    ensures Upto(fw, k) == |fw| <==> k == FrameCount(|fw|)
  {}

  lemma ReadFollows(fw: seq<Octet>, h: Host)
    requires HostAt(fw, h) && Waits(h)
    ensures HostAt(fw, AfterRead(h, STATUS_OK)) && LogAt(fw, AfterRead(h, STATUS_OK)) == LogAt(fw, h) + [Got(STATUS_OK)]
    ensures LogAt(fw, h) + [Got(STATUS_OK)] <= FullLog(fw)
  {
    hide Chunk, Crc32;
    match h {
      case WaitRequest => RequestAwaits(fw); LogIsPart(fw, 0);
      case WaitBatch(k) => FrameSent(fw, k);
      case WaitCommit => CommitAwaits(fw);
    }
  }

  lemma RefusalExplained(fw: seq<Octet>, log: seq<Event>, status: Byte)
    requires log + [Got(STATUS_OK)] <= FullLog(fw) && status != STATUS_OK
    ensures Explains(fw, log + [Got(status)], Rejected(status))
  {
    hide FullLog;
    var heard := log + [Got(status)];
    assert heard[..|heard| - 1] == log;
  }

  lemma SendKeepsHost(fw: seq<Octet>, s: State)
    requires HostInv(fw, s) && Enabled(fw, s, HostSend)
    ensures HostInv(fw, Do(fw, s, HostSend))
  {
    SendFollows(fw, s.host);
    hide HostAt, LogAt, Explains, FullLog, Crc32;
  }

  lemma ReadKeepsHost(fw: seq<Octet>, s: State)
    requires HostInv(fw, s) && Enabled(fw, s, HostRead)
    ensures HostInv(fw, Do(fw, s, HostRead))
  {
    hide LogAt, Explains, FullLog;
    ReadFollows(fw, s.host);
    if s.toHost[0] != STATUS_OK {
      RefusalExplained(fw, s.log, s.toHost[0]);
    }
  }

  /** The device and the bus do not touch the tool. */
  lemma OthersKeepHost(fw: seq<Octet>, s: State, step: Step)
    requires HostInv(fw, s) && Enabled(fw, s, step) && !step.HostSend? && !step.HostRead?
    ensures HostInv(fw, Do(fw, s, step))
  {
    hide HostAt, LogAt, Explains, Without, With, Crc32;
  }

  // ---------------------------------------------------------------- a faultless bus

  /** Data frames `a` up to `b`, in order. */
  function Frames(fw: seq<Octet>, a: nat, b: nat): seq<Message>
    decreases b - a
  {
    if a >= b then [] else [Data(a, Chunk(fw, a))] + Frames(fw, a + 1, b)
  }

  lemma {:induction false} FramesMore(fw: seq<Octet>, a: nat, b: nat)
    requires a <= b
    ensures Frames(fw, a, b) + [Data(b, Chunk(fw, b))] == Frames(fw, a, b + 1)
    decreases b - a
  {
    if a < b {
      FramesMore(fw, a + 1, b);
    }
  }

  lemma {:induction false} FramesCount(fw: seq<Octet>, a: nat, b: nat)
    requires a <= b
    ensures |Frames(fw, a, b)| == b - a
    decreases b - a
  {
    if a < b {
      FramesCount(fw, a + 1, b);
    }
  }

  /** The image bytes on their way to the device. */
  function InFlight(q: seq<Message>): seq<Octet> {
    if q == [] then []
    else (if q[0].Data? then q[0].payload else []) + InFlight(q[1..])
  }

  lemma UptoMonotone(fw: seq<Octet>, a: nat, b: nat)
    requires a < b
    ensures Upto(fw, a) <= Upto(fw, a + 1) <= Upto(fw, b)
  {}

  /** Frames in flight carry the image from the first to the last of them. */
  lemma {:induction false} FramesCarry(fw: seq<Octet>, a: nat, b: nat)
    requires a <= b
    ensures Upto(fw, a) <= Upto(fw, b) && InFlight(Frames(fw, a, b)) == fw[Upto(fw, a)..Upto(fw, b)]
    decreases b - a
  {
    hide Upto, Chunk, Frames, InFlight;
    if a == b {
      NoneInFlight(fw, a);
    } else {
      UptoMonotone(fw, a, b);
      FramesCarry(fw, a + 1, b);
      FirstFrame(fw, a, b);
      Joined(fw, Upto(fw, a), Upto(fw, a + 1), Upto(fw, b));
    }
  }

  lemma NoneInFlight(fw: seq<Octet>, a: nat)
    ensures InFlight(Frames(fw, a, a)) == fw[Upto(fw, a)..Upto(fw, a)]
  {
    hide Upto;
  }

  lemma FirstFrame(fw: seq<Octet>, a: nat, b: nat)
    requires a < b && Upto(fw, a) <= Upto(fw, a + 1)
    ensures InFlight(Frames(fw, a, b)) == fw[Upto(fw, a)..Upto(fw, a + 1)] + InFlight(Frames(fw, a + 1, b))
  {
    hide Upto;
    assert Frames(fw, a, b)[1..] == Frames(fw, a + 1, b);
  }

  lemma Joined(fw: seq<Octet>, i: nat, j: nat, k: nat)
    requires i <= j <= k <= |fw|
    ensures fw[i..k] == fw[i..j] + fw[j..k]
  {}

  lemma {:induction false} CommitCarriesNothing(q: seq<Message>, crc: bv32)
    ensures InFlight(q + [Commit(crc)]) == InFlight(q)
  {
    if q == [] {
      assert [Commit(crc)][1..] == [];
    } else {
      assert (q + [Commit(crc)])[1..] == q[1..] + [Commit(crc)];
      CommitCarriesNothing(q[1..], crc);
    }
  }

  /** Data frames the tool has sent. */
  function FramesSent(fw: seq<Octet>, h: Host): nat {
    match h
    case Upload(k) => k
    case WaitBatch(k) => k
    case WaitCommit => FrameCount(|fw|)
    case Success => FrameCount(|fw|)
    case _ => 0
  }

  /** Tool and device in step: what is on the bus is what the device has yet to see, or its one answer. */
  ghost predicate Sync(fw: seq<Octet>, s: State) {
    && HostAt(fw, s.host) && s.accepted <= FrameCount(|fw|) && s.image == fw[..Upto(fw, s.accepted)]
    && match s.host
       case Idle => s.toDevice == [] && s.toHost == [] && s.phase.Off? && s.accepted == 0
       case WaitRequest =>
         && s.accepted == 0
         && (if s.phase.Off? then s.toDevice == [Request(|fw|)] && s.toHost == []
             else s.phase.Receiving? && s.toDevice == [] && s.toHost == [STATUS_OK])
       case Upload(k) =>
         && s.phase.Receiving? && Pending(s.accepted, k)
         && s.toDevice == Frames(fw, s.accepted, k) && s.toHost == []
       case WaitBatch(k) =>
         && s.phase.Receiving? && k <= s.accepted + BATCH && s.accepted <= k
         && s.toDevice == Frames(fw, s.accepted, k) && s.toHost == if s.accepted == k then [STATUS_OK] else []
       case WaitCommit =>
         (if s.phase.Committed? then s.accepted == FrameCount(|fw|) && s.toDevice == [] && s.toHost == [STATUS_OK]
          else
            && s.phase.Receiving? && Pending(s.accepted, FrameCount(|fw|)) && s.toHost == []
            && s.toDevice == Frames(fw, s.accepted, FrameCount(|fw|)) + [Commit(Crc32(fw))])
       case Success => s.phase.Committed? && s.accepted == FrameCount(|fw|) && s.toDevice == [] && s.toHost == []
       case Failure(_) => false
  }

  /** Of `k` frames sent, `accepted` are in, and with them every full batch. */
  predicate Pending(accepted: nat, k: nat) {
    BATCH * (k / BATCH) <= accepted <= k
  }

  /** No answer is due while a batch is incomplete. */
  lemma NoAnswerDue(accepted: nat, k: nat)
    requires Pending(accepted, k) && accepted < k
    ensures (accepted + 1) % BATCH != 0 && Pending(accepted + 1, k)
  {}

  lemma BatchEnds(accepted: nat, k: nat)
    requires k % BATCH == 0 && k <= accepted + BATCH && accepted < k
    ensures (accepted + 1) % BATCH == 0 <==> accepted + 1 == k
  {}

  lemma SentOneMore(accepted: nat, k: nat)
    requires Pending(accepted, k)
    ensures (k + 1) % BATCH != 0 ==> Pending(accepted, k + 1)
    ensures k + 1 <= accepted + BATCH
  {}

  lemma SendKeepsSync(fw: seq<Octet>, s: State)
    requires Sync(fw, s) && Enabled(fw, s, HostSend)
    ensures Sync(fw, Do(fw, s, HostSend))
  {
    SendFollows(fw, s.host);
    hide Crc32, Chunk, Upto, FrameCount, Pending;
    match s.host {
      case Idle => assert s.toDevice + [Request(|fw|)] == [Request(|fw|)];
      case Upload(k) =>
        AtTheEnd(fw, k);
        SentOneMore(s.accepted, k);
        FramesMoreIfPending(fw, s.accepted, k);
    }
  }

  lemma FramesMoreIfPending(fw: seq<Octet>, a: nat, k: nat)
    requires Pending(a, k)
    ensures a <= k && Frames(fw, a, k) + [Data(k, Chunk(fw, k))] == Frames(fw, a, k + 1)
  {
    FramesMore(fw, a, k);
  }

  lemma ReadKeepsSync(fw: seq<Octet>, s: State)
    requires Sync(fw, s) && Enabled(fw, s, HostRead)
    ensures Sync(fw, Do(fw, s, HostRead))
  {
    ReadFollows(fw, s.host);
    hide Crc32, Chunk, Upto, FrameCount;
    if s.host.WaitBatch? {
      assert s.accepted == s.host.k;
    }
  }

  /** The next data frame is the one the device expects, and continues its image. */
  lemma FrontFrame(fw: seq<Octet>, a: nat, b: nat)
    requires a < b <= FrameCount(|fw|)
    ensures Frames(fw, a, b)[0] == Data(a, Chunk(fw, a)) && Frames(fw, a, b)[1..] == Frames(fw, a + 1, b)
    ensures fw[..Upto(fw, a)] + Chunk(fw, a) == fw[..Upto(fw, a + 1)]
  {}

  lemma DeviceKeepsSync(fw: seq<Octet>, s: State)
    requires Sync(fw, s) && Enabled(fw, s, DeviceStep)
    ensures Sync(fw, Do(fw, s, DeviceStep))
  {
    hide Frames, FrameCount, HostAt, Upto, Pending;
    match s.host {
      case WaitRequest => RequestServed(fw, s);
      case Upload(_) => DataTakenUploading(fw, s);
      case WaitBatch(_) => DataTakenForBatch(fw, s);
      case WaitCommit =>
        if s.accepted < FrameCount(|fw|) {
          DataTakenBeforeCommit(fw, s);
        } else {
          CommitServed(fw, s);
        }
    }
  }

  lemma RequestServed(fw: seq<Octet>, s: State)
    requires Sync(fw, s) && s.host.WaitRequest? && s.toDevice != []
    ensures Sync(fw, Do(fw, s, DeviceStep))
  {
    hide Crc32, FrameCount;
    assert fw[..Upto(fw, 0)] == [];
  }

  lemma CommitServed(fw: seq<Octet>, s: State)
    requires Sync(fw, s) && s.host.WaitCommit? && s.toDevice != [] && s.accepted == FrameCount(|fw|)
    ensures Sync(fw, Do(fw, s, DeviceStep))
  {
    hide Crc32;
    assert s.toDevice == [Commit(Crc32(fw))];
    assert fw[..Upto(fw, s.accepted)] == fw;
  }

  /** The device takes the frame in front, and answers if it ends a batch. */
  lemma FrameProcessed(fw: seq<Octet>, s: State, k: nat, rest: seq<Message>)
    requires s.phase.Receiving? && s.accepted < k <= FrameCount(|fw|) && s.image == fw[..Upto(fw, s.accepted)]
    requires s.toDevice == Frames(fw, s.accepted, k) + rest
    ensures Enabled(fw, s, DeviceStep)
    ensures var t, a := Do(fw, s, DeviceStep), s.accepted + 1;
            && t.host == s.host && t.phase == s.phase && t.accepted == a && t.image == fw[..Upto(fw, a)]
            && t.toDevice == Frames(fw, a, k) + rest
            && t.toHost == if a % BATCH == 0 then s.toHost + [STATUS_OK] else s.toHost
  {
    FrontFrame(fw, s.accepted, k);
    hide Frames, Crc32, Chunk, Upto, FrameCount;
    assert s.toDevice[0] == Data(s.accepted, Chunk(fw, s.accepted));
    assert s.toDevice[1..] == Frames(fw, s.accepted + 1, k) + rest;
  }

  lemma DataTakenUploading(fw: seq<Octet>, s: State)
    requires Sync(fw, s) && s.host.Upload? && s.toDevice != []
    ensures Sync(fw, Do(fw, s, DeviceStep))
  {
    FramesCount(fw, s.accepted, s.host.k);
    assert s.host.k <= FrameCount(|fw|);
    hide Frames, Upto, FrameCount, HostAt, Do, Enabled;
    var a, k := s.accepted, s.host.k;
    assert Frames(fw, a, k) + [] == Frames(fw, a, k) && Frames(fw, a + 1, k) + [] == Frames(fw, a + 1, k);
    FrameProcessed(fw, s, k, []);
    NoAnswerDue(a, k);
  }

  lemma DataTakenForBatch(fw: seq<Octet>, s: State)
    requires Sync(fw, s) && s.host.WaitBatch? && s.toDevice != []
    ensures Sync(fw, Do(fw, s, DeviceStep))
  {
    FramesCount(fw, s.accepted, s.host.k);
    BatchAt(fw, s.host);
    hide Frames, Upto, FrameCount, HostAt, Do, Enabled;
    var a, k := s.accepted, s.host.k;
    assert Frames(fw, a, k) + [] == Frames(fw, a, k) && Frames(fw, a + 1, k) + [] == Frames(fw, a + 1, k);
    FrameProcessed(fw, s, k, []);
    BatchEnds(a, k);
  }

  lemma DataTakenBeforeCommit(fw: seq<Octet>, s: State)
    requires Sync(fw, s) && s.host.WaitCommit? && s.toDevice != [] && s.accepted < FrameCount(|fw|)
    ensures Sync(fw, Do(fw, s, DeviceStep))
  {
    hide Frames, Upto, FrameCount, HostAt, Do, Enabled, Crc32;
    FrameProcessed(fw, s, FrameCount(|fw|), [Commit(Crc32(fw))]);
    NoAnswerDue(s.accepted, FrameCount(|fw|));
  }

  lemma BatchAt(fw: seq<Octet>, h: Host)
    requires h.WaitBatch? && HostAt(fw, h)
    ensures h.k % BATCH == 0 && h.k <= FrameCount(|fw|)
  {}

  lemma {:induction false} RunKeepsSync(fw: seq<Octet>, s: State, steps: seq<Step>, t: State)
    requires Sync(fw, s) && Runs(fw, s, steps, t) && Faultless(steps)
    ensures Sync(fw, t)
    decreases |steps|
  {
    hide Sync, Do, Enabled;
    if steps != [] {
      match steps[0] {
        case HostSend => SendKeepsSync(fw, s);
        case HostRead => ReadKeepsSync(fw, s);
        case DeviceStep => DeviceKeepsSync(fw, s);
      }
      RunKeepsSync(fw, Do(fw, s, steps[0]), steps[1..], t);
    }
  }

  lemma InitSync(fw: seq<Octet>)
    ensures Sync(fw, INIT)
  {
    assert fw[..Upto(fw, 0)] == [];
  }

  /**
   * Over every interleaving on a faultless bus: the device's image and the payloads in flight are together the
   * image bytes sent so far; no more than 32 frames are in flight; and a tool that reports success has put
   * exactly its image on the device.
   */
  lemma {:induction false} NothingLost(fw: seq<Octet>, steps: seq<Step>, t: State)
    requires Runs(fw, INIT, steps, t) && Faultless(steps)
    ensures t.image + InFlight(t.toDevice) == fw[..Upto(fw, FramesSent(fw, t.host))]
    ensures |t.toDevice| <= 32
    ensures t.host.Success? ==> t.image == fw && t.phase.Committed?
    ensures !t.host.Failure?
  {
    hide Runs, Crc32, Chunk;
    InitSync(fw);
    RunKeepsSync(fw, INIT, steps, t);
    var k := FramesSent(fw, t.host);
    assert fw[..Upto(fw, FrameCount(|fw|))] == fw;
    if t.phase.Receiving? && !t.host.WaitRequest? {
      FramesCarry(fw, t.accepted, k);
      FramesCount(fw, t.accepted, k);
      CommitCarriesNothing(Frames(fw, t.accepted, k), Crc32(fw));
      assert fw[..Upto(fw, k)] == fw[..Upto(fw, t.accepted)] + fw[Upto(fw, t.accepted)..Upto(fw, k)];
    } else {
      NoPayload(fw, t);
      assert t.image + [] == t.image;
      assert fw[..Upto(fw, 0)] == [];
    }
  }

  lemma NoPayload(fw: seq<Octet>, t: State)
    requires t.toDevice == [] || t.toDevice == [Request(|fw|)]
    ensures InFlight(t.toDevice) == []
  {
    if t.toDevice != [] {
      assert t.toDevice[1..] == [];
      assert InFlight([]) == [];
    }
  }

  /** An image that fits never gets stuck before success. */
  lemma NoDeadlock(fw: seq<Octet>, s: State)
    requires Packable(fw) && Sync(fw, s) && !s.host.Success?
    ensures Enabled(fw, s, HostSend) || Enabled(fw, s, HostRead) || Enabled(fw, s, DeviceStep)
  {
    hide Crc32, Chunk;
    if s.host.Upload? {
      AtTheEnd(fw, s.host.k);
    } else if s.host.WaitBatch? {
      FramesCount(fw, s.accepted, s.host.k);
    }
  }

  /** Frames the tool has yet to send. */
  function Unsent(fw: seq<Octet>, h: Host): int {
    match h
    case Idle => FrameCount(|fw|) + 2
    case WaitRequest => FrameCount(|fw|) + 1
    case Upload(k) => FrameCount(|fw|) - k + 1
    case WaitBatch(k) => FrameCount(|fw|) - k + 1
    case _ => 0
  }

  function Measure(fw: seq<Octet>, s: State): int {
    3 * Unsent(fw, s.host) + 2 * |s.toDevice| + |s.toHost|
  }

  lemma StepDecreases(fw: seq<Octet>, s: State, step: Step)
    requires HostAt(fw, s.host) && Enabled(fw, s, step) && Faultless([step])
    ensures HostAt(fw, Do(fw, s, step).host)
    ensures 0 <= Measure(fw, Do(fw, s, step)) < Measure(fw, s)
  {
    hide Crc32, Chunk;
    assert [step][0] == step;
    match step {
      case HostSend =>
        SendFollows(fw, s.host);
        if s.host.Upload? {
          AtTheEnd(fw, s.host.k);
        }
      case HostRead => ReadFollows(fw, s.host);
      case DeviceStep =>
    }
  }

  lemma {:induction false} StepsBound(fw: seq<Octet>, s: State, steps: seq<Step>, t: State)
    requires HostAt(fw, s.host) && Runs(fw, s, steps, t) && Faultless(steps)
    ensures |steps| + Measure(fw, t) <= Measure(fw, s)
    decreases |steps|
  {
    hide HostAt, Do, Enabled, Measure;
    if steps != [] {
      StepDecreases(fw, s, steps[0]);
      StepsBound(fw, Do(fw, s, steps[0]), steps[1..], t);
    }
  }

  lemma {:induction false} EndsSomewhere(fw: seq<Octet>, s: State, steps: seq<Step>, t: State)
    requires HostAt(fw, s.host) && Runs(fw, s, steps, t) && Faultless(steps)
    ensures HostAt(fw, t.host)
    decreases |steps|
  {
    hide HostAt, Do, Enabled;
    if steps != [] {
      StepDecreases(fw, s, steps[0]);
      EndsSomewhere(fw, Do(fw, s, steps[0]), steps[1..], t);
    }
  }

  /** Every faultless run is bounded, and one that cannot go on has delivered the image. */
  lemma {:induction false} Delivers(fw: seq<Octet>, steps: seq<Step>, t: State)
    requires Packable(fw) && Runs(fw, INIT, steps, t) && Faultless(steps)
    ensures |steps| <= 3 * (FrameCount(|fw|) + 2)
    ensures !Enabled(fw, t, HostSend) && !Enabled(fw, t, HostRead) && !Enabled(fw, t, DeviceStep)
            ==> t.host.Success? && t.image == fw
  {
    hide Runs, Enabled, Sync;
    StepsBound(fw, INIT, steps, t);
    EndsSomewhere(fw, INIT, steps, t);
    assert Measure(fw, INIT) == 3 * (FrameCount(|fw|) + 2) && Unsent(fw, t.host) >= 0;
    hide FrameCount;
    InitSync(fw);
    RunKeepsSync(fw, INIT, steps, t);
    if !t.host.Success? {
      NoDeadlock(fw, t);
    }
    NothingLost(fw, steps, t);
  }

  /** And it can always go on to that end. */
  lemma {:induction false} Completes(fw: seq<Octet>, s: State) returns (steps: seq<Step>, t: State)
    requires Packable(fw) && Sync(fw, s)
    ensures Runs(fw, s, steps, t) && Faultless(steps) && t.host.Success?
    decreases Measure(fw, s)
  {
    assert HostAt(fw, s.host);
    hide Packable, Sync, Measure, Enabled, Do;
    if s.host.Success? {
      steps, t := [], s;
    } else {
      NoDeadlock(fw, s);
      var step :=
        if Enabled(fw, s, HostSend) then HostSend else if Enabled(fw, s, HostRead) then HostRead else DeviceStep;
      match step {
        case HostSend => SendKeepsSync(fw, s);
        case HostRead => ReadKeepsSync(fw, s);
        case DeviceStep => DeviceKeepsSync(fw, s);
      }
      StepDecreases(fw, s, step);
      var more;
      more, t := Completes(fw, Do(fw, s, step));
      steps := [step] + more;
      assert steps[1..] == more;
    }
  }

}

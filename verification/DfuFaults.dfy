/** What still holds of an update on a bus that loses, copies and moves frames, with a device that may complain. */
module DfuFaults {
  import opened Prelude
  import opened Crc
  import opened DfuHost
  import opened DfuProtocol

  // ---------------------------------------------------------------- what the device has

  /** What the tool can have put on the bus. */
  predicate Legitimate(fw: seq<Octet>, m: Message) {
    match m
    case Request(size) => size == |fw|
    case Data(number, payload) => number < FrameCount(|fw|) && payload == Chunk(fw, number)
    case Commit(crc) => crc == Crc32(fw)
  }

  /** However frames arrive, the device has the first `accepted` frames of the image and nothing else. */
  ghost predicate PrefixInv(fw: seq<Octet>, s: State) {
    && (forall m | m in s.toDevice :: Legitimate(fw, m))
    && s.accepted <= FrameCount(|fw|) && s.image == fw[..Upto(fw, s.accepted)]
    && (s.phase.Off? ==> s.accepted == 0)
    && (s.phase.Committed? ==> Crc32(s.image) == Crc32(fw))
  }

  lemma SendsLegitimate(fw: seq<Octet>, h: Host)
    requires HostAt(fw, h) && Sends(fw, h).Some?
    ensures Legitimate(fw, Sends(fw, h).value)
  {
    hide Crc32, Chunk;
    if h.Upload? {
      AtTheEnd(fw, h.k);
    }
  }

  lemma AcceptKeepsPrefix(fw: seq<Octet>, k: nat)
    requires k < FrameCount(|fw|)
    ensures fw[..Upto(fw, k)] + Chunk(fw, k) == fw[..Upto(fw, k + 1)]
  {}

  lemma StepKeepsPrefix(fw: seq<Octet>, s: State, step: Step)
    requires PrefixInv(fw, s) && HostAt(fw, s.host) && Enabled(fw, s, step)
    ensures PrefixInv(fw, Do(fw, s, step))
  {
    match step {
      case HostSend => SendsLegitimate(fw, s.host); SendKeepsPrefix(fw, s);
      case DeviceStep => DeviceKeepsPrefix(fw, s);
      case _ => BusKeepsPrefix(fw, s, step);
    }
  }

  lemma SendKeepsPrefix(fw: seq<Octet>, s: State)
    requires PrefixInv(fw, s) && Enabled(fw, s, HostSend) && Legitimate(fw, Sends(fw, s.host).value)
    ensures PrefixInv(fw, Do(fw, s, HostSend))
  {
    hide Legitimate, Sends, FrameCount, Upto, AfterSend;
  }

  lemma DeviceKeepsPrefix(fw: seq<Octet>, s: State)
    requires PrefixInv(fw, s) && Enabled(fw, s, DeviceStep)
    ensures PrefixInv(fw, Do(fw, s, DeviceStep))
  {
    var m := s.toDevice[0];
    assert m in s.toDevice && Legitimate(fw, m);
    if m.Data? && s.accepted == m.number {
      AcceptKeepsPrefix(fw, s.accepted);
    }
    assert fw[..Upto(fw, 0)] == [];
    assert m.Data? ==> m.number < FrameCount(|fw|) && m.payload == Chunk(fw, m.number);
    assert m.Commit? ==> m.crc == Crc32(fw);
    hide Legitimate, FrameCount, Upto, Crc32, Chunk;
  }

  lemma BusKeepsPrefix(fw: seq<Octet>, s: State, step: Step)
    requires PrefixInv(fw, s) && Enabled(fw, s, step) && !step.HostSend? && !step.DeviceStep?
    ensures PrefixInv(fw, Do(fw, s, step))
  {
    hide Legitimate, FrameCount, Upto, AfterRead;
  }

  // ---------------------------------------------------------------- what an ACK is worth

  function Count<T(==)>(q: seq<T>, x: T): nat {
    multiset(q)[x]
  }

  lemma CountAppend<T>(q: seq<T>, y: T, x: T)
    ensures Count(q + [y], x) == Count(q, x) + if y == x then 1 else 0
  {}

  lemma CountFirst<T>(q: seq<T>, x: T)
    requires q != []
    ensures Count(q, x) == Count(q[1..], x) + if q[0] == x then 1 else 0
  {
    assert q == [q[0]] + q[1..];
  }

  lemma CountWithout<T>(q: seq<T>, i: nat, x: T)
    requires i < |q|
    ensures Count(q, x) == Count(Without(q, i), x) + if q[i] == x then 1 else 0
  {
    assert q == q[..i] + [q[i]] + q[i + 1..];
  }

  lemma CountWith<T>(q: seq<T>, at: nat, y: T, x: T)
    requires at <= |q|
    ensures Count(With(q, at, y), x) == Count(q, x) + if y == x then 1 else 0
  {
    assert q == q[..at] + q[at..];
  }

  /** OK answers the tool has read. */
  function OksRead(fw: seq<Octet>, h: Host): nat {
    match h
    case Upload(k) => 1 + k / BATCH
    case WaitBatch(k) => k / BATCH
    case WaitCommit => 1 + FrameCount(|fw|) / BATCH
    case Success => 2 + FrameCount(|fw|) / BATCH
    case _ => 0
  }

  /** How many batch ACKs lie behind a tool at `h`. */
  function Passed(fw: seq<Octet>, h: Host): nat {
    match h
    case Upload(k) => k / BATCH
    case WaitBatch(k) => if k < BATCH then 0 else k / BATCH - 1
    case WaitCommit => FrameCount(|fw|) / BATCH
    case Success => FrameCount(|fw|) / BATCH
    case _ => 0
  }

  /** The device's books: it acknowledges every 32nd frame it takes. */
  ghost predicate DeviceInv(s: State) {
    && BATCH * s.batches + s.accepted % BATCH <= s.total
    && (s.served <= 1 ==> s.total == s.accepted && s.batches == s.accepted / BATCH)
    && (s.served == 0 ==> s.phase.Off? && s.accepted == 0)
    && s.confirmed == (if s.phase.Committed? then 1 else 0)
  }

  /** Every OK read was given for a REQUEST, a batch or a COMMIT, or is a copy. */
  ghost predicate OkInv(fw: seq<Octet>, s: State) {
    !s.host.Failure? ==>
      OksRead(fw, s.host) + Count(s.toHost, STATUS_OK) <= s.served + s.batches + s.confirmed + s.copiedOks
  }

  /** And every batch ACK passed, together with the answer to the REQUEST, for a REQUEST or a batch, or is a copy. */
  ghost predicate PassedInv(fw: seq<Octet>, s: State) {
    && (!s.host.Failure? ==> s.passed == Passed(fw, s.host))
    && BATCH * s.passed <= FrameCount(|fw|)
    && (s.passed > 0 ==> |fw| < TWO_32 && 1 + s.passed <= s.served + s.batches + s.copiedOks)
  }

  /** No COMMIT is on the bus before the tool has sent one. */
  ghost predicate CommitInv(s: State) {
    (s.host.Idle? || s.host.WaitRequest? || s.host.Upload? || s.host.WaitBatch?) ==>
      s.confirmed == 0 && forall m | m in s.toDevice :: !m.Commit?
  }

  /** Every REQUEST served is the tool's, or a copy. */
  ghost predicate RequestInv(fw: seq<Octet>, s: State) {
    s.served + Count(s.toDevice, Request(|fw|)) <= (if s.host.Idle? then 0 else 1) + s.copiedRequests
  }

  lemma StepKeepsDevice(fw: seq<Octet>, s: State, step: Step)
    requires DeviceInv(s) && Enabled(fw, s, step)
    ensures DeviceInv(Do(fw, s, step))
  {
    hide Crc32, Chunk, Sends, AfterSend, AfterRead, Without, With;
    if step.DeviceStep? && s.phase.Receiving? && s.toDevice[0].Data? {
      BatchCount(s.accepted);
    }
  }

  lemma BatchCount(n: nat)
    ensures if (n + 1) % BATCH == 0 then (n + 1) / BATCH == n / BATCH + 1 && n % BATCH == BATCH - 1
            else (n + 1) / BATCH == n / BATCH && (n + 1) % BATCH == n % BATCH + 1
  {}

  lemma StepKeepsCommit(fw: seq<Octet>, s: State, step: Step)
    requires CommitInv(s) && Enabled(fw, s, step)
    ensures CommitInv(Do(fw, s, step))
  {
    hide Crc32, Chunk, FrameCount, Upto;
    if step.DeviceStep? {
      assert s.toDevice[0] in s.toDevice;
    }
  }

  lemma StepKeepsRequests(fw: seq<Octet>, s: State, step: Step)
    requires RequestInv(fw, s) && PrefixInv(fw, s) && Enabled(fw, s, step)
    ensures RequestInv(fw, Do(fw, s, step))
  {
    hide Count, Crc32, Chunk, Upto, FrameCount, With;
    var q, x := s.toDevice, Request(|fw|);
    match step {
      case HostSend => CountAppend(q, Sends(fw, s.host).value, x);
      case HostRead =>
      case DeviceStep =>
        assert q[0] in q && Legitimate(fw, q[0]);
        CountFirst(q, x);
      case Lose(i) => CountWithout(q, i, x);
      case Copy(i, at) =>
        assert q[i] in q && Legitimate(fw, q[i]);
        CountWith(q, at, q[i], x);
      case Move(i, at) =>
        CountWithout(q, i, x);
        CountWith(Without(q, i), at, q[i], x);
      case _ =>
    }
  }

  lemma StepKeepsOks(fw: seq<Octet>, s: State, step: Step)
    requires OkInv(fw, s) && CommitInv(s) && HostAt(fw, s.host) && Enabled(fw, s, step)
    ensures OkInv(fw, Do(fw, s, step))
  {
    match step {
      case HostSend => SendKeepsOks(fw, s);
      case HostRead => ReadKeepsOks(fw, s);
      case DeviceStep => DeviceKeepsOks(fw, s);
      case _ => BusKeepsOks(fw, s, step);
    }
  }

  lemma SendKeepsOks(fw: seq<Octet>, s: State)
    requires OkInv(fw, s) && CommitInv(s) && HostAt(fw, s.host) && Enabled(fw, s, HostSend)
    ensures OkInv(fw, Do(fw, s, HostSend))
  {
    hide Count, Crc32, Chunk, FrameCount, Upto;
    if s.host.Upload? {
      AtTheEnd(fw, s.host.k);
      BatchCount(s.host.k);
    }
  }

  lemma ReadKeepsOks(fw: seq<Octet>, s: State)
    requires OkInv(fw, s) && HostAt(fw, s.host) && Enabled(fw, s, HostRead)
    ensures OkInv(fw, Do(fw, s, HostRead))
  {
    hide Count, FrameCount;
    CountFirst(s.toHost, STATUS_OK);
  }

  lemma DeviceKeepsOks(fw: seq<Octet>, s: State)
    requires OkInv(fw, s) && Enabled(fw, s, DeviceStep)
    ensures OkInv(fw, Do(fw, s, DeviceStep))
  {
    hide Count, FrameCount, Crc32, OksRead;
    CountAppend(s.toHost, STATUS_OK, STATUS_OK);
    CountAppend(s.toHost, STATUS_CRC_FAIL, STATUS_OK);
  }

  lemma BusKeepsOks(fw: seq<Octet>, s: State, step: Step)
    requires OkInv(fw, s) && Enabled(fw, s, step) && !step.HostSend? && !step.HostRead? && !step.DeviceStep?
    ensures OkInv(fw, Do(fw, s, step))
  {
    hide Count, FrameCount, OksRead, With;
    var q, x := s.toHost, STATUS_OK;
    match step {
      case LoseStatus(i) => CountWithout(q, i, x);
      case CopyStatus(i, at) => CountWith(q, at, q[i], x);
      case MoveStatus(i, at) =>
        CountWithout(q, i, x);
        CountWith(Without(q, i), at, q[i], x);
      case Complain(status) => CountAppend(q, status, x);
      case _ =>
    }
  }

  lemma StepKeepsPassed(fw: seq<Octet>, s: State, step: Step)
    requires PassedInv(fw, s) && OkInv(fw, s) && CommitInv(s) && HostAt(fw, s.host) && Enabled(fw, s, step)
    ensures PassedInv(fw, Do(fw, s, step))
  {
    hide Count, Crc32, Chunk, FrameCount, Upto, Without, With, Packable;
    match step {
      case HostSend =>
        if s.host.Upload? {
          AtTheEnd(fw, s.host.k);
          BatchCount(s.host.k);
        }
      case HostRead => CountFirst(s.toHost, STATUS_OK);
      case _ =>
    }
  }

  ghost predicate Inv(fw: seq<Octet>, s: State) {
    && HostInv(fw, s) && PrefixInv(fw, s) && DeviceInv(s) && OkInv(fw, s) && PassedInv(fw, s) && CommitInv(s)
    && RequestInv(fw, s)
  }

  lemma StepKeepsInv(fw: seq<Octet>, s: State, step: Step)
    requires Inv(fw, s) && Enabled(fw, s, step)
    ensures Inv(fw, Do(fw, s, step))
  {
    assert HostAt(fw, s.host);
    hide HostInv, PrefixInv, DeviceInv, OkInv, PassedInv, CommitInv, RequestInv, Do, Enabled, HostAt;
    if step.HostSend? {
      SendKeepsHost(fw, s);
    } else if step.HostRead? {
      ReadKeepsHost(fw, s);
    } else {
      OthersKeepHost(fw, s, step);
    }
    StepKeepsPrefix(fw, s, step);
    StepKeepsDevice(fw, s, step);
    StepKeepsOks(fw, s, step);
    StepKeepsPassed(fw, s, step);
    StepKeepsCommit(fw, s, step);
    StepKeepsRequests(fw, s, step);
  }

  lemma {:induction false} RunKeepsInv(fw: seq<Octet>, s: State, steps: seq<Step>, t: State)
    requires Inv(fw, s) && Runs(fw, s, steps, t)
    ensures Inv(fw, t)
    decreases |steps|
  {
    hide Inv, Do, Enabled;
    if steps != [] {
      StepKeepsInv(fw, s, steps[0]);
      RunKeepsInv(fw, Do(fw, s, steps[0]), steps[1..], t);
    }
  }

  lemma InitInv(fw: seq<Octet>)
    ensures Inv(fw, INIT)
  {
    assert fw[..Upto(fw, 0)] == [];
  }

  lemma {:induction false} Reached(fw: seq<Octet>, steps: seq<Step>, t: State)
    requires Runs(fw, INIT, steps, t)
    ensures Inv(fw, t)
  {
    InitInv(fw);
    hide Runs, Inv;
    RunKeepsInv(fw, INIT, steps, t);
  }

  /** Whatever the bus does, the tool's log is its dialogue as far as it got. */
  lemma {:induction false} HostIsTheTool(fw: seq<Octet>, steps: seq<Step>, t: State)
    requires Runs(fw, INIT, steps, t)
    ensures t.host.Success? ==> Explains(fw, t.log, Done)
    ensures t.host.Failure? ==> Explains(fw, t.log, Rejected(t.host.status))
    ensures Waits(t.host) ==> Explains(fw, t.log, TimedOut)
    ensures (t.host.Idle? || t.host.Upload?) && Sends(fw, t.host).None? ==> Explains(fw, t.log, PackError)
  {
    hide Runs, FullLog, PrefixInv, DeviceInv, OkInv, PassedInv, CommitInv, RequestInv;
    Reached(fw, steps, t);
    if Waits(t.host) {
      ReadFollows(fw, t.host);
    }
    if (t.host.Idle? || t.host.Upload?) && Sends(fw, t.host).None? {
      StoppedExplained(fw, t.host);
    }
  }

  /** A tool that is not waiting and does not send has met a number too large for its field. */
  lemma StoppedExplained(fw: seq<Octet>, h: Host)
    requires HostAt(fw, h) && (h.Idle? || h.Upload?) && Sends(fw, h).None?
    ensures Explains(fw, LogAt(fw, h), PackError)
  {
    hide HostLog, FullLog, Explains;
    match h {
      case Idle => TooLarge(fw);
      case Upload(_) => TooMany(fw);
    }
  }

  /** Whatever the bus does, the device holds the first frames of the image, in order. */
  lemma {:induction false} AlwaysAPrefix(fw: seq<Octet>, steps: seq<Step>, t: State)
    requires Runs(fw, INIT, steps, t)
    ensures t.image == fw[..Upto(fw, t.accepted)] && t.image <= fw
    ensures t.phase.Committed? ==> Crc32(t.image) == Crc32(fw)
  {
    hide Runs, HostInv, DeviceInv, OkInv, PassedInv, CommitInv, RequestInv, Crc32, Upto;
    Reached(fw, steps, t);
  }

  /**
   * What ACKs prove, also if the tool is refused later: each one it has passed stands for 32 frames the device took,
   * or for a REQUEST served again, or for a copied OK. So without copies of those two, 32 frames each.
   */
  lemma {:induction false} AcksProve(fw: seq<Octet>, steps: seq<Step>, t: State)
    requires Runs(fw, INIT, steps, t)
    ensures t.passed > 0 ==> 32 * (1 + t.passed) <= t.total + 32 * (t.served + t.copiedOks)
    ensures t.served <= 1 + t.copiedRequests && 32 * t.passed <= FrameCount(|fw|)
    ensures t.copiedRequests == 0 && t.copiedOks == 0 ==> 32 * t.passed <= t.accepted
  {
    hide Runs, HostInv, PrefixInv, Count, FrameCount;
    Reached(fw, steps, t);
  }

  /**
   * What success proves, if no REQUEST and no OK was copied: the device has committed an image with the CRC of the
   * tool's image, and it is that image but for at most the last incomplete batch.
   */
  lemma {:induction false} SuccessProves(fw: seq<Octet>, steps: seq<Step>, t: State)
    requires Runs(fw, INIT, steps, t) && t.host.Success? && t.copiedRequests == 0 && t.copiedOks == 0
    ensures t.phase.Committed? && Crc32(t.image) == Crc32(fw)
    ensures t.image == fw[..Upto(fw, t.accepted)] && t.accepted / 32 == FrameCount(|fw|) / 32
    ensures FrameCount(|fw|) % 32 == 0 ==> t.image == fw
  {
    hide Runs, Count, LogAt, Explains, Crc32, Packable, FrameCount, Upto;
    Reached(fw, steps, t);
    BatchesMonotone(t.accepted, FrameCount(|fw|));
    AllFrames(fw);
  }

  lemma BatchesMonotone(m: nat, n: nat)
    requires m <= n
    ensures m / BATCH <= n / BATCH
    ensures n % BATCH == 0 && m / BATCH == n / BATCH ==> m == n
  {}

  lemma AllFrames(fw: seq<Octet>)
    ensures fw[..Upto(fw, FrameCount(|fw|))] == fw
  {}
}

/**
 * What ACKs and success are worth on a bad bus: the exact conditions, by how many REQUESTs and OK answers the bus
 * may copy, with the executions that break what lies outside them. Frames may be lost and moved at will.
 */
module DfuBadBus {
  import opened Prelude
  import opened Crc
  import opened DfuFaults
  import opened DfuHost
  import opened DfuProtocol

  // ---------------------------------------------------------------- putting executions together

  lemma {:induction false} RunsOneMore(fw: seq<Octet>, s: State, steps: seq<Step>, t: State, step: Step)
    requires Runs(fw, s, steps, t) && Enabled(fw, t, step)
    ensures Runs(fw, s, steps + [step], Do(fw, t, step))
    decreases |steps|
  {
    hide Enabled, Do;
    if steps == [] {
      assert Runs(fw, Do(fw, t, step), [step][1..], Do(fw, t, step));
    } else {
      assert (steps + [step])[1..] == steps[1..] + [step];
      RunsOneMore(fw, Do(fw, s, steps[0]), steps[1..], t, step);
    }
  }

  lemma Then(fw: seq<Octet>, steps: seq<Step>, t: State, step: Step) returns (steps': seq<Step>, t': State)
    requires Runs(fw, INIT, steps, t) && Enabled(fw, t, step)
    ensures Runs(fw, INIT, steps', t') && t' == Do(fw, t, step)
  {
    RunsOneMore(fw, INIT, steps, t, step);
    steps', t' := steps + [step], Do(fw, t, step);
  }

  lemma EmptyRun(fw: seq<Octet>)
    ensures Runs(fw, INIT, [], INIT)
  {}

  /** `n` OK answers. */
  function Oks(n: nat): (oks: seq<Byte>)
    ensures |oks| == n
  {
    seq(n, _ => STATUS_OK)
  }

  lemma OksMore(n: nat)
    ensures Oks(n) + [STATUS_OK] == Oks(n + 1) && Oks(n + 1)[0] == STATUS_OK && Oks(n + 1)[1..] == Oks(n)
    ensures With(Oks(n + 1), 0, Oks(n + 1)[0]) == Oks(n + 2)
  {}

  /** The tool has sent `k` frames and the device taken `a`; `spare` OK answers are left over, and maybe a REQUEST. */
  ghost predicate Rests(fw: seq<Octet>, s: State, k: nat, a: nat, spare: nat, late: seq<Message>) {
    && s.host == Upload(k) && s.toDevice == late && s.toHost == Oks(spare)
    && s.phase.Receiving? && s.accepted == a && s.image == fw[..Upto(fw, a)] && s.confirmed == 0
  }

  predicate SameCopies(s: State, t: State) {
    t.copiedRequests == s.copiedRequests && t.copiedOks == s.copiedOks
  }

  // ---------------------------------------------------------------- one frame at a time

  lemma FrameGoesOut(fw: seq<Octet>, steps: seq<Step>, s: State, k: nat) returns (steps': seq<Step>, t: State)
    requires Runs(fw, INIT, steps, s) && s.host == Upload(k) && k < FrameCount(|fw|) && k < SEQ_LIMIT
    ensures Runs(fw, INIT, steps', t)
    ensures t == s.(host := if (k + 1) % BATCH == 0 then WaitBatch(k + 1) else Upload(k + 1), log := t.log,
                    toDevice := s.toDevice + [Data(k, Chunk(fw, k))])
  {
    AtTheEnd(fw, k);
    hide Runs, Chunk, Crc32, FrameCount, Upto;
    steps', t := Then(fw, steps, s, HostSend);
  }

  /** Frame `k` is next on the bus, and the device takes it. */
  lemma FrameArrives(fw: seq<Octet>, steps: seq<Step>, s: State, k: nat, spare: nat, late: seq<Message>)
    returns (steps': seq<Step>, t: State)
    requires Runs(fw, INIT, steps, s) && k < FrameCount(|fw|)
    requires s.host == if (k + 1) % BATCH == 0 then WaitBatch(k + 1) else Upload(k + 1)
    requires Rests(fw, s.(host := Upload(k), toDevice := late), k, k, spare, late)
    requires s.toDevice == [Data(k, Chunk(fw, k))] + late
    ensures Runs(fw, INIT, steps', t) && Rests(fw, t, k + 1, k + 1, spare, late) && SameCopies(s, t)
  {
    AcceptKeepsPrefix(fw, k);
    OksMore(spare);
    hide Runs, Chunk, Crc32, FrameCount, Upto, Oks;
    assert s.toDevice[1..] == late;
    steps', t := Then(fw, steps, s, DeviceStep);
    if (k + 1) % BATCH == 0 {
      steps', t := Then(fw, steps', t, HostRead);
    }
  }

  /** The frame sent last overtakes one late REQUEST. */
  lemma Overtakes(fw: seq<Octet>, steps: seq<Step>, s: State, late: seq<Message>, last: Message)
    returns (steps': seq<Step>, t: State)
    requires Runs(fw, INIT, steps, s) && s.toDevice == late + [last] && |late| <= 1
    ensures Runs(fw, INIT, steps', t) && t == s.(toDevice := [last] + late)
  {
    hide Runs;
    steps', t := steps, s;
    if late != [] {
      assert s.toDevice == [late[0], last];
      steps', t := Then(fw, steps, s, Move(1, 0));
      assert t.toDevice == [last] + late;
    }
  }

  /** A frame the device takes, ahead of a late REQUEST if there is one. */
  lemma FrameTaken(fw: seq<Octet>, steps: seq<Step>, s: State, k: nat, spare: nat, late: seq<Message>)
    returns (steps': seq<Step>, t: State)
    requires Runs(fw, INIT, steps, s) && Rests(fw, s, k, k, spare, late) && |late| <= 1
    requires k < FrameCount(|fw|) && k < SEQ_LIMIT
    ensures Runs(fw, INIT, steps', t) && Rests(fw, t, k + 1, k + 1, spare, late) && SameCopies(s, t)
  {
    hide Runs, Chunk, FrameCount, Upto, Oks;
    steps', t := FrameGoesOut(fw, steps, s, k);
    steps', t := Overtakes(fw, steps', t, late, Data(k, Chunk(fw, k)));
    steps', t := FrameArrives(fw, steps', t, k, spare, late);
  }

  /** A frame that is lost; at the end of a batch the tool makes do with a spare OK. */
  lemma FrameLost(fw: seq<Octet>, steps: seq<Step>, s: State, k: nat, a: nat, spare: nat)
    returns (steps': seq<Step>, t: State)
    requires Runs(fw, INIT, steps, s) && Rests(fw, s, k, a, spare, [])
    requires k < FrameCount(|fw|) && k < SEQ_LIMIT && ((k + 1) % BATCH == 0 ==> spare > 0)
    ensures Runs(fw, INIT, steps', t) && SameCopies(s, t)
    ensures Rests(fw, t, k + 1, a, if (k + 1) % BATCH == 0 then spare - 1 else spare, [])
  {
    if spare > 0 {
      OksMore(spare - 1);
    }
    hide Runs, Chunk, Crc32, FrameCount, Upto, Oks;
    steps', t := FrameGoesOut(fw, steps, s, k);
    assert t.toDevice == [Data(k, Chunk(fw, k))];
    steps', t := Then(fw, steps', t, Lose(0));
    assert t.toDevice == [];
    if (k + 1) % BATCH == 0 {
      steps', t := Then(fw, steps', t, HostRead);
    }
  }

  lemma {:induction false} FramesTaken(
    fw: seq<Octet>, steps: seq<Step>, s: State, n: nat, spare: nat, late: seq<Message>)
    returns (steps': seq<Step>, t: State)
    requires Runs(fw, INIT, steps, s) && Rests(fw, s, 0, 0, spare, late) && |late| <= 1
    requires n <= FrameCount(|fw|) && n <= SEQ_LIMIT
    ensures Runs(fw, INIT, steps', t) && Rests(fw, t, n, n, spare, late) && SameCopies(s, t)
    decreases n
  {
    hide Runs, Rests, FrameCount;
    steps', t := steps, s;
    if n > 0 {
      steps', t := FramesTaken(fw, steps, s, n - 1, spare, late);
      steps', t := FrameTaken(fw, steps', t, n - 1, spare, late);
    }
  }

  /** From frame `k` to frame `n` everything is lost, at the price of a spare OK for every batch that ends there. */
  lemma {:induction false} FramesLost(fw: seq<Octet>, steps: seq<Step>, s: State, k: nat, n: nat, a: nat, spare: nat)
    returns (steps': seq<Step>, t: State)
    requires Runs(fw, INIT, steps, s) && Rests(fw, s, k, a, spare, [])
    requires k <= n <= FrameCount(|fw|) && n <= SEQ_LIMIT && n / BATCH - k / BATCH <= spare
    ensures Runs(fw, INIT, steps', t) && SameCopies(s, t)
    ensures Rests(fw, t, n, a, spare - (n / BATCH - k / BATCH), [])
    decreases n
  {
    hide Runs, Rests, FrameCount;
    steps', t := steps, s;
    if k < n {
      BatchCount(n - 1);
      steps', t := FramesLost(fw, steps, s, k, n - 1, a, spare);
      steps', t := FrameLost(fw, steps', t, n - 1, a, spare - ((n - 1) / BATCH - k / BATCH));
    }
  }

  // ---------------------------------------------------------------- openings and endings

  /** The opening, with the OK answer to the REQUEST copied `oks` times. */
  lemma OksCopied(fw: seq<Octet>, oks: nat) returns (steps: seq<Step>, t: State)
    requires |fw| < TWO_32
    ensures Runs(fw, INIT, steps, t) && Rests(fw, t, 0, 0, oks, [])
    ensures t.copiedRequests == 0 && t.copiedOks == oks
  {
    EmptyRun(fw);
    NoFrames(fw);
    OksMore(oks);
    hide Runs, Crc32, FrameCount, Upto;
    steps, t := Then(fw, [], INIT, HostSend);
    assert t.toDevice == [Request(|fw|)];
    steps, t := Then(fw, steps, t, DeviceStep);
    assert t.toHost == [STATUS_OK] == Oks(1);
    steps, t := CopyOks(fw, steps, t, oks);
    steps, t := Then(fw, steps, t, HostRead);
  }

  lemma {:induction false} CopyOks(fw: seq<Octet>, steps: seq<Step>, s: State, n: nat)
    returns (steps': seq<Step>, t: State)
    requires Runs(fw, INIT, steps, s) && s.toHost == Oks(1)
    ensures Runs(fw, INIT, steps', t) && t == s.(toHost := Oks(n + 1), copiedOks := s.copiedOks + n)
    decreases n
  {
    hide Runs, Oks, With;
    steps', t := steps, s;
    if n > 0 {
      steps', t := CopyOks(fw, steps, s, n - 1);
      OksMore(n - 1);
      steps', t := Then(fw, steps', t, CopyStatus(0, 0));
    }
  }

  /** The opening with one REQUEST copied, up to where the first has been served. */
  lemma TwoRequests(fw: seq<Octet>) returns (steps: seq<Step>, t: State)
    requires |fw| < TWO_32
    ensures Runs(fw, INIT, steps, t) && t.copiedRequests == 1 && t.copiedOks == 0
    ensures t.host == WaitRequest && t.toDevice == [Request(|fw|)] && t.toHost == [STATUS_OK]
    ensures t.phase.Receiving? && t.accepted == 0 && t.image == [] && t.confirmed == 0
  {
    EmptyRun(fw);
    hide Runs, Crc32, FrameCount, Upto;
    steps, t := Then(fw, [], INIT, HostSend);
    assert t.toDevice == [Request(|fw|)];
    steps, t := Then(fw, steps, t, Copy(0, 0));
    assert t.toDevice == [Request(|fw|), Request(|fw|)];
    steps, t := Then(fw, steps, t, DeviceStep);
    assert t.toDevice == [Request(|fw|)] && t.toHost == [STATUS_OK];
  }

  /** The copy is either served at once, for a spare OK, or left on the bus. */
  lemma RequestCopied(fw: seq<Octet>, serve: bool) returns (steps: seq<Step>, t: State)
    requires |fw| < TWO_32
    ensures Runs(fw, INIT, steps, t) && t.copiedRequests == 1 && t.copiedOks == 0
    ensures if serve then Rests(fw, t, 0, 0, 1, []) else Rests(fw, t, 0, 0, 0, [Request(|fw|)])
  {
    NoFrames(fw);
    hide Runs, Crc32, FrameCount, Upto;
    steps, t := TwoRequests(fw);
    if serve {
      steps, t := Then(fw, steps, t, DeviceStep);
      assert t.toHost == [STATUS_OK, STATUS_OK];
    }
    steps, t := Then(fw, steps, t, HostRead);
  }

  lemma CommitGoesOut(fw: seq<Octet>, steps: seq<Step>, s: State) returns (steps': seq<Step>, t: State)
    requires Runs(fw, INIT, steps, s) && s.host == Upload(FrameCount(|fw|)) && s.toDevice == []
    ensures Runs(fw, INIT, steps', t)
    ensures t == s.(host := WaitCommit, log := t.log, toDevice := [Commit(Crc32(fw))])
  {
    AtTheEnd(fw, FrameCount(|fw|));
    hide Runs, Chunk, Crc32, FrameCount, Upto;
    steps', t := Then(fw, steps, s, HostSend);
  }

  /** The device has `a` frames, and their CRC fits. */
  lemma Committing(fw: seq<Octet>, steps: seq<Step>, s: State, a: nat, spare: nat)
    returns (steps': seq<Step>, t: State)
    requires Runs(fw, INIT, steps, s) && Rests(fw, s, FrameCount(|fw|), a, spare, [])
    requires Crc32(fw[..Upto(fw, a)]) == Crc32(fw)
    ensures Runs(fw, INIT, steps', t) && SameCopies(s, t)
    ensures t.host.Success? && t.phase.Committed? && t.image == fw[..Upto(fw, a)]
  {
    OksMore(spare);
    hide Runs, Chunk, Crc32, FrameCount, Upto, Oks;
    steps', t := CommitGoesOut(fw, steps, s);
    steps', t := Then(fw, steps', t, DeviceStep);
    steps', t := Then(fw, steps', t, HostRead);
  }

  /** The COMMIT is lost, and a spare OK is taken for the answer to it. */
  lemma NotCommitting(fw: seq<Octet>, steps: seq<Step>, s: State, a: nat, spare: nat)
    returns (steps': seq<Step>, t: State)
    requires Runs(fw, INIT, steps, s) && Rests(fw, s, FrameCount(|fw|), a, spare, []) && spare > 0
    ensures Runs(fw, INIT, steps', t) && SameCopies(s, t)
    ensures t.host.Success? && t.phase.Receiving? && t.confirmed == 0 && t.image == fw[..Upto(fw, a)]
  {
    OksMore(spare - 1);
    hide Runs, Chunk, Crc32, FrameCount, Upto, Oks;
    steps', t := CommitGoesOut(fw, steps, s);
    steps', t := Then(fw, steps', t, Lose(0));
    steps', t := Then(fw, steps', t, HostRead);
  }

  /** The device has `a` frames, and their CRC does not fit. */
  lemma Refused(fw: seq<Octet>, steps: seq<Step>, s: State, a: nat) returns (steps': seq<Step>, t: State)
    requires Runs(fw, INIT, steps, s) && Rests(fw, s, FrameCount(|fw|), a, 0, [])
    requires Crc32(fw[..Upto(fw, a)]) != Crc32(fw)
    ensures Runs(fw, INIT, steps', t) && SameCopies(s, t) && t.host == Failure(1) && t.phase.Receiving?
  {
    hide Runs, Chunk, Crc32, FrameCount, Upto, Oks;
    steps', t := CommitGoesOut(fw, steps, s);
    steps', t := Then(fw, steps', t, DeviceStep);
    steps', t := Then(fw, steps', t, HostRead);
  }

  // ---------------------------------------------------------------- when ACKs mean frames

  /** With at most so many copies, do ACKs passed always stand for frames taken? */
  ghost predicate AcksMeanFrames(fw: seq<Octet>, requests: nat, oks: nat) {
    forall steps, t :: Runs(fw, INIT, steps, t) && t.copiedRequests <= requests && t.copiedOks <= oks ==>
      32 * t.passed <= t.accepted
  }

  /** A spare OK is taken for a batch ACK, with no frame accepted. */
  lemma SpareOkPasses(fw: seq<Octet>, before: seq<Step>, s: State) returns (steps: seq<Step>, t: State)
    requires FrameCount(|fw|) >= BATCH && Runs(fw, INIT, before, s) && Rests(fw, s, 0, 0, 1, [])
    ensures Runs(fw, INIT, steps, t) && t.passed == 1 && t.accepted == 0 && SameCopies(s, t)
  {
    hide Runs, FrameCount, Upto, Chunk, Crc32, Oks;
    steps, t := FramesLost(fw, before, s, 0, BATCH, 0, 1);
    Reached(fw, steps, t);
    PassedIs(fw, t, BATCH);
  }

  lemma PassedIs(fw: seq<Octet>, t: State, k: nat)
    requires Inv(fw, t) && t.host == Upload(k)
    ensures t.passed == k / BATCH
  {}

  lemma CopiedOkFools(fw: seq<Octet>) returns (steps: seq<Step>, t: State)
    requires FrameCount(|fw|) >= 32 && |fw| < TWO_32
    ensures Runs(fw, INIT, steps, t) && t.passed == 1 && t.accepted == 0
    ensures t.copiedRequests == 0 && t.copiedOks == 1
  {
    hide Runs, FrameCount, Rests;
    steps, t := OksCopied(fw, 1);
    steps, t := SpareOkPasses(fw, steps, t);
  }

  lemma CopiedRequestFools(fw: seq<Octet>) returns (steps: seq<Step>, t: State)
    requires FrameCount(|fw|) >= 32 && |fw| < TWO_32
    ensures Runs(fw, INIT, steps, t) && t.passed == 1 && t.accepted == 0
    ensures t.copiedRequests == 1 && t.copiedOks == 0
  {
    hide Runs, FrameCount, Rests;
    steps, t := RequestCopied(fw, true);
    steps, t := SpareOkPasses(fw, steps, t);
  }

  /** Exactly when nothing that yields a spare OK may be copied, or there is no full batch to be fooled about. */
  lemma WhenAcksMeanFrames(fw: seq<Octet>, requests: nat, oks: nat)
    ensures AcksMeanFrames(fw, requests, oks) <==>
            (requests == 0 && oks == 0) || FrameCount(|fw|) < 32 || |fw| >= TWO_32
  {
    hide Runs, FrameCount;
    if (requests == 0 && oks == 0) || FrameCount(|fw|) < 32 || |fw| >= TWO_32 {
      forall steps, t | Runs(fw, INIT, steps, t) && t.copiedRequests <= requests && t.copiedOks <= oks
        ensures 32 * t.passed <= t.accepted
      {
        AcksProve(fw, steps, t);
        NothingPassed(fw, steps, t);
      }
    } else if oks > 0 {
      var steps, t := CopiedOkFools(fw);
      assert 32 * t.passed > t.accepted;
    } else {
      var steps, t := CopiedRequestFools(fw);
      assert 32 * t.passed > t.accepted;
    }
  }

  lemma NothingPassed(fw: seq<Octet>, steps: seq<Step>, t: State)
    requires Runs(fw, INIT, steps, t)
    ensures FrameCount(|fw|) < 32 || |fw| >= TWO_32 ==> t.passed == 0
  {
    hide Runs, HostInv, PrefixInv, Count, FrameCount;
    Reached(fw, steps, t);
  }

  // ---------------------------------------------------------------- when success means a committed image

  ghost predicate SuccessMeansCommitted(fw: seq<Octet>, requests: nat, oks: nat) {
    forall steps, t :: Runs(fw, INIT, steps, t) && t.copiedRequests <= requests && t.copiedOks <= oks ==>
      (t.host.Success? ==> t.phase.Committed?)
  }

  /** The frames in full batches. */
  lemma WholeBatches(n: nat) returns (whole: nat)
    ensures whole <= n && whole / BATCH == n / BATCH && (n < BATCH ==> whole == 0)
  {
    whole := BATCH * (n / BATCH);
  }

  /** One copied OK: the tool reports success although the COMMIT never arrived. */
  lemma CopiedOkSucceeds(fw: seq<Octet>) returns (steps: seq<Step>, t: State)
    requires Packable(fw)
    ensures Runs(fw, INIT, steps, t) && t.copiedRequests == 0 && t.copiedOks == 1
    ensures t.host.Success? && t.phase.Receiving? && t.confirmed == 0
    ensures FrameCount(|fw|) < 32 ==> t.image == []
  {
    var whole := WholeBatches(FrameCount(|fw|));
    NoFrames(fw);
    hide Runs, Rests, FrameCount, Upto;
    steps, t := OksCopied(fw, 1);
    steps, t := FramesTaken(fw, steps, t, whole, 1, []);
    steps, t := FramesLost(fw, steps, t, whole, FrameCount(|fw|), whole, 1);
    steps, t := NotCommitting(fw, steps, t, whole, 1);
  }

  /** One copied REQUEST: the same, and the late copy has emptied the device again. */
  lemma CopiedRequestSucceeds(fw: seq<Octet>) returns (steps: seq<Step>, t: State)
    requires Packable(fw)
    ensures Runs(fw, INIT, steps, t) && t.copiedRequests == 1 && t.copiedOks == 0
    ensures t.host.Success? && t.phase.Receiving? && t.confirmed == 0 && t.image == []
  {
    hide Runs, Rests, FrameCount, Upto;
    steps, t := RequestCopied(fw, false);
    steps, t := FramesTaken(fw, steps, t, FrameCount(|fw|), 0, [Request(|fw|)]);
    steps, t := StartedAgain(fw, steps, t, FrameCount(|fw|));
    steps, t := NotCommitting(fw, steps, t, 0, 1);
    NoFrames(fw);
  }

  lemma StartedAgain(fw: seq<Octet>, steps: seq<Step>, s: State, k: nat) returns (steps': seq<Step>, t: State)
    requires Runs(fw, INIT, steps, s) && Rests(fw, s, k, k, 0, [Request(|fw|)])
    ensures Runs(fw, INIT, steps', t) && Rests(fw, t, k, 0, 1, []) && SameCopies(s, t)
  {
    NoFrames(fw);
    OksMore(0);
    hide Runs, Crc32, FrameCount, Upto;
    steps', t := Then(fw, steps, s, DeviceStep);
  }

  lemma NoFrames(fw: seq<Octet>)
    ensures fw[..Upto(fw, 0)] == []
  {}

  lemma WhenSuccessMeansCommitted(fw: seq<Octet>, requests: nat, oks: nat)
    ensures SuccessMeansCommitted(fw, requests, oks) <==> (requests == 0 && oks == 0) || !Packable(fw)
  {
    hide Runs, Packable;
    if (requests == 0 && oks == 0) || !Packable(fw) {
      forall steps, t | Runs(fw, INIT, steps, t) && t.copiedRequests <= requests && t.copiedOks <= oks
        ensures t.host.Success? ==> t.phase.Committed?
      {
        if t.host.Success? {
          OnlyIfItFits(fw, steps, t);
          SuccessProves(fw, steps, t);
        }
      }
    } else if oks > 0 {
      var steps, t := CopiedOkSucceeds(fw);
    } else {
      var steps, t := CopiedRequestSucceeds(fw);
    }
  }

  lemma OnlyIfItFits(fw: seq<Octet>, steps: seq<Step>, t: State)
    requires Runs(fw, INIT, steps, t) && t.host.Success?
    ensures Packable(fw)
  {
    hide Runs, PrefixInv, DeviceInv, OkInv, PassedInv, CommitInv, RequestInv, Packable, LogAt;
    Reached(fw, steps, t);
  }

  // ---------------------------------------------------------------- when success means the whole image

  ghost predicate SuccessMeansWhole(fw: seq<Octet>, requests: nat, oks: nat) {
    forall steps, t :: Runs(fw, INIT, steps, t) && t.copiedRequests <= requests && t.copiedOks <= oks ==>
      (t.host.Success? ==> t.image == fw)
  }

  /** The first `j` frames lack no full batch, and have the CRC of all of them. */
  predicate ShortTwin(fw: seq<Octet>, j: nat) {
    && j < FrameCount(|fw|) && j / 32 == FrameCount(|fw|) / 32
    && Crc32(fw[..Upto(fw, j)]) == Crc32(fw)
  }

  /**
   * Can a device with only `j` frames slip through? A copied OK makes up for one missing batch ACK, or for the
   * answer to the COMMIT; that answer is not missing if the CRC fits.
   */
  predicate Slips(fw: seq<Octet>, j: nat, oks: nat) {
    && j < FrameCount(|fw|)
    && (j / 32 + oks > FrameCount(|fw|) / 32 ||
        (j / 32 + oks == FrameCount(|fw|) / 32 && Crc32(fw[..Upto(fw, j)]) == Crc32(fw)))
  }

  /** The exact condition, by the image and the copies the bus may make. */
  lemma WhenSuccessMeansWhole(fw: seq<Octet>, requests: nat, oks: nat)
    ensures SuccessMeansWhole(fw, requests, oks) <==>
            !Packable(fw) || fw == [] || (requests == 0 && forall j: nat :: !Slips(fw, j, oks))
  {
    hide Runs, Packable, Slips;
    if !Packable(fw) || fw == [] || (requests == 0 && forall j: nat :: !Slips(fw, j, oks)) {
      forall steps, t | Runs(fw, INIT, steps, t) && t.copiedRequests <= requests && t.copiedOks <= oks
        ensures t.host.Success? ==> t.image == fw
      {
        if t.host.Success? {
          OnlyIfItFits(fw, steps, t);
          WholeOrSlipped(fw, steps, t, oks);
        }
      }
    } else if requests > 0 {
      var steps, t := CopiedRequestSucceeds(fw);
      assert t.image != fw;
    } else {
      var j: nat :| Slips(fw, j, oks);
      var steps, t := SlipThrough(fw, j, oks);
    }
  }

  /** Without copies the condition is on the image alone: it must have no short twin. */
  lemma WhenSuccessMeansWholeUncopied(fw: seq<Octet>)
    ensures SuccessMeansWhole(fw, 0, 0) <==> !Packable(fw) || forall j: nat :: !ShortTwin(fw, j)
  {
    WhenSuccessMeansWhole(fw, 0, 0);
    forall j: nat ensures Slips(fw, j, 0) <==> ShortTwin(fw, j) {
      hide Crc32, FrameCount, Upto;
      if j < FrameCount(|fw|) {
        BatchesMonotone(j, FrameCount(|fw|));
      }
    }
    hide SuccessMeansWhole, Slips, ShortTwin, Packable;
    if fw == [] {
      forall j: nat ensures !ShortTwin(fw, j) {
        NoTwinOfNothing(j);
      }
    }
  }

  lemma NoTwinOfNothing(j: nat)
    ensures !ShortTwin([], j)
  {
    hide Crc32;
  }

  lemma WholeOrSlipped(fw: seq<Octet>, steps: seq<Step>, t: State, oks: nat)
    requires Runs(fw, INIT, steps, t) && t.host.Success? && t.copiedOks <= oks
    ensures fw == [] ==> t.image == fw
    ensures t.copiedRequests == 0 && t.image != fw ==> Slips(fw, t.accepted, oks)
  {
    hide Runs, Count, LogAt, Explains, Crc32, Packable, FrameCount, Upto;
    Reached(fw, steps, t);
    AllFrames(fw);
    BatchesMonotone(t.accepted, FrameCount(|fw|));
  }

  lemma SlipThrough(fw: seq<Octet>, j: nat, oks: nat) returns (steps: seq<Step>, t: State)
    requires Packable(fw) && Slips(fw, j, oks)
    ensures Runs(fw, INIT, steps, t) && t.copiedRequests == 0 && t.copiedOks == oks
    ensures t.host.Success? && t.image == fw[..Upto(fw, j)] && t.image != fw
  {
    var all := FrameCount(|fw|);
    BatchesMonotone(j, all);
    AtTheEnd(fw, j);
    hide Runs, Rests, FrameCount, Upto, Crc32;
    steps, t := OksCopied(fw, oks);
    steps, t := FramesTaken(fw, steps, t, j, oks, []);
    var spare: nat := oks - (all / BATCH - j / BATCH);
    steps, t := FramesLost(fw, steps, t, j, all, j, oks);
    if spare > 0 {
      steps, t := NotCommitting(fw, steps, t, j, spare);
    } else {
      steps, t := Committing(fw, steps, t, j, spare);
    }
  }

  /** Frames of the last batch lost where that does change the CRC: the tool is told, by status 1. */
  lemma LossIsNoticed(fw: seq<Octet>, j: nat) returns (steps: seq<Step>, t: State)
    requires Packable(fw) && j < FrameCount(|fw|) && j / 32 == FrameCount(|fw|) / 32 && !ShortTwin(fw, j)
    ensures Runs(fw, INIT, steps, t) && t.copiedRequests == 0 && t.copiedOks == 0
    ensures t.host == Failure(1) && t.phase.Receiving?
  {
    hide Runs, Rests, FrameCount, Upto, Crc32;
    steps, t := OksCopied(fw, 0);
    steps, t := FramesTaken(fw, steps, t, j, 0, []);
    steps, t := FramesLost(fw, steps, t, j, FrameCount(|fw|), j, 0);
    steps, t := Refused(fw, steps, t, j);
  }

  // ---------------------------------------------------------------- an image with a short twin

  /** Four bytes whose CRC is that of nothing. */
  lemma CrcOfNothing(image: seq<Octet>)
    requires image == [0x9D, 0x0A, 0xD9, 0x6D]
    ensures Crc32(image) == 0 == Crc32([])
  {
    hide Register, BitSteps;
    UpdateNothing(0);
    forall i | 0 <= i < 4 ensures image[i..] == [image[i]] + image[i + 1..] {}
    assert image[0..] == image && image[4..] == [];
    ByteOf(0xFFFF_FFFF, 0x9D, 0xA343_FF8B, image[1..]);
    ByteOf(0xA343_FF8B, 0x0A, 0x9A1C_F049, image[2..]);
    ByteOf(0x9A1C_F049, 0xD9, 0xF095_8FB4, image[3..]);
    ByteOf(0xF095_8FB4, 0x6D, 0xFFFF_FFFF, image[4..]);
    NoMore(0xFFFF_FFFF);
  }

  /** The update of that image can lose its one data frame, and the device commits an empty image instead. */
  lemma EmptyImageCommitted(image: seq<Octet>) returns (steps: seq<Step>, t: State)
    requires image == [0x9D, 0x0A, 0xD9, 0x6D]
    ensures Runs(image, INIT, steps, t) && t.copiedRequests == 0 && t.copiedOks == 0
    ensures t.host.Success? && t.phase.Committed? && t.image == []
  {
    CrcOfNothing(image);
    NoFrames(image);
    hide Runs, Rests, Crc32;
    steps, t := OksCopied(image, 0);
    steps, t := FramesLost(image, steps, t, 0, 1, 0, 0);
    steps, t := Committing(image, steps, t, 0, 0);
  }

  // ---------------------------------------------------------------- single faults

  /** A data frame that arrives twice is taken once; neither book of copies is charged. */
  lemma TakenOnce(fw: seq<Octet>) returns (steps: seq<Step>, t: State)
    requires fw != [] && |fw| < 0x1_0000_0000
    ensures Runs(fw, INIT, steps, t) && t.copiedRequests == 0 && t.copiedOks == 0
    ensures t.host == Upload(1) && t.toDevice == [] && t.accepted == 1 && t.image == Chunk(fw, 0)
  {
    hide Runs, Chunk;
    steps, t := FirstFrame(fw);
    steps, t := ArrivesTwice(fw, steps, t, Data(0, Chunk(fw, 0)));
    assert [] + Chunk(fw, 0) == Chunk(fw, 0);
  }

  lemma FirstFrame(fw: seq<Octet>) returns (steps: seq<Step>, t: State)
    requires fw != [] && |fw| < 0x1_0000_0000
    ensures Runs(fw, INIT, steps, t) && t.copiedRequests == 0 && t.copiedOks == 0 && t.phase.Receiving?
    ensures t.host == Upload(1) && t.toDevice == [Data(0, Chunk(fw, 0))] && t.accepted == 0 && t.image == []
  {
    assert FrameCount(|fw|) > 0;
    NoFrames(fw);
    hide Runs, Crc32, FrameCount, Upto, Chunk, Oks, With, Without;
    steps, t := OksCopied(fw, 0);
    steps, t := FrameGoesOut(fw, steps, t, 0);
  }

  lemma ArrivesTwice(fw: seq<Octet>, steps: seq<Step>, s: State, data: Message) returns (steps': seq<Step>, t: State)
    requires Runs(fw, INIT, steps, s) && s.toDevice == [data] && data.Data? && data.number == s.accepted
    requires s.phase.Receiving? && (s.accepted + 1) % 32 != 0
    ensures Runs(fw, INIT, steps', t)
    ensures t == s.(toDevice := [], image := s.image + data.payload, accepted := s.accepted + 1, total := s.total + 1)
  {
    hide Runs;
    steps', t := Then(fw, steps, s, Copy(0, 1));
    assert t == s.(toDevice := [data, data]);
    steps', t := Then(fw, steps', t, DeviceStep);
    assert t.toDevice == [data];
    steps', t := Then(fw, steps', t, DeviceStep);
  }

  /** The REQUEST has been answered. */
  lemma RequestServed(fw: seq<Octet>) returns (steps: seq<Step>, t: State)
    requires |fw| < 0x1_0000_0000
    ensures Runs(fw, INIT, steps, t) && t.host == WaitRequest && t.phase.Receiving?
    ensures t.toDevice == [] && t.toHost == [0] && t.served == 1 && t.copiedRequests == 0 && t.copiedOks == 0
  {
    EmptyRun(fw);
    hide Runs, Crc32, Upto;
    steps, t := Then(fw, [], INIT, HostSend);
    assert t.toDevice == [Request(|fw|)];
    steps, t := Then(fw, steps, t, DeviceStep);
  }

  /** An answer that is lost leaves the tool waiting for nothing, although the device is ready. */
  lemma LostAnswer(fw: seq<Octet>) returns (steps: seq<Step>, t: State)
    requires |fw| < 0x1_0000_0000
    ensures Runs(fw, INIT, steps, t) && t.host == WaitRequest && t.phase.Receiving?
    ensures t.toDevice == [] && t.toHost == [] && t.served == 1
  {
    hide Runs;
    steps, t := RequestServed(fw);
    steps, t := Then(fw, steps, t, LoseStatus(0));
  }

  /** A complaint that overtakes the OK ends the update with its status; its copy is not charged as one of an OK. */
  lemma ComplaintOvertakes(fw: seq<Octet>, status: Byte) returns (steps: seq<Step>, t: State)
    requires |fw| < 0x1_0000_0000 && status != 0
    ensures Runs(fw, INIT, steps, t) && t.host == Failure(status) && t.phase.Receiving?
    ensures t.toHost == [0, status] && t.copiedRequests == 0 && t.copiedOks == 0
  {
    hide Runs, Sends, AfterSend, Process;
    steps, t := RequestServed(fw);
    steps, t := Then(fw, steps, t, Complain(status));
    assert t.toHost == [0, status];
    steps, t := Then(fw, steps, t, CopyStatus(1, 2));
    assert t.toHost == [0, status, status];
    steps, t := Then(fw, steps, t, MoveStatus(2, 0));
    assert t.toHost == [status, 0, status];
    steps, t := Then(fw, steps, t, HostRead);
  }
}

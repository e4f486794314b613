/**
 * The shared store seen by several threads: `on_frame` writes a payload word by word and then its flag, other
 * threads copy the whole struct word by word and flag by flag, in any order, interleaved in any way the mutex allows.
 */
module Snapshot {
  import opened Prelude
  import opened MasterStore

  datatype Owner = Free | ByWriter | ByReader(reader: nat)

  /** Where `on_frame` stands with its decoded frame: which words of the payload are written, or all is. */
  datatype Writer =
    | NotLocked
    | Writing(frame: MasterFrame, words: set<nat>)
    | Written(frame: MasterFrame)

  /** A thread copying the struct: the copy so far, and which words and flags it has copied. */
  datatype Reader = Idle | Copying(copy: MasterData, words: set<(Kind, nat)>, flags: set<Kind>)

  /** A finished copy, with the number of updates that were complete when it was taken. */
  datatype Shot = Shot(data: MasterData, updates: nat)

  datatype State = State(
    shared: MasterData, owner: Owner, writer: Writer, readers: seq<Reader>,
    history: seq<MasterFrame>, shots: seq<Shot>)

  datatype Step =
    | WriterLock(frame: MasterFrame)
    | WriteWord(n: nat)
    | WriteFlag
    | SkipUnknown
    | WriterUnlock
    | ReaderLock(i: nat)
    | CopyWord(i: nat, k: Kind, n: nat)
    | CopyFlag(i: nat, k: Kind)
    | ReaderUnlock(i: nat)

  const ALL_KINDS: set<Kind> := {Measurements, Status, ProtiumValues, OperatingState, Faults}

  function Init(d0: MasterData, readers: nat): State {
    State(d0, Free, NotLocked, seq(readers, _ => Idle), [], [])
  }

  // ---------------------------------------------------------------- payloads of a fixed size

  /** Each payload has as many words as in the blank struct a copy starts from. */
  predicate SameShape(d: MasterData, blank: MasterData) {
    forall k: Kind :: |d.Get(k).value| == |blank.Get(k).value|
  }

  predicate Fits(f: MasterFrame, blank: MasterData) {
    match Target(f)
    case None => true
    case Some((k, c)) => |c| == |blank.Get(k).value|
  }

  /** `before` with some words of `after`. */
  function Mix(before: Content, after: Content, words: set<nat>): (r: Content)
    requires |before| == |after|
    ensures |r| == |before|
    ensures forall n :: 0 <= n < |r| ==> r[n] == if n in words then after[n] else before[n]
  {
    seq(|before|, n requires 0 <= n < |before| => if n in words then after[n] else before[n])
  }

  predicate AllWords(c: Content, words: set<nat>) {
    forall n: nat :: n < |c| ==> n in words
  }

  function SetWord(s: Slot, n: nat, x: int): Slot
    requires n < |s.value|
  {
    Slot(s.value[n := x], s.valid)
  }

  // ---------------------------------------------------------------- steps

  /** `mutex` says whether taking the lock waits for it to be free, as `k_mutex_lock` does. */
  predicate Enabled(s: State, step: Step, blank: MasterData, mutex: bool) {
    match step
    case WriterLock(f) => s.writer.NotLocked? && Fits(f, blank) && (mutex ==> s.owner.Free?)
    case WriteWord(n) =>
      && s.writer.Writing? && Target(s.writer.frame).Some?
      && var (k, c) := Target(s.writer.frame).value; n < |c| && n < |s.shared.Get(k).value|
    case WriteFlag =>
      s.writer.Writing? && Target(s.writer.frame).Some? && AllWords(Target(s.writer.frame).value.1, s.writer.words)
    case SkipUnknown => s.writer.Writing? && Target(s.writer.frame).None?
    case WriterUnlock => s.writer.Written?
    case ReaderLock(i) => i < |s.readers| && s.readers[i].Idle? && (mutex ==> s.owner.Free?)
    case CopyWord(i, k, n) =>
      && i < |s.readers| && s.readers[i].Copying?
      && n < |s.shared.Get(k).value| && n < |s.readers[i].copy.Get(k).value|
    case CopyFlag(i, _) => i < |s.readers| && s.readers[i].Copying?
    case ReaderUnlock(i) =>
      && i < |s.readers| && s.readers[i].Copying?
      && (forall k: Kind :: AllCopied(s.readers[i], k)) && s.readers[i].flags == ALL_KINDS
  }

  predicate AllCopied(r: Reader, k: Kind)
    requires r.Copying?
  {
    forall n: nat :: n < |r.copy.Get(k).value| ==> (k, n) in r.words
  }

  function Do(s: State, step: Step, blank: MasterData, mutex: bool): State
    requires Enabled(s, step, blank, mutex)
  {
    match step
    case WriterLock(f) => s.(owner := ByWriter, writer := Writing(f, {}))
    case WriteWord(n) =>
      var (k, c) := Target(s.writer.frame).value;
      s.(shared := s.shared.Put(k, SetWord(s.shared.Get(k), n, c[n])),
         writer := Writing(s.writer.frame, s.writer.words + {n}))
    case WriteFlag =>
      var (k, _) := Target(s.writer.frame).value;
      s.(shared := s.shared.Put(k, Slot(s.shared.Get(k).value, true)), writer := Written(s.writer.frame))
    case SkipUnknown => s.(writer := Written(s.writer.frame))
    case WriterUnlock => s.(owner := Free, writer := NotLocked, history := s.history + [s.writer.frame])
    case ReaderLock(i) => s.(owner := ByReader(i), readers := s.readers[i := Copying(blank, {}, {})])
    case CopyWord(i, k, n) =>
      var r := s.readers[i];
      var slot := SetWord(r.copy.Get(k), n, s.shared.Get(k).value[n]);
      s.(readers := s.readers[i := Copying(r.copy.Put(k, slot), r.words + {(k, n)}, r.flags)])
    case CopyFlag(i, k) =>
      var r := s.readers[i];
      var slot := Slot(r.copy.Get(k).value, s.shared.Get(k).valid);
      s.(readers := s.readers[i := Copying(r.copy.Put(k, slot), r.words, r.flags + {k})])
    case ReaderUnlock(i) =>
      s.(owner := Free, readers := s.readers[i := Idle],
         shots := s.shots + [Shot(s.readers[i].copy, |s.history|)])
  }

  /** `steps` is a possible run from `s`, and ends in `t`. A copy starts out as the `blank` struct. */
  predicate Runs(s: State, steps: seq<Step>, t: State, blank: MasterData, mutex: bool)
    decreases |steps|
  {
    if steps == [] then s == t
    else Enabled(s, steps[0], blank, mutex) && Runs(Do(s, steps[0], blank, mutex), steps[1..], t, blank, mutex)
  }

  // ---------------------------------------------------------------- the invariant

  /** The store while `f` is being written over `d`. */
  ghost predicate PartlyWritten(shared: MasterData, d: MasterData, f: MasterFrame, words: set<nat>, blank: MasterData)
    requires SameShape(d, blank) && Fits(f, blank)
  {
    match Target(f)
    case None => shared == d
    case Some((k, c)) => shared == d.Put(k, Slot(Mix(d.Get(k).value, c, words), d.Get(k).valid))
  }

  ghost predicate WriterInv(s: State, d0: MasterData, blank: MasterData) {
    var d := Fold(d0, s.history);
    && (s.owner == ByWriter <==> !s.writer.NotLocked?)
    && SameShape(d, blank)
    && match s.writer
       case NotLocked => s.shared == d
       case Writing(f, words) => Fits(f, blank) && PartlyWritten(s.shared, d, f, words, blank)
       case Written(f) => Fits(f, blank) && s.shared == Apply(d, f)
  }

  /** A copying reader holds the lock, and what it has copied is still what the store says. */
  ghost predicate ReaderInv(r: Reader, i: nat, owner: Owner, shared: MasterData, blank: MasterData) {
    && (owner == ByReader(i) <==> r.Copying?)
    && (r.Copying? ==>
          && SameShape(r.copy, blank)
          && (forall k: Kind :: SlotCopied(r.copy.Get(k), shared.Get(k), k, r.words))
          && (forall k | k in r.flags :: r.copy.Get(k).valid == shared.Get(k).valid))
  }

  predicate SlotCopied(copy: Slot, shared: Slot, k: Kind, words: set<(Kind, nat)>) {
    |copy.value| == |shared.value| &&
    forall n: nat :: n < |copy.value| && (k, n) in words ==> copy.value[n] == shared.value[n]
  }

  ghost predicate ReadersInv(s: State, blank: MasterData) {
    && (s.owner.ByReader? ==> s.owner.reader < |s.readers|)
    && forall i | 0 <= i < |s.readers| :: ReaderInv(s.readers[i], i, s.owner, s.shared, blank)
  }

  ghost predicate ShotInv(s: State, d0: MasterData) {
    && (forall j | 0 <= j < |s.shots| ::
          s.shots[j].updates <= |s.history| && s.shots[j].data == Fold(d0, s.history[..s.shots[j].updates]))
    && (forall i, j | 0 <= i < j < |s.shots| :: s.shots[i].updates <= s.shots[j].updates)
  }

  ghost predicate Inv(s: State, d0: MasterData, blank: MasterData) {
    WriterInv(s, d0, blank) && ReadersInv(s, blank) && ShotInv(s, d0)
  }

  predicate ByTheWriter(step: Step) {
    step.WriterLock? || step.WriteWord? || step.WriteFlag? || step.SkipUnknown? || step.WriterUnlock?
  }

  lemma GetPut(d: MasterData, k: Kind, slot: Slot, j: Kind)
    ensures d.Put(k, slot).Get(j) == if j == k then slot else d.Get(j)
  {
    match k
    case Measurements =>
    case Status =>
    case ProtiumValues =>
    case OperatingState =>
    case Faults =>
  }

  lemma PutTwice(d: MasterData, k: Kind, a: Slot, b: Slot)
    ensures d.Put(k, a).Put(k, b) == d.Put(k, b)
    ensures d.Put(k, d.Get(k)) == d
  {
    match k
    case Measurements =>
    case Status =>
    case ProtiumValues =>
    case OperatingState =>
    case Faults =>
  }

  lemma StepKeepsWriter(s: State, step: Step, blank: MasterData, d0: MasterData)
    requires Inv(s, d0, blank) && Enabled(s, step, blank, true)
    ensures WriterInv(Do(s, step, blank, true), d0, blank)
  {
    hide Fold, Apply, SameShape, Fits, PartlyWritten, ShotInv, AllWords;
    match step {
      case WriterLock(f) => NothingWritten(Fold(d0, s.history), f, blank);
      case WriteWord(n) => WordWritten(s, n, Fold(d0, s.history), blank);
      case WriteFlag => FlagWritten(s, Fold(d0, s.history), blank);
      case SkipUnknown => UnknownSkipped(s, Fold(d0, s.history), blank);
      case WriterUnlock => Updated(s, d0, blank);
      case _ => assert ReaderInv(s.readers[step.i], step.i, s.owner, s.shared, blank);
    }
  }

  lemma NothingWritten(d: MasterData, f: MasterFrame, blank: MasterData)
    requires SameShape(d, blank) && Fits(f, blank)
    ensures PartlyWritten(d, d, f, {}, blank)
  {
    if Target(f).Some? {
      var (k, c) := Target(f).value;
      assert Mix(d.Get(k).value, c, {}) == d.Get(k).value;
      PutTwice(d, k, d.Get(k), d.Get(k));
    }
  }

  lemma WordWritten(s: State, n: nat, d: MasterData, blank: MasterData)
    requires s.writer.Writing? && Enabled(s, WriteWord(n), blank, true) && SameShape(d, blank)
    requires Fits(s.writer.frame, blank) && PartlyWritten(s.shared, d, s.writer.frame, s.writer.words, blank)
    ensures PartlyWritten(Do(s, WriteWord(n), blank, true).shared, d, s.writer.frame, s.writer.words + {n}, blank)
  {
    var (k, c) := Target(s.writer.frame).value;
    var words, slot := s.writer.words, d.Get(k);
    assert Mix(slot.value, c, words)[n := c[n]] == Mix(slot.value, c, words + {n});
    var mixed := Slot(Mix(slot.value, c, words), slot.valid);
    GetPut(d, k, mixed, k);
    PutTwice(d, k, mixed, SetWord(mixed, n, c[n]));
  }

  lemma FlagWritten(s: State, d: MasterData, blank: MasterData)
    requires s.writer.Writing? && Enabled(s, WriteFlag, blank, true) && SameShape(d, blank)
    requires Fits(s.writer.frame, blank) && PartlyWritten(s.shared, d, s.writer.frame, s.writer.words, blank)
    ensures Do(s, WriteFlag, blank, true).shared == Apply(d, s.writer.frame)
  {
    var (k, c) := Target(s.writer.frame).value;
    var words, slot := s.writer.words, d.Get(k);
    assert Mix(slot.value, c, words) == c;
    GetPut(d, k, Slot(c, slot.valid), k);
    PutTwice(d, k, Slot(c, slot.valid), Slot(c, true));
  }

  lemma UnknownSkipped(s: State, d: MasterData, blank: MasterData)
    requires s.writer.Writing? && Enabled(s, SkipUnknown, blank, true) && SameShape(d, blank)
    requires Fits(s.writer.frame, blank) && PartlyWritten(s.shared, d, s.writer.frame, s.writer.words, blank)
    ensures s.shared == Apply(d, s.writer.frame)
  {}

  lemma Updated(s: State, d0: MasterData, blank: MasterData)
    requires WriterInv(s, d0, blank) && s.writer.Written?
    ensures WriterInv(Do(s, WriterUnlock, blank, true), d0, blank)
  {
    var f, d := s.writer.frame, Fold(d0, s.history);
    assert (s.history + [f])[..|s.history|] == s.history;
    assert SameShape(Apply(d, f), blank) by {
      if Target(f).Some? {
        var (k, c) := Target(f).value;
        forall j: Kind ensures |Apply(d, f).Get(j).value| == |blank.Get(j).value| {
          GetPut(d, k, Slot(c, true), j);
        }
      }
    }
  }

  lemma StepKeepsReaders(s: State, step: Step, blank: MasterData, d0: MasterData)
    requires Inv(s, d0, blank) && Enabled(s, step, blank, true)
    ensures ReadersInv(Do(s, step, blank, true), blank)
  {
    var t := Do(s, step, blank, true);
    forall i | 0 <= i < |t.readers| ensures ReaderInv(t.readers[i], i, t.owner, t.shared, blank) {
      assert ReaderInv(s.readers[i], i, s.owner, s.shared, blank);
      if ByTheWriter(step) {
        OthersWait(s, step, i, blank);
      } else {
        assert ReaderInv(s.readers[step.i], step.i, s.owner, s.shared, blank);
        if i == step.i {
          CopyKeepsReader(s, step, blank, d0);
        } else {
          OthersIdle(s, step, i, blank);
        }
      }
    }
  }

  /** While the writer works no reader copies. */
  lemma OthersWait(s: State, step: Step, i: nat, blank: MasterData)
    requires ByTheWriter(step) && Enabled(s, step, blank, true) && i < |s.readers|
    requires (s.owner == ByWriter <==> !s.writer.NotLocked?) && ReaderInv(s.readers[i], i, s.owner, s.shared, blank)
    ensures var t := Do(s, step, blank, true); ReaderInv(t.readers[i], i, t.owner, t.shared, blank)
  {
    hide SameShape, SlotCopied, Fits, AllWords;
  }

  /** While one reader works no other copies. */
  lemma OthersIdle(s: State, step: Step, i: nat, blank: MasterData)
    requires !ByTheWriter(step) && Enabled(s, step, blank, true) && i < |s.readers| && i != step.i
    requires ReaderInv(s.readers[i], i, s.owner, s.shared, blank)
    requires ReaderInv(s.readers[step.i], step.i, s.owner, s.shared, blank)
    ensures var t := Do(s, step, blank, true); ReaderInv(t.readers[i], i, t.owner, t.shared, blank)
  {
    hide SameShape, SlotCopied, AllCopied;
  }

  lemma CopyKeepsReader(s: State, step: Step, blank: MasterData, d0: MasterData)
    requires Inv(s, d0, blank) && Enabled(s, step, blank, true) && !ByTheWriter(step)
    requires ReaderInv(s.readers[step.i], step.i, s.owner, s.shared, blank)
    ensures var t := Do(s, step, blank, true);
            ReaderInv(t.readers[step.i], step.i, t.owner, t.shared, blank)
  {
    match step {
      case ReaderLock(_) => StoreHasShape(s, d0, blank);
      case CopyWord(i, k, n) => WordCopied(s, i, k, n, blank);
      case CopyFlag(i, k) => FlagCopied(s, i, k, blank);
      case ReaderUnlock(_) =>
    }
  }

  /** When the lock is free the store is whole, so every payload has its size. */
  lemma StoreHasShape(s: State, d0: MasterData, blank: MasterData)
    requires WriterInv(s, d0, blank) && s.owner.Free?
    ensures SameShape(s.shared, blank) && SameShape(blank, blank)
  {}

  lemma WordCopied(s: State, i: nat, k: Kind, n: nat, blank: MasterData)
    requires Enabled(s, CopyWord(i, k, n), blank, true) && ReaderInv(s.readers[i], i, s.owner, s.shared, blank)
    ensures var t := Do(s, CopyWord(i, k, n), blank, true); ReaderInv(t.readers[i], i, t.owner, t.shared, blank)
  {
    var r := s.readers[i];
    var slot := SetWord(r.copy.Get(k), n, s.shared.Get(k).value[n]);
    var copy := r.copy.Put(k, slot);
    forall j: Kind
      ensures |copy.Get(j).value| == |blank.Get(j).value|
      ensures SlotCopied(copy.Get(j), s.shared.Get(j), j, r.words + {(k, n)})
      ensures copy.Get(j).valid == r.copy.Get(j).valid
    {
      GetPut(r.copy, k, slot, j);
      assert SlotCopied(r.copy.Get(j), s.shared.Get(j), j, r.words);
    }
  }

  lemma FlagCopied(s: State, i: nat, k: Kind, blank: MasterData)
    requires Enabled(s, CopyFlag(i, k), blank, true) && ReaderInv(s.readers[i], i, s.owner, s.shared, blank)
    ensures var t := Do(s, CopyFlag(i, k), blank, true); ReaderInv(t.readers[i], i, t.owner, t.shared, blank)
  {
    var r := s.readers[i];
    var slot := Slot(r.copy.Get(k).value, s.shared.Get(k).valid);
    var copy := r.copy.Put(k, slot);
    forall j: Kind
      ensures copy.Get(j).value == r.copy.Get(j).value
      ensures copy.Get(j).valid == if j == k then s.shared.Get(k).valid else r.copy.Get(j).valid
    {
      GetPut(r.copy, k, slot, j);
    }
    forall j: Kind ensures SlotCopied(copy.Get(j), s.shared.Get(j), j, r.words) {
      assert SlotCopied(r.copy.Get(j), s.shared.Get(j), j, r.words);
    }
  }

  lemma StepKeepsShots(s: State, step: Step, blank: MasterData, d0: MasterData)
    requires Inv(s, d0, blank) && Enabled(s, step, blank, true)
    ensures ShotInv(Do(s, step, blank, true), d0)
  {
    hide Fold, Fits, AllWords, AllCopied, SlotCopied, SameShape, PartlyWritten;
    var t := Do(s, step, blank, true);
    forall j | 0 <= j < |s.shots| ensures t.history[..s.shots[j].updates] == s.history[..s.shots[j].updates] {}
    if step.ReaderUnlock? {
      assert ReaderInv(s.readers[step.i], step.i, s.owner, s.shared, blank);
      assert s.history[..|s.history|] == s.history;
      CopyIsWhole(s.readers[step.i], step.i, s.owner, s.shared, blank);
    }
  }

  lemma CopyIsWhole(r: Reader, i: nat, owner: Owner, shared: MasterData, blank: MasterData)
    requires ReaderInv(r, i, owner, shared, blank) && r.Copying?
    requires (forall k: Kind :: AllCopied(r, k)) && r.flags == ALL_KINDS
    ensures r.copy == shared
  {
    forall k: Kind ensures r.copy.Get(k) == shared.Get(k) {
      EveryKind(k);
      assert AllCopied(r, k) && SlotCopied(r.copy.Get(k), shared.Get(k), k, r.words);
      assert r.copy.Get(k).value == shared.Get(k).value;
    }
    SameSlots(r.copy, shared);
  }

  lemma EveryKind(k: Kind)
    ensures k in ALL_KINDS
  {
    match k
    case Measurements =>
    case Status =>
    case ProtiumValues =>
    case OperatingState =>
    case Faults =>
  }

  lemma SameSlots(a: MasterData, b: MasterData)
    requires forall k: Kind :: a.Get(k) == b.Get(k)
    ensures a == b
  {
    assert a.Get(Measurements) == b.Get(Measurements) && a.Get(Status) == b.Get(Status);
    assert a.Get(ProtiumValues) == b.Get(ProtiumValues) && a.Get(OperatingState) == b.Get(OperatingState);
    assert a.Get(Faults) == b.Get(Faults);
  }

  lemma {:induction false} RunKeepsInv(s: State, steps: seq<Step>, t: State, blank: MasterData, d0: MasterData)
    requires Inv(s, d0, blank) && Runs(s, steps, t, blank, true)
    ensures Inv(t, d0, blank)
    decreases |steps|
  {
    hide WriterInv, ReadersInv, ShotInv, Do, Enabled;
    if steps != [] {
      StepKeepsWriter(s, steps[0], blank, d0);
      StepKeepsReaders(s, steps[0], blank, d0);
      StepKeepsShots(s, steps[0], blank, d0);
      RunKeepsInv(Do(s, steps[0], blank, true), steps[1..], t, blank, d0);
    }
  }

  // ---------------------------------------------------------------- what a snapshot tells its reader

  /** No snapshot is torn: each is the store after some whole number of updates, later ones never older. */
  lemma SnapshotsAreWhole(d0: MasterData, readers: nat, steps: seq<Step>, t: State, blank: MasterData)
    requires SameShape(d0, blank) && Runs(Init(d0, readers), steps, t, blank, true)
    ensures forall j | 0 <= j < |t.shots| ::
              t.shots[j].updates <= |t.history| && t.shots[j].data == Fold(d0, t.history[..t.shots[j].updates])
    ensures forall i, j | 0 <= i < j < |t.shots| :: t.shots[i].updates <= t.shots[j].updates
  {
    var s := Init(d0, readers);
    assert ReadersInv(s, blank);
    hide Runs;
    RunKeepsInv(s, steps, t, blank, d0);
  }

  /** Starting from unset flags, a snapshot's flag is set exactly when its value is the newest of its kind. */
  lemma FlagMeansNewest(
    d0: MasterData, readers: nat, steps: seq<Step>, t: State, blank: MasterData, j: nat, k: Kind)
    requires SameShape(d0, blank) && Runs(Init(d0, readers), steps, t, blank, true)
    requires j < |t.shots| && !d0.Get(k).valid
    ensures t.shots[j].updates <= |t.history|
    ensures var slot := t.shots[j].data.Get(k);
            var newest := LastOf(k, t.history[..t.shots[j].updates]);
            if slot.valid then newest == Some(slot.value) else newest == None && slot == d0.Get(k)
  {
    hide Runs;
    SnapshotsAreWhole(d0, readers, steps, t, blank);
    FoldKeepsLast(d0, t.history[..t.shots[j].updates], k);
  }

  /** Once a snapshot shows a kind as valid, every later snapshot does. */
  lemma FlagsNeverGoBack(
    d0: MasterData, readers: nat, steps: seq<Step>, t: State, blank: MasterData, i: nat, j: nat, k: Kind)
    requires SameShape(d0, blank) && Runs(Init(d0, readers), steps, t, blank, true)
    requires i < j < |t.shots| && t.shots[i].data.Get(k).valid
    ensures t.shots[j].data.Get(k).valid
  {
    hide Runs;
    SnapshotsAreWhole(d0, readers, steps, t, blank);
    var m, n := t.shots[i].updates, t.shots[j].updates;
    assert t.history[..n] == t.history[..m] + t.history[m..n];
    FlagsOnlyRise(d0, t.history[..m], t.history[m..n], k);
  }

  // ---------------------------------------------------------------- progress

  lemma {:induction false} RunsOneMore(s: State, steps: seq<Step>, t: State, step: Step, blank: MasterData, mutex: bool)
    requires Runs(s, steps, t, blank, mutex) && Enabled(t, step, blank, mutex)
    ensures Runs(s, steps + [step], Do(t, step, blank, mutex), blank, mutex)
    decreases |steps|
  {
    hide Enabled, Do;
    if steps == [] {
      assert Runs(Do(t, step, blank, mutex), [step][1..], Do(t, step, blank, mutex), blank, mutex);
    } else {
      assert (steps + [step])[1..] == steps[1..] + [step];
      RunsOneMore(Do(s, steps[0], blank, mutex), steps[1..], t, step, blank, mutex);
    }
  }

  lemma Next(s: State, steps: seq<Step>, t: State, step: Step, blank: MasterData)
    returns (steps': seq<Step>, t': State)
    requires Runs(s, steps, t, blank, true) && Enabled(t, step, blank, true)
    ensures Runs(s, steps', t', blank, true) && t' == Do(t, step, blank, true)
  {
    RunsOneMore(s, steps, t, step, blank, true);
    steps', t' := steps + [step], Do(t, step, blank, true);
  }

  lemma Reached(d0: MasterData, readers: nat, past: seq<Step>, s: State, blank: MasterData)
    requires SameShape(d0, blank) && Runs(Init(d0, readers), past, s, blank, true)
    ensures Inv(s, d0, blank)
  {
    assert ReadersInv(Init(d0, readers), blank);
    hide Runs;
    RunKeepsInv(Init(d0, readers), past, s, blank, d0);
  }

  /** All but reader `i` is as before. */
  ghost predicate OnlyReader(s: State, t: State, i: nat) {
    i < |s.readers| && |t.readers| == |s.readers| && t == s.(readers := s.readers[i := t.readers[i]])
  }

  /** The first `n` words of one payload. */
  lemma {:induction false} CopyWords(
    start: State, past: seq<Step>, s: State, i: nat, k: Kind, n: nat, blank: MasterData)
    returns (steps: seq<Step>, t: State)
    requires Runs(start, past, s, blank, true) && i < |s.readers| && s.readers[i].Copying?
    requires n <= |s.shared.Get(k).value| == |s.readers[i].copy.Get(k).value|
    ensures Runs(start, steps, t, blank, true) && OnlyReader(s, t, i) && t.readers[i].Copying?
    ensures t.readers[i].flags == s.readers[i].flags && s.readers[i].words <= t.readers[i].words
    ensures forall j: Kind :: |t.readers[i].copy.Get(j).value| == |s.readers[i].copy.Get(j).value|
    ensures forall m: nat :: m < n ==> (k, m) in t.readers[i].words
    decreases n
  {
    hide Runs;
    if n == 0 {
      steps, t := past, s;
      assert s.readers[i := s.readers[i]] == s.readers;
    } else {
      var u;
      steps, u := CopyWords(start, past, s, i, k, n - 1, blank);
      steps, t := Next(start, steps, u, CopyWord(i, k, n - 1), blank);
      var slot := SetWord(u.readers[i].copy.Get(k), n - 1, u.shared.Get(k).value[n - 1]);
      forall j: Kind ensures |t.readers[i].copy.Get(j).value| == |u.readers[i].copy.Get(j).value| {
        GetPut(u.readers[i].copy, k, slot, j);
      }
    }
  }

  /** One payload, and its flag. */
  lemma CopyKind(start: State, past: seq<Step>, s: State, i: nat, k: Kind, blank: MasterData)
    returns (steps: seq<Step>, t: State)
    requires Runs(start, past, s, blank, true) && i < |s.readers| && s.readers[i].Copying?
    requires forall j: Kind :: |s.shared.Get(j).value| == |s.readers[i].copy.Get(j).value|
    ensures Runs(start, steps, t, blank, true) && OnlyReader(s, t, i) && t.readers[i].Copying?
    ensures forall j: Kind :: |t.shared.Get(j).value| == |t.readers[i].copy.Get(j).value|
    ensures t.readers[i].flags == s.readers[i].flags + {k} && s.readers[i].words <= t.readers[i].words
    ensures AllCopied(t.readers[i], k)
    ensures forall j: Kind :: AllCopied(s.readers[i], j) ==> AllCopied(t.readers[i], j)
  {
    hide Runs;
    var u;
    steps, u := CopyWords(start, past, s, i, k, |s.shared.Get(k).value|, blank);
    steps, t := Next(start, steps, u, CopyFlag(i, k), blank);
    forall j: Kind ensures |t.readers[i].copy.Get(j).value| == |u.readers[i].copy.Get(j).value| {
      GetPut(u.readers[i].copy, k, Slot(u.readers[i].copy.Get(k).value, u.shared.Get(k).valid), j);
    }
    var words := t.readers[i].words;
    assert words == u.readers[i].words;
    forall j: Kind | AllCopied(s.readers[i], j) ensures AllCopied(t.readers[i], j) {}
  }

  /** A reader that has the lock can finish its copy and let go. */
  lemma FinishCopy(start: State, past: seq<Step>, s: State, i: nat, blank: MasterData)
    returns (steps: seq<Step>, t: State, shot: Shot)
    requires Runs(start, past, s, blank, true) && i < |s.readers| && s.readers[i].Copying?
    requires forall k: Kind :: |s.shared.Get(k).value| == |s.readers[i].copy.Get(k).value|
    ensures Runs(start, steps, t, blank, true) && shot.updates == |s.history|
    ensures t == s.(owner := Free, readers := s.readers[i := Idle], shots := s.shots + [shot])
  {
    hide Runs, AllCopied;
    var u;
    steps, u := CopyKind(start, past, s, i, Measurements, blank);
    steps, u := CopyKind(start, steps, u, i, Status, blank);
    steps, u := CopyKind(start, steps, u, i, ProtiumValues, blank);
    steps, u := CopyKind(start, steps, u, i, OperatingState, blank);
    steps, u := CopyKind(start, steps, u, i, Faults, blank);
    forall k: Kind ensures AllCopied(u.readers[i], k) && (k in u.readers[i].flags <==> k in ALL_KINDS) {
      match k
      case Measurements =>
      case Status =>
      case ProtiumValues =>
      case OperatingState =>
      case Faults =>
    }
    assert u.readers[i].flags == ALL_KINDS;
    shot := Shot(u.readers[i].copy, |s.history|);
    steps, t := Next(start, steps, u, ReaderUnlock(i), blank);
    assert t.readers == s.readers[i := Idle];
  }

  /** Whenever the lock is free any reader can take a copy, and what it gets is the store after all updates so far. */
  lemma CanCopy(d0: MasterData, readers: nat, past: seq<Step>, s: State, blank: MasterData, i: nat)
    returns (steps: seq<Step>, t: State)
    requires SameShape(d0, blank) && Runs(Init(d0, readers), past, s, blank, true)
    requires s.owner.Free? && i < |s.readers|
    ensures Runs(s, steps, t, blank, true)
    ensures t == s.(shots := s.shots + [Shot(Fold(d0, s.history), |s.history|)])
  {
    Reached(d0, readers, past, s, blank);
    assert ReaderInv(s.readers[i], i, s.owner, s.shared, blank);
    assert Runs(s, [], s, blank, true);
    hide Runs;
    var u, shot;
    steps, u := Next(s, [], s, ReaderLock(i), blank);
    steps, t, shot := FinishCopy(s, steps, u, i, blank);
    assert t.readers == s.readers;
    RunKeepsInv(s, steps, t, blank, d0);
    assert t.shots[|s.shots|] == shot && t.history[..|t.history|] == t.history;
  }

  /** The words of an update, from wherever it stands. */
  lemma {:induction false} WriteWords(start: State, past: seq<Step>, s: State, n: nat, blank: MasterData)
    returns (steps: seq<Step>, t: State)
    requires Runs(start, past, s, blank, true) && s.writer.Writing? && Target(s.writer.frame).Some?
    requires var (k, c) := Target(s.writer.frame).value; n <= |c| == |s.shared.Get(k).value|
    ensures Runs(start, steps, t, blank, true)
    ensures t.writer.Writing? && t.writer.frame == s.writer.frame && forall m: nat :: m < n ==> m in t.writer.words
    ensures t == s.(shared := t.shared, writer := t.writer)
    ensures var (k, c) := Target(s.writer.frame).value; |t.shared.Get(k).value| == |c|
    decreases n
  {
    hide Runs;
    if n == 0 {
      steps, t := past, s;
    } else {
      var u;
      steps, u := WriteWords(start, past, s, n - 1, blank);
      steps, t := Next(start, steps, u, WriteWord(n - 1), blank);
      var (k, c) := Target(s.writer.frame).value;
      GetPut(u.shared, k, SetWord(u.shared.Get(k), n - 1, c[n - 1]), k);
    }
  }

  /** A writer that has the lock can finish its update and let go. */
  lemma FinishUpdate(start: State, past: seq<Step>, s: State, blank: MasterData)
    returns (steps: seq<Step>, t: State)
    requires Runs(start, past, s, blank, true) && !s.writer.NotLocked?
    requires Target(s.writer.frame).Some? ==>
      var (k, c) := Target(s.writer.frame).value; |c| == |s.shared.Get(k).value|
    ensures Runs(start, steps, t, blank, true)
    ensures t == s.(owner := Free, writer := NotLocked, shared := t.shared, history := s.history + [s.writer.frame])
  {
    hide Runs;
    steps, t := past, s;
    if s.writer.Writing? {
      if Target(s.writer.frame).Some? {
        steps, t := WriteWords(start, past, s, |Target(s.writer.frame).value.1|, blank);
        steps, t := Next(start, steps, t, WriteFlag, blank);
      } else {
        steps, t := Next(start, steps, t, SkipUnknown, blank);
      }
    }
    steps, t := Next(start, steps, t, WriterUnlock, blank);
  }

  /** Whenever the lock is free any frame of the right size can be stored, in one piece. */
  lemma CanUpdate(d0: MasterData, readers: nat, past: seq<Step>, s: State, blank: MasterData, f: MasterFrame)
    returns (steps: seq<Step>, t: State)
    requires SameShape(d0, blank) && Runs(Init(d0, readers), past, s, blank, true)
    requires s.owner.Free?
    requires match Target(f) case None => true case Some((k, c)) => |c| == |blank.Get(k).value|
    ensures Runs(s, steps, t, blank, true)
    ensures t == s.(shared := Apply(s.shared, f), history := s.history + [f])
  {
    Reached(d0, readers, past, s, blank);
    assert Runs(s, [], s, blank, true);
    hide Runs, ReadersInv, ShotInv;
    var u;
    steps, u := Next(s, [], s, WriterLock(f), blank);
    steps, t := FinishUpdate(s, steps, u, blank);
    RunKeepsInv(s, steps, t, blank, d0);
    assert t.history[..|s.history|] == s.history;
  }

  /** Whoever has the lock can always let go of it, whatever the others do not do. */
  lemma CanRelease(d0: MasterData, readers: nat, past: seq<Step>, s: State, blank: MasterData)
    returns (steps: seq<Step>, t: State)
    requires SameShape(d0, blank) && Runs(Init(d0, readers), past, s, blank, true)
    ensures Runs(s, steps, t, blank, true) && t.owner.Free?
  {
    Reached(d0, readers, past, s, blank);
    assert Runs(s, [], s, blank, true);
    hide Runs, ShotInv;
    match s.owner {
      case Free => steps, t := [], s;
      case ByWriter =>
        if Target(s.writer.frame).Some? {
          WriterHasShape(s, d0, blank);
        }
        steps, t := FinishUpdate(s, [], s, blank);
      case ByReader(i) =>
        assert ReaderInv(s.readers[i], i, s.owner, s.shared, blank);
        forall k: Kind ensures |s.shared.Get(k).value| == |s.readers[i].copy.Get(k).value| {
          assert SlotCopied(s.readers[i].copy.Get(k), s.shared.Get(k), k, s.readers[i].words);
        }
        var shot;
        steps, t, shot := FinishCopy(s, [], s, i, blank);
    }
  }

  /** Also in the middle of an update every payload has its size. */
  lemma WriterHasShape(s: State, d0: MasterData, blank: MasterData)
    requires WriterInv(s, d0, blank) && !s.writer.NotLocked? && Target(s.writer.frame).Some?
    ensures var (k, c) := Target(s.writer.frame).value; |c| == |s.shared.Get(k).value|
  {
    var d := Fold(d0, s.history);
    var (k, c) := Target(s.writer.frame).value;
    if s.writer.Writing? {
      GetPut(d, k, Slot(Mix(d.Get(k).value, c, s.writer.words), d.Get(k).valid), k);
    } else {
      GetPut(d, k, Slot(c, true), k);
    }
  }

  // ---------------------------------------------------------------- the mutex is needed

  const NO_WORDS := Slot([], false)

  /** A struct in which only the status has words, two of them. */
  const BLANK := MasterData(NO_WORDS, Slot([0, 0], false), NO_WORDS, NO_WORDS, NO_WORDS)
  const FRAME := MasterFrame(0, 0, StatusPayload([7, 8]))

  lemma Then(s: State, steps: seq<Step>, t: State, step: Step) returns (steps': seq<Step>, t': State)
    requires Runs(s, steps, t, BLANK, false) && Enabled(t, step, BLANK, false)
    ensures Runs(s, steps', t', BLANK, false) && t' == Do(t, step, BLANK, false)
  {
    RunsOneMore(s, steps, t, step, BLANK, false);
    steps', t' := steps + [step], Do(t, step, BLANK, false);
  }

  /** An unlocked reader copies the first word of the status. */
  lemma CopyFirstWord() returns (steps: seq<Step>, t: State)
    ensures Runs(Init(BLANK, 1), steps, t, BLANK, false)
    ensures t == State(BLANK, ByReader(0), NotLocked, [Copying(BLANK, {(Status, 0)}, {})], [], [])
  {
    var s := Init(BLANK, 1);
    assert Runs(s, [], s, BLANK, false);
    hide Runs;
    steps, t := Then(s, [], s, ReaderLock(0));
    assert t.readers == [Copying(BLANK, {}, {})];
    steps, t := Then(s, steps, t, CopyWord(0, Status, 0));
    assert [0, 0][0 := 0] == [0, 0];
    assert t.readers[0].copy == BLANK && t.readers[0].words == {(Status, 0)};
    assert t.readers == [Copying(BLANK, {(Status, 0)}, {})];
  }

  /** One whole status update, while the reader copies. */
  lemma ThenUpdate(s: State, steps: seq<Step>, t: State) returns (steps': seq<Step>, t': State)
    requires Runs(s, steps, t, BLANK, false)
    requires t == State(BLANK, ByReader(0), NotLocked, t.readers, [], [])
    ensures Runs(s, steps', t', BLANK, false)
    ensures t' == State(BLANK.(status := Slot([7, 8], true)), Free, NotLocked, t.readers, [FRAME], [])
  {
    hide Runs;
    steps', t' := Then(s, steps, t, WriterLock(FRAME));
    steps', t' := Then(s, steps', t', WriteWord(0));
    assert t'.shared == BLANK.(status := Slot([7, 0], false));
    steps', t' := Then(s, steps', t', WriteWord(1));
    assert t'.shared == BLANK.(status := Slot([7, 8], false));
    steps', t' := Then(s, steps', t', WriteFlag);
    steps', t' := Then(s, steps', t', WriterUnlock);
  }

  /** A status of which one word is old, the other and the flag new. */
  const TORN := BLANK.(status := Slot([0, 8], true))
  const BOTH_WORDS: set<(Kind, nat)> := {(Status, 0), (Status, 1)}

  /** The reader copies the second word, and the flag. */
  lemma ThenTheRest(s: State, steps: seq<Step>, t: State) returns (steps': seq<Step>, t': State)
    requires Runs(s, steps, t, BLANK, false) && t.shared == BLANK.(status := Slot([7, 8], true))
    requires t.readers == [Copying(BLANK, {(Status, 0)}, {})]
    ensures Runs(s, steps', t', BLANK, false) && t' == t.(readers := [Copying(TORN, BOTH_WORDS, {Status})])
  {
    hide Runs;
    steps', t' := Then(s, steps, t, CopyWord(0, Status, 1));
    assert t'.readers[0].copy == BLANK.(status := Slot([0, 8], false));
    assert t'.readers[0].words == BOTH_WORDS;
    steps', t' := Then(s, steps', t', CopyFlag(0, Status));
    assert t'.readers[0] == Copying(TORN, BOTH_WORDS, {Status});
    assert t'.readers == [Copying(TORN, BOTH_WORDS, {Status})];
  }

  /** Copying the flag of another kind, still unset, only adds it to what has been copied. */
  lemma ThenFlag(s: State, steps: seq<Step>, t: State, k: Kind) returns (steps': seq<Step>, t': State)
    requires Runs(s, steps, t, BLANK, false) && t.shared == BLANK.(status := Slot([7, 8], true)) && k != Status
    requires |t.readers| == 1 && t.readers[0].Copying? && t.readers[0].copy == TORN
    ensures Runs(s, steps', t', BLANK, false)
    ensures t' == t.(readers := [Copying(TORN, t.readers[0].words, t.readers[0].flags + {k})])
  {
    steps', t' := Then(s, steps, t, CopyFlag(0, k));
    hide Runs;
    match k
    case Measurements =>
    case ProtiumValues =>
    case OperatingState =>
    case Faults =>
  }

  lemma ThenOtherFlags(s: State, steps: seq<Step>, t: State) returns (steps': seq<Step>, t': State)
    requires Runs(s, steps, t, BLANK, false) && t.shared == BLANK.(status := Slot([7, 8], true))
    requires t.readers == [Copying(TORN, BOTH_WORDS, {Status})]
    ensures Runs(s, steps', t', BLANK, false) && t' == t.(readers := [Copying(TORN, BOTH_WORDS, ALL_KINDS)])
  {
    hide Runs;
    steps', t' := ThenFlag(s, steps, t, Measurements);
    steps', t' := ThenFlag(s, steps', t', ProtiumValues);
    steps', t' := ThenFlag(s, steps', t', OperatingState);
    steps', t' := ThenFlag(s, steps', t', Faults);
    assert t'.readers[0].flags == ALL_KINDS;
  }

  /** Without the mutex a reader can see half a payload, with its flag set: one update gets in between. */
  lemma TornWithoutMutex() returns (steps: seq<Step>, t: State)
    ensures Runs(Init(BLANK, 1), steps, t, BLANK, false)
    ensures t.history == [FRAME] && |t.shots| == 1 && t.shots[0].data.status == Slot([0, 8], true)
    ensures t.shots[0].data != Fold(BLANK, []) && t.shots[0].data != Fold(BLANK, [FRAME])
  {
    hide Runs;
    var s := Init(BLANK, 1);
    steps, t := CopyFirstWord();
    steps, t := ThenUpdate(s, steps, t);
    steps, t := ThenTheRest(s, steps, t);
    steps, t := ThenOtherFlags(s, steps, t);
    forall k: Kind ensures AllCopied(t.readers[0], k) {
      match k
      case Measurements =>
      case Status =>
      case ProtiumValues =>
      case OperatingState =>
      case Faults =>
    }
    steps, t := Then(s, steps, t, ReaderUnlock(0));
    assert Fold(BLANK, [FRAME]).status == Slot([7, 8], true) by {
      assert [FRAME][..0] == [];
    }
  }
}

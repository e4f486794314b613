/** The shared store of the latest master values, and what one decoded frame does to it. */
module MasterStore {
  import opened Prelude

  /** The field values of one payload, in declaration order; their meaning plays no part here. */
  type Content = seq<int>

  datatype Kind = Measurements | Status | ProtiumValues | OperatingState | Faults

  /** The `oneof payload` of a decoded frame. */
  datatype Payload =
    | MeasurementsPayload(measurements: Content)
    | StatusPayload(status: Content)
    | ProtiumValuesPayload(values: Content)
    | OperatingStatePayload(current: Content, log: seq<Content>)
    | FaultsPayload(faults: Content)
    | UnknownPayload(tag: int)

  datatype MasterFrame = MasterFrame(msClock: nat, cycleClock: nat, payload: Payload)

  datatype Slot = Slot(value: Content, valid: bool)

  datatype MasterData = MasterData(
    measurements: Slot, status: Slot, protiumValues: Slot, operatingState: Slot, faults: Slot)
  {
    function Get(k: Kind): Slot {
      match k
      case Measurements => measurements
      case Status => status
      case ProtiumValues => protiumValues
      case OperatingState => operatingState
      case Faults => faults
    }

    function Put(k: Kind, s: Slot): MasterData {
      match k
      case Measurements => this.(measurements := s)
      case Status => this.(status := s)
      case ProtiumValues => this.(protiumValues := s)
      case OperatingState => this.(operatingState := s)
      case Faults => this.(faults := s)
    }
  }

  /** Which slot a frame is for and what it puts there; an operating-state frame drops its log. */
  function Target(f: MasterFrame): Option<(Kind, Content)> {
    match f.payload
    case MeasurementsPayload(c) => Some((Measurements, c))
    case StatusPayload(c) => Some((Status, c))
    case ProtiumValuesPayload(c) => Some((ProtiumValues, c))
    case OperatingStatePayload(c, _) => Some((OperatingState, c))
    case FaultsPayload(c) => Some((Faults, c))
    case UnknownPayload(_) => None
  }

  function Apply(d: MasterData, f: MasterFrame): MasterData {
    match Target(f)
    case None => d
    case Some((k, c)) => d.Put(k, Slot(c, true))
  }

  /** Kind by kind: a frame goes into the slot of its own kind and sets its flag, and no other slot changes. */
  lemma EachIntoItsSlot(d: MasterData, ms: nat, cycle: nat, c: Content, log: seq<Content>, tag: int)
    ensures Apply(d, MasterFrame(ms, cycle, MeasurementsPayload(c))) == d.(measurements := Slot(c, true))
    ensures Apply(d, MasterFrame(ms, cycle, StatusPayload(c))) == d.(status := Slot(c, true))
    ensures Apply(d, MasterFrame(ms, cycle, ProtiumValuesPayload(c))) == d.(protiumValues := Slot(c, true))
    ensures Apply(d, MasterFrame(ms, cycle, OperatingStatePayload(c, log))) == d.(operatingState := Slot(c, true))
    ensures Apply(d, MasterFrame(ms, cycle, FaultsPayload(c))) == d.(faults := Slot(c, true))
    ensures Apply(d, MasterFrame(ms, cycle, UnknownPayload(tag))) == d
    ensures d.Get(Measurements) == d.measurements && d.Get(Status) == d.status && d.Get(Faults) == d.faults
    ensures d.Get(ProtiumValues) == d.protiumValues && d.Get(OperatingState) == d.operatingState
  {}

  function Fold(d: MasterData, frames: seq<MasterFrame>): MasterData {
    if frames == [] then d else Apply(Fold(d, frames[..|frames| - 1]), frames[|frames| - 1])
  }

  /** The content of the last frame of a kind. */
  function LastOf(k: Kind, frames: seq<MasterFrame>): Option<Content> {
    if frames == [] then None
    else
      match Target(frames[|frames| - 1])
      case Some((k', c)) => if k' == k then Some(c) else LastOf(k, frames[..|frames| - 1])
      case None => LastOf(k, frames[..|frames| - 1])
  }

  /** After any frames a slot holds the last content of its kind, or is untouched if there was none. */
  lemma {:induction false} FoldKeepsLast(d: MasterData, frames: seq<MasterFrame>, k: Kind)
    ensures Fold(d, frames).Get(k) ==
            match LastOf(k, frames)
            case None => d.Get(k)
            case Some(c) => Slot(c, true)
  {
    if frames != [] {
      FoldKeepsLast(d, frames[..|frames| - 1], k);
    }
  }

  lemma {:induction false} FoldAppend(d: MasterData, xs: seq<MasterFrame>, ys: seq<MasterFrame>)
    ensures Fold(d, xs + ys) == Fold(Fold(d, xs), ys)
  {
    if ys == [] {
      assert xs + ys == xs;
    } else {
      assert (xs + ys)[..|xs + ys| - 1] == xs + ys[..|ys| - 1];
      FoldAppend(d, xs, ys[..|ys| - 1]);
    }
  }

  /** A flag once set stays set. */
  lemma FlagsOnlyRise(d: MasterData, xs: seq<MasterFrame>, ys: seq<MasterFrame>, k: Kind)
    requires Fold(d, xs).Get(k).valid
    ensures Fold(d, xs + ys).Get(k).valid
  {
    FoldAppend(d, xs, ys);
    FoldKeepsLast(Fold(d, xs), ys, k);
  }
}

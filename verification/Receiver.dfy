/** The RS485 receive path: packets are fed to the COBS parser and decoded frames folded into the store. */
module Receiver {
  import opened Prelude
  import opened CobsStream
  import opened MasterStore

  /** The protobuf decoder (NanoPB, not part of this model): a frame, or `None` when it reports an error. */
  type Codec = seq<Byte> -> Option<MasterFrame>

  /** The frames that decode, in order. */
  function Decoded(decode: Codec, frames: seq<seq<Byte>>): seq<MasterFrame> {
    if frames == [] then []
    else
      (match decode(frames[0]) case None => [] case Some(f) => [f]) + Decoded(decode, frames[1..])
  }

  lemma {:induction false} DecodedAppend(decode: Codec, xs: seq<seq<Byte>>, ys: seq<seq<Byte>>)
    ensures Decoded(decode, xs + ys) == Decoded(decode, xs) + Decoded(decode, ys)
  {
    if xs == [] {
      assert xs + ys == ys;
    } else {
      assert (xs + ys)[1..] == xs[1..] + ys;
      DecodedAppend(decode, xs[1..], ys);
    }
  }

  /** What the queue hands over in turn: a packet, or `None` for 500 ms without one. */
  type Arrivals = seq<Option<seq<Byte>>>

  function Received(arrivals: Arrivals): seq<Byte> {
    if arrivals == [] then []
    else
      (match arrivals[0] case None => [] case Some(packet) => packet) + Received(arrivals[1..])
  }

  lemma {:induction false} ReceivedAppend(xs: Arrivals, ys: Arrivals)
    ensures Received(xs + ys) == Received(xs) + Received(ys)
  {
    if xs == [] {
      assert xs + ys == ys;
    } else {
      assert (xs + ys)[1..] == xs[1..] + ys;
      ReceivedAppend(xs[1..], ys);
    }
  }

  /** Everything reception changes: the parser, the store and the frame counter. */
  datatype Reception = Reception(parser: Parser, data: MasterData, count: UInt32)

  function ReceiveFrame(decode: Codec, r: Reception, frame: seq<Byte>): Reception {
    match decode(frame)
    case None => r
    case Some(f) => r.(data := Apply(r.data, f), count := (r.count + 1) % TWO_32)
  }

  function ReceiveByte(decode: Codec, r: Reception, b: Byte): Reception {
    var (p, frame) := Feed(r.parser, b);
    var s := r.(parser := p);
    if frame.Some? then ReceiveFrame(decode, s, frame.value) else s
  }

  function Receive(decode: Codec, r: Reception, bytes: seq<Byte>): Reception {
    if bytes == [] then r
    else ReceiveByte(decode, Receive(decode, r, bytes[..|bytes| - 1]), bytes[|bytes| - 1])
  }

  class Rs485Receiver {
    const decode: Codec
    const parser: CobsParser

    // The global `data`, field by field.
    var masterMeasurements: Content
    var masterMeasurementsValid: bool
    var masterStatus: Content
    var masterStatusValid: bool
    var protiumValues: Content
    var protiumValuesValid: bool
    var protiumOperatingState: Content
    var protiumOperatingStateValid: bool
    var masterFaults: Content
    var masterFaultsValid: bool

    var framesReceived: UInt32

    function Data(): MasterData
      reads this
    {
      MasterData(
        Slot(masterMeasurements, masterMeasurementsValid),
        Slot(masterStatus, masterStatusValid),
        Slot(protiumValues, protiumValuesValid),
        Slot(protiumOperatingState, protiumOperatingStateValid),
        Slot(masterFaults, masterFaultsValid))
    }

    constructor (decode: Codec)
      ensures this.decode == decode && fresh(parser) && parser.State() == IDLE
      ensures framesReceived == 0
      ensures forall k: Kind :: !Data().Get(k).valid
    {
      this.decode := decode;
      parser := new CobsParser();
      masterMeasurements, masterMeasurementsValid := [], false;
      masterStatus, masterStatusValid := [], false;
      protiumValues, protiumValuesValid := [], false;
      protiumOperatingState, protiumOperatingStateValid := [], false;
      masterFaults, masterFaultsValid := [], false;
      framesReceived := 0;
    }

    function State(): Reception
      reads this, parser
    {
      Reception(parser.State(), Data(), framesReceived)
    }

    /**
     * A frame that fails to decode changes nothing; one with an unknown tag is only counted. Each payload goes into
     * the fields of its own kind, and of an operating state only the current one is kept.
     */
    method OnFrame(bytes: seq<Byte>)
      modifies this
      ensures State() == ReceiveFrame(decode, old(State()), bytes)
      ensures (masterMeasurements, masterMeasurementsValid) ==
              match decode(bytes)
              case Some(MasterFrame(_, _, MeasurementsPayload(c))) => (c, true)
              case _ => old((masterMeasurements, masterMeasurementsValid))
      ensures (masterStatus, masterStatusValid) ==
              match decode(bytes)
              case Some(MasterFrame(_, _, StatusPayload(c))) => (c, true)
              case _ => old((masterStatus, masterStatusValid))
      ensures (protiumValues, protiumValuesValid) ==
              match decode(bytes)
              case Some(MasterFrame(_, _, ProtiumValuesPayload(c))) => (c, true)
              case _ => old((protiumValues, protiumValuesValid))
      ensures (protiumOperatingState, protiumOperatingStateValid) ==
              match decode(bytes)
              case Some(MasterFrame(_, _, OperatingStatePayload(current, _))) => (current, true)
              case _ => old((protiumOperatingState, protiumOperatingStateValid))
      ensures (masterFaults, masterFaultsValid) ==
              match decode(bytes)
              case Some(MasterFrame(_, _, FaultsPayload(c))) => (c, true)
              case _ => old((masterFaults, masterFaultsValid))
      ensures framesReceived ==
              match decode(bytes)
              case None => old(framesReceived)
              case Some(_) => (old(framesReceived) + 1) % 0x1_0000_0000
    {
      var result := decode(bytes);
      if result.None? {
        return;
      }
      match result.value.payload {
        case MeasurementsPayload(c) =>
          masterMeasurements := c;
          masterMeasurementsValid := true;
        case StatusPayload(c) =>
          masterStatus := c;
          masterStatusValid := true;
        case ProtiumValuesPayload(c) =>
          protiumValues := c;
          protiumValuesValid := true;
        case OperatingStatePayload(current, _) =>
          protiumOperatingState := current;
          protiumOperatingStateValid := true;
        case FaultsPayload(c) =>
          masterFaults := c;
          masterFaultsValid := true;
        case UnknownPayload(_) =>
      }
      framesReceived := (framesReceived + 1) % TWO_32;
    }

    /** The parser thread over any finite stretch of its life; the parser outlives packets and timeouts. */
    method ParserThread(arrivals: Arrivals)
      modifies this, parser
      ensures State() == Receive(decode, old(State()), Received(arrivals))
    {
      ghost var r0 := State();
      for a := 0 to |arrivals|
        invariant State() == Receive(decode, r0, Received(arrivals[..a]))
      {
        ghost var before := Received(arrivals[..a]);
        ReceivedNext(arrivals, a);
        if arrivals[a].None? {
          assert before + [] == before;
          continue;
        }
        var packet := arrivals[a].value;
        assert before + packet[..0] == before;
        for i := 0 to |packet|
          invariant State() == Receive(decode, r0, before + packet[..i])
        {
          ReceiveNext(decode, r0, before, packet, i);
          var frame := parser.FeedByte(packet[i]);
          if frame.Some? {
            OnFrame(frame.value);
          }
        }
        assert packet[..|packet|] == packet;
      }
      assert arrivals[..|arrivals|] == arrivals;
    }
  }

  lemma ReceiveNext(decode: Codec, r: Reception, before: seq<Byte>, packet: seq<Byte>, i: nat)
    requires i < |packet|
    ensures Receive(decode, r, before + packet[..i + 1])
         == ReceiveByte(decode, Receive(decode, r, before + packet[..i]), packet[i])
  {
    var bytes := before + packet[..i + 1];
    assert bytes[..|bytes| - 1] == before + packet[..i] && bytes[|bytes| - 1] == packet[i];
  }

  lemma ReceivedNext(arrivals: Arrivals, a: nat)
    requires a < |arrivals|
    ensures Received(arrivals[..a + 1]) ==
            Received(arrivals[..a]) + match arrivals[a] case None => [] case Some(packet) => packet
  {
    assert arrivals[..a + 1] == arrivals[..a] + [arrivals[a]];
    ReceivedAppend(arrivals[..a], [arrivals[a]]);
    assert Received([arrivals[a]][1..]) == [];
  }

  /** The same, said as a whole: parse all the bytes, decode all the frames, fold them, count them. */
  function ParseAndFold(decode: Codec, r: Reception, bytes: seq<Byte>): Reception {
    var (p, frames) := FeedAll(r.parser, bytes);
    Folded(r, p, Decoded(decode, frames))
  }

  function Folded(r: Reception, p: Parser, decoded: seq<MasterFrame>): Reception {
    Reception(p, Fold(r.data, decoded), (r.count + |decoded|) % TWO_32)
  }

  lemma DecodedOne(decode: Codec, frame: seq<Byte>)
    ensures Decoded(decode, [frame]) == match decode(frame) case None => [] case Some(f) => [f]
  {
    assert Decoded(decode, [frame][1..]) == [];
  }

  lemma FoldedStep(decode: Codec, r: Reception, p: Parser, earlier: seq<MasterFrame>, frame: Option<seq<Byte>>)
    ensures Folded(r, p, earlier + Decoded(decode, Delivered(frame)))
         == if frame.Some? then ReceiveFrame(decode, Folded(r, p, earlier), frame.value) else Folded(r, p, earlier)
  {
    var latest := Decoded(decode, Delivered(frame));
    if frame.Some? {
      DecodedOne(decode, frame.value);
    }
    if frame.Some? && decode(frame.value).Some? {
      assert latest == [decode(frame.value).value];
      assert (earlier + latest)[..|earlier|] == earlier;
    } else {
      assert latest == [];
      assert earlier + latest == earlier;
    }
  }

  lemma ParseAndFoldStep(decode: Codec, r: Reception, bytes: seq<Byte>, b: Byte)
    ensures ParseAndFold(decode, r, bytes + [b]) == ReceiveByte(decode, ParseAndFold(decode, r, bytes), b)
  {
    var (p, frames) := FeedAll(r.parser, bytes);
    var (q, frame) := Feed(p, b);
    FeedAllAppend(r.parser, bytes, [b]);
    OneByte(p, b);
    assert FeedAll(r.parser, bytes + [b]) == (q, frames + Delivered(frame));
    DecodedAppend(decode, frames, Delivered(frame));
    FoldedStep(decode, r, q, Decoded(decode, frames), frame);
  }

  /** Reception byte by byte is parsing the bytes and folding and counting the frames that decode. */
  lemma {:induction false} ReceiveIsParseAndFold(decode: Codec, r: Reception, bytes: seq<Byte>)
    ensures Receive(decode, r, bytes) == ParseAndFold(decode, r, bytes)
  {
    if bytes == [] {
    } else {
      var xs := bytes[..|bytes| - 1];
      assert bytes == xs + [bytes[|bytes| - 1]];
      ReceiveIsParseAndFold(decode, r, xs);
      ParseAndFoldStep(decode, r, xs, bytes[|bytes| - 1]);
    }
  }

  // ---------------------------------------------------------------- end to end

  /** The frames `msgs` serialised; all the codec has to do is invert itself on them. */
  ghost predicate Serialised(decode: Codec, msgs: seq<MasterFrame>, payloads: seq<seq<Byte>>) {
    |payloads| == |msgs| && forall i | 0 <= i < |msgs| :: decode(payloads[i]) == Some(msgs[i])
  }

  lemma {:induction false} AllDecode(decode: Codec, msgs: seq<MasterFrame>, payloads: seq<seq<Byte>>)
    requires Serialised(decode, msgs, payloads)
    ensures Decoded(decode, payloads) == msgs
  {
    if msgs != [] {
      AllDecode(decode, msgs[1..], payloads[1..]);
    }
  }

  /** Every slot holds the last message of its kind, and is as before where there was none. */
  ghost predicate HoldsLastOfEachKind(before: MasterData, msgs: seq<MasterFrame>, after: MasterData) {
    forall k: Kind :: after.Get(k) ==
      match LastOf(k, msgs) case None => before.Get(k) case Some(c) => Slot(c, true)
  }

  lemma EverySlotKeepsLast(d: MasterData, msgs: seq<MasterFrame>)
    ensures HoldsLastOfEachKind(d, msgs, Fold(d, msgs))
  {
    forall k: Kind {
      FoldKeepsLast(d, msgs, k);
    }
  }

  /**
   * Whatever was received before, and however the wire was cut into packets: after one delimiter every
   * message sent is in the store, each slot holding the last one of its kind, and every one is counted.
   */
  lemma EndToEnd(
    decode: Codec, msgs: seq<MasterFrame>, payloads: seq<seq<Byte>>,
    r: Reception, garbage: seq<Byte>, arrivals: Arrivals)
    requires Serialised(decode, msgs, payloads)
    requires Received(arrivals) == garbage + [0] + Wire(payloads)
    ensures var before := Receive(decode, r, garbage + [0]);
            var after := Receive(decode, r, Received(arrivals));
            && after == Folded(before, IDLE, msgs)
            && HoldsLastOfEachKind(before.data, msgs, after.data)
  {
    ReceiveIsParseAndFold(decode, r, garbage + [0]);
    ReceiveIsParseAndFold(decode, r, Received(arrivals));
    AfterGarbage(decode, msgs, payloads, r, garbage);
    EverySlotKeepsLast(Receive(decode, r, garbage + [0]).data, msgs);
  }

  lemma AfterGarbage(
    decode: Codec, msgs: seq<MasterFrame>, payloads: seq<seq<Byte>>, r: Reception, garbage: seq<Byte>)
    requires Serialised(decode, msgs, payloads)
    ensures ParseAndFold(decode, r, garbage + [0] + Wire(payloads))
         == Folded(ParseAndFold(decode, r, garbage + [0]), IDLE, msgs)
  {
    var spoilt := FeedAll(r.parser, garbage + [0]).1;
    Resynchronises(r.parser, garbage, payloads);
    AllDecode(decode, msgs, payloads);
    DecodedAppend(decode, spoilt, payloads);
    FoldedTwice(r, IDLE, Decoded(decode, spoilt), msgs);
    FoldedFrom(r, FeedAll(r.parser, garbage + [0]).0, Decoded(decode, spoilt), msgs);
    hide FeedAll, Wire, Decoded, Folded, Serialised;
  }

  /** What the parser was before does not show in the result. */
  lemma FoldedFrom(r: Reception, p: Parser, xs: seq<MasterFrame>, ys: seq<MasterFrame>)
    ensures Folded(Folded(r, p, xs), IDLE, ys) == Folded(Folded(r, IDLE, xs), IDLE, ys)
  {}

  lemma FoldedTwice(r: Reception, p: Parser, xs: seq<MasterFrame>, ys: seq<MasterFrame>)
    ensures Folded(r, p, xs + ys) == Folded(Folded(r, p, xs), p, ys)
  {
    FoldAppend(r.data, xs, ys);
    WrapsOnce(r.count, |xs|, |ys|);
  }

  lemma WrapsOnce(n: nat, a: nat, b: nat)
    ensures ((n + a) % TWO_32 + b) % TWO_32 == (n + a + b) % TWO_32
  {}

  /** From power-up on a clean line the store is exactly the fold of the messages sent. */
  lemma CleanLine(
    decode: Codec, msgs: seq<MasterFrame>, payloads: seq<seq<Byte>>, d: MasterData, arrivals: Arrivals)
    requires Serialised(decode, msgs, payloads)
    requires Received(arrivals) == Wire(payloads)
    ensures Receive(decode, Reception(IDLE, d, 0), Received(arrivals))
         == Reception(IDLE, Fold(d, msgs), |msgs| % TWO_32)
  {
    ReceiveIsParseAndFold(decode, Reception(IDLE, d, 0), Received(arrivals));
    WireDelivers(payloads);
    AllDecode(decode, msgs, payloads);
  }
}

/**
 * Receiving COBS frames one byte at a time. `peripherals/cobs.c` is not part of this model: the
 * parser below is the byte-fed form of `Cobs.Decode`, with a zero byte as the frame delimiter and an
 * unbounded frame buffer.
 */
module CobsStream {
  import opened Prelude
  import opened Cobs

  /** Decoded bytes so far, the open block's code (0 before the first), its data bytes still to come. */
  datatype Parser = Parser(out: seq<Byte>, code: nat, left: nat)

  const IDLE := Parser([], 0, 0)

  function Feed(p: Parser, b: Byte): (Parser, Option<seq<Byte>>) {
    if b == 0 then (IDLE, if p.code != 0 && p.left == 0 then Some(p.out) else None)
    else if p.left > 0 then (Parser(p.out + [b], p.code, p.left - 1), None)
    else (Parser(Closed(p), b, b - 1), None)
  }

  /** The output once the open block, if any, is known not to be the last. */
  function Closed(p: Parser): seq<Byte> {
    if p.code == 0 then p.out else p.out + Separator(p.code)
  }

  /** Feeding a whole stream: the parser it leaves and the frames it delivers, oldest first. */
  function FeedAll(p: Parser, bytes: seq<Byte>): (Parser, seq<seq<Byte>>)
    decreases |bytes|
  {
    if bytes == [] then (p, [])
    else
      var (q, frame) := Feed(p, bytes[0]);
      var (last, frames) := FeedAll(q, bytes[1..]);
      (last, Delivered(frame) + frames)
  }

  function Delivered(frame: Option<seq<Byte>>): seq<seq<Byte>> {
    if frame.Some? then [frame.value] else []
  }

  /** Index of the first delimiter, or the length if there is none. */
  function FirstZero(bytes: seq<Byte>): (z: nat)
    ensures z <= |bytes| && 0 !in bytes[..z]
    ensures z < |bytes| ==> bytes[z] == 0
  {
    if bytes == [] || bytes[0] == 0 then 0
    else
      var z := FirstZero(bytes[1..]);
      assert bytes[..z + 1] == [bytes[0]] + bytes[1..][..z];
      z + 1
  }

  /** The reference reception: cut the stream at its delimiters and decode each piece as a whole. */
  function BatchFrames(bytes: seq<Byte>): seq<seq<Byte>>
    decreases |bytes|
  {
    var z := FirstZero(bytes);
    if z == |bytes| then []
    else Delivered(Decode(bytes[..z])) + BatchFrames(bytes[z + 1..])
  }

  /** What one message looks like on the wire: its encoding and two delimiters. */
  function Wire(payloads: seq<seq<Byte>>): seq<Byte> {
    if payloads == [] then [] else Encode(payloads[0]) + [0, 0] + Wire(payloads[1..])
  }

  function Zeros(bytes: seq<Byte>): nat {
    if bytes == [] then 0 else (if bytes[0] == 0 then 1 else 0) + Zeros(bytes[1..])
  }

  lemma {:induction false} ZerosAppend(xs: seq<Byte>, ys: seq<Byte>)
    ensures Zeros(xs + ys) == Zeros(xs) + Zeros(ys)
  {
    if xs == [] {
      assert xs + ys == ys;
    } else {
      assert (xs + ys)[1..] == xs[1..] + ys;
      ZerosAppend(xs[1..], ys);
    }
  }

  lemma {:induction false} NoZeros(bytes: seq<Byte>)
    requires 0 !in bytes
    ensures Zeros(bytes) == 0
  {
    if bytes != [] {
      NoZeros(bytes[1..]);
    }
  }

  /** All zeros on the wire are delimiters, two for each message. */
  lemma {:induction false} TwoDelimitersEach(payloads: seq<seq<Byte>>)
    ensures Zeros(Wire(payloads)) == 2 * |payloads|
  {
    if payloads != [] {
      var e := Encode(payloads[0]);
      EncodeZeroFree(payloads[0]);
      NoZeros(e);
      ZerosAppend(e + [0, 0], Wire(payloads[1..]));
      ZerosAppend(e, [0, 0]);
      assert Zeros([0, 0][1..]) == 1 + Zeros([0, 0][1..][1..]);
      TwoDelimitersEach(payloads[1..]);
    }
  }

  // ---------------------------------------------------------------- the parser object

  class CobsParser {
    var out: seq<Byte>
    var code: nat
    var left: nat

    function State(): Parser
      reads this
    {
      Parser(out, code, left)
    }

    constructor ()
      ensures State() == IDLE
    {
      out, code, left := [], 0, 0;
    }

    method FeedByte(b: Byte) returns (frame: Option<seq<Byte>>)
      modifies this
      ensures (State(), frame) == Feed(old(State()), b)
    {
      frame := None;
      if b == 0 {
        if code != 0 && left == 0 {
          frame := Some(out);
        }
        out, code, left := [], 0, 0;
      } else if left > 0 {
        out := out + [b];
        left := left - 1;
      } else {
        if code != 0 {
          out := out + Separator(code);
        }
        code, left := b, b - 1;
      }
    }
  }

  // ---------------------------------------------------------------- cutting the stream anywhere

  lemma {:induction false} FeedAllAppend(p: Parser, xs: seq<Byte>, ys: seq<Byte>)
    ensures var (q, fs) := FeedAll(p, xs);
            var (r, gs) := FeedAll(q, ys);
            FeedAll(p, xs + ys) == (r, fs + gs)
    decreases |xs|
  {
    if xs == [] {
      assert xs + ys == ys;
      assert [] + FeedAll(p, ys).1 == FeedAll(p, ys).1;
    } else {
      assert (xs + ys)[1..] == xs[1..] + ys;
      var (q, frame) := Feed(p, xs[0]);
      FeedAllAppend(q, xs[1..], ys);
      var (q', fs) := FeedAll(q, xs[1..]);
      var (r, gs) := FeedAll(q', ys);
      assert Delivered(frame) + (fs + gs) == Delivered(frame) + fs + gs;
    }
  }

  /** Wherever the packets were cut, feeding them in turn is feeding the bytes they carry. */
  function FeedPackets(p: Parser, packets: seq<seq<Byte>>): (Parser, seq<seq<Byte>>)
    decreases |packets|
  {
    if packets == [] then (p, [])
    else
      var (q, fs) := FeedAll(p, packets[0]);
      var (r, gs) := FeedPackets(q, packets[1..]);
      (r, fs + gs)
  }

  lemma {:induction false} PacketsDoNotMatter(p: Parser, packets: seq<seq<Byte>>)
    ensures FeedPackets(p, packets) == FeedAll(p, Flatten(packets))
    decreases |packets|
  {
    if packets != [] {
      var (q, _) := FeedAll(p, packets[0]);
      PacketsDoNotMatter(q, packets[1..]);
      FeedAllAppend(p, packets[0], Flatten(packets[1..]));
    }
  }

  // ---------------------------------------------------------------- byte-fed refines batch

  /** Inside a block, the bytes go to the output. */
  lemma {:induction false} FeedBlock(p: Parser, x: seq<Byte>)
    requires 0 !in x && |x| <= p.left
    ensures FeedAll(p, x) == (Parser(p.out + x, p.code, p.left - |x|), [])
    decreases |x|
  {
    if x == [] {
      assert p.out + x == p.out;
    } else {
      assert x[0] in x && 0 !in x[1..];
      var q := Feed(p, x[0]).0;
      FeedBlock(q, x[1..]);
      assert x[0] != 0 && q == Parser(p.out + [x[0]], p.code, p.left - 1);
      assert FeedAll(q, x[1..]) == (Parser(q.out + x[1..], p.code, p.left - |x|), []);
      assert q.out + x[1..] == p.out + x;
      assert FeedAll(p, x).0 == FeedAll(q, x[1..]).0;
      assert FeedAll(p, x).1 == [];
    }
  }

  /** From a block boundary, a zero-free chunk and its delimiter deliver what decoding the chunk gives. */
  lemma {:induction false} ChunkIsDecode(p: Parser, e: seq<Byte>)
    requires p.left == 0 && 0 !in e && e != []
    ensures FeedAll(p, e + [0]) == (IDLE, Delivered(
              match Decode(e) case None => None case Some(d) => Some(Closed(p) + d)))
    decreases |e|
  {
    var n := e[0];
    assert n in e;
    if |e| <= n {
      var x := e[1..];
      assert e + [0] == [n] + x + [0];
      BlockThen(p, n, x, [0]);
      OneByte(Parser(Closed(p) + x, n, n - 1 - |x|), 0);
    } else {
      var x, rest := e[1..n], e[n..];
      assert e + [0] == [n] + x + (rest + [0]);
      BlockThen(p, n, x, rest + [0]);
      var q := Parser(Closed(p) + x, n, 0);
      ChunkIsDecode(q, rest);
      if Decode(rest).Some? {
        var d := Decode(rest).value;
        assert Closed(q) + d == Closed(p) + (x + Separator(n) + d);
      }
    }
  }

  /** A code byte and (part of) its block only move the parser on. */
  lemma BlockThen(p: Parser, n: Byte, x: seq<Byte>, tail: seq<Byte>)
    requires p.left == 0 && n != 0 && 0 !in x && |x| < n
    ensures FeedAll(p, [n] + x + tail) == FeedAll(Parser(Closed(p) + x, n, n - 1 - |x|), tail)
  {
    var q, rest := Feed(p, n).0, x + tail;
    assert [n] + x + tail == [n] + rest;
    OneThenMore(p, n, rest);
    FeedBlock(q, x);
    FeedAllAppend(q, x, tail);
    var fs := FeedAll(Parser(Closed(p) + x, n, n - 1 - |x|), tail).1;
    assert [] + fs == fs;
  }

  lemma OneByte(p: Parser, b: Byte)
    ensures FeedAll(p, [b]) == (Feed(p, b).0, Delivered(Feed(p, b).1))
  {
    var q := Feed(p, b).0;
    assert FeedAll(q, [b][1..]) == (q, []);
    assert Delivered(Feed(p, b).1) + [] == Delivered(Feed(p, b).1);
  }

  /** A non-zero byte delivers nothing itself. */
  lemma OneThenMore(p: Parser, n: Byte, rest: seq<Byte>)
    requires n != 0
    ensures FeedAll(p, [n] + rest) == FeedAll(Feed(p, n).0, rest)
  {
    var bytes := [n] + rest;
    assert bytes[1..] == rest;
    var fs := FeedAll(Feed(p, n).0, rest).1;
    assert [] + fs == fs;
  }

  /** Between delimiters nothing is delivered. */
  lemma {:induction false} NoDelimiterNoFrame(p: Parser, bytes: seq<Byte>)
    requires 0 !in bytes
    ensures FeedAll(p, bytes).1 == []
    decreases |bytes|
  {
    if bytes != [] {
      assert bytes[0] in bytes && 0 !in bytes[1..];
      NoDelimiterNoFrame(Feed(p, bytes[0]).0, bytes[1..]);
    }
  }

  /** On every stream whatsoever the byte-fed parser delivers exactly the batch frames. */
  lemma {:induction false} ByteFedIsBatch(bytes: seq<Byte>)
    ensures FeedAll(IDLE, bytes).1 == BatchFrames(bytes)
    decreases |bytes|
  {
    var z := FirstZero(bytes);
    var chunk := bytes[..z];
    if z == |bytes| {
      assert chunk == bytes;
      NoDelimiterNoFrame(IDLE, bytes);
    } else {
      var rest := bytes[z + 1..];
      assert bytes == chunk + [0] + rest;
      FeedAllAppend(IDLE, chunk + [0], rest);
      ChunkFromIdle(chunk);
      ByteFedIsBatch(rest);
    }
  }

  lemma ChunkFromIdle(chunk: seq<Byte>)
    requires 0 !in chunk
    ensures FeedAll(IDLE, chunk + [0]) == (IDLE, Delivered(Decode(chunk)))
  {
    if chunk == [] {
      assert chunk + [0] == [0];
      OneByte(IDLE, 0);
    } else {
      ChunkIsDecode(IDLE, chunk);
      if Decode(chunk).Some? {
        assert [] + Decode(chunk).value == Decode(chunk).value;
      }
    }
  }

  // ---------------------------------------------------------------- whole streams of messages

  /** The sent payloads come out, all of them, in order, and the parser is idle again. */
  lemma {:induction false} WireDelivers(payloads: seq<seq<Byte>>)
    ensures FeedAll(IDLE, Wire(payloads)) == (IDLE, payloads)
  {
    if payloads != [] {
      var e := Encode(payloads[0]);
      EncodeZeroFree(payloads[0]);
      DecodeEncode(payloads[0]);
      ChunkFromIdle(e);
      ExtraDelimiter(IDLE, e);
      FeedAllAppend(IDLE, e + [0, 0], Wire(payloads[1..]));
      WireDelivers(payloads[1..]);
      assert payloads == [payloads[0]] + payloads[1..];
    }
  }

  /** Two lists of messages never look the same on the wire. */
  lemma WireInjective(a: seq<seq<Byte>>, b: seq<seq<Byte>>)
    requires Wire(a) == Wire(b)
    ensures a == b
  {
    WireDelivers(a);
    WireDelivers(b);
  }

  /** A delimiter puts the parser back to idle, whatever came before. */
  lemma DelimiterResets(p: Parser, garbage: seq<Byte>)
    ensures FeedAll(p, garbage + [0]).0 == IDLE
  {
    FeedAllAppend(p, garbage, [0]);
    var q := FeedAll(p, garbage).0;
    assert FeedAll(q, [0]).0 == Feed(q, 0).0;
  }

  /** After any garbage, from any parser state, one delimiter is enough for every later message. */
  lemma Resynchronises(p: Parser, garbage: seq<Byte>, payloads: seq<seq<Byte>>)
    ensures FeedAll(p, garbage + [0] + Wire(payloads))
         == (IDLE, FeedAll(p, garbage + [0]).1 + payloads)
  {
    DelimiterResets(p, garbage);
    FeedAllAppend(p, garbage + [0], Wire(payloads));
    WireDelivers(payloads);
  }

  /** A receiver that starts in the middle of anything can spoil at most the first message it sees. */
  lemma LossSpoilsAtMostOne(p: Parser, payloads: seq<seq<Byte>>)
    requires payloads != []
    ensures exists first: seq<seq<Byte>> ::
              |first| <= 1 && FeedAll(p, Wire(payloads)) == (IDLE, first + payloads[1..])
  {
    var e := Encode(payloads[0]);
    EncodeZeroFree(payloads[0]);
    var x, later := e + [0], payloads[1..];
    assert Wire(payloads) == x + [0] + Wire(later);
    Resynchronises(p, x, later);
    assert x + [0] == e + [0, 0];
    ExtraDelimiter(p, e);
    FirstChunkDeliversAtMostOne(p, e);
  }

  lemma FirstChunkDeliversAtMostOne(p: Parser, e: seq<Byte>)
    requires 0 !in e
    ensures |FeedAll(p, e + [0]).1| <= 1
  {
    NoDelimiterNoFrame(p, e);
    FeedAllAppend(p, e, [0]);
    OneByte(FeedAll(p, e).0, 0);
  }

  /** A delimiter right after a delimiter changes nothing. */
  lemma ExtraDelimiter(p: Parser, before: seq<Byte>)
    ensures FeedAll(p, before + [0, 0]) == FeedAll(p, before + [0])
  {
    assert before + [0, 0] == before + [0] + [0];
    DelimiterResets(p, before);
    FeedAllAppend(p, before + [0], [0]);
    OneByte(IDLE, 0);
    var fs := FeedAll(p, before + [0]).1;
    assert fs + [] == fs;
  }

  /** The second delimiter is a no-op wherever it stands. */
  lemma DoubledDelimiter(p: Parser, before: seq<Byte>, after: seq<Byte>)
    ensures FeedAll(p, before + [0, 0] + after) == FeedAll(p, before + [0] + after)
  {
    ExtraDelimiter(p, before);
    FeedAllAppend(p, before + [0, 0], after);
    FeedAllAppend(p, before + [0], after);
  }
}

/**
 * Consistent Overhead Byte Stuffing as the RS485 test sender encodes it, and the decoder of
 * Cheshire and Baker (IEEE/ACM Transactions on Networking 7(2), 1999) that undoes it.
 */
module Cobs {
  import opened Prelude

  /** A block carries at most this many data bytes; its code is then 0xFF. */
  const BLOCK_LIMIT := 254

  /** Length of the longest prefix of `d` without a zero byte, cut off at `cap`. */
  function ZeroFreeRun(d: seq<Byte>, cap: nat): (r: nat)
    ensures r <= |d| && r <= cap
    ensures forall j | 0 <= j < r :: d[j] != 0
    ensures r < |d| && r < cap ==> d[r] == 0
  {
    if d == [] || cap == 0 || d[0] == 0 then 0 else 1 + ZeroFreeRun(d[1..], cap - 1)
  }

  /** The encoding, one block at a time. */
  function Encode(d: seq<Byte>): seq<Byte>
    decreases |d|
  {
    var r := ZeroFreeRun(d, BLOCK_LIMIT);
    if r == BLOCK_LIMIT then [255] + d[..r] + Encode(d[r..])
    else if r == |d| then [r + 1] + d
    else [r + 1] + d[..r] + Encode(d[r + 1..])
  }

  /** The decoder on a whole frame; `None` for a frame no encoder output can look like. */
  function Decode(e: seq<Byte>): Option<seq<Byte>>
    decreases |e|
  {
    if e == [] || e[0] == 0 || |e| < e[0] || 0 in e[1..e[0]] then None
    else if e[0] == |e| then Some(e[1..])
    else
      match Decode(e[e[0]..])
      case None => None
      case Some(rest) => Some(e[1..e[0]] + Separator(e[0]) + rest)
  }

  /** What a block with this code puts between its data and the next block's. */
  function Separator(code: nat): seq<Byte> {
    if code == 255 then [] else [0]
  }

  /** Length of the run of non-zero bytes that `d` ends in. */
  function TrailingRun(d: seq<Byte>): nat {
    if d == [] || d[|d| - 1] == 0 then 0 else 1 + TrailingRun(d[..|d| - 1])
  }

  /** How many positions of `d` complete a run of 254, 508, 762, ... non-zero bytes. */
  function CompletedRuns(d: seq<Byte>): nat {
    if d == [] then 0
    else
      CompletedRuns(d[..|d| - 1])
      + if TrailingRun(d) > 0 && TrailingRun(d) % BLOCK_LIMIT == 0 then 1 else 0
  }

  // ---------------------------------------------------------------- the encoder

  /** `encoded` is the encoding of `data` up to the block that starts at `b`. */
  ghost predicate EncodedUpTo(data: seq<Byte>, b: nat, encoded: seq<Byte>)
    requires b <= |data|
  {
    encoded + Encode(data[b..]) == Encode(data)
  }

  /** No zero in `data[b..i]`. */
  ghost predicate ZeroFree(data: seq<Byte>, b: nat, i: nat)
    requires b <= i <= |data|
  {
    forall j | b <= j < i :: data[j] != 0
  }

  /** The sender's loop: `encoded` grows block by block while `blockStart` and `code` track the open block. */
  method CobsEncode(data: seq<Byte>) returns (encoded: seq<Byte>)
    ensures encoded == Encode(data)
  {
    hide Encode, EncodedUpTo, ZeroFree;
    encoded := [];
    FirstStep(data);
    var blockStart := 0;
    var code: Byte := 1;
    for i := 0 to |data|
      invariant 0 <= blockStart <= i
      invariant code == i - blockStart + 1 <= BLOCK_LIMIT
      invariant ZeroFree(data, blockStart, i)
      invariant EncodedUpTo(data, blockStart, encoded)
    {
      if data[i] == 0 {
        ZeroStep(data, blockStart, i, encoded);
        NoBytesYet(data, i + 1);
        encoded := encoded + [code];
        encoded := encoded + data[blockStart..i];
        blockStart := i + 1;
        code := 1;
      } else {
        code := code + 1;
        NoZeroStep(data, blockStart, i);
        if code == 255 {
          FullStep(data, blockStart, i + 1, encoded);
          NoBytesYet(data, i + 1);
          encoded := encoded + [code];
          encoded := encoded + data[blockStart..i + 1];
          blockStart := i + 1;
          code := 1;
        }
      }
    }
    LastStep(data, blockStart, encoded);
    encoded := encoded + [code];
    encoded := encoded + data[blockStart..];
  }

  lemma NoBytesYet(data: seq<Byte>, i: nat)
    requires i <= |data|
    ensures ZeroFree(data, i, i)
  {}

  lemma FirstStep(data: seq<Byte>)
    ensures EncodedUpTo(data, 0, []) && ZeroFree(data, 0, 0)
  {
    hide Encode;
    assert data[0..] == data && [] + Encode(data) == Encode(data);
  }

  lemma NoZeroStep(data: seq<Byte>, b: nat, i: nat)
    requires b <= i < |data| && ZeroFree(data, b, i) && data[i] != 0
    ensures ZeroFree(data, b, i + 1)
  {}

  lemma NoZeroIn(data: seq<Byte>, b: nat, i: nat)
    requires b <= i <= |data| && ZeroFree(data, b, i)
    ensures 0 !in data[b..i]
  {
    forall j | 0 <= j < i - b ensures data[b..i][j] != 0 {
      assert data[b..i][j] == data[b + j];
    }
  }

  lemma ZeroStep(data: seq<Byte>, b: nat, i: nat, encoded: seq<Byte>)
    requires b <= i < |data| && i - b < BLOCK_LIMIT && data[i] == 0
    requires ZeroFree(data, b, i) && EncodedUpTo(data, b, encoded)
    ensures EncodedUpTo(data, i + 1, encoded + [i - b + 1] + data[b..i])
  {
    hide Encode, ZeroFree;
    var x, y := data[b..i], data[i + 1..];
    assert data[b..] == x + [0] + y;
    NoZeroIn(data, b, i);
    EncodeZeroBlock(x, y);
    Append4(encoded, [i - b + 1], x, Encode(y));
  }

  lemma FullStep(data: seq<Byte>, b: nat, i: nat, encoded: seq<Byte>)
    requires b <= i <= |data| && i - b == BLOCK_LIMIT
    requires ZeroFree(data, b, i) && EncodedUpTo(data, b, encoded)
    ensures EncodedUpTo(data, i, encoded + [255] + data[b..i])
  {
    hide Encode, ZeroFree;
    var x, y := data[b..i], data[i..];
    assert data[b..] == x + y;
    NoZeroIn(data, b, i);
    EncodeFullBlock(x, y);
    Append4(encoded, [255], x, Encode(y));
  }

  lemma LastStep(data: seq<Byte>, b: nat, encoded: seq<Byte>)
    requires b <= |data| && |data| - b < BLOCK_LIMIT
    requires ZeroFree(data, b, |data|) && EncodedUpTo(data, b, encoded)
    ensures encoded + [|data| - b + 1] + data[b..] == Encode(data)
  {
    var x := data[b..];
    assert encoded + Encode(x) == Encode(data);
    hide Encode, ZeroFree, EncodedUpTo;
    NoZeroIn(data, b, |data|);
    assert data[b..|data|] == x;
    EncodeLastBlock(x);
    Append3(encoded, [|data| - b + 1], x);
  }

  lemma Append3(w: seq<Byte>, x: seq<Byte>, y: seq<Byte>)
    ensures w + x + y == w + (x + y)
  {}

  lemma Append4(w: seq<Byte>, x: seq<Byte>, y: seq<Byte>, z: seq<Byte>)
    ensures w + x + y + z == w + (x + y + z)
  {}

  lemma RunIs(d: seq<Byte>, k: nat)
    requires k <= |d| && k <= BLOCK_LIMIT
    requires forall j | 0 <= j < k :: d[j] != 0
    requires k == BLOCK_LIMIT || k == |d| || d[k] == 0
    ensures ZeroFreeRun(d, BLOCK_LIMIT) == k
  {
    var r := ZeroFreeRun(d, BLOCK_LIMIT);
    assert r < k ==> d[r] != 0;
  }

  lemma EncodeFullBlock(x: seq<Byte>, y: seq<Byte>)
    requires |x| == BLOCK_LIMIT && 0 !in x
    ensures Encode(x + y) == [255] + x + Encode(y)
  {
    forall j | 0 <= j < |x| ensures (x + y)[j] != 0 {
      assert (x + y)[j] == x[j] && x[j] in x;
    }
    RunIs(x + y, BLOCK_LIMIT);
    assert (x + y)[..BLOCK_LIMIT] == x && (x + y)[BLOCK_LIMIT..] == y;
  }

  lemma EncodeZeroBlock(x: seq<Byte>, y: seq<Byte>)
    requires |x| < BLOCK_LIMIT && 0 !in x
    ensures Encode(x + [0] + y) == [|x| + 1] + x + Encode(y)
  {
    var d := x + [0] + y;
    forall j | 0 <= j < |x| ensures d[j] != 0 {
      assert d[j] == x[j] && x[j] in x;
    }
    RunIs(d, |x|);
    assert d[..|x|] == x && d[|x| + 1..] == y;
  }

  lemma EncodeLastBlock(x: seq<Byte>)
    requires |x| < BLOCK_LIMIT && 0 !in x
    ensures Encode(x) == [|x| + 1] + x
  {
    RunIs(x, |x|);
  }

  /** Every string is a last block, a full block and more, or a block, a zero and more. */
  lemma FirstBlock(d: seq<Byte>) returns (x: seq<Byte>, y: seq<Byte>)
    ensures 0 !in x && |x| <= BLOCK_LIMIT
    ensures if |x| == BLOCK_LIMIT then d == x + y && |y| < |d|
            else (d == x && y == []) || d == x + [0] + y
  {
    var r := ZeroFreeRun(d, BLOCK_LIMIT);
    x, y := d[..r], if r == BLOCK_LIMIT || r == |d| then d[r..] else d[r + 1..];
  }

  /** The encoding by its blocks: up to 253 bytes and a zero, 254 bytes with no zero, or up to 253 bytes at the end. */
  lemma EncodeBlocks(x: seq<Byte>, y: seq<Byte>)
    requires 0 !in x
    ensures |x| <= 253 ==> Encode(x) == [|x| + 1] + x && Encode(x + [0] + y) == [|x| + 1] + x + Encode(y)
    ensures |x| == 254 ==> Encode(x + y) == [255] + x + Encode(y)
  {
    hide Encode;
    if |x| == 254 {
      EncodeFullBlock(x, y);
    } else if |x| <= 253 {
      EncodeLastBlock(x);
      EncodeZeroBlock(x, y);
    }
  }

  // ---------------------------------------------------------------- round trip, zero-freedom, length

  lemma {:induction false} DecodeEncode(d: seq<Byte>)
    ensures Decode(Encode(d)) == Some(d)
    decreases |d|
  {
    var x, y := FirstBlock(d);
    if |x| == BLOCK_LIMIT {
      EncodeFullBlock(x, y);
      DecodeEncode(y);
      DecodeBlock(x, Encode(y));
      assert x + [] + y == d;
    } else if d == x {
      EncodeLastBlock(x);
      assert ([|x| + 1] + x)[1..] == x;
    } else {
      EncodeZeroBlock(x, y);
      DecodeEncode(y);
      DecodeBlock(x, Encode(y));
    }
  }

  /** Decoding a block that others follow. */
  lemma DecodeBlock(x: seq<Byte>, rest: seq<Byte>)
    requires |x| <= BLOCK_LIMIT && 0 !in x && rest != []
    ensures Decode([|x| + 1] + x + rest) ==
            match Decode(rest)
            case None => None
            case Some(tail) => Some(x + Separator(|x| + 1) + tail)
  {
    var e := [|x| + 1] + x + rest;
    assert e[1..e[0]] == x && e[e[0]..] == rest;
  }

  lemma {:induction false} EncodeZeroFree(d: seq<Byte>)
    ensures 0 !in Encode(d) && Encode(d) != []
    decreases |d|
  {
    var x, y := FirstBlock(d);
    if |x| == BLOCK_LIMIT {
      EncodeFullBlock(x, y);
      EncodeZeroFree(y);
    } else if d == x {
      EncodeLastBlock(x);
    } else {
      EncodeZeroBlock(x, y);
      EncodeZeroFree(y);
    }
  }

  /** Two different byte strings never share an encoding. */
  lemma EncodeInjective(a: seq<Byte>, b: seq<Byte>)
    requires Encode(a) == Encode(b)
    ensures a == b
  {
    DecodeEncode(a);
    DecodeEncode(b);
  }

  /** The overhead is one byte plus one for every completed 254-byte run, wherever the run ends. */
  lemma {:induction false} EncodeLength(d: seq<Byte>)
    ensures |Encode(d)| == |d| + 1 + CompletedRuns(d)
    decreases |d|
  {
    var x, y := FirstBlock(d);
    if |x| == BLOCK_LIMIT {
      EncodeFullBlock(x, y);
      EncodeLength(y);
      FullBlockRuns(x, y);
    } else if d == x {
      EncodeLastBlock(x);
      RunCounts(x);
    } else {
      EncodeZeroBlock(x, y);
      EncodeLength(y);
      ZeroBlockRuns(x, y);
    }
  }

  lemma FullBlockRuns(x: seq<Byte>, y: seq<Byte>)
    requires |x| == BLOCK_LIMIT && 0 !in x
    ensures CompletedRuns(x + y) == 1 + CompletedRuns(y)
  {
    RunCounts(x);
    RunsSplit(x, y);
  }

  lemma ZeroBlockRuns(x: seq<Byte>, y: seq<Byte>)
    requires |x| < BLOCK_LIMIT && 0 !in x
    ensures CompletedRuns(x + [0] + y) == CompletedRuns(y)
  {
    RunCounts(x);
    assert (x + [0])[..|x|] == x;
    RunsSplit(x + [0], y);
  }

  /** A zero-free string is one run, and completes one block per 254 bytes. */
  lemma {:induction false} RunCounts(x: seq<Byte>)
    requires 0 !in x
    ensures TrailingRun(x) == |x| && CompletedRuns(x) == |x| / BLOCK_LIMIT
  {
    if x != [] {
      RunCounts(x[..|x| - 1]);
    }
  }

  /** Counting restarts after `x` when the run `x` ends in is whole blocks long. */
  lemma {:induction false} RunsSplit(x: seq<Byte>, y: seq<Byte>)
    requires TrailingRun(x) % BLOCK_LIMIT == 0
    ensures CompletedRuns(x + y) == CompletedRuns(x) + CompletedRuns(y)
    ensures TrailingRun(x + y) == TrailingRun(y) + if TrailingRun(y) == |y| then TrailingRun(x) else 0
  {
    if y == [] {
      assert x + y == x;
    } else {
      var z := y[..|y| - 1];
      assert (x + y)[..|x + y| - 1] == x + z;
      RunsSplit(x, z);
      RunAtMost(z);
      WholeBlocks(TrailingRun(x), TrailingRun(y));
    }
  }

  lemma WholeBlocks(a: nat, b: nat)
    requires a % BLOCK_LIMIT == 0
    ensures (a + b) % BLOCK_LIMIT == b % BLOCK_LIMIT
  {}

  lemma {:induction false} RunAtMost(d: seq<Byte>)
    ensures TrailingRun(d) <= |d|
  {
    if d != [] {
      RunAtMost(d[..|d| - 1]);
    }
  }

  lemma {:induction false} RunsBound(d: seq<Byte>)
    ensures BLOCK_LIMIT * CompletedRuns(d) + TrailingRun(d) % BLOCK_LIMIT <= |d|
  {
    if d != [] {
      RunsBound(d[..|d| - 1]);
    }
  }

  /** The worst case, and that zero-free data meets it. */
  lemma EncodeLengthBound(d: seq<Byte>)
    ensures |Encode(d)| <= |d| + 1 + |d| / 254
    ensures 0 !in d ==> |Encode(d)| == |d| + 1 + |d| / 254
  {
    EncodeLength(d);
    RunsBound(d);
    if 0 !in d {
      RunCounts(d);
    }
  }
}

/** CRC-32 as in section 8 of RFC 1952, in the chained form in which the update tool accumulates it. */
module Crc {
  import opened Prelude

  type Octet = bv8

  // The word operations, named so that proofs about whole messages need not look inside them.
  function Xor(a: bv32, b: bv32): bv32 { a ^ b }
  function Double(a: bv32): bv32 { a << 1 }
  function Widen(b: Octet): bv32 { b as bv32 }
  function Half(a: bv32): bv32 { a >> 1 }
  predicate Odd(a: bv32) { a & 1 == 1 }
  predicate Small(x: bv32) { x < 0x8000_0000 }

  const ALL_ONES: bv32 := 0xFFFF_FFFF
  const POLYNOMIAL: bv32 := 0xEDB8_8320

  /** One bit of the division, lowest bit first. */
  function BitStep(r: bv32): bv32 {
    if Odd(r) then Xor(Half(r), POLYNOMIAL) else Half(r)
  }

  function BitSteps(r: bv32, n: nat): bv32
    decreases n, r
  {
    if n == 0 then r else BitSteps(BitStep(r), n - 1)
  }

  /** The register after a run of bytes. */
  function Register(r: bv32, data: seq<Octet>): bv32
    decreases |data|
  {
    if data == [] then r else Register(BitSteps(Xor(r, Widen(data[0])), 8), data[1..])
  }

  /** `zlib.crc32(chunk, crc)`: complement, run the bytes through the register, complement. */
  function Update(crc: bv32, chunk: seq<Octet>): bv32 {
    Xor(Register(Xor(crc, ALL_ONES), chunk), ALL_ONES)
  }

  function Crc32(data: seq<Octet>): bv32 {
    Update(0, data)
  }

  // ---------------------------------------------------------------- words

  lemma XorLaws(a: bv32, b: bv32, c: bv32)
    ensures Xor(Xor(a, b), c) == Xor(a, Xor(b, c)) && Xor(a, b) == Xor(b, a)
    ensures Xor(Xor(a, b), b) == a && Xor(a, 0) == a
  {}

  lemma XorCancels(a: bv32, b: bv32, x: bv32)
    ensures Xor(a, x) == Xor(b, x) ==> a == b
    ensures Xor(x, a) == Xor(x, b) ==> a == b
  {}

  lemma BitStepInjective(a: bv32, b: bv32)
    requires BitStep(a) == BitStep(b)
    ensures a == b
  {}

  lemma ShiftLaws(a: bv32, b: bv32)
    ensures (Odd(Xor(a, b)) <==> Odd(a) != Odd(b)) && Half(Xor(a, b)) == Xor(Half(a), Half(b))
    ensures Double(Xor(a, b)) == Xor(Double(a), Double(b)) && (Small(a) && Small(b) ==> Small(Xor(a, b)))
  {}

  lemma BitStepLinear(a: bv32, b: bv32)
    ensures BitStep(Xor(a, b)) == Xor(BitStep(a), BitStep(b))
  {
    hide Xor, Odd, Half;
    ShiftLaws(a, b);
    var x, y := Half(a), Half(b);
    XorLaws(x, y, POLYNOMIAL);
    XorLaws(x, POLYNOMIAL, y);
    XorLaws(x, POLYNOMIAL, Xor(y, POLYNOMIAL));
    XorLaws(POLYNOMIAL, y, 0);
    XorLaws(POLYNOMIAL, Xor(y, POLYNOMIAL), 0);
    XorLaws(y, POLYNOMIAL, 0);
  }

  // ---------------------------------------------------------------- chaining

  lemma {:induction false} RegisterAppend(r: bv32, xs: seq<Octet>, ys: seq<Octet>)
    ensures Register(r, xs + ys) == Register(Register(r, xs), ys)
    decreases |xs|
  {
    hide BitSteps, Xor, Widen;
    if xs == [] {
      assert xs + ys == ys;
    } else {
      assert (xs + ys)[1..] == xs[1..] + ys;
      RegisterAppend(BitSteps(Xor(r, Widen(xs[0])), 8), xs[1..], ys);
    }
  }

  /** Two chunks in turn are as good as one. */
  lemma UpdateAppend(crc: bv32, xs: seq<Octet>, ys: seq<Octet>)
    ensures Update(Update(crc, xs), ys) == Update(crc, xs + ys)
  {
    hide Register, Xor;
    var r := Xor(crc, ALL_ONES);
    XorLaws(Register(r, xs), ALL_ONES, 0);
    RegisterAppend(r, xs, ys);
  }

  /** The CRC carried from chunk to chunk. */
  function UpdateAll(crc: bv32, chunks: seq<seq<Octet>>): bv32
    decreases |chunks|
  {
    if chunks == [] then crc else UpdateAll(Update(crc, chunks[0]), chunks[1..])
  }

  /** However the data is cut into chunks, carrying the CRC through them is the CRC of it all. */
  lemma {:induction false} AnyChunking(crc: bv32, chunks: seq<seq<Octet>>)
    ensures UpdateAll(crc, chunks) == Update(crc, Flatten(chunks))
    decreases |chunks|
  {
    hide Update;
    if chunks == [] {
      UpdateNothing(crc);
    } else {
      AnyChunking(Update(crc, chunks[0]), chunks[1..]);
      UpdateAppend(crc, chunks[0], Flatten(chunks[1..]));
    }
  }

  lemma UpdateNothing(crc: bv32)
    ensures Update(crc, []) == crc
  {
    hide Xor;
    XorLaws(crc, ALL_ONES, 0);
  }

  // ---------------------------------------------------------------- bit steps are bijections

  lemma {:induction false} BitStepsInjective(a: bv32, b: bv32, n: nat)
    requires BitSteps(a, n) == BitSteps(b, n)
    ensures a == b
    decreases n
  {
    hide BitStep;
    if n > 0 {
      BitStepsInjective(BitStep(a), BitStep(b), n - 1);
      BitStepInjective(a, b);
    }
  }

  // ---------------------------------------------------------------- bit by bit

  function Bit(b: bool): bv32 {
    if b then 1 else 0
  }

  /** The register after a run of bits: each is mixed in at the low end, and followed by one step. */
  function FeedBits(r: bv32, bits: seq<bool>): bv32
    decreases |bits|
  {
    if bits == [] then r else FeedBits(BitStep(Xor(r, Bit(bits[0]))), bits[1..])
  }

  /** The bits of a byte in the order they count, lowest first. */
  function OctetBits(b: Octet): seq<bool> {
    [b & 0x01 != 0, b & 0x02 != 0, b & 0x04 != 0, b & 0x08 != 0,
     b & 0x10 != 0, b & 0x20 != 0, b & 0x40 != 0, b & 0x80 != 0]
  }

  function Bits(data: seq<Octet>): seq<bool> {
    if data == [] then [] else OctetBits(data[0]) + Bits(data[1..])
  }

  lemma {:induction false} FeedBitsAppend(r: bv32, xs: seq<bool>, ys: seq<bool>)
    ensures FeedBits(r, xs + ys) == FeedBits(FeedBits(r, xs), ys)
    decreases |xs|
  {
    hide BitStep, Xor, Bit;
    if xs == [] {
      assert xs + ys == ys;
    } else {
      assert (xs + ys)[1..] == xs[1..] + ys;
      FeedBitsAppend(BitStep(Xor(r, Bit(xs[0]))), xs[1..], ys);
    }
  }

  /** The register determines where it started, whatever bits it ran over. */
  lemma {:induction false} FeedBitsInjective(a: bv32, b: bv32, bits: seq<bool>)
    requires FeedBits(a, bits) == FeedBits(b, bits)
    ensures a == b
    decreases |bits|
  {
    hide BitStep, Xor, Bit;
    if bits != [] {
      var x := Bit(bits[0]);
      FeedBitsInjective(BitStep(Xor(a, x)), BitStep(Xor(b, x)), bits[1..]);
      BitStepInjective(Xor(a, x), Xor(b, x));
      XorCancels(a, b, x);
    }
  }

  lemma {:induction false} RegisterIsBits(r: bv32, data: seq<Octet>)
    ensures Register(r, data) == FeedBits(r, Bits(data))
    decreases |data|
  {
    hide BitSteps, Xor, Widen, OctetBits;
    if data != [] {
      var first := OctetBits(data[0]);
      OctetIsBits(r, data[0]);
      FeedBitsAppend(r, first, Bits(data[1..]));
      RegisterIsBits(BitSteps(Xor(r, Widen(data[0])), 8), data[1..]);
    }
  }

  lemma OctetIsBits(r: bv32, b: Octet)
    ensures FeedBits(r, OctetBits(b)) == BitSteps(Xor(r, Widen(b)), 8)
  {
    FedWord(r, OctetBits(b));
    WordOfOctet(b);
    hide FeedBits, BitSteps, Xor, Widen, OctetBits;
  }

  // ---------------------------------------------------------------- up to 32 bits are one word

  function WordOf(bits: seq<bool>): bv32 {
    if bits == [] then 0 else Xor(Bit(bits[0]), Double(WordOf(bits[1..])))
  }

  /** The top `m` bits of `x` are clear. */
  predicate TopClear(x: bv32, m: nat)
    decreases m
  {
    m == 0 || (Small(x) && TopClear(Double(x), m - 1))
  }

  lemma {:induction false} TopClearXor(x: bv32, y: bv32, m: nat)
    requires TopClear(x, m) && TopClear(y, m)
    ensures TopClear(Xor(x, y), m)
    decreases m
  {
    if m > 0 {
      ShiftLaws(x, y);
      hide Xor, Double, Small;
      TopClearXor(Double(x), Double(y), m - 1);
    }
  }

  lemma {:induction false} ZeroClear(m: nat)
    ensures TopClear(0, m)
  {
    if m > 0 {
      ZeroClear(m - 1);
    }
  }

  lemma {:induction false} FewerClear(x: bv32, m: nat, n: nat)
    requires m <= n && TopClear(x, n)
    ensures TopClear(x, m)
    decreases m
  {
    hide Small, Double;
    if m > 0 {
      FewerClear(Double(x), m - 1, n - 1);
    }
  }

  lemma OneClear(m: nat)
    requires m <= 31
    ensures TopClear(1, m)
  {
    assert TopClear(0x4000_0000, 1);
    assert TopClear(0x1000_0000, 3);
    assert TopClear(0x0400_0000, 5);
    assert TopClear(0x0100_0000, 7);
    assert TopClear(0x0040_0000, 9);
    assert TopClear(0x0010_0000, 11);
    assert TopClear(0x0004_0000, 13);
    assert TopClear(0x0001_0000, 15);
    assert TopClear(0x0000_4000, 17);
    assert TopClear(0x0000_1000, 19);
    assert TopClear(0x0000_0400, 21);
    assert TopClear(0x0000_0100, 23);
    assert TopClear(0x0000_0040, 25);
    assert TopClear(0x0000_0010, 27);
    assert TopClear(0x0000_0004, 29);
    assert TopClear(0x0000_0001, 31);
    FewerClear(1, m, 31);
  }

  lemma {:induction false} WordTopClear(bits: seq<bool>)
    requires |bits| <= 32
    ensures TopClear(WordOf(bits), 32 - |bits|)
    decreases |bits|
  {
    hide Xor, Double, Small;
    if bits == [] {
      ZeroClear(32);
    } else {
      var m := 32 - |bits|;
      WordTopClear(bits[1..]);
      ZeroClear(m);
      OneClear(m);
      TopClearXor(Bit(bits[0]), Double(WordOf(bits[1..])), m);
    }
  }

  lemma ShiftedOut(x: bv32)
    requires Small(x)
    ensures BitStep(Double(x)) == x
  {}

  /** Running up to 32 bits through the register is mixing in their word and stepping. */
  lemma {:induction false} FedWord(r: bv32, bits: seq<bool>)
    requires |bits| <= 32
    ensures FeedBits(r, bits) == BitSteps(Xor(r, WordOf(bits)), |bits|)
    decreases |bits|
  {
    hide BitStep, Xor, Double, Bit;
    if bits == [] {
      XorLaws(r, 0, 0);
    } else {
      var b, rest := Bit(bits[0]), WordOf(bits[1..]);
      FedWord(BitStep(Xor(r, b)), bits[1..]);
      WordTopClear(bits[1..]);
      ShiftedOut(rest);
      BitStepLinear(Xor(r, b), Double(rest));
      XorLaws(r, b, Double(rest));
    }
  }

  lemma BitsSplit(a: bool, x: bv32, b: bool, y: bv32)
    requires Small(x) && Small(y)
    requires Xor(Bit(a), Double(x)) == Xor(Bit(b), Double(y))
    ensures a == b && x == y
  {}

  lemma {:induction false} WordOfInjective(u: seq<bool>, v: seq<bool>)
    requires |u| == |v| <= 32 && WordOf(u) == WordOf(v)
    ensures u == v
    decreases |u|
  {
    hide Xor, Double, Bit, Small;
    if u != [] {
      WordTopClear(u[1..]);
      WordTopClear(v[1..]);
      BitsSplit(u[0], WordOf(u[1..]), v[0], WordOf(v[1..]));
      WordOfInjective(u[1..], v[1..]);
      assert u == [u[0]] + u[1..] && v == [v[0]] + v[1..];
    }
  }

  lemma WordOfOctet(b: Octet)
    ensures WordOf(OctetBits(b)) == Widen(b)
  {
    var bits := OctetBits(b);
    WordOfEight(bits);
    OctetSum(b);
  }

  /** Eight bits as a word, lowest first. */
  function Sum(a: bool, b: bool, c: bool, d: bool, x: bv32): bv32 {
    Xor(Bit(a), Double(Xor(Bit(b), Double(Xor(Bit(c), Double(Xor(Bit(d), Double(x))))))))
  }

  lemma OctetSum(b: Octet)
    ensures var s := OctetBits(b); Sum(s[0], s[1], s[2], s[3], Sum(s[4], s[5], s[6], s[7], 0)) == Widen(b)
  {}

  lemma WordOfEight(s: seq<bool>)
    requires |s| == 8
    ensures WordOf(s) == Sum(s[0], s[1], s[2], s[3], Sum(s[4], s[5], s[6], s[7], 0))
  {
    hide Sum;
    WordOfFour(s);
    WordOfFour(s[4..]);
    assert s[4..][4..] == [];
  }

  lemma WordOfFour(s: seq<bool>)
    requires |s| >= 4
    ensures WordOf(s) == Sum(s[0], s[1], s[2], s[3], WordOf(s[4..]))
  {
    hide Bit, Xor, Double;
    assert s[1..][1..] == s[2..] && s[2..][1..] == s[3..] && s[3..][1..] == s[4..];
    assert WordOf(s[2..]) == Xor(Bit(s[2]), Double(Xor(Bit(s[3]), Double(WordOf(s[4..])))));
  }

  // ---------------------------------------------------------------- bursts

  /** Any damage confined to 32 consecutive bits, wherever they lie in the bytes, changes the CRC. */
  lemma BurstDetected(
    a: seq<Octet>, b: seq<Octet>, head: seq<bool>, u: seq<bool>, v: seq<bool>, tail: seq<bool>)
    requires Bits(a) == head + u + tail && Bits(b) == head + v + tail
    requires |u| == |v| <= 32 && u != v
    ensures Crc32(a) != Crc32(b)
  {
    hide Register, FeedBits, BitSteps, WordOf, Bits, Xor;
    var start := Xor(0, ALL_ONES);
    if Crc32(a) == Crc32(b) {
      XorCancels(Register(start, a), Register(start, b), ALL_ONES);
      RegisterIsBits(start, a);
      RegisterIsBits(start, b);
      FeedBitsAppend(start, head + u, tail);
      FeedBitsAppend(start, head + v, tail);
      FeedBitsAppend(start, head, u);
      FeedBitsAppend(start, head, v);
      var r := FeedBits(start, head);
      FeedBitsInjective(FeedBits(r, u), FeedBits(r, v), tail);
      FedWord(r, u);
      FedWord(r, v);
      BitStepsInjective(Xor(r, WordOf(u)), Xor(r, WordOf(v)), |u|);
      XorCancels(WordOf(u), WordOf(v), r);
      WordOfInjective(u, v);
    }
  }

  lemma {:induction false} BitsAppend(xs: seq<Octet>, ys: seq<Octet>)
    ensures Bits(xs + ys) == Bits(xs) + Bits(ys)
    decreases |xs|
  {
    hide OctetBits;
    if xs == [] {
      assert xs + ys == ys;
    } else {
      assert (xs + ys)[1..] == xs[1..] + ys;
      BitsAppend(xs[1..], ys);
    }
  }

  lemma {:induction false} BitsInjective(v: seq<Octet>, w: seq<Octet>)
    requires |v| == |w|
    ensures |Bits(v)| == |Bits(w)| == 8 * |v| && (Bits(v) == Bits(w) ==> v == w)
    decreases |v|
  {
    if v != [] {
      BitsInjective(v[1..], w[1..]);
      var a, b := OctetBits(v[0]), OctetBits(w[0]);
      if a == b {
        OctetBitsInjective(v[0], w[0]);
      }
      hide OctetBits;
      assert |a| == |b| == 8 by { EightBits(v[0]); EightBits(w[0]); }
      assert Bits(v)[..8] == a && Bits(w)[..8] == b;
      assert Bits(v)[8..] == Bits(v[1..]) && Bits(w)[8..] == Bits(w[1..]);
      assert v == [v[0]] + v[1..] && w == [w[0]] + w[1..];
    }
  }

  lemma EightBits(b: Octet)
    ensures |OctetBits(b)| == 8
  {}

  lemma OctetBitsInjective(a: Octet, b: Octet)
    requires OctetBits(a) == OctetBits(b)
    ensures a == b
  {
    WordOfOctet(a);
    WordOfOctet(b);
  }

  /** In particular damage within four consecutive bytes. */
  lemma FourBytesDetected(head: seq<Octet>, v: seq<Octet>, w: seq<Octet>, tail: seq<Octet>)
    requires |v| == |w| <= 4 && v != w
    ensures Crc32(head + v + tail) != Crc32(head + w + tail)
  {
    hide Bits, Crc32;
    BitsAppend(head + v, tail);
    BitsAppend(head, v);
    BitsAppend(head + w, tail);
    BitsAppend(head, w);
    BitsInjective(v, w);
    BurstDetected(head + v + tail, head + w + tail, Bits(head), Bits(v), Bits(w), Bits(tail));
  }

  // ---------------------------------------------------------------- a known value

  lemma EightSteps(r: bv32)
    ensures BitSteps(r, 8) == BitStep(BitStep(BitStep(BitStep(BitStep(BitStep(BitStep(BitStep(r))))))))
  {
    hide BitStep;
    var a := BitStep(BitStep(r));
    var b := BitStep(BitStep(a));
    var c := BitStep(BitStep(b));
    assert BitSteps(r, 8) == BitSteps(a, 6);
    assert BitSteps(a, 6) == BitSteps(b, 4);
    assert BitSteps(b, 4) == BitSteps(c, 2);
    assert BitSteps(BitStep(c), 1) == BitStep(BitStep(c));
  }

  /** One byte through the register, when its eight steps come to `next`. */
  lemma ByteOf(r: bv32, b: Octet, next: bv32, rest: seq<Octet>)
    requires BitStep(BitStep(BitStep(BitStep(BitStep(BitStep(BitStep(BitStep(Xor(r, Widen(b)))))))))) == next
    ensures Register(r, [b] + rest) == Register(next, rest)
  {
    EightSteps(Xor(r, Widen(b)));
    assert ([b] + rest)[1..] == rest;
    hide BitStep, BitSteps;
  }

  /** The check value customary for this CRC: that of the nine digits 1 to 9. */
  lemma CheckValue(digits: seq<Octet>)
    requires digits == [0x31, 0x32, 0x33, 0x34, 0x35, 0x36, 0x37, 0x38, 0x39]
    ensures Crc32(digits) == 0xCBF4_3926
  {
    hide Register, BitSteps;
    forall i | 0 <= i < 9 ensures digits[i..] == [digits[i]] + digits[i + 1..] {}
    assert digits[0..] == digits && digits[9..] == [];
    ByteOf(0xFFFF_FFFF, 0x31, 0x7C23_1048, digits[1..]);
    ByteOf(0x7C23_1048, 0x32, 0xB0AC_BB32, digits[2..]);
    ByteOf(0xB0AC_BB32, 0x33, 0x77B7_9C2D, digits[3..]);
    ByteOf(0x77B7_9C2D, 0x34, 0x641C_1F5C, digits[4..]);
    ByteOf(0x641C_1F5C, 0x35, 0x340A_C5E3, digits[5..]);
    ByteOf(0x340A_C5E3, 0x36, 0xF68D_2C9E, digits[6..]);
    ByteOf(0xF68D_2C9E, 0x37, 0xAFFC_9660, digits[7..]);
    ByteOf(0xAFFC_9660, 0x38, 0x651F_2550, digits[8..]);
    ByteOf(0x651F_2550, 0x39, 0x340B_C6D9, digits[9..]);
    NoMore(0x340B_C6D9);
  }

  lemma NoMore(r: bv32)
    ensures Register(r, []) == r
  {}
}

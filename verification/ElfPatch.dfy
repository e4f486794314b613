/** Putting the MCUboot image header into an ELF file: the program-header search and the slice overwrite. */
module ElfPatch {
  import opened Prelude

  const PT_LOAD := 1

  /** Bytes the search reads of the ELF header and of each program header. */
  const FIELDS_START := 0x1C
  const FIELDS_END := 0x2E
  const ENTRY_READ := 20

  datatype Outcome =
    | Patched(entry: nat)
    | NotFound
    | Truncated  // a field lies outside the file: `struct.unpack_from` raises

  function Read16(elf: seq<Byte>, at: nat): nat
    requires at + 2 <= |elf|
  {
    elf[at] as int + 0x100 * (elf[at + 1] as int)
  }

  function Read32(elf: seq<Byte>, at: nat): nat
    requires at + 4 <= |elf|
  {
    Read16(elf, at) + 0x1_0000 * Read16(elf, at + 2)
  }

  predicate HasFields(elf: seq<Byte>) {
    FIELDS_END <= |elf|
  }

  function EntryCount(elf: seq<Byte>): nat
    requires HasFields(elf)
  {
    Read16(elf, 0x2C)
  }

  /** File offset of program header `i`. */
  function EntryAt(elf: seq<Byte>, i: nat): nat
    requires HasFields(elf)
  {
    Read32(elf, 0x1C) + i * Read16(elf, 0x2A)
  }

  predicate Readable(elf: seq<Byte>, i: nat)
    requires HasFields(elf)
  {
    EntryAt(elf, i) + ENTRY_READ <= |elf|
  }

  /** A loadable segment with room for the header. */
  predicate Suitable(elf: seq<Byte>, i: nat, size: nat)
    requires HasFields(elf) && Readable(elf, i)
  {
    Read32(elf, EntryAt(elf, i)) == PT_LOAD && Read32(elf, EntryAt(elf, i) + 16) >= size
  }

  function SegmentOffset(elf: seq<Byte>, i: nat): nat
    requires HasFields(elf) && Readable(elf, i)
  {
    Read32(elf, EntryAt(elf, i) + 4)
  }

  /** The first `i` program headers can be read and none is suitable. */
  ghost predicate PassedOver(elf: seq<Byte>, i: nat, size: nat)
    requires HasFields(elf)
  {
    forall j :: 0 <= j < i ==> Readable(elf, j) && !Suitable(elf, j, size)
  }

  /** What the search finds. */
  ghost predicate Finds(elf: seq<Byte>, size: nat, outcome: Outcome) {
    match outcome
    case Patched(i) =>
      && HasFields(elf) && i < EntryCount(elf) && PassedOver(elf, i, size) && Readable(elf, i) && Suitable(elf, i, size)
    case NotFound => HasFields(elf) && PassedOver(elf, EntryCount(elf), size)
    case Truncated =>
      HasFields(elf) ==> exists i :: 0 <= i < EntryCount(elf) && PassedOver(elf, i, size) && !Readable(elf, i)
  }

  /** `elf[at : at + size] = header`: the bounds are clipped to the file, which grows or shrinks to fit. */
  function Overwritten(elf: seq<Byte>, at: nat, size: nat, header: seq<Byte>): seq<Byte> {
    elf[..Clip(elf, at)] + header + elf[Clip(elf, at + size)..]
  }

  function Clip(elf: seq<Byte>, n: nat): (m: nat)
    ensures m <= |elf|
  {
    if n < |elf| then n else |elf|
  }

  class ElfFile {
    var elf: seq<Byte>

    constructor (elf: seq<Byte>)
      ensures this.elf == elf
    {
      this.elf := elf;
    }

    method Patch(header: seq<Byte>, size: nat) returns (outcome: Outcome)
      modifies this
      ensures Finds(old(elf), size, outcome)
      ensures elf == if outcome.Patched? then Overwritten(old(elf), SegmentOffset(old(elf), outcome.entry), size, header)
                     else old(elf)
    {
      hide Read16, Read32;
      if FIELDS_END > |elf| {
        return Truncated;
      }
      var phoff := Read32(elf, 0x1C);
      var entsize := Read16(elf, 0x2A);
      var phnum := Read16(elf, 0x2C);
      for i := 0 to phnum
        invariant elf == old(elf) && PassedOver(elf, i, size)
      {
        var off := phoff + i * entsize;
        if off + ENTRY_READ > |elf| {
          return Truncated;
        }
        var kind, offset, filesz := Read32(elf, off), Read32(elf, off + 4), Read32(elf, off + 16);
        if kind == PT_LOAD && filesz >= size {
          elf := elf[..Clip(elf, offset)] + header + elf[Clip(elf, offset + size)..];
          return Patched(i);
        }
      }
      return NotFound;
    }
  }

  // ---------------------------------------------------------------- which bytes the search goes by

  /** The number that bytes stand for, the least significant first. */
  function LittleEndian(bytes: seq<Byte>): nat {
    if bytes == [] then 0 else bytes[0] as int + 0x100 * LittleEndian(bytes[1..])
  }

  lemma LittleEndian16(elf: seq<Byte>, at: nat)
    requires at + 2 <= |elf|
    ensures Read16(elf, at) == LittleEndian(elf[at..at + 2])
  {
    var b := elf[at..at + 2];
    var c := b[1..];
    assert c[1..] == [];
    assert LittleEndian(c) == elf[at + 1] as int;
  }

  lemma LittleEndian32(elf: seq<Byte>, at: nat)
    requires at + 4 <= |elf|
    ensures Read32(elf, at) == LittleEndian(elf[at..at + 4])
  {
    var b := elf[at..at + 4];
    var c, d := b[1..], b[2..];
    assert c[1..] == d && d == elf[at + 2..at + 4];
    LittleEndian16(elf, at + 2);
  }

  lemma BytesOf0x1234()
    ensures LittleEndian([0x34, 0x12]) == 0x1234
  {
    assert LittleEndian([0x34, 0x12][1..]) == 0x12;
  }

  /** Where the fields are: in the ELF32 header and in the program headers, all little-endian. */
  lemma FieldsAre(elf: seq<Byte>, i: nat, size: nat)
    ensures HasFields(elf) <==> |elf| >= 0x2E
    ensures HasFields(elf) ==>
      && EntryCount(elf) == LittleEndian(elf[0x2C..0x2E])
      && EntryAt(elf, i) == LittleEndian(elf[0x1C..0x20]) + i * LittleEndian(elf[0x2A..0x2C])
      && (Readable(elf, i) <==> EntryAt(elf, i) + 20 <= |elf|)
    ensures HasFields(elf) && Readable(elf, i) ==>
      var entry := elf[EntryAt(elf, i)..];
      && (Suitable(elf, i, size) <==> LittleEndian(entry[0..4]) == 1 && LittleEndian(entry[16..20]) >= size)
      && SegmentOffset(elf, i) == LittleEndian(entry[4..8])
  {
    hide LittleEndian, Read16, Read32;
    if HasFields(elf) {
      LittleEndian16(elf, 0x2C);
      LittleEndian32(elf, 0x1C);
      LittleEndian16(elf, 0x2A);
      if Readable(elf, i) {
        var at := EntryAt(elf, i);
        var entry := elf[at..];
        assert entry[0..4] == elf[at..at + 4] && entry[4..8] == elf[at + 4..at + 8];
        assert entry[16..20] == elf[at + 16..at + 20];
        LittleEndian32(elf, at);
        LittleEndian32(elf, at + 4);
        LittleEndian32(elf, at + 16);
      }
    }
  }

  // ---------------------------------------------------------------- what is left alone

  /** The search has one outcome. */
  lemma FindsOne(elf: seq<Byte>, size: nat, a: Outcome, b: Outcome)
    requires Finds(elf, size, a) && Finds(elf, size, b)
    ensures a == b
  {
    hide Readable, Suitable, EntryCount;
  }

  /** The file keeps its length exactly when the header is as long as the part of the range inside the file. */
  lemma LengthKept(elf: seq<Byte>, at: nat, size: nat, header: seq<Byte>)
    ensures |Overwritten(elf, at, size, header)| == |elf| <==> |header| == Clip(elf, at + size) - Clip(elf, at)
  {}

  /** A full header inside the file replaces just its range. */
  lemma OnlyTheRange(elf: seq<Byte>, at: nat, size: nat, header: seq<Byte>)
    requires |header| == size && at + size <= |elf|
    ensures var patched := Overwritten(elf, at, size, header);
            && |patched| == |elf| && patched[at..at + size] == header
            && forall i :: 0 <= i < |elf| && !(at <= i < at + size) ==> patched[i] == elf[i]
  {}

  /** The range misses everything the search reads. */
  ghost predicate Misses(elf: seq<Byte>, at: nat, size: nat)
    requires HasFields(elf)
  {
    && (at + size <= FIELDS_START || FIELDS_END <= at)
    && forall i :: 0 <= i < EntryCount(elf) && Readable(elf, i) ==>
         at + size <= EntryAt(elf, i) || EntryAt(elf, i) + ENTRY_READ <= at
  }

  /** Files that agree on what the search reads give the same outcome. */
  lemma SearchReadsNoMore(elf: seq<Byte>, other: seq<Byte>, at: nat, size: nat, outcome: Outcome)
    requires HasFields(elf) && |other| == |elf| && Misses(elf, at, size)
    requires forall i :: 0 <= i < |elf| && !(at <= i < at + size) ==> other[i] == elf[i]
    requires Finds(elf, size, outcome)
    ensures Finds(other, size, outcome)
    ensures outcome.Patched? ==> SegmentOffset(other, outcome.entry) == SegmentOffset(elf, outcome.entry)
  {
    SameFields(elf, other, at, size);
    forall i | 0 <= i < EntryCount(elf)
      ensures Readable(other, i) <==> Readable(elf, i)
      ensures Readable(elf, i) ==>
        Suitable(other, i, size) == Suitable(elf, i, size) && SegmentOffset(other, i) == SegmentOffset(elf, i)
    {
      SameEntry(elf, other, at, size, i);
    }
    hide Readable, Suitable, SegmentOffset, EntryCount;
    if outcome.Truncated? {
      var i :| 0 <= i < EntryCount(elf) && PassedOver(elf, i, size) && !Readable(elf, i);
      assert PassedOver(other, i, size) && !Readable(other, i);
    }
  }

  lemma SameFields(elf: seq<Byte>, other: seq<Byte>, at: nat, size: nat)
    requires HasFields(elf) && |other| == |elf| && (at + size <= FIELDS_START || FIELDS_END <= at)
    requires forall i :: 0 <= i < |elf| && !(at <= i < at + size) ==> other[i] == elf[i]
    ensures EntryCount(other) == EntryCount(elf) && forall i: nat :: EntryAt(other, i) == EntryAt(elf, i)
  {}

  lemma SameEntry(elf: seq<Byte>, other: seq<Byte>, at: nat, size: nat, i: nat)
    requires HasFields(elf) && |other| == |elf| && Misses(elf, at, size) && i < EntryCount(elf)
    requires EntryAt(other, i) == EntryAt(elf, i)
    requires forall i :: 0 <= i < |elf| && !(at <= i < at + size) ==> other[i] == elf[i]
    ensures Readable(other, i) <==> Readable(elf, i)
    ensures Readable(elf, i) ==>
      Suitable(other, i, size) == Suitable(elf, i, size) && SegmentOffset(other, i) == SegmentOffset(elf, i)
  {
    hide EntryAt;
  }

  lemma OverwrittenTwice(elf: seq<Byte>, at: nat, size: nat, header: seq<Byte>)
    requires |header| == size && at + size <= |elf|
    ensures var once := Overwritten(elf, at, size, header); Overwritten(once, at, size, header) == once
  {}

  /** Patching a patched file changes nothing: the same segment is found and the same bytes are put there. */
  lemma PatchTwice(elf: seq<Byte>, size: nat, header: seq<Byte>, entry: nat)
    requires Finds(elf, size, Patched(entry)) && |header| == size
    requires var at := SegmentOffset(elf, entry); at + size <= |elf| && Misses(elf, at, size)
    ensures var at := SegmentOffset(elf, entry);
            var once := Overwritten(elf, at, size, header);
            && Finds(once, size, Patched(entry)) && SegmentOffset(once, entry) == at
            && Overwritten(once, at, size, header) == once
  {
    hide Misses, Overwritten, Suitable, PassedOver;
    var at := SegmentOffset(elf, entry);
    var once := Overwritten(elf, at, size, header);
    OnlyTheRange(elf, at, size, header);
    OverwrittenTwice(elf, at, size, header);
    SearchReadsNoMore(elf, once, at, size, Patched(entry));
  }
}

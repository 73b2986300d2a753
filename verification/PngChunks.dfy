/** The structural check of a PNG upload: chunk checksums, in memory and streamed from a file. */
module PngChunks {

  type Bytes = seq<bv8>

  const POLYNOMIAL: bv32 := 0xedb8_8320
  const ONES: bv32 := 0xffff_ffff

  function Xor(a: bv32, b: bv32): bv32 { a ^ b }

  function Half(x: bv32): bv32 { x >> 1 }

  // ---------- the checksum of the standard, one bit at a time ----------

  /** Shift one message bit into the register, low bit first. */
  function Feed(crc: bv32, bit: bv32): bv32 {
    if crc & 1 != bit & 1 then (crc >> 1) ^ POLYNOMIAL else crc >> 1
  }

  function FeedBits(crc: bv32, bits: bv32, n: nat): bv32
    decreases n
  {
    if n == 0 then crc else FeedBits(Feed(crc, bits), Half(bits), n - 1)
  }

  /** The register after a message, each byte's bits taken low bit first (section 3.4 of RFC 2083). */
  function FeedBytes(crc: bv32, bytes: Bytes): bv32
    decreases |bytes|
  {
    if bytes == [] then crc else FeedBytes(FeedBits(crc, bytes[0] as bv32, 8), bytes[1..])
  }

  function Crc(bytes: Bytes): bv32 { FeedBytes(ONES, bytes) ^ ONES }

  /** The checksum of a message is built up over its parts. */
  lemma {:induction false} FeedConcat(crc: bv32, a: Bytes, b: Bytes)
    ensures FeedBytes(crc, a + b) == FeedBytes(FeedBytes(crc, a), b)
    decreases |a|
  {
    if a == [] {
      assert a + b == b;
    } else {
      assert (a + b)[1..] == a[1..] + b;
      FeedConcat(FeedBits(crc, a[0] as bv32, 8), a[1..], b);
    }
  }

  // ---------- the table ----------

  function Shifted(crc: bv32): bv32 {
    (crc >> 1) ^ (if crc & 1 == 1 then POLYNOMIAL else 0)
  }

  function Rounds(crc: bv32, n: nat): bv32
    decreases n
  {
    if n == 0 then crc else Rounds(Shifted(crc), n - 1)
  }

  function Shr(x: bv32, n: nat): bv32
    decreases n
  {
    if n == 0 then x else Shr(Half(x), n - 1)
  }

  lemma ShrByte(x: bv32)
    ensures Shr(x, 8) == x >> 8
  {
    assert x >> 8 == (((((((x >> 1) >> 1) >> 1) >> 1) >> 1) >> 1) >> 1) >> 1;
  }

  lemma LowBits(c: bv32, z: bv32)
    ensures (c ^ z) & 1 == 1 <==> c & 1 != z & 1
    ensures (c ^ z) >> 1 == (c >> 1) ^ (z >> 1)
  {
  }

  lemma XorSwap(a: bv32, b: bv32, p: bv32)
    ensures (a ^ b) ^ p == (a ^ p) ^ b && (a ^ b) ^ p == b ^ (a ^ p)
  {
  }

  lemma RoundFeedsBits(c: bv32, z: bv32)
    ensures Shifted(c ^ z) == Feed(c, z) ^ (z >> 1)
  {
    LowBits(c, z);
    var p: bv32 := if c & 1 != z & 1 then POLYNOMIAL else 0;
    XorSwap(c >> 1, z >> 1, p);
    XorZero(c >> 1);
  }

  /** One round on register and message together is one bit fed, with the rest of the message kept. */
  lemma RoundFeeds(c: bv32, z: bv32)
    ensures Shifted(Xor(c, z)) == Xor(Feed(c, z), Half(z))
  {
    hide Shifted, Feed;
    RoundFeedsBits(c, z);
  }

  lemma XorZero(x: bv32)
    ensures x ^ 0 == x && 0 ^ x == x
  {
  }

  lemma {:induction false} RoundsFeed(c: bv32, z: bv32, n: nat)
    ensures Rounds(Xor(c, z), n) == Xor(FeedBits(c, z, n), Shr(z, n))
    decreases n
  {
    hide Shifted, Feed, Xor, Half;
    if n > 0 {
      RoundFeeds(c, z);
      RoundsFeed(Feed(c, z), Half(z), n - 1);
    }
  }

  lemma RoundSplitsBits(high: bv32, low: bv32)
    requires high & 1 == 0
    ensures Shifted(high ^ low) == (high >> 1) ^ Shifted(low)
  {
    LowBits(high, low);
    XorSwap(low >> 1, high >> 1, if low & 1 == 1 then POLYNOMIAL else 0);
    LowBits(low, high);
  }

  /** A register whose low bit is clear only shifts. */
  lemma RoundSplits(high: bv32, low: bv32)
    requires high & 1 == 0
    ensures Shifted(Xor(high, low)) == Xor(Half(high), Shifted(low))
  {
    hide Shifted;
    RoundSplitsBits(high, low);
  }

  ghost predicate LowClear(x: bv32, n: nat)
    decreases n
  {
    n == 0 || (x & 1 == 0 && LowClear(Half(x), n - 1))
  }

  lemma {:induction false} RoundsSplit(high: bv32, low: bv32, n: nat)
    requires LowClear(high, n)
    ensures Rounds(Xor(high, low), n) == Xor(Shr(high, n), Rounds(low, n))
    decreases n
  {
    hide Shifted, Xor, Half;
    if n > 0 {
      RoundSplits(high, low);
      RoundsSplit(Half(high), Shifted(low), n - 1);
    }
  }

  function HighBits(w: bv32): bv32 { w & 0xffff_ff00 }
  function LowByte(w: bv32): bv32 { w & 255 }
  function Upper(w: bv32): bv32 { w >> 8 }

  lemma HighBitsClear(w: bv32)
    ensures LowClear(HighBits(w), 8)
  {
    var h := w & 0xffff_ff00;
    assert h & 1 == 0 && (h >> 1) & 1 == 0 && (h >> 1 >> 1) & 1 == 0 && (h >> 1 >> 1 >> 1) & 1 == 0;
    var g := h >> 1 >> 1 >> 1 >> 1;
    assert g & 1 == 0 && (g >> 1) & 1 == 0 && (g >> 1 >> 1) & 1 == 0 && (g >> 1 >> 1 >> 1) & 1 == 0;
  }

  lemma HighLow(w: bv32)
    ensures Xor(HighBits(w), LowByte(w)) == w
    ensures Shr(HighBits(w), 8) == Upper(w)
  {
    hide Shr;
    ShrByte(HighBits(w));
  }

  lemma ByteGone(crc: bv32, b: bv8)
    ensures Xor(crc, b as bv32) >> 8 == crc >> 8 && (b as bv32) >> 8 == 0
  {
  }

  /** A register and a byte: the high bits shift out, the low bits go through the table. */
  lemma RegisterSplits(w: bv32)
    ensures Rounds(w, 8) == Xor(Upper(w), Rounds(LowByte(w), 8))
  {
    hide *;
    HighBitsClear(w);
    HighLow(w);
    RoundsSplit(HighBits(w), LowByte(w), 8);
  }

  lemma ByteFeeds(crc: bv32, b: bv8)
    ensures Rounds(Xor(crc, b as bv32), 8) == FeedBits(crc, b as bv32, 8)
  {
    hide Rounds, FeedBits, Shr;
    RoundsFeed(crc, b as bv32, 8);
    ShrByte(b as bv32);
    ByteGone(crc, b);
    XorZero(FeedBits(crc, b as bv32, 8));
  }

  /** One table lookup feeds the eight bits of one byte. */
  lemma TableStep(crc: bv32, b: bv8)
    ensures Xor(crc >> 8, Rounds(Xor(crc, b as bv32) & 255, 8)) == FeedBits(crc, b as bv32, 8)
  {
    hide Rounds, FeedBits, Xor;
    RegisterSplits(Xor(crc, b as bv32));
    ByteFeeds(crc, b);
    ByteGone(crc, b);
  }

  /** The table's entry for a value: eight rounds on it. */
  method TableEntry(value: bv32) returns (crc: bv32)
    ensures crc == Rounds(value, 8)
  {
    crc := value;
    for bit := 0 to 8
      invariant Rounds(crc, 8 - bit) == Rounds(value, 8)
    {
      crc := (crc >> 1) ^ (if crc & 1 == 1 then POLYNOMIAL else 0);
    }
  }

  ghost predicate IsTable(table: seq<bv32>) {
    |table| == 256 && forall x: bv32 | x < 256 :: table[x as int] == Rounds(x, 8)
  }

  method BuildTable() returns (table: array<bv32>)
    ensures fresh(table) && IsTable(table[..])
  {
    hide Rounds;
    table := new bv32[256];
    for value := 0 to 256
      invariant forall i: nat | i < value :: table[i] == Rounds(i as bv32, 8)
    {
      table[value] := TableEntry(value as bv32);
    }
    forall x: bv32 | x < 256 ensures table[..][x as int] == Rounds(x, 8) {
      assert (x as int) as bv32 == x;
    }
  }

  /** One byte looked up in the table. */
  method Lookup(table: array<bv32>, crc: bv32, b: bv8) returns (next: bv32)
    requires IsTable(table[..])
    ensures next == FeedBits(crc, b as bv32, 8)
  {
    hide Rounds, FeedBits, Xor;
    var index := Xor(crc, b as bv32) & 255;
    TableStep(crc, b);
    InTable(table[..], Xor(crc, b as bv32));
    next := Xor(crc >> 8, table[index as int]);
  }

  lemma InTable(table: seq<bv32>, x: bv32)
    requires IsTable(table)
    ensures (x & 255) as int < 256 && table[(x & 255) as int] == Rounds(x & 255, 8)
  {
    hide Rounds;
    assert x & 255 < 256;
  }

  /** The table form of the register update equals the bitwise definition. */
  method CrcUpdate(table: array<bv32>, start: bv32, bytes: Bytes) returns (crc: bv32)
    requires IsTable(table[..])
    ensures crc == FeedBytes(start, bytes)
  {
    hide IsTable, FeedBits;
    crc := start;
    assert bytes[0..] == bytes;
    for i := 0 to |bytes|
      invariant FeedBytes(crc, bytes[i..]) == FeedBytes(start, bytes)
    {
      assert bytes[i..][1..] == bytes[i + 1..];
      crc := Lookup(table, crc, bytes[i]);
    }
  }

  // ---------- chunks ----------

  const IDAT: Bytes := [0x49, 0x44, 0x41, 0x54]
  const IEND: Bytes := [0x49, 0x45, 0x4e, 0x44]

  function ReadLength(b: Bytes): nat
    requires |b| == 4
  {
    b[0] as int * 0x100_0000 + b[1] as int * 0x1_0000 + b[2] as int * 0x100 + b[3] as int
  }

  function ReadWord(b: Bytes): bv32
    requires |b| == 4
  {
    ((b[0] as bv32) << 24) | ((b[1] as bv32) << 16) | ((b[2] as bv32) << 8) | (b[3] as bv32)
  }

  /** A chunk as it stands in a file. */
  datatype Chunk = Chunk(length: Bytes, kind: Bytes, data: Bytes, checksum: Bytes)

  function BytesOf(chunks: seq<Chunk>): Bytes {
    if chunks == [] then []
    else chunks[0].length + chunks[0].kind + chunks[0].data + chunks[0].checksum + BytesOf(chunks[1..])
  }

  /** Its length field counts its data, and its checksum is that of its kind and data. */
  ghost predicate ChunkOk(c: Chunk) {
    && |c.length| == 4 && |c.kind| == 4 && |c.checksum| == 4
    && ReadLength(c.length) == |c.data|
    && ReadWord(c.checksum) == Crc(c.kind + c.data)
  }

  ghost predicate HoldsData(c: Chunk) { c.kind == [0x49, 0x44, 0x41, 0x54] && c.data != [] }

  /** Sound chunks, an empty end chunk last and only last, and image data among them or already seen. */
  ghost predicate Complete(chunks: seq<Chunk>, seen: bool) {
    && chunks != []
    && (forall i | 0 <= i < |chunks| :: ChunkOk(chunks[i]))
    && (forall i | 0 <= i < |chunks| - 1 :: chunks[i].kind != [0x49, 0x45, 0x4e, 0x44])
    && chunks[|chunks| - 1].kind == [0x49, 0x45, 0x4e, 0x44] && chunks[|chunks| - 1].data == []
    && (seen || exists i | 0 <= i < |chunks| :: HoldsData(chunks[i]))
  }

  /** From `at` on the file is a complete run of chunks and nothing else. */
  ghost predicate Decomposes(file: Bytes, at: nat, seen: bool, chunks: seq<Chunk>) {
    at <= |file| && file[at..] == BytesOf(chunks) && Complete(chunks, seen)
  }

  /** The chunk that starts at `at`, if the file has room for one. */
  function ChunkAt(file: Bytes, at: nat): Chunk
    requires at + 12 <= |file| && at + 12 + ReadLength(file[at..at + 4]) <= |file|
  {
    var n := ReadLength(file[at..at + 4]);
    Chunk(file[at..at + 4], file[at + 4..at + 8], file[at + 8..at + 8 + n], file[at + 8 + n..at + 12 + n])
  }

  ghost predicate ChunkFits(file: Bytes, at: nat) {
    at + 12 <= |file| && at + 12 + ReadLength(file[at..at + 4]) <= |file|
  }

  /** The walk both checks make, over at most `budget` chunks. */
  ghost predicate WalkOk(file: Bytes, at: nat, seen: bool, budget: nat)
    decreases |file| - at
  {
    && budget > 0 && ChunkFits(file, at)
    && var c := ChunkAt(file, at);
       var now := seen || HoldsData(c);
       var next := at + 12 + |c.data|;
       ChunkOk(c) && (if c.kind == IEND then now && c.data == [] && next == |file|
                       else WalkOk(file, next, now, budget - 1))
  }

  function Flat(c: Chunk): Bytes { c.length + c.kind + c.data + c.checksum }

  /** A sound chunk at the front of what is left is the chunk read there. */
  lemma ReadsHead(file: Bytes, at: nat, c: Chunk, rest: Bytes)
    requires at <= |file| && ChunkOk(c) && file[at..] == Flat(c) + rest
    ensures ChunkFits(file, at) && ChunkAt(file, at) == c && file[at + 12 + |c.data|..] == rest
  {
    hide ReadLength, ReadWord, Crc;
    var left, n := file[at..], |c.data|;
    assert left[..4] == c.length && left[4..8] == c.kind && left[8..8 + n] == c.data
           && left[8 + n..12 + n] == c.checksum;
    assert left[12 + n..] == rest;
    assert file[at..at + 4] == left[..4] && file[at + 4..at + 8] == left[4..8];
    assert file[at + 8..at + 8 + n] == left[8..8 + n] && file[at + 8 + n..at + 12 + n] == left[8 + n..12 + n];
    assert file[at + 12 + n..] == left[12 + n..];
  }

  lemma HeadReads(file: Bytes, at: nat)
    requires ChunkFits(file, at)
    ensures var c := ChunkAt(file, at);
            |c.data| == ReadLength(c.length) && file[at..] == Flat(c) + file[at + 12 + |c.data|..]
  {
    hide ReadLength;
  }

  /** The first chunk of a complete run ends it exactly when it is the end chunk. */
  lemma CompleteHead(c: Chunk, rest: seq<Chunk>, seen: bool)
    ensures Complete([c] + rest, seen) <==>
              && ChunkOk(c)
              && (if c.kind == IEND then rest == [] && c.data == [] && (seen || HoldsData(c))
                  else Complete(rest, seen || HoldsData(c)))
  {
    hide ChunkOk;
    var chunks, now := [c] + rest, seen || HoldsData(c);
    assert forall i | 0 <= i < |rest| :: rest[i] == chunks[i + 1];
    assert chunks[0] == c && chunks[|chunks| - 1] == if rest == [] then c else rest[|rest| - 1];
    if Complete(chunks, seen) && c.kind != IEND && !now {
      var i :| 0 <= i < |chunks| && HoldsData(chunks[i]);
      assert HoldsData(rest[i - 1]);
    }
    if c.kind != IEND && ChunkOk(c) && Complete(rest, now) && !seen && !HoldsData(c) {
      var i :| 0 <= i < |rest| && HoldsData(rest[i]);
      assert HoldsData(chunks[i + 1]);
    }
  }

  lemma {:induction false} WalkFinds(file: Bytes, at: nat, seen: bool, budget: nat) returns (chunks: seq<Chunk>)
    requires WalkOk(file, at, seen, budget)
    ensures Decomposes(file, at, seen, chunks) && |chunks| <= budget
    decreases budget
  {
    hide ChunkOk, ReadLength, Complete;
    var c := ChunkAt(file, at);
    var next := at + 12 + |c.data|;
    HeadReads(file, at);
    var rest := [];
    if c.kind != IEND {
      rest := WalkFinds(file, next, seen || HoldsData(c), budget - 1);
    }
    CompleteHead(c, rest, seen);
    chunks := [c] + rest;
    assert chunks[1..] == rest;
    assert BytesOf(chunks) == Flat(c) + BytesOf(rest);
  }

  lemma {:induction false} WalkAccepts(file: Bytes, at: nat, seen: bool, chunks: seq<Chunk>, budget: nat)
    requires Decomposes(file, at, seen, chunks) && |chunks| <= budget
    ensures WalkOk(file, at, seen, budget)
    decreases |chunks|
  {
    hide ChunkOk, ReadLength, Complete, ChunkAt, ChunkFits;
    NotEmpty(chunks, seen);
    var c, rest := chunks[0], chunks[1..];
    assert chunks == [c] + rest;
    CompleteHead(c, rest, seen);
    assert BytesOf(chunks) == Flat(c) + BytesOf(rest);
    ReadsHead(file, at, c, BytesOf(rest));
    FitsWithin(file, at);
    if c.kind != IEND {
      WalkAccepts(file, at + 12 + |c.data|, seen || HoldsData(c), rest, budget - 1);
    }
  }

  lemma NotEmpty(chunks: seq<Chunk>, seen: bool)
    requires Complete(chunks, seen)
    ensures chunks != []
  {
  }

  lemma {:induction false} ChunksCost(chunks: seq<Chunk>)
    requires forall i | 0 <= i < |chunks| :: ChunkOk(chunks[i])
    ensures 12 * |chunks| <= |BytesOf(chunks)|
  {
    hide ReadLength, Crc;
    if chunks != [] {
      assert ChunkOk(chunks[0]);
      ChunksCost(chunks[1..]);
    }
  }

  /** The walk accepts exactly the complete runs of at most that many chunks. */
  lemma WalkMeaning(file: Bytes, at: nat, seen: bool, budget: nat)
    ensures WalkOk(file, at, seen, budget) <==>
              exists chunks :: Decomposes(file, at, seen, chunks) && |chunks| <= budget
  {
    hide WalkOk, Decomposes;
    if WalkOk(file, at, seen, budget) {
      var chunks := WalkFinds(file, at, seen, budget);
    }
    forall chunks | Decomposes(file, at, seen, chunks) && |chunks| <= budget ensures WalkOk(file, at, seen, budget) {
      WalkAccepts(file, at, seen, chunks, budget);
    }
  }

  /** No complete run in a file has more chunks than bytes. */
  lemma RunFitsFile(file: Bytes, at: nat, seen: bool, chunks: seq<Chunk>)
    requires Decomposes(file, at, seen, chunks)
    ensures |chunks| <= |file|
  {
    hide ChunkOk, BytesOf;
    ChunksCost(chunks);
  }

  // ---------- bytes and a known checksum ----------

  /** A sound chunk spelled out: length and checksum are written most significant byte first. */
  lemma ChunkFields(c: Chunk)
    ensures ChunkOk(c) <==>
              && |c.length| == 4 && |c.kind| == 4 && |c.checksum| == 4
              && |c.data| == c.length[0] as int * 16_777_216 + c.length[1] as int * 65_536
                             + c.length[2] as int * 256 + c.length[3] as int
              && var crc := Crc(c.kind + c.data);
                 && c.checksum[0] as bv32 == crc >> 24 && c.checksum[1] as bv32 == (crc >> 16) & 255
                 && c.checksum[2] as bv32 == (crc >> 8) & 255 && c.checksum[3] as bv32 == crc & 255
  {
    hide Crc;
    if |c.checksum| == 4 {
      WordFields(c.checksum, Crc(c.kind + c.data));
    }
  }

  lemma WordFields(b: Bytes, w: bv32)
    requires |b| == 4
    ensures ReadWord(b) == w <==>
              && b[0] as bv32 == w >> 24 && b[1] as bv32 == (w >> 16) & 255
              && b[2] as bv32 == (w >> 8) & 255 && b[3] as bv32 == w & 255
  {
  }

  /** The checksum that ends every PNG file: that of an empty end chunk. */
  lemma KnownChecksum()
    ensures Crc([0x49, 0x45, 0x4e, 0x44]) == 0xae42_6082
  {
    var b: Bytes := [0x49, 0x45, 0x4e, 0x44];
    assert b[1..] == [0x45, 0x4e, 0x44] && b[1..][1..] == [0x4e, 0x44] && b[1..][1..][1..] == [0x44];
    assert b[1..][1..][1..][1..] == [];
  }

  // ---------- the two checks ----------

  const SIGNATURE_SIZE := 8
  const MAX_CHUNKS := 100_000
  const PIECE := 65536

  /** One turn of either walk, spelled out. */
  lemma WalkStep(file: Bytes, at: nat, seen: bool, budget: nat)
    requires budget > 0
    ensures !ChunkFits(file, at) ==> !WalkOk(file, at, seen, budget)
    ensures ChunkFits(file, at) ==>
              var n := ReadLength(file[at..at + 4]);
              var kind := file[at + 4..at + 8];
              var sound := Crc(file[at + 4..at + 8 + n]) == ReadWord(file[at + 8 + n..at + 12 + n]);
              var now := seen || (kind == IDAT && n > 0);
              WalkOk(file, at, seen, budget) ==
                (sound && (if kind == IEND then now && n == 0 && at + 12 + n == |file|
                           else WalkOk(file, at + 12 + n, now, budget - 1)))
  {
    hide ReadLength, ReadWord, Crc;
    if ChunkFits(file, at) {
      var c := ChunkAt(file, at);
      assert c.kind + c.data == file[at + 4..at + 8 + |c.data|];
    }
  }

  /** The check of a file held in memory: true exactly when the file is a complete run of sound chunks. */
  method PngChunksInMemory(file: Bytes, table: array<bv32>) returns (ok: bool)
    requires IsTable(table[..])
    ensures ok <==> exists chunks :: Decomposes(file, 8, false, chunks)
  {
    hide WalkOk, Decomposes, ReadLength, ReadWord, FeedBytes, IsTable;
    ghost var goal, budget := WalkOk(file, SIGNATURE_SIZE, false, |file|), |file|;
    WalkMeaning(file, SIGNATURE_SIZE, false, |file|);
    forall chunks | Decomposes(file, SIGNATURE_SIZE, false, chunks) ensures |chunks| <= |file| {
      RunFitsFile(file, SIGNATURE_SIZE, false, chunks);
    }
    var at, hasData := SIGNATURE_SIZE, false;
    while at + 12 <= |file|
      invariant at >= 0 && budget >= 0 && budget + at >= |file| && goal == WalkOk(file, at, hasData, budget)
      decreases |file| - at
    {
      WalkStep(file, at, hasData, budget);
      var length := ReadLength(file[at..at + 4]);
      if at + 12 + length > |file| {
        return false;
      }
      var kind := file[at + 4..at + 8];
      var crc := CrcUpdate(table, ONES, file[at + 4..at + 8 + length]);
      if crc ^ ONES != ReadWord(file[at + 8 + length..at + 12 + length]) {
        return false;
      }
      if kind == IDAT && length > 0 {
        hasData := true;
      }
      at, budget := at + 12 + length, budget - 1;
      if kind == IEND {
        return hasData && length == 0 && at == |file|;
      }
    }
    WalkShort(file, at, hasData, budget);
    return false;
  }

  lemma WalkShort(file: Bytes, at: nat, seen: bool, budget: nat)
    requires budget == 0 || at + 12 > |file|
    ensures !WalkOk(file, at, seen, budget)
  {
  }

  /** Read a chunk's data in bounded pieces, feeding each to the register. */
  method StreamCrc(file: Bytes, table: array<bv32>, start: bv32, at: nat, length: nat) returns (crc: bv32)
    requires IsTable(table[..]) && at + length <= |file|
    ensures crc == FeedBytes(start, file[at..at + length])
  {
    hide IsTable, FeedBytes;
    crc := start;
    var position := 0;
    FeedNothing(start, file, at);
    while position < length
      invariant position <= length && crc == FeedBytes(start, file[at..at + position])
    {
      var wanted := if PIECE < length - position then PIECE else length - position;
      var piece := file[at + position..at + position + wanted];
      FeedConcat(start, file[at..at + position], piece);
      assert file[at..at + position] + piece == file[at..at + position + wanted];
      crc := CrcUpdate(table, crc, piece);
      position := position + wanted;
    }
  }

  lemma KindThenData(file: Bytes, at: nat, length: nat)
    requires at + 8 + length <= |file|
    ensures FeedBytes(FeedBytes(ONES, file[at + 4..at + 8]), file[at + 8..at + 8 + length])
         == FeedBytes(ONES, file[at + 4..at + 8 + length])
  {
    hide FeedBytes;
    FeedConcat(ONES, file[at + 4..at + 8], file[at + 8..at + 8 + length]);
    assert file[at + 4..at + 8] + file[at + 8..at + 8 + length] == file[at + 4..at + 8 + length];
  }

  lemma FeedNothing(crc: bv32, file: Bytes, at: nat)
    requires at <= |file|
    ensures FeedBytes(crc, file[at..at]) == crc
  {
  }

  /** The check of a file read in pieces: the same, for at most 100,000 chunks. */
  method PngChunksStreamed(file: Bytes, table: array<bv32>) returns (ok: bool)
    requires IsTable(table[..])
    ensures ok <==> exists chunks :: Decomposes(file, 8, false, chunks) && |chunks| <= 100_000
  {
    hide WalkOk, Decomposes, ReadLength, ReadWord, FeedBytes, IsTable, BytesOf, Complete, ChunkOk;
    ghost var goal := WalkOk(file, SIGNATURE_SIZE, false, MAX_CHUNKS);
    WalkMeaning(file, SIGNATURE_SIZE, false, MAX_CHUNKS);
    var offset, hasData, count := SIGNATURE_SIZE, false, 0;
    while count < MAX_CHUNKS && offset + 12 <= |file|
      invariant offset >= 0 && 0 <= count <= MAX_CHUNKS && goal == WalkOk(file, offset, hasData, MAX_CHUNKS - count)
    {
      WalkStep(file, offset, hasData, MAX_CHUNKS - count);
      var length := ReadLength(file[offset..offset + 4]);
      var kind := file[offset + 4..offset + 8];
      if offset + 12 + length > |file| {
        return false;
      }
      var crc := CrcUpdate(table, ONES, kind);
      crc := StreamCrc(file, table, crc, offset + 8, length);
      KindThenData(file, offset, length);
      if crc ^ ONES != ReadWord(file[offset + 8 + length..offset + 12 + length]) {
        return false;
      }
      if kind == IDAT && length > 0 {
        hasData := true;
      }
      offset, count := offset + 12 + length, count + 1;
      if kind == IEND {
        return hasData && length == 0 && offset == |file|;
      }
    }
    WalkShort(file, offset, hasData, MAX_CHUNKS - count);
    return false;
  }

  /** Streaming never accepts what the in-memory walk would refuse, and refuses more only past its chunk limit. */
  lemma ChecksAgree(file: Bytes)
    ensures WalkOk(file, SIGNATURE_SIZE, false, MAX_CHUNKS) ==>
              exists chunks :: Decomposes(file, SIGNATURE_SIZE, false, chunks)
    ensures forall chunks | Decomposes(file, SIGNATURE_SIZE, false, chunks) && |chunks| <= MAX_CHUNKS ::
              WalkOk(file, SIGNATURE_SIZE, false, MAX_CHUNKS)
    ensures forall a, b | Decomposes(file, SIGNATURE_SIZE, false, a) && Decomposes(file, SIGNATURE_SIZE, false, b) ::
              a == b
  {
    WalkMeaning(file, SIGNATURE_SIZE, false, MAX_CHUNKS);
    forall a, b | Decomposes(file, SIGNATURE_SIZE, false, a) && Decomposes(file, SIGNATURE_SIZE, false, b)
      ensures a == b
    {
      RunUnique(file, SIGNATURE_SIZE, false, a, b);
    }
  }

  /** A file is a complete run of chunks in at most one way. */
  lemma {:induction false} RunUnique(file: Bytes, at: nat, seen: bool, a: seq<Chunk>, b: seq<Chunk>)
    requires Decomposes(file, at, seen, a) && Decomposes(file, at, seen, b)
    ensures a == b
    decreases |a|
  {
    hide ChunkOk, ReadLength, Complete, ChunkAt, ChunkFits;
    NotEmpty(a, seen);
    NotEmpty(b, seen);
    RunHead(file, at, seen, a);
    RunHead(file, at, seen, b);
    assert a == [a[0]] + a[1..] && b == [b[0]] + b[1..];
    if a[0].kind != IEND {
      RunUnique(file, at + 12 + |a[0].data|, seen || HoldsData(a[0]), a[1..], b[1..]);
    }
  }

  lemma RunHead(file: Bytes, at: nat, seen: bool, chunks: seq<Chunk>)
    requires Decomposes(file, at, seen, chunks) && chunks != []
    ensures ChunkFits(file, at) && chunks[0] == ChunkAt(file, at)
    ensures if chunks[0].kind == IEND then chunks[1..] == []
            else Decomposes(file, at + 12 + |chunks[0].data|, seen || HoldsData(chunks[0]), chunks[1..])
  {
    hide ChunkOk, ReadLength, Complete, ChunkAt, ChunkFits;
    var c, rest := chunks[0], chunks[1..];
    assert chunks == [c] + rest;
    CompleteHead(c, rest, seen);
    assert BytesOf(chunks) == Flat(c) + BytesOf(rest);
    ReadsHead(file, at, c, BytesOf(rest));
    FitsWithin(file, at);
  }

  lemma FitsWithin(file: Bytes, at: nat)
    requires ChunkFits(file, at)
    ensures at + 12 + |ChunkAt(file, at).data| <= |file|
  {
  }
}

/** The slice-by-eight CRC32C of `src/checksum.rs`, proved equal to the bit-at-a-time register. */
module Crc32c {
  import opened Iteration
  import opened Register
  import opened Lfsr
  import opened Bytes

  /** The reference: the register after reading every bit of `data`. */
  function Reading(crc: bv32, data: seq<bv8>): bv32 { Feed(CRC, crc, Bits(data)) }

  const ONES: bv32 := 0xffff_ffff

  /** The checksum the reference assigns to `data`. */
  function Checksum(data: seq<bv8>): bv32 { Complement(Reading(ONES, data)) }

  function Complement(w: bv32): bv32 { w ^ ONES }

  lemma ReadingAppend(crc: bv32, x: seq<bv8>, y: seq<bv8>)
    ensures Reading(crc, x + y) == Reading(Reading(crc, x), y)
  {
    BitsAppend(x, y);
    FeedAppend(CRC, crc, Bits(x), Bits(y));
  }

  // ---------- Tables ----------

  /** What table `k` holds for byte `b`: the byte after `8 * (k + 1)` clocks without input. */
  function Entry(k: nat, b: bv8): bv32 { Clocked(CRC, Widen(b), 8 * (k + 1)) }

  function EntryAt(k: nat, n: nat): bv32
    requires n < 256
  {
    Entry(k, n as bv8)
  }

  const TABLES: seq<seq<bv32>> := seq(8, k requires 0 <= k < 8 => seq(256, n requires 0 <= n < 256 => EntryAt(k, n)))

  lemma ByteOfIndex(b: bv8)
    ensures 0 <= b as int < 256 && (b as int) as bv8 == b
  {
  }

  lemma TableAt(k: nat, b: bv8)
    requires k < 8
    ensures 0 <= b as int < 256 && TABLES[k][b as int] == Entry(k, b)
  {
    ByteOfIndex(b);
  }

  lemma DropWidened(b: bv8)
    ensures DropByte(Widen(b)) == 0 && LowByte(Widen(b)) == b
  {
  }

  /** Eight clocks read the low byte and shift the rest down. */
  lemma ClockByte(crc: bv32)
    ensures Clocked(CRC, crc, 8) == Xor(Entry(0, LowByte(crc)), DropByte(crc))
  {
    var b := LowByte(crc);
    CrcClockedWord(0, crc, 8);
    CrcClockedWord(0, Widen(b), 8);
    LowEight(crc);
    LowEight(Widen(b));
    HalveByte(crc);
    HalveByte(Widen(b));
    DropWidened(b);
    var read := Feed(CRC, 0, ByteBits(b));
    XorZero(crc);
    XorZero(Widen(b));
    XorZero(read);
  }

  /** Each table extends the previous one by one byte position. */
  lemma EntryExtends(k: nat, b: bv8)
    ensures Entry(k + 1, b) == Xor(DropByte(Entry(k, b)), Entry(0, LowByte(Entry(k, b))))
  {
    ClockedAdd(CRC, Widen(b), 8 * (k + 1), 8);
    ClockByte(Entry(k, b));
    XorCommutes(DropByte(Entry(k, b)), Entry(0, LowByte(Entry(k, b))));
  }

  lemma EntryAtExtends(k: nat, n: nat)
    requires n < 256
    ensures EntryAt(k + 1, n) == Xor(DropByte(EntryAt(k, n)), EntryAt(0, Ordinal(LowByte(EntryAt(k, n)))))
  {
    EntryExtends(k, n as bv8);
    ByteOfIndex(LowByte(EntryAt(k, n)));
  }

  /** The bit loop of `generate_tables`. */
  method EightClocks(start: bv32) returns (crc: bv32)
    ensures crc == Clocked(CRC, start, 8)
  {
    crc := start;
    var bit := 0;
    while bit < 8
      invariant 0 <= bit <= 8
      invariant Clocked(CRC, crc, 8 - bit) == Clocked(CRC, start, 8)
    {
      crc := Step(crc);
      bit := bit + 1;
    }
  }

  method Extended(prev: bv32, low: bv32, ghost k: nat, ghost n: nat) returns (next: bv32)
    requires n < 256 && prev == EntryAt(k, n) && low == EntryAt(0, Ordinal(LowByte(prev)))
    ensures next == EntryAt(k + 1, n)
  {
    EntryAtExtends(k, n);
    next := Xor(DropByte(prev), low);
  }

  ghost predicate FirstEntries(row: seq<bv32>) {
    |row| == 256 && forall n {:trigger EntryAt(0, n)} :: 0 <= n < 256 ==> row[n] == EntryAt(0, n)
  }

  method FirstEntry(n: nat, ghost row: seq<bv32>) returns (crc: bv32)
    requires n < 256 && FirstEntries(row)
    ensures crc == row[n]
  {
    crc := EightClocks(Widen(n as bv8));
    assert crc == EntryAt(0, n);
  }

  /** The first pair of loops: the row of single bytes. */
  method FirstRow(tables: array2<bv32>, ghost row: seq<bv32>)
    requires tables.Length0 == 8 && tables.Length1 == 256 && FirstEntries(row)
    modifies tables
    ensures forall j :: 0 <= j < 256 ==> tables[0, j] == row[j]
  {
    var n := 0;
    while n < 256
      invariant 0 <= n <= 256
      invariant forall j :: 0 <= j < n ==> tables[0, j] == row[j]
    {
      var crc := FirstEntry(n, row);
      tables[0, n] := crc;
      n := n + 1;
    }
  }

  /** The second pair of loops: one row from the row before it. */
  method ExtendRow(tables: array2<bv32>, slice: nat)
    requires tables.Length0 == 8 && tables.Length1 == 256 && 1 <= slice < 8
    requires forall k, j :: 0 <= k < slice && 0 <= j < 256 ==> tables[k, j] == EntryAt(k, j)
    modifies tables
    ensures forall k, j :: 0 <= k <= slice && 0 <= j < 256 ==> tables[k, j] == EntryAt(k, j)
  {
    var i := 0;
    while i < 256
      invariant 0 <= i <= 256
      invariant forall k, j :: 0 <= k < slice && 0 <= j < 256 ==> tables[k, j] == EntryAt(k, j)
      invariant forall j :: 0 <= j < i ==> tables[slice, j] == EntryAt(slice, j)
    {
      var prev := tables[slice - 1, i];
      var low := tables[0, Ordinal(LowByte(prev))];
      var next := Extended(prev, low, slice - 1, i);
      tables[slice, i] := next;
      i := i + 1;
    }
  }

  lemma TablesEntry(k: nat, n: nat)
    requires k < 8 && n < 256
    ensures TABLES[k][n] == EntryAt(k, n)
  {
  }

  /** `generate_tables`: the loops produce exactly `TABLES`. */
  method GenerateTables() returns (tables: array2<bv32>)
    ensures fresh(tables) && tables.Length0 == 8 && tables.Length1 == 256
    ensures forall k, n :: 0 <= k < 8 && 0 <= n < 256 ==> tables[k, n] == TABLES[k][n]
  {
    tables := new bv32[8, 256];
    ghost var row := seq(256, n requires 0 <= n < 256 => EntryAt(0, n));
    FirstRow(tables, row);
    forall j | 0 <= j < 256 ensures tables[0, j] == EntryAt(0, j) { assert tables[0, j] == row[j]; }
    var slice := 1;
    while slice < 8
      invariant 1 <= slice <= 8
      invariant forall k, j :: 0 <= k < slice && 0 <= j < 256 ==> tables[k, j] == EntryAt(k, j)
    {
      ExtendRow(tables, slice);
      slice := slice + 1;
    }
    forall k, j | 0 <= k < 8 && 0 <= j < 256 ensures tables[k, j] == TABLES[k][j] { TablesEntry(k, j); }
  }

  // ---------- One byte, eight bytes ----------

  /** Reading a byte is mixing it in and clocking eight times. */
  lemma ReadByte(crc: bv32, b: bv8)
    ensures Feed(CRC, crc, ByteBits(b)) == Clocked(CRC, Xor(crc, Widen(b)), 8)
  {
    CrcClockedWord(crc, Widen(b), 8);
    HalveByte(Widen(b));
    LowEight(Widen(b));
    DropWidened(b);
    XorZero(Feed(CRC, crc, ByteBits(b)));
  }

  /** Reading four bytes is mixing them in as a little-endian word and clocking 32 times. */
  lemma ReadWord(crc: bv32, b0: bv8, b1: bv8, b2: bv8, b3: bv8)
    ensures Reading(crc, [b0, b1, b2, b3]) == Clocked(CRC, Xor(crc, FromLe32(b0, b1, b2, b3)), 32)
  {
    var w := FromLe32(b0, b1, b2, b3);
    CrcClockedWord(crc, w, 32);
    HalveWord(w);
    WordBitsOfBytes(b0, b1, b2, b3);
    XorZero(Feed(CRC, crc, WordBits(w)));
  }

  /** The remainder step of the table loop. */
  function ByteStep(crc: bv32, b: bv8): bv32 {
    Xor(DropByte(crc), Entry(0, LowByte(Xor(crc, Widen(b)))))
  }

  lemma DropMixed(crc: bv32, b: bv8)
    ensures DropByte(Xor(crc, Widen(b))) == DropByte(crc)
  {
  }

  lemma ByteStepReads(crc: bv32, b: bv8)
    ensures ByteStep(crc, b) == Reading(crc, [b])
  {
    var mixed := Xor(crc, Widen(b));
    ReadByte(crc, b);
    ClockByte(mixed);
    DropMixed(crc, b);
    XorCommutes(DropByte(mixed), Entry(0, LowByte(mixed)));
    assert Bits([b]) == ByteBits(b);
  }

  /** Clocking a word past its own width is the exclusive or of one table entry per byte. */
  lemma SliceFour(w: bv32, k: nat)
    requires k + 3 < 8
    ensures Clocked(CRC, w, 8 * k + 32) ==
            Xor(Xor(Xor(Entry(k + 3, LowByte(w)), Entry(k + 2, Byte1(w))), Entry(k + 1, Byte2(w))), Entry(k, Byte3(w)))
  {
    var a := DropByte(w);
    var b := DropByte(a);
    var c := DropByte(b);
    BytesByDropping(w, a, b, c);
    ClockByte(w);
    ClockByte(a);
    ClockByte(b);
    ClockByte(c);
    SliceChain(w, a, b, c, LowByte(w), Byte1(w), Byte2(w), Byte3(w), k);
  }

  lemma CrcClockedSplit(w: bv32, x: bv32, d: bv32, m: nat)
    requires Clocked(CRC, w, 8) == CRC.xor(Clocked(CRC, x, 8), d)
    ensures Clocked(CRC, w, 8 + m) == CRC.xor(Clocked(CRC, x, 8 + m), Clocked(CRC, d, m))
  {
    CrcLinear();
    ClockedSplit(CRC, w, x, d, m);
  }

  lemma SliceByte(w: bv32, b: bv8, rest: bv32, k: nat)
    requires Clocked(CRC, w, 8) == Xor(Entry(0, b), rest)
    ensures Clocked(CRC, w, 8 * (k + 1)) == Xor(Entry(k, b), Clocked(CRC, rest, 8 * k))
  {
    CrcClockedSplit(w, Widen(b), rest, 8 * k);
  }

  lemma SliceChain(w: bv32, a: bv32, b: bv32, c: bv32, b0: bv8, b1: bv8, b2: bv8, b3: bv8, k: nat)
    requires Clocked(CRC, w, 8) == Xor(Entry(0, b0), a)
    requires Clocked(CRC, a, 8) == Xor(Entry(0, b1), b)
    requires Clocked(CRC, b, 8) == Xor(Entry(0, b2), c)
    requires Clocked(CRC, c, 8) == Xor(Entry(0, b3), 0)
    ensures Clocked(CRC, w, 8 * k + 32) == Xor(Xor(Xor(Entry(k + 3, b0), Entry(k + 2, b1)), Entry(k + 1, b2)), Entry(k, b3))
  {
    var e3, e2, e1, e0 := Entry(k + 3, b0), Entry(k + 2, b1), Entry(k + 1, b2), Entry(k, b3);
    SliceByte(w, b0, a, k + 3);
    SliceByte(a, b1, b, k + 2);
    SliceByte(b, b2, c, k + 1);
    SliceByte(c, b3, 0, k);
    ClockedZero(8 * k);
    XorZero(e0);
    XorAssoc(e2, e1, e0);
    XorAssoc(e3, Xor(e2, e1), e0);
    XorAssoc(e3, e2, e1);
  }

  /** The eight-byte step of the table loop, after `lo` has been mixed into the register as `crc`. */
  function SliceStep(crc: bv32, hi: bv32): bv32 {
    Xor(Xor(Xor(Xor(Xor(Xor(Xor(
      Entry(7, LowByte(crc)),
      Entry(6, Byte1(crc))),
      Entry(5, Byte2(crc))),
      Entry(4, Byte3(crc))),
      Entry(3, LowByte(hi))),
      Entry(2, Byte1(hi))),
      Entry(1, Byte2(hi))),
      Entry(0, Byte3(hi)))
  }

  lemma Regroup5(w: bv32, a: bv32, b: bv32, c: bv32, d: bv32)
    ensures Xor(w, Xor(Xor(Xor(a, b), c), d)) == Xor(Xor(Xor(Xor(w, a), b), c), d)
  {
    XorAssoc(w, Xor(Xor(a, b), c), d);
    XorAssoc(w, Xor(a, b), c);
    XorAssoc(w, a, b);
  }

  lemma SliceStepClocks(crc: bv32, hi: bv32)
    ensures SliceStep(crc, hi) == Xor(Clocked(CRC, crc, 64), Clocked(CRC, hi, 32))
  {
    SliceFour(crc, 4);
    SliceFour(hi, 0);
    Regroup5(Clocked(CRC, crc, 64), Entry(3, LowByte(hi)), Entry(2, Byte1(hi)), Entry(1, Byte2(hi)), Entry(0, Byte3(hi)));
  }

  lemma CrcMixHalfway(a: bv32, b: bv32)
    ensures Clocked(CRC, Xor(Clocked(CRC, a, 32), b), 32) == Xor(Clocked(CRC, a, 64), Clocked(CRC, b, 32))
  {
    CrcLinear();
    MixHalfway(CRC, a, b, 32);
  }

  /** One eight-byte step of the table loop reads the eight bytes. */
  lemma SliceStepReads(crc: bv32, d: seq<bv8>)
    requires |d| == 8
    ensures SliceStep(Xor(crc, FromLe32(d[0], d[1], d[2], d[3])), FromLe32(d[4], d[5], d[6], d[7])) == Reading(crc, d)
  {
    var front, back := [d[0], d[1], d[2], d[3]], [d[4], d[5], d[6], d[7]];
    var mixed := Xor(crc, FromLe32(d[0], d[1], d[2], d[3]));
    var hi := FromLe32(d[4], d[5], d[6], d[7]);
    assert d == front + back;
    ReadingAppend(crc, front, back);
    ReadWord(crc, d[0], d[1], d[2], d[3]);
    ReadWord(Clocked(CRC, mixed, 32), d[4], d[5], d[6], d[7]);
    SliceStepClocks(mixed, hi);
    CrcMixHalfway(mixed, hi);
  }

  // ---------- The standard's check value ----------

  function FourSteps(w: bv32): bv32 { Step(Step(Step(Step(w)))) }

  lemma EightSteps(w: bv32)
    ensures Clocked(CRC, w, 8) == FourSteps(FourSteps(w))
  {
    IterAdd(Step, w, 4, 4);
    IterFour(Step, w);
    IterFour(Step, FourSteps(w));
  }

  lemma ReadNext(crc: bv32, b: bv8, next: bv32, rest: seq<bv8>)
    requires next == FourSteps(FourSteps(Xor(crc, Widen(b))))
    ensures Reading(crc, [b] + rest) == Reading(next, rest)
  {
    ReadingAppend(crc, [b], rest);
    ReadByte(crc, b);
    EightSteps(Xor(crc, Widen(b)));
    assert Bits([b]) == ByteBits(b);
  }

  /** The test vector "123456789". */
  lemma CheckValue()
    ensures Checksum([0x31, 0x32, 0x33, 0x34, 0x35, 0x36, 0x37, 0x38, 0x39]) == 0xe306_9283
  {
    ReadNext(0xffff_ffff, 0x31, 0x6f0a_661c, [0x32, 0x33, 0x34, 0x35, 0x36, 0x37, 0x38, 0x39]);
    ReadNext(0x6f0a_661c, 0x32, 0x8caa_3b9f, [0x33, 0x34, 0x35, 0x36, 0x37, 0x38, 0x39]);
    ReadNext(0x8caa_3b9f, 0x33, 0xef84_d04d, [0x34, 0x35, 0x36, 0x37, 0x38, 0x39]);
    ReadNext(0xef84_d04d, 0x34, 0x09c5_0b11, [0x35, 0x36, 0x37, 0x38, 0x39]);
    ReadNext(0x09c5_0b11, 0x35, 0xe72e_dcca, [0x36, 0x37, 0x38, 0x39]);
    ReadNext(0xe72e_dcca, 0x36, 0xbeca_8e79, [0x37, 0x38, 0x39]);
    ReadNext(0xbeca_8e79, 0x37, 0xedbd_6815, [0x38, 0x39]);
    ReadNext(0xedbd_6815, 0x38, 0x9f78_7f65, [0x39]);
    ReadNext(0x9f78_7f65, 0x39, 0x1cf9_6d7c, []);
  }

  // ---------- The loops ----------

  method LookUpByte(crc: bv32, b: bv8) returns (r: bv32)
    ensures r == ByteStep(crc, b)
  {
    var t0 := LookUp(0, LowByte(Xor(crc, Widen(b))));
    r := Xor(DropByte(crc), t0);
  }

  method LookUp(k: nat, b: bv8) returns (r: bv32)
    requires k < 8
    ensures r == Entry(k, b)
  {
    TableAt(k, b);
    r := TABLES[k][b as int];
  }

  method LookUpEight(crc: bv32, hi: bv32) returns (r: bv32)
    ensures r == SliceStep(crc, hi)
  {
    var t7 := LookUp(7, LowByte(crc));
    var t6 := LookUp(6, Byte1(crc));
    var t5 := LookUp(5, Byte2(crc));
    var t4 := LookUp(4, Byte3(crc));
    var t3 := LookUp(3, LowByte(hi));
    var t2 := LookUp(2, Byte1(hi));
    var t1 := LookUp(1, Byte2(hi));
    var t0 := LookUp(0, Byte3(hi));
    r := Xor(Xor(Xor(Xor(Xor(Xor(Xor(t7, t6), t5), t4), t3), t2), t1), t0);
  }

  /** `process`: eight bytes at a time, then the remainder byte by byte. */
  method Process(init: bv32, data: seq<bv8>) returns (crc: bv32)
    ensures crc == Reading(init, data)
  {
    crc := init;
    var i := 0;
    assert data[..0] == [];
    while i + 8 <= |data|
      invariant 0 <= i <= |data|
      invariant crc == Reading(init, data[..i])
    {
      var chunk := data[i..i + 8];
      var lo := FromLe32(chunk[0], chunk[1], chunk[2], chunk[3]);
      var hi := FromLe32(chunk[4], chunk[5], chunk[6], chunk[7]);
      SliceStepReads(crc, chunk);
      ReadingAppend(init, data[..i], chunk);
      assert data[..i] + chunk == data[..i + 8];
      crc := LookUpEight(Xor(crc, lo), hi);
      i := i + 8;
    }
    while i < |data|
      invariant 0 <= i <= |data|
      invariant crc == Reading(init, data[..i])
    {
      ByteStepReads(crc, data[i]);
      ReadingAppend(init, data[..i], [data[i]]);
      assert data[..i] + [data[i]] == data[..i + 1];
      crc := LookUpByte(crc, data[i]);
      i := i + 1;
    }
    assert data[..|data|] == data;
  }

  /** The streaming accumulator. */
  class Accumulator {
    var state: bv32

    constructor ()
      ensures state == Reading(ONES, [])
    {
      state := ONES;
    }

    /** Feeding ranges one after another reads their concatenation. */
    method Update(ghost seen: seq<bv8>, data: seq<bv8>)
      requires state == Reading(ONES, seen)
      modifies this
      ensures state == Reading(ONES, seen + data)
    {
      state := Process(state, data);
      ReadingAppend(ONES, seen, data);
    }

    method Finalize(ghost seen: seq<bv8>) returns (crc: bv32)
      requires state == Reading(ONES, seen)
      ensures crc == Checksum(seen)
    {
      crc := Complement(state);
    }
  }

  /** The one-shot form. */
  method OneShot(data: seq<bv8>) returns (crc: bv32)
    ensures crc == Checksum(data)
  {
    var h := new Accumulator();
    h.Update([], data);
    assert [] + data == data;
    crc := h.Finalize(data);
  }

  function Concat(parts: seq<seq<bv8>>): seq<bv8>
    decreases |parts|
  {
    if parts == [] then [] else Concat(parts[..|parts| - 1]) + parts[|parts| - 1]
  }

  /** One part is itself, and joining two lists of parts joins what they make up: concatenation in order. */
  lemma {:induction false} ConcatJoins(a: seq<seq<bv8>>, b: seq<seq<bv8>>, x: seq<bv8>)
    ensures Concat([x]) == x && Concat(a + b) == Concat(a) + Concat(b)
    decreases |b|
  {
    assert [x][..0] == [];
    if b == [] {
      assert a + b == a;
    } else {
      var c := b[..|b| - 1];
      ConcatJoins(a, c, x);
      assert (a + b)[..|a + b| - 1] == a + c;
    }
  }

  /** Any split of the data over any number of updates gives the one-shot checksum. */
  method Streamed(parts: seq<seq<bv8>>) returns (crc: bv32)
    ensures crc == Checksum(Concat(parts))
  {
    var h := new Accumulator();
    var i := 0;
    while i < |parts|
      invariant 0 <= i <= |parts|
      invariant h.state == Reading(ONES, Concat(parts[..i]))
    {
      h.Update(Concat(parts[..i]), parts[i]);
      assert parts[..i + 1][..i] == parts[..i];
      i := i + 1;
    }
    assert parts[..|parts|] == parts;
    crc := h.Finalize(Concat(parts));
  }
}

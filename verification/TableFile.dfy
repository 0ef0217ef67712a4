/** The layout of a write-once table file: header, blocks, index. */
module TableFile {
  import opened Bytes
  import opened Table
  import opened Block
  import opened Index

  const MAGIC: nat := 0x6c62_6174_2e69_2e70
  const MAJOR_VERSION: nat := 4
  const MINOR_VERSION: nat := 0

  /** The compressor is foreign code: any pair of functions that keeps these two promises. */
  datatype Zstd = Zstd(compress: Bytes -> Bytes, decompress: Bytes -> Bytes) {
    ghost predicate Valid() {
      && (forall b :: decompress(compress(b)) == b)
      && (forall b :: |compress(b)| <= |b| + |b| / 0x100 + 64)
    }
  }

  datatype Format = Format(seekable: bool, compressed: bool, zstd: Zstd)

  datatype Header = Header(magic: nat, majorVersion: nat, minorVersion: nat, flags: nat, compression: nat,
                           reserved: nat, indexOffset: nat)
  {
    predicate InRange() {
      && magic < 0x1_0000_0000_0000_0000 && majorVersion < 0x100 && minorVersion < 0x100 && flags < 0x100
      && compression < 0x100 && reserved < 0x1_0000_0000 && indexOffset < 0x1_0000_0000_0000_0000
    }
  }

  function HeaderBytes(h: Header): (r: Bytes)
    ensures |r| == HEADER_SIZE
  {
    LittleEndian(h.magic, 8) + LittleEndian(h.majorVersion, 1) + LittleEndian(h.minorVersion, 1)
    + LittleEndian(h.flags, 1) + LittleEndian(h.compression, 1) + LittleEndian(h.reserved, 4)
    + LittleEndian(h.indexOffset, 8)
  }

  function ReadHeader(file: Bytes): Option<Header> {
    if |file| < HEADER_SIZE then None
    else Some(Header(FromLittleEndian(file[0..8]), FromLittleEndian(file[8..9]), FromLittleEndian(file[9..10]),
                     FromLittleEndian(file[10..11]), FromLittleEndian(file[11..12]), FromLittleEndian(file[12..16]),
                     FromLittleEndian(file[16..24])))
  }

  lemma HeaderRoundTrip(h: Header, rest: Bytes)
    requires h.InRange()
    ensures ReadHeader(HeaderBytes(h) + rest) == Some(h)
  {
    var file := HeaderBytes(h) + rest;
    hide FromLittleEndian, LittleEndian;
    FieldWidths();
    LittleEndianRoundTrip(h.magic, 8);
    LittleEndianRoundTrip(h.majorVersion, 1);
    LittleEndianRoundTrip(h.minorVersion, 1);
    LittleEndianRoundTrip(h.flags, 1);
    LittleEndianRoundTrip(h.compression, 1);
    LittleEndianRoundTrip(h.reserved, 4);
    LittleEndianRoundTrip(h.indexOffset, 8);
    assert file[0..8] == LittleEndian(h.magic, 8);
    assert file[8..9] == LittleEndian(h.majorVersion, 1);
    assert file[9..10] == LittleEndian(h.minorVersion, 1);
    assert file[10..11] == LittleEndian(h.flags, 1);
    assert file[11..12] == LittleEndian(h.compression, 1);
    assert file[12..16] == LittleEndian(h.reserved, 4);
    assert file[16..24] == LittleEndian(h.indexOffset, 8);
  }

  function FormatHeader(f: Format, indexOffset: nat): Header {
    Header(MAGIC, MAJOR_VERSION, MINOR_VERSION, if f.seekable then 1 else 0, if f.compressed then 1 else 0, 0,
           indexOffset)
  }

  /** The bytes that a block takes in the file. Seekable blocks are never compressed. */
  function Stored(rows: seq<Row>, f: Format): Bytes {
    if f.compressed && !f.seekable then f.zstd.compress(Marshalled(rows, f.seekable)) else Marshalled(rows, f.seekable)
  }

  function StoredBlocks(blocks: seq<seq<Row>>, f: Format): (r: seq<Bytes>)
    ensures |r| == |blocks|
  {
    seq(|blocks|, i requires 0 <= i < |blocks| => Stored(blocks[i], f))
  }

  function Counts(blocks: seq<seq<Row>>): (r: seq<nat>)
    ensures |r| == |blocks|
  {
    seq(|blocks|, i requires 0 <= i < |blocks| => |blocks[i]|)
  }

  ghost predicate NoEmptyBlock(blocks: seq<seq<Row>>) {
    forall i :: 0 <= i < |blocks| ==> blocks[i] != []
  }

  function LastKeys(blocks: seq<seq<Row>>): (r: seq<Bytes>)
    requires NoEmptyBlock(blocks)
    ensures |r| == |blocks|
  {
    seq(|blocks|, i requires 0 <= i < |blocks| => var b := blocks[i]; b[|b| - 1].key)
  }

  function StoredIndex(blocks: seq<seq<Row>>, f: Format): Bytes
    requires NoEmptyBlock(blocks)
  {
    var code := IndexBytes(Sizes(StoredBlocks(blocks, f)), Counts(blocks), LastKeys(blocks));
    if f.compressed then f.zstd.compress(code) else code
  }

  function IndexOffset(blocks: seq<seq<Row>>, f: Format): nat {
    HEADER_SIZE + |Concat(StoredBlocks(blocks, f))|
  }

  /** The whole file. */
  function FileBytes(blocks: seq<seq<Row>>, f: Format): Bytes
    requires NoEmptyBlock(blocks)
  {
    HeaderBytes(FormatHeader(f, IndexOffset(blocks, f))) + Concat(StoredBlocks(blocks, f)) + StoredIndex(blocks, f)
  }

  /** The index fields tell of these blocks. */
  ghost predicate Describes(index: WriteOnceIndex, blocks: seq<seq<Row>>, f: Format)
    reads index
  {
    && index.Valid()
    && NoEmptyBlock(blocks)
    && index.size == Sizes(StoredBlocks(blocks, f))
    && index.numEntries == Counts(blocks)
    && index.lastKeys == LastKeys(blocks)
  }

  /** Whether `blocks` is a way to store `rows` that a file can hold. */
  ghost predicate Holds(blocks: seq<seq<Row>>, rows: seq<Row>, f: Format) {
    && f.zstd.Valid()
    && blocks != [] && NoEmptyBlock(blocks)
    && Concat(blocks) == rows && Sorted(rows) && AllNarrow(rows)
    && |rows| < 0xFFFF_FFFF_FFFF_FFFF
    && IndexOffset(blocks, f) < 0x8000_0000_0000_0000
  }

  /** The number of rows before block `b`. */
  ghost function Start(blocks: seq<seq<Row>>, b: nat): nat
    requires b <= |blocks|
  {
    |Concat(blocks[..b])|
  }

  lemma FirstStart(blocks: seq<seq<Row>>)
    ensures Start(blocks, 0) == 0
  {
    assert blocks[..0] == [];
  }

  /** Entry `e` of block `b` in the flat list of rows. */
  lemma RowOfEntry(blocks: seq<seq<Row>>, b: nat)
    requires b < |blocks|
    ensures Start(blocks, b + 1) == Start(blocks, b) + |blocks[b]| <= |Concat(blocks)|
    ensures forall e :: 0 <= e < |blocks[b]| ==> Concat(blocks)[Start(blocks, b) + e] == blocks[b][e]
  {
    hide Concat;
    ConcatAt(blocks, b);
    forall e | 0 <= e < |blocks[b]| ensures Concat(blocks)[Start(blocks, b) + e] == blocks[b][e] {
      assert Concat(blocks)[Start(blocks, b)..Start(blocks, b) + |blocks[b]|][e] == blocks[b][e];
    }
  }

  lemma {:induction false} StartMonotone(blocks: seq<seq<Row>>, a: nat, b: nat)
    requires a <= b <= |blocks|
    ensures Start(blocks, a) <= Start(blocks, b) <= |Concat(blocks)|
    ensures NoEmptyBlock(blocks) ==> b - a <= Start(blocks, b) - Start(blocks, a)
    decreases b - a
  {
    assert blocks[..|blocks|] == blocks;
    if b < |blocks| {
      RowOfEntry(blocks, b);
    }
    if a < b {
      RowOfEntry(blocks, a);
      StartMonotone(blocks, a + 1, b);
    }
  }

  /** Rows of the same or of a later block come in key order. */
  lemma EntriesAreOrdered(blocks: seq<seq<Row>>, a: nat, i: nat, b: nat, j: nat)
    requires Sorted(Concat(blocks))
    requires a <= b < |blocks| && i < |blocks[a]| && j < |blocks[b]|
    requires a < b || i < j
    ensures Leq(blocks[a][i].key, blocks[b][j].key)
  {
    hide Concat;
    RowOfEntry(blocks, a);
    RowOfEntry(blocks, b);
    if a < b {
      StartMonotone(blocks, a + 1, b);
    }
    var rows := Concat(blocks);
    var p, q := Start(blocks, a) + i, Start(blocks, b) + j;
    assert Leq(Keys(rows)[p], Keys(rows)[q]);
  }

  lemma BlockIsNarrow(blocks: seq<seq<Row>>, b: nat)
    requires AllNarrow(Concat(blocks)) && b < |blocks|
    ensures AllNarrow(blocks[b])
  {
    hide Concat, Narrow;
    RowOfEntry(blocks, b);
    forall row | row in blocks[b] ensures Narrow(row) {
      var e :| 0 <= e < |blocks[b]| && blocks[b][e] == row;
      assert Concat(blocks)[Start(blocks, b) + e] == row;
    }
  }

  /** A block of a sorted table is sorted. */
  lemma BlockIsSorted(blocks: seq<seq<Row>>, b: nat)
    requires Sorted(Concat(blocks)) && b < |blocks|
    ensures Sorted(blocks[b])
  {
    var keys := Keys(blocks[b]);
    forall i, j | 0 <= i < j < |keys| ensures Leq(keys[i], keys[j]) {
      EntriesAreOrdered(blocks, b, i, b, j);
    }
  }

  lemma LastKeysAreSorted(blocks: seq<seq<Row>>)
    requires NoEmptyBlock(blocks) && Sorted(Concat(blocks))
    ensures SortedKeys(LastKeys(blocks))
  {
    var keys := LastKeys(blocks);
    forall a, b | 0 <= a < b < |keys| ensures Leq(keys[a], keys[b]) {
      EntriesAreOrdered(blocks, a, |blocks[a]| - 1, b, |blocks[b]| - 1);
    }
  }

  /** In a sorted list it is enough to look at the keys on both sides of a place. */
  lemma LowerBoundFromNeighbours(keys: seq<Bytes>, key: Bytes, p: nat)
    requires SortedKeys(keys) && p <= |keys|
    requires p < |keys| ==> Leq(key, keys[p])
    requires 0 < p ==> Less(keys[p - 1], key)
    ensures IsLowerBound(keys, key, p)
  {
    forall i | p <= i < |keys| ensures Leq(key, keys[i]) {
      if p < i {
        LeqTransitive(key, keys[p], keys[i]);
      }
    }
    forall i | 0 <= i < p ensures Less(keys[i], key) {
      if i < p - 1 {
        LessTrichotomy(keys[p - 1], key);
        LeqTransitive(keys[i], keys[p - 1], key);
      }
    }
  }

  lemma EntryIsInBlock(blocks: seq<seq<Row>>, key: Bytes, b: nat, e: nat)
    requires NoEmptyBlock(blocks) && b < |blocks|
    requires IsLowerBound(LastKeys(blocks), key, b) && IsLowerBound(Keys(blocks[b]), key, e)
    ensures e < |blocks[b]| && Leq(key, blocks[b][e].key)
  {
    var last := |blocks[b]| - 1;
    assert Leq(key, LastKeys(blocks)[b]);
    assert Keys(blocks[b])[last] == LastKeys(blocks)[b];
    assert Leq(key, Keys(blocks[b])[e]);
  }

  lemma RowBeforeEntry(blocks: seq<seq<Row>>, key: Bytes, b: nat, e: nat)
    requires NoEmptyBlock(blocks) && b < |blocks| && e < |blocks[b]|
    requires IsLowerBound(LastKeys(blocks), key, b) && IsLowerBound(Keys(blocks[b]), key, e)
    ensures var p := Start(blocks, b) + e; 0 < p <= |Concat(blocks)| ==> Less(Concat(blocks)[p - 1].key, key)
  {
    hide Concat;
    if 0 < e {
      RowOfEntry(blocks, b);
      assert Less(Keys(blocks[b])[e - 1], key);
      assert Concat(blocks)[Start(blocks, b) + (e - 1)] == blocks[b][e - 1];
    } else if 0 < b {
      RowOfEntry(blocks, b - 1);
      assert Less(LastKeys(blocks)[b - 1], key);
      assert Concat(blocks)[Start(blocks, b - 1) + (|blocks[b - 1]| - 1)] == blocks[b - 1][|blocks[b - 1]| - 1];
    } else {
      FirstStart(blocks);
    }
  }

  /** The lower bound within the right block is the lower bound in the whole table, even when
      equal keys span blocks. */
  lemma TwoLevelLowerBound(blocks: seq<seq<Row>>, key: Bytes, b: nat, e: nat)
    requires NoEmptyBlock(blocks) && Sorted(Concat(blocks))
    requires b < |blocks|
    requires IsLowerBound(LastKeys(blocks), key, b) && IsLowerBound(Keys(blocks[b]), key, e)
    ensures e < |blocks[b]| && IsLowerBound(Keys(Concat(blocks)), key, Start(blocks, b) + e)
  {
    hide Concat;
    EntryIsInBlock(blocks, key, b, e);
    RowBeforeEntry(blocks, key, b, e);
    RowOfEntry(blocks, b);
    assert Concat(blocks)[Start(blocks, b) + e] == blocks[b][e];
    LowerBoundFromNeighbours(Keys(Concat(blocks)), key, Start(blocks, b) + e);
  }

  /** When every block ends below the key, so does the table. */
  lemma BeyondLastBlock(blocks: seq<seq<Row>>, key: Bytes)
    requires blocks != [] && NoEmptyBlock(blocks) && Sorted(Concat(blocks))
    requires IsLowerBound(LastKeys(blocks), key, |blocks|)
    ensures IsLowerBound(Keys(Concat(blocks)), key, |Concat(blocks)|)
  {
    hide Concat;
    var rows := Concat(blocks);
    var b := |blocks| - 1;
    assert Less(LastKeys(blocks)[b], key);
    RowOfEntry(blocks, b);
    assert blocks[..b + 1] == blocks;
    assert rows[|rows| - 1] == blocks[b][|blocks[b]| - 1];
    LowerBoundFromNeighbours(Keys(rows), key, |rows|);
  }
}

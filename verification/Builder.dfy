/** Writing a write-once table: rows come in key order and are cut into blocks. */
module Builder {
  import opened Bytes
  import opened Table
  import opened Varint
  import opened Block
  import opened Index
  import opened TableFile

  const BLOCK_SIZE_MAX: nat := 32 * 1024
  const ENTRY_SIZE_LIMIT: nat := BLOCK_SIZE_MAX - 4
  const BLOCK_SIZE_MIN: nat := 12 * 1024

  /** Whether the open block is closed before a row of `size` bytes comes. */
  predicate Closes(open: seq<Row>, size: nat) {
    Estimate(open) > BLOCK_SIZE_MAX || (Estimate(open) > BLOCK_SIZE_MIN && size > ENTRY_SIZE_LIMIT)
  }

  function RowSize(row: Row): nat {
    |row.key| + |row.value|
  }

  /** How rows are cut: the closed blocks, and the block that is still open. */
  function Cut(rows: seq<Row>): (seq<seq<Row>>, seq<Row>) {
    if rows == [] then ([], [])
    else
      var row := rows[|rows| - 1];
      var (closed, open) := Cut(rows[..|rows| - 1]);
      if Closes(open, RowSize(row)) then (closed + [open], [row]) else (closed, open + [row])
  }

  /** All blocks of a finished file. */
  function Blocks(rows: seq<Row>): seq<seq<Row>> {
    var (closed, open) := Cut(rows);
    if open == [] then closed else closed + [open]
  }

  /** Before a row the open block is closed when it is estimated at more than 32768 bytes, or at more than 12288
      bytes when the row takes more than 32764. */
  lemma CutMeaning(rows: seq<Row>, row: Row)
    ensures Cut([]) == ([], [])
    ensures var (closed, open) := Cut(rows);
            Cut(rows + [row]) ==
            if Estimate(open) > 32768 || (Estimate(open) > 12288 && |row.key| + |row.value| > 32764)
            then (closed + [open], [row])
            else (closed, open + [row])
  {
    hide Estimate;
    assert (rows + [row])[..|rows|] == rows;
  }

  lemma EmptyEstimate()
    ensures Estimate([]) == 0
  {
  }

  /** A block that the builder makes: it was not to be closed before its last row came. */
  predicate WellCut(block: seq<Row>) {
    block != [] && !Closes(block[..|block| - 1], RowSize(block[|block| - 1]))
  }

  lemma WellCutPush(open: seq<Row>, row: Row)
    ensures WellCut(open + [row]) <==> !Closes(open, RowSize(row))
  {
    assert (open + [row])[..|open|] == open;
  }

  /** The open block without its closed ones is the end of the rows. */
  lemma {:induction false} CutKeeps(rows: seq<Row>)
    ensures Concat(Cut(rows).0) + Cut(rows).1 == rows
    ensures forall block :: block in Cut(rows).0 ==> WellCut(block) && Estimate(block) > BLOCK_SIZE_MIN
    ensures if rows == [] then Cut(rows) == ([], []) else WellCut(Cut(rows).1)
  {
    hide Concat, Estimate, WellCut;
    if rows == [] {
      EmptyConcat();
    } else {
      var init, row := rows[..|rows| - 1], rows[|rows| - 1];
      CutKeeps(init);
      var (closed, open) := Cut(init);
      EmptyNeverCloses(RowSize(row));
      ConcatPush(closed, open);
      assert rows == init + [row];
      WellCutPush(open, row);
      WellCutPush([], row);
      assert [] + [row] == [row];
    }
  }

  lemma EmptyConcat()
    ensures Concat<Row>([]) == []
  {
  }

  lemma EmptyNeverCloses(size: nat)
    ensures !Closes([], size)
  {
    EmptyEstimate();
  }

  lemma CutPush(rows: seq<Row>, row: Row)
    ensures var (closed, open) := Cut(rows);
            Cut(rows + [row]) == if Closes(open, RowSize(row)) then (closed + [open], [row]) else (closed, open + [row])
  {
    assert (rows + [row])[..|rows|] == rows;
  }

  /** Cutting loses and reorders nothing, closes no block too late, and none but the last too early. */
  lemma BlocksAreCut(rows: seq<Row>)
    ensures Concat(Blocks(rows)) == rows
    ensures forall block :: block in Blocks(rows) ==> WellCut(block)
    ensures forall i :: 0 <= i < |Blocks(rows)| - 1 ==> Estimate(Blocks(rows)[i]) > BLOCK_SIZE_MIN
    ensures NoEmptyBlock(Blocks(rows)) && (Blocks(rows) == [] <==> rows == [])
  {
    hide Concat, Closes, Cut, Estimate;
    CutKeeps(rows);
    EmptyConcat();
    ConcatPush(Cut(rows).0, Cut(rows).1);
    assert forall i :: 0 <= i < |Blocks(rows)| ==> WellCut(Blocks(rows)[i]);
  }

  lemma BlocksPush(blocks: seq<seq<Row>>, rows: seq<Row>, f: Format)
    requires NoEmptyBlock(blocks) && rows != []
    ensures NoEmptyBlock(blocks + [rows])
    ensures StoredBlocks(blocks + [rows], f) == StoredBlocks(blocks, f) + [Stored(rows, f)]
    ensures Sizes(StoredBlocks(blocks + [rows], f)) == Sizes(StoredBlocks(blocks, f)) + [|Stored(rows, f)|]
    ensures Concat(StoredBlocks(blocks + [rows], f)) == Concat(StoredBlocks(blocks, f)) + Stored(rows, f)
    ensures Counts(blocks + [rows]) == Counts(blocks) + [|rows|]
    ensures LastKeys(blocks + [rows]) == LastKeys(blocks) + [rows[|rows| - 1].key]
    ensures Concat(blocks + [rows]) == Concat(blocks) + rows
  {
    hide Concat, Stored;
    assert StoredBlocks(blocks + [rows], f) == StoredBlocks(blocks, f) + [Stored(rows, f)];
    ConcatPush(StoredBlocks(blocks, f), Stored(rows, f));
    ConcatPush(blocks, rows);
  }

  /** The block sizes as the index keeps them, in 32 bits. */
  function WrittenSizes(blocks: seq<seq<Row>>, f: Format): (r: seq<nat>)
    ensures |r| == |blocks|
  {
    seq(|blocks|, i requires 0 <= i < |blocks| => Low32(|Stored(blocks[i], f)|))
  }

  function WrittenIndex(blocks: seq<seq<Row>>, f: Format): Bytes
    requires NoEmptyBlock(blocks)
  {
    var code := IndexBytes(WrittenSizes(blocks, f), Counts(blocks), LastKeys(blocks));
    if f.compressed then f.zstd.compress(code) else code
  }

  /** Where the header says that the index is. */
  function WrittenOffset(blocks: seq<seq<Row>>, f: Format): nat {
    HEADER_SIZE + Sum(WrittenSizes(blocks, f))
  }

  /** What the builder leaves behind, whether or not the block sizes fit. */
  function WrittenFile(blocks: seq<seq<Row>>, f: Format): Bytes
    requires NoEmptyBlock(blocks)
  {
    HeaderBytes(FormatHeader(f, WrittenOffset(blocks, f))) + Concat(StoredBlocks(blocks, f)) + WrittenIndex(blocks, f)
  }

  /** The index fields hold what the builder can tell of these blocks. */
  ghost predicate Recorded(index: WriteOnceIndex, blocks: seq<seq<Row>>, f: Format)
    reads index
  {
    && index.Valid()
    && NoEmptyBlock(blocks)
    && index.size == WrittenSizes(blocks, f)
    && index.numEntries == Counts(blocks)
    && index.lastKeys == LastKeys(blocks)
  }

  lemma WrittenSizesPush(blocks: seq<seq<Row>>, rows: seq<Row>, f: Format)
    ensures WrittenSizes(blocks + [rows], f) == WrittenSizes(blocks, f) + [Low32(|Stored(rows, f)|)]
  {
    hide Stored, Low32;
    assert WrittenSizes(blocks + [rows], f) == WrittenSizes(blocks, f) + [Low32(|Stored(rows, f)|)];
  }

  /** What the file holds before the index is written. */
  function FileSoFar(blocks: seq<seq<Row>>, f: Format): (r: Bytes)
    ensures |r| >= HEADER_SIZE
  {
    HeaderBytes(FormatHeader(f, 0)) + Concat(StoredBlocks(blocks, f))
  }

  lemma FileSoFarPush(blocks: seq<seq<Row>>, rows: seq<Row>, f: Format)
    requires NoEmptyBlock(blocks) && rows != []
    ensures FileSoFar(blocks + [rows], f) == FileSoFar(blocks, f) + Stored(rows, f)
  {
    BlocksPush(blocks, rows, f);
  }

  /** Behind the header that was written first, the finished file is what was appended. */
  lemma FinishedFile(blocks: seq<seq<Row>>, f: Format)
    requires NoEmptyBlock(blocks)
    ensures var file := FileSoFar(blocks, f) + WrittenIndex(blocks, f);
            HeaderBytes(FormatHeader(f, WrittenOffset(blocks, f))) + file[HEADER_SIZE..] == WrittenFile(blocks, f)
  {
    hide HeaderBytes, StoredBlocks, WrittenIndex, Concat, WrittenOffset, FormatHeader;
    var header := HeaderBytes(FormatHeader(f, 0));
    var rest := Concat(StoredBlocks(blocks, f)) + WrittenIndex(blocks, f);
    assert FileSoFar(blocks, f) + WrittenIndex(blocks, f) == header + rest;
    assert (header + rest)[HEADER_SIZE..] == rest;
  }

  class WriteOnceBuilder {
    const format: Format
    const index: WriteOnceIndex
    const block: WriteOnceBlock
    var file: Bytes
    ghost var blocks: seq<seq<Row>>

    /** The closed blocks are in the file and in the index. */
    ghost predicate Consistent()
      reads this, index
    {
      format.zstd.Valid() && Recorded(index, blocks, format) && file == FileSoFar(blocks, format)
    }

    ghost predicate Valid()
      reads this, index, block
    {
      Consistent() && block.Valid() && Sorted(Added()) && (blocks, block.rows) == Cut(Added())
    }

    /** All rows added so far. */
    ghost function Added(): seq<Row>
      reads this, block
    {
      Concat(blocks) + block.rows
    }

    constructor (format: Format)
      requires format.zstd.Valid()
      ensures Valid() && fresh(index) && fresh(block) && this.format == format && Added() == []
    {
      this.format := format;
      index := new WriteOnceIndex();
      block := new WriteOnceBlock();
      file := HeaderBytes(FormatHeader(format, 0));
      blocks := [];
      new;
      assert StoredBlocks(blocks, format) == [] && Concat(blocks) == [];
    }

    /** Refuses, and then changes nothing, exactly when the key is less than the last one. The block
        then tells of all rows exactly when the new one is narrow. */
    method Add(key: Bytes, value: Bytes) returns (ok: bool)
      requires Valid()
      modifies this, index, block
      ensures ok <==> Sorted(old(Added()) + [Row(key, value)])
      ensures var before := old(Added());
              ok <==> before == [] || before[|before| - 1].key == key || Precedes(before[|before| - 1].key, key)
      ensures !ok ==> unchanged(this) && unchanged(index) && unchanged(block)
      ensures ok ==> Added() == old(Added()) + [Row(key, value)]
      ensures Valid() <==> !ok || Narrow(Row(key, value))
    {
      hide Sorted, Recorded, FileSoFar, Closes, Cut, Narrow, Concat, Precedes;
      ghost var row, before := Row(key, value), Added();
      SortedPush(before, row);
      if before != [] {
        LessMeaning(before[|before| - 1].key, key);
      }
      CutKeeps(before);
      if block.NumEntries() != 0 {
        var last := block.GetLastKey();
        if !Leq(last, key) {
          return false;
        }
      }
      ok := true;
      CutPush(before, row);
      CloseLargeBlock(|key| + |value|);
      assert Concat(blocks) + (block.rows + [row]) == before + [row];
      assert [] + [row] == [row];
      block.Add(key, value);
      assert Consistent();
    }

    /** Closes the current block when it is large, or not small and a large entry comes. */
    method CloseLargeBlock(size: nat)
      requires Valid()
      modifies this, index, block
      ensures Consistent() && block.Valid()
      ensures Added() == old(Added())
      ensures var (closed, open) := old((blocks, block.rows));
              (blocks, block.rows) == if Closes(open, size) then (closed + [open], []) else (closed, open)
    {
      hide Sorted, Recorded, FileSoFar, Concat, Estimate, Cut;
      EmptyNeverCloses(size);
      var blockSize := block.EstimateSize();
      if blockSize > BLOCK_SIZE_MAX || (blockSize > BLOCK_SIZE_MIN && size > ENTRY_SIZE_LIMIT) {
        WriteBlock();
        block.Clear();
      }
    }

    /** Appends the current block to the file and to the index. */
    method WriteBlock()
      requires Consistent() && block.Valid() && block.rows != []
      modifies this, index
      ensures Consistent()
      ensures blocks == old(blocks) + [block.rows]
      ensures Concat(blocks) == old(Added())
    {
      hide StoredBlocks, LastKeys, Counts, Estimate, Marshalled, FileSoFar, WrittenSizes, Low32;
      var buffer := block.Marshal(format.seekable);
      buffer := if format.seekable then buffer else WriteBuffer(buffer);
      BlocksPush(blocks, block.rows, format);
      FileSoFarPush(blocks, block.rows, format);
      WrittenSizesPush(blocks, block.rows, format);
      assert buffer == Stored(block.rows, format);
      file := file + buffer;
      index.Add(block, |buffer|);
      blocks := blocks + [block.rows];
    }

    function WriteBuffer(buffer: Bytes): Bytes {
      if format.compressed then format.zstd.compress(buffer) else buffer
    }

    /** Completes the file. Without any row nothing is committed. */
    method Build() returns (committed: bool, indexOffset: nat)
      requires Valid()
      modifies this, index
      ensures committed <==> old(Added()) != []
      ensures committed ==> var final := Blocks(old(Added()));
                && NoEmptyBlock(final)
                && indexOffset == WrittenOffset(final, format) && file == WrittenFile(final, format)
    {
      hide StoredBlocks, LastKeys, Counts, Estimate, FileSoFar, WrittenFile, WrittenIndex, HeaderBytes, Cut, Sorted;
      CutKeeps(Added());
      if block.NumEntries() == 0 {
        return false, 0;
      }
      WriteBlock();
      indexOffset := WriteIndex();
      committed := true;
    }

    method WriteIndex() returns (indexOffset: nat)
      requires Consistent() && blocks != []
      modifies this`file
      ensures NoEmptyBlock(blocks)
      ensures indexOffset == WrittenOffset(blocks, format) && file == WrittenFile(blocks, format)
    {
      hide StoredBlocks, LastKeys, Counts, IndexBytes, FileSoFar, WrittenFile, HeaderBytes, Sum, WrittenSizes;
      var buffer := index.Marshal();
      buffer := WriteBuffer(buffer);
      assert buffer == WrittenIndex(blocks, format);
      file := file + buffer;
      indexOffset := index.GetIndexOffset();
      FinishedFile(blocks, format);
      file := HeaderBytes(FormatHeader(format, indexOffset)) + file[HEADER_SIZE..];
    }
  }

  /** Whether every block takes less than 4 GiB in the file. */
  predicate SizesFit(blocks: seq<seq<Row>>, f: Format) {
    forall i :: 0 <= i < |blocks| ==> |Stored(blocks[i], f)| < 0x1_0000_0000
  }

  lemma {:induction false} WrittenSum(blocks: seq<seq<Row>>, f: Format)
    ensures WrittenSizes(blocks, f) == Sizes(StoredBlocks(blocks, f)) <==> SizesFit(blocks, f)
    ensures Sum(WrittenSizes(blocks, f)) <= Sum(Sizes(StoredBlocks(blocks, f)))
    ensures Sum(WrittenSizes(blocks, f)) == Sum(Sizes(StoredBlocks(blocks, f))) <==> SizesFit(blocks, f)
  {
    hide Stored, Low32;
    var cut, exact := WrittenSizes(blocks, f), Sizes(StoredBlocks(blocks, f));
    assert forall i :: 0 <= i < |blocks| ==>
           cut[i] == Low32(|Stored(blocks[i], f)|) && exact[i] == |Stored(blocks[i], f)|;
    if blocks != [] {
      WrittenSum(blocks[1..], f);
      assert cut[1..] == WrittenSizes(blocks[1..], f) && exact[1..] == Sizes(StoredBlocks(blocks[1..], f));
    }
  }

  /** The builder leaves the file whose index describes it exactly when every block takes less than
      4 GiB. When one takes more, the header points before the index. */
  lemma FileIsDescribed(blocks: seq<seq<Row>>, f: Format)
    requires NoEmptyBlock(blocks) && IndexOffset(blocks, f) < 0x1_0000_0000_0000_0000
    ensures WrittenFile(blocks, f) == FileBytes(blocks, f) <==> SizesFit(blocks, f)
    ensures WrittenOffset(blocks, f) == IndexOffset(blocks, f) <==> SizesFit(blocks, f)
    ensures WrittenOffset(blocks, f) <= IndexOffset(blocks, f)
  {
    hide WrittenSizes, SizesFit, HeaderBytes, ReadHeader, Sum, Concat, StoredBlocks, Sizes, Counts, LastKeys,
         IndexBytes;
    WrittenSum(blocks, f);
    ConcatLength(StoredBlocks(blocks, f));
    var data := Concat(StoredBlocks(blocks, f));
    if WrittenFile(blocks, f) == FileBytes(blocks, f) {
      var h, k := FormatHeader(f, WrittenOffset(blocks, f)), FormatHeader(f, IndexOffset(blocks, f));
      HeaderRoundTrip(h, data + WrittenIndex(blocks, f));
      HeaderRoundTrip(k, data + StoredIndex(blocks, f));
      assert WrittenFile(blocks, f) == HeaderBytes(h) + (data + WrittenIndex(blocks, f));
      assert FileBytes(blocks, f) == HeaderBytes(k) + (data + StoredIndex(blocks, f));
    }
  }

  /** A row up to this width cannot make a block that is too wide for its size field. */
  const WIDEST_ROW: nat := 0xFE00_0000

  predicate RowFits(row: Row) {
    RowSize(row) <= WIDEST_ROW
  }

  lemma ShortEncoding(v: nat)
    requires v < 0x1_0000_0000
    ensures |Encode(v)| <= 5
  {
    var a := v / 0x80;
    var b := a / 0x80;
    var c := b / 0x80;
    assert c / 0x80 < 0x80;
    assert |Encode(c)| <= 2 && |Encode(b)| <= 3;
    assert |Encode(a)| <= 4;
  }

  lemma RowCodeWidth(row: Row)
    requires Narrow(row)
    ensures RowSize(row) <= |RowCode(row)| <= RowSize(row) + 10
  {
    ShortEncoding(|row.key|);
    ShortEncoding(|row.value|);
  }

  /** Only a wide last row can make a block of the builder too wide. */
  lemma StoredFits(block: seq<Row>, f: Format)
    requires f.zstd.Valid() && WellCut(block) && RowFits(block[|block| - 1])
    ensures |Stored(block, f)| < 0x1_0000_0000
  {
    var init, row := block[..|block| - 1], block[|block| - 1];
    assert block == init + [row];
    EstimatePush(init, row);
    RowCodeWidth(row);
    EstimateIsExact(block, f.seekable);
  }

  /** Rows of a width that no size field is too narrow for, in any format. */
  lemma FittingRows(rows: seq<Row>, f: Format)
    requires f.zstd.Valid() && forall row :: row in rows ==> RowFits(row)
    ensures AllNarrow(rows) && SizesFit(Blocks(rows), f)
  {
    hide Concat, Closes, Stored, Blocks, RowFits;
    BlocksAreCut(rows);
    assert AllNarrow(rows) by {
      FittingRowsAreNarrow(rows);
    }
    var blocks := Blocks(rows);
    forall i | 0 <= i < |blocks| ensures |Stored(blocks[i], f)| < 0x1_0000_0000 {
      assert blocks[i] in blocks;
      var last := |blocks[i]| - 1;
      RowOfEntry(blocks, i);
      assert rows[Start(blocks, i) + last] == blocks[i][last];
      StoredFits(blocks[i], f);
    }
  }

  lemma FittingRowsAreNarrow(rows: seq<Row>)
    requires forall row :: row in rows ==> RowFits(row)
    ensures AllNarrow(rows)
  {
  }

  /** Blocks that are not compressed take what the builder estimates. */
  lemma PlainSizesFit(blocks: seq<seq<Row>>, f: Format)
    requires f.seekable || !f.compressed
    ensures SizesFit(blocks, f) <==> forall block :: block in blocks ==> Estimate(block) < 0x1_0000_0000
  {
    hide Marshalled, Estimate;
    forall i | 0 <= i < |blocks| ensures |Stored(blocks[i], f)| == Estimate(blocks[i]) {
      EstimateIsExact(blocks[i], f.seekable);
    }
  }

  lemma OneBlock(row: Row)
    ensures Blocks([row]) == [[row]]
  {
    hide Estimate, Closes;
    CutPush([], row);
    EmptyNeverCloses(RowSize(row));
    assert [] + [row] == [row] && [] + [[row]] == [[row]];
  }

  /** A table of one row, not compressed: its size survives exactly when its code is below 4 GiB. */
  lemma OneRowFits(row: Row, f: Format)
    requires f.seekable || !f.compressed
    ensures Blocks([row]) == [[row]]
    ensures SizesFit(Blocks([row]), f) <==> |RowCode(row)| < 0x1_0000_0000
  {
    hide *;
    OneBlock(row);
    EmptyEstimate();
    EstimatePush([], row);
    assert [] + [row] == [row];
    PlainSizesFit([[row]], f);
  }

  /** A row that all checks on rows and sizes let through, and that does not fit. Whether one call of
      `write` takes the block, as the source demands, is up to the system; here it does. */
  lemma TwoGigabytesEach(row: Row, f: Format)
    requires |row.key| == |row.value| == 0x8000_0000
    requires f.seekable || !f.compressed
    ensures Narrow(row) && !SizesFit(Blocks([row]), f)
  {
    hide Encode;
    RowCodeWidth(row);
    OneRowFits(row, f);
  }
}

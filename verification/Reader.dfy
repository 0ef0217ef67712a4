/** Reading a write-once table. */
module Reader {
  import opened Bytes
  import opened Table
  import opened Block
  import opened Index
  import opened TableFile

  const UINT64_MAX: nat := 0xFFFF_FFFF_FFFF_FFFF
  const UINT32_MAX: nat := 0xFFFF_FFFF

  /** Where a row begins in the address space of a seekable table. */
  ghost function RowOffset(rows: seq<Row>, pos: nat): nat
    requires pos <= |rows|
  {
    EntryOffset(rows, pos)
  }

  /** The stored blocks of a seekable table are the seekable layout of the flat list, cut anywhere. */
  lemma {:induction false} SeekableBlocks(blocks: seq<seq<Row>>, f: Format)
    requires f.seekable
    ensures Concat(StoredBlocks(blocks, f)) == SeekableBytes(Concat(blocks))
  {
    if blocks == [] {
      assert Concat(blocks) == [];
    } else {
      SeekableBlocks(blocks[1..], f);
      assert StoredBlocks(blocks, f)[1..] == StoredBlocks(blocks[1..], f);
      SeekableAppend(blocks[0], Concat(blocks[1..]));
    }
  }

  /** A block's place in the file, and the place of an entry in it. */
  lemma EntryAddress(blocks: seq<seq<Row>>, f: Format, b: nat, e: nat)
    requires f.seekable && b < |blocks| && e <= |blocks[b]|
    ensures Start(blocks, b) + e <= |Concat(blocks)|
    ensures Sum(Sizes(StoredBlocks(blocks, f))[..b]) == RowOffset(Concat(blocks), Start(blocks, b))
    ensures RowOffset(Concat(blocks), Start(blocks, b) + e)
         == RowOffset(Concat(blocks), Start(blocks, b)) + EntryOffset(blocks[b], e)
  {
    hide Concat, Sum, StoredBlocks;
    RowOfEntry(blocks, b);
    BlockAddress(blocks, f, b);
    var rows, p := Concat(blocks), Start(blocks, b);
    ConcatAt(blocks, b);
    assert rows[..p] == Concat(blocks[..b]);
    assert rows[..p + e] == rows[..p] + blocks[b][..e];
    SeekableAppend(rows[..p], blocks[b][..e]);
  }

  lemma BlockAddress(blocks: seq<seq<Row>>, f: Format, b: nat)
    requires f.seekable && b <= |blocks|
    ensures Start(blocks, b) <= |Concat(blocks)|
    ensures Sum(Sizes(StoredBlocks(blocks, f))[..b]) == RowOffset(Concat(blocks), Start(blocks, b))
  {
    hide Concat, Sum, Stored;
    StartMonotone(blocks, b, |blocks|);
    assert Sizes(StoredBlocks(blocks, f))[..b] == Sizes(StoredBlocks(blocks[..b], f));
    ConcatLength(StoredBlocks(blocks[..b], f));
    SeekableBlocks(blocks[..b], f);
    ConcatAppend(blocks[..b], blocks[b..]);
    assert blocks == blocks[..b] + blocks[b..];
    assert Concat(blocks)[..Start(blocks, b)] == Concat(blocks[..b]);
  }

  /** Where block `num` lies in the file. */
  lemma StoredBlockAt(blocks: seq<seq<Row>>, f: Format, num: nat, file: Bytes, indexOffset: nat)
    requires num < |blocks| && NoEmptyBlock(blocks)
    requires file == FileBytes(blocks, f) && indexOffset == IndexOffset(blocks, f)
    ensures var at := HEADER_SIZE + Sum(Sizes(StoredBlocks(blocks, f))[..num]);
            var end := at + Sizes(StoredBlocks(blocks, f))[num];
            end <= |file| && file[at..end] == Stored(blocks[num], f)
  {
    hide StoredBlocks, FormatHeader, StoredIndex;
    var stored := StoredBlocks(blocks, f);
    assert stored[num] == Stored(blocks[num], f) by {
      StoredBlockIs(blocks, f, num);
    }
    ConcatAt(stored, num);
    assert Sizes(stored)[..num] == Sizes(stored[..num]);
    ConcatLength(stored[..num]);
    assert file[HEADER_SIZE..indexOffset] == Concat(stored);
    var at := |Concat(stored[..num])|;
    SliceOfSlice(file, HEADER_SIZE, indexOffset, at, at + |stored[num]|);
  }

  lemma StoredBlockIs(blocks: seq<seq<Row>>, f: Format, num: nat)
    requires num < |blocks|
    ensures StoredBlocks(blocks, f)[num] == Stored(blocks[num], f)
  {
  }

  lemma BlockCountFits(blocks: seq<seq<Row>>, f: Format)
    requires Holds(blocks, Concat(blocks), f)
    ensures |blocks| < UINT64_MAX
  {
    StartMonotone(blocks, 0, |blocks|);
  }

  class WriteOnceReader {
    const file: Bytes
    const indexOffset: nat
    const format: Format
    const index: WriteOnceIndex
    const indexCache: IndexCache
    const block: WriteOnceBlock
    const blockCache: BlockCache
    var blockReadNum: nat
    var blockNum: nat
    var entryNum: nat
    ghost const blocks: seq<seq<Row>>

    ghost function Parts(): set<object> {
      {this, index, indexCache, block, blockCache}
    }

    ghost function Rows(): seq<Row> {
      Concat(blocks)
    }

    /** What the builder promises of the file; none of this ever changes. */
    ghost predicate FileOk() {
      && Holds(blocks, Rows(), format)
      && file == FileBytes(blocks, format) && indexOffset == IndexOffset(blocks, format)
    }

    /** The index tells of the blocks, and its cache agrees with it. */
    ghost predicate IndexOk()
      reads index, indexCache
    {
      Describes(index, blocks, format) && indexCache.index == index && indexCache.Agrees()
    }

    /** The block in memory is the one that was read last, and its cache agrees with it. */
    ghost predicate BlockOk()
      reads this`blockReadNum, block, blockCache
    {
      && block.Valid() && blockCache.block == block && blockCache.Agrees()
      && (blockReadNum == UINT64_MAX || (blockReadNum < |blocks| && block.rows == blocks[blockReadNum]))
    }

    ghost predicate Loaded()
      reads Parts()
    {
      FileOk() && IndexOk() && BlockOk() && |blocks| < UINT64_MAX
    }

    ghost predicate Valid()
      reads Parts()
    {
      && Loaded()
      && (blockNum == UINT64_MAX
          || (blockNum < |blocks| && entryNum < |blocks[blockNum]|)
          || (blockNum == |blocks| && entryNum == 0))
    }

    /** The place in the flat list of rows. A reader that was just opened stands at the first row. */
    ghost function Pos(): nat
      requires Valid()
      reads Parts()
    {
      if blockNum == UINT64_MAX then 0
      else if blockNum < |blocks| then Start(blocks, blockNum) + entryNum
      else |Rows()|
    }

    ghost function AsCursor(): (c: Cursor)
      requires Valid()
      reads Parts()
    {
      Cursor(Rows(), Pos())
    }

    constructor (file: Bytes, indexOffset: nat, format: Format, ghost blocks: seq<seq<Row>>)
      requires Holds(blocks, Concat(blocks), format)
      requires file == FileBytes(blocks, format) && indexOffset == IndexOffset(blocks, format)
      ensures Valid() && fresh(Parts() - {this}) && this.format == format
      ensures AsCursor() == Cursor(Concat(blocks), 0)
    {
      this.file, this.indexOffset, this.format, this.blocks := file, indexOffset, format, blocks;
      var ix := new WriteOnceIndex();
      var bl := new WriteOnceBlock();
      var ixc := new IndexCache(ix);
      var blc := new BlockCache(bl);
      index, block, indexCache, blockCache := ix, bl, ixc, blc;
      blockReadNum, blockNum, entryNum := UINT64_MAX, UINT64_MAX, UINT32_MAX;
      new;
      hide Holds, FileBytes, IndexOffset, Describes, Concat, Keys, Values, Sizes, Sorted, Start;
      hide WriteOnceBlock.Valid, WriteOnceIndex.Valid;
      FirstStart(blocks);
      BlockCountFits(blocks, format);
      ReadIndex();
    }

    /** What the methods need to know of the index. */
    lemma IndexFacts()
      requires Loaded()
      ensures index.Valid() && |index.size| == |index.numEntries| == |index.keySize| == |blocks|
      ensures forall b :: 0 <= b < |blocks| ==> index.numEntries[b] == |blocks[b]| && blocks[b] != []
      ensures blocks != [] && blocks[..|blocks|] == blocks && blocks[..0] == []
      ensures Sorted(Rows()) && Concat(blocks[..|blocks|]) == Rows() && Concat(blocks[..0]) == []
      ensures indexOffset >= HEADER_SIZE
      ensures format.seekable ==> indexOffset == HEADER_SIZE + RowOffset(Rows(), |Rows()|)
    {
      hide FileBytes, StoredBlocks, LastKeys, Sorted;
      assert blocks[..|blocks|] == blocks;
      if format.seekable {
        SeekableBlocks(blocks, format);
        assert Rows()[..|Rows()|] == Rows();
      }
    }

    method ReadIndex()
      requires FileOk()
      modifies index
      ensures Describes(index, blocks, format)
    {
      hide StoredBlocks, Counts, LastKeys, Sorted, IndexBytes, Concat, HeaderBytes, Sizes;
      var buffer := Read(indexOffset, |file| - indexOffset, format.compressed);
      assert file[indexOffset..indexOffset + (|file| - indexOffset)] == file[indexOffset..] ==
             StoredIndex(blocks, format);
      index.Unmarshal(buffer, Sizes(StoredBlocks(blocks, format)), Counts(blocks), LastKeys(blocks));
    }

    function Read(offset: nat, size: nat, compressed: bool): Bytes
      requires offset + size <= |file|
    {
      var buffer := file[offset..offset + size];
      if compressed then format.zstd.decompress(buffer) else buffer
    }

    method ReadBlock(num: nat)
      requires Loaded() && num < |blocks|
      modifies this`blockReadNum, block, indexCache, blockCache
      ensures Loaded() && blockReadNum == num
    {
      hide LastKeys, Sorted, IndexBytes, HeaderBytes, Marshalled, AllNarrow;
      BlockIsNarrow(blocks, num);
      var offset := indexCache.GetBlockOffset(num);
      var size, numEntries := index.size[num], index.numEntries[num];
      StoredBlockAt(blocks, format, num, file, indexOffset);
      var buffer := Read(offset, size, format.compressed && !format.seekable);
      block.Unmarshal(buffer, numEntries, format.seekable, blocks[num]);
      blockReadNum := num;
      blockCache.Clear();
    }

    method NotFound() returns (r: bool)
      requires Loaded()
      modifies this`blockNum, this`entryNum
      ensures Valid() && Pos() == |Rows()| && !r
    {
      hide FileOk, Describes, Sorted, Keys, Concat, Sizes, Values;
      IndexFacts();
      blockNum := index.NumBlocks();
      entryNum := 0;
      return false;
    }

    method SeekToFirst()
      requires Loaded()
      modifies this`blockNum, this`entryNum
      ensures Valid() && AsCursor() == Cursor(Rows(), 0) && blockNum == 0 && entryNum == 0
    {
      hide FileOk, Describes, Sorted, Keys, Concat, Sizes, Values;
      IndexFacts();
      blockNum := 0;
      entryNum := 0;
    }

    method SeekToKey(key: Bytes) returns (found: bool)
      requires Valid()
      modifies this, indexCache, block, blockCache
      ensures Valid() && (found, AsCursor()) == old(AsCursor()).SeekToKey(key)
    {
      hide FileOk, Describes, FirstNotLess, Sorted, IsLowerBound, Keys, Concat, Sizes, Values;
      IndexFacts();
      var num := FindBlock(key);
      if num >= index.NumBlocks() {
        found := NotFound();
        return;
      }
      LoadBlock(num);
      entryNum := FindEntry(key);
      RowOfEntry(blocks, blockNum);
      var k := blockCache.GetKey(entryNum);
      found := k == key;
    }

    method LoadBlock(num: nat)
      requires Loaded() && num < |blocks|
      modifies this, indexCache, block, blockCache
      ensures Loaded() && blockNum == blockReadNum == num && block.rows == blocks[num]
    {
      hide FileOk, Describes;
      if num != blockReadNum {
        ReadBlock(num);
      }
      blockNum := num;
    }

    method FindBlock(key: Bytes) returns (num: nat)
      requires Loaded()
      modifies indexCache
      ensures IndexOk()
      ensures NoEmptyBlock(blocks) && IsLowerBound(LastKeys(blocks), key, num)
      ensures num <= |blocks|
      ensures num == |blocks| ==> FirstNotLess(Keys(Rows()), key) == |Rows()|
    {
      hide FileBytes, IndexOffset, FirstNotLess, LastKeys, Counts, StoredBlocks;
      LastKeysAreSorted(blocks);
      num := indexCache.FindBlockByKey(key);
      if num == |blocks| {
        BeyondLastBlock(blocks, key);
        FirstNotLessIsLowerBound(Keys(Rows()), key);
        LowerBoundIsUnique(Keys(Rows()), key, |Rows()|, FirstNotLess(Keys(Rows()), key));
      }
    }

    method FindEntry(key: Bytes) returns (entry: nat)
      requires Loaded() && blockNum == blockReadNum < |blocks|
      requires NoEmptyBlock(blocks) && IsLowerBound(LastKeys(blocks), key, blockNum)
      modifies blockCache
      ensures BlockOk() && entry < |blocks[blockNum]|
      ensures FirstNotLess(Keys(Rows()), key) == Start(blocks, blockNum) + entry
    {
      hide FileBytes, IndexOffset, IsLowerBound, FirstNotLess, LastKeys, Counts, StoredBlocks, Describes;
      BlockIsSorted(blocks, blockNum);
      entry := blockCache.FindEntryByKey(key);
      TwoLevelLowerBound(blocks, key, blockNum, entry);
      FirstNotLessIsLowerBound(Keys(Rows()), key);
      LowerBoundIsUnique(Keys(Rows()), key, Start(blocks, blockNum) + entry, FirstNotLess(Keys(Rows()), key));
    }

    /** The loop of `Skip`: goes forward over whole blocks and then within one. */
    method GoForward(fromBlock: nat, fromEntry: nat, count: nat) returns (ended: bool, num: nat, entry: nat)
      requires Loaded() && fromBlock <= |blocks|
      requires if fromBlock < |blocks| then fromEntry < |blocks[fromBlock]| else fromEntry == 0
      ensures ended <==> Start(blocks, fromBlock) + fromEntry + count > |Rows()|
      ensures !ended ==> num <= |blocks| && if num < |blocks| then entry < |blocks[num]| else entry == 0
      ensures !ended ==> Start(blocks, num) + entry == Start(blocks, fromBlock) + fromEntry + count
    {
      hide FileOk, Describes, Sorted, Keys, Concat, Sizes, Values, IndexOk, BlockOk, Start;
      IndexFacts();
      EndOfBlocks();
      num, entry := fromBlock, fromEntry;
      var left: nat := count;
      while left != 0
        invariant num <= |blocks| && if num < |blocks| then entry < |blocks[num]| else entry == 0
        invariant Start(blocks, num) + entry + left == Start(blocks, fromBlock) + fromEntry + count
        decreases |blocks| - num, left
      {
        if num >= index.NumBlocks() {
          return true, num, entry;
        }
        RowOfEntry(blocks, num);
        var avail := index.numEntries[num] - entry;
        if left < avail {
          entry := entry + left;
          left := 0;
        } else {
          num := num + 1;
          entry := 0;
          left := left - avail;
        }
      }
      if num < |blocks| {
        RowOfEntry(blocks, num);
      }
      ended := false;
    }

    lemma EndOfBlocks()
      ensures Start(blocks, |blocks|) == |Rows()| && Start(blocks, 0) == 0
    {
      hide Concat;
      FirstStart(blocks);
      assert blocks[..|blocks|] == blocks;
    }

    method Skip(count: nat) returns (done: bool)
      requires Valid()
      modifies this`blockNum, this`entryNum
      ensures Valid() && (done, AsCursor()) == old(AsCursor()).Skip(count)
    {
      hide FileOk, Describes, Sorted, Keys, Concat, Sizes, Values, IndexOk, BlockOk, Start;
      IndexFacts();
      EndOfBlocks();
      var num := blockNum;
      if num == UINT64_MAX {
        SeekToFirst();
        num := 0;
      }
      var ended, entry;
      ended, num, entry := GoForward(num, entryNum, count);
      if ended {
        done := NotFound();
        return;
      }
      blockNum := num;
      entryNum := entry;
      done := true;
    }

    method ReadRow() returns (row: Option<Row>)
      requires Valid()
      modifies this, indexCache, block, blockCache
      ensures Valid() && (row, AsCursor()) == old(AsCursor()).ReadRow()
    {
      hide FileOk, Describes, Sorted, Keys, Concat, Sizes, Values;
      var more := LoadCurrent();
      if !more {
        return None;
      }
      var k := blockCache.GetKey(entryNum);
      var v := blockCache.GetValue(entryNum);
      row := Some(Row(k, v));
      Advance();
    }

    /** What `ReadRow` and `Offset` begin with: the block of the current row is read if it has to be. */
    method LoadCurrent() returns (more: bool)
      requires Valid()
      modifies this, indexCache, block, blockCache
      ensures Valid() && Pos() == old(Pos())
      ensures Pos() <= |Rows()|
      ensures more <==> Pos() < |Rows()|
      ensures more ==> blockNum == blockReadNum < |blocks| && block.rows[entryNum] == Rows()[Pos()]
      ensures old(blockNum) != UINT64_MAX ==> blockNum == old(blockNum) && entryNum == old(entryNum)
    {
      hide FileOk, Describes, Sorted, Keys, Concat, Sizes, Values;
      IndexFacts();
      if blockNum == UINT64_MAX {
        SeekToFirst();
      }
      if blockNum >= index.NumBlocks() {
        return false;
      }
      RowOfEntry(blocks, blockNum);
      if blockNum != blockReadNum {
        ReadBlock(blockNum);
      }
      more := true;
    }

    method Advance()
      requires Valid() && blockNum == blockReadNum < |blocks|
      modifies this`blockNum, this`entryNum
      ensures Valid() && Pos() == old(Pos()) + 1
    {
      hide FileOk, Describes, Sorted, Keys, Concat, Values;
      IndexFacts();
      RowOfEntry(blocks, blockNum);
      entryNum := entryNum + 1;
      if entryNum >= block.NumEntries() {
        entryNum := 0;
        blockNum := blockNum + 1;
      }
    }

    method Step(op: Op) returns (answer: Answer)
      requires Valid()
      modifies this, indexCache, block, blockCache
      ensures Valid() && (answer, AsCursor()) == old(AsCursor()).Step(op)
    {
      match op
      case First => SeekToFirst(); answer := Moved(true);
      case Key(key) => var found := SeekToKey(key); answer := Moved(found);
      case Skip(count) => var done := Skip(count); answer := Moved(done);
      case Read => var row := ReadRow(); answer := Got(row);
    }

    /** Every run of calls answers as the cursor over the flat list of rows does. */
    method Run(ops: seq<Op>) returns (answers: seq<Answer>)
      requires Valid()
      modifies this, indexCache, block, blockCache
      ensures Valid() && (answers, AsCursor()) == old(AsCursor()).Run(ops)
    {
      hide Valid, AsCursor;
      answers := [];
      for i := 0 to |ops|
        invariant Valid() && (answers, AsCursor()) == old(AsCursor()).Run(ops[..i])
      {
        assert ops[..i + 1][..i] == ops[..i];
        var answer := Step(ops[i]);
        answers := answers + [answer];
      }
      assert ops[..|ops|] == ops;
    }

    /** The address of the current row; at the end, the address behind the last row. */
    method Offset() returns (offset: nat)
      requires Valid() && format.seekable
      modifies this, indexCache, block, blockCache
      ensures Valid() && AsCursor() == old(AsCursor())
      ensures Pos() <= |Rows()| && offset == RowOffset(Rows(), Pos())
      ensures old(blockNum) != UINT64_MAX ==> blockNum == old(blockNum) && entryNum == old(entryNum)
    {
      hide FileOk, Describes, Sorted, EntryOffset, RowOffset, IndexOk, BlockOk;
      IndexFacts();
      var more := LoadCurrent();
      if !more {
        return indexOffset - HEADER_SIZE;
      }
      offset := EntryPlace();
    }

    method EntryPlace() returns (offset: nat)
      requires Valid() && format.seekable && blockNum == blockReadNum < |blocks|
      modifies indexCache
      ensures Valid() && Pos() <= |Rows()| && offset == RowOffset(Rows(), Pos())
    {
      hide FileOk, Describes, EntryOffset, Concat, Keys, Values, Sizes;
      EntryAddress(blocks, format, blockNum, entryNum);
      var base := BlockOffset(blockNum);
      var within := block.GetEntryOffset(entryNum);
      offset := base + within - HEADER_SIZE;
    }

    /** `Seek(offset, SEEK_SET)`: the last block that begins at the offset or before it, and in it the
        first entry at the offset or behind it. That entry may be one past the end of the block. */
    method Seek(offset: nat) returns (ok: bool)
      requires Loaded() && format.seekable
      modifies this, indexCache, block, blockCache
      ensures Loaded()
      ensures ok <==> offset <= RowOffset(Rows(), |Rows()|)
      ensures !ok ==> blockNum == old(blockNum) && entryNum == old(entryNum)
      ensures ok ==> blockNum < |blocks| && entryNum <= |blocks[blockNum]|
      ensures ok ==> Start(blocks, blockNum) + entryNum <= |Rows()|
      ensures ok ==> IsEntryAt(Rows(), offset, Start(blocks, blockNum) + entryNum)
      ensures ok ==> IsBlockAt(blocks, offset, blockNum)
    {
      hide FileOk, Describes, Sorted, Keys, Concat, Sizes, Values;
      IndexFacts();
      var at := offset + HEADER_SIZE;
      if at > indexOffset {
        return false;
      }
      ok := true;
      blockNum := FindBlockOfOffset(at);
      entryNum := FindEntryOfOffset(at);
    }

    method FindBlockOfOffset(at: nat) returns (num: nat)
      requires Loaded() && format.seekable && HEADER_SIZE <= at <= indexOffset
      modifies indexCache
      ensures IndexOk() && IsBlockAt(blocks, at - HEADER_SIZE, num)
    {
      hide FileOk, Describes, Sorted, EntryOffset;
      IndexFacts();
      num := 0;
      BlockAddress(blocks, format, 0);
      while num + 1 < index.NumBlocks()
        invariant IndexOk() && num < |blocks|
        invariant Start(blocks, num) <= |Rows()|
        invariant RowOffset(Rows(), Start(blocks, num)) <= at - HEADER_SIZE
      {
        var next := BlockOffset(num + 1);
        if next > at {
          break;
        }
        num := num + 1;
      }
      RowOfEntry(blocks, num);
    }

    method BlockOffset(num: nat) returns (offset: nat)
      requires Loaded() && format.seekable && num < |blocks|
      modifies indexCache
      ensures IndexOk()
      ensures Start(blocks, num) <= |Rows()|
      ensures offset == HEADER_SIZE + RowOffset(Rows(), Start(blocks, num))
    {
      hide FileOk, Sorted, Counts, LastKeys;
      IndexFacts();
      BlockAddress(blocks, format, num);
      offset := indexCache.GetBlockOffset(num);
    }

    method FindEntryOfOffset(at: nat) returns (entry: nat)
      requires Loaded() && format.seekable && blockNum < |blocks|
      requires HEADER_SIZE <= at <= indexOffset && IsBlockAt(blocks, at - HEADER_SIZE, blockNum)
      modifies this`blockReadNum, block, indexCache, blockCache
      ensures Loaded() && blockReadNum == blockNum && entry <= |blocks[blockNum]|
      ensures Start(blocks, blockNum) + entry <= |Rows()|
      ensures IsEntryAt(Rows(), at - HEADER_SIZE, Start(blocks, blockNum) + entry)
    {
      hide FileOk, Describes, Sorted, EntryOffset;
      IndexFacts();
      if blockNum != blockReadNum {
        ReadBlock(blockNum);
      }
      var base := BlockOffset(blockNum);
      OffsetIsInBlock(blocks, format, blockNum, at - HEADER_SIZE);
      entry := block.GetEntryNumber(at - base);
      EntryOfOffset(blocks, format, blockNum, entry, at - HEADER_SIZE);
    }
  }

  /** Block `b` is the last one that begins at `offset` or before it. */
  ghost predicate IsBlockAt(blocks: seq<seq<Row>>, offset: int, b: nat) {
    && b < |blocks|
    && Start(blocks, b) <= Start(blocks, b + 1) <= |Concat(blocks)|
    && RowOffset(Concat(blocks), Start(blocks, b)) <= offset
    && (b + 1 < |blocks| ==> offset < RowOffset(Concat(blocks), Start(blocks, b + 1)))
  }

  /** An offset that is not behind the next block is not behind the end of this one. */
  lemma OffsetIsInBlock(blocks: seq<seq<Row>>, f: Format, b: nat, offset: nat)
    requires f.seekable && b < |blocks|
    requires offset <= RowOffset(Concat(blocks), |Concat(blocks)|) && IsBlockAt(blocks, offset, b)
    ensures offset - RowOffset(Concat(blocks), Start(blocks, b)) <= |SeekableBytes(blocks[b])|
  {
    hide Concat, Sum, StoredBlocks;
    RowOfEntry(blocks, b);
    EntryAddress(blocks, f, b, |blocks[b]|);
    assert blocks[b][..|blocks[b]|] == blocks[b];
    assert blocks[..|blocks|] == blocks;
  }

  lemma EntryOfOffset(blocks: seq<seq<Row>>, f: Format, b: nat, e: nat, offset: nat)
    requires f.seekable && b < |blocks| && e <= |blocks[b]|
    requires Start(blocks, b) <= |Concat(blocks)| && RowOffset(Concat(blocks), Start(blocks, b)) <= offset
    requires IsEntryAt(blocks[b], offset - RowOffset(Concat(blocks), Start(blocks, b)), e)
    ensures Start(blocks, b) + e <= |Concat(blocks)|
    ensures IsEntryAt(Concat(blocks), offset, Start(blocks, b) + e)
  {
    hide Concat, Sum, StoredBlocks;
    var p, rows := Start(blocks, b), Concat(blocks);
    EntryAddress(blocks, f, b, e);
    forall m | 0 <= m < p + e ensures EntryOffset(rows, m) < offset {
      if m < p {
        EntryOffsetMonotone(rows, m, p);
      } else {
        EntryAddress(blocks, f, b, m - p);
      }
    }
  }
}

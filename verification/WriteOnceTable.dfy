/** The life of a write-once table: rows go in, a file comes out, and a reader shows the rows again. */
module WriteOnceTable {
  import opened Bytes
  import opened Table
  import opened Block
  import opened Index
  import opened TableFile
  import opened Builder
  import opened Reader

  datatype OpenError = TooShort | BadMagic | LegacyFormat | UnsupportedCompression | ExtendedFormat | NotSeekable

  /** The checks made on the header when a file is opened. The source also compares the major
      version with both 4 and 2, in a way that no version fails. */
  function CheckHeader(h: Header, seekable: bool): Option<OpenError> {
    if h.magic != MAGIC then Some(BadMagic)
    else if h.majorVersion <= 3 then Some(LegacyFormat)
    else if h.compression > 1 then Some(UnsupportedCompression)
    else if h.flags / 2 % 2 != 0 then Some(ExtendedFormat)
    else if seekable && h.flags % 2 == 0 then Some(NotSeekable)
    else None
  }

  /** All versions from 4 on are treated alike, and all before it as the old format. */
  lemma VersionsAreTwo(h: Header, seekable: bool)
    ensures h.majorVersion >= 4 ==> CheckHeader(h, seekable) == CheckHeader(h.(majorVersion := 4), seekable)
    ensures h.majorVersion < 4 && h.magic == MAGIC ==> CheckHeader(h, seekable) == Some(LegacyFormat)
    ensures h.majorVersion >= 4 ==> CheckHeader(h, seekable) != Some(LegacyFormat)
  {
  }

  function OpenHeader(file: Bytes, seekable: bool): (Option<OpenError>, Option<Header>) {
    match ReadHeader(file)
    case None => (Some(TooShort), None)
    case Some(h) => (CheckHeader(h, seekable), Some(h))
  }

  /** A finished file opens, unless a seekable table is asked for and it is not one; and then the
      header tells the reader what the builder knew. */
  lemma FinishedFileOpens(blocks: seq<seq<Row>>, f: Format, seekable: bool)
    requires Holds(blocks, Concat(blocks), f)
    ensures var (error, header) := OpenHeader(FileBytes(blocks, f), seekable);
            && error == (if seekable && !f.seekable then Some(NotSeekable) else None)
            && header.Some? && header.value.indexOffset == IndexOffset(blocks, f)
            && (header.value.flags % 2 == 1 <==> f.seekable) && (header.value.compression != 0 <==> f.compressed)
  {
    hide HeaderBytes, ReadHeader, Concat, StoredIndex, StoredBlocks;
    var h := FormatHeader(f, IndexOffset(blocks, f));
    var rest := Concat(StoredBlocks(blocks, f)) + StoredIndex(blocks, f);
    HeaderRoundTrip(h, rest);
    assert FileBytes(blocks, f) == HeaderBytes(h) + rest;
  }

  /** `WriteOnceTable(path, seekable)`: a reader made from the bytes of a finished file. */
  method OpenTable(file: Bytes, seekable: bool, zstd: Zstd, ghost blocks: seq<seq<Row>>, ghost f: Format)
    returns (reader: Option<WriteOnceReader>)
    requires f.zstd == zstd && Holds(blocks, Concat(blocks), f) && file == FileBytes(blocks, f)
    ensures reader.None? <==> seekable && !f.seekable
    ensures reader.Some? ==> fresh(reader.value.Parts()) && reader.value.Valid()
    ensures reader.Some? ==> reader.value.format == f && reader.value.AsCursor() == Cursor(Concat(blocks), 0)
  {
    hide Holds, FileBytes, Concat, ReadHeader;
    FinishedFileOpens(blocks, f, seekable);
    var (error, header) := OpenHeader(file, seekable);
    if error.Some? {
      return None;
    }
    var format := Format(header.value.flags % 2 == 1, header.value.compression != 0, zstd);
    var r := new WriteOnceReader(file, header.value.indexOffset, format, blocks);
    reader := Some(r);
  }

  /** More than the rows can take in a file, however they are cut and compressed. */
  function Weight(rows: seq<Row>): nat {
    if rows == [] then 0 else Weight(rows[..|rows| - 1]) + 2 * |RowCode(rows[|rows| - 1])| + 64
  }

  lemma {:induction false} WeightAppend(a: seq<Row>, b: seq<Row>)
    ensures Weight(a + b) == Weight(a) + Weight(b)
    ensures |a| <= Weight(a)
    decreases |a| + |b|
  {
    if b != [] {
      assert (a + b)[..|a + b| - 1] == a + b[..|b| - 1];
      WeightAppend(a, b[..|b| - 1]);
    } else if a != [] {
      assert a + b == a;
      WeightAppend(a[..|a| - 1], b);
      assert a[..|a| - 1] + b == a[..|a| - 1];
    }
  }

  lemma {:induction false} WeightOfEstimate(rows: seq<Row>)
    ensures Weight(rows) == 2 * Estimate(rows) + 64 * |rows|
  {
    if rows == [] {
      EmptyEstimate();
    } else {
      var init, last := rows[..|rows| - 1], rows[|rows| - 1];
      WeightOfEstimate(init);
      EstimatePush(init, last);
      assert init + [last] == rows;
    }
  }

  lemma {:induction false} StoredWeight(blocks: seq<seq<Row>>, f: Format)
    requires f.zstd.Valid() && NoEmptyBlock(blocks)
    ensures |Concat(StoredBlocks(blocks, f))| <= Weight(Concat(blocks))
  {
    if blocks != [] {
      var first, rest := blocks[0], blocks[1..];
      StoredWeight(rest, f);
      assert StoredBlocks(blocks, f)[1..] == StoredBlocks(rest, f);
      EstimateIsExact(first, f.seekable);
      WeightOfEstimate(first);
      WeightAppend(first, Concat(rest));
    }
  }

  /** Whether a table file can hold the rows: keys, values and blocks within the width of their size
      fields, and all within the width of a file offset. */
  ghost predicate Representable(rows: seq<Row>, f: Format) {
    HEADER_SIZE + Weight(rows) < 0x8000_0000_0000_0000 && AllNarrow(rows) && SizesFit(Blocks(rows), f)
  }

  /** Then the builder's file is the one that a reader needs; and without the fitting sizes it is not. */
  lemma RepresentableHolds(rows: seq<Row>, f: Format)
    requires f.zstd.Valid() && Sorted(rows) && rows != []
    requires HEADER_SIZE + Weight(rows) < 0x8000_0000_0000_0000 && AllNarrow(rows)
    ensures Holds(Blocks(rows), rows, f)
    ensures WrittenFile(Blocks(rows), f) == FileBytes(Blocks(rows), f) <==> Representable(rows, f)
    ensures WrittenOffset(Blocks(rows), f) == IndexOffset(Blocks(rows), f) <==> Representable(rows, f)
  {
    hide Concat, Weight, Sorted, AllNarrow, Blocks, WrittenFile, FileBytes, WrittenOffset, SizesFit;
    BlocksAreCut(rows);
    StoredWeight(Blocks(rows), f);
    WeightAppend(rows, []);
    FileIsDescribed(Blocks(rows), f);
  }

  /** Inserts the rows one after the other and completes the file. The first row out of order stops it. */
  method WriteTable(rows: seq<Row>, format: Format)
    returns (ok: bool, file: Bytes, indexOffset: nat)
    requires format.zstd.Valid() && AllNarrow(rows)
    ensures ok <==> Sorted(rows) && rows != []
    ensures ok <==> InKeyOrder(rows) && rows != []
    ensures ok ==> var final := Blocks(rows);
              && NoEmptyBlock(final)
              && file == WrittenFile(final, format) && indexOffset == WrittenOffset(final, format)
  {
    hide Sorted, WrittenFile, WrittenOffset, Concat, Narrow, WriteOnceBuilder.Valid, Blocks, NoEmptyBlock;
    hide InKeyOrder, Precedes;
    file, indexOffset := [], 0;
    SortedMeaning(rows);
    var builder := new WriteOnceBuilder(format);
    SortedPrefix(rows, 0);
    for i := 0 to |rows|
      invariant fresh(builder) && fresh(builder.index) && fresh(builder.block)
      invariant builder.Valid() && builder.format == format && builder.Added() == rows[..i]
      invariant Sorted(rows[..i])
    {
      assert rows[..i + 1] == rows[..i] + [Row(rows[i].key, rows[i].value)];
      assert rows[i] in rows;
      ok := builder.Add(rows[i].key, rows[i].value);
      if !ok {
        SortedPrefix(rows, i + 1);
        return;
      }
    }
    assert rows[..|rows|] == rows;
    ok, indexOffset := builder.Build();
    file := builder.file;
  }

  /** Rows in, file, header, reader: any run of calls then answers as the flat list of rows would. */
  method BuildReopenRun(rows: seq<Row>, format: Format, seekable: bool, ops: seq<Op>) returns (answers: seq<Answer>)
    requires format.zstd.Valid() && Representable(rows, format) && Sorted(rows) && rows != []
    requires seekable ==> format.seekable
    ensures answers == Cursor(rows, 0).Run(ops).0
  {
    hide Sorted, FileBytes, IndexOffset, Concat, Blocks, Weight, AllNarrow, SizesFit, WrittenFile, WrittenOffset;
    BlocksAreCut(rows);
    RepresentableHolds(rows, format);
    var ok, file, indexOffset := WriteTable(rows, format);
    var reader := OpenTable(file, seekable, format.zstd, Blocks(rows), format);
    answers := reader.value.Run(ops);
  }

  /** Addresses order rows as their positions do. */
  lemma OffsetsIncrease(rows: seq<Row>, p: nat, q: nat)
    requires p <= |rows| && q <= |rows|
    ensures RowOffset(rows, p) < RowOffset(rows, q) <==> p < q
    ensures RowOffset(rows, p) == RowOffset(rows, q) <==> p == q
  {
    if p < q {
      EntryOffsetMonotone(rows, p, q);
    } else if q < p {
      EntryOffsetMonotone(rows, q, p);
    }
  }

  /** Seeking to the address of a row finds the row, in the block that holds it; seeking to the
      address behind the last row does not find the end. */
  lemma SeekFindsRow(blocks: seq<seq<Row>>, pos: nat, b: nat, e: nat)
    requires pos <= |Concat(blocks)| && b < |blocks|
    requires IsBlockAt(blocks, RowOffset(Concat(blocks), pos), b)
    requires Start(blocks, b) + e <= |Concat(blocks)|
    requires IsEntryAt(Concat(blocks), RowOffset(Concat(blocks), pos), Start(blocks, b) + e)
    ensures Start(blocks, b) + e == pos
    ensures e < |blocks[b]| <==> pos < |Concat(blocks)|
  {
    hide Concat, EntryOffset;
    var rows, p := Concat(blocks), Start(blocks, b) + e;
    RowOfEntry(blocks, b);
    OffsetsIncrease(rows, p, pos);
    if b + 1 < |blocks| {
      OffsetsIncrease(rows, pos, Start(blocks, b + 1));
      StartMonotone(blocks, b + 1, |blocks|);
    } else {
      assert blocks[..b + 1] == blocks;
    }
  }

  /** Takes the address of the current row, makes any other calls, and seeks back. The reader is
      at the same row again exactly when it stood at a row. */
  method OffsetThenSeek(r: WriteOnceReader, ops: seq<Op>) returns (offset: nat, answers: seq<Answer>, ok: bool)
    requires r.Valid() && r.format.seekable
    modifies r, r.indexCache, r.block, r.blockCache
    ensures ok && r.Loaded()
    ensures r.Valid() <==> old(r.Pos()) < |r.Rows()|
    ensures r.Valid() ==> r.AsCursor() == old(r.AsCursor())
    ensures r.Valid() && old(r.blockNum) != UINT64_MAX ==>
            r.blockNum == old(r.blockNum) && r.entryNum == old(r.entryNum)
  {
    hide Concat, EntryOffset, RowOffset, IsBlockAt, IsEntryAt, FileBytes, IndexOffset, Describes, Holds, Sorted;
    offset := r.Offset();
    ghost var pos, num, entry := r.Pos(), r.blockNum, r.entryNum;
    answers := r.Run(ops);
    OffsetsIncrease(r.Rows(), pos, |r.Rows()|);
    ok := r.Seek(offset);
    SeekRestores(r.blocks, pos, num, entry, r.blockNum, r.entryNum);
  }

  lemma SeekRestores(blocks: seq<seq<Row>>, pos: nat, num: nat, entry: nat, b: nat, e: nat)
    requires pos <= |Concat(blocks)| && b < |blocks|
    requires IsBlockAt(blocks, RowOffset(Concat(blocks), pos), b)
    requires Start(blocks, b) + e <= |Concat(blocks)|
    requires IsEntryAt(Concat(blocks), RowOffset(Concat(blocks), pos), Start(blocks, b) + e)
    ensures Start(blocks, b) + e == pos
    ensures e < |blocks[b]| <==> pos < |Concat(blocks)|
    ensures pos < |Concat(blocks)| && num < |blocks| && entry < |blocks[num]| && Start(blocks, num) + entry == pos
         ==> b == num && e == entry
  {
    hide Concat, EntryOffset, RowOffset, IsBlockAt, IsEntryAt;
    SeekFindsRow(blocks, pos, b, e);
    if pos < |Concat(blocks)| && num < |blocks| && entry < |blocks[num]| && Start(blocks, num) + entry == pos {
      SameBlock(blocks, num, entry, b, e);
    }
  }

  /** A position has one block and one entry. */
  lemma SameBlock(blocks: seq<seq<Row>>, b: nat, e: nat, c: nat, d: nat)
    requires b < |blocks| && c < |blocks| && e < |blocks[b]| && d < |blocks[c]|
    requires Start(blocks, b) + e == Start(blocks, c) + d
    ensures b == c && e == d
  {
    hide Concat;
    RowOfEntry(blocks, b);
    RowOfEntry(blocks, c);
    if b < c {
      StartMonotone(blocks, b + 1, c);
    } else if c < b {
      StartMonotone(blocks, c + 1, b);
    }
  }
}

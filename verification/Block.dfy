/** The data blocks of the write-once table, in memory and in their two marshalled layouts. */
module Block {
  import opened Bytes
  import opened Table
  import opened Varint

  /** Whether the key and the value have sizes of 32 bits, which is how a block keeps them. */
  predicate Narrow(row: Row) {
    |row.key| < 0x1_0000_0000 && |row.value| < 0x1_0000_0000
  }

  predicate AllNarrow(rows: seq<Row>) {
    forall row :: row in rows ==> Narrow(row)
  }

  function RowCode(row: Row): Bytes {
    Encode(|row.key|) + Encode(|row.value|) + row.key + row.value
  }

  function RowCodes(rows: seq<Row>): (r: seq<Bytes>)
    ensures |r| == |rows|
  {
    seq(|rows|, i requires 0 <= i < |rows| => RowCode(rows[i]))
  }

  /** The seekable layout: row after row. */
  function SeekableBytes(rows: seq<Row>): Bytes {
    Concat(RowCodes(rows))
  }

  /** The columnar layout: all key sizes, all value sizes, all keys, all values. */
  function ColumnarBytes(rows: seq<Row>): Bytes {
    EncodeAll(Sizes(Keys(rows))) + EncodeAll(Sizes(Values(rows))) + Concat(Keys(rows)) + Concat(Values(rows))
  }

  function Marshalled(rows: seq<Row>, seekable: bool): Bytes {
    if seekable then SeekableBytes(rows) else ColumnarBytes(rows)
  }

  /** The size at which the builder looks to close a block. */
  function Estimate(rows: seq<Row>): nat {
    |Concat(Keys(rows))| + |Concat(Values(rows))| + SpaceAll(Sizes(Keys(rows))) + SpaceAll(Sizes(Values(rows)))
  }

  /** Where entry `n` begins in a seekable block. */
  function EntryOffset(rows: seq<Row>, n: nat): nat
    requires n <= |rows|
  {
    |SeekableBytes(rows[..n])|
  }

  lemma RowsPush(rows: seq<Row>, row: Row)
    ensures Keys(rows + [row]) == Keys(rows) + [row.key]
    ensures Values(rows + [row]) == Values(rows) + [row.value]
    ensures Sizes(Keys(rows + [row])) == Sizes(Keys(rows)) + [|row.key|]
    ensures Sizes(Values(rows + [row])) == Sizes(Values(rows)) + [|row.value|]
    ensures Concat(Keys(rows + [row])) == Concat(Keys(rows)) + row.key
    ensures Concat(Values(rows + [row])) == Concat(Values(rows)) + row.value
    ensures RowCodes(rows + [row]) == RowCodes(rows) + [RowCode(row)]
    ensures SeekableBytes(rows + [row]) == SeekableBytes(rows) + RowCode(row)
  {
    assert Keys(rows + [row]) == Keys(rows) + [row.key];
    assert Values(rows + [row]) == Values(rows) + [row.value];
    ConcatPush(Keys(rows), row.key);
    ConcatPush(Values(rows), row.value);
    assert RowCodes(rows + [row]) == RowCodes(rows) + [RowCode(row)];
    ConcatPush(RowCodes(rows), RowCode(row));
  }

  lemma SpacePush(sizes: seq<nat>, size: nat)
    ensures SpaceAll(sizes + [size]) == SpaceAll(sizes) + ValueSpace(size)
  {
    EncodeAllAppend(sizes, [size]);
    SpaceAllIsLength(sizes);
    SpaceAllIsLength(sizes + [size]);
    SpaceIsLength(size);
    assert EncodeAll([size]) == Encode(size) + EncodeAll([]);
  }

  /** What one more row adds to the estimate. */
  lemma EstimatePush(rows: seq<Row>, row: Row)
    ensures Estimate(rows + [row]) == Estimate(rows) + |RowCode(row)|
  {
    RowsPush(rows, row);
    SpacePush(Sizes(Keys(rows)), |row.key|);
    SpacePush(Sizes(Values(rows)), |row.value|);
    SpaceIsLength(|row.key|);
    SpaceIsLength(|row.value|);
  }

  /** The reserved buffer is filled to the last byte, in both layouts. */
  lemma {:induction false} EstimateIsExact(rows: seq<Row>, seekable: bool)
    ensures |Marshalled(rows, seekable)| == Estimate(rows)
    ensures 2 * |rows| <= Estimate(rows)
  {
    if rows == [] {
    } else if seekable {
      var init := rows[..|rows| - 1];
      assert rows == init + [rows[|rows| - 1]];
      EstimateIsExact(init, true);
      EstimatePush(init, rows[|rows| - 1]);
      RowsPush(init, rows[|rows| - 1]);
    } else {
      SpaceAllIsLength(Sizes(Keys(rows)));
      SpaceAllIsLength(Sizes(Values(rows)));
    }
  }

  lemma SeekableAppend(a: seq<Row>, b: seq<Row>)
    ensures SeekableBytes(a + b) == SeekableBytes(a) + SeekableBytes(b)
  {
    assert RowCodes(a + b) == RowCodes(a) + RowCodes(b);
    ConcatAppend(RowCodes(a), RowCodes(b));
  }

  lemma EntryOffsetZero(rows: seq<Row>)
    ensures EntryOffset(rows, 0) == 0
  {
    assert RowCodes(rows[..0]) == [];
  }

  lemma EntryOffsetStep(rows: seq<Row>, n: nat)
    requires n < |rows|
    ensures EntryOffset(rows, n + 1) == EntryOffset(rows, n) + |RowCode(rows[n])|
    ensures EntryOffset(rows, n) + 2 <= EntryOffset(rows, n + 1)
  {
    assert rows[..n + 1] == rows[..n] + [rows[n]];
    RowsPush(rows[..n], rows[n]);
  }

  /** What lies at an entry's offset. */
  lemma EntryAt(rows: seq<Row>, i: nat)
    requires i < |rows|
    ensures var at := EntryOffset(rows, i);
            var code := RowCode(rows[i]);
            at + |code| <= |SeekableBytes(rows)| && SeekableBytes(rows)[at..at + |code|] == code
  {
    hide Concat, Encode;
    ConcatAt(RowCodes(rows), i);
    assert RowCodes(rows)[..i] == RowCodes(rows[..i]);
  }

  /** Entries of a seekable block begin at strictly increasing offsets. */
  lemma {:induction false} EntryOffsetMonotone(rows: seq<Row>, m: nat, n: nat)
    requires m < n <= |rows|
    ensures EntryOffset(rows, m) < EntryOffset(rows, n)
  {
    EntryOffsetStep(rows, n - 1);
    if m < n - 1 {
      EntryOffsetMonotone(rows, m, n - 1);
    }
  }

  /** `n` is the first entry that begins at `offset` or behind it. */
  ghost predicate IsEntryAt(rows: seq<Row>, offset: int, n: nat) {
    && n <= |rows|
    && offset <= EntryOffset(rows, n)
    && (forall m :: 0 <= m < n ==> EntryOffset(rows, m) < offset)
  }

  class WriteOnceBlock {
    var keySize: seq<nat>
    var keyData: Bytes
    var valueSize: seq<nat>
    var valueData: Bytes
    ghost var rows: seq<Row>

    ghost predicate Valid()
      reads this
    {
      && keySize == Sizes(Keys(rows)) && keyData == Concat(Keys(rows))
      && valueSize == Sizes(Values(rows)) && valueData == Concat(Values(rows))
    }

    constructor ()
      ensures Valid() && rows == []
    {
      keySize, keyData, valueSize, valueData, rows := [], [], [], [], [];
    }

    function NumEntries(): nat
      reads this
    {
      |keySize|
    }

    function EstimateSize(): (r: nat)
      requires Valid()
      reads this
      ensures r == Estimate(rows)
    {
      |keyData| + |valueData| + SpaceAll(keySize) + SpaceAll(valueSize)
    }

    method GetLastKey() returns (key: Bytes)
      requires Valid() && rows != []
      ensures key == rows[|rows| - 1].key
    {
      var size := keySize[|keySize| - 1];
      ConcatAt(Keys(rows), |rows| - 1);
      assert Keys(rows)[..|rows| - 1 + 1] == Keys(rows);
      key := keyData[|keyData| - size..];
    }

    /** Sizes are cut to 32 bits: the fields tell of the rows exactly when the new one is narrow. */
    method Add(key: Bytes, value: Bytes)
      requires Valid()
      modifies this
      ensures rows == old(rows) + [Row(key, value)]
      ensures Valid() <==> Narrow(Row(key, value))
    {
      RowsPush(rows, Row(key, value));
      keySize, keyData := keySize + [Low32(|key|)], keyData + key;
      valueSize, valueData := valueSize + [Low32(|value|)], valueData + value;
      assert keySize[|keySize| - 1] == Low32(|key|) && valueSize[|valueSize| - 1] == Low32(|value|);
      rows := rows + [Row(key, value)];
    }

    method Clear()
      modifies this
      ensures Valid() && rows == []
    {
      keySize, keyData, valueSize, valueData, rows := [], [], [], [], [];
    }

    method Marshal(seekable: bool) returns (buffer: Bytes)
      requires Valid()
      ensures buffer == Marshalled(rows, seekable)
    {
      buffer := [];
      var num := NumEntries();
      if num == 0 {
        return;
      }
      if !seekable {
        var k := EncodeSequence(keySize);
        var v := EncodeSequence(valueSize);
        buffer := k + v + keyData + valueData;
      } else {
        var kOffset, vOffset := 0, 0;
        for i := 0 to num
          invariant kOffset == |Concat(Keys(rows)[..i])| && vOffset == |Concat(Values(rows)[..i])|
          invariant buffer == SeekableBytes(rows[..i])
        {
          ConcatAt(Keys(rows), i);
          ConcatAt(Values(rows), i);
          var k := ValueEncode(keySize[i]);
          var v := ValueEncode(valueSize[i]);
          assert rows[..i + 1] == rows[..i] + [rows[i]];
          RowsPush(rows[..i], rows[i]);
          buffer := buffer
          + (k + v + keyData[kOffset..kOffset + keySize[i]] + valueData[vOffset..vOffset + valueSize[i]]);
          kOffset, vOffset := kOffset + keySize[i], vOffset + valueSize[i];
        }
        assert rows[..num] == rows;
      }
    }

    /** Reads back a block that `Marshal` wrote in the same layout. */
    method Unmarshal(buffer: Bytes, num: nat, seekable: bool, ghost expected: seq<Row>)
      requires buffer == Marshalled(expected, seekable) && num == |expected| && AllNarrow(expected)
      modifies this
      ensures Valid() && rows == expected
    {
      Clear();
      if num == 0 {
        return;
      }
      if seekable {
        UnmarshalSeekable(buffer, num, expected);
      } else {
        UnmarshalColumnar(buffer, num, expected);
      }
    }

    method UnmarshalColumnar(buffer: Bytes, num: nat, ghost expected: seq<Row>)
      requires buffer == ColumnarBytes(expected) && num == |expected|
      modifies this
      ensures Valid() && rows == expected
    {
      hide Concat, Encode, EncodeAll;
      ghost var ks, vs := Sizes(Keys(expected)), Sizes(Values(expected));
      var at;
      keySize, at := DecodeSequence(buffer, 0, num, ks);
      assert buffer[at..at + |EncodeAll(vs)|] == EncodeAll(vs);
      valueSize, at := DecodeSequence(buffer, at, num, vs);
      ConcatLength(Keys(expected));
      ConcatLength(Values(expected));
      var kTotal, vTotal := Sum(keySize), Sum(valueSize);
      assert at + kTotal + vTotal <= |buffer|;  // the check that the source makes here cannot fail
      keyData := buffer[at..at + kTotal];
      valueData := buffer[at + kTotal..at + kTotal + vTotal];
      rows := expected;
    }

    method UnmarshalSeekable(buffer: Bytes, num: nat, ghost expected: seq<Row>)
      requires buffer == SeekableBytes(expected) && num == |expected| && AllNarrow(expected)
      requires Valid() && rows == []
      modifies this
      ensures Valid() && rows == expected
    {
      hide Concat, Encode, Keys, Values, Sizes, RowCodes, Low32;
      EntryOffsetZero(expected);
      var at := 0;
      for i := 0 to num
        invariant Valid() && rows == expected[..i]
        invariant at == EntryOffset(expected, i)
      {
        ghost var row := expected[i];
        ghost var code := RowCode(row);
        EntryAt(expected, i);
        EntryOffsetStep(expected, i);
        SplitRowCode(buffer, at, row);
        var kSize, vSize;
        kSize, at := DecodeOne(buffer, at, |row.key|);
        vSize, at := DecodeOne(buffer, at, |row.value|);
        Add(buffer[at..at + kSize], buffer[at + kSize..at + kSize + vSize]);
        at := at + kSize + vSize;
        assert expected[..i + 1] == expected[..i] + [row];
      }
      assert expected[..num] == expected;
    }

    /** Requires the seekable layout. */
    method GetEntryOffset(num: nat) returns (offset: nat)
      requires Valid() && num <= |rows|
      ensures offset == EntryOffset(rows, num)
    {
      offset := 0;
      for i := 0 to num
        invariant offset == EntryOffset(rows, i)
      {
        EntryOffsetStep(rows, i);
        SpaceIsLength(keySize[i]);
        SpaceIsLength(valueSize[i]);
        offset := offset + ValueSpace(keySize[i]) + keySize[i];
        offset := offset + ValueSpace(valueSize[i]) + valueSize[i];
      }
    }

    /** Requires the seekable layout. The offset counts down and may end below zero. */
    method GetEntryNumber(offset: nat) returns (n: nat)
      requires Valid() && offset <= |SeekableBytes(rows)|
      ensures IsEntryAt(rows, offset, n)
    {
      n := 0;
      var left: int := offset;
      assert rows[..|rows|] == rows;
      while left > 0
        invariant n <= |rows|
        invariant left == offset - EntryOffset(rows, n)
        invariant forall m :: 0 <= m < n ==> EntryOffset(rows, m) < offset
        decreases |rows| - n
      {
        EntryOffsetStep(rows, n);
        SpaceIsLength(keySize[n]);
        SpaceIsLength(valueSize[n]);
        left := left - (ValueSpace(keySize[n]) + keySize[n]);
        left := left - (ValueSpace(valueSize[n]) + valueSize[n]);
        n := n + 1;
      }
    }
  }

  /** The four fields of a row are found one behind the other. */
  lemma SplitRowCode(buffer: Bytes, at: nat, row: Row)
    requires at + |RowCode(row)| <= |buffer| && buffer[at..at + |RowCode(row)|] == RowCode(row)
    ensures var k := at + |Encode(|row.key|)|; var v := k + |Encode(|row.value|)|;
            && buffer[at..k] == Encode(|row.key|)
            && buffer[k..v] == Encode(|row.value|)
            && buffer[v..v + |row.key|] == row.key
            && buffer[v + |row.key|..v + |row.key| + |row.value|] == row.value
  {
    hide Encode;
    var code := RowCode(row);
    var a := |Encode(|row.key|)|;
    var b := a + |Encode(|row.value|)|;
    SliceOfSlice(buffer, at, at + |code|, 0, a);
    SliceOfSlice(buffer, at, at + |code|, a, b);
    SliceOfSlice(buffer, at, at + |code|, b, b + |row.key|);
    SliceOfSlice(buffer, at, at + |code|, b + |row.key|, |code|);
    assert code[0..a] == Encode(|row.key|);
    assert code[a..b] == Encode(|row.value|);
    assert code[b..b + |row.key|] == row.key;
    assert code[b + |row.key|..] == row.value;
  }

  /** The lazily filled views of a block; empty means not filled yet. */
  class BlockCache {
    const block: WriteOnceBlock
    var keys: seq<Bytes>
    var values: seq<Bytes>

    constructor (block: WriteOnceBlock)
      ensures this.block == block && keys == [] && values == []
    {
      this.block := block;
      keys, values := [], [];
    }

    /** A filled view shows the rows that the block holds now. */
    ghost predicate Agrees()
      reads this, block
    {
      && (keys != [] ==> keys == Keys(block.rows))
      && (values != [] ==> values == Values(block.rows))
    }

    method Clear()
      modifies this
      ensures Agrees()
    {
      keys, values := [], [];
    }

    method InitializeKeys()
      requires block.Valid()
      modifies this`keys
      ensures keys == Keys(block.rows)
    {
      keys := Views(block.keySize, block.keyData, Keys(block.rows));
    }

    method InitializeValues()
      requires block.Valid()
      modifies this`values
      ensures values == Values(block.rows)
    {
      values := Views(block.valueSize, block.valueData, Values(block.rows));
    }

    method FindEntryByKey(key: Bytes) returns (n: nat)
      requires block.Valid() && Agrees() && Sorted(block.rows)
      modifies this
      ensures Agrees()
      ensures IsLowerBound(Keys(block.rows), key, n)
    {
      if keys == [] {
        InitializeKeys();
      }
      n := LowerBound(keys, key);
    }

    method GetKey(num: nat) returns (key: Bytes)
      requires block.Valid() && Agrees() && num < |block.rows|
      modifies this
      ensures Agrees()
      ensures key == block.rows[num].key
    {
      if keys == [] {
        InitializeKeys();
      }
      key := keys[num];
    }

    method GetValue(num: nat) returns (value: Bytes)
      requires block.Valid() && Agrees() && num < |block.rows|
      modifies this
      ensures Agrees()
      ensures value == block.rows[num].value
    {
      if values == [] {
        InitializeValues();
      }
      value := values[num];
    }
  }
}

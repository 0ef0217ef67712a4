/** The index of the write-once table: size, entry count and last key of every block. */
module Index {
  import opened Bytes
  import opened Table
  import opened Varint
  import opened Block

  const HEADER_SIZE: nat := 24

  function IndexBytes(size: seq<nat>, numEntries: seq<nat>, lastKeys: seq<Bytes>): Bytes {
    if size == [] then []
    else Encode(|size|) + EncodeAll(size) + EncodeAll(numEntries) + EncodeAll(Sizes(lastKeys)) + Concat(lastKeys)
  }

  /** Five parts that lie one behind the other. */
  lemma FiveParts(whole: Bytes, p: Bytes, q: Bytes, r: Bytes, s: Bytes, t: Bytes)
    requires whole == p + q + r + s + t
    ensures var a := |p|; var b := a + |q|; var c := b + |r|; var d := c + |s|;
            && d + |t| == |whole| && whole[0..a] == p && whole[a..b] == q && whole[b..c] == r && whole[c..d] == s
            && whole[d..] == t
  {
  }

  class WriteOnceIndex {
    var size: seq<nat>
    var numEntries: seq<nat>
    var keySize: seq<nat>
    var keyData: Bytes
    ghost var lastKeys: seq<Bytes>

    ghost predicate Valid()
      reads this
    {
      && |size| == |numEntries| == |lastKeys|
      && keySize == Sizes(lastKeys) && keyData == Concat(lastKeys)
    }

    constructor ()
      ensures Valid() && size == [] && numEntries == [] && lastKeys == []
    {
      size, numEntries, keySize, keyData, lastKeys := [], [], [], [], [];
    }

    function NumBlocks(): nat
      reads this
    {
      |keySize|
    }

    function GetIndexOffset(): nat
      reads this
    {
      HEADER_SIZE + Sum(size)
    }

    /** The block size is passed, and kept, as a 32-bit integer. */
    method Add(block: WriteOnceBlock, blockSize: nat)
      requires Valid() && block.Valid() && block.rows != []
      modifies this
      ensures Valid()
      ensures size == old(size) + [Low32(blockSize)]
      ensures numEntries == old(numEntries) + [|block.rows|]
      ensures lastKeys == old(lastKeys) + [block.rows[|block.rows| - 1].key]
    {
      var lastKey := block.GetLastKey();
      size := size + [Low32(blockSize)];
      numEntries := numEntries + [block.NumEntries()];
      ConcatPush(lastKeys, lastKey);
      assert Sizes(lastKeys + [lastKey]) == Sizes(lastKeys) + [|lastKey|];
      keySize, keyData := keySize + [|lastKey|], keyData + lastKey;
      lastKeys := lastKeys + [lastKey];
    }

    method Marshal() returns (buffer: Bytes)
      requires Valid()
      ensures buffer == IndexBytes(size, numEntries, lastKeys)
    {
      buffer := [];
      var num := NumBlocks();
      if num == 0 {
        return;
      }
      var n := ValueEncode(num);
      var s := EncodeSequence(size);
      var e := EncodeSequence(numEntries);
      var k := EncodeSequence(keySize);
      buffer := n + s + e + k + keyData;
    }

    /** Reads back an index that `Marshal` wrote. */
    method Unmarshal(buffer: Bytes, ghost sizes: seq<nat>, ghost counts: seq<nat>, ghost keys: seq<Bytes>)
      requires |sizes| == |counts| == |keys| > 0
      requires buffer == IndexBytes(sizes, counts, keys)
      modifies this
      ensures Valid() && size == sizes && numEntries == counts && lastKeys == keys
    {
      hide Concat, Encode, EncodeAll, Sizes;
      FiveParts(buffer, Encode(|sizes|), EncodeAll(sizes), EncodeAll(counts), EncodeAll(Sizes(keys)), Concat(keys));
      var num, at := DecodeOne(buffer, 0, |sizes|);
      size, at := DecodeSequence(buffer, at, num, sizes);
      numEntries, at := DecodeSequence(buffer, at, num, counts);
      keySize, at := DecodeSequence(buffer, at, num, Sizes(keys));
      var total := Sum(keySize);
      ConcatLength(keys);
      assert at + total <= |buffer|;  // the check that the source makes here cannot fail
      keyData := buffer[at..at + total];
      assert keyData == buffer[at..];
      lastKeys := keys;
    }
  }

  /** The lazily filled views of the index; empty means not filled yet. */
  class IndexCache {
    const index: WriteOnceIndex
    var keys: seq<Bytes>
    var blocks: seq<nat>

    constructor (index: WriteOnceIndex)
      ensures this.index == index && keys == [] && blocks == []
    {
      this.index := index;
      keys, blocks := [], [];
    }

    ghost predicate Agrees()
      reads this, index
    {
      && (keys != [] ==> keys == index.lastKeys)
      && (blocks != [] ==> blocks == Offsets(index.size))
    }

    method FindBlockByKey(key: Bytes) returns (n: nat)
      requires index.Valid() && Agrees() && SortedKeys(index.lastKeys)
      modifies this
      ensures Agrees()
      ensures IsLowerBound(index.lastKeys, key, n)
    {
      if keys == [] {
        keys := Views(index.keySize, index.keyData, index.lastKeys);
      }
      n := LowerBound(keys, key);
    }

    method GetBlockOffset(num: nat) returns (offset: nat)
      requires index.Valid() && Agrees() && num < |index.size|
      modifies this
      ensures Agrees()
      ensures offset == HEADER_SIZE + Sum(index.size[..num])
    {
      if blocks == [] {
        InitializeBlocks();
      }
      offset := blocks[num];
    }

    method InitializeBlocks()
      requires index.Valid() && index.size != []
      modifies this`blocks
      ensures blocks == Offsets(index.size)
    {
      var num := index.NumBlocks();
      blocks := [HEADER_SIZE];
      for i := 1 to num
        invariant blocks == Offsets(index.size)[..i]
      {
        assert index.size[..i] == index.size[..i - 1] + [index.size[i - 1]];
        SumAppend(index.size[..i - 1], [index.size[i - 1]]);
        assert Sum([index.size[i - 1]]) == index.size[i - 1] + Sum([]);
        blocks := blocks + [blocks[i - 1] + index.size[i - 1]];
      }
    }
  }

  /** Where every block begins in the file. */
  ghost function Offsets(size: seq<nat>): (r: seq<nat>)
    ensures |r| == |size|
  {
    seq(|size|, i requires 0 <= i < |size| => HEADER_SIZE + Sum(size[..i]))
  }
}

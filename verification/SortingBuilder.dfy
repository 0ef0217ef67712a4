/** The builder for unsorted input: rows go to a scratch file, and a small entry for each is sorted. */
module SortingBuilder {
  import opened Bytes
  import opened Table
  import opened Block
  import opened TableFile
  import opened Builder

  const PREFIX_SIZE: nat := 24
  const UINT32_MAX: nat := 0xFFFF_FFFF

  function Prefix(key: Bytes): Bytes {
    if |key| < PREFIX_SIZE then key else key[..PREFIX_SIZE]
  }

  /** The first 24 bytes of the key, or all of them. */
  lemma PrefixMeaning(key: Bytes)
    ensures Prefix(key) <= key && |Prefix(key)| == if |key| >= 24 then 24 else |key|
  {
  }

  datatype Entry = Entry(offset: nat, valueSize: nat, keySize: nat, prefix: Bytes)

  /** Whether the sizes of key and value can be added in 32 bits. */
  predicate SizesAdd(row: Row) {
    RowSize(row) < 0x1_0000_0000
  }

  /** When they cannot, what is read back is shorter than the key alone, and than the value alone. */
  lemma SumWrapsAround(row: Row)
    requires Narrow(row)
    ensures SizesAdd(row) <==> Low32(RowSize(row)) == RowSize(row)
    ensures !SizesAdd(row) ==> Low32(RowSize(row)) < |row.key| && Low32(RowSize(row)) < |row.value|
  {
  }

  /** A row that is let in, and of which nothing at all is read back. */
  lemma NothingIsReadBack(row: Row)
    requires |row.key| == |row.value| == 0x8000_0000
    ensures Narrow(row) && !SizesAdd(row) && Low32(RowSize(row)) == 0
  {
    assert RowSize(row) == 0x1_0000_0000;
  }

  /** The entry leads to the row's own bytes in the scratch file. */
  predicate Addresses(entry: Entry, raw: Bytes, row: Row) {
    && entry.keySize == |row.key| && entry.valueSize == |row.value| && entry.prefix == Prefix(row.key)
    && entry.offset + |row.key| + |row.value| <= |raw|
    && raw[entry.offset..entry.offset + |row.key|] == row.key
    && raw[entry.offset + |row.key|..entry.offset + |row.key| + |row.value|] == row.value
  }

  ghost predicate AllAddress(entries: seq<Entry>, raw: Bytes, rows: seq<Row>) {
    |entries| == |rows| && forall i :: 0 <= i < |rows| ==> Addresses(entries[i], raw, rows[i])
  }

  lemma AddressesTo(entries: seq<Entry>, raw: Bytes, rows: seq<Row>)
    requires AllAddress(entries, raw, rows)
    ensures |entries| == |rows| && forall i :: 0 <= i < |rows| ==> Addresses(entries[i], raw, rows[i])
  {
  }

  lemma AllStillAddress(sorted: seq<Entry>, entry: Entry, raw: Bytes, order: seq<Row>, row: Row, j: nat)
    requires AllAddress(sorted, raw, order) && Addresses(entry, raw, row) && j <= |sorted|
    ensures AllAddress(sorted[..j] + [entry] + sorted[j..], raw, order[..j] + [row] + order[j..])
  {
    hide Addresses;
  }

  /** When prefixes of one length differ they decide the comparison. */
  lemma {:induction false} PrefixesDecide(a: Bytes, b: Bytes, n: nat)
    ensures var p, q := if |a| < n then a else a[..n], if |b| < n then b else b[..n];
            (Less(p, q) ==> Less(a, b)) && (Less(q, p) ==> Less(b, a))
  {
    if n > 0 && a != [] && b != [] && a[0] == b[0] {
      PrefixesDecide(a[1..], b[1..], n - 1);
      var p, q := if |a| < n then a else a[..n], if |b| < n then b else b[..n];
      assert p[1..] == if |a[1..]| < n - 1 then a[1..] else a[1..][..n - 1];
      assert q[1..] == if |b[1..]| < n - 1 then b[1..] else b[1..][..n - 1];
    }
  }

  /** Puts a row behind all rows whose keys are not greater. */
  function StableInsert(sorted: seq<Row>, row: Row): (r: seq<Row>)
    ensures |r| == |sorted| + 1
  {
    if sorted == [] || !Less(row.key, sorted[|sorted| - 1].key) then sorted + [row]
    else StableInsert(sorted[..|sorted| - 1], row) + [sorted[|sorted| - 1]]
  }

  function StableSort(rows: seq<Row>): (r: seq<Row>)
    ensures |r| == |rows|
  {
    if rows == [] then [] else StableInsert(StableSort(rows[..|rows| - 1]), rows[|rows| - 1])
  }

  lemma StableSortOfNothing()
    ensures StableSort([]) == []
  {
  }

  lemma StableSortPush(rows: seq<Row>, i: nat)
    requires i < |rows|
    ensures StableSort(rows[..i + 1]) == StableInsert(StableSort(rows[..i]), rows[i])
  {
    assert rows[..i + 1][..i] == rows[..i];
  }

  lemma InsertionStarts(order: seq<Row>, row: Row)
    ensures StableInsert(order, row) == StableInsert(order[..|order|], row) + order[|order|..]
  {
    assert order[..|order|] == order && StableInsert(order, row) + [] == StableInsert(order, row);
  }

  lemma InsertionGoesOn(order: seq<Row>, row: Row, j: nat)
    requires 0 < j <= |order| && Less(row.key, order[j - 1].key)
    ensures StableInsert(order[..j], row) + order[j..] == StableInsert(order[..j - 1], row) + order[j - 1..]
  {
    hide Less;
    assert order[..j][..j - 1] == order[..j - 1];
    assert order[j - 1..] == [order[j - 1]] + order[j..];
  }

  lemma InsertionEnds(order: seq<Row>, row: Row, j: nat)
    requires j <= |order| && (j > 0 ==> !Less(row.key, order[j - 1].key))
    ensures StableInsert(order[..j], row) == order[..j] + [row]
  {
    hide Less;
  }

  lemma {:induction false} InsertSorts(sorted: seq<Row>, row: Row)
    requires Sorted(sorted)
    ensures Sorted(StableInsert(sorted, row))
    ensures forall r :: r in StableInsert(sorted, row) <==> r in sorted || r == row
  {
    if sorted == [] {
      SortedPush(sorted, row);
    } else {
      var init, last := sorted[..|sorted| - 1], sorted[|sorted| - 1];
      assert sorted == init + [last];
      if Less(row.key, last.key) {
        SortedPrefix(sorted, |init|);
        SortedPush(init, last);
        InsertSorts(init, row);
        var r := StableInsert(init, row);
        assert r[|r| - 1] in r;
        LessTrichotomy(row.key, last.key);
        if r[|r| - 1] in init {
          SortedLast(sorted, r[|r| - 1]);
        }
        SortedPush(r, last);
      } else {
        SortedPush(sorted, row);
      }
    }
  }

  lemma {:induction false} InsertIsStable(sorted: seq<Row>, row: Row, key: Bytes)
    ensures WithKey(StableInsert(sorted, row), key) == WithKey(sorted + [row], key)
  {
    WithKeyPush(sorted, row, key);
    if sorted != [] && Less(row.key, sorted[|sorted| - 1].key) {
      var init, last := sorted[..|sorted| - 1], sorted[|sorted| - 1];
      InsertIsStable(init, row, key);
      WithKeyPush(init, row, key);
      WithKeyPush(StableInsert(init, row), last, key);
      LessTrichotomy(row.key, last.key);
    }
  }

  /** The sort is a sort, and rows of one key keep their order. */
  lemma {:induction false} StableSortSorts(rows: seq<Row>)
    ensures Sorted(StableSort(rows))
    ensures forall r :: r in StableSort(rows) <==> r in rows
    ensures forall key :: WithKey(StableSort(rows), key) == WithKey(rows, key)
  {
    if rows != [] {
      var init, last := rows[..|rows| - 1], rows[|rows| - 1];
      StableSortSorts(init);
      InsertSorts(StableSort(init), last);
      assert rows == init + [last];
      forall key ensures WithKey(StableSort(rows), key) == WithKey(rows, key) {
        InsertIsStable(StableSort(init), last, key);
        WithKeyPush(StableSort(init), last, key);
        WithKeyPush(init, last, key);
      }
    }
  }

  /** There is only one sorted list with given rows for every key: stable sorting has one result. */
  lemma {:induction false} StableSortIsUnique(a: seq<Row>, b: seq<Row>)
    requires Sorted(a) && Sorted(b)
    requires forall key :: WithKey(a, key) == WithKey(b, key)
    ensures a == b
    decreases |a|
  {
    hide *;
    if a == [] || b == [] {
      var key := if a != [] then a[0].key else if b != [] then b[0].key else [];
      WithKeyMember(a, key);
      WithKeyMember(b, key);
      assert WithKey(a, key) == WithKey(b, key);
    } else {
      LastRowsMatch(a, b);
      var ia, ib, x := a[..|a| - 1], b[..|b| - 1], a[|a| - 1];
      assert a == ia + [x] && b == ib + [x];
      forall key ensures WithKey(ia, key) == WithKey(ib, key) {
        assert WithKey(a, key) == WithKey(b, key);
        WithKeyPush(ia, x, key);
        WithKeyPush(ib, x, key);
        DropLast(WithKey(ia, key), WithKey(ib, key), if x.key == key then [x] else []);
      }
      SortedPrefix(a, |ia|);
      SortedPrefix(b, |ib|);
      StableSortIsUnique(ia, ib);
    }
  }

  lemma LastRowsMatch(a: seq<Row>, b: seq<Row>)
    requires a != [] && b != [] && Sorted(a) && Sorted(b)
    requires forall key :: WithKey(a, key) == WithKey(b, key)
    ensures a[|a| - 1] == b[|b| - 1]
  {
    hide *;
    LastKeysMatch(a, b);
    LastKeysMatch(b, a);
    LeqBothWays(a[|a| - 1].key, b[|b| - 1].key);
    var key := a[|a| - 1].key;
    assert WithKey(a, key) == WithKey(b, key);
    LastWithKey(a);
    LastWithKey(b);
    SameLast(WithKey(a[..|a| - 1], key), a[|a| - 1], WithKey(b[..|b| - 1], key), b[|b| - 1]);
  }

  lemma LastWithKey(rows: seq<Row>)
    requires rows != []
    ensures var n := |rows| - 1; WithKey(rows, rows[n].key) == WithKey(rows[..n], rows[n].key) + [rows[n]]
  {
  }

  lemma LeqBothWays(a: Bytes, b: Bytes)
    requires Leq(a, b) && Leq(b, a)
    ensures a == b
  {
    LessTrichotomy(a, b);
  }

  lemma SameLast(a: seq<Row>, x: Row, b: seq<Row>, y: Row)
    requires a + [x] == b + [y]
    ensures x == y
  {
    assert (a + [x])[|a + [x]| - 1] == x && (b + [y])[|b + [y]| - 1] == y;
  }

  lemma DropLast(a: seq<Row>, b: seq<Row>, tail: seq<Row>)
    requires a + tail == b + tail
    ensures a == b
  {
    assert a == (a + tail)[..|a|] && b == (b + tail)[..|b|];
  }

  lemma LastKeysMatch(a: seq<Row>, b: seq<Row>)
    requires a != [] && b != [] && Sorted(b)
    requires forall key :: WithKey(a, key) == WithKey(b, key)
    ensures Leq(a[|a| - 1].key, b[|b| - 1].key)
  {
    var key := a[|a| - 1].key;
    WithKeyMember(a, key);
    assert WithKey(b, key) != [];
    WithKeyMember(b, key);
    var i :| 0 <= i < |b| && b[i].key == key;
    SortedLast(b, b[i]);
  }

  class WriteOnceSortingBuilder {
    const builder: WriteOnceBuilder
    var raw: Bytes
    var entries: seq<Entry>
    var offset: nat
    ghost var rows: seq<Row>

    ghost predicate Valid()
      reads this, builder, builder.index, builder.block
    {
      && builder.Valid() && builder.Added() == []
      && offset == |raw| && AllAddress(entries, raw, rows)
      && AllNarrow(rows)
    }

    constructor (format: Format)
      requires format.zstd.Valid()
      ensures Valid() && fresh(builder) && fresh(builder.index) && fresh(builder.block)
      ensures builder.format == format && rows == []
    {
      builder := new WriteOnceBuilder(format);
      raw, entries, offset, rows := [], [], 0, [];
      new;
      hide WriteOnceBuilder.Valid, WriteOnceBuilder.Added, Addresses;
    }

    /** A key or value whose size needs more than 32 bits is refused. `fwrite` of nothing counts as a
        failed write, so an empty key or value is refused too, but only after its entry was added;
        the caller then gives up the builder. */
    method Add(key: Bytes, value: Bytes) returns (ok: bool)
      requires Valid()
      modifies this
      ensures ok <==> key != [] && value != [] && Narrow(Row(key, value))
      ensures ok ==> Valid() && rows == old(rows) + [Row(key, value)]
      ensures !Narrow(Row(key, value)) ==> unchanged(this)
    {
      hide WriteOnceBuilder.Valid, Addresses;
      ok := AddEntry(key, value);
      if !ok {
        return;
      }
      ok := key != [] && value != [];
      if ok {
        ghost var before := raw;
        raw := raw + key + value;
        rows := rows + [Row(key, value)];
        assert before + (key + value) == raw;
        forall i | 0 <= i < |rows| ensures Addresses(entries[i], raw, rows[i]) {
          if i < |rows| - 1 {
            StillAddresses(entries[i], before, key + value, rows[i]);
          } else {
            LastAddresses(before, key, value);
          }
        }
      }
    }

    method AddEntry(key: Bytes, value: Bytes) returns (ok: bool)
      modifies this`entries, this`offset
      ensures ok <==> Narrow(Row(key, value))
      ensures !ok ==> unchanged(this)
      ensures ok ==> entries == old(entries) + [Entry(old(offset), |value|, |key|, Prefix(key))]
      ensures ok ==> offset == old(offset) + |key| + |value|
    {
      if |key| > UINT32_MAX || |value| > UINT32_MAX {
        return false;
      }
      ok := true;
      entries := entries + [Entry(offset, |value|, |key|, Prefix(key))];
      offset := offset + (|key| + |value|);
    }

    /** The comparison by prefix, and by whole keys from the scratch file when prefixes are equal,
        is the comparison of the keys. */
    method Compare(lhs: Entry, rhs: Entry, ghost a: Row, ghost b: Row) returns (less: bool)
      requires Addresses(lhs, raw, a) && Addresses(rhs, raw, b)
      ensures less == Less(a.key, b.key) == Precedes(a.key, b.key)
    {
      hide Precedes;
      LessMeaning(a.key, b.key);
      PrefixesDecide(a.key, b.key, PREFIX_SIZE);
      LessTrichotomy(lhs.prefix, rhs.prefix);
      LessTrichotomy(a.key, b.key);
      if Less(lhs.prefix, rhs.prefix) {
        return true;
      }
      if Less(rhs.prefix, lhs.prefix) {
        return false;
      }
      var lhsView := raw[lhs.offset..lhs.offset + lhs.keySize];
      var rhsView := raw[rhs.offset..rhs.offset + rhs.keySize];
      less := Less(lhsView, rhsView);
    }

    /** A stable sort; any other stable sort has the same result. */
    method SortEntries()
      requires Valid()
      modifies this`entries
      ensures AllAddress(entries, raw, StableSort(rows))
    {
      hide StableSort, Addresses;
      StableSortOfNothing();
      var sorted: seq<Entry> := [];
      for i := 0 to |entries|
        invariant AllAddress(entries, raw, rows) && AllAddress(sorted, raw, StableSort(rows[..i]))
      {
        StableSortPush(rows, i);
        sorted := Insert(sorted, entries[i], StableSort(rows[..i]), rows[i]);
      }
      assert rows[..|rows|] == rows;
      entries := sorted;
    }

    method Insert(sorted: seq<Entry>, entry: Entry, ghost order: seq<Row>, ghost row: Row) returns (r: seq<Entry>)
      requires AllAddress(sorted, raw, order) && Addresses(entry, raw, row)
      ensures AllAddress(r, raw, StableInsert(order, row))
    {
      hide *;
      AddressesTo(sorted, raw, order);
      var j: nat := |sorted|;
      InsertionStarts(order, row);
      while j > 0
        invariant j <= |sorted| == |order|
        invariant StableInsert(order, row) == StableInsert(order[..j], row) + order[j..]
        invariant j < |sorted| ==> Less(row.key, order[j].key)
      {
        var less := Compare(entry, sorted[j - 1], row, order[j - 1]);
        if !less {
          break;
        }
        InsertionGoesOn(order, row, j);
        j := j - 1;
      }
      InsertionEnds(order, row, j);
      r := sorted[..j] + [entry] + sorted[j..];
      AllStillAddress(sorted, entry, raw, order, row, j);
    }

    /** The sizes are added in 32 bits. When the sum wraps around, the views of key and value reach behind
        the buffer that was read, and nothing is said of them. */
    method ReadEntry(entry: Entry, ghost row: Row) returns (ok: bool, key: Bytes, value: Bytes)
      requires Addresses(entry, raw, row)
      ensures ok <==> SizesAdd(row)
      ensures ok ==> Row(key, value) == row
    {
      var buffer := raw[entry.offset..entry.offset + Low32(entry.keySize + entry.valueSize)];
      if |buffer| < entry.keySize + entry.valueSize {
        return false, [], [];
      }
      ok := true;
      key, value := buffer[..entry.keySize], buffer[entry.keySize..];
      SliceOfSlice(raw, entry.offset, entry.offset + |buffer|, 0, entry.keySize);
      SliceOfSlice(raw, entry.offset, entry.offset + |buffer|, entry.keySize, |buffer|);
      assert buffer[0..entry.keySize] == key && buffer[entry.keySize..|buffer|] == value;
    }

    /** The finished table holds the stable key-sort of the inserted rows, unless one of them is too wide to
        be read back. */
    method Build() returns (ok: bool, committed: bool, indexOffset: nat)
      requires Valid()
      modifies this`entries, builder, builder.index, builder.block
      ensures ok <==> forall row :: row in rows ==> SizesAdd(row)
      ensures ok ==> (committed <==> rows != [])
      ensures ok && committed ==> var final := Blocks(StableSort(rows));
                && NoEmptyBlock(final)
                && indexOffset == WrittenOffset(final, builder.format)
                && builder.file == WrittenFile(final, builder.format)
    {
      hide Sorted, WrittenFile, WrittenOffset, Concat, NoEmptyBlock, StableSort, Addresses, Narrow, Recorded, Blocks;
      hide WriteOnceBuilder.Consistent, Cut, SizesAdd;
      SortEntries();
      StableSortSorts(rows);
      ghost var order := StableSort(rows);
      for i := 0 to |entries|
        invariant builder.Valid() && builder.Added() == order[..i]
        invariant AllAddress(entries, raw, order)
        invariant forall k :: 0 <= k < i ==> SizesAdd(order[k])
      {
        var key, value;
        ok, key, value := ReadEntry(entries[i], order[i]);
        assert order[i] in rows;
        if !ok {
          return false, false, 0;
        }
        assert order[..i + 1] == order[..i] + [order[i]];
        SortedPrefix(order, i + 1);
        var added := builder.Add(key, value);
      }
      assert order[..|order|] == order;
      ok := true;
      committed, indexOffset := builder.Build();
    }
  }

  lemma LastAddresses(raw: Bytes, key: Bytes, value: Bytes)
    ensures Addresses(Entry(|raw|, |value|, |key|, Prefix(key)), raw + (key + value), Row(key, value))
  {
  }

  lemma StillAddresses(entry: Entry, raw: Bytes, more: Bytes, row: Row)
    requires Addresses(entry, raw, row)
    ensures Addresses(entry, raw + more, row)
  {
    var whole, a := raw + more, entry.offset;
    assert whole[a..a + |row.key|] == raw[a..a + |row.key|];
    assert whole[a + |row.key|..a + |row.key| + |row.value|] == raw[a + |row.key|..a + |row.key| + |row.value|];
  }
}

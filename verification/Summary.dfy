/** The summary tables share one address space: each shifts its own addresses by a base. */
module Summary {
  import opened Bytes
  import opened Table
  import opened Block
  import opened TableFile
  import opened Reader
  import opened WriteOnceTable
  import Q = Query

  datatype SummaryTable = SummaryTable(base: nat, reader: WriteOnceReader)

  /** The mutable parts of all tables. */
  ghost function Footprint(tables: seq<SummaryTable>): set<object> {
    set i, o | 0 <= i < |tables| && o in tables[i].reader.Parts() :: o
  }

  ghost predicate Separate(tables: seq<SummaryTable>) {
    forall i, j :: 0 <= i < j < |tables| ==> tables[i].reader.Parts() !! tables[j].reader.Parts()
  }

  /** Addresses in use: the tables lie one behind the other. */
  ghost predicate Laid(tables: seq<SummaryTable>) {
    && (forall i :: 0 <= i < |tables| ==> tables[i].reader.format.seekable)
    && (forall i, j :: 0 <= i < j < |tables| ==>
                         var rows := tables[i].reader.Rows();
                         tables[i].base + RowOffset(rows, |rows|) <= tables[j].base)
  }

  /** The address of row `p` of table `i`. */
  ghost function Address(tables: seq<SummaryTable>, i: nat, p: nat): nat
    requires i < |tables| && p <= |tables[i].reader.Rows()|
  {
    tables[i].base + RowOffset(tables[i].reader.Rows(), p)
  }

  /** The downward scan for the table that an address belongs to. */
  method FindTable(tables: seq<SummaryTable>, offset: nat) returns (i: nat)
    requires tables != []
    ensures i < |tables|
    ensures i > 0 ==> tables[i].base <= offset
    ensures forall j :: i < j < |tables| ==> tables[j].base > offset
  {
    i := |tables| - 1;
    while i != 0 && tables[i].base > offset
      invariant i < |tables|
      invariant forall j :: i < j < |tables| ==> tables[j].base > offset
    {
      i := i - 1;
    }
  }

  /** The scan recovers the table of every row. */
  lemma ScanFindsTable(tables: seq<SummaryTable>, t: nat, p: nat, i: nat)
    requires Laid(tables) && t < |tables| && p < |tables[t].reader.Rows()| && i < |tables|
    requires i > 0 ==> tables[i].base <= Address(tables, t, p)
    requires forall j :: i < j < |tables| ==> tables[j].base > Address(tables, t, p)
    ensures i == t
  {
    hide RowOffset;
    var rows := tables[t].reader.Rows();
    OffsetsIncrease(rows, p, |rows|);
  }

  lemma TableIsSeekable(tables: seq<SummaryTable>, i: nat)
    requires Laid(tables) && i < |tables|
    ensures tables[i].reader.format.seekable
  {
  }

  lemma OthersStayApart(tables: seq<SummaryTable>, i: nat)
    requires Separate(tables) && i < |tables|
    ensures forall j :: 0 <= j < |tables| && j != i ==> tables[j].reader.Parts() !! tables[i].reader.Parts()
    ensures tables[i].reader.Parts() <= Footprint(tables)
  {
    forall j | 0 <= j < |tables| && j != i ensures tables[j].reader.Parts() !! tables[i].reader.Parts() {
      if j < i {
        assert tables[j].reader.Parts() !! tables[i].reader.Parts();
      } else {
        assert tables[i].reader.Parts() !! tables[j].reader.Parts();
      }
    }
  }

  /** Reads the row at an address: resolve, seek the remainder, read. */
  method ReadAddress(tables: seq<SummaryTable>, offset: nat, ghost t: nat, ghost p: nat) returns (row: Option<Row>)
    requires tables != [] && Separate(tables) && Laid(tables)
    requires forall i :: 0 <= i < |tables| ==> tables[i].reader.Loaded()
    requires t < |tables| && p < |tables[t].reader.Rows()| && offset == Address(tables, t, p)
    modifies Footprint(tables)
    ensures row == Some(tables[t].reader.Rows()[p])
    ensures forall i :: 0 <= i < |tables| ==> tables[i].reader.Loaded()
  {
    hide RowOffset, Concat, Laid, Separate, Footprint, WriteOnceReader.Loaded;
    var i := FindTable(tables, offset);
    ScanFindsTable(tables, t, p, i);
    TableIsSeekable(tables, i);
    var r := tables[i].reader;
    OthersStayApart(tables, i);
    row := SeekAndRead(r, offset - tables[i].base, p);
    forall j | 0 <= j < |tables| ensures tables[j].reader.Loaded() {
      if j != i {
        assert tables[j].reader.Parts() !! r.Parts();
      }
    }
  }

  method SeekAndRead(r: WriteOnceReader, offset: nat, ghost p: nat) returns (row: Option<Row>)
    requires r.Loaded() && r.format.seekable
    requires p < |r.Rows()| && offset == RowOffset(r.Rows(), p)
    modifies r, r.indexCache, r.block, r.blockCache
    ensures r.Loaded() && row == Some(r.Rows()[p])
  {
    hide RowOffset, FileBytes, IndexOffset, Concat, Sorted, IsEntryAt, IsBlockAt, Holds, Describes;
    OffsetsIncrease(r.Rows(), p, |r.Rows()|);
    var ok := r.Seek(offset);
    SeekFindsRow(r.blocks, p, r.blockNum, r.entryNum);
    row := r.ReadRow();
  }

  /** Looks a key up in one table and gives the address of its first row. */
  method KeyToAddress(table: SummaryTable, key: Bytes) returns (address: Option<nat>)
    requires table.reader.Valid() && table.reader.format.seekable
    modifies table.reader.Parts()
    ensures table.reader.Valid()
    ensures var (found, c) := Cursor(table.reader.Rows(), 0).SeekToKey(key);
            address == if found then Some(table.base + RowOffset(table.reader.Rows(), c.pos)) else None
  {
    hide RowOffset, FileBytes, IndexOffset, Concat, Sorted, FirstNotLess, Holds, Describes;
    var found := table.reader.SeekToKey(key);
    if !found {
      return None;
    }
    var offset := table.reader.Offset();
    address := Some(table.base + offset);
  }

  /** The address that a key maps to leads back to a row with that key. */
  method KeyRoundTrip(tables: seq<SummaryTable>, t: nat, key: Bytes) returns (row: Option<Row>)
    requires tables != [] && Separate(tables) && Laid(tables)
    requires forall i :: 0 <= i < |tables| ==> tables[i].reader.Valid()
    requires t < |tables|
    modifies Footprint(tables)
    ensures row.Some? <==> exists p :: 0 <= p < |tables[t].reader.Rows()| && tables[t].reader.Rows()[p].key == key
    ensures row.Some? ==> row.value.key == key
  {
    hide RowOffset, FileBytes, IndexOffset, Concat, Sorted, IsEntryAt, IsBlockAt, Describes, FirstNotLess;
    ghost var rows := tables[t].reader.Rows();
    FoundIffPresent(Cursor(rows, 0), key);
    OthersStayApart(tables, t);
    var address := KeyToAddress(tables[t], key);
    if address.None? {
      return None;
    }
    forall j | 0 <= j < |tables| ensures tables[j].reader.Loaded() {
      if j != t {
        assert tables[j].reader.Parts() !! tables[t].reader.Parts();
      }
    }
    ghost var p := Cursor(rows, 0).SeekToKey(key).1.pos;
    row := ReadAddress(tables, address.value, t, p);
  }

  // ---------- All summary tables ----------

  /** The tables as the query evaluator sees them: rows, the address of each row, and the base. */
  ghost function AsSummaries(tables: seq<SummaryTable>): (r: seq<Q.Summaries>)
    ensures |r| == |tables|
  {
    seq(|tables|, i requires 0 <= i < |tables| =>
      Q.Summaries(tables[i].base, tables[i].reader.Rows(), Offsets(tables[i].reader.Rows())))
  }

  ghost function Offsets(rows: seq<Row>): (r: seq<nat>)
    ensures |r| == |rows|
  {
    seq(|rows|, p requires 0 <= p < |rows| => RowOffset(rows, p))
  }

  lemma SummariesAt(tables: seq<SummaryTable>, i: nat)
    requires i < |tables|
    ensures var s := AsSummaries(tables)[i];
            && s.Valid() && s.rows == tables[i].reader.Rows() && s.base == tables[i].base
            && forall p :: 0 <= p < |s.rows| ==> s.offset[p] + s.base == Address(tables, i, p)
  {
    hide RowOffset;
  }

  lemma AllSummaries(tables: seq<SummaryTable>)
    ensures forall i :: 0 <= i < |tables| ==> AsSummaries(tables)[i].Valid()
  {
    hide RowOffset;
  }

  /** One more table that the lookup passes or stops at. */
  lemma NextTable(tables: seq<SummaryTable>, key: Bytes, i: nat)
    requires i < |tables| && forall j :: 0 <= j < |tables| ==> AsSummaries(tables)[j].Valid()
    ensures var (found, c) := Cursor(tables[i].reader.Rows(), 0).SeekToKey(key);
            Q.KeyAddress(AsSummaries(tables)[i..], key) ==
            if found then Some(tables[i].base + RowOffset(tables[i].reader.Rows(), c.pos))
            else Q.KeyAddress(AsSummaries(tables)[i + 1..], key)
  {
    hide RowOffset, AsSummaries, FirstNotLess;
    var all := AsSummaries(tables);
    SummariesAt(tables, i);
    assert all[i..][0] == all[i] && all[i..][1..] == all[i + 1..];
  }

  /** Looks a key up in the tables, one after the other, through their readers. */
  method LookupSummaries(tables: seq<SummaryTable>, key: Bytes) returns (address: Option<nat>)
    requires Separate(tables)
    requires forall i :: 0 <= i < |tables| ==> tables[i].reader.Valid() && tables[i].reader.format.seekable
    modifies Footprint(tables)
    ensures forall i :: 0 <= i < |tables| ==> tables[i].reader.Valid()
    ensures forall i :: 0 <= i < |tables| ==> AsSummaries(tables)[i].Valid()
    ensures address == Q.KeyAddress(AsSummaries(tables), key)
  {
    hide RowOffset, Concat, AsSummaries, Q.KeyAddress, Separate, Footprint, FirstNotLess, WriteOnceReader.Valid;
    AllSummaries(tables);
    ghost var all := AsSummaries(tables);
    assert all[0..] == all && all[|all|..] == [];
    for i := 0 to |tables|
      invariant forall j :: 0 <= j < |tables| ==> tables[j].reader.Valid() && tables[j].reader.format.seekable
      invariant Q.KeyAddress(all, key) == Q.KeyAddress(all[i..], key)
    {
      OthersStayApart(tables, i);
      NextTable(tables, key, i);
      address := KeyToAddress(tables[i], key);
      forall j | 0 <= j < |tables| ensures tables[j].reader.Valid() {
        if j != i {
          assert tables[j].reader.Parts() !! tables[i].reader.Parts();
        }
      }
      if address.Some? {
        return;
      }
    }
    NothingLeft(key);
    address := None;
  }

  lemma NothingLeft(key: Bytes)
    ensures Q.KeyAddress([], key) == None
  {
  }

  /** The first row with the key in the first table that has it. */
  ghost predicate IsFirstWith(tables: seq<SummaryTable>, key: Bytes, t: nat, p: nat) {
    && t < |tables| && p < |tables[t].reader.Rows()| && tables[t].reader.Rows()[p].key == key
    && (forall i :: 0 <= i < p ==> tables[t].reader.Rows()[i].key != key)
    && (forall i :: 0 <= i < t ==> !Q.HasKey(tables[i].reader.Rows(), key))
  }

  lemma {:induction false} FirstRow(rows: seq<Row>, key: Bytes, q: nat) returns (p: nat)
    requires q < |rows| && rows[q].key == key
    ensures p < |rows| && rows[p].key == key && forall i :: 0 <= i < p ==> rows[i].key != key
  {
    p := q;
    if i :| 0 <= i < q && rows[i].key == key {
      p := FirstRow(rows, key, i);
    }
  }

  lemma {:induction false} FirstWith(tables: seq<SummaryTable>, key: Bytes, u: nat) returns (t: nat, p: nat)
    requires u < |tables| && Q.HasKey(tables[u].reader.Rows(), key)
    ensures IsFirstWith(tables, key, t, p)
  {
    if i :| 0 <= i < u && Q.HasKey(tables[i].reader.Rows(), key) {
      t, p := FirstWith(tables, key, i);
    } else {
      var q :| 0 <= q < |tables[u].reader.Rows()| && tables[u].reader.Rows()[q].key == key;
      t := u;
      p := FirstRow(tables[u].reader.Rows(), key, q);
    }
  }

  /** What the lookup gives is the address of that row. */
  lemma FirstIsFound(tables: seq<SummaryTable>, key: Bytes, t: nat, p: nat)
    requires forall i :: 0 <= i < |tables| ==> Sorted(tables[i].reader.Rows())
    requires forall i :: 0 <= i < |tables| ==> AsSummaries(tables)[i].Valid()
    requires IsFirstWith(tables, key, t, p)
    ensures Q.KeyAddress(AsSummaries(tables), key) == Some(Address(tables, t, p))
  {
    hide AsSummaries, RowOffset, Sorted, Q.HasKey, Q.KeyAddress;
    forall i | 0 <= i < |tables| ensures AsSummaries(tables)[i].rows == tables[i].reader.Rows() {
      SummariesAt(tables, i);
    }
    SummariesAt(tables, t);
    Q.FirstTableWins(AsSummaries(tables), key, t, p);
  }

  lemma NothingIsFound(tables: seq<SummaryTable>, key: Bytes)
    requires forall i :: 0 <= i < |tables| ==> Sorted(tables[i].reader.Rows())
    requires forall i :: 0 <= i < |tables| ==> AsSummaries(tables)[i].Valid()
    requires forall i :: 0 <= i < |tables| ==> !Q.HasKey(tables[i].reader.Rows(), key)
    ensures Q.KeyAddress(AsSummaries(tables), key) == None
  {
    hide AsSummaries, RowOffset, Sorted, Q.HasKey, Q.KeyAddress;
    forall i | 0 <= i < |tables| ensures AsSummaries(tables)[i].rows == tables[i].reader.Rows() {
      SummariesAt(tables, i);
    }
    Q.NoSummaryHasKey(AsSummaries(tables), key);
  }

  lemma ReadersAreLoaded(tables: seq<SummaryTable>)
    requires forall i :: 0 <= i < |tables| ==> tables[i].reader.Valid()
    ensures forall i :: 0 <= i < |tables| ==> tables[i].reader.Loaded() && Sorted(tables[i].reader.Rows())
  {
    hide Sorted, Concat, FileBytes, IndexOffset, Describes;
  }

  /** A key through all tables: its address is looked up, and the row at the address is read. That is the
      first row with the key in the first table that has it, and nothing only if no table has it. */
  method ReadKey(tables: seq<SummaryTable>, key: Bytes) returns (row: Option<Row>, ghost t: nat, ghost p: nat)
    requires tables != [] && Separate(tables) && Laid(tables)
    requires forall i :: 0 <= i < |tables| ==> tables[i].reader.Valid()
    modifies Footprint(tables)
    ensures row.Some? ==> IsFirstWith(tables, key, t, p) && row.value == tables[t].reader.Rows()[p]
    ensures row.None? ==> forall i :: 0 <= i < |tables| ==> !Q.HasKey(tables[i].reader.Rows(), key)
  {
    hide *;
    t, p := 0, 0;
    forall i | 0 <= i < |tables| ensures tables[i].reader.format.seekable {
      TableIsSeekable(tables, i);
    }
    ReadersAreLoaded(tables);
    var address := LookupSummaries(tables, key);
    ReadersAreLoaded(tables);
    t, p := WhatIsFound(tables, key);
    if address.None? {
      return None, t, p;
    }
    FirstIsARow(tables, key, t, p);
    row := ReadAddress(tables, address.value, t, p);
  }

  lemma WhatIsFound(tables: seq<SummaryTable>, key: Bytes) returns (t: nat, p: nat)
    requires forall i :: 0 <= i < |tables| ==> Sorted(tables[i].reader.Rows())
    requires forall i :: 0 <= i < |tables| ==> AsSummaries(tables)[i].Valid()
    ensures var address := Q.KeyAddress(AsSummaries(tables), key);
            if address.Some? then IsFirstWith(tables, key, t, p) && address.value == Address(tables, t, p)
            else forall i :: 0 <= i < |tables| ==> !Q.HasKey(tables[i].reader.Rows(), key)
  {
    hide *;
    t, p := 0, 0;
    if u :| 0 <= u < |tables| && Q.HasKey(tables[u].reader.Rows(), key) {
      t, p := FirstWith(tables, key, u);
      FirstIsARow(tables, key, t, p);
      FirstIsFound(tables, key, t, p);
    } else {
      NothingIsFound(tables, key);
    }
  }

  lemma FirstIsARow(tables: seq<SummaryTable>, key: Bytes, t: nat, p: nat)
    requires IsFirstWith(tables, key, t, p)
    ensures t < |tables| && p < |tables[t].reader.Rows()|
  {
  }
}

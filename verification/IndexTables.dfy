/** The series of an index table, from the bytes that were written to what a query finds. */
module IndexTables {
  import opened Bytes
  import opened Table
  import opened Points
  import opened Decode
  import opened Format
  import opened Series
  import O = OffsetLists
  import Q = Query

  /** Stored scores become numbers in a way that is left open here, as the conversion rounds. */
  function AsEntry(p: Point, number: Score -> O.Number): O.Entry {
    O.Entry(p.offset, number(p.score),
            if !p.HasBands() then []
            else [number(Bits(p.pct5)), number(Bits(p.pct25)), number(Bits(p.pct75)), number(Bits(p.pct95))])
  }

  /** Offset and score are carried over, and the percentiles in their order when all four are finite. */
  lemma EntryMeaning(p: Point, number: Score -> O.Number)
    ensures AsEntry(p, number).offset == p.offset && AsEntry(p, number).score == number(p.score)
    ensures IsFinite(p.pct5) && IsFinite(p.pct25) && IsFinite(p.pct75) && IsFinite(p.pct95) <==>
            AsEntry(p, number).pct ==
            [number(Bits(p.pct5)), number(Bits(p.pct25)), number(Bits(p.pct75)), number(Bits(p.pct95))]
    ensures !IsFinite(p.pct5) || !IsFinite(p.pct25) || !IsFinite(p.pct75) || !IsFinite(p.pct95) <==>
            AsEntry(p, number).pct == []
  {
    hide IsFinite;
  }

  function AsEntries(ps: seq<Point>, number: Score -> O.Number): (r: seq<O.Entry>)
    ensures |r| == |ps|
  {
    seq(|ps|, i requires 0 <= i < |ps| => AsEntry(ps[i], number))
  }

  /** What the evaluator makes of the value of a row. */
  function ParseSeries(number: Score -> O.Number): Bytes -> seq<O.Entry> {
    (value: Bytes) =>
      match DecodeStream(value, 0)
      case None => []
      case Some(ps) => AsEntries(ps, number)
  }

  /** The points at one offset, in their order. */
  function PointsAt(ps: seq<Point>, x: nat): seq<Point> {
    if ps == [] then [] else (if ps[0].offset == x then [ps[0]] else []) + PointsAt(ps[1..], x)
  }

  lemma {:induction false} RunOfEntries(ps: seq<Point>, number: Score -> O.Number, x: nat)
    ensures O.Run(AsEntries(ps, number), x) == AsEntries(PointsAt(ps, x), number)
  {
    hide AsEntry;
    var entries := AsEntries(ps, number);
    O.Unfold(entries, x);
    if ps != [] {
      RunOfEntries(ps[1..], number, x);
      assert entries[1..] == AsEntries(ps[1..], number);
      OffsetIsKept(ps[0], number);
    }
  }

  lemma OffsetIsKept(p: Point, number: Score -> O.Number)
    ensures AsEntry(p, number).offset == p.offset
  {
  }

  lemma EntriesAreSorted(ps: seq<Point>, number: Score -> O.Number)
    requires SortedByOffset(ps)
    ensures O.Sorted(AsEntries(ps, number))
  {
  }

  /** The value of a row that holds a written series is parsed to the series. */
  lemma ParsesBack(code: Bytes, ps: seq<Point>, number: Score -> O.Number)
    requires Codes(code, ps)
    ensures ParseSeries(number)(code) == AsEntries(ps, number)
  {
    hide Codes, AsEntries, DecodeStream;
    OneRecord(code, ps);
  }

  lemma OneRecord(code: Bytes, ps: seq<Point>)
    requires Codes(code, ps)
    ensures DecodeStream(code, 0) == Some(ps)
  {
    hide Codes, DecodeStream;
    assert Concat([code]) == code + Concat<Byte>([]) == code && Concat([ps]) == ps + Concat<Point>([]) == ps;
    assert code[0..] == code;
    StreamOfRecords([code], [ps], code, 0);
  }

  /** What the writer keeps of a sorted series is sorted. */
  lemma StoredIsSorted(values: seq<Point>)
    requires InRange(values) && SortedByOffset(values)
    ensures SortedByOffset(Stored(values))
  {
    hide AnyBands, Shown;
    assert forall i :: 0 <= i < |values| ==> Kept(values)[i].offset == values[i].offset;
  }

  /** A schema whose index tables are sorted and hold written series. */
  ghost predicate Indexed(schema: Q.Schema, series: seq<seq<seq<Point>>>, number: Score -> O.Number) {
    && schema.parse == ParseSeries(number)
    && (forall i :: 0 <= i < |schema.summaries| ==>
          schema.summaries[i].Valid() && Sorted(schema.summaries[i].rows))
    && |series| == |schema.index|
    && (forall t :: 0 <= t < |series| ==> Sorted(schema.index[t]) && HoldsSeries(schema.index[t], series[t]))
  }

  ghost predicate HoldsSeries(rows: seq<Row>, series: seq<seq<Point>>) {
    |series| == |rows| && forall p :: 0 <= p < |rows| ==> Codes(rows[p].value, series[p]) && SortedByOffset(series[p])
  }

  /** Such a schema can be read. */
  lemma IndexedIsReadable(schema: Q.Schema, series: seq<seq<seq<Point>>>, number: Score -> O.Number)
    requires Indexed(schema, series, number)
    ensures Q.Readable(schema)
  {
    hide Codes, ParseSeries, AsEntries, Sorted, O.Sorted, SortedByOffset;
    forall t, p | 0 <= t < |schema.index| && 0 <= p < |schema.index[t]|
      ensures O.Sorted(schema.parse(schema.index[t][p].value)) {
      assert HoldsSeries(schema.index[t], series[t]);
      ParsesBack(schema.index[t][p].value, series[t][p], number);
      EntriesAreSorted(series[t][p], number);
    }
  }

  /** A key's query finds, at each offset, the points of the series that was written for the key in the
      last table that has the key, as numbers and in their order. */
  lemma WrittenIsFound(schema: Q.Schema, series: seq<seq<seq<Point>>>, number: Score -> O.Number,
                       key: Bytes, t: nat, p: nat, x: nat)
    requires Indexed(schema, series, number)
    requires t < |schema.index| && p < |schema.index[t]| && schema.index[t][p].key == key
    requires forall i :: 0 <= i < p ==> schema.index[t][i].key != key
    requires forall i :: t < i < |schema.index| ==> !Q.HasKey(schema.index[i], key)
    ensures Q.Readable(schema) && p < |series[t]|
    ensures Q.Denote(Q.Leaf(Q.Exact(key)), schema, x) == AsEntries(PointsAt(series[t][p], x), number)
  {
    hide Codes, ParseSeries, AsEntries, PointsAt, Sorted, SortedByOffset, Q.HasKey, Q.Readable, Q.ExactList, O.Run;
    IndexedIsReadable(schema, series, number);
    assert HoldsSeries(schema.index[t], series[t]);
    ParsesBack(schema.index[t][p].value, series[t][p], number);
    Q.LastTableWins(schema.index, schema.parse, key, t, p);
    RunOfEntries(series[t][p], number, x);
  }

  /** A scan finds an offset exactly when a matching key has a written point there. */
  lemma ScanFindsWritten(schema: Q.Schema, series: seq<seq<seq<Point>>>, number: Score -> O.Number,
                         prefix: Bytes, parameter: Bytes, x: nat)
    requires Indexed(schema, series, number)
    ensures Q.Readable(schema)
    ensures Q.Denote(Q.Leaf(Q.Scan(prefix, parameter)), schema, x) != [] <==>
            exists t, p ::
              && 0 <= t < |schema.index| && 0 <= p < |schema.index[t]|
              && Q.ScanMatches(schema.index[t][p].key, prefix, parameter) && HasPoint(series, t, p, x)
  {
    hide Codes, ParseSeries, AsEntries, Sorted, SortedByOffset, Q.Readable, Q.ScanMatches, O.HasOffset, HasPoint;
    IndexedIsReadable(schema, series, number);
    forall t, p | 0 <= t < |schema.index| && 0 <= p < |schema.index[t]|
      ensures HasPoint(series, t, p, x) <==> O.HasOffset(schema.parse(schema.index[t][p].value), x) {
      assert HoldsSeries(schema.index[t], series[t]);
      ParsesBack(schema.index[t][p].value, series[t][p], number);
      HasPointMeans(series, t, p, number, x);
    }
    ScanMeaning(schema, prefix, parameter, x);
  }

  ghost predicate HasPoint(series: seq<seq<seq<Point>>>, t: nat, p: nat, x: nat) {
    t < |series| && p < |series[t]| && exists i :: 0 <= i < |series[t][p]| && series[t][p][i].offset == x
  }

  lemma HasPointMeans(series: seq<seq<seq<Point>>>, t: nat, p: nat, number: Score -> O.Number, x: nat)
    requires t < |series| && p < |series[t]|
    ensures HasPoint(series, t, p, x) <==> O.HasOffset(AsEntries(series[t][p], number), x)
  {
    var ps, entries := series[t][p], AsEntries(series[t][p], number);
    assert forall i :: 0 <= i < |ps| ==> entries[i].offset == ps[i].offset;
    if i :| 0 <= i < |ps| && ps[i].offset == x {
      assert entries[i].offset == x;
    }
  }

  lemma ScanMeaning(schema: Q.Schema, prefix: Bytes, parameter: Bytes, x: nat)
    requires Q.Readable(schema)
    ensures Q.Denote(Q.Leaf(Q.Scan(prefix, parameter)), schema, x) != [] <==>
            exists t, p ::
              && 0 <= t < |schema.index| && 0 <= p < |schema.index[t]|
              && Q.ScanMatches(schema.index[t][p].key, prefix, parameter)
              && O.HasOffset(schema.parse(schema.index[t][p].value), x)
  {
    hide Q.Readable, Q.ScanMatches, O.HasOffset;
    var token := Q.Scan(prefix, parameter);
    if t, p :|
      && 0 <= t < |schema.index| && 0 <= p < |schema.index[t]|
      && Q.ScanMatches(schema.index[t][p].key, prefix, parameter)
      && O.HasOffset(schema.parse(schema.index[t][p].value), x) {
      assert Q.RowsHave(schema.index[t], schema.parse, token, x);
    }
  }
}

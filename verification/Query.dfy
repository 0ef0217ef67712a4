/** The query evaluator. A query denotes, for each offset by itself, a run of entries; evaluating it gives
    the sorted list with exactly these runs. */
module Query {
  import opened Bytes
  import opened Table
  import O = OffsetLists
  import opened OffsetLists
  import opened ListOps
  import opened ScoreOps
  import opened OrderedSet
  import opened Sorting

  /** The rows of a summary table with the address of each of them, shifted by the table's base. */
  datatype Summaries = Summaries(base: nat, rows: seq<Row>, offset: seq<nat>) {
    predicate Valid() {
      |offset| == |rows|
    }
  }

  /** The tables of a schema; `parse` reads the series that a row of an index table holds. */
  datatype Schema = Schema(summaries: seq<Summaries>, index: seq<seq<Row>>, parse: Bytes -> seq<Entry>)

  ghost predicate Readable(schema: Schema) {
    && (forall i :: 0 <= i < |schema.summaries| ==>
      schema.summaries[i].Valid() && Table.Sorted(schema.summaries[i].rows))
    && (forall t :: 0 <= t < |schema.index| ==> Table.Sorted(schema.index[t]))
    && (forall t, p :: 0 <= t < |schema.index| && 0 <= p < |schema.index[t]| ==>
      O.Sorted(schema.parse(schema.index[t][p].value)))
  }

  /** A leaf names one key, or all keys that start with a prefix and contain a parameter. */
  datatype Token = Exact(key: Bytes) | Scan(prefix: Bytes, parameter: Bytes)

  datatype Query =
    | Key(key: Bytes)
    | Leaf(token: Token)
    | Or(lhs: Query, rhs: Query)
    | And(lhs: Query, rhs: Query)
    | Subtract(lhs: Query, rhs: Query)
    | Tested(lhs: Query, test: Test)
    | Compared(lhs: Query, rhs: Query, greater: bool)
    | OrderedBy(lhs: Query, rhs: Query)
    | Extreme(lhs: Query, max: bool)
    | Negate(lhs: Query)
    | Sample(lhs: Query, count: nat)

  const ZERO := Finite(0.0)

  // ---------- Looking up a key in the summary tables ----------

  /** The address of the first row with the key, in the first table that has it. */
  function KeyAddress(summaries: seq<Summaries>, key: Bytes): Option<nat>
    requires forall i :: 0 <= i < |summaries| ==> summaries[i].Valid()
  {
    if summaries == [] then None
    else
      var (found, cursor) := Cursor(summaries[0].rows, 0).SeekToKey(key);
      assert summaries[0].Valid();
      if found then Some(summaries[0].offset[cursor.pos] + summaries[0].base) else KeyAddress(summaries[1..], key)
  }

  method LookupKey(summaries: seq<Summaries>, key: Bytes) returns (r: Option<nat>)
    requires forall i :: 0 <= i < |summaries| ==> summaries[i].Valid()
    ensures r == KeyAddress(summaries, key)
  {
    for i := 0 to |summaries|
      invariant KeyAddress(summaries, key) == KeyAddress(summaries[i..], key)
    {
      assert summaries[i..][1..] == summaries[i + 1..];
      var (found, cursor) := Cursor(summaries[i].rows, 0).SeekToKey(key);
      if found {
        return Some(summaries[i].offset[cursor.pos] + summaries[i].base);
      }
    }
    r := None;
  }

  ghost predicate HasKey(rows: seq<Row>, key: Bytes) {
    exists p :: 0 <= p < |rows| && rows[p].key == key
  }

  /** The lookup gives the address of the first row with the key in the first table that has the key. */
  lemma {:induction false} FirstTableWins(summaries: seq<Summaries>, key: Bytes, t: nat, p: nat)
    requires forall i :: 0 <= i < |summaries| ==> summaries[i].Valid() && Table.Sorted(summaries[i].rows)
    requires t < |summaries| && p < |summaries[t].rows| && summaries[t].rows[p].key == key
    requires forall i :: 0 <= i < p ==> summaries[t].rows[i].key != key
    requires forall i :: 0 <= i < t ==> !HasKey(summaries[i].rows, key)
    ensures KeyAddress(summaries, key) == Some(summaries[t].offset[p] + summaries[t].base)
  {
    hide FirstNotLess, Table.Sorted;
    var (found, cursor) := Cursor(summaries[0].rows, 0).SeekToKey(key);
    FoundIffPresent(Cursor(summaries[0].rows, 0), key);
    if 0 < t {
      assert !HasKey(summaries[0].rows, key);
      FirstTableWins(summaries[1..], key, t - 1, p);
    } else {
      assert found;
      LessTrichotomy(key, key);
      assert cursor.pos == p;
    }
  }

  lemma {:induction false} NoSummaryHasKey(summaries: seq<Summaries>, key: Bytes)
    requires forall i :: 0 <= i < |summaries| ==> summaries[i].Valid() && Table.Sorted(summaries[i].rows)
    requires forall i :: 0 <= i < |summaries| ==> !HasKey(summaries[i].rows, key)
    ensures KeyAddress(summaries, key) == None
  {
    hide FirstNotLess, Table.Sorted;
    if summaries != [] {
      FoundIffPresent(Cursor(summaries[0].rows, 0), key);
      NoSummaryHasKey(summaries[1..], key);
    }
  }

  // ---------- Looking up a key in the index tables ----------

  /** Each table that has the key replaces what the tables before it gave. */
  function ExactList(index: seq<seq<Row>>, parse: Bytes -> seq<Entry>, key: Bytes): seq<Entry> {
    if index == [] then []
    else
      var n := |index| - 1;
      var (found, cursor) := Cursor(index[n], 0).SeekToKey(key);
      if found then parse(index[n][cursor.pos].value) else ExactList(index[..n], parse, key)
  }

  method LookupExact(schema: Schema, key: Bytes) returns (offsets: seq<Entry>)
    ensures offsets == ExactList(schema.index, schema.parse, key)
  {
    hide FirstNotLess;
    offsets := [];
    for i := 0 to |schema.index|
      invariant offsets == ExactList(schema.index[..i], schema.parse, key)
    {
      assert schema.index[..i + 1][..i] == schema.index[..i];
      var (found, cursor) := Cursor(schema.index[i], 0).SeekToKey(key);
      if found {
        var (row, _) := cursor.ReadRow();
        offsets := schema.parse(row.value.value);
      }
    }
    assert schema.index[..|schema.index|] == schema.index;
  }

  /** The lookup gives the series of the first row with the key in the last table that has the key. */
  lemma {:induction false} LastTableWins(index: seq<seq<Row>>, parse: Bytes -> seq<Entry>, key: Bytes, t: nat, p: nat)
    requires forall i :: 0 <= i < |index| ==> Table.Sorted(index[i])
    requires t < |index| && p < |index[t]| && index[t][p].key == key
    requires forall i :: 0 <= i < p ==> index[t][i].key != key
    requires forall i :: t < i < |index| ==> !HasKey(index[i], key)
    ensures ExactList(index, parse, key) == parse(index[t][p].value)
  {
    hide FirstNotLess, Table.Sorted;
    var n := |index| - 1;
    var (found, cursor) := Cursor(index[n], 0).SeekToKey(key);
    FoundIffPresent(Cursor(index[n], 0), key);
    if t < n {
      assert !HasKey(index[n], key);
      LastTableWins(index[..n], parse, key, t, p);
    } else {
      assert found;
      LessTrichotomy(key, key);
      assert cursor.pos == p;
    }
  }

  lemma {:induction false} NoTableHasKey(index: seq<seq<Row>>, parse: Bytes -> seq<Entry>, key: Bytes)
    requires forall i :: 0 <= i < |index| ==> Table.Sorted(index[i]) && !HasKey(index[i], key)
    ensures ExactList(index, parse, key) == []
  {
    hide FirstNotLess, Table.Sorted;
    if index != [] {
      var n := |index| - 1;
      FoundIffPresent(Cursor(index[n], 0), key);
      NoTableHasKey(index[..n], parse, key);
    }
  }

  lemma {:induction false} ExactListIsSorted(index: seq<seq<Row>>, parse: Bytes -> seq<Entry>, key: Bytes)
    requires forall t, p :: 0 <= t < |index| && 0 <= p < |index[t]| ==> O.Sorted(parse(index[t][p].value))
    ensures O.Sorted(ExactList(index, parse, key))
  {
    if index != [] {
      hide FirstNotLess, O.Sorted;
      ExactListIsSorted(index[..|index| - 1], parse, key);
    }
  }

  // ---------- Scanning for a prefix ----------

  /** `std::tolower` on ASCII. */
  function ToLower(b: Byte): Byte {
    if 'A' as int <= b <= 'Z' as int then b + 32 else b
  }

  predicate MatchesAt(text: Bytes, at: nat, pattern: Bytes) {
    at + |pattern| <= |text| && forall i :: 0 <= i < |pattern| ==> ToLower(text[at + i]) == ToLower(pattern[i])
  }

  /** The search must succeed before the end of the text, so an empty text matches nothing. */
  predicate Contains(text: Bytes, pattern: Bytes) {
    exists at :: 0 <= at < |text| && MatchesAt(text, at, pattern)
  }

  /** This is what containing a pattern means otherwise, but for the empty pattern in the empty text. */
  lemma ContainsMeaning(text: Bytes, pattern: Bytes)
    ensures Contains(text, pattern) <==>
            (exists at :: 0 <= at <= |text| && MatchesAt(text, at, pattern)) && !(text == [] && pattern == [])
  {
    if pattern == [] && text != [] {
      assert MatchesAt(text, 0, pattern);
    }
    if at :| 0 <= at <= |text| && MatchesAt(text, at, pattern) {
      assert at == |text| ==> pattern == [];
    }
  }

  /** Two bytes match when they are the same, or the same ASCII letter in two cases. */
  lemma LettersMatch(text: Bytes, at: nat, pattern: Bytes)
    ensures MatchesAt(text, at, pattern) <==>
            && at + |pattern| <= |text|
            && forall i :: 0 <= i < |pattern| ==>
                 var t, p := text[at + i], pattern[i];
                 t == p || (65 <= t <= 90 && p == t + 32) || (65 <= p <= 90 && t == p + 32)
  {
  }

  predicate ScanMatches(key: Bytes, prefix: Bytes, parameter: Bytes) {
    IsPrefix(prefix, key) && Contains(key, parameter)
  }

  /** `std::search`, ignoring case: the first match, or the end of the text. */
  method Search(text: Bytes, pattern: Bytes) returns (at: nat)
    ensures at <= |text|
    ensures at == |text| <==> !Contains(text, pattern)
    ensures at < |text| ==> MatchesAt(text, at, pattern) && forall k :: 0 <= k < at ==> !MatchesAt(text, k, pattern)
  {
    at := 0;
    while at < |text|
      invariant at <= |text| && forall k :: 0 <= k < at ==> !MatchesAt(text, k, pattern)
    {
      if MatchesAt(text, at, pattern) {
        return;
      }
      at := at + 1;
    }
  }

  /** Some of the rows matches and its series has the offset. */
  ghost predicate RowsHave(rows: seq<Row>, parse: Bytes -> seq<Entry>, token: Token, x: nat)
    requires token.Scan?
  {
    exists p :: 0 <= p < |rows| && ScanMatches(rows[p].key, token.prefix, token.parameter)
      && HasOffset(parse(rows[p].value), x)
  }

  /** What filtering every row of every table would find. */
  ghost predicate ScanHas(index: seq<seq<Row>>, parse: Bytes -> seq<Entry>, token: Token, x: nat)
    requires token.Scan?
  {
    exists t :: 0 <= t < |index| && RowsHave(index[t], parse, token, x)
  }

  lemma RowsHavePush(rows: seq<Row>, parse: Bytes -> seq<Entry>, token: Token, n: nat, x: nat)
    requires token.Scan? && n < |rows|
    ensures !RowsHave(rows[..0], parse, token, x)
    ensures RowsHave(rows[..n + 1], parse, token, x) <==>
            || RowsHave(rows[..n], parse, token, x)
            || (ScanMatches(rows[n].key, token.prefix, token.parameter) && HasOffset(parse(rows[n].value), x))
  {
    hide ScanMatches, HasOffset;
    if RowsHave(rows[..n], parse, token, x) {
      var p :| 0 <= p < n && ScanMatches(rows[..n][p].key, token.prefix, token.parameter)
        && HasOffset(parse(rows[..n][p].value), x);
      assert rows[..n + 1][p] == rows[p];
    }
    if ScanMatches(rows[n].key, token.prefix, token.parameter) && HasOffset(parse(rows[n].value), x) {
      assert rows[..n + 1][n] == rows[n];
    }
    if RowsHave(rows[..n + 1], parse, token, x) {
      var p :| 0 <= p < n + 1 && ScanMatches(rows[..n + 1][p].key, token.prefix, token.parameter)
        && HasOffset(parse(rows[..n + 1][p].value), x);
      if p < n {
        assert rows[..n][p] == rows[p];
      }
    }
  }

  /** Rows before the place of the prefix, and rows behind the first one without it, do not start with it. */
  lemma PrefixRange(rows: seq<Row>, prefix: Bytes, first: nat, end: nat)
    requires Table.Sorted(rows) && first == Cursor(rows, 0).SeekToKey(prefix).1.pos && first <= end <= |rows|
    requires end < |rows| ==> !IsPrefix(prefix, rows[end].key)
    ensures forall p :: 0 <= p < first || end <= p < |rows| ==> !IsPrefix(prefix, rows[p].key)
    ensures end < |rows| ==> !Less(rows[end].key, prefix)
  {
    hide FirstNotLess, Table.Sorted, IsPrefix, Less;
    FoundIffPresent(Cursor(rows, 0), prefix);
    forall p | (0 <= p < first || end <= p < |rows|) && IsPrefix(prefix, rows[p].key) ensures false {
      if p < first {
        PrefixIsLeq(prefix, rows[p].key);
      } else {
        SortedPair(rows, end, p);
        PrefixIsConvex(prefix, rows[end].key, rows[p].key);
      }
    }
  }

  lemma SortedPair(rows: seq<Row>, i: nat, j: nat)
    requires Table.Sorted(rows) && i <= j < |rows|
    ensures Leq(rows[i].key, rows[j].key)
  {
    LessTrichotomy(rows[i].key, rows[j].key);
    if i < j {
      assert Leq(Keys(rows)[i], Keys(rows)[j]);
    }
  }

  lemma NoneBefore(rows: seq<Row>, parse: Bytes -> seq<Entry>, token: Token, first: nat)
    requires token.Scan? && first <= |rows| && forall p :: 0 <= p < first ==> !IsPrefix(token.prefix, rows[p].key)
    ensures forall x: nat :: !RowsHave(rows[..first], parse, token, x)
  {
    hide IsPrefix, Contains, HasOffset;
  }

  lemma NoneAfter(rows: seq<Row>, parse: Bytes -> seq<Entry>, token: Token, end: nat, x: nat)
    requires token.Scan? && end <= |rows| && forall p :: end <= p < |rows| ==> !IsPrefix(token.prefix, rows[p].key)
    ensures RowsHave(rows, parse, token, x) <==> RowsHave(rows[..end], parse, token, x)
  {
    hide IsPrefix, Contains, HasOffset;
    if RowsHave(rows, parse, token, x) {
      var p :| 0 <= p < |rows| && ScanMatches(rows[p].key, token.prefix, token.parameter)
        && HasOffset(parse(rows[p].value), x);
      assert p < end && rows[..end][p] == rows[p];
    }
    if RowsHave(rows[..end], parse, token, x) {
      var p :| 0 <= p < end && ScanMatches(rows[..end][p].key, token.prefix, token.parameter)
        && HasOffset(parse(rows[..end][p].value), x);
      assert rows[p] == rows[..end][p];
    }
  }

  method AddOffsets(buffer: seq<nat>, series: seq<Entry>) returns (r: seq<nat>)
    requires Increasing(buffer)
    ensures Increasing(r)
    ensures forall x :: x in r <==> x in buffer || HasOffset(series, x)
  {
    hide Increasing;
    r := buffer;
    for i := 0 to |series|
      invariant Increasing(r)
      invariant forall x :: x in r <==> x in buffer || exists k :: 0 <= k < i && series[k].offset == x
    {
      r := OrderedSet.Insert(r, series[i].offset);
    }
  }

  /** Scans one table from the first key in range to the first key out of range. */
  method ScanTable(rows: seq<Row>, parse: Bytes -> seq<Entry>, token: Token, buffer: seq<nat>) returns (r: seq<nat>)
    requires token.Scan? && Table.Sorted(rows) && Increasing(buffer)
    ensures Increasing(r)
    ensures forall x: nat :: x in r <==> x in buffer || RowsHave(rows, parse, token, x)
  {
    hide FirstNotLess, Table.Sorted, IsPrefix, Less, Contains, HasOffset, RowsHave, Increasing;
    r := buffer;
    var cursor := Cursor(rows, 0).SeekToFirst().SeekToKey(token.prefix).1;
    ghost var first := cursor.pos;
    ghost var stopped := false;
    FoundIffPresent(Cursor(rows, 0), token.prefix);
    BeforeFirst(rows, token.prefix);
    NoneBefore(rows, parse, token, first);
    while true
      invariant cursor.rows == rows && first <= cursor.pos <= |rows| && Increasing(r)
      invariant forall x: nat :: x in r <==> x in buffer || RowsHave(rows[..cursor.pos], parse, token, x)
      decreases |rows| - cursor.pos
    {
      var (row, next) := cursor.ReadRow();
      if row.None? {
        break;
      }
      ghost var was := r;
      forall x: nat ensures RowsHave(rows[..next.pos], parse, token, x) <==>
        || RowsHave(rows[..cursor.pos], parse, token, x)
        || (ScanMatches(row.value.key, token.prefix, token.parameter) && HasOffset(parse(row.value.value), x)) {
        RowsHavePush(rows, parse, token, cursor.pos, x);
      }
      if !IsPrefix(token.prefix, row.value.key) {
        if Less(row.value.key, token.prefix) {
          cursor := next;
          continue;
        }
        break;
      }
      cursor := next;
      var at := Search(row.value.key, token.parameter);
      if at == |row.value.key| {
        continue;
      }
      r := AddOffsets(r, parse(row.value.value));
    }
    PrefixRange(rows, token.prefix, first, cursor.pos);
    forall x: nat ensures x in r <==> x in buffer || RowsHave(rows, parse, token, x) {
      NoneAfter(rows, parse, token, cursor.pos, x);
    }
  }

  lemma BeforeFirst(rows: seq<Row>, prefix: Bytes)
    requires Table.Sorted(rows)
    ensures forall p :: 0 <= p < Cursor(rows, 0).SeekToKey(prefix).1.pos ==> !IsPrefix(prefix, rows[p].key)
  {
    hide FirstNotLess, Table.Sorted, IsPrefix, Less;
    FoundIffPresent(Cursor(rows, 0), prefix);
    forall p | 0 <= p < Cursor(rows, 0).SeekToKey(prefix).1.pos && IsPrefix(prefix, rows[p].key) ensures false {
      PrefixIsLeq(prefix, rows[p].key);
    }
  }

  /** Entries without a score for a set of offsets. */
  ghost predicate PlainList(s: seq<Entry>) {
    StrictlyIncreasing(s) && forall i :: 0 <= i < |s| ==> s[i] == Entry(s[i].offset, ZERO, [])
  }

  /** The `in-` lookup finds exactly the offsets that filtering all rows of all tables would find. */
  method LookupScan(schema: Schema, token: Token) returns (offsets: seq<Entry>)
    requires Readable(schema) && token.Scan?
    ensures PlainList(offsets)
    ensures forall x: nat :: HasOffset(offsets, x) <==> ScanHas(schema.index, schema.parse, token, x)
  {
    hide Table.Sorted, RowsHave;
    var buffer: seq<nat> := [];
    for i := 0 to |schema.index|
      invariant Increasing(buffer)
      invariant forall x: nat :: x in buffer <==>
                exists t :: 0 <= t < i && RowsHave(schema.index[t], schema.parse, token, x)
    {
      hide Increasing;
      buffer := ScanTable(schema.index[i], schema.parse, token, buffer);
    }
    offsets := [];
    for i := 0 to |buffer|
      invariant |offsets| == i && forall k :: 0 <= k < i ==> offsets[k] == Entry(buffer[k], ZERO, [])
    {
      offsets := offsets + [Entry(buffer[i], ZERO, [])];
    }
    forall x: nat ensures HasOffset(offsets, x) <==> x in buffer {
      if HasOffset(offsets, x) {
        var k :| 0 <= k < |offsets| && offsets[k].offset == x;
        assert buffer[k] == x;
      }
      if x in buffer {
        var k :| 0 <= k < |buffer| && buffer[k] == x;
        assert offsets[k].offset == x;
      }
    }
  }

  // ---------- The meaning of a query ----------

  ghost function LeafRun(schema: Schema, token: Token, x: nat): seq<Entry> {
    match token
    case Exact(key) => Run(ExactList(schema.index, schema.parse, key), x)
    case Scan(_, _) => if ScanHas(schema.index, schema.parse, token, x) then [Entry(x, ZERO, [])] else []
  }

  /** What an operator makes of what its operands have at one offset. */
  function Combined(q: Query, l: seq<Entry>, r: seq<Entry>): seq<Entry>
    requires !q.Key? && !q.Leaf? && !q.Sample?
  {
    match q
    case Or(_, _) => UnionRun(l, r)
    case And(_, _) => if r == [] then [] else l
    case Subtract(_, _) => if r == [] then l else []
    case Tested(_, test) => Filter(l, test)
    case Compared(_, _, greater) => JoinRun(l, r, greater)
    case OrderedBy(_, _) => OrderRun(l, r)
    case Extreme(_, max) => Collapse(l, max)
    case Negate(_) => Negated(l)
  }

  /** Queries that leave nothing to chance. */
  predicate IsExact(q: Query) {
    match q
    case Key(_) => true
    case Leaf(_) => true
    case Or(l, r) => IsExact(l) && IsExact(r)
    case And(l, r) => IsExact(l) && IsExact(r)
    case Subtract(l, r) => IsExact(l) && IsExact(r)
    case Tested(l, _) => IsExact(l)
    case Compared(l, r, _) => IsExact(l) && IsExact(r)
    case OrderedBy(l, r) => IsExact(l) && IsExact(r)
    case Extreme(l, _) => IsExact(l)
    case Negate(l) => IsExact(l)
    case Sample(_, _) => false
  }

  /** What a query denotes at one offset. */
  ghost function Denote(q: Query, schema: Schema, x: nat): seq<Entry>
    requires Readable(schema) && IsExact(q)
  {
    match q
    case Key(key) => if KeyAddress(schema.summaries, key) == Some(x) then [Entry(x, ZERO, [])] else []
    case Leaf(token) => LeafRun(schema, token, x)
    case Or(l, r) => Combined(q, Denote(l, schema, x), Denote(r, schema, x))
    case And(l, r) => Combined(q, Denote(l, schema, x), Denote(r, schema, x))
    case Subtract(l, r) => Combined(q, Denote(l, schema, x), Denote(r, schema, x))
    case Tested(l, _) => Combined(q, Denote(l, schema, x), [])
    case Compared(l, r, _) => Combined(q, Denote(l, schema, x), Denote(r, schema, x))
    case OrderedBy(l, r) => Combined(q, Denote(l, schema, x), Denote(r, schema, x))
    case Extreme(l, _) => Combined(q, Denote(l, schema, x), [])
    case Negate(l) => Combined(q, Denote(l, schema, x), [])
  }

  /** The list is sorted and its runs are what the query denotes. */
  ghost predicate Means(s: seq<Entry>, q: Query, schema: Schema)
    requires Readable(schema) && IsExact(q)
  {
    O.Sorted(s) && forall x: nat :: Run(s, x) == Denote(q, schema, x)
  }

  // ---------- What a query may give ----------

  /** The list is sorted and an operator makes its runs of those of its operands. */
  ghost predicate Combines(s: seq<Entry>, q: Query, a: seq<Entry>, b: seq<Entry>)
    requires !q.Key? && !q.Leaf? && !q.Sample?
  {
    O.Sorted(s) && forall x: nat :: Run(s, x) == Combined(q, Run(a, x), Run(b, x))
  }

  /** A sorted choice of `count` entries, or all of them when there are no more. */
  ghost predicate IsSample(s: seq<Entry>, a: seq<Entry>, count: nat) {
    if |a| <= count then s == a else O.Sorted(s) && |s| == count && multiset(s) <= multiset(a)
  }

  /** The lists that a query may give: a sample may be any, everything else is determined. The right
      side matters only if it is evaluated. */
  ghost predicate MayGive(q: Query, schema: Schema, s: seq<Entry>)
    requires Readable(schema)
    decreases q
  {
    match q
    case Key(_) => Means(s, q, schema)
    case Leaf(_) => Means(s, q, schema)
    case Or(l, r) => exists a, b :: MayGive(l, schema, a) && MayGive(r, schema, b) && Combines(s, q, a, b)
    case And(l, r) => exists a, b :: MayGive(l, schema, a) && (a == [] || MayGive(r, schema, b)) && Combines(s, q, a, b)
    case Subtract(l, r) =>
      exists a, b :: MayGive(l, schema, a) && (a == [] || MayGive(r, schema, b)) && Combines(s, q, a, b)
    case Tested(l, _) => exists a :: MayGive(l, schema, a) && Combines(s, q, a, [])
    case Compared(l, r, _) => exists a, b :: MayGive(l, schema, a) && MayGive(r, schema, b) && Combines(s, q, a, b)
    case OrderedBy(l, r) => exists a, b :: MayGive(l, schema, a) && MayGive(r, schema, b) && Combines(s, q, a, b)
    case Extreme(l, _) => exists a :: MayGive(l, schema, a) && Combines(s, q, a, [])
    case Negate(l) => exists a :: MayGive(l, schema, a) && Combines(s, q, a, [])
    case Sample(l, count) => exists a :: MayGive(l, schema, a) && IsSample(s, a, count)
  }

  predicate IsBinary(q: Query) {
    q.Or? || q.And? || q.Subtract? || q.Compared? || q.OrderedBy?
  }

  predicate IsUnary(q: Query) {
    q.Tested? || q.Extreme? || q.Negate?
  }

  /** Whether the right side is not looked at when the left side is empty. */
  predicate MaySkip(q: Query) {
    q.And? || q.Subtract?
  }

  lemma BinaryMeaning(q: Query, schema: Schema, x: nat)
    requires Readable(schema) && IsExact(q) && IsBinary(q)
    ensures IsExact(q.lhs) && IsExact(q.rhs)
    ensures Denote(q, schema, x) == Combined(q, Denote(q.lhs, schema, x), Denote(q.rhs, schema, x))
  {
    hide Readable, Combined;
  }

  lemma UnaryMeaning(q: Query, schema: Schema, x: nat)
    requires Readable(schema) && IsExact(q) && IsUnary(q)
    ensures IsExact(q.lhs) && Denote(q, schema, x) == Combined(q, Denote(q.lhs, schema, x), [])
  {
    hide Readable, Combined;
  }

  lemma Operands(q: Query, schema: Schema, s: seq<Entry>) returns (a: seq<Entry>, b: seq<Entry>)
    requires Readable(schema) && MayGive(q, schema, s) && IsBinary(q)
    ensures MayGive(q.lhs, schema, a) && ((MaySkip(q) && a == []) || MayGive(q.rhs, schema, b)) && Combines(s, q, a, b)
  {
    hide Readable, Combines;
    if MaySkip(q) {
      a, b :| MayGive(q.lhs, schema, a) && (a == [] || MayGive(q.rhs, schema, b)) && Combines(s, q, a, b);
    } else {
      a, b :| MayGive(q.lhs, schema, a) && MayGive(q.rhs, schema, b) && Combines(s, q, a, b);
    }
  }

  lemma Operand(q: Query, schema: Schema, s: seq<Entry>) returns (a: seq<Entry>)
    requires Readable(schema) && MayGive(q, schema, s) && IsUnary(q)
    ensures MayGive(q.lhs, schema, a) && Combines(s, q, a, [])
  {
    hide Readable, Combines;
    a :| MayGive(q.lhs, schema, a) && Combines(s, q, a, []);
  }

  lemma GivesBinary(q: Query, schema: Schema, s: seq<Entry>, a: seq<Entry>, b: seq<Entry>)
    requires Readable(schema) && IsBinary(q) && Combines(s, q, a, b)
    requires MayGive(q.lhs, schema, a) && ((MaySkip(q) && a == []) || MayGive(q.rhs, schema, b))
    ensures MayGive(q, schema, s)
  {
    hide Readable, Combines;
  }

  lemma GivesUnary(q: Query, schema: Schema, s: seq<Entry>, a: seq<Entry>)
    requires Readable(schema) && IsUnary(q) && Combines(s, q, a, []) && MayGive(q.lhs, schema, a)
    ensures MayGive(q, schema, s)
  {
    hide Readable, Combines;
  }

  /** A query without samples gives only the list that it means. */
  lemma {:induction false} ExactQueriesMean(q: Query, schema: Schema, s: seq<Entry>)
    requires Readable(schema) && IsExact(q) && MayGive(q, schema, s)
    ensures Means(s, q, schema)
    decreases q
  {
    if IsBinary(q) {
      hide Readable, Run, O.Sorted, Combined, Denote, MayGive;
      var a, b := Operands(q, schema, s);
      BinaryMeaning(q, schema, 0);
      ExactQueriesMean(q.lhs, schema, a);
      EmptyRuns();
      if MaySkip(q) && a == [] {
        forall x: nat ensures Run(s, x) == Denote(q, schema, x) {
          BinaryMeaning(q, schema, x);
          SkippedSide(q, Run(b, x), Denote(q.rhs, schema, x));
        }
      } else {
        ExactQueriesMean(q.rhs, schema, b);
        forall x: nat ensures Run(s, x) == Denote(q, schema, x) {
          BinaryMeaning(q, schema, x);
        }
      }
    } else if IsUnary(q) {
      hide Readable, Run, O.Sorted, Combined, Denote, MayGive;
      var a := Operand(q, schema, s);
      UnaryMeaning(q, schema, 0);
      ExactQueriesMean(q.lhs, schema, a);
      EmptyRuns();
      forall x: nat ensures Run(s, x) == Denote(q, schema, x) {
        UnaryMeaning(q, schema, x);
      }
    } else {
      hide Readable, Run, O.Sorted, Denote;
    }
  }

  lemma SkippedSide(q: Query, b: seq<Entry>, c: seq<Entry>)
    requires MaySkip(q)
    ensures Combined(q, [], b) == Combined(q, [], c) == []
  {
  }

  lemma EmptyRuns()
    ensures O.Sorted([]) && forall x: nat :: Run([], x) == []
  {
  }

  // ---------- Evaluating a query ----------

  class OffsetVector {
    var entries: seq<Entry>

    constructor ()
      ensures entries == []
    {
      entries := [];
    }
  }

  lemma PlainRuns(s: seq<Entry>, x: nat)
    requires PlainList(s)
    ensures O.Sorted(s)
    ensures Run(s, x) == if HasOffset(s, x) then [Entry(x, ZERO, [])] else []
    decreases |s|
  {
    hide Run;
    StrictIsSorted(s);
    RunMembers(s, x);
    if s != [] {
      Unfold(s, x);
      HasOffsetTail(s, x);
      if s[0].offset == x {
        Tail(s);
        forall i | 0 <= i < |s[1..]| ensures s[1..][i].offset >= x + 1 {
          assert s[0].offset < s[i + 1].offset;
        }
        NoRunBelow(s[1..], x);
        assert [s[0]] + [] == [s[0]];
      } else {
        PlainRuns(s[1..], x);
        NothingBefore(Run(s[1..], x));
      }
    } else {
      Unfold(s, x);
      HasOffsetTail(s, x);
    }
  }

  method ProcessLeaf(offsets: OffsetVector, token: Token, schema: Schema)
    requires Readable(schema) && offsets.entries == []
    modifies offsets
    ensures Means(offsets.entries, Leaf(token), schema)
  {
    hide Run, ExactList, ScanHas, HasOffset, O.Sorted, PlainList;
    match token {
      case Exact(key) =>
        offsets.entries := LookupExact(schema, key);
        ExactListIsSorted(schema.index, schema.parse, key);
      case Scan(_, _) =>
        offsets.entries := LookupScan(schema, token);
        forall x: nat ensures O.Sorted(offsets.entries)
          && Run(offsets.entries, x) == if HasOffset(offsets.entries, x) then [Entry(x, ZERO, [])] else [] {
          PlainRuns(offsets.entries, x);
        }
        assert O.Sorted(offsets.entries) by { PlainRuns(offsets.entries, 0); }
    }
  }

  method ProcessKey(offsets: OffsetVector, key: Bytes, schema: Schema)
    requires Readable(schema) && offsets.entries == []
    modifies offsets
    ensures Means(offsets.entries, Query.Key(key), schema)
  {
    var address := LookupKey(schema.summaries, key);
    if address.Some? {
      offsets.entries := offsets.entries + [Entry(address.value, ZERO, [])];
      forall x: nat ensures Run(offsets.entries, x) == Denote(Query.Key(key), schema, x) {
        Cons(Entry(address.value, ZERO, []), [], x);
        assert [Entry(address.value, ZERO, [])] + [] == [Entry(address.value, ZERO, [])];
      }
    }
  }

  lemma OrOfNothing(q: Query, s: seq<Entry>)
    requires q.Or? && O.Sorted(s)
    ensures Combines(s, q, [], s)
  {
    hide Run, O.Sorted, UnionRun;
    EmptyRuns();
    forall x: nat ensures Run(s, x) == Combined(q, Run([], x), Run(s, x)) {
      UnionRunEnds(Run(s, x));
    }
  }

  lemma SkippingGives(q: Query)
    requires MaySkip(q)
    ensures Combines([], q, [], [])
  {
    hide Run, O.Sorted;
    EmptyRuns();
  }

  lemma {:induction false} GivenIsSorted(q: Query, schema: Schema, s: seq<Entry>)
    requires Readable(schema) && MayGive(q, schema, s)
    ensures O.Sorted(s)
    decreases q
  {
    hide Readable, Run, O.Sorted, Combined, Denote;
    if q.Sample? {
      var a :| MayGive(q.lhs, schema, a) && IsSample(s, a, q.count);
      GivenIsSorted(q.lhs, schema, a);
    } else if IsBinary(q) {
      var a, b := Operands(q, schema, s);
    } else if IsUnary(q) {
      var a := Operand(q, schema, s);
    }
  }

  /** Evaluates a query into an empty list. The right side is not evaluated when the left side is empty
      and decides the result. `draw(n, i)` stands for the generator of a sample of `n` entries. */
  method ProcessSubQuery(offsets: OffsetVector, query: Query, schema: Schema, draw: (nat, nat) -> nat)
    requires Readable(schema) && offsets.entries == [] && forall n, i :: draw(n, i) <= i
    modifies offsets
    ensures MayGive(query, schema, offsets.entries)
    ensures IsExact(query) ==> Means(offsets.entries, query, schema)
    ensures O.Sorted(offsets.entries)
    decreases query
  {
    hide Run, O.Sorted, Readable, MayGive, Means, Combines;
    if query.Key? {
      ProcessKey(offsets, query.key, schema);
      LeafGives(query, schema, offsets.entries);
    } else if query.Leaf? {
      ProcessLeaf(offsets, query.token, schema);
      LeafGives(query, schema, offsets.entries);
    } else {
      ProcessSubQuery(offsets, query.lhs, schema, draw);
      if query.Sample? {
        TakeSample(offsets, query.lhs, schema, query.count, i => draw(query.count, i));
      } else if IsUnary(query) {
        ProcessUnary(offsets, query, schema);
      } else if query.Or? && offsets.entries == [] {
        ProcessSubQuery(offsets, query.rhs, schema, draw);
        OrOfNothing(query, offsets.entries);
        GivesBinary(query, schema, offsets.entries, [], offsets.entries);
      } else if MaySkip(query) && offsets.entries == [] {
        SkippingGives(query);
        GivesBinary(query, schema, [], [], []);
      } else {
        var right := new OffsetVector();
        ProcessSubQuery(right, query.rhs, schema, draw);
        ProcessBinary(offsets, right.entries, query, schema);
      }
    }
    GivenIsSorted(query, schema, offsets.entries);
    if IsExact(query) {
      ExactQueriesMean(query, schema, offsets.entries);
    }
  }

  lemma LeafGives(q: Query, schema: Schema, s: seq<Entry>)
    requires Readable(schema) && (q.Key? || q.Leaf?) && Means(s, q, schema)
    ensures MayGive(q, schema, s)
  {
    hide Readable, Means;
  }

  method TakeSample(offsets: OffsetVector, lhs: Query, schema: Schema, count: nat, draw: nat -> nat)
    requires Readable(schema) && MayGive(lhs, schema, offsets.entries) && O.Sorted(offsets.entries)
    requires forall i :: draw(i) <= i
    modifies offsets
    ensures MayGive(Query.Sample(lhs, count), schema, offsets.entries)
  {
    hide *;
    ghost var was := offsets.entries;
    var data := Array(offsets.entries);
    var size := RandomSample(data, count, draw);
    offsets.entries := data[..size];
    assert data.Length <= count ==> data[..size] == data[..];
    GivesSample(lhs, schema, count, data[..size], was);
  }

  lemma GivesSample(lhs: Query, schema: Schema, count: nat, s: seq<Entry>, a: seq<Entry>)
    requires Readable(schema) && MayGive(lhs, schema, a)
    requires if |a| <= count then s == a else O.Sorted(s) && |s| == count && multiset(s) <= multiset(a)
    ensures MayGive(Query.Sample(lhs, count), schema, s)
  {
    hide Readable, O.Sorted;
    assert IsSample(s, a, count);
  }

  /** The operators that look at one list. */
  method ProcessUnary(offsets: OffsetVector, query: Query, schema: Schema)
    requires Readable(schema) && IsUnary(query)
    requires MayGive(query.lhs, schema, offsets.entries) && O.Sorted(offsets.entries)
    modifies offsets
    ensures MayGive(query, schema, offsets.entries)
  {
    hide Run, O.Sorted, Readable, MayGive, Filter, Collapse, Negated;
    ghost var was := offsets.entries;
    match query {
      case Tested(_, test) =>
        offsets.entries := Filter(offsets.entries, test);
        FilteredMeans(was, test);
      case Extreme(_, max) =>
        var data := Array(offsets.entries);
        var size := KeepExtreme(data, max);
        StrictIsSorted(data[..size]);
        offsets.entries := data[..size];
      case Negate(_) =>
        offsets.entries := Negated(offsets.entries);
        NegatedMeans(was);
    }
    GivesUnary(query, schema, offsets.entries, was);
  }

  /** The operators that look at two lists. */
  method ProcessBinary(offsets: OffsetVector, rhs: seq<Entry>, query: Query, schema: Schema)
    requires Readable(schema) && IsBinary(query)
    requires MayGive(query.lhs, schema, offsets.entries) && O.Sorted(offsets.entries)
    requires MayGive(query.rhs, schema, rhs) && O.Sorted(rhs)
    modifies offsets
    ensures MayGive(query, schema, offsets.entries)
  {
    hide Run, O.Sorted, Readable, MayGive, UnionRun, JoinRun, OrderRun;
    ghost var was := offsets.entries;
    match query {
      case Or(_, _) =>
        offsets.entries := UnionOffsets(offsets.entries, rhs);
      case And(_, _) =>
        var data := Array(offsets.entries);
        var size := IntersectOffsets(data, rhs);
        offsets.entries := data[..size];
      case Subtract(_, _) =>
        var data := Array(offsets.entries);
        var size := SubtractOffsets(data, rhs);
        offsets.entries := data[..size];
      case Compared(_, _, greater) =>
        var data := Array(offsets.entries);
        var size := Join(data, rhs, greater);
        offsets.entries := data[..size];
      case OrderedBy(_, _) =>
        var data := Array(offsets.entries);
        OrderBy(data, rhs);
        offsets.entries := data[..];
    }
    GivesBinary(query, schema, offsets.entries, was, rhs);
  }

  /** A vector's storage. */
  method Array(s: seq<Entry>) returns (a: array<Entry>)
    ensures fresh(a) && a[..] == s
  {
    a := new Entry[|s|](i requires 0 <= i < |s| => s[i]);
  }

  lemma FilteredMeans(s: seq<Entry>, test: Test)
    requires O.Sorted(s)
    ensures O.Sorted(Filter(s, test)) && forall x: nat :: Run(Filter(s, test), x) == Filter(Run(s, x), test)
  {
    hide Run, O.Sorted, AtLeast, Filter;
    ZeroIsLeast(s);
    FilterRuns(s, test, 0, 0);
    forall x: nat ensures Run(Filter(s, test), x) == Filter(Run(s, x), test) {
      FilterRuns(s, test, x, 0);
    }
  }

  lemma NegatedMeans(s: seq<Entry>)
    requires O.Sorted(s)
    ensures O.Sorted(Negated(s)) && forall x: nat :: Run(Negated(s), x) == Negated(Run(s, x))
  {
    hide Run, O.Sorted, AtLeast, Negated;
    ZeroIsLeast(s);
    NegatedRuns(s, 0, 0);
    forall x: nat ensures Run(Negated(s), x) == Negated(Run(s, x)) {
      NegatedRuns(s, x, 0);
    }
  }

  /** One entry for each offset of a list, with the best of its scores. */
  ghost predicate Collapses(s: seq<Entry>, a: seq<Entry>, useMax: bool) {
    StrictlyIncreasing(s) && forall x: nat :: Run(s, x) == Collapse(Run(a, x), useMax)
  }

  /** `ProcessQuery`: one entry for each offset that the query matches, with the best of its scores. */
  method ProcessQuery(offsets: OffsetVector, query: Query, schema: Schema, useMax: bool, draw: (nat, nat) -> nat)
    requires Readable(schema) && offsets.entries == [] && forall n, i :: draw(n, i) <= i
    modifies offsets
    ensures exists a :: MayGive(query, schema, a) && Collapses(offsets.entries, a, useMax)
    ensures StrictlyIncreasing(offsets.entries)
    ensures IsExact(query) ==>
              forall x: nat :: Run(offsets.entries, x) == Collapse(Denote(query, schema, x), useMax)
  {
    hide Run, O.Sorted, Readable, Denote, Collapse, MayGive;
    ProcessSubQuery(offsets, query, schema, draw);
    ghost var was := offsets.entries;
    var data := Array(offsets.entries);
    var size := RemoveDuplicates(data, useMax);
    offsets.entries := data[..size];
    assert Collapses(offsets.entries, was, useMax);
  }

  // ---------- Set algebra ----------

  /** Queries built from leaves by OR, AND and AND NOT. */
  predicate IsBoolean(q: Query): (r: bool)
    ensures r ==> IsExact(q)
  {
    match q
    case Key(_) => true
    case Leaf(_) => true
    case Or(l, r) => IsBoolean(l) && IsBoolean(r)
    case And(l, r) => IsBoolean(l) && IsBoolean(r)
    case Subtract(l, r) => IsBoolean(l) && IsBoolean(r)
    case _ => false
  }

  ghost predicate Matches(q: Query, schema: Schema, x: nat)
    requires Readable(schema) && IsBoolean(q)
  {
    match q
    case Key(key) => KeyAddress(schema.summaries, key) == Some(x)
    case Leaf(Exact(key)) => HasOffset(ExactList(schema.index, schema.parse, key), x)
    case Leaf(Scan(p, s)) => ScanHas(schema.index, schema.parse, Scan(p, s), x)
    case Or(l, r) => Matches(l, schema, x) || Matches(r, schema, x)
    case And(l, r) => Matches(l, schema, x) && Matches(r, schema, x)
    case Subtract(l, r) => Matches(l, schema, x) && !Matches(r, schema, x)
  }

  /** OR, AND and AND NOT are union, intersection and difference of the sets of offsets. */
  lemma {:induction false} BooleanQueries(q: Query, schema: Schema, x: nat)
    requires Readable(schema) && IsBoolean(q)
    ensures Denote(q, schema, x) != [] <==> Matches(q, schema, x)
  {
    hide Readable, Run, ExactList, HasOffset, ScanHas, KeyAddress;
    match q {
      case Key(_) =>
      case Leaf(Exact(key)) => RunMembers(ExactList(schema.index, schema.parse, key), x);
      case Leaf(Scan(_, _)) =>
      case Or(l, r) =>
        BooleanQueries(l, schema, x);
        BooleanQueries(r, schema, x);
      case And(l, r) =>
        BooleanQueries(l, schema, x);
        BooleanQueries(r, schema, x);
      case Subtract(l, r) =>
        BooleanQueries(l, schema, x);
        BooleanQueries(r, schema, x);
    }
  }

  /** Every run has the offset that it is the run of, so the result of a query is one sorted list only. */
  lemma MeaningIsUnique(a: seq<Entry>, b: seq<Entry>, q: Query, schema: Schema)
    requires Readable(schema) && IsExact(q) && Means(a, q, schema) && Means(b, q, schema)
    ensures a == b
  {
    hide Run, O.Sorted, Denote, Readable;
    RunsDetermine(a, b);
  }

  // ---------- What each operator finds ----------

  /** A test takes, in their order, the entries whose scores pass as real numbers. */
  lemma TestedFinds(q: Query, test: Test, schema: Schema, x: nat) returns (idx: seq<nat>)
    requires Readable(schema) && IsExact(q)
    ensures TakenFrom(Denote(Tested(q, test), schema, x), Denote(q, schema, x), idx)
    ensures var was := Denote(q, schema, x);
            && (test.Equal? && test.value.Finite? ==>
                  forall i: nat :: i < |was| ==> (i in idx <==> was[i].score.Finite? && was[i].score.r == test.value.r))
            && (test.Greater? && test.value.Finite? ==>
                  forall i: nat :: i < |was| ==>
                    (i in idx <==>
                      || was[i].score.PlusInfinity?
                      || (was[i].score.Finite? && was[i].score.r > test.value.r)))
            && (test.AtLeastValue? && test.value.Finite? ==>
                  forall i: nat :: i < |was| ==>
                    (i in idx <==>
                      || was[i].score.PlusInfinity?
                      || (was[i].score.Finite? && was[i].score.r >= test.value.r)))
            && (test.Smaller? && test.value.Finite? ==>
                  forall i: nat :: i < |was| ==>
                    (i in idx <==>
                      || was[i].score.MinusInfinity?
                      || (was[i].score.Finite? && was[i].score.r < test.value.r)))
            && (test.AtMost? && test.value.Finite? ==>
                  forall i: nat :: i < |was| ==>
                    (i in idx <==>
                      || was[i].score.MinusInfinity?
                      || (was[i].score.Finite? && was[i].score.r <= test.value.r)))
            && (test.Between? && test.low.Finite? && test.high.Finite? ==>
                  forall i: nat :: i < |was| ==>
                    (i in idx <==>
                      && was[i].score.Finite?
                      && (test.low.r <= was[i].score.r <= test.high.r || test.high.r <= was[i].score.r <= test.low.r)))
  {
    hide Readable, Denote, Filter, Test.Passes, TakenFrom;
    UnaryMeaning(Tested(q, test), schema, x);
    idx := FilterTakes(Denote(q, schema, x), test);
    forall i: nat | i < |Denote(q, schema, x)| ensures
      var s := Denote(q, schema, x)[i].score;
      && (i in idx <==> test.Passes(s))
      && (test.Equal? && test.value.Finite? ==> (test.Passes(s) <==> s.Finite? && s.r == test.value.r))
      && (test.Greater? && test.value.Finite? ==>
            (test.Passes(s) <==> s.PlusInfinity? || (s.Finite? && s.r > test.value.r)))
      && (test.AtLeastValue? && test.value.Finite? ==>
            (test.Passes(s) <==> s.PlusInfinity? || (s.Finite? && s.r >= test.value.r)))
      && (test.Smaller? && test.value.Finite? ==>
            (test.Passes(s) <==> s.MinusInfinity? || (s.Finite? && s.r < test.value.r)))
      && (test.AtMost? && test.value.Finite? ==>
            (test.Passes(s) <==> s.MinusInfinity? || (s.Finite? && s.r <= test.value.r)))
      && (test.Between? && test.low.Finite? && test.high.Finite? ==>
            (test.Passes(s) <==> s.Finite? && (test.low.r <= s.r <= test.high.r || test.high.r <= s.r <= test.low.r))) {
      TestMeaning(test, Denote(q, schema, x)[i].score);
    }
  }

  lemma TestMeaning(test: Test, s: Number)
    ensures test.Equal? && test.value.Finite? ==> (test.Passes(s) <==> s.Finite? && s.r == test.value.r)
    ensures test.Greater? && test.value.Finite? ==>
              (test.Passes(s) <==> s.PlusInfinity? || (s.Finite? && s.r > test.value.r))
    ensures test.AtLeastValue? && test.value.Finite? ==>
              (test.Passes(s) <==> s.PlusInfinity? || (s.Finite? && s.r >= test.value.r))
    ensures test.Smaller? && test.value.Finite? ==>
              (test.Passes(s) <==> s.MinusInfinity? || (s.Finite? && s.r < test.value.r))
    ensures test.AtMost? && test.value.Finite? ==>
              (test.Passes(s) <==> s.MinusInfinity? || (s.Finite? && s.r <= test.value.r))
    ensures test.Between? && test.low.Finite? && test.high.Finite? ==>
              (test.Passes(s) <==> s.Finite? && (test.low.r <= s.r <= test.high.r || test.high.r <= s.r <= test.low.r))
  {
    hide Test.Passes;
    match test {
      case Between(low, high) =>
        if low.Finite? && high.Finite? {
          PassesMeaning(low.r, high.r, s);
        }
      case _ =>
        if test.value.Finite? {
          PassesMeaning(test.value.r, 0.0, s);
        }
    }
  }

  /** A comparison takes, in their order, the left entries whose finite scores are greater (or smaller) than
      those that stand at the same place on the right. */
  lemma ComparedFinds(l: Query, r: Query, greater: bool, schema: Schema, x: nat) returns (idx: seq<nat>)
    requires Readable(schema) && IsExact(l) && IsExact(r)
    ensures TakenFrom(Denote(Compared(l, r, greater), schema, x), Denote(l, schema, x), idx)
    ensures var p, q := Denote(l, schema, x), Denote(r, schema, x);
            && (forall i: nat :: i in idx ==> i < |p| && i < |q|)
            && (forall i: nat :: i < |p| && i < |q| && p[i].score.Finite? && q[i].score.Finite? ==>
                  (i in idx <==> if greater then p[i].score.r > q[i].score.r else p[i].score.r < q[i].score.r))
  {
    hide Readable, Denote, JoinRun, TakenFrom;
    BinaryMeaning(Compared(l, r, greater), schema, x);
    idx := JoinTakes(Denote(l, schema, x), Denote(r, schema, x), greater);
  }

  /** Ordering puts the right scores on the left entries, and minus infinity where there are none. */
  lemma OrderedFinds(l: Query, r: Query, schema: Schema, x: nat)
    requires Readable(schema) && IsExact(l) && IsExact(r)
    ensures var p, q, s := Denote(l, schema, x), Denote(r, schema, x), Denote(OrderedBy(l, r), schema, x);
            && |s| == |p|
            && forall k :: 0 <= k < |p| ==> s[k] == p[k].(score := if k < |q| then q[k].score else MinusInfinity)
  {
    hide Readable, Denote, OrderRun;
    BinaryMeaning(OrderedBy(l, r), schema, x);
    OrderMeaning(Denote(l, schema, x), Denote(r, schema, x));
  }

  /** MAX and MIN leave one entry, with the greatest or the least of the finite scores. */
  lemma ExtremeFinds(q: Query, max: bool, schema: Schema, x: nat)
    requires Readable(schema) && IsExact(q)
    ensures var run, s := Denote(q, schema, x), Denote(Extreme(q, max), schema, x);
            && (run == [] ==> s == [])
            && (run != [] && (forall i :: 0 <= i < |run| ==> run[i].score.Finite?) ==>
                  && |s| == 1 && s[0].score.Finite? && s[0] == run[0].(score := s[0].score)
                  && (exists i :: 0 <= i < |run| && run[i].score == s[0].score)
                  && forall i :: 0 <= i < |run| ==>
                       if max then run[i].score.r <= s[0].score.r else run[i].score.r >= s[0].score.r)
  {
    hide Readable, Denote, Collapse;
    UnaryMeaning(Extreme(q, max), schema, x);
    CollapseMeaning(Denote(q, schema, x), max);
  }

  /** Negation turns the sign of every finite score, and exchanges the infinities. */
  lemma NegateFinds(q: Query, schema: Schema, x: nat)
    requires Readable(schema) && IsExact(q)
    ensures var run, s := Denote(q, schema, x), Denote(Negate(q), schema, x);
            && |s| == |run|
            && forall k :: 0 <= k < |run| ==>
                 && s[k] == run[k].(score := s[k].score)
                 && (run[k].score.Finite? ==> s[k].score == Finite(0.0 - run[k].score.r))
                 && (run[k].score.PlusInfinity? ==> s[k].score.MinusInfinity?)
                 && (run[k].score.MinusInfinity? ==> s[k].score.PlusInfinity?)
  {
    hide Readable, Denote, Negated;
    UnaryMeaning(Negate(q), schema, x);
    NegatedRunMeaning(Denote(q, schema, x));
  }

  /** OR takes the right entries, and the left ones beyond their number. */
  lemma OrFinds(l: Query, r: Query, schema: Schema, x: nat)
    requires Readable(schema) && IsExact(l) && IsExact(r)
    ensures var p, q, s := Denote(l, schema, x), Denote(r, schema, x), Denote(Or(l, r), schema, x);
            && |s| == (if |p| > |q| then |p| else |q|)
            && forall k :: 0 <= k < |s| ==> s[k] == if k < |q| then q[k] else p[k]
  {
    hide Readable, Denote, UnionRun;
    BinaryMeaning(Or(l, r), schema, x);
    UnionMeaning(Denote(l, schema, x), Denote(r, schema, x));
  }

  /** AND and AND NOT take all left entries or none. */
  lemma AndFinds(l: Query, r: Query, schema: Schema, x: nat)
    requires Readable(schema) && IsExact(l) && IsExact(r)
    ensures Denote(And(l, r), schema, x) == if Denote(r, schema, x) == [] then [] else Denote(l, schema, x)
    ensures Denote(Subtract(l, r), schema, x) == if Denote(r, schema, x) == [] then Denote(l, schema, x) else []
  {
    hide Readable, Denote;
    BinaryMeaning(And(l, r), schema, x);
    BinaryMeaning(Subtract(l, r), schema, x);
  }

  /** A key finds its address and a scan finds offsets, both with the score zero; an exact leaf finds entries
      of the key's series as they are. */
  lemma LeavesFind(key: Bytes, prefix: Bytes, parameter: Bytes, schema: Schema, x: nat)
    requires Readable(schema)
    ensures Denote(Query.Key(key), schema, x) ==
            if KeyAddress(schema.summaries, key) == Some(x) then [Entry(x, Finite(0.0), [])] else []
    ensures var s := Denote(Leaf(Scan(prefix, parameter)), schema, x); s == [] || s == [Entry(x, Finite(0.0), [])]
    ensures Denote(Leaf(Exact(key)), schema, x) == Run(ExactList(schema.index, schema.parse, key), x)
  {
    hide Readable, ExactList, ScanHas, KeyAddress, Run;
  }
}

/** The loader: a state machine fed with one character at a time, which flushes the values of a key as soon
    as it can tell that the next key is another one. */
module Loader {
  import opened Bytes
  import opened Table
  import O = OffsetLists
  import opened OffsetLists
  import opened ScoreOps
  import opened Sorting
  import opened Lines

  // ---------- Writing one group ----------

  /** What the threshold leaves of a series. */
  function Survivors(c: Config, series: seq<Entry>): seq<Entry> {
    match c.threshold
    case None => series
    case Some(t) => Filter(series, AtLeastValue(t))
  }

  /** The group passes the filters with at least one value. */
  predicate IsWritten(c: Config, g: Group) {
    c.keep(g.key) && Survivors(c, g.series) != []
  }

  /** A key without the prefix that is to be stripped ends the load. */
  predicate GroupFails(c: Config, g: Group) {
    IsWritten(c, g) && !IsPrefix(c.strip, g.key)
  }

  /** The bytes before the first zero byte. */
  function CString(b: Bytes): Bytes {
    if b == [] || b[0] == 0 then [] else [b[0]] + CString(b[1..])
  }

  lemma {:induction false} CStringTwice(b: Bytes)
    ensures CString(CString(b)) == CString(b)
  {
    if b != [] && b[0] != 0 {
      CStringTwice(b[1..]);
      assert CString(b)[1..] == CString(b[1..]);
    }
  }

  function WrittenKey(c: Config, key: Bytes): Bytes
    requires IsPrefix(c.strip, key)
  {
    CString(c.add + CString(key[|c.strip|..]))
  }

  /** A key is written up to its first zero byte. */
  lemma {:induction false} CStringMeaning(b: Bytes)
    ensures var r := CString(b);
            && |r| <= |b| && r == b[..|r|] && (forall i :: 0 <= i < |r| ==> b[i] != 0)
            && (|r| < |b| ==> b[|r|] == 0)
  {
    if b != [] && b[0] != 0 {
      CStringMeaning(b[1..]);
      var r := CString(b[1..]);
      assert b == [b[0]] + b[1..] && CString(b) == [b[0]] + r && b[..1 + |r|] == [b[0]] + b[1..][..|r|];
    }
  }

  predicate NoZero(b: Bytes) {
    forall i :: 0 <= i < |b| ==> b[i] != 0
  }

  lemma {:induction false} CStringWhole(b: Bytes)
    ensures |CString(b)| <= |b|
    ensures CString(b) == b <==> NoZero(b)
  {
    if b != [] {
      CStringWhole(b[1..]);
      assert b == [b[0]] + b[1..];
      assert NoZero(b) <==> b[0] != 0 && NoZero(b[1..]);
    }
  }

  lemma {:induction false} CStringAppend(a: Bytes, b: Bytes)
    ensures CString(a + CString(b)) == CString(a + b)
  {
    if a == [] {
      CStringTwice(b);
      assert a + CString(b) == CString(b) && a + b == b;
    } else {
      CStringAppend(a[1..], b);
      assert (a + CString(b))[1..] == a[1..] + CString(b) && (a + b)[1..] == a[1..] + b;
    }
  }

  /** The key that a group would have, were it not for zero bytes. */
  function FullKey(c: Config, key: Bytes): Bytes
    requires IsPrefix(c.strip, key)
  {
    c.add + key[|c.strip|..]
  }

  /** A group is written under its full key exactly when that has no zero byte, and otherwise under what
      comes before the first one. */
  lemma WrittenWhole(c: Config, key: Bytes)
    requires IsPrefix(c.strip, key)
    ensures WrittenKey(c, key) == CString(FullKey(c, key))
    ensures WrittenKey(c, key) == FullKey(c, key) <==> NoZero(FullKey(c, key))
  {
    CStringAppend(c.add, key[|c.strip|..]);
    CStringWhole(FullKey(c, key));
  }

  lemma FullKeysDiffer(c: Config, a: Bytes, b: Bytes)
    requires IsPrefix(c.strip, a) && IsPrefix(c.strip, b)
    ensures FullKey(c, a) == FullKey(c, b) <==> a == b
  {
    var n := |c.strip|;
    assert a == a[..n] + a[n..] && b == b[..n] + b[n..];
    assert FullKey(c, a)[|c.add|..] == a[n..] && FullKey(c, b)[|c.add|..] == b[n..];
  }

  /** Two keys are written as two when one has no zero byte and is not what comes before the first one
      in the other. */
  lemma KeysStayApart(c: Config, a: Bytes, b: Bytes)
    requires IsPrefix(c.strip, a) && IsPrefix(c.strip, b) && NoZero(FullKey(c, a))
    ensures WrittenKey(c, a) == WrittenKey(c, b) <==> FullKey(c, a) == CString(FullKey(c, b))
    ensures NoZero(FullKey(c, b)) ==> (WrittenKey(c, a) == WrittenKey(c, b) <==> a == b)
  {
    WrittenWhole(c, a);
    WrittenWhole(c, b);
    FullKeysDiffer(c, a, b);
  }

  /** The keys "a" and "a" with a zero byte behind it are in order and different, and written as one. */
  lemma ZeroByteJoinsKeys(c: Config)
    requires c.strip == [] && c.add == []
    ensures Less([97], [97, 0]) && WrittenKey(c, [97]) == WrittenKey(c, [97, 0]) == [97]
  {
    WrittenWhole(c, [97]);
    WrittenWhole(c, [97, 0]);
    assert FullKey(c, [97]) == [97] && FullKey(c, [97, 0]) == [97, 0];
    var tail: Bytes, short: Bytes := [0], [97];
    assert CString(tail) == [] && CString(short[1..]) == [];
    var long: Bytes := [97, 0];
    assert long[1..] == tail;
    assert Less([], tail);
  }

  /** The row written for a group holds its surviving values, sorted by offset. */
  ghost predicate WritesGroup(c: Config, g: Group, w: Group) {
    && IsPrefix(c.strip, g.key) && w.key == WrittenKey(c, g.key)
    && O.Sorted(w.series) && multiset(w.series) == multiset(Survivors(c, g.series))
  }

  /** The rows written for a list of groups. */
  ghost predicate WritesGroups(c: Config, groups: seq<Group>, written: seq<Group>) {
    if groups == [] then written == []
    else
      var n := |groups| - 1;
      if !IsWritten(c, groups[n]) then WritesGroups(c, groups[..n], written)
      else
        && written != [] && WritesGroup(c, groups[n], written[|written| - 1])
        && WritesGroups(c, groups[..n], written[..|written| - 1])
  }

  lemma WritesPush(c: Config, groups: seq<Group>, written: seq<Group>, g: Group)
    requires WritesGroups(c, groups, written)
    ensures !IsWritten(c, g) ==> WritesGroups(c, groups + [g], written)
    ensures forall w :: IsWritten(c, g) && WritesGroup(c, g, w) ==> WritesGroups(c, groups + [g], written + [w])
  {
    hide IsWritten, WritesGroup;
    assert (groups + [g])[..|groups|] == groups;
    forall w | IsWritten(c, g) && WritesGroup(c, g, w) ensures WritesGroups(c, groups + [g], written + [w]) {
      assert (written + [w])[..|written|] == written;
    }
  }

  ghost predicate NoZeroKeys(c: Config, groups: seq<Group>) {
    forall i :: 0 <= i < |groups| && IsPrefix(c.strip, groups[i].key) ==> NoZero(FullKey(c, groups[i].key))
  }

  /** Some group has this full key. */
  ghost predicate IsFullKey(c: Config, groups: seq<Group>, key: Bytes) {
    exists i :: 0 <= i < |groups| && IsPrefix(c.strip, groups[i].key) && FullKey(c, groups[i].key) == key
  }

  lemma NewKey(c: Config, groups: seq<Group>, g: Group)
    requires GroupsAscend(groups + [g]) && IsPrefix(c.strip, g.key)
    ensures !IsFullKey(c, groups, FullKey(c, g.key)) && IsFullKey(c, groups + [g], FullKey(c, g.key))
  {
    hide FullKey, IsPrefix, Less;
    var all := groups + [g];
    assert all[|groups|] == g;
    forall i | 0 <= i < |groups| && IsPrefix(c.strip, groups[i].key)
      ensures FullKey(c, groups[i].key) != FullKey(c, g.key) {
      assert all[i] == groups[i] && Less(all[i].key, all[|groups|].key);
      LessTrichotomy(groups[i].key, g.key);
      FullKeysDiffer(c, groups[i].key, g.key);
    }
  }

  lemma StillFullKey(c: Config, groups: seq<Group>, g: Group, key: Bytes)
    requires IsFullKey(c, groups, key)
    ensures IsFullKey(c, groups + [g], key)
  {
    hide FullKey, IsPrefix;
    var i :| 0 <= i < |groups| && IsPrefix(c.strip, groups[i].key) && FullKey(c, groups[i].key) == key;
    assert (groups + [g])[i] == groups[i];
  }

  /** When keys ascend and have no zero bytes, every row is written under the full key of a group, and no
      key is written twice. */
  lemma {:induction false} EachKeyOnce(c: Config, groups: seq<Group>, written: seq<Group>)
    requires GroupsAscend(groups) && NoZeroKeys(c, groups) && WritesGroups(c, groups, written)
    ensures forall j :: 0 <= j < |written| ==> IsFullKey(c, groups, written[j].key)
    ensures forall i, j :: 0 <= i < j < |written| ==> written[i].key != written[j].key
    decreases |groups|
  {
    if groups != [] {
      hide IsWritten, IsPrefix, FullKey, NoZero, WrittenKey, Less, IsFullKey, O.Sorted;
      var n := |groups| - 1;
      var init, g := groups[..n], groups[n];
      assert groups == init + [g];
      var kept := if IsWritten(c, g) then written[..|written| - 1] else written;
      EachKeyOnce(c, init, kept);
      forall j | 0 <= j < |kept| ensures IsFullKey(c, groups, kept[j].key) {
        StillFullKey(c, init, g, kept[j].key);
      }
      if IsWritten(c, g) {
        WrittenWhole(c, g.key);
        NewKey(c, init, g);
      }
    }
  }

  /** `std::sort` of the values that did not arrive in order; what it does with equal offsets is left open. */
  method SortTail(values: seq<Entry>, from: nat) returns (r: seq<Entry>)
    requires from <= |values|
    ensures |r| == |values| && r[..from] == values[..from] && O.Sorted(r[from..]) && multiset(r) == multiset(values)
  {
    SortSorts(values[from..]);
    r := values[..from] + SortByOffset(values[from..]);
    assert values == values[..from] + values[from..];
    assert r[from..] == SortByOffset(values[from..]);
    SortKeepsLength(values[from..]);
  }

  lemma {:induction false} SurvivorsPermute(c: Config, a: seq<Entry>, b: seq<Entry>)
    requires multiset(a) == multiset(b)
    ensures multiset(Survivors(c, a)) == multiset(Survivors(c, b))
  {
    if c.threshold.Some? {
      var test := AtLeastValue(c.threshold.value);
      forall e ensures multiset(Filter(a, test))[e] == multiset(Filter(b, test))[e] {
        FilterCounts(a, test, e);
        FilterCounts(b, test, e);
      }
    }
  }

  lemma {:induction false} FilterCounts(s: seq<Entry>, test: Test, e: Entry)
    ensures multiset(Filter(s, test))[e] == if test.Passes(e.score) then multiset(s)[e] else 0
  {
    if s != [] {
      hide Test.Passes;
      FilterCounts(s[1..], test, e);
      assert s == [s[0]] + s[1..];
    }
  }

  lemma EmptyPermutes(a: seq<Entry>, b: seq<Entry>)
    requires multiset(a) == multiset(b)
    ensures a == [] <==> b == []
  {
    assert |multiset(a)| == |a| && |multiset(b)| == |b|;
  }

  // ---------- What is written, as bytes and numbers ----------

  /** No threshold, or a score that is not below it. */
  ghost predicate Reaches(score: Number, threshold: Option<Number>) {
    || threshold.None? || threshold.value.MinusInfinity? || score.PlusInfinity?
    || (threshold.value.Finite? && score.Finite? && score.r >= threshold.value.r)
  }

  /** The row for a group: its stripped and extended key up to the first zero byte, and those of its values
      that reach the threshold, each as often as it occurs, with increasing offsets. */
  ghost predicate IsRowOf(c: Config, g: Group, row: Group) {
    && |c.strip| <= |g.key| && g.key[..|c.strip|] == c.strip
    && row.key == CString(c.add + g.key[|c.strip|..])
    && (forall i, j :: 0 <= i < j < |row.series| ==> row.series[i].offset <= row.series[j].offset)
    && (forall e :: multiset(row.series)[e] == if Reaches(e.score, c.threshold) then multiset(g.series)[e] else 0)
  }

  /** The rows are those of the groups, in order, that pass the shard and key filters with a value that
      reaches the threshold; `idx` tells which groups these are. */
  ghost predicate RowsAre(c: Config, groups: seq<Group>, rows: seq<Group>, idx: seq<nat>) {
    && |idx| == |rows| && Places(idx, |groups|)
    && (forall i :: 0 <= i < |groups| ==>
          (i in idx <==> c.keep(groups[i].key) && exists e :: e in groups[i].series && Reaches(e.score, c.threshold)))
    && (forall j :: 0 <= j < |rows| ==> IsRowOf(c, groups[idx[j]], rows[j]))
  }

  lemma ReachesMeaning(c: Config, score: Number)
    requires c.threshold.Some?
    ensures Reaches(score, c.threshold) <==> AtLeastValue(c.threshold.value).Passes(score)
  {
  }

  lemma SurvivorsCount(c: Config, series: seq<Entry>, e: Entry)
    ensures multiset(Survivors(c, series))[e] == if Reaches(e.score, c.threshold) then multiset(series)[e] else 0
  {
    hide Filter, Reaches, Test.Passes;
    if c.threshold.Some? {
      FilterCounts(series, AtLeastValue(c.threshold.value), e);
      ReachesMeaning(c, e.score);
    } else {
      NothingToReach(e.score);
    }
  }

  lemma NothingToReach(score: Number)
    ensures Reaches(score, None)
  {
  }

  lemma WrittenMeaning(c: Config, g: Group)
    ensures IsWritten(c, g) <==> c.keep(g.key) && exists e :: e in g.series && Reaches(e.score, c.threshold)
  {
    hide Survivors, Reaches;
    var left := Survivors(c, g.series);
    if left != [] {
      SurvivorsCount(c, g.series, left[0]);
      assert left[0] in multiset(left) && left[0] in multiset(g.series);
    }
    if e :| e in g.series && Reaches(e.score, c.threshold) {
      SurvivorsCount(c, g.series, e);
      assert e in multiset(g.series) && e in multiset(left);
    }
  }

  lemma RowMeaning(c: Config, g: Group, row: Group)
    requires WritesGroup(c, g, row)
    ensures IsRowOf(c, g, row)
  {
    hide Survivors, Reaches, CString;
    WrittenWhole(c, g.key);
    forall e ensures multiset(row.series)[e] == if Reaches(e.score, c.threshold) then multiset(g.series)[e] else 0 {
      SurvivorsCount(c, g.series, e);
    }
  }

  lemma {:induction false} RowsMeaning(c: Config, groups: seq<Group>, rows: seq<Group>) returns (idx: seq<nat>)
    requires WritesGroups(c, groups, rows)
    ensures RowsAre(c, groups, rows, idx)
    decreases |groups|
  {
    hide IsWritten, WritesGroup, IsRowOf, Reaches;
    if groups == [] {
      idx := [];
    } else {
      var n := |groups| - 1;
      WrittenMeaning(c, groups[n]);
      if !IsWritten(c, groups[n]) {
        idx := RowsMeaning(c, groups[..n], rows);
        RowsPass(c, groups, rows, idx);
      } else {
        var m := |rows| - 1;
        var before := RowsMeaning(c, groups[..n], rows[..m]);
        idx := before + [n];
        RowMeaning(c, groups[n], rows[m]);
        RowsAdd(c, groups, rows, before);
      }
    }
  }

  lemma RowsPass(c: Config, groups: seq<Group>, rows: seq<Group>, idx: seq<nat>)
    requires groups != [] && RowsAre(c, groups[..|groups| - 1], rows, idx)
    requires !(c.keep(groups[|groups| - 1].key)
               && exists e :: e in groups[|groups| - 1].series && Reaches(e.score, c.threshold))
    ensures RowsAre(c, groups, rows, idx)
  {
    hide IsRowOf, Reaches;
  }

  lemma RowsAdd(c: Config, groups: seq<Group>, rows: seq<Group>, before: seq<nat>)
    requires groups != [] && rows != [] && RowsAre(c, groups[..|groups| - 1], rows[..|rows| - 1], before)
    requires c.keep(groups[|groups| - 1].key)
             && exists e :: e in groups[|groups| - 1].series && Reaches(e.score, c.threshold)
    requires IsRowOf(c, groups[|groups| - 1], rows[|rows| - 1])
    ensures RowsAre(c, groups, rows, before + [|groups| - 1])
  {
    hide IsRowOf, Reaches;
    var n, m := |groups| - 1, |rows| - 1;
    var idx := before + [n];
    assert forall i :: 0 <= i < n ==> (i in idx <==> i in before) && groups[..n][i] == groups[i];
    assert n in idx;
    assert forall j :: 0 <= j < m ==> idx[j] == before[j] && rows[..m][j] == rows[j];
  }

  // ---------- Flushing ----------

  /** `FlushValues` for a series: the filters, the key, the stable sort, the row. */
  method FlushSeries(c: Config, key: Bytes, series: seq<Entry>, ghost original: seq<Entry>)
    returns (ok: bool, row: Option<Group>)
    requires multiset(series) == multiset(original) && original != []
    ensures ok <==> !GroupFails(c, Group(key, original))
    ensures ok ==> (row.Some? <==> IsWritten(c, Group(key, original)))
    ensures ok && row.Some? ==> WritesGroup(c, Group(key, original), row.value)
    ensures ok ==> (row.Some? <==> c.keep(key) && exists e :: e in original && Reaches(e.score, c.threshold))
    ensures ok && row.Some? ==> IsRowOf(c, Group(key, original), row.value)
    ensures !ok ==> !(|c.strip| <= |key| && key[..|c.strip|] == c.strip)
  {
    hide Filter, IsPrefix, CString, SortByOffset, O.Sorted, Reaches, IsRowOf;
    WrittenMeaning(c, Group(key, original));
    PrefixMeaning(c.strip, key);
    SurvivorsPermute(c, series, original);
    EmptyPermutes(series, original);
    EmptyPermutes(Survivors(c, series), Survivors(c, original));
    if !c.keep(key) {
      return true, None;
    }
    var left := series;
    if c.threshold.Some? {
      left := Filter(series, AtLeastValue(c.threshold.value));
      if left == [] {
        return true, None;
      }
    }
    if !IsPrefix(c.strip, key) {
      return false, None;
    }
    Stripped(c.strip, key);
    var text := CString(key[|c.strip|..]);
    CStringTwice(key[|c.strip|..]);
    if c.add != [] {
      text := CString(c.add + text);
    } else {
      assert c.add + text == text;
    }
    SortSorts(left);
    RowMeaning(c, Group(key, original), Group(text, SortByOffset(left)));
    return true, Some(Group(text, SortByOffset(left)));
  }

  lemma PrefixMeaning(p: Bytes, s: Bytes)
    ensures IsPrefix(p, s) <==> |p| <= |s| && s[..|p|] == p
  {
  }

  lemma Stripped(strip: Bytes, key: Bytes)
    requires IsPrefix(strip, key)
    ensures |strip| <= |key|
  {
  }

  // ---------- The state machine ----------

  function RowsOf(c: Config, lines: seq<Line>): seq<Row> {
    if !c.summaries || lines == [] then []
    else
      var line := lines[|lines| - 1];
      RowsOf(c, lines[..|lines| - 1]) + [Row(c.add + line.key, line.value)]
  }

  lemma RowsOfPush(c: Config, lines: seq<Line>, line: Line)
    ensures RowsOf(c, lines + [line]) == if c.summaries then RowsOf(c, lines) + [Row(c.add + line.key, line.value)]
            else []
    ensures !c.summaries ==> RowsOf(c, lines) == []
  {
    assert (lines + [line])[..|lines|] == lines;
  }

  /** What is pending once the frame has been read. */
  function PendingAt(c: Config, f: Frame): Pending {
    Collect(c, f.lines).Sees(f.line.key)
  }

  ghost predicate AnyGroupFails(c: Config, groups: seq<Group>) {
    exists i :: 0 <= i < |groups| && GroupFails(c, groups[i])
  }

  ghost predicate AnyLineFails(c: Config, lines: seq<Line>) {
    exists i :: 0 <= i < |lines| && LineFails(c, lines[i])
  }

  /** Something that has been read ends the load. */
  ghost predicate Bad(c: Config, f: Frame) {
    || AnyLineFails(c, f.lines)
    || (f.phase.ParseValue? && !c.summaries && c.locate(f.line.place).Junk?)
    || AnyGroupFails(c, PendingAt(c, f).groups)
  }

  lemma AnyGroupPush(c: Config, groups: seq<Group>, g: Group)
    ensures AnyGroupFails(c, groups + [g]) <==> AnyGroupFails(c, groups) || GroupFails(c, g)
  {
    hide GroupFails;
    var s := groups + [g];
    if AnyGroupFails(c, groups) {
      var i :| 0 <= i < |groups| && GroupFails(c, groups[i]);
      assert s[i] == groups[i];
    }
    if GroupFails(c, g) {
      assert s[|groups|] == g;
    }
    if AnyGroupFails(c, s) && !GroupFails(c, g) {
      var i :| 0 <= i < |s| && GroupFails(c, s[i]);
      assert groups[i] == s[i];
    }
  }

  lemma AnyLinePush(c: Config, lines: seq<Line>, line: Line)
    ensures AnyLineFails(c, lines + [line]) <==> AnyLineFails(c, lines) || LineFails(c, line)
  {
    hide LineFails;
    var s := lines + [line];
    if AnyLineFails(c, lines) {
      var i :| 0 <= i < |lines| && LineFails(c, lines[i]);
      assert s[i] == lines[i];
    }
    if LineFails(c, line) {
      assert s[|lines|] == line;
    }
    if AnyLineFails(c, s) && !LineFails(c, line) {
      var i :| 0 <= i < |s| && LineFails(c, s[i]);
      assert lines[i] == s[i];
    }
  }

  lemma PrefixGrows(key: Bytes, ch: Byte, current: Bytes)
    ensures IsPrefix(key + [ch], current) <==> IsPrefix(key, current) && |key| < |current| && current[|key|] == ch
    ensures IsPrefix([], current)
  {
    if |key| < |current| {
      assert current[..|key| + 1] == current[..|key|] + [current[|key|]];
      assert (key + [ch])[..|key|] == key;
      assert (key + [ch])[|key|] == ch;
    }
  }

  /** What has gone wrong stays wrong. */
  lemma BadStays(c: Config, f: Frame, t: Token)
    requires Bad(c, f)
    ensures Bad(c, f.Step(c, t))
  {
    hide IsPrefix, GroupFails, LineEntry, AnyGroupFails, AnyLineFails;
    var run := Collect(c, f.lines);
    RunPush(c, f.lines, f.line);
    AnyLinePush(c, f.lines, f.line);
    AnyGroupPush(c, run.groups, Group(run.current, run.values));
    PrefixGrows(f.line.key, t.ch, run.current);
    PrefixGrows(f.line.key, t.ch, f.line.key);
  }

  lemma {:induction false} BadStaysOn(c: Config, tokens: seq<Token>, more: seq<Token>)
    requires Bad(c, Frames(c, tokens))
    ensures Bad(c, Frames(c, tokens + more))
  {
    hide Bad, Frames;
    if more == [] {
      assert tokens + more == tokens;
    } else {
      var n := |more| - 1;
      assert tokens + more == (tokens + more[..n]) + [more[n]];
      BadStaysOn(c, tokens, more[..n]);
      FramesPush(c, tokens + more[..n], more[n]);
      BadStays(c, Frames(c, tokens + more[..n]), more[n]);
    }
  }

  lemma {:induction false} TokensExtend(a: Bytes, b: Bytes, unescape: bool)
    ensures Tokens(a, unescape).0 <= Tokens(a + b, unescape).0
  {
    if b == [] {
      assert a + b == a;
    } else {
      hide Tokens;
      var n := |b| - 1;
      assert a + b == (a + b[..n]) + [b[n]];
      TokensExtend(a, b[..n], unescape);
      TokensPush(a + b[..n], b[n], unescape);
    }
  }

  lemma BadStaysForGood(c: Config, text: Bytes, more: Bytes)
    requires Bad(c, ReadText(c, text))
    ensures Bad(c, ReadText(c, text + more))
  {
    hide Bad, Frames, Tokens;
    TokensExtend(text, more, c.unescape);
    var a, b := Tokens(text, c.unescape).0, Tokens(text + more, c.unescape).0;
    assert b == a + b[|a|..];
    BadStaysOn(c, a, b[|a|..]);
  }

  lemma PrefixLength(p: Bytes, s: Bytes)
    ensures IsPrefix(p, s) ==> |p| <= |s|
  {
  }

  lemma NothingIncreases()
    ensures StrictlyIncreasing([])
  {
  }

  class Loader {
    const c: Config
    var phase: Phase
    var escape: bool
    var noMatch: bool
    var currentKey: Bytes
    var nextKey: Bytes
    var offset: Bytes
    var currentOffset: nat
    var valueString: Bytes
    var values: seq<Entry>
    var maxSorted: nat
    var rows: seq<Row>
    var written: seq<Group>
    var failed: bool
    ghost var raw: Bytes
    ghost var groups: seq<Group>

    /** The fields of the line that is being read. */
    ghost predicate FieldsOf(f: Frame)
      reads `phase, `currentKey, `nextKey, `offset, `valueString
    {
      && phase == f.phase
      && currentKey == (if phase.ParseKey? then Collect(c, f.lines).current else f.line.key)
      && nextKey == (if phase.ParseKey? then f.line.key else [])
      && offset == (if phase.ParseOffset? then f.line.place else [])
      && valueString == (if phase.ParseValue? then f.line.value else [])
      && (phase.ParseKey? || c.summaries ==> f.line.place == [])
      && (!phase.ParseValue? ==> f.line.value == [])
      && (c.summaries ==> !phase.ParseOffset?)
    }

    /** The values, the groups and the rows. */
    ghost predicate OutputOf(f: Frame)
      reads `values, `groups, `maxSorted, `written, `rows
    {
      && values == PendingAt(c, f).values && groups == PendingAt(c, f).groups
      && maxSorted <= |values| && StrictlyIncreasing(values[..maxSorted])
      && WritesGroups(c, groups, written) && rows == RowsOf(c, f.lines)
    }

    ghost predicate OffsetOf(f: Frame)
      reads `phase, `noMatch, `currentOffset
    {
      if phase.ParseValue? && !c.summaries then
        match c.locate(f.line.place)
        case At(o) => !noMatch && currentOffset == o
        case NoMatch => noMatch
        case Junk => false
      else !noMatch
    }

    ghost predicate Holds(f: Frame)
      reads `phase, `currentKey, `nextKey, `offset, `valueString, `values, `groups, `maxSorted, `written, `rows,
        `noMatch, `currentOffset
    {
      FieldsOf(f) && OutputOf(f) && OffsetOf(f) && !Bad(c, f)
    }

    /** The state is a function of everything that has been fed so far, however it was cut into chunks. */
    ghost predicate Valid()
      reads this
    {
      && (failed ==> Bad(c, ReadText(c, raw)))
      && (!failed ==> Holds(ReadText(c, raw)) && escape == Tokens(raw, c.unescape).1)
    }

    constructor (c: Config)
      ensures Valid() && !failed && raw == [] && this.c == c && written == [] && rows == []
    {
      this.c := c;
      phase, escape, noMatch, currentKey, nextKey := ParseKey, false, false, [], [];
      offset, currentOffset, valueString, values, maxSorted := [], 0, [], [], 0;
      rows, written, failed, raw, groups := [], [], false, [], [];
      new;
      assert ReadText(c, []) == Start();
      assert PendingAt(c, Start()) == Pending([], [], []);
      assert values[..0] == [];
    }

    method AddOffsetScore(entry: Entry)
      requires maxSorted <= |values| && StrictlyIncreasing(values[..maxSorted])
      modifies this`values, this`maxSorted
      ensures values == old(values) + [entry] && maxSorted <= |values| && StrictlyIncreasing(values[..maxSorted])
    {
      ghost var was := values;
      if maxSorted == |values| && (values == [] || entry.offset > values[|values| - 1].offset) {
        assert was[..maxSorted] == was;
        maxSorted := maxSorted + 1;
      }
      values := values + [entry];
      if maxSorted == |values| {
        assert values[..maxSorted] == was + [entry];
      } else {
        assert values[..maxSorted] == was[..maxSorted];
      }
    }

    /** `FlushValues` for the values that have been collected. */
    method FlushValues(key: Bytes)
      requires maxSorted <= |values| && values != [] && WritesGroups(c, groups, written)
      modifies this`values, this`maxSorted, this`written, this`failed, this`groups
      ensures values == [] && maxSorted == 0 && groups == old(groups) + [Group(key, old(values))]
      ensures failed <==> old(failed) || GroupFails(c, Group(key, old(values)))
      ensures !failed ==> WritesGroups(c, groups, written)
    {
      hide *;
      var sorted := SortTail(values, maxSorted);
      var ok, row := FlushSeries(c, key, sorted, values);
      WritesPush(c, groups, written, Group(key, values));
      groups := groups + [Group(key, values)];
      values, maxSorted := [], 0;
      if !ok {
        failed := true;
      } else if row.Some? {
        written := written + [row.value];
      }
    }

    /** A character of a key. */
    method InKey(t: Token, ghost f: Frame)
      requires Holds(f) && !failed && phase.ParseKey?
      modifies this
      ensures raw == old(raw) && escape == old(escape)
      ensures failed ==> Bad(c, f.Step(c, t))
      ensures !failed ==> Holds(f.Step(c, t))
    {
      hide IsPrefix, WritesGroups, StrictlyIncreasing, RowsOf, Collect, AnyGroupFails, AnyLineFails;
      if t == Token(c.delimiter, false) {
        currentKey, nextKey := nextKey, [];
        phase := if c.summaries then ParseValue else ParseOffset;
        return;
      }
      ghost var run := Collect(c, f.lines);
      PrefixGrows(f.line.key, t.ch, run.current);
      AnyGroupPush(c, run.groups, Group(run.current, run.values));
      NothingIncreases();
      PrefixLength(nextKey, currentKey);
      if values != [] && (|nextKey| == |currentKey| || currentKey[|nextKey|] != t.ch) {
        FlushValues(currentKey);
      }
      nextKey := nextKey + [t.ch];
    }

    /** A character of an offset field. */
    method InOffset(t: Token, ghost f: Frame)
      requires Holds(f) && !failed && phase.ParseOffset?
      modifies this
      ensures raw == old(raw) && escape == old(escape)
      ensures failed ==> Bad(c, f.Step(c, t))
      ensures !failed ==> Holds(f.Step(c, t))
    {
      hide IsPrefix, WritesGroups, StrictlyIncreasing, RowsOf, Collect, AnyGroupFails, AnyLineFails;
      if t == Token(c.delimiter, false) {
        match c.locate(offset) {
          case At(o) => currentOffset := o;
          case NoMatch => noMatch := true;
          case Junk =>
            failed := true;
            return;
        }
        offset := [];
        phase := ParseValue;
        return;
      }
      offset := offset + [t.ch];
    }

    /** A character of a value field. */
    method InValue(t: Token, ghost f: Frame)
      requires Holds(f) && !failed && phase.ParseValue?
      modifies this
      ensures raw == old(raw) && escape == old(escape)
      ensures failed ==> Bad(c, f.Step(c, t))
      ensures !failed ==> Holds(f.Step(c, t))
    {
      hide IsPrefix, WritesGroups, StrictlyIncreasing, RowsOf, Collect, AnyGroupFails, AnyLineFails;
      if t == Token(RETURN, false) {
        return;
      }
      if t == Token(NEWLINE, false) {
        RunPush(c, f.lines, f.line);
        RowsOfPush(c, f.lines, f.line);
        AnyLinePush(c, f.lines, f.line);
        PrefixGrows([], 0, f.line.key);
        if c.summaries {
          rows := rows + [Row(c.add + currentKey, valueString)];
        } else if noMatch {
          noMatch := false;
        } else {
          var reading := c.read(valueString);
          if reading.None? {
            failed := true;
            return;
          }
          AddOffsetScore(Entry(currentOffset, reading.value.score, reading.value.pct));
        }
        valueString := [];
        phase := ParseKey;
        return;
      }
      valueString := valueString + [t.ch];
    }

    /** Feeds a chunk of the input. */
    method ParseData(chunk: Bytes)
      requires Valid() && !failed
      modifies this
      ensures Valid() && raw == old(raw) + chunk
    {
      hide Frame.Step, Bad, Tokens, Loader.Holds, Frames;
      assert chunk[..0] == [] && raw + [] == raw;
      for i := 0 to |chunk|
        invariant Valid() && !failed && raw == old(raw) + chunk[..i]
      {
        ghost var f := ReadText(c, raw);
        ghost var text := raw + [chunk[i]];
        TokensPush(raw, chunk[i], c.unescape);
        assert text == old(raw) + chunk[..i + 1];
        var t := Token(chunk[i], false);
        if escape {
          t := Token(Unescaped(chunk[i]), true);
          escape := false;
        } else if chunk[i] == BACKSLASH && c.unescape {
          escape := true;
          raw := text;
          continue;
        }
        FramesPush(c, Tokens(raw, c.unescape).0, t);
        match phase {
          case ParseKey => InKey(t, f);
          case ParseOffset => InOffset(t, f);
          case ParseValue => InValue(t, f);
        }
        raw := text;
        if failed {
          BadStaysForGood(c, text, chunk[i + 1..]);
          assert text + chunk[i + 1..] == old(raw) + chunk;
          raw := old(raw) + chunk;
          return;
        }
      }
      assert chunk[..|chunk|] == chunk;
    }

    /** The end of the input flushes what is left. */
    method Finish()
      requires Valid() && !failed
      modifies this
      ensures raw == old(raw) && rows == old(rows)
      ensures var f := ReadText(c, raw);
              f.phase.ParseKey? && f.line.key == [] ==>
                && (failed <==> AnyGroupFails(c, Groups(c, f.lines)))
                && (!failed ==> WritesGroups(c, Groups(c, f.lines), written) && rows == RowsOf(c, f.lines))
    {
      hide IsPrefix, WritesGroups, StrictlyIncreasing, RowsOf, Collect, AnyGroupFails, AnyLineFails, Tokens, Frames;
      ghost var f := ReadText(c, raw);
      PrefixGrows([], 0, Collect(c, f.lines).current);
      AnyGroupPush(c, groups, Group(currentKey, values));
      if values != [] {
        FlushValues(currentKey);
      }
    }
  }

  lemma FrameIsWhole(c: Config, f: Frame)
    requires f.phase.ParseKey? && f.line.key == [] && Bad(c, f)
    ensures AnyLineFails(c, f.lines) || AnyGroupFails(c, Groups(c, f.lines))
  {
    hide AnyLineFails, AnyGroupFails, IsPrefix;
    var run := Collect(c, f.lines);
    PrefixGrows([], 0, run.current);
    AnyGroupPush(c, run.groups, Group(run.current, run.values));
  }

  lemma NoLineFailed(c: Config, f: Frame)
    requires !Bad(c, f)
    ensures !AnyLineFails(c, f.lines)
  {
    hide AnyLineFails, AnyGroupFails;
  }

  // ---------- What a load writes ----------

  /** No group is empty. */
  lemma {:induction false} GroupsHoldValues(c: Config, lines: seq<Line>)
    ensures forall i :: 0 <= i < |Collect(c, lines).groups| ==> Collect(c, lines).groups[i].series != []
    ensures forall i :: 0 <= i < |Groups(c, lines)| ==> Groups(c, lines)[i].series != []
  {
    hide IsPrefix, LineEntry;
    if lines != [] {
      GroupsHoldValues(c, lines[..|lines| - 1]);
    }
  }

  /** Without shards, key filter and threshold every group is written. */
  lemma {:induction false} EveryGroupIsWritten(c: Config, groups: seq<Group>, rows: seq<Group>)
    requires WritesGroups(c, groups, rows) && c.threshold.None? && forall key :: c.keep(key)
    requires forall i :: 0 <= i < |groups| ==> groups[i].series != []
    ensures |rows| == |groups|
    ensures forall i :: 0 <= i < |groups| ==>
              IsRowOf(c, groups[i], rows[i]) && multiset(rows[i].series) == multiset(groups[i].series)
    decreases |groups|
  {
    hide *;
    if groups != [] {
      LastIsWritten(c, groups, rows);
      var n, m := |groups| - 1, |rows| - 1;
      EveryGroupIsWritten(c, groups[..n], rows[..m]);
      RowMeaning(c, groups[n], rows[m]);
      assert forall i :: 0 <= i < n ==> groups[..n][i] == groups[i] && rows[..m][i] == rows[i];
    } else {
      NoRowsWritten(c, groups, rows);
    }
  }

  lemma NoRowsWritten(c: Config, groups: seq<Group>, rows: seq<Group>)
    requires WritesGroups(c, groups, rows) && groups == []
    ensures rows == []
  {
  }

  lemma LastIsWritten(c: Config, groups: seq<Group>, rows: seq<Group>)
    requires WritesGroups(c, groups, rows) && groups != [] && c.threshold.None?
    requires c.keep(groups[|groups| - 1].key) && groups[|groups| - 1].series != []
    ensures rows != [] && WritesGroup(c, groups[|groups| - 1], rows[|rows| - 1])
    ensures WritesGroups(c, groups[..|groups| - 1], rows[..|rows| - 1])
    ensures multiset(rows[|rows| - 1].series) == multiset(groups[|groups| - 1].series)
  {
    hide CString, O.Sorted;
  }

  /** A load fails at a group that would be written and does not begin with the prefix that is to be stripped. */
  lemma FailureMeaning(c: Config, groups: seq<Group>)
    ensures AnyGroupFails(c, groups) <==>
            exists i ::
              && 0 <= i < |groups| && c.keep(groups[i].key)
              && (exists e :: e in groups[i].series && Reaches(e.score, c.threshold))
              && !(|c.strip| <= |groups[i].key| && groups[i].key[..|c.strip|] == c.strip)
  {
    hide IsWritten, Reaches;
    forall i | 0 <= i < |groups|
      ensures IsWritten(c, groups[i]) <==>
        c.keep(groups[i].key) && exists e :: e in groups[i].series && Reaches(e.score, c.threshold) {
      WrittenMeaning(c, groups[i]);
    }
  }

  /** And at a line whose offset field is junk, or whose offset is known and whose value cannot be read. */
  lemma LineFailureMeaning(c: Config, lines: seq<Line>)
    ensures AnyLineFails(c, lines) <==>
            !c.summaries
            && exists i ::
                 && 0 <= i < |lines|
                 && (c.locate(lines[i].place) == Junk
                     || (exists offset :: c.locate(lines[i].place) == At(offset) && c.read(lines[i].value) == None))
  {
    forall i | 0 <= i < |lines|
      ensures c.locate(lines[i].place).At? <==> exists offset :: c.locate(lines[i].place) == At(offset) {
      if c.locate(lines[i].place).At? {
        assert c.locate(lines[i].place) == At(c.locate(lines[i].place).offset);
      }
    }
  }

  /** Loads an input of whole lines, in chunks of any size. The load fails exactly when some line or some
      group does; otherwise the groups of the lines are written, and in summary mode the rows. */
  method Load(c: Config, chunks: seq<Bytes>)
    returns (ok: bool, written: seq<Group>, rows: seq<Row>, ghost idx: seq<nat>)
    ensures var f := ReadText(c, Concat(chunks));
            f.phase.ParseKey? && f.line.key == [] ==>
              && (ok <==> !AnyLineFails(c, f.lines) && !AnyGroupFails(c, Groups(c, f.lines)))
              && (ok ==> WritesGroups(c, Groups(c, f.lines), written) && rows == RowsOf(c, f.lines))
              && (ok ==> RowsAre(c, Groups(c, f.lines), written, idx))
              && (ok && c.threshold.None? && (forall key :: c.keep(key)) ==>
                    && |written| == |Groups(c, f.lines)|
                    && forall i :: 0 <= i < |written| ==>
                         && IsRowOf(c, Groups(c, f.lines)[i], written[i])
                         && multiset(written[i].series) == multiset(Groups(c, f.lines)[i].series))
  {
    hide ReadText, WritesGroups, RowsOf, AnyGroupFails, AnyLineFails, Bad, Loader.Holds, Groups, Concat;
    hide RowsAre, IsRowOf;
    var loader := new Loader(c);
    NoChunks();
    for i := 0 to |chunks|
      invariant loader.Valid() && fresh(loader) && !loader.failed && loader.c == c && loader.raw == Concat(chunks[..i])
    {
      loader.ParseData(chunks[i]);
      ConcatPush(chunks[..i], chunks[i]);
      assert chunks[..i + 1] == chunks[..i] + [chunks[i]];
      if loader.failed {
        ConcatAppend(chunks[..i + 1], chunks[i + 1..]);
        assert chunks == chunks[..i + 1] + chunks[i + 1..];
        BadStaysForGood(c, loader.raw, Concat(chunks[i + 1..]));
        ghost var f := ReadText(c, Concat(chunks));
        if f.phase.ParseKey? && f.line.key == [] {
          FrameIsWhole(c, f);
        }
        return false, [], [], [];
      }
    }
    assert chunks[..|chunks|] == chunks;
    StillGood(loader);
    loader.Finish();
    ok, written, rows, idx := !loader.failed, loader.written, loader.rows, [];
    ghost var f := ReadText(c, Concat(chunks));
    if ok && f.phase.ParseKey? && f.line.key == [] {
      idx := RowsMeaning(c, Groups(c, f.lines), written);
      GroupsHoldValues(c, f.lines);
      if c.threshold.None? && forall key :: c.keep(key) {
        EveryGroupIsWritten(c, Groups(c, f.lines), written);
      }
    }
  }

  lemma NoChunks()
    ensures Concat<Byte>([]) == []
  {
  }

  lemma StillGood(loader: Loader)
    requires loader.Valid() && !loader.failed
    ensures !AnyLineFails(loader.c, ReadText(loader.c, loader.raw).lines)
  {
    hide ReadText, AnyLineFails, Bad;
    NoLineFailed(loader.c, ReadText(loader.c, loader.raw));
  }

  lemma {:induction false} RowsOfAsLines(c: Config, rows: seq<Row>)
    requires c.summaries && c.add == []
    ensures RowsOf(c, AsLines(rows)) == rows
  {
    hide *;
    if rows == [] {
      NoRowsOf(c);
    } else {
      var n := |rows| - 1;
      LastRow(rows);
      RowsOfAsLines(c, rows[..n]);
      RowsOfPush(c, AsLines(rows[..n]), Line(rows[n].key, [], rows[n].value));
      assert [] + rows[n].key == rows[n].key;
      assert rows == rows[..n] + [rows[n]];
    }
  }

  lemma NoRowsOf(c: Config)
    ensures RowsOf(c, AsLines([])) == []
  {
  }

  lemma {:induction false} SummariesDoNotFail(c: Config, lines: seq<Line>)
    requires c.summaries
    ensures !AnyLineFails(c, lines) && Collect(c, lines).values == [] && Groups(c, lines) == []
            && !AnyGroupFails(c, Groups(c, lines))
  {
    if lines != [] {
      hide IsPrefix;
      var n := |lines| - 1;
      SummariesDoNotFail(c, lines[..n]);
    }
  }

  /** Loading an escaped dump of rows, cut into chunks anywhere, inserts exactly those rows. */
  method LoadSummaries(c: Config, chunks: seq<Bytes>, ghost dumped: seq<Row>) returns (ok: bool, rows: seq<Row>)
    requires c.summaries && c.unescape && c.delimiter == TAB && c.add == []
    requires Concat(chunks) == WrittenAll(dumped)
    ensures ok && rows == dumped
  {
    hide Tokens, Frames, WrittenAll, RowsOf, AnyGroupFails, AnyLineFails, Groups, Collect, Concat, WritesGroups;
    EscapeRoundTrip(c, dumped);
    RowsOfAsLines(c, dumped);
    SummariesDoNotFail(c, AsLines(dumped));
    var written;
    ghost var idx;
    ok, written, rows, idx := Load(c, chunks);
  }
}

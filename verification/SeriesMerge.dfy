/** Merging the series that several tables hold for one key, in three modes. */
module SeriesMerge {
  import opened Bytes
  import opened Table
  import O = OffsetLists
  import opened OffsetLists
  import opened ListOps
  import opened ScoreOps

  datatype Mode = Union | PickOne | Sum

  predicate HasPercentiles(e: Entry) {
    e.pct != [] && e.pct[0].Finite?
  }

  function Plus(a: Number, b: Number): Number {
    if a.Finite? && b.Finite? then Finite(a.r + b.r) else if a.Finite? then b else a
  }

  // ---------- Points of one offset ----------

  predicate Absorbs(mode: Mode, old_: Entry, e: Entry) {
    match mode
    case Union => old_.score == e.score
    case PickOne => true
    case Sum => !HasPercentiles(e)
  }

  function Absorb(mode: Mode, old_: Entry, e: Entry): Entry {
    match mode
    case Union => old_
    case PickOne => if HasPercentiles(old_) && !HasPercentiles(e) then e.(offset := old_.offset) else old_
    case Sum => old_.(score := Plus(old_.score, e.score))
  }

  /** What becomes of the points of one offset, taken in order. */
  function Combine(mode: Mode, run: seq<Entry>): Entry
    requires run != []
  {
    var n := |run| - 1;
    if n == 0 then run[0] else Absorb(mode, Combine(mode, run[..n]), run[n])
  }

  predicate Combines(mode: Mode, run: seq<Entry>) {
    var n := |run| - 1;
    if n <= 0 then true else Combines(mode, run[..n]) && Absorbs(mode, Combine(mode, run[..n]), run[n])
  }

  lemma CombinePush(mode: Mode, run: seq<Entry>, e: Entry)
    ensures Combine(mode, [e]) == e && Combines(mode, [e]) && Combines(mode, [])
    ensures run != [] ==> Combine(mode, run + [e]) == Absorb(mode, Combine(mode, run), e)
    ensures run != [] ==> (Combines(mode, run + [e]) <==> Combines(mode, run) && Absorbs(mode, Combine(mode, run), e))
  {
    assert (run + [e])[..|run|] == run;
  }

  lemma {:induction false} CombinesPrefix(mode: Mode, run: seq<Entry>, n: nat)
    requires n <= |run| && Combines(mode, run)
    ensures Combines(mode, run[..n])
  {
    if n < |run| {
      CombinesPrefix(mode, run[..|run| - 1], n) by {
        CombinePush(mode, run[..|run| - 1], run[|run| - 1]);
        assert run == run[..|run| - 1] + [run[|run| - 1]];
      }
      assert run[..|run| - 1][..n] == run[..n];
    } else {
      assert run[..n] == run;
    }
  }

  /** A union needs equal scores, and keeps the first point. */
  lemma {:induction false} UnionMeaning(run: seq<Entry>)
    requires run != []
    ensures Combine(Union, run) == run[0]
    ensures Combines(Union, run) <==> forall i :: 0 <= i < |run| ==> run[i].score == run[0].score
  {
    var n := |run| - 1;
    if n > 0 {
      UnionMeaning(run[..n]);
      assert forall i :: 0 <= i < n ==> run[..n][i] == run[i];
    }
  }

  /** Picking one gives the first point without percentiles if there is any, and else the first point. */
  lemma {:induction false} PickOneMeaning(run: seq<Entry>, x: nat)
    requires run != [] && forall i :: 0 <= i < |run| ==> run[i].offset == x
    ensures Combines(PickOne, run)
    ensures (forall i :: 0 <= i < |run| ==> HasPercentiles(run[i])) ==> Combine(PickOne, run) == run[0]
    ensures forall k ::
              0 <= k < |run| && !HasPercentiles(run[k]) && (forall i :: 0 <= i < k ==> HasPercentiles(run[i])) ==>
                Combine(PickOne, run) == run[k]
  {
    hide HasPercentiles, Combine, Combines;
    var n := |run| - 1;
    assert run == run[..n] + [run[n]];
    CombinePush(PickOne, run[..n], run[n]);
    if n == 0 {
      assert run == [run[0]];
    } else {
      PickOneMeaning(run[..n], x);
      assert forall i :: 0 <= i < n ==> run[..n][i] == run[i];
      forall k | 0 <= k < |run| && !HasPercentiles(run[k]) && (forall i :: 0 <= i < k ==> HasPercentiles(run[i]))
        ensures Combine(PickOne, run) == run[k] {
        if k < n {
          assert run[..n][k] == run[k];
        }
      }
    }
  }

  function Total(run: seq<Entry>): real {
    if run == [] then 0.0
    else
      var e := run[|run| - 1];
      Total(run[..|run| - 1]) + if e.score.Finite? then e.score.r else 0.0
  }

  /** A sum is the total of the scores; only the first point may have percentiles. */
  lemma {:induction false} SumMeaning(run: seq<Entry>)
    requires run != [] && forall i :: 0 <= i < |run| ==> run[i].score.Finite?
    ensures Combine(Sum, run) == run[0].(score := Finite(Total(run)))
    ensures Combines(Sum, run) <==> forall i :: 0 < i < |run| ==> !HasPercentiles(run[i])
  {
    hide HasPercentiles;
    var n := |run| - 1;
    if n > 0 {
      SumMeaning(run[..n]);
      assert forall i :: 0 <= i < n ==> run[..n][i] == run[i];
    } else {
      assert run[..0] == [] && Total(run) == 0.0 + run[0].score.r;
    }
  }

  // ---------- How far each series has been read ----------

  /** The points of an offset that have been read, series by series. */
  function ReadRun(series: seq<seq<Entry>>, pos: seq<nat>, x: nat): seq<Entry>
    requires |pos| == |series| && forall i :: 0 <= i < |pos| ==> pos[i] <= |series[i]|
  {
    if series == [] then []
    else
      var n := |series| - 1;
      ReadRun(series[..n], pos[..n], x) + Run(series[n][..pos[n]], x)
  }

  ghost predicate Positions(series: seq<seq<Entry>>, pos: seq<nat>) {
    |pos| == |series| && forall i :: 0 <= i < |pos| ==> pos[i] <= |series[i]|
  }

  lemma {:induction false} ReadOther(series: seq<seq<Entry>>, pos: seq<nat>, j: nat, x: nat)
    requires Positions(series, pos) && j < |series| && pos[j] < |series[j]| && series[j][pos[j]].offset != x
    ensures Positions(series, pos[j := pos[j] + 1])
    ensures ReadRun(series, pos[j := pos[j] + 1], x) == ReadRun(series, pos, x)
  {
    hide Run;
    var n := |series| - 1;
    var next := pos[j := pos[j] + 1];
    if j == n {
      assert next[..n] == pos[..n];
      OneMore(series[j], pos[j], x);
    } else {
      assert next[..n] == pos[..n][j := pos[j] + 1];
      ReadOther(series[..n], pos[..n], j, x);
    }
  }

  lemma OneMore(s: seq<Entry>, n: nat, x: nat)
    requires n < |s|
    ensures Run(s[..n + 1], x) == Run(s[..n], x) + if s[n].offset == x then [s[n]] else []
    ensures s[n].offset != x ==> Run(s[..n + 1], x) == Run(s[..n], x)
  {
    hide Run;
    assert s[..n + 1] == s[..n] + [s[n]];
    Push(s[..n], s[n], x);
    assert Run(s[..n], x) + [] == Run(s[..n], x);
  }

  /** The next point comes behind the points of its offset that have been read, when no later series has
      given one yet. */
  lemma {:induction false} ReadNext(series: seq<seq<Entry>>, pos: seq<nat>, j: nat)
    requires Positions(series, pos) && j < |series| && pos[j] < |series[j]|
    requires forall i :: j < i < |series| ==> Run(series[i][..pos[i]], series[j][pos[j]].offset) == []
    ensures Positions(series, pos[j := pos[j] + 1])
    ensures var e := series[j][pos[j]];
            ReadRun(series, pos[j := pos[j] + 1], e.offset) == ReadRun(series, pos, e.offset) + [e]
  {
    hide Run;
    var n := |series| - 1;
    var next := pos[j := pos[j] + 1];
    var e := series[j][pos[j]];
    if j == n {
      assert next[..n] == pos[..n];
      OneMore(series[j], pos[j], e.offset);
      assert ReadRun(series[..n], pos[..n], e.offset) + (Run(series[n][..pos[n]], e.offset) + [e]) ==
             ReadRun(series[..n], pos[..n], e.offset) + Run(series[n][..pos[n]], e.offset) + [e];
    } else {
      assert next[..n] == pos[..n][j := pos[j] + 1];
      ReadNext(series[..n], pos[..n], j);
      assert Run(series[n][..pos[n]], e.offset) == [];
      var a := ReadRun(series[..n], pos[..n], e.offset);
      assert a + [] == a && (a + [e]) + [] == a + [e];
    }
  }

  function Ends(series: seq<seq<Entry>>): (r: seq<nat>)
    ensures |r| == |series|
  {
    seq(|series|, i requires 0 <= i < |series| => |series[i]|)
  }

  lemma {:induction false} ReadAll(series: seq<seq<Entry>>, x: nat)
    ensures Positions(series, Ends(series))
    ensures ReadRun(series, Ends(series), x) == Run(Concat(series), x)
  {
    if series == [] {
      assert Concat(series) == [];
    } else {
      hide Run;
      var n := |series| - 1;
      ReadAll(series[..n], x);
      assert Ends(series)[..n] == Ends(series[..n]);
      assert series == series[..n] + [series[n]];
      ConcatPush(series[..n], series[n]);
      Append(Concat(series[..n]), series[n], x);
      assert series[n][..|series[n]|] == series[n];
    }
  }

  lemma {:induction false} NothingRead(series: seq<seq<Entry>>, pos: seq<nat>, x: nat)
    requires Positions(series, pos) && forall i :: 0 <= i < |pos| ==> Run(series[i][..pos[i]], x) == []
    ensures ReadRun(series, pos, x) == []
  {
    if series != [] {
      hide Run;
      NothingRead(series[..|series| - 1], pos[..|series| - 1], x);
    }
  }

  // ---------- The order in which points are taken ----------

  /** `a` comes no later than `b`: by offset, then by series. */
  predicate InOrder(a: nat, i: nat, b: nat, j: nat) {
    a < b || (a == b && i <= j)
  }

  predicate AllSorted(series: seq<seq<Entry>>) {
    forall i :: 0 <= i < |series| ==> O.Sorted(series[i])
  }

  /** Everything that has been read comes no later than the last point taken. */
  ghost predicate ReadUpTo(series: seq<seq<Entry>>, pos: seq<nat>, offset: nat, j: nat)
    requires Positions(series, pos)
  {
    forall i, p :: 0 <= i < |series| && 0 <= p < pos[i] ==> InOrder(series[i][p].offset, i, offset, j)
  }

  /** The next point of every series comes no earlier than the last point taken. */
  ghost predicate Waiting(series: seq<seq<Entry>>, pos: seq<nat>, offset: nat, j: nat)
    requires Positions(series, pos)
  {
    forall i :: 0 <= i < |series| && pos[i] < |series[i]| ==> InOrder(offset, j, series[i][pos[i]].offset, i)
  }

  /** The next point of some series is below the last point taken, so that the next check will fail. */
  ghost predicate Doomed(series: seq<seq<Entry>>, pos: seq<nat>, offset: nat)
    requires Positions(series, pos)
  {
    && !AllSorted(series)
    && exists i :: 0 <= i < |series| && pos[i] < |series[i]| && series[i][pos[i]].offset < offset
  }

  ghost predicate PrefixesSorted(series: seq<seq<Entry>>, pos: seq<nat>)
    requires Positions(series, pos)
  {
    forall i :: 0 <= i < |series| ==> O.Sorted(series[i][..pos[i]])
  }

  /** The front of the heap: of the series that are not exhausted, the one whose next point comes first. */
  method Front(series: seq<seq<Entry>>, pos: seq<nat>) returns (j: Option<nat>)
    requires Positions(series, pos)
    ensures j.None? <==> pos == Ends(series)
    ensures j.Some? ==> j.value < |series| && pos[j.value] < |series[j.value]|
    ensures j.Some? ==> Waiting(series, pos, series[j.value][pos[j.value]].offset, j.value)
  {
    j := None;
    for i := 0 to |series|
      invariant j.None? <==> forall k :: 0 <= k < i ==> pos[k] == |series[k]|
      invariant j.Some? ==> j.value < i && pos[j.value] < |series[j.value]|
      invariant j.Some? ==> forall k :: 0 <= k < i && pos[k] < |series[k]| ==>
                  InOrder(series[j.value][pos[j.value]].offset, j.value, series[k][pos[k]].offset, k)
    {
      if pos[i] < |series[i]| && (j.None? || series[i][pos[i]].offset < series[j.value][pos[j.value]].offset) {
        j := Some(i);
      }
    }
    assert j.None? ==> pos == Ends(series);
  }

  // ---------- The merged list ----------

  function CombineRun(mode: Mode, run: seq<Entry>): seq<Entry> {
    if run == [] then [] else [Combine(mode, run)]
  }

  /** The merged list has, of every offset that has been read, one point: what the points combine to. */
  ghost predicate Merged(mode: Mode, series: seq<seq<Entry>>, pos: seq<nat>, merged: seq<Entry>)
    requires Positions(series, pos)
  {
    && StrictlyIncreasing(merged)
    && forall x: nat ::
         Combines(mode, ReadRun(series, pos, x)) && Run(merged, x) == CombineRun(mode, ReadRun(series, pos, x))
  }

  /** The last point of the merged list is at the last offset. */
  ghost predicate EndsAt(merged: seq<Entry>, offset: nat) {
    merged != [] && merged[|merged| - 1].offset == offset
  }

  lemma LastOfMerged(merged: seq<Entry>, offset: nat)
    requires StrictlyIncreasing(merged) && EndsAt(merged, offset)
    ensures Run(merged, offset) == [merged[|merged| - 1]]
    ensures forall x: nat :: x > offset ==> Run(merged, x) == []
  {
    hide Run;
    var n := |merged| - 1;
    assert merged == merged[..n] + [merged[n]];
    Push(merged[..n], merged[n], offset);
    NoRunAbove(merged[..n], offset);
    assert [] + [merged[n]] == [merged[n]];
    forall x: nat | x > offset ensures Run(merged, x) == [] {
      forall i | 0 <= i < |merged| ensures merged[i].offset < x {
        assert i < n ==> merged[i].offset < merged[n].offset;
      }
      NoRunAbove(merged, x);
    }
  }

  lemma MergeNew(mode: Mode, series: seq<seq<Entry>>, pos: seq<nat>, merged: seq<Entry>, j: nat)
    requires Positions(series, pos) && j < |series| && pos[j] < |series[j]| && Merged(mode, series, pos, merged)
    requires merged == [] || merged[|merged| - 1].offset < series[j][pos[j]].offset
    requires Positions(series, pos[j := pos[j] + 1])
    requires var e := series[j][pos[j]];
             && ReadRun(series, pos[j := pos[j] + 1], e.offset) == [e]
             && ReadRun(series, pos, e.offset) == []
    ensures Merged(mode, series, pos[j := pos[j] + 1], merged + [series[j][pos[j]]])
  {
    hide Run, ReadRun, Combine, Combines;
    var e, next := series[j][pos[j]], pos[j := pos[j] + 1];
    CombinePush(mode, [], e);
    forall x: nat
      ensures Combines(mode, ReadRun(series, next, x))
      ensures Run(merged + [e], x) == CombineRun(mode, ReadRun(series, next, x)) {
      Push(merged, e, x);
      if x != e.offset {
        ReadOther(series, pos, j, x);
        assert Run(merged, x) + [] == Run(merged, x);
      } else {
        assert Run(merged, x) == [];
        assert [] + [e] == [e];
      }
    }
  }

  lemma MergeSame(mode: Mode, series: seq<seq<Entry>>, pos: seq<nat>, merged: seq<Entry>, j: nat, run: seq<Entry>)
    requires Positions(series, pos) && j < |series| && pos[j] < |series[j]| && Merged(mode, series, pos, merged)
    requires EndsAt(merged, series[j][pos[j]].offset)
    requires Positions(series, pos[j := pos[j] + 1])
    requires run == ReadRun(series, pos, series[j][pos[j]].offset)
    requires ReadRun(series, pos[j := pos[j] + 1], series[j][pos[j]].offset) == run + [series[j][pos[j]]]
    ensures var last, e := merged[|merged| - 1], series[j][pos[j]];
            && (Combines(mode, run + [e]) <==> Absorbs(mode, last, e))
            && (Absorbs(mode, last, e) ==>
                  Merged(mode, series, pos[j := pos[j] + 1], merged[|merged| - 1 := Absorb(mode, last, e)]))
  {
    hide Run, ReadRun, Combine, Combines, Absorbs, Absorb;
    var e, next, n := series[j][pos[j]], pos[j := pos[j] + 1], |merged| - 1;
    var last := merged[n];
    LastOfMerged(merged, e.offset);
    assert CombineRun(mode, run) == [last];
    CombinePush(mode, run, e);
    AbsorbKeeps(mode, last, e);
    if Absorbs(mode, last, e) {
      var updated := merged[n := Absorb(mode, last, e)];
      assert merged == merged[..n] + [last] && updated == merged[..n] + [Absorb(mode, last, e)];
      forall x: nat
        ensures Combines(mode, ReadRun(series, next, x))
        ensures Run(updated, x) == CombineRun(mode, ReadRun(series, next, x)) {
        Push(merged[..n], last, x);
        Push(merged[..n], Absorb(mode, last, e), x);
        if x != e.offset {
          ReadOther(series, pos, j, x);
          assert Run(merged[..n], x) + [] == Run(merged[..n], x);
        } else {
          NoRunAbove(merged[..n], x);
          assert [] + [Absorb(mode, last, e)] == [Absorb(mode, last, e)];
        }
      }
    }
  }

  lemma AbsorbKeeps(mode: Mode, last: Entry, e: Entry)
    ensures Absorb(mode, last, e).offset == last.offset
  {
  }

  // ---------- One step ----------

  /** Points of later series that have been read are below the next point. */
  lemma LaterAreBelow(series: seq<seq<Entry>>, pos: seq<nat>, offset: nat, last: nat, j: nat)
    requires Positions(series, pos) && ReadUpTo(series, pos, offset, last)
    requires j < |series| && pos[j] < |series[j]| && InOrder(offset, last, series[j][pos[j]].offset, j)
    ensures forall i :: j < i < |series| ==> Run(series[i][..pos[i]], series[j][pos[j]].offset) == []
    ensures series[j][pos[j]].offset > offset ==>
              forall i :: 0 <= i < |series| ==> Run(series[i][..pos[i]], series[j][pos[j]].offset) == []
  {
    hide Run;
    var x := series[j][pos[j]].offset;
    forall i | 0 <= i < |series| && (j < i || x > offset) ensures Run(series[i][..pos[i]], x) == [] {
      forall p | 0 <= p < |series[i][..pos[i]]| ensures series[i][..pos[i]][p].offset < x {
        assert InOrder(series[i][p].offset, i, offset, last);
      }
      NoRunAbove(series[i][..pos[i]], x);
    }
  }

  /** Taking the first of the next points keeps the order, or dooms the merge. */
  lemma TakeNext(series: seq<seq<Entry>>, pos: seq<nat>, offset: nat, last: nat, j: nat)
    requires Positions(series, pos) && ReadUpTo(series, pos, offset, last) && PrefixesSorted(series, pos)
    requires j < |series| && pos[j] < |series[j]| && InOrder(offset, last, series[j][pos[j]].offset, j)
    requires Waiting(series, pos, series[j][pos[j]].offset, j)
    ensures var x, next := series[j][pos[j]].offset, pos[j := pos[j] + 1];
            && Positions(series, next) && ReadUpTo(series, next, x, j) && PrefixesSorted(series, next)
            && (Waiting(series, next, x, j) || Doomed(series, next, x))
  {
    hide Run;
    var x, next := series[j][pos[j]].offset, pos[j := pos[j] + 1];
    forall i, p | 0 <= i < |series| && 0 <= p < next[i] ensures InOrder(series[i][p].offset, i, x, j) {
      if p < pos[i] {
        assert InOrder(series[i][p].offset, i, offset, last);
      }
    }
    forall i | 0 <= i < |series| ensures O.Sorted(series[i][..next[i]]) {
      assert O.Sorted(series[i][..pos[i]]);
      if i == j {
        forall p | 0 <= p < pos[j] ensures series[j][p].offset <= x {
          assert InOrder(series[j][p].offset, j, offset, last);
        }
        SortedPlus(series[j], pos[j]);
      }
    }
    if next[j] < |series[j]| && series[j][next[j]].offset < x {
      assert !O.Sorted(series[j]);
      assert Doomed(series, next, x);
    } else {
      forall i | 0 <= i < |series| && next[i] < |series[i]| ensures InOrder(x, j, series[i][next[i]].offset, i) {
        if i != j {
          assert next[i] == pos[i];
        }
      }
    }
  }

  lemma SortedPlus(s: seq<Entry>, n: nat)
    requires n < |s| && O.Sorted(s[..n]) && forall p :: 0 <= p < n ==> s[p].offset <= s[n].offset
    ensures O.Sorted(s[..n + 1])
  {
    assert forall p :: 0 <= p < n ==> s[..n][p] == s[p];
  }

  /** When all series are sorted, the points of an offset are read in the order of the series, so what has
      been read of them, with the next point, starts what there is of them. */
  lemma {:induction false} ReadIsPrefix(series: seq<seq<Entry>>, pos: seq<nat>, j: nat)
    requires Positions(series, pos) && AllSorted(series) && j < |series| && pos[j] < |series[j]|
    requires forall i :: j < i < |series| ==> Run(series[i][..pos[i]], series[j][pos[j]].offset) == []
    requires Waiting(series, pos, series[j][pos[j]].offset, j)
    ensures Positions(series, Ends(series))
    ensures var e := series[j][pos[j]];
            && ReadRun(series, pos, e.offset) + [e] <= ReadRun(series, Ends(series), e.offset)
  {
    hide Run, O.Sorted, InOrder, ReadRun;
    var n := |series| - 1;
    var e := series[j][pos[j]];
    LastSeries(series, pos, e.offset);
    LastSeries(series, Ends(series), e.offset);
    assert series[n][..|series[n]|] == series[n] && Ends(series)[..n] == Ends(series[..n]);
    var a := ReadRun(series[..n], pos[..n], e.offset);
    if j == n {
      EarlierAreDone(series, pos, n);
      Split(series[n], pos[n], e.offset);
      Reassociate(a, Run(series[n][..pos[n]], e.offset), [e]);
      PrefixBehind(a, Run(series[n][..pos[n]], e.offset) + [e], Run(series[n], e.offset));
    } else {
      ReadIsPrefix(series[..n], pos[..n], j);
      assert a + [] == a;
      PrefixThen(a + [e], ReadRun(series[..n], Ends(series[..n]), e.offset), Run(series[n], e.offset));
    }
  }

  lemma LastSeries(series: seq<seq<Entry>>, pos: seq<nat>, x: nat)
    requires Positions(series, pos) && series != []
    ensures var n := |series| - 1;
            && Positions(series[..n], pos[..n])
            && ReadRun(series, pos, x) == ReadRun(series[..n], pos[..n], x) + Run(series[n][..pos[n]], x)
  {
    hide Run;
  }

  lemma Reassociate<T>(a: seq<T>, b: seq<T>, d: seq<T>)
    ensures a + (b + d) == a + b + d
  {
  }

  lemma PrefixBehind<T>(a: seq<T>, b: seq<T>, d: seq<T>)
    requires b <= d
    ensures a + b <= a + d
  {
    assert d == b + d[|b|..];
    assert a + d == (a + b) + d[|b|..];
  }

  lemma PrefixThen<T>(a: seq<T>, b: seq<T>, d: seq<T>)
    requires a <= b
    ensures a <= b + d
  {
    assert b == a + b[|a|..];
    assert b + d == a + (b[|a|..] + d);
  }

  lemma Split(s: seq<Entry>, n: nat, x: nat)
    requires n < |s| && s[n].offset == x
    ensures Run(s[..n], x) + [s[n]] <= Run(s, x)
  {
    hide Run;
    assert s == s[..n + 1] + s[n + 1..];
    Append(s[..n + 1], s[n + 1..], x);
    OneMore(s, n, x);
  }

  /** Earlier series have no more points of the offset. */
  lemma {:induction false} EarlierAreDone(series: seq<seq<Entry>>, pos: seq<nat>, n: nat)
    requires Positions(series, pos) && AllSorted(series) && n < |series| && pos[n] < |series[n]|
    requires Waiting(series, pos, series[n][pos[n]].offset, n)
    ensures Positions(series[..n], pos[..n]) && Positions(series[..n], Ends(series[..n]))
    ensures ReadRun(series[..n], pos[..n], series[n][pos[n]].offset) ==
            ReadRun(series[..n], Ends(series[..n]), series[n][pos[n]].offset)
  {
    var x := series[n][pos[n]].offset;
    forall i | 0 <= i < n ensures Run(series[i][..pos[i]], x) == Run(series[i], x) {
      NoMore(series[i], pos[i], x);
    }
    AllRead(series[..n], pos[..n], x);
  }

  lemma NoMore(s: seq<Entry>, n: nat, x: nat)
    requires O.Sorted(s) && n <= |s| && (n < |s| ==> s[n].offset > x)
    ensures Run(s[..n], x) == Run(s, x)
  {
    hide Run;
    assert s == s[..n] + s[n..];
    Append(s[..n], s[n..], x);
    NoRunBelow(s[n..], x);
    assert Run(s[..n], x) + [] == Run(s[..n], x);
  }

  lemma {:induction false} AllRead(series: seq<seq<Entry>>, pos: seq<nat>, x: nat)
    requires Positions(series, pos) && forall i :: 0 <= i < |series| ==>
             Run(series[i][..pos[i]], x) == Run(series[i], x)
    ensures Positions(series, Ends(series))
    ensures ReadRun(series, pos, x) == ReadRun(series, Ends(series), x)
  {
    if series != [] {
      hide Run;
      var n := |series| - 1;
      assert Ends(series)[..n] == Ends(series[..n]);
      AllRead(series[..n], pos[..n], x);
      assert series[n][..|series[n]|] == series[n];
    }
  }

  // ---------- The merge ----------

  /** All points of every offset can be combined. */
  ghost predicate Mergeable(mode: Mode, series: seq<seq<Entry>>) {
    AllSorted(series) && forall x: nat :: Combines(mode, Run(Concat(series), x))
  }

  lemma CannotCombine(mode: Mode, series: seq<seq<Entry>>, pos: seq<nat>, j: nat, run: seq<Entry>)
    requires Positions(series, pos) && j < |series| && pos[j] < |series[j]|
    requires forall i :: j < i < |series| ==> Run(series[i][..pos[i]], series[j][pos[j]].offset) == []
    requires Waiting(series, pos, series[j][pos[j]].offset, j)
    requires run == ReadRun(series, pos, series[j][pos[j]].offset) && !Combines(mode, run + [series[j][pos[j]]])
    ensures !Mergeable(mode, series)
  {
    hide Run, ReadRun, Combines, O.Sorted;
    var e := series[j][pos[j]];
    if AllSorted(series) && Combines(mode, Run(Concat(series), e.offset)) {
      ReadIsPrefix(series, pos, j);
      ReadAll(series, e.offset);
      var all := Run(Concat(series), e.offset);
      StartCombines(mode, run + [e], all);
    }
  }

  lemma StartCombines(mode: Mode, part: seq<Entry>, all: seq<Entry>)
    requires part <= all && Combines(mode, all)
    ensures Combines(mode, part)
  {
    CombinesPrefix(mode, all, |part|);
    assert all[..|part|] == part;
  }

  lemma StartOfMerge(mode: Mode, series: seq<seq<Entry>>)
    ensures var pos := seq(|series|, _ => 0);
            Positions(series, pos) && Merged(mode, series, pos, []) && ReadUpTo(series, pos, 0, 0)
              && PrefixesSorted(series, pos)
    ensures var pos := seq(|series|, _ => 0); Waiting(series, pos, 0, 0)
  {
    hide ReadRun;
    var pos := seq(|series|, _ => 0);
    forall x: nat ensures ReadRun(series, pos, x) == [] {
      NothingRead(series, pos, x);
    }
  }

  lemma EndOfMerge(mode: Mode, series: seq<seq<Entry>>, pos: seq<nat>, merged: seq<Entry>)
    requires pos == Ends(series) && Positions(series, pos) && Merged(mode, series, pos, merged)
             && PrefixesSorted(series, pos)
    ensures Mergeable(mode, series) && StrictlyIncreasing(merged)
    ensures forall x: nat :: Run(merged, x) == CombineRun(mode, Run(Concat(series), x))
  {
    hide Run, ReadRun, O.Sorted, Combines, CombineRun;
    forall i | 0 <= i < |series| ensures O.Sorted(series[i]) {
      assert series[i][..pos[i]] == series[i];
      assert O.Sorted(series[i][..pos[i]]);
    }
    forall x: nat
      ensures Combines(mode, Run(Concat(series), x))
      ensures Run(merged, x) == CombineRun(mode, Run(Concat(series), x)) {
      ReadAll(series, x);
    }
  }

  /** The loop of `MergeTimeSeries`. */
  method MergePoints(mode: Mode, series: seq<seq<Entry>>) returns (r: Option<seq<Entry>>)
    ensures r.Some? <==> Mergeable(mode, series)
    ensures r.Some? ==> StrictlyIncreasing(r.value)
    ensures r.Some? ==> forall x: nat :: Run(r.value, x) == CombineRun(mode, Run(Concat(series), x))
  {
    hide *;
    var pos: seq<nat> := seq(|series|, _ => 0);
    var merged: seq<Entry> := [];
    ghost var offset, last := 0, 0;
    StartOfMerge(mode, series);
    while true
      invariant Positions(series, pos) && Merged(mode, series, pos, merged)
      invariant ReadUpTo(series, pos, offset, last) && PrefixesSorted(series, pos)
      invariant merged == [] || EndsAt(merged, offset)
      invariant merged == [] ==> pos == seq(|series|, _ => 0) && offset == 0 && last == 0
      invariant Waiting(series, pos, offset, last) || (merged != [] && Doomed(series, pos, offset))
      decreases Left(series, pos)
    {
      var front := Front(series, pos);
      if front.None? {
        NotDoomed(series, pos, offset);
        break;
      }
      var j := front.value;
      PositionAt(series, pos, j);
      var e := series[j][pos[j]];
      if merged != [] {
        EndIs(merged, offset);
        if merged[|merged| - 1].offset > e.offset {
          Unsorted(mode, series, pos, offset, last, j);
          return None;
        }
      }
      NextInOrder(series, pos, offset, last, j, merged == []);
      LaterAreBelow(series, pos, offset, last, j);
      ReadNext(series, pos, j);
      ghost var run := ReadRun(series, pos, e.offset);
      if merged == [] || e.offset > merged[|merged| - 1].offset {
        NewRun(series, pos, j, offset, merged == []);
        MergeNew(mode, series, pos, merged, j);
        NewEnd(merged, e);
        merged := merged + [e];
      } else {
        MergeSame(mode, series, pos, merged, j, run);
        var existing := merged[|merged| - 1];
        if !Absorbs(mode, existing, e) {
          CannotCombine(mode, series, pos, j, run);
          return None;
        }
        AbsorbKeeps(mode, existing, e);
        SameEnd(merged, Absorb(mode, existing, e));
        merged := merged[|merged| - 1 := Absorb(mode, existing, e)];
      }
      TakeNext(series, pos, offset, last, j);
      LeftShrinks(series, pos, j);
      pos := pos[j := pos[j] + 1];
      offset, last := e.offset, j;
    }
    EndOfMerge(mode, series, pos, merged);
    r := Some(merged);
  }

  lemma PositionAt(series: seq<seq<Entry>>, pos: seq<nat>, j: nat)
    requires Positions(series, pos) && j < |series|
    ensures |pos| == |series| && forall i :: 0 <= i < |pos| ==> pos[i] <= |series[i]|
  {
  }

  function Left(series: seq<seq<Entry>>, pos: seq<nat>): (r: int) {
    if series == [] || |pos| != |series| then 0
    else
      var n := |series| - 1;
      Left(series[..n], pos[..n]) + |series[n]| - pos[n]
  }

  lemma {:induction false} LeftShrinks(series: seq<seq<Entry>>, pos: seq<nat>, j: nat)
    requires Positions(series, pos) && j < |series| && pos[j] < |series[j]|
    ensures 0 <= Left(series, pos[j := pos[j] + 1]) < Left(series, pos)
  {
    var n := |series| - 1;
    var next := pos[j := pos[j] + 1];
    if j == n {
      assert next[..n] == pos[..n];
      LeftIsNat(series[..n], pos[..n]);
    } else {
      assert next[..n] == pos[..n][j := pos[j] + 1];
      LeftShrinks(series[..n], pos[..n], j);
    }
  }

  lemma {:induction false} LeftIsNat(series: seq<seq<Entry>>, pos: seq<nat>)
    requires Positions(series, pos)
    ensures Left(series, pos) >= 0
  {
    if series != [] {
      LeftIsNat(series[..|series| - 1], pos[..|series| - 1]);
    }
  }

  lemma EndIs(merged: seq<Entry>, offset: nat)
    requires merged == [] || EndsAt(merged, offset)
    ensures merged != [] ==> merged[|merged| - 1].offset == offset
  {
  }

  lemma NotDoomed(series: seq<seq<Entry>>, pos: seq<nat>, offset: nat)
    requires Positions(series, pos) && pos == Ends(series)
    ensures !Doomed(series, pos, offset)
  {
  }

  /** The order check fails only when some series is not sorted. */
  lemma Unsorted(mode: Mode, series: seq<seq<Entry>>, pos: seq<nat>, offset: nat, last: nat, j: nat)
    requires Positions(series, pos) && j < |series| && pos[j] < |series[j]| && series[j][pos[j]].offset < offset
    requires Waiting(series, pos, offset, last) || Doomed(series, pos, offset)
    ensures !Mergeable(mode, series)
  {
  }

  /** When the order check passes, the next point comes no earlier than the last one. */
  lemma NextInOrder(series: seq<seq<Entry>>, pos: seq<nat>, offset: nat, last: nat, j: nat, first: bool)
    requires Positions(series, pos) && j < |series| && pos[j] < |series[j]|
    requires Waiting(series, pos, series[j][pos[j]].offset, j)
    requires Waiting(series, pos, offset, last) || Doomed(series, pos, offset)
    requires first || series[j][pos[j]].offset >= offset
    requires first ==> offset == 0
    ensures InOrder(offset, last, series[j][pos[j]].offset, j)
  {
  }

  lemma NewRun(series: seq<seq<Entry>>, pos: seq<nat>, j: nat, offset: nat, first: bool)
    requires Positions(series, pos) && j < |series| && pos[j] < |series[j]|
    requires first ==> pos == seq(|series|, _ => 0)
    requires series[j][pos[j]].offset > offset ==>
               forall i :: 0 <= i < |series| ==> Run(series[i][..pos[i]], series[j][pos[j]].offset) == []
    requires first || series[j][pos[j]].offset > offset
    requires Positions(series, pos[j := pos[j] + 1])
    requires var e := series[j][pos[j]];
             ReadRun(series, pos[j := pos[j] + 1], e.offset) == ReadRun(series, pos, e.offset) + [e]
    ensures ReadRun(series, pos, series[j][pos[j]].offset) == []
    ensures ReadRun(series, pos[j := pos[j] + 1], series[j][pos[j]].offset) == [series[j][pos[j]]]
  {
    hide ReadRun;
    NothingRead(series, pos, series[j][pos[j]].offset);
    assert [] + [series[j][pos[j]]] == [series[j][pos[j]]];
  }

  lemma NewEnd(merged: seq<Entry>, e: Entry)
    ensures EndsAt(merged + [e], e.offset)
  {
  }

  lemma SameEnd(merged: seq<Entry>, e: Entry)
    requires merged != []
    ensures EndsAt(merged[|merged| - 1 := e], e.offset)
  {
  }

  // ---------- Conservation ----------

  function Amount(e: Entry): real {
    if e.score.Finite? then e.score.r else 0.0
  }

  lemma {:induction false} TotalCons(e: Entry, s: seq<Entry>)
    ensures Total([e] + s) == Amount(e) + Total(s)
  {
    if s == [] {
      assert ([e] + s)[..0] == [];
    } else {
      var n := |s| - 1;
      TotalCons(e, s[..n]);
      assert ([e] + s)[..n + 1] == [e] + s[..n];
    }
  }

  lemma TotalFirst(s: seq<Entry>)
    ensures Total([]) == 0.0
    ensures s != [] ==> Total(s) == Amount(s[0]) + Total(s[1..])
  {
    if s != [] {
      TotalCons(s[0], s[1..]);
      assert s == [s[0]] + s[1..];
    }
  }

  function Without(s: seq<Entry>, x: nat): (r: seq<Entry>)
    ensures |r| <= |s|
  {
    if s == [] then [] else if s[0].offset == x then Without(s[1..], x) else [s[0]] + Without(s[1..], x)
  }

  lemma {:induction false} WithoutOne(s: seq<Entry>, x: nat, y: nat)
    ensures Run(Without(s, x), y) == if y == x then [] else Run(s, y)
    ensures Total(s) == Total(Run(s, x)) + Total(Without(s, x))
    ensures HasOffset(s, x) ==> |Without(s, x)| < |s|
  {
    hide Run, Total, Amount, HasOffset;
    Unfold(s, y);
    Unfold(s, x);
    TotalFirst(s);
    HasOffsetTail(s, x);
    if s != [] {
      WithoutOne(s[1..], x, y);
      Cons(s[0], Without(s[1..], x), y);
      TotalCons(s[0], Without(s[1..], x));
      TotalCons(s[0], Run(s[1..], x));
      NothingBefore(Run(s[1..], y));
      NothingBefore(Run(s[1..], x));
      NothingBefore(Run(Without(s[1..], x), y));
    }
  }

  /** Lists with the same total at every offset have the same total. */
  lemma {:induction false} TotalsByOffset(a: seq<Entry>, b: seq<Entry>)
    requires forall x: nat :: Total(Run(a, x)) == Total(Run(b, x))
    ensures Total(a) == Total(b)
    decreases |a| + |b|
  {
    hide Run, Total, Without, HasOffset;
    if a != [] || b != [] {
      var x := if a != [] then a[0].offset else b[0].offset;
      HasOffsetTail(a, x);
      HasOffsetTail(b, x);
      WithoutOne(a, x, x);
      WithoutOne(b, x, x);
      forall y: nat ensures Total(Run(Without(a, x), y)) == Total(Run(Without(b, x), y)) {
        WithoutOne(a, x, y);
        WithoutOne(b, x, y);
      }
      TotalsByOffset(Without(a, x), Without(b, x));
    }
  }

  /** A merge in sum mode keeps the total of all scores. */
  lemma SumIsConserved(series: seq<seq<Entry>>, merged: seq<Entry>)
    requires Mergeable(Sum, series) && forall x: nat :: Run(merged, x) == CombineRun(Sum, Run(Concat(series), x))
    requires forall e :: e in Concat(series) ==> e.score.Finite?
    ensures Total(merged) == Total(Concat(series))
  {
    hide Run, Total, Combine, Combines, HasPercentiles, O.Sorted;
    var all := Concat(series);
    forall x: nat ensures Total(Run(merged, x)) == Total(Run(all, x)) {
      var run := Run(all, x);
      TotalFirst([]);
      if run != [] {
        RunMembers(all, x);
        forall i | 0 <= i < |run| ensures run[i].score.Finite? {
          assert run[i] in run;
        }
        SumMeaning(run);
        TotalFirst([Combine(Sum, run)]);
        assert [Combine(Sum, run)][1..] == [];
      }
    }
    TotalsByOffset(merged, all);
  }

  ghost predicate SomeHas(series: seq<seq<Entry>>, x: nat) {
    exists i :: 0 <= i < |series| && HasOffset(series[i], x)
  }

  /** The merged offsets are the union of the offsets of all series. */
  lemma OffsetsAreUnion(mode: Mode, series: seq<seq<Entry>>, merged: seq<Entry>, x: nat)
    requires Run(merged, x) == CombineRun(mode, Run(Concat(series), x))
    ensures HasOffset(merged, x) <==> SomeHas(series, x)
  {
    hide *;
    HasRun(merged, x);
    HasRun(Concat(series), x);
    OffsetInSome(series, x);
    NothingToCombine(mode, Run(Concat(series), x));
  }

  lemma NothingToCombine(mode: Mode, run: seq<Entry>)
    ensures CombineRun(mode, run) == [] <==> run == []
  {
  }

  lemma {:induction false} OffsetInSome(series: seq<seq<Entry>>, x: nat)
    ensures HasOffset(Concat(series), x) <==> SomeHas(series, x)
  {
    if series != [] {
      hide HasOffset;
      OffsetInSome(series[1..], x);
      EitherHas(series[0], Concat(series[1..]), x);
      if i :| 0 <= i < |series| && HasOffset(series[i], x) {
        assert i > 0 ==> HasOffset(series[1..][i - 1], x);
      }
      if i :| 0 <= i < |series[1..]| && HasOffset(series[1..][i], x) {
        assert HasOffset(series[i + 1], x);
      }
    }
  }

  // ---------- The three modes, point by point ----------

  /** All points of all series that are at one offset, series after series. */
  ghost function PointsAt(series: seq<seq<Entry>>, x: nat): seq<Entry> {
    Run(Concat(series), x)
  }

  lemma PointsAreAt(series: seq<seq<Entry>>, x: nat)
    ensures forall i :: 0 <= i < |PointsAt(series, x)| ==> PointsAt(series, x)[i].offset == x
  {
    hide Run, Concat;
    RunMembers(Concat(series), x);
    forall i | 0 <= i < |PointsAt(series, x)| ensures PointsAt(series, x)[i].offset == x {
      assert PointsAt(series, x)[i] in Run(Concat(series), x);
    }
  }

  lemma HasPercentilesMeaning(e: Entry)
    ensures e.pct == [] ==> !HasPercentiles(e)
    ensures e.pct != [] ==> (HasPercentiles(e) <==> e.pct[0].Finite?)
  {
  }

  lemma {:induction false} SumAccepts(run: seq<Entry>)
    ensures Combines(Sum, run) <==> forall i :: 0 < i < |run| ==> run[i].pct == [] || !run[i].pct[0].Finite?
  {
    hide HasPercentiles, Combine, Combines;
    CombinePush(Sum, [], Entry(0, PlusInfinity, []));
    if run != [] {
      var n := |run| - 1;
      assert run == run[..n] + [run[n]];
      CombinePush(Sum, run[..n], run[n]);
      SumAccepts(run[..n]);
      HasPercentilesMeaning(run[n]);
      assert forall i :: 0 <= i < n ==> run[..n][i] == run[i];
      assert n == 0 ==> run == [run[0]];
    }
  }

  /** Union: equal scores at each offset, and the first point stays. */
  lemma UnionMerges(series: seq<seq<Entry>>, x: nat)
    ensures var run := PointsAt(series, x);
            && (Combines(Union, run) <==> forall i :: 0 <= i < |run| ==> run[i].score == run[0].score)
            && (run != [] ==> CombineRun(Union, run) == [run[0]])
  {
    hide Run, Concat, Combine, Combines;
    CombinePush(Union, [], Entry(0, PlusInfinity, []));
    if PointsAt(series, x) != [] {
      UnionMeaning(PointsAt(series, x));
    }
  }

  /** Picking one: the first point whose percentiles do not begin with a finite number, or the first point. */
  lemma PickOneMerges(series: seq<seq<Entry>>, x: nat)
    ensures var run := PointsAt(series, x);
            && Combines(PickOne, run)
            && (run != [] && (forall i :: 0 <= i < |run| ==> run[i].pct != [] && run[i].pct[0].Finite?) ==>
                  CombineRun(PickOne, run) == [run[0]])
            && forall k ::
                 && 0 <= k < |run| && (run[k].pct == [] || !run[k].pct[0].Finite?)
                 && (forall i :: 0 <= i < k ==> run[i].pct != [] && run[i].pct[0].Finite?) ==>
                   CombineRun(PickOne, run) == [run[k]]
  {
    hide Run, Concat, Combine, Combines, HasPercentiles, PointsAt;
    var run := PointsAt(series, x);
    CombinePush(PickOne, [], Entry(0, PlusInfinity, []));
    forall i | 0 <= i < |run| ensures HasPercentiles(run[i]) <==> run[i].pct != [] && run[i].pct[0].Finite? {
      HasPercentilesMeaning(run[i]);
    }
    if run != [] {
      PointsAreAt(series, x);
      PickOneMeaning(run, x);
    }
  }

  /** Sum: only the first point may have percentiles, and keeps them; finite scores are added. */
  lemma SumMerges(series: seq<seq<Entry>>, x: nat)
    ensures var run := PointsAt(series, x);
            && (Combines(Sum, run) <==> forall i :: 0 < i < |run| ==> run[i].pct == [] || !run[i].pct[0].Finite?)
            && (run != [] && (forall i :: 0 <= i < |run| ==> run[i].score.Finite?) ==>
                  CombineRun(Sum, run) == [run[0].(score := Finite(Total(run)))])
  {
    hide Run, Concat, Combine, Combines, HasPercentiles, PointsAt, Total;
    SumAccepts(PointsAt(series, x));
    if PointsAt(series, x) != [] && forall i :: 0 <= i < |PointsAt(series, x)| ==>
      PointsAt(series, x)[i].score.Finite? {
      SumMeaning(PointsAt(series, x));
    }
  }

  /** With an infinite score at place `k`, and no other infinity, the sum is that infinity. */
  lemma {:induction false} InfiniteSum(run: seq<Entry>, k: nat)
    requires k < |run| && !run[k].score.Finite?
    requires forall i :: 0 <= i < |run| ==> run[i].score.Finite? || run[i].score == run[k].score
    ensures Combine(Sum, run) == run[0].(score := run[k].score)
  {
    hide Combine;
    CombinePush(Sum, [], run[|run| - 1]);
    var n := |run| - 1;
    if n > 0 {
      assert run == run[..n] + [run[n]];
      CombinePush(Sum, run[..n], run[n]);
      if i :| 0 <= i < n && !run[i].score.Finite? {
        InfiniteSum(run[..n], i);
      } else {
        FiniteSum(run[..n]);
      }
    } else {
      assert run == [run[0]];
    }
  }

  lemma {:induction false} FiniteSum(run: seq<Entry>)
    requires run != [] && forall i :: 0 <= i < |run| ==> run[i].score.Finite?
    ensures var r := Combine(Sum, run); r.score.Finite? && r == run[0].(score := r.score)
  {
    hide Combine;
    CombinePush(Sum, [], run[|run| - 1]);
    var n := |run| - 1;
    if n > 0 {
      assert run == run[..n] + [run[n]];
      CombinePush(Sum, run[..n], run[n]);
      FiniteSum(run[..n]);
    } else {
      assert run == [run[0]];
    }
  }

  /** The total of finite scores, from the front. */
  lemma {:induction false} TotalMeaning(run: seq<Entry>)
    ensures Total([]) == 0.0
    ensures run != [] && run[0].score.Finite? ==> Total(run) == run[0].score.r + Total(run[1..])
  {
    if |run| > 1 {
      var n := |run| - 1;
      TotalMeaning(run[..n]);
      assert run[..n][1..] == run[1..][..n - 1];
    } else if |run| == 1 {
      assert run[..0] == [] && run[1..] == [];
    }
  }

  lemma PointsAtMeans(series: seq<seq<Entry>>, x: nat)
    ensures PointsAt(series, x) == Run(Concat(series), x)
  {
  }

  lemma MergeableMeaning(mode: Mode, series: seq<seq<Entry>>)
    ensures Mergeable(mode, series) <==> AllSorted(series) && forall x: nat :: Combines(mode, PointsAt(series, x))
  {
    hide AllSorted, Combines, Run, Concat;
    if Mergeable(mode, series) {
      forall x: nat ensures Combines(mode, PointsAt(series, x)) {
        assert Combines(mode, Run(Concat(series), x));
      }
    }
    if AllSorted(series) && forall x: nat :: Combines(mode, PointsAt(series, x)) {
      forall x: nat ensures Combines(mode, Run(Concat(series), x)) {
        assert Combines(mode, PointsAt(series, x));
      }
    }
  }

  lemma UnionMergeable(series: seq<seq<Entry>>)
    ensures Mergeable(Union, series) <==>
                && AllSorted(series)
                && forall x: nat, i ::
                     0 <= i < |PointsAt(series, x)| ==> PointsAt(series, x)[i].score == PointsAt(series, x)[0].score
  {
    hide *;
    MergeableMeaning(Union, series);
    forall x: nat ensures Combines(Union, PointsAt(series, x)) <==>
                forall i :: 0 <= i < |PointsAt(series, x)| ==>
                  PointsAt(series, x)[i].score == PointsAt(series, x)[0].score {
      UnionMerges(series, x);
    }
  }

  lemma UnionResult(series: seq<seq<Entry>>, merged: seq<Entry>)
    requires forall x: nat :: Run(merged, x) == CombineRun(Union, Run(Concat(series), x))
    ensures forall x: nat :: PointsAt(series, x) != [] ==> Run(merged, x) == [PointsAt(series, x)[0]]
  {
    hide *;
    forall x: nat ensures Run(merged, x) == CombineRun(Union, PointsAt(series, x)) {
      PointsAtMeans(series, x);
    }
    forall x: nat | PointsAt(series, x) != [] ensures Run(merged, x) == [PointsAt(series, x)[0]] {
      UnionMerges(series, x);
    }
  }

  lemma PickOneMergeable(series: seq<seq<Entry>>)
    ensures Mergeable(PickOne, series) <==> AllSorted(series)
  {
    hide *;
    MergeableMeaning(PickOne, series);
    forall x: nat ensures Combines(PickOne, PointsAt(series, x)) {
      PickOneMerges(series, x);
    }
  }

  lemma PickOneResult(series: seq<seq<Entry>>, merged: seq<Entry>)
    requires forall x: nat :: Run(merged, x) == CombineRun(PickOne, Run(Concat(series), x))
    ensures forall x: nat, k ::
                && 0 <= k < |PointsAt(series, x)|
                && (PointsAt(series, x)[k].pct == [] || !PointsAt(series, x)[k].pct[0].Finite?)
                && (forall i :: 0 <= i < k ==>
                      PointsAt(series, x)[i].pct != [] && PointsAt(series, x)[i].pct[0].Finite?) ==>
                  Run(merged, x) == [PointsAt(series, x)[k]]
    ensures forall x: nat ::
                && PointsAt(series, x) != []
                && (forall i :: 0 <= i < |PointsAt(series, x)| ==>
                      PointsAt(series, x)[i].pct != [] && PointsAt(series, x)[i].pct[0].Finite?) ==>
                  Run(merged, x) == [PointsAt(series, x)[0]]
  {
    hide *;
    forall x: nat ensures Run(merged, x) == CombineRun(PickOne, PointsAt(series, x)) {
      PointsAtMeans(series, x);
    }
    forall x: nat, k |
      && 0 <= k < |PointsAt(series, x)|
      && (PointsAt(series, x)[k].pct == [] || !PointsAt(series, x)[k].pct[0].Finite?)
      && (forall i :: 0 <= i < k ==> PointsAt(series, x)[i].pct != [] && PointsAt(series, x)[i].pct[0].Finite?)
      ensures Run(merged, x) == [PointsAt(series, x)[k]] {
      PickOneMerges(series, x);
    }
    forall x: nat |
      && PointsAt(series, x) != []
      && (forall i :: 0 <= i < |PointsAt(series, x)| ==>
            PointsAt(series, x)[i].pct != [] && PointsAt(series, x)[i].pct[0].Finite?)
      ensures Run(merged, x) == [PointsAt(series, x)[0]] {
      PickOneMerges(series, x);
    }
  }

  lemma SumMergeable(series: seq<seq<Entry>>)
    ensures Mergeable(Sum, series) <==>
                && AllSorted(series)
                && forall x: nat, i ::
                     0 < i < |PointsAt(series, x)| ==>
                       PointsAt(series, x)[i].pct == [] || !PointsAt(series, x)[i].pct[0].Finite?
  {
    hide *;
    MergeableMeaning(Sum, series);
    forall x: nat ensures Combines(Sum, PointsAt(series, x)) <==>
                forall i :: 0 < i < |PointsAt(series, x)| ==>
                  PointsAt(series, x)[i].pct == [] || !PointsAt(series, x)[i].pct[0].Finite? {
      SumMerges(series, x);
    }
  }

  lemma SumResult(series: seq<seq<Entry>>, merged: seq<Entry>)
    requires forall x: nat :: Run(merged, x) == CombineRun(Sum, Run(Concat(series), x))
    ensures forall x: nat ::
                PointsAt(series, x) != [] && (forall e :: e in PointsAt(series, x) ==> e.score.Finite?) ==>
                  Run(merged, x) == [PointsAt(series, x)[0].(score := Finite(Total(PointsAt(series, x))))]
  {
    hide *;
    forall x: nat ensures Run(merged, x) == CombineRun(Sum, PointsAt(series, x)) {
      PointsAtMeans(series, x);
    }
    forall x: nat | PointsAt(series, x) != [] && (forall e :: e in PointsAt(series, x) ==> e.score.Finite?)
      ensures Run(merged, x) == [PointsAt(series, x)[0].(score := Finite(Total(PointsAt(series, x))))] {
      assert forall i :: 0 <= i < |PointsAt(series, x)| ==> PointsAt(series, x)[i] in PointsAt(series, x);
      SumMerges(series, x);
    }
  }

  /** `MergeTimeSeriesCallback` for several series. It fails exactly when a series is not sorted or the
      points of some offset cannot be combined. Otherwise the result has one point for each offset, in
      order: what the points of that offset, series after series, combine to. For each mode it is said
      apart what that is. */
  method MergeTimeSeries(mode: Mode, series: seq<seq<Entry>>) returns (r: Option<seq<Entry>>)
    ensures r.Some? <==> Mergeable(mode, series)
    ensures r.Some? ==> StrictlyIncreasing(r.value)
    ensures r.Some? ==> forall x: nat :: Run(r.value, x) == CombineRun(mode, Run(Concat(series), x))
    ensures mode == Union ==>
              (r.Some? <==>
                && AllSorted(series)
                && forall x: nat, i ::
                     0 <= i < |PointsAt(series, x)| ==> PointsAt(series, x)[i].score == PointsAt(series, x)[0].score)
    ensures mode == Union && r.Some? ==>
              forall x: nat :: PointsAt(series, x) != [] ==> Run(r.value, x) == [PointsAt(series, x)[0]]
    ensures mode == PickOne ==> (r.Some? <==> AllSorted(series))
    ensures mode == PickOne && r.Some? ==>
              forall x: nat, k ::
                && 0 <= k < |PointsAt(series, x)|
                && (PointsAt(series, x)[k].pct == [] || !PointsAt(series, x)[k].pct[0].Finite?)
                && (forall i :: 0 <= i < k ==>
                      PointsAt(series, x)[i].pct != [] && PointsAt(series, x)[i].pct[0].Finite?) ==>
                  Run(r.value, x) == [PointsAt(series, x)[k]]
    ensures mode == PickOne && r.Some? ==>
              forall x: nat ::
                && PointsAt(series, x) != []
                && (forall i :: 0 <= i < |PointsAt(series, x)| ==>
                      PointsAt(series, x)[i].pct != [] && PointsAt(series, x)[i].pct[0].Finite?) ==>
                  Run(r.value, x) == [PointsAt(series, x)[0]]
    ensures mode == Sum ==>
              (r.Some? <==>
                && AllSorted(series)
                && forall x: nat, i ::
                     0 < i < |PointsAt(series, x)| ==>
                       PointsAt(series, x)[i].pct == [] || !PointsAt(series, x)[i].pct[0].Finite?)
    ensures mode == Sum && r.Some? ==>
              forall x: nat ::
                PointsAt(series, x) != [] && (forall e :: e in PointsAt(series, x) ==> e.score.Finite?) ==>
                  Run(r.value, x) == [PointsAt(series, x)[0].(score := Finite(Total(PointsAt(series, x))))]
  {
    hide *;
    r := MergePoints(mode, series);
    match mode {
      case Union =>
        UnionMergeable(series);
        if r.Some? {
          UnionResult(series, r.value);
        }
      case PickOne =>
        PickOneMergeable(series);
        if r.Some? {
          PickOneResult(series, r.value);
        }
      case Sum =>
        SumMergeable(series);
        if r.Some? {
          SumResult(series, r.value);
        }
    }
  }
}

/** The operations on sorted lists of offsets that look at scores: joining, ordering, filtering, and
    keeping one entry for each offset. */
module ScoreOps {
  import opened OffsetLists
  import opened ListOps

  // ---------- Tests of one score ----------

  datatype Test =
    | Equal(value: Number)
    | Greater(value: Number)
    | AtLeastValue(value: Number)
    | Smaller(value: Number)
    | AtMost(value: Number)
    | Between(low: Number, high: Number)
  {
    predicate Passes(score: Number) {
      match this
      case Equal(v) => score == v
      case Greater(v) => v.Below(score)
      case AtLeastValue(v) => !score.Below(v)
      case Smaller(v) => score.Below(v)
      case AtMost(v) => !v.Below(score)
      case Between(a, b) =>
        // the bounds may be given in either order
        var low, high := if b.Below(a) then b else a, if b.Below(a) then a else b;
        !score.Below(low) && !high.Below(score)
    }
  }

  function Filter(s: seq<Entry>, test: Test): seq<Entry> {
    if s == [] then [] else (if test.Passes(s[0].score) then [s[0]] else []) + Filter(s[1..], test)
  }

  lemma {:induction false} FilterRuns(s: seq<Entry>, test: Test, x: nat, low: nat)
    requires Sorted(s) && AtLeast(s, low)
    ensures Sorted(Filter(s, test)) && AtLeast(Filter(s, test), low)
    ensures Run(Filter(s, test), x) == Filter(Run(s, x), test)
  {
    hide Run, Sorted, AtLeast;
    Unfold(s, x);
    NothingToSort(low);
    if s != [] {
      Tail(s);
      AtLeastTail(s, low);
      FilterRuns(s[1..], test, x, s[0].offset);
      var kept := Filter(s[1..], test);
      NothingBefore(kept);
      NothingBefore(Run(s[1..], x));
      NothingBefore(Filter(Run(s[1..], x), test));
      NothingBefore(Run(kept, x));
      Cons(s[0], kept, x);
      Prepend(s[0], kept, low);
      Weaken(kept, s[0].offset, low);
      FilterCons(s[0], Run(s[1..], x), test);
    }
  }

  lemma FilterCons(e: Entry, s: seq<Entry>, test: Test)
    ensures Filter([e] + s, test) == (if test.Passes(e.score) then [e] else []) + Filter(s, test)
  {
    assert ([e] + s)[1..] == s;
  }

  function Negated(s: seq<Entry>): (r: seq<Entry>)
    ensures |r| == |s|
  {
    if s == [] then [] else [s[0].(score := s[0].score.Negated())] + Negated(s[1..])
  }

  lemma {:induction false} NegatedRuns(s: seq<Entry>, x: nat, low: nat)
    requires Sorted(s) && AtLeast(s, low)
    ensures Sorted(Negated(s)) && AtLeast(Negated(s), low)
    ensures Run(Negated(s), x) == Negated(Run(s, x))
  {
    hide Run, Sorted, AtLeast, Number.Negated;
    Unfold(s, x);
    NothingToSort(low);
    if s != [] {
      Tail(s);
      AtLeastTail(s, low);
      NegatedRuns(s[1..], x, s[0].offset);
      var e := s[0].(score := s[0].score.Negated());
      Cons(e, Negated(s[1..]), x);
      Prepend(e, Negated(s[1..]), low);
      NothingBefore(Run(s[1..], x));
      NothingBefore(Negated(Run(s[1..], x)));
      assert ([s[0]] + Run(s[1..], x))[1..] == Run(s[1..], x);
    }
  }

  // ---------- Joining ----------

  /** What a join makes of two runs: it compares them one by one and keeps the left ones that pass. */
  function JoinRun(p: seq<Entry>, q: seq<Entry>, greater: bool): seq<Entry> {
    if p == [] || q == [] then []
    else (if Compares(p[0].score, q[0].score, greater) then [p[0]] else []) + JoinRun(p[1..], q[1..], greater)
  }

  predicate Compares(a: Number, b: Number, greater: bool) {
    if greater then b.Below(a) else a.Below(b)
  }

  function Joined(l: seq<Entry>, r: seq<Entry>, greater: bool): seq<Entry>
    decreases |l| + |r|
  {
    if l == [] || r == [] then []
    else if l[0].offset < r[0].offset then Joined(l[1..], r, greater)
    else if r[0].offset < l[0].offset then Joined(l, r[1..], greater)
    else (if Compares(l[0].score, r[0].score, greater) then [l[0]] else []) + Joined(l[1..], r[1..], greater)
  }

  lemma {:induction false} JoinedIsSorted(l: seq<Entry>, r: seq<Entry>, greater: bool, low: nat)
    requires Sorted(l) && AtLeast(l, low)
    ensures Sorted(Joined(l, r, greater)) && AtLeast(Joined(l, r, greater), low)
    decreases |l| + |r|
  {
    hide Sorted, AtLeast, Compares;
    NothingToSort(low);
    if l != [] && r != [] {
      Tail(l);
      AtLeastTail(l, low);
      if l[0].offset < r[0].offset {
        JoinedIsSorted(l[1..], r, greater, low);
      } else if r[0].offset < l[0].offset {
        JoinedIsSorted(l, r[1..], greater, low);
      } else {
        JoinedIsSorted(l[1..], r[1..], greater, l[0].offset);
        var rest := Joined(l[1..], r[1..], greater);
        NothingBefore(rest);
        Prepend(l[0], rest, low);
        Weaken(rest, l[0].offset, low);
      }
    }
  }

  lemma JoinRunSteps(e: Entry, f: Entry, p: seq<Entry>, q: seq<Entry>, greater: bool)
    ensures JoinRun([], q, greater) == [] && JoinRun(p, [], greater) == []
    ensures JoinRun([e] + p, [f] + q, greater) ==
            (if Compares(e.score, f.score, greater) then [e] else []) + JoinRun(p, q, greater)
  {
    assert ([e] + p)[1..] == p && ([f] + q)[1..] == q;
  }

  lemma {:induction false} JoinedRuns(l: seq<Entry>, r: seq<Entry>, greater: bool, x: nat)
    requires Sorted(l) && Sorted(r)
    ensures Run(Joined(l, r, greater), x) == JoinRun(Run(l, x), Run(r, x), greater)
    decreases |l| + |r|
  {
    hide Run, Sorted, AtLeast, Compares, JoinRun;
    Unfold(l, x);
    Unfold(r, x);
    Unfold([], x);
    var any := Entry(0, PlusInfinity, []);
    JoinRunSteps(any, any, Run(l, x), Run(r, x), greater);
    if l != [] && r != [] {
      Tail(l);
      Tail(r);
      NothingBefore(Run(l[1..], x));
      NothingBefore(Run(r[1..], x));
      if l[0].offset < r[0].offset {
        JoinedRuns(l[1..], r, greater, x);
        if x == l[0].offset {
          NoRunBeforeHead(r, x);
          JoinRunSteps(any, any, Run(l[1..], x), [], greater);
        }
      } else if r[0].offset < l[0].offset {
        JoinedRuns(l, r[1..], greater, x);
        if x == r[0].offset {
          NoRunBeforeHead(l, x);
          JoinRunSteps(any, any, [], Run(r[1..], x), greater);
        }
      } else {
        var rest := Joined(l[1..], r[1..], greater);
        JoinedRuns(l[1..], r[1..], greater, x);
        Cons(l[0], rest, x);
        NothingBefore(rest);
        NothingBefore(Run(rest, x));
        JoinRunSteps(l[0], r[0], Run(l[1..], x), Run(r[1..], x), greater);
      }
    }
  }

  lemma JoinedStep(l: seq<Entry>, r: seq<Entry>, greater: bool, i: nat, j: nat)
    requires i <= |l| && j <= |r|
    ensures i == |l| || j == |r| ==> Joined(l[i..], r[j..], greater) == []
    ensures i < |l| && j < |r| && l[i].offset < r[j].offset ==>
              Joined(l[i..], r[j..], greater) == Joined(l[i + 1..], r[j..], greater)
    ensures i < |l| && j < |r| && r[j].offset < l[i].offset ==>
              Joined(l[i..], r[j..], greater) == Joined(l[i..], r[j + 1..], greater)
    ensures i < |l| && j < |r| && r[j].offset == l[i].offset ==>
              Joined(l[i..], r[j..], greater) ==
              (if Compares(l[i].score, r[j].score, greater) then [l[i]] else [])
                + Joined(l[i + 1..], r[j + 1..], greater)
  {
    hide Compares;
    if i < |l| {
      assert l[i..][1..] == l[i + 1..];
    }
    if j < |r| {
      assert r[j..][1..] == r[j + 1..];
    }
  }

  /** Writes the next entry read, which is as it was, to the next place written. */
  method MoveRead(a: array<Entry>, o: nat, l: nat, ghost was: seq<Entry>)
    requires o <= l < a.Length == |was| && a[l..] == was[l..]
    modifies a
    ensures a[..o + 1] == old(a[..o]) + [was[l]] && a[l + 1..] == was[l + 1..]
  {
    Unread(a[..], was, l);
    WrittenNext(a[..], o, l);
    var _, _ := MoveDown(a, o, l);
  }

  /** `Join`, over the left operand. */
  method Join(lhs: array<Entry>, rhs: seq<Entry>, greater: bool) returns (size: nat)
    requires Sorted(lhs[..]) && Sorted(rhs)
    modifies lhs
    ensures size <= lhs.Length && Sorted(lhs[..size])
    ensures forall x: nat :: Run(lhs[..size], x) == JoinRun(Run(old(lhs[..]), x), Run(rhs, x), greater)
  {
    hide Run, Sorted, AtLeast, Joined, Compares, JoinRun;
    ghost var was := lhs[..];
    var o, l, r := 0, 0, 0;
    assert was[0..] == was && rhs[0..] == rhs && lhs[..0] == [];
    NothingBefore(Joined(was, rhs, greater));
    while l != lhs.Length && r != |rhs|
      invariant o <= l <= lhs.Length && r <= |rhs| && lhs[l..] == was[l..]
      invariant Joined(was, rhs, greater) == lhs[..o] + Joined(was[l..], rhs[r..], greater)
      decreases lhs.Length - l + |rhs| - r
    {
      JoinedStep(was, rhs, greater, l, r);
      Unread(lhs[..], was, l);
      if lhs[l].offset < rhs[r].offset {
        l := l + 1;
        continue;
      }
      if rhs[r].offset < lhs[l].offset {
        r := r + 1;
        continue;
      }
      NothingBefore(Joined(was[l + 1..], rhs[r + 1..], greater));
      if Compares(lhs[l].score, rhs[r].score, greater) {
        Shift(lhs[..o], was[l], Joined(was[l + 1..], rhs[r + 1..], greater));
        MoveRead(lhs, o, l, was);
        o := o + 1;
      }
      l := l + 1;
      r := r + 1;
    }
    JoinedStep(was, rhs, greater, l, r);
    size := o;
    assert lhs[..size] + [] == lhs[..size];
    ZeroIsLeast(was);
    JoinedIsSorted(was, rhs, greater, 0);
    forall x: nat ensures Run(lhs[..size], x) == JoinRun(Run(was, x), Run(rhs, x), greater) {
      JoinedRuns(was, rhs, greater, x);
    }
  }

  // ---------- Ordering ----------

  /** What ordering makes of two runs: the scores of the right one, minus infinity where it is too short. */
  function OrderRun(p: seq<Entry>, q: seq<Entry>): (r: seq<Entry>)
    ensures |r| == |p|
  {
    if p == [] then []
    else if q == [] then [p[0].(score := MinusInfinity)] + OrderRun(p[1..], q)
    else [p[0].(score := q[0].score)] + OrderRun(p[1..], q[1..])
  }

  function Ordered(l: seq<Entry>, r: seq<Entry>): (s: seq<Entry>)
    ensures |s| == |l|
    decreases |l| + |r|
  {
    if l == [] then []
    else if r == [] || l[0].offset < r[0].offset then [l[0].(score := MinusInfinity)] + Ordered(l[1..], r)
    else if r[0].offset < l[0].offset then Ordered(l, r[1..])
    else [l[0].(score := r[0].score)] + Ordered(l[1..], r[1..])
  }

  lemma {:induction false} OrderedIsSorted(l: seq<Entry>, r: seq<Entry>, low: nat)
    requires Sorted(l) && AtLeast(l, low)
    ensures Sorted(Ordered(l, r)) && AtLeast(Ordered(l, r), low)
    decreases |l| + |r|
  {
    hide Sorted, AtLeast;
    NothingToSort(low);
    if l != [] {
      Tail(l);
      AtLeastTail(l, low);
      if r == [] || l[0].offset < r[0].offset {
        OrderedIsSorted(l[1..], r, l[0].offset);
        Prepend(l[0].(score := MinusInfinity), Ordered(l[1..], r), low);
      } else if r[0].offset < l[0].offset {
        OrderedIsSorted(l, r[1..], low);
      } else {
        OrderedIsSorted(l[1..], r[1..], l[0].offset);
        Prepend(l[0].(score := r[0].score), Ordered(l[1..], r[1..]), low);
      }
    }
  }

  lemma OrderRunSteps(e: Entry, f: Entry, p: seq<Entry>, q: seq<Entry>)
    ensures OrderRun([], q) == []
    ensures OrderRun([e] + p, []) == [e.(score := MinusInfinity)] + OrderRun(p, [])
    ensures OrderRun([e] + p, [f] + q) == [e.(score := f.score)] + OrderRun(p, q)
  {
    assert ([e] + p)[1..] == p && ([f] + q)[1..] == q;
  }

  lemma {:induction false} OrderedRuns(l: seq<Entry>, r: seq<Entry>, x: nat)
    requires Sorted(l) && Sorted(r)
    ensures Run(Ordered(l, r), x) == OrderRun(Run(l, x), Run(r, x))
    decreases |l| + |r|
  {
    hide Run, Sorted, AtLeast, OrderRun;
    Unfold(l, x);
    Unfold(r, x);
    Unfold([], x);
    var any := Entry(0, PlusInfinity, []);
    OrderRunSteps(any, any, Run(l, x), Run(r, x));
    if l != [] {
      Tail(l);
      NothingBefore(Run(l[1..], x));
      if r == [] || l[0].offset < r[0].offset {
        var e := l[0].(score := MinusInfinity);
        OrderedRuns(l[1..], r, x);
        Cons(e, Ordered(l[1..], r), x);
        NothingBefore(Run(Ordered(l[1..], r), x));
        if x == l[0].offset {
          NoRunBeforeHead(r, x);
          OrderRunSteps(l[0], any, Run(l[1..], x), []);
        }
      } else {
        Tail(r);
        NothingBefore(Run(r[1..], x));
        if r[0].offset < l[0].offset {
          OrderedRuns(l, r[1..], x);
          if x == r[0].offset {
            NoRunBeforeHead(l, x);
            OrderRunSteps(any, any, [], Run(r[1..], x));
          }
        } else {
          var e := l[0].(score := r[0].score);
          OrderedRuns(l[1..], r[1..], x);
          Cons(e, Ordered(l[1..], r[1..]), x);
          NothingBefore(Run(Ordered(l[1..], r[1..]), x));
          OrderRunSteps(l[0], r[0], Run(l[1..], x), Run(r[1..], x));
        }
      }
    }
  }

  lemma OrderedStep(l: seq<Entry>, r: seq<Entry>, i: nat, j: nat)
    requires i <= |l| && j <= |r|
    ensures i == |l| ==> Ordered(l[i..], r[j..]) == []
    ensures i < |l| && (j == |r| || l[i].offset < r[j].offset) ==>
              Ordered(l[i..], r[j..]) == [l[i].(score := MinusInfinity)] + Ordered(l[i + 1..], r[j..])
    ensures i < |l| && j < |r| && r[j].offset < l[i].offset ==> Ordered(l[i..], r[j..]) == Ordered(l[i..], r[j + 1..])
    ensures i < |l| && j < |r| && r[j].offset == l[i].offset ==>
              Ordered(l[i..], r[j..]) == [l[i].(score := r[j].score)] + Ordered(l[i + 1..], r[j + 1..])
  {
    if i < |l| {
      assert l[i..][1..] == l[i + 1..];
    }
    if j < |r| {
      assert r[j..][1..] == r[j + 1..];
    }
  }

  method Rescore(a: array<Entry>, l: nat, score: Number, ghost was: seq<Entry>)
    requires l < a.Length == |was| && a[l..] == was[l..]
    modifies a
    ensures a[..l + 1] == old(a[..l]) + [was[l].(score := score)] && a[l + 1..] == was[l + 1..]
  {
    Unread(a[..], was, l);
    a[l] := a[l].(score := score);
  }

  /** The score of each left entry becomes that of the right entry it meets. */
  method OrderBy(lhs: array<Entry>, rhs: seq<Entry>)
    requires Sorted(lhs[..]) && Sorted(rhs)
    modifies lhs
    ensures Sorted(lhs[..])
    ensures forall x: nat :: Run(lhs[..], x) == OrderRun(Run(old(lhs[..]), x), Run(rhs, x))
  {
    hide Run, Sorted, AtLeast, Ordered, OrderRun;
    ghost var was := lhs[..];
    var l, r := 0, 0;
    assert was[0..] == was && rhs[0..] == rhs && lhs[..0] == [];
    NothingBefore(Ordered(was, rhs));
    while l != lhs.Length && r != |rhs|
      invariant l <= lhs.Length && r <= |rhs| && lhs[l..] == was[l..]
      invariant Ordered(was, rhs) == lhs[..l] + Ordered(was[l..], rhs[r..])
      decreases lhs.Length - l + |rhs| - r
    {
      OrderedStep(was, rhs, l, r);
      Unread(lhs[..], was, l);
      if lhs[l].offset < rhs[r].offset {
        Shift(lhs[..l], was[l].(score := MinusInfinity), Ordered(was[l + 1..], rhs[r..]));
        Rescore(lhs, l, MinusInfinity, was);
        l := l + 1;
        continue;
      }
      if rhs[r].offset < lhs[l].offset {
        r := r + 1;
        continue;
      }
      Shift(lhs[..l], was[l].(score := rhs[r].score), Ordered(was[l + 1..], rhs[r + 1..]));
      Rescore(lhs, l, rhs[r].score, was);
      l := l + 1;
      r := r + 1;
    }
    while l != lhs.Length
      invariant l <= lhs.Length && r <= |rhs| && lhs[l..] == was[l..] && (l == lhs.Length || r == |rhs|)
      invariant Ordered(was, rhs) == lhs[..l] + Ordered(was[l..], rhs[r..])
    {
      OrderedStep(was, rhs, l, r);
      Shift(lhs[..l], was[l].(score := MinusInfinity), Ordered(was[l + 1..], rhs[r..]));
      Rescore(lhs, l, MinusInfinity, was);
      l := l + 1;
    }
    OrderedStep(was, rhs, l, r);
    assert lhs[..l] + [] == lhs[..];
    ZeroIsLeast(was);
    OrderedIsSorted(was, rhs, 0);
    forall x: nat ensures Run(lhs[..], x) == OrderRun(Run(was, x), Run(rhs, x)) {
      OrderedRuns(was, rhs, x);
    }
  }

  // ---------- One entry for each offset ----------

  predicate StrictlyIncreasing(s: seq<Entry>) {
    forall i, j :: 0 <= i < j < |s| ==> s[i].offset < s[j].offset
  }

  predicate Improves(score: Number, best: Number, max: bool) {
    if max then best.Below(score) else score.Below(best)
  }

  /** The first entry of a run, with the best score of the run. */
  function Best(run: seq<Entry>, max: bool): (e: Entry)
    requires run != []
  {
    var n := |run| - 1;
    if n == 0 then run[0]
    else
      var e := Best(run[..n], max);
      if Improves(run[n].score, e.score, max) then e.(score := run[n].score) else e
  }

  /** The best score is one of the run, and no score of the run is better. */
  lemma {:induction false} BestIsBest(run: seq<Entry>, max: bool)
    requires run != []
    ensures Best(run, max) == run[0].(score := Best(run, max).score)
    ensures exists i :: 0 <= i < |run| && run[i].score == Best(run, max).score
    ensures forall i :: 0 <= i < |run| ==> !Improves(run[i].score, Best(run, max).score, max)
  {
    var n := |run| - 1;
    if n > 0 {
      BestIsBest(run[..n], max);
      var i :| 0 <= i < n && run[..n][i].score == Best(run[..n], max).score;
      assert run[i].score == Best(run[..n], max).score;
      assert forall k :: 0 <= k < n ==> !Improves(run[..n][k].score, Best(run[..n], max).score, max);
    }
  }

  function Collapse(run: seq<Entry>, max: bool): seq<Entry> {
    if run == [] then [] else [Best(run, max)]
  }

  lemma CollapsePush(run: seq<Entry>, e: Entry, max: bool)
    ensures Collapse([], max) == []
    ensures run == [] ==> Collapse(run + [e], max) == [e]
    ensures run != [] ==>
              var best := Best(run, max);
              Collapse(run + [e], max) == [if Improves(e.score, best.score, max) then best.(score := e.score) else best]
  {
    assert (run + [e])[..|run|] == run;
  }

  /** The list so far, with one entry more. */
  ghost predicate Collapsed(done: seq<Entry>, s: seq<Entry>, max: bool) {
    && StrictlyIncreasing(done)
    && (done == [] <==> s == [])
    && (s != [] ==> done[|done| - 1].offset == s[|s| - 1].offset)
    && forall x: nat :: Run(done, x) == Collapse(Run(s, x), max)
  }

  lemma CollapsedStart(e: Entry, max: bool)
    ensures Collapsed([], [], max) && Collapsed([e], [e], max)
  {
    forall x: nat ensures Run([e], x) == Collapse(Run([e], x), max) {
      Cons(e, [], x);
      assert [e] + [] == [e] && Run([], x) == [];
    }
  }

  lemma NoRunAbove(s: seq<Entry>, x: nat)
    requires forall i :: 0 <= i < |s| ==> s[i].offset < x
    ensures Run(s, x) == []
  {
    RunMembers(s, x);
  }

  lemma LastIsLargest(s: seq<Entry>, e: Entry)
    requires s != [] && Sorted(s + [e])
    ensures s[|s| - 1].offset <= e.offset
    ensures s[|s| - 1].offset < e.offset ==> forall i :: 0 <= i < |s| ==> s[i].offset < e.offset
    ensures Sorted(s)
  {
    assert (s + [e])[|s|] == e;
    assert forall i :: 0 <= i < |s| ==> (s + [e])[i] == s[i];
  }

  /** A new offset starts a new entry. */
  lemma CollapsedNew(done: seq<Entry>, s: seq<Entry>, e: Entry, max: bool)
    requires s != [] && Collapsed(done, s, max) && Sorted(s + [e]) && s[|s| - 1].offset != e.offset
    ensures Collapsed(done + [e], s + [e], max)
  {
    hide Run, Sorted, Collapse;
    LastIsLargest(s, e);
    NoRunAbove(s, e.offset);
    forall x: nat ensures Run(done + [e], x) == Collapse(Run(s + [e], x), max) {
      Push(done, e, x);
      Push(s, e, x);
      CollapsePush(Run(s, x), e, max);
      assert Run(done, x) + [] == Run(done, x) && Run(s, x) + [] == Run(s, x);
      assert [] + [e] == [e];
    }
  }

  /** The same offset again may improve the last score. */
  lemma CollapsedSame(init: seq<Entry>, last: Entry, s: seq<Entry>, e: Entry, max: bool)
    requires s != [] && Collapsed(init + [last], s, max) && s[|s| - 1].offset == e.offset
    ensures last.offset == e.offset
    ensures Collapsed(init + [if Improves(e.score, last.score, max) then last.(score := e.score) else last],
                      s + [e], max)
  {
    hide Run, Sorted, Collapse, Improves;
    var done := init + [last];
    var next := if Improves(e.score, last.score, max) then last.(score := e.score) else last;
    assert done[|init|] == last;
    forall i, j | 0 <= i < j < |init + [next]| ensures (init + [next])[i].offset < (init + [next])[j].offset {
      assert done[i].offset < done[j].offset;
    }
    forall x: nat ensures Run(init + [next], x) == Collapse(Run(s + [e], x), max) {
      Push(init, last, x);
      Push(init, next, x);
      Push(s, e, x);
      if x == e.offset {
        forall i | 0 <= i < |init| ensures init[i].offset < x {
          assert done[i].offset < done[|init|].offset;
        }
        NoRunAbove(init, x);
        assert [] + [last] == [last] && [] + [next] == [next];
        CollapsedIsBest(Run(s, x), last, max);
        CollapsePush(Run(s, x), e, max);
      } else {
        assert Run(s, x) + [] == Run(s, x) && Run(init, x) + [] == Run(init, x);
      }
    }
  }

  lemma CollapsedIsBest(run: seq<Entry>, last: Entry, max: bool)
    requires Collapse(run, max) == [last]
    ensures run != [] && Best(run, max) == last
  {
  }

  lemma TakeOneMore(s: seq<Entry>, i: nat)
    requires i < |s| && Sorted(s)
    ensures s[..i + 1] == s[..i] + [s[i]] && Sorted(s[..i + 1])
  {
  }

  /** `RemoveDuplicates`. */
  method RemoveDuplicates(data: array<Entry>, useMax: bool) returns (size: nat)
    requires Sorted(data[..])
    modifies data
    ensures size <= data.Length && StrictlyIncreasing(data[..size])
    ensures forall x: nat :: Run(data[..size], x) == Collapse(Run(old(data[..]), x), useMax)
  {
    hide Run, Sorted, Collapse, Collapsed;
    ghost var was := data[..];
    if data.Length == 0 {
      CollapsedStart(Entry(0, PlusInfinity, []), useMax);
      CollapsedMeans([], [], useMax);
      assert was == [] && data[..0] == [];
      return 0;
    }
    var in_, out := 1, 1;
    CollapsedStart(was[0], useMax);
    assert was[..1] == [was[0]] == data[..1];
    while in_ != data.Length
      invariant 1 <= out <= in_ <= data.Length && data[in_..] == was[in_..]
      invariant Collapsed(data[..out], was[..in_], useMax)
    {
      Unread(data[..], was, in_);
      TakeOneMore(was, in_);
      CollapsedMeans(data[..out], was[..in_], useMax);
      if data[in_].offset != data[out - 1].offset {
        CollapsedNew(data[..out], was[..in_], was[in_], useMax);
        MoveRead(data, out, in_, was);
        out := out + 1;
        in_ := in_ + 1;
        continue;
      }
      CollapsedSame(data[..out - 1], data[out - 1], was[..in_], was[in_], useMax) by {
        assert data[..out] == data[..out - 1] + [data[out - 1]];
      }
      SameEitherWay(data[out - 1], data[in_].score, useMax);
      ghost var init, last := data[..out - 1], data[out - 1];
      if useMax == data[out - 1].score.Below(data[in_].score) {
        data[out - 1] := data[out - 1].(score := data[in_].score);
      }
      assert data[..out] == init + [data[out - 1]];
      in_ := in_ + 1;
    }
    assert was[..in_] == was;
    CollapsedMeans(data[..out], was, useMax);
    size := out;
  }

  lemma CollapsedMeans(done: seq<Entry>, s: seq<Entry>, max: bool)
    requires Collapsed(done, s, max)
    ensures StrictlyIncreasing(done) && forall x: nat :: Run(done, x) == Collapse(Run(s, x), max)
    ensures s != [] ==> done != [] && done[|done| - 1].offset == s[|s| - 1].offset
  {
    hide Run, Collapse;
  }

  /** Replacing the score when it is not larger comes to the same as replacing it when it is smaller. */
  lemma SameEitherWay(e: Entry, score: Number, max: bool)
    ensures (if max == e.score.Below(score) then e.(score := score) else e)
            == if Improves(score, e.score, max) then e.(score := score) else e
  {
  }

  /** The loops of MAX and MIN. */
  method KeepExtreme(offsets: array<Entry>, max: bool) returns (size: nat)
    requires Sorted(offsets[..])
    modifies offsets
    ensures size <= offsets.Length && StrictlyIncreasing(offsets[..size])
    ensures forall x: nat :: Run(offsets[..size], x) == Collapse(Run(old(offsets[..]), x), max)
  {
    hide Run, Sorted, Collapse, Collapsed;
    ghost var was := offsets[..];
    if offsets.Length == 0 {
      CollapsedStart(Entry(0, PlusInfinity, []), max);
      CollapsedMeans([], [], max);
      assert was == [] && offsets[..0] == [];
      return 0;
    }
    var o := 1;
    CollapsedStart(was[0], max);
    assert was[..1] == [was[0]] == offsets[..1];
    for i := 1 to offsets.Length
      invariant 1 <= o <= i && offsets[i..] == was[i..]
      invariant Collapsed(offsets[..o], was[..i], max)
    {
      Unread(offsets[..], was, i);
      TakeOneMore(was, i);
      CollapsedMeans(offsets[..o], was[..i], max);
      if offsets[i].offset != offsets[o - 1].offset {
        CollapsedNew(offsets[..o], was[..i], was[i], max);
        MoveRead(offsets, o, i, was);
        o := o + 1;
      } else {
        CollapsedSame(offsets[..o - 1], offsets[o - 1], was[..i], was[i], max) by {
          assert offsets[..o] == offsets[..o - 1] + [offsets[o - 1]];
        }
        ghost var init := offsets[..o - 1];
        if Improves(offsets[i].score, offsets[o - 1].score, max) {
          offsets[o - 1] := offsets[o - 1].(score := offsets[i].score);
        }
        assert offsets[..o] == init + [offsets[o - 1]];
      }
    }
    assert was[..offsets.Length] == was;
    CollapsedMeans(offsets[..o], was, max);
    size := o;
  }

  lemma StrictIsSorted(s: seq<Entry>)
    requires StrictlyIncreasing(s)
    ensures Sorted(s)
  {
  }

  // ---------- What the operators do, as numbers and places ----------

  /** Places in increasing order. */
  ghost predicate Places(idx: seq<nat>, n: nat) {
    (forall k :: 0 <= k < |idx| ==> idx[k] < n) && forall j, k :: 0 <= j < k < |idx| ==> idx[j] < idx[k]
  }

  /** What stands at these places, in this order. */
  ghost predicate TakenFrom(r: seq<Entry>, s: seq<Entry>, idx: seq<nat>) {
    Places(idx, |s|) && |r| == |idx| && forall k :: 0 <= k < |idx| ==> r[k] == s[idx[k]]
  }

  /** The six tests as conditions on reals, and what they do with infinite scores. */
  lemma PassesMeaning(v: real, w: real, s: Number)
    ensures Equal(Finite(v)).Passes(s) <==> s.Finite? && s.r == v
    ensures Greater(Finite(v)).Passes(s) <==> s.PlusInfinity? || (s.Finite? && s.r > v)
    ensures AtLeastValue(Finite(v)).Passes(s) <==> s.PlusInfinity? || (s.Finite? && s.r >= v)
    ensures Smaller(Finite(v)).Passes(s) <==> s.MinusInfinity? || (s.Finite? && s.r < v)
    ensures AtMost(Finite(v)).Passes(s) <==> s.MinusInfinity? || (s.Finite? && s.r <= v)
    ensures Between(Finite(v), Finite(w)).Passes(s) <==> s.Finite? && (v <= s.r <= w || w <= s.r <= v)
  {
  }

  /** The tests against infinite bounds. */
  lemma PassesInfinity(s: Number)
    ensures Equal(PlusInfinity).Passes(s) <==> s.PlusInfinity?
    ensures Equal(MinusInfinity).Passes(s) <==> s.MinusInfinity?
    ensures !Greater(PlusInfinity).Passes(s) && (Greater(MinusInfinity).Passes(s) <==> !s.MinusInfinity?)
    ensures !Smaller(MinusInfinity).Passes(s) && (Smaller(PlusInfinity).Passes(s) <==> !s.PlusInfinity?)
    ensures AtLeastValue(MinusInfinity).Passes(s) && (AtLeastValue(PlusInfinity).Passes(s) <==> s.PlusInfinity?)
    ensures AtMost(PlusInfinity).Passes(s) && (AtMost(MinusInfinity).Passes(s) <==> s.MinusInfinity?)
    ensures Between(MinusInfinity, PlusInfinity).Passes(s) && Between(PlusInfinity, MinusInfinity).Passes(s)
  {
  }

  /** The same places, counted from one entry before. */
  ghost function Shifted(idx: seq<nat>): (r: seq<nat>)
    ensures |r| == |idx|
  {
    seq(|idx|, k requires 0 <= k < |idx| => idx[k] + 1)
  }

  lemma ShiftedIn(idx: seq<nat>, i: nat)
    ensures i in Shifted(idx) <==> i > 0 && i - 1 in idx
    ensures i in [0] + Shifted(idx) <==> i == 0 || i - 1 in idx
  {
    if i > 0 && i - 1 in idx {
      var k :| 0 <= k < |idx| && idx[k] == i - 1;
      assert Shifted(idx)[k] == i;
    }
    assert i in [0] + Shifted(idx) <==> i == 0 || i in Shifted(idx);
  }

  lemma TakenBehind(r: seq<Entry>, s: seq<Entry>, idx: seq<nat>)
    requires s != [] && TakenFrom(r, s[1..], idx)
    ensures TakenFrom(r, s, Shifted(idx)) && TakenFrom([s[0]] + r, s, [0] + Shifted(idx))
  {
    hide TakenFrom, Shifted;
    TakenLater(r, s, idx);
    FirstTaken(r, s, Shifted(idx));
  }

  lemma TakenLater(r: seq<Entry>, s: seq<Entry>, idx: seq<nat>)
    requires s != [] && TakenFrom(r, s[1..], idx)
    ensures TakenFrom(r, s, Shifted(idx)) && forall k :: 0 <= k < |idx| ==> Shifted(idx)[k] > 0
  {
    assert forall k :: 0 <= k < |idx| ==> s[1..][idx[k]] == s[idx[k] + 1];
  }

  lemma FirstTaken(r: seq<Entry>, s: seq<Entry>, idx: seq<nat>)
    requires s != [] && TakenFrom(r, s, idx) && forall k :: 0 <= k < |idx| ==> idx[k] > 0
    ensures TakenFrom([s[0]] + r, s, [0] + idx)
  {
    var all, now := [0] + idx, [s[0]] + r;
    forall k | 0 <= k < |all| ensures all[k] < |s| && now[k] == s[all[k]] {
      if k > 0 {
        assert all[k] == idx[k - 1] && now[k] == r[k - 1];
      }
    }
    forall j, k | 0 <= j < k < |all| ensures all[j] < all[k] {
      assert all[k] == idx[k - 1] && (j > 0 ==> all[j] == idx[j - 1]);
    }
  }

  /** A filter takes the entries that pass, in their order. */
  lemma {:induction false} FilterTakes(s: seq<Entry>, test: Test) returns (idx: seq<nat>)
    ensures TakenFrom(Filter(s, test), s, idx)
    ensures forall i: nat :: i in idx <==> i < |s| && test.Passes(s[i].score)
  {
    hide *;
    FilterUnfolds(s, test);
    if s == [] {
      idx := [];
      NothingTaken(s);
    } else {
      var rest := FilterTakes(s[1..], test);
      TakenBehind(Filter(s[1..], test), s, rest);
      idx := if test.Passes(s[0].score) then [0] + Shifted(rest) else Shifted(rest);
      forall i: nat ensures i in idx <==> i < |s| && test.Passes(s[i].score) {
        ShiftedIn(rest, i);
        assert 0 < i < |s| ==> s[1..][i - 1] == s[i];
      }
    }
  }

  lemma FilterUnfolds(s: seq<Entry>, test: Test)
    ensures s == [] ==> Filter(s, test) == []
    ensures s != [] ==>
              Filter(s, test) == if test.Passes(s[0].score) then [s[0]] + Filter(s[1..], test) else Filter(s[1..], test)
  {
    hide Test.Passes;
    assert s != [] ==> [] + Filter(s[1..], test) == Filter(s[1..], test);
  }

  lemma NothingTaken(s: seq<Entry>)
    ensures TakenFrom([], s, [])
  {
  }

  /** A comparison takes the left entries that stand against a smaller (or greater) right one. */
  lemma {:induction false} JoinTakes(p: seq<Entry>, q: seq<Entry>, greater: bool) returns (idx: seq<nat>)
    ensures TakenFrom(JoinRun(p, q, greater), p, idx)
    ensures forall i: nat :: i in idx ==> i < |p| && i < |q|
    ensures forall i: nat :: i < |p| && i < |q| ==>
              (i in idx <==> if greater then q[i].score.Below(p[i].score) else p[i].score.Below(q[i].score))
  {
    hide *;
    JoinUnfolds(p, q, greater);
    if p == [] || q == [] {
      idx := [];
      NothingTaken(p);
    } else {
      var rest := JoinTakes(p[1..], q[1..], greater);
      TakenBehind(JoinRun(p[1..], q[1..], greater), p, rest);
      idx := if if greater then q[0].score.Below(p[0].score) else p[0].score.Below(q[0].score)
             then [0] + Shifted(rest) else Shifted(rest);
      forall i: nat
        ensures i in idx ==> i < |p| && i < |q|
        ensures i < |p| && i < |q| ==>
                  (i in idx <==> if greater then q[i].score.Below(p[i].score) else p[i].score.Below(q[i].score)) {
        ShiftedIn(rest, i);
        assert 0 < i < |p| ==> p[1..][i - 1] == p[i];
        assert 0 < i < |q| ==> q[1..][i - 1] == q[i];
      }
    }
  }

  lemma JoinUnfolds(p: seq<Entry>, q: seq<Entry>, greater: bool)
    ensures p == [] || q == [] ==> JoinRun(p, q, greater) == []
    ensures p != [] && q != [] ==>
              var rest := JoinRun(p[1..], q[1..], greater);
              JoinRun(p, q, greater) ==
              if if greater then q[0].score.Below(p[0].score) else p[0].score.Below(q[0].score)
              then [p[0]] + rest else rest
  {
    hide Number.Below;
    assert p != [] && q != [] ==> [] + JoinRun(p[1..], q[1..], greater) == JoinRun(p[1..], q[1..], greater);
  }

  /** Ordering puts the scores of the right entries on the left ones, and minus infinity beyond them. */
  lemma {:induction false} OrderMeaning(p: seq<Entry>, q: seq<Entry>)
    ensures forall k :: 0 <= k < |p| ==>
              OrderRun(p, q)[k] == p[k].(score := if k < |q| then q[k].score else MinusInfinity)
  {
    if p != [] {
      OrderMeaning(p[1..], if q == [] then [] else q[1..]);
      var r := OrderRun(p, q);
      forall k | 0 <= k < |p| ensures r[k] == p[k].(score := if k < |q| then q[k].score else MinusInfinity) {
        if k > 0 {
          assert p[1..][k - 1] == p[k] && (k < |q| ==> q[1..][k - 1] == q[k]);
        }
      }
    }
  }

  lemma {:induction false} NegatedRunMeaning(s: seq<Entry>)
    ensures forall k :: 0 <= k < |s| ==> Negated(s)[k] == s[k].(score := s[k].score.Negated())
  {
    if s != [] {
      hide Number.Negated;
      NegatedRunMeaning(s[1..]);
      assert forall k :: 0 < k < |s| ==> s[1..][k - 1] == s[k];
    }
  }

  /** Of finite scores, the greatest or the least is left, with the other fields of the first entry. */
  lemma CollapseMeaning(run: seq<Entry>, max: bool)
    ensures run == [] ==> Collapse(run, max) == []
    ensures run != [] && (forall i :: 0 <= i < |run| ==> run[i].score.Finite?) ==>
              && |Collapse(run, max)| == 1
              && var e := Collapse(run, max)[0];
                 && e.score.Finite? && e == run[0].(score := e.score)
                 && (exists i :: 0 <= i < |run| && run[i].score == e.score)
                 && forall i :: 0 <= i < |run| ==> if max then run[i].score.r <= e.score.r
                   else run[i].score.r >= e.score.r
  {
    hide Best;
    if run != [] {
      BestIsBest(run, max);
    }
  }

  lemma UnionMeaning(p: seq<Entry>, q: seq<Entry>)
    ensures |UnionRun(p, q)| == if |p| > |q| then |p| else |q|
    ensures forall k :: 0 <= k < |UnionRun(p, q)| ==> UnionRun(p, q)[k] == if k < |q| then q[k] else p[k]
  {
  }
}

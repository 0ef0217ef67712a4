/** The operations on sorted lists of offsets: two pointers over the lists, results written over the left
    operand. Each is described by what it makes of the runs of its operands. */
module ListOps {
  import opened OffsetLists

  // ---------- Union ----------

  /** The run of a union: all of the right one, then what the left one has more. */
  function UnionRun(p: seq<Entry>, q: seq<Entry>): (r: seq<Entry>)
    ensures |r| == if |p| > |q| then |p| else |q|
  {
    q + if |p| > |q| then p[|q|..] else []
  }

  function Union(l: seq<Entry>, r: seq<Entry>): seq<Entry>
    decreases |l| + |r|
  {
    if l == [] then r
    else if r == [] then l
    else if l[0].offset < r[0].offset then [l[0]] + Union(l[1..], r)
    else [r[0]] + Union(if l[0].offset == r[0].offset then l[1..] else l, r[1..])
  }

  lemma {:induction false} UnionIsSorted(l: seq<Entry>, r: seq<Entry>, low: nat)
    requires Sorted(l) && Sorted(r) && AtLeast(l, low) && AtLeast(r, low)
    ensures Sorted(Union(l, r)) && AtLeast(Union(l, r), low)
    decreases |l| + |r|
  {
    if l != [] && r != [] {
      hide Sorted, AtLeast;
      Tail(l);
      Tail(r);
      AtLeastTail(l, low);
      AtLeastTail(r, low);
      if l[0].offset < r[0].offset {
        Weaken(r, r[0].offset, l[0].offset);
        UnionIsSorted(l[1..], r, l[0].offset);
        Prepend(l[0], Union(l[1..], r), low);
      } else {
        var rest := if l[0].offset == r[0].offset then l[1..] else l;
        Weaken(rest, l[0].offset, r[0].offset);
        UnionIsSorted(rest, r[1..], r[0].offset);
        Prepend(r[0], Union(rest, r[1..]), low);
      }
    }
  }

  lemma UnionRunEnds(p: seq<Entry>)
    ensures UnionRun([], p) == p && UnionRun(p, []) == p
  {
    assert p[0..] == p && [] + p == p && p + [] == p;
  }

  lemma UnionRunStep(e: Entry, f: Entry, p: seq<Entry>, q: seq<Entry>)
    ensures UnionRun([e] + p, [f] + q) == [f] + UnionRun(p, q)
  {
    if |p| > |q| {
      assert ([e] + p)[|q| + 1..] == p[|q|..];
    }
  }

  /** The union has, of each offset, as many entries as the side that has more. */
  lemma {:induction false} UnionRuns(l: seq<Entry>, r: seq<Entry>, x: nat)
    requires Sorted(l) && Sorted(r)
    ensures Run(Union(l, r), x) == UnionRun(Run(l, x), Run(r, x))
    decreases |l| + |r|
  {
    hide Run, Sorted, AtLeast, UnionRun;
    Unfold(l, x);
    Unfold(r, x);
    UnionRunEnds(Run(l, x));
    UnionRunEnds(Run(r, x));
    if l != [] && r != [] {
      Tail(l);
      Tail(r);
      NothingBefore(Run(l[1..], x));
      NothingBefore(Run(r[1..], x));
      if l[0].offset < r[0].offset {
        UnionRuns(l[1..], r, x);
        Cons(l[0], Union(l[1..], r), x);
        NothingBefore(Run(Union(l[1..], r), x));
        if x == l[0].offset {
          NoRunBeforeHead(r, x);
          UnionRunEnds(Run(l[1..], x));
        }
      } else {
        var rest := if l[0].offset == r[0].offset then l[1..] else l;
        UnionRuns(rest, r[1..], x);
        Cons(r[0], Union(rest, r[1..]), x);
        NothingBefore(Run(Union(rest, r[1..]), x));
        if l[0].offset == r[0].offset {
          UnionRunStep(l[0], r[0], Run(l[1..], x), Run(r[1..], x));
        } else if x == r[0].offset {
          NoRunBeforeHead(l, x);
          UnionRunEnds(Run(r[1..], x));
        }
      }
    }
  }

  lemma NothingBefore(s: seq<Entry>)
    ensures [] + s == s
  {
  }

  /** `UnionOffsets`. */
  method UnionOffsets(lhs: seq<Entry>, rhs: seq<Entry>) returns (result: seq<Entry>)
    requires Sorted(lhs) && Sorted(rhs)
    ensures Sorted(result)
    ensures forall x: nat :: Run(result, x) == UnionRun(Run(lhs, x), Run(rhs, x))
  {
    hide Run, Sorted, AtLeast, UnionRun;
    result := [];
    var i, j := 0, 0;
    assert lhs[0..] == lhs && rhs[0..] == rhs;
    while i != |lhs| && j != |rhs|
      invariant i <= |lhs| && j <= |rhs|
      invariant Union(lhs, rhs) == result + Union(lhs[i..], rhs[j..])
      decreases |lhs| - i + |rhs| - j
    {
      assert lhs[i..][1..] == lhs[i + 1..] && rhs[j..][1..] == rhs[j + 1..];
      if lhs[i].offset < rhs[j].offset {
        Shift(result, lhs[i], Union(lhs[i + 1..], rhs[j..]));
        result := result + [lhs[i]];
        i := i + 1;
      } else {
        ghost var rest := if lhs[i].offset == rhs[j].offset then lhs[i + 1..] else lhs[i..];
        Shift(result, rhs[j], Union(rest, rhs[j + 1..]));
        if lhs[i].offset == rhs[j].offset {
          i := i + 1;
        }
        result := result + [rhs[j]];
        j := j + 1;
      }
    }
    result := result + lhs[i..];
    result := result + rhs[j..];
    assert result == Union(lhs, rhs);
    ZeroIsLeast(lhs);
    ZeroIsLeast(rhs);
    UnionIsSorted(lhs, rhs, 0);
    forall x: nat ensures Run(result, x) == UnionRun(Run(lhs, x), Run(rhs, x)) {
      UnionRuns(lhs, rhs, x);
    }
  }

  lemma Shift(a: seq<Entry>, e: Entry, b: seq<Entry>)
    ensures a + ([e] + b) == a + [e] + b
  {
  }

  lemma ZeroIsLeast(s: seq<Entry>)
    ensures AtLeast(s, 0)
  {
  }

  // ---------- Intersection and difference ----------

  function Intersection(l: seq<Entry>, r: seq<Entry>): seq<Entry>
    decreases |l| + |r|
  {
    if l == [] || r == [] then []
    else if l[0].offset == r[0].offset then [l[0]] + Intersection(l[1..], r)
    else if l[0].offset < r[0].offset then Intersection(l[1..], r)
    else Intersection(l, r[1..])
  }

  function Difference(l: seq<Entry>, r: seq<Entry>): seq<Entry>
    decreases |l| + |r|
  {
    if l == [] || r == [] then l
    else if l[0].offset == r[0].offset then Difference(l[1..], r)
    else if l[0].offset < r[0].offset then [l[0]] + Difference(l[1..], r)
    else Difference(l, r[1..])
  }

  lemma {:induction false} IntersectionIsSorted(l: seq<Entry>, r: seq<Entry>, low: nat)
    requires Sorted(l) && AtLeast(l, low)
    ensures Sorted(Intersection(l, r)) && AtLeast(Intersection(l, r), low)
    decreases |l| + |r|
  {
    if l != [] && r != [] {
      hide Sorted, AtLeast;
      Tail(l);
      AtLeastTail(l, low);
      if l[0].offset == r[0].offset {
        IntersectionIsSorted(l[1..], r, l[0].offset);
        Prepend(l[0], Intersection(l[1..], r), low);
      } else if l[0].offset < r[0].offset {
        IntersectionIsSorted(l[1..], r, low);
      } else {
        IntersectionIsSorted(l, r[1..], low);
      }
    } else {
      NothingToSort(low);
    }
  }

  lemma NothingToSort(low: nat)
    ensures Sorted([]) && AtLeast([], low)
  {
  }

  lemma {:induction false} DifferenceIsSorted(l: seq<Entry>, r: seq<Entry>, low: nat)
    requires Sorted(l) && AtLeast(l, low)
    ensures Sorted(Difference(l, r)) && AtLeast(Difference(l, r), low)
    decreases |l| + |r|
  {
    if l != [] && r != [] {
      hide Sorted, AtLeast;
      Tail(l);
      AtLeastTail(l, low);
      if l[0].offset == r[0].offset {
        DifferenceIsSorted(l[1..], r, low);
      } else if l[0].offset < r[0].offset {
        DifferenceIsSorted(l[1..], r, l[0].offset);
        Prepend(l[0], Difference(l[1..], r), low);
      } else {
        DifferenceIsSorted(l, r[1..], low);
      }
    }
  }

  /** The intersection keeps the left entries of the offsets that the right side has. */
  lemma {:induction false} IntersectionRuns(l: seq<Entry>, r: seq<Entry>, x: nat)
    requires Sorted(l) && Sorted(r)
    ensures Run(Intersection(l, r), x) == if Run(r, x) == [] then [] else Run(l, x)
    decreases |l| + |r|
  {
    hide Run, Sorted, AtLeast;
    Unfold(l, x);
    Unfold(r, x);
    if l != [] && r != [] {
      Tail(l);
      Tail(r);
      NothingBefore(Run(l[1..], x));
      NothingBefore(Run(r[1..], x));
      if l[0].offset == r[0].offset {
        IntersectionRuns(l[1..], r, x);
        Cons(l[0], Intersection(l[1..], r), x);
        NothingBefore(Run(Intersection(l[1..], r), x));
      } else if l[0].offset < r[0].offset {
        IntersectionRuns(l[1..], r, x);
        if x == l[0].offset {
          NoRunBeforeHead(r, x);
        }
      } else {
        IntersectionRuns(l, r[1..], x);
        if x == r[0].offset {
          NoRunBeforeHead(l, x);
        }
      }
    }
  }

  /** The difference keeps the left entries of the offsets that the right side does not have. */
  lemma {:induction false} DifferenceRuns(l: seq<Entry>, r: seq<Entry>, x: nat)
    requires Sorted(l) && Sorted(r)
    ensures Run(Difference(l, r), x) == if Run(r, x) == [] then Run(l, x) else []
    decreases |l| + |r|
  {
    hide Run, Sorted, AtLeast;
    Unfold(l, x);
    Unfold(r, x);
    if l != [] && r != [] {
      Tail(l);
      Tail(r);
      NothingBefore(Run(l[1..], x));
      NothingBefore(Run(r[1..], x));
      if l[0].offset == r[0].offset {
        DifferenceRuns(l[1..], r, x);
      } else if l[0].offset < r[0].offset {
        DifferenceRuns(l[1..], r, x);
        Cons(l[0], Difference(l[1..], r), x);
        NothingBefore(Run(Difference(l[1..], r), x));
        if x == l[0].offset {
          NoRunBeforeHead(r, x);
        }
      } else {
        DifferenceRuns(l, r[1..], x);
        if x == r[0].offset {
          NoRunBeforeHead(l, x);
        }
      }
    }
  }

  lemma IntersectionStep(l: seq<Entry>, r: seq<Entry>, i: nat, j: nat)
    requires i <= |l| && j <= |r|
    ensures i == |l| || j == |r| ==> Intersection(l[i..], r[j..]) == []
    ensures i < |l| && j < |r| && l[i].offset == r[j].offset ==>
              Intersection(l[i..], r[j..]) == [l[i]] + Intersection(l[i + 1..], r[j..])
    ensures i < |l| && j < |r| && l[i].offset < r[j].offset ==>
            Intersection(l[i..], r[j..]) == Intersection(l[i + 1..], r[j..])
    ensures i < |l| && j < |r| && l[i].offset > r[j].offset ==>
            Intersection(l[i..], r[j..]) == Intersection(l[i..], r[j + 1..])
  {
    if i < |l| {
      assert l[i..][1..] == l[i + 1..];
    }
    if j < |r| {
      assert r[j..][1..] == r[j + 1..];
    }
  }

  lemma DifferenceStep(l: seq<Entry>, r: seq<Entry>, i: nat, j: nat)
    requires i <= |l| && j <= |r|
    ensures i == |l| || j == |r| ==> Difference(l[i..], r[j..]) == l[i..]
    ensures i < |l| && j < |r| && l[i].offset == r[j].offset ==>
            Difference(l[i..], r[j..]) == Difference(l[i + 1..], r[j..])
    ensures i < |l| && j < |r| && l[i].offset < r[j].offset ==>
              Difference(l[i..], r[j..]) == [l[i]] + Difference(l[i + 1..], r[j..])
    ensures i < |l| && j < |r| && l[i].offset > r[j].offset ==>
            Difference(l[i..], r[j..]) == Difference(l[i..], r[j + 1..])
  {
    if i < |l| {
      assert l[i..][1..] == l[i + 1..];
    }
    if j < |r| {
      assert r[j..][1..] == r[j + 1..];
    }
  }

  lemma AscendsAt(s: seq<Entry>, i: nat)
    requires Sorted(s) && 0 < i < |s|
    ensures s[i - 1].offset <= s[i].offset
  {
  }

  /** What has not been read yet is as it was. */
  lemma Unread(now: seq<Entry>, was: seq<Entry>, l: nat)
    requires l < |now| == |was| && now[l..] == was[l..]
    ensures now[l] == was[l] && now[l + 1..] == was[l + 1..]
  {
    assert now[l..][0] == was[l..][0] && now[l..][1..] == was[l..][1..];
    assert now[l + 1..] == now[l..][1..] && was[l + 1..] == was[l..][1..];
  }

  /** The next entry read goes to the next place written. */
  lemma WrittenNext(now: seq<Entry>, o: nat, l: nat)
    requires o <= l < |now|
    ensures now[o := now[l]][..o + 1] == now[..o] + [now[l]] && now[o := now[l]][l + 1..] == now[l + 1..]
  {
  }

  lemma FirstOf(s: seq<Entry>, i: nat)
    requires i < |s|
    ensures s[i..] == [s[i]] + s[i + 1..]
  {
  }

  /** In the midst of the loops: the result is what has been written and what the entries still to be
      read give. */
  ghost predicate Intersecting(now: seq<Entry>, was: seq<Entry>, rhs: seq<Entry>, o: nat, l: nat, r: nat) {
    && o <= l <= |now| == |was| && r <= |rhs| && now[l..] == was[l..]
    && Intersection(was, rhs) == now[..o] + Intersection(was[l..], rhs[r..])
  }

  lemma IntersectingStarts(was: seq<Entry>, rhs: seq<Entry>)
    ensures Intersecting(was, was, rhs, 0, 0, 0)
  {
    hide Intersection;
    assert was[0..] == was && rhs[0..] == rhs && was[..0] == [];
    NothingBefore(Intersection(was, rhs));
  }

  lemma IntersectingReads(now: seq<Entry>, was: seq<Entry>, rhs: seq<Entry>, o: nat, l: nat, r: nat)
    requires Intersecting(now, was, rhs, o, l, r)
    ensures o <= l <= |now| == |was| && r <= |rhs| && (l < |now| ==> now[l] == was[l])
  {
    hide Intersection;
    if l < |now| {
      Unread(now, was, l);
    }
  }

  lemma IntersectingDrops(now: seq<Entry>, was: seq<Entry>, rhs: seq<Entry>, o: nat, l: nat, r: nat)
    requires Intersecting(now, was, rhs, o, l, r) && l < |was| && r < |rhs| && was[l].offset < rhs[r].offset
    ensures Intersecting(now, was, rhs, o, l + 1, r)
  {
    hide Intersection;
    IntersectionStep(was, rhs, l, r);
    Unread(now, was, l);
  }

  lemma IntersectingPasses(now: seq<Entry>, was: seq<Entry>, rhs: seq<Entry>, o: nat, l: nat, r: nat)
    requires Intersecting(now, was, rhs, o, l, r) && r < |rhs| && (l < |was| ==> was[l].offset > rhs[r].offset)
    ensures Intersecting(now, was, rhs, o, l, r + 1)
  {
    hide Intersection;
    IntersectionStep(was, rhs, l, r);
    IntersectionStep(was, rhs, l, r + 1);
  }

  lemma IntersectingKeeps(now: seq<Entry>, was: seq<Entry>, rhs: seq<Entry>, o: nat, l: nat, r: nat)
    requires Intersecting(now, was, rhs, o, l, r) && l < |was| && (r < |rhs| && was[l].offset == rhs[r].offset)
    ensures Intersecting(now[o := now[l]], was, rhs, o + 1, l + 1, r)
  {
    hide Intersection;
    IntersectionStep(was, rhs, l, r);
    IntersectionStep(was, rhs, l + 1, r);
    Unread(now, was, l);
    WrittenNext(now, o, l);
    FirstOf(was, l);
    Shift(now[..o], was[l], Intersection(was[l + 1..], rhs[r..]));
  }

  lemma IntersectingEnds(now: seq<Entry>, was: seq<Entry>, rhs: seq<Entry>, o: nat, l: nat, r: nat)
    requires Intersecting(now, was, rhs, o, l, r) && (l == |was| || r == |rhs|)
    ensures now[..o] == Intersection(was, rhs)
  {
    hide Intersection;
    IntersectionStep(was, rhs, l, r);
    assert now[..o] + [] == now[..o] && was[|was|..] == [];
  }

  /** Writes the next entry read to the next place written. */
  method MoveDown(a: array<Entry>, o: nat, l: nat) returns (nextO: nat, nextL: nat)
    requires o <= l < a.Length
    modifies a
    ensures a[..] == old(a[..])[o := old(a[l])] && nextO == o + 1 && nextL == l + 1
  {
    a[o] := a[l];
    nextO, nextL := o + 1, l + 1;
  }

  /** The loops of `IntersectOffsets`. */
  method WriteIntersection(lhs: array<Entry>, rhs: seq<Entry>) returns (size: nat)
    requires Sorted(lhs[..]) && Sorted(rhs)
    modifies lhs
    ensures size <= lhs.Length && lhs[..size] == Intersection(old(lhs[..]), rhs)
  {
    hide *;
    ghost var was := lhs[..];
    var o, l, r := 0, 0, 0;
    IntersectingStarts(was, rhs);
    while l != lhs.Length && r != |rhs|
      invariant o <= l <= lhs.Length && r <= |rhs| && Intersecting(lhs[..], was, rhs, o, l, r)
      decreases lhs.Length - l + |rhs| - r
    {
      IntersectingReads(lhs[..], was, rhs, o, l, r);
      if lhs[l].offset == rhs[r].offset {
        var offset := lhs[l].offset;
        IntersectingKeeps(lhs[..], was, rhs, o, l, r);
        o, l := MoveDown(lhs, o, l);
        while l != lhs.Length && lhs[l].offset == offset
          invariant o <= l <= lhs.Length && Intersecting(lhs[..], was, rhs, o, l, r)
          invariant l > 0 && was[l - 1].offset == offset
        {
          IntersectingReads(lhs[..], was, rhs, o, l, r);
          IntersectingKeeps(lhs[..], was, rhs, o, l, r);
          o, l := MoveDown(lhs, o, l);
        }
        IntersectingReads(lhs[..], was, rhs, o, l, r);
        if l < lhs.Length {
          AscendsAt(was, l);
        }
        IntersectingPasses(lhs[..], was, rhs, o, l, r);
        r := r + 1;
      } else if lhs[l].offset < rhs[r].offset {
        IntersectingDrops(lhs[..], was, rhs, o, l, r);
        l := l + 1;
      } else {
        IntersectingPasses(lhs[..], was, rhs, o, l, r);
        r := r + 1;
      }
    }
    IntersectingReads(lhs[..], was, rhs, o, l, r);
    IntersectingEnds(lhs[..], was, rhs, o, l, r);
    size := o;
  }

  /** `IntersectOffsets`: the result is written over the left operand, never ahead of the place where it
      is read. */
  method IntersectOffsets(lhs: array<Entry>, rhs: seq<Entry>) returns (size: nat)
    requires Sorted(lhs[..]) && Sorted(rhs)
    modifies lhs
    ensures size <= lhs.Length && Sorted(lhs[..size])
    ensures forall x: nat :: Run(lhs[..size], x) == if Run(rhs, x) == [] then [] else Run(old(lhs[..]), x)
  {
    hide *;
    ghost var was := lhs[..];
    size := WriteIntersection(lhs, rhs);
    ZeroIsLeast(was);
    IntersectionIsSorted(was, rhs, 0);
    forall x: nat ensures Run(lhs[..size], x) == if Run(rhs, x) == [] then [] else Run(was, x) {
      IntersectionRuns(was, rhs, x);
    }
  }

  /** In the midst of the loops: the result is what has been written and what the entries still to be
      read give. */
  ghost predicate Subtracting(now: seq<Entry>, was: seq<Entry>, rhs: seq<Entry>, o: nat, l: nat, r: nat) {
    && o <= l <= |now| == |was| && r <= |rhs| && now[l..] == was[l..]
    && Difference(was, rhs) == now[..o] + Difference(was[l..], rhs[r..])
  }

  lemma SubtractingStarts(was: seq<Entry>, rhs: seq<Entry>)
    ensures Subtracting(was, was, rhs, 0, 0, 0)
  {
    hide Difference;
    assert was[0..] == was && rhs[0..] == rhs && was[..0] == [];
    NothingBefore(Difference(was, rhs));
  }

  lemma SubtractingReads(now: seq<Entry>, was: seq<Entry>, rhs: seq<Entry>, o: nat, l: nat, r: nat)
    requires Subtracting(now, was, rhs, o, l, r)
    ensures o <= l <= |now| == |was| && r <= |rhs| && (l < |now| ==> now[l] == was[l])
  {
    hide Difference;
    if l < |now| {
      Unread(now, was, l);
    }
  }

  lemma SubtractingDrops(now: seq<Entry>, was: seq<Entry>, rhs: seq<Entry>, o: nat, l: nat, r: nat)
    requires Subtracting(now, was, rhs, o, l, r) && l < |was| && r < |rhs| && was[l].offset == rhs[r].offset
    ensures Subtracting(now, was, rhs, o, l + 1, r)
  {
    hide Difference;
    DifferenceStep(was, rhs, l, r);
    Unread(now, was, l);
  }

  lemma SubtractingPasses(now: seq<Entry>, was: seq<Entry>, rhs: seq<Entry>, o: nat, l: nat, r: nat)
    requires Subtracting(now, was, rhs, o, l, r) && r < |rhs| && (l < |was| ==> was[l].offset > rhs[r].offset)
    ensures Subtracting(now, was, rhs, o, l, r + 1)
  {
    hide Difference;
    DifferenceStep(was, rhs, l, r);
    DifferenceStep(was, rhs, l, r + 1);
  }

  lemma SubtractingKeeps(now: seq<Entry>, was: seq<Entry>, rhs: seq<Entry>, o: nat, l: nat, r: nat)
    requires Subtracting(now, was, rhs, o, l, r) && l < |was| && (r < |rhs| ==> was[l].offset < rhs[r].offset)
    ensures Subtracting(now[o := now[l]], was, rhs, o + 1, l + 1, r)
  {
    hide Difference;
    DifferenceStep(was, rhs, l, r);
    DifferenceStep(was, rhs, l + 1, r);
    Unread(now, was, l);
    WrittenNext(now, o, l);
    FirstOf(was, l);
    Shift(now[..o], was[l], Difference(was[l + 1..], rhs[r..]));
  }

  lemma SubtractingEnds(now: seq<Entry>, was: seq<Entry>, rhs: seq<Entry>, o: nat, l: nat, r: nat)
    requires Subtracting(now, was, rhs, o, l, r) && (l == |was|)
    ensures now[..o] == Difference(was, rhs)
  {
    hide Difference;
    DifferenceStep(was, rhs, l, r);
    assert now[..o] + [] == now[..o] && was[|was|..] == [];
  }

  /** The loops of `SubtractOffsets`. */
  method WriteDifference(lhs: array<Entry>, rhs: seq<Entry>) returns (size: nat)
    requires Sorted(lhs[..]) && Sorted(rhs)
    modifies lhs
    ensures size <= lhs.Length && lhs[..size] == Difference(old(lhs[..]), rhs)
  {
    hide *;
    ghost var was := lhs[..];
    var o, l, r := 0, 0, 0;
    SubtractingStarts(was, rhs);
    while l != lhs.Length && r != |rhs|
      invariant o <= l <= lhs.Length && r <= |rhs| && Subtracting(lhs[..], was, rhs, o, l, r)
      decreases lhs.Length - l + |rhs| - r
    {
      SubtractingReads(lhs[..], was, rhs, o, l, r);
      if lhs[l].offset == rhs[r].offset {
        SubtractingDrops(lhs[..], was, rhs, o, l, r);
        l := l + 1;
        while l != lhs.Length && lhs[l].offset == rhs[r].offset
          invariant o <= l <= lhs.Length && Subtracting(lhs[..], was, rhs, o, l, r)
          invariant l > 0 && was[l - 1].offset == rhs[r].offset
        {
          SubtractingReads(lhs[..], was, rhs, o, l, r);
          SubtractingDrops(lhs[..], was, rhs, o, l, r);
          l := l + 1;
        }
        SubtractingReads(lhs[..], was, rhs, o, l, r);
        if l < lhs.Length {
          AscendsAt(was, l);
        }
        SubtractingPasses(lhs[..], was, rhs, o, l, r);
        r := r + 1;
      } else if lhs[l].offset < rhs[r].offset {
        SubtractingKeeps(lhs[..], was, rhs, o, l, r);
        o, l := MoveDown(lhs, o, l);
      } else {
        SubtractingPasses(lhs[..], was, rhs, o, l, r);
        r := r + 1;
      }
    }
    while l != lhs.Length
      invariant o <= l <= lhs.Length && r <= |rhs| && Subtracting(lhs[..], was, rhs, o, l, r)
      invariant l != lhs.Length ==> r == |rhs|
    {
      SubtractingReads(lhs[..], was, rhs, o, l, r);
      SubtractingKeeps(lhs[..], was, rhs, o, l, r);
      o, l := MoveDown(lhs, o, l);
    }
    SubtractingReads(lhs[..], was, rhs, o, l, r);
    SubtractingEnds(lhs[..], was, rhs, o, l, r);
    size := o;
  }

  /** `SubtractOffsets`. */
  method SubtractOffsets(lhs: array<Entry>, rhs: seq<Entry>) returns (size: nat)
    requires Sorted(lhs[..]) && Sorted(rhs)
    modifies lhs
    ensures size <= lhs.Length && Sorted(lhs[..size])
    ensures forall x: nat :: Run(lhs[..size], x) == if Run(rhs, x) == [] then Run(old(lhs[..]), x) else []
  {
    hide *;
    ghost var was := lhs[..];
    size := WriteDifference(lhs, rhs);
    ZeroIsLeast(was);
    DifferenceIsSorted(was, rhs, 0);
    forall x: nat ensures Run(lhs[..size], x) == if Run(rhs, x) == [] then Run(was, x) else [] {
      DifferenceRuns(was, rhs, x);
    }
  }
}

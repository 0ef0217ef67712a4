/** The heap of the table merge: a hole is moved to a leaf, then climbs back to where the new entry fits. */
module Heap {
  import opened Bytes

  /** A heap slot. An entry is stale once its table has been read again: its key may not be looked at. */
  datatype Slot = Stale | Live(key: Bytes, value: Bytes, table: nat)

  /** The source shifts the array by one, so that the children of `i` are `2 * i` and `2 * i + 1`. */
  function At(s: seq<Slot>, i: nat): Slot
    requires 1 <= i <= |s|
  {
    s[i - 1]
  }

  predicate Ordered(a: Slot, b: Slot) {
    a.Live? && b.Live? && Leq(a.key, b.key)
  }

  predicate AllLive(s: seq<Slot>) {
    forall i :: 0 <= i < |s| ==> s[i].Live?
  }

  ghost predicate IsHeap(s: seq<Slot>) {
    AllLive(s) && forall i :: 2 <= i <= |s| ==> Ordered(At(s, i / 2), At(s, i))
  }

  /** A heap but for a hole at `h`, whose content does not matter. */
  ghost predicate HasHole(s: seq<Slot>, h: nat) {
    && 1 <= h <= |s|
    && (forall i :: 1 <= i <= |s| && i != h ==> At(s, i).Live?)
    && (forall i :: 2 <= i <= |s| && i != h && i / 2 != h ==> Ordered(At(s, i / 2), At(s, i)))
    && (forall i :: 4 <= i <= |s| && i / 2 == h ==> Ordered(At(s, h / 2), At(s, i)))
  }

  /** Moreover nothing below the hole is less than `e`. */
  ghost predicate HasRoomFor(s: seq<Slot>, h: nat, e: Slot) {
    && HasHole(s, h) && e.Live?
    && (forall i :: 2 <= i <= |s| && i / 2 == h ==> Ordered(e, At(s, i)))
  }

  lemma OrderedTransitive(a: Slot, b: Slot, c: Slot)
    requires Ordered(a, b) && Ordered(b, c)
    ensures Ordered(a, c)
  {
    LeqTransitive(a.key, b.key, c.key);
  }

  lemma HoleAtTop(s: seq<Slot>, e: Slot)
    requires s != [] && IsHeap(s[0 := e])
    ensures HasHole(s, 1)
  {
    hide Leq;
    var t := s[0 := e];
    assert forall i :: 2 <= i <= |s| ==> At(s, i) == At(t, i);
    assert forall i :: 1 <= i <= |s| ==> At(t, i).Live?;
    assert forall i :: 2 <= i <= |s| && i / 2 != 1 ==> At(s, i / 2) == At(t, i / 2);
  }

  /** One step down: the smaller child moves up into the hole. */
  lemma SinkStep(s: seq<Slot>, h: nat, c: nat)
    requires HasHole(s, h) && c / 2 == h && 2 <= c <= |s|
    requires forall i :: 2 <= i <= |s| && i / 2 == h ==> Ordered(At(s, c), At(s, i))
    ensures HasHole(s[h - 1 := At(s, c)], c)
  {
    hide Ordered;
    var t := s[h - 1 := At(s, c)];
    assert forall i :: 1 <= i <= |s| && i != h ==> At(t, i) == At(s, i);
    assert At(t, h) == At(s, c);
    forall i | 2 <= i <= |t| && i != c && i / 2 != c ensures Ordered(At(t, i / 2), At(t, i)) {
      if i == h && i >= 4 {
        assert Ordered(At(s, h / 2), At(s, c));
      } else if i == h {
        assert h / 2 == 1 && c >= 4;
        assert Ordered(At(s, h / 2), At(s, c));
      } else if i / 2 == h {
        assert Ordered(At(s, c), At(s, i));
      } else {
        assert Ordered(At(s, i / 2), At(s, i));
      }
    }
    forall i | 4 <= i <= |t| && i / 2 == c ensures Ordered(At(t, c / 2), At(t, i)) {
      assert Ordered(At(s, i / 2), At(s, i));
    }
  }

  /** One step up: the parent is greater than the new entry and moves down into the hole. */
  lemma ClimbStep(s: seq<Slot>, h: nat, e: Slot)
    requires HasRoomFor(s, h, e) && h > 1
    requires Less(e.key, At(s, h / 2).key)
    ensures HasRoomFor(s[h - 1 := At(s, h / 2)], h / 2, e)
  {
    hide Less;
    var p := h / 2;
    var t := s[h - 1 := At(s, p)];
    LessTrichotomy(e.key, At(s, p).key);
    assert Ordered(e, At(s, p));
    assert forall i :: 1 <= i <= |s| && i != h ==> At(t, i) == At(s, i);
    assert At(t, h) == At(s, p);
    forall i | 2 <= i <= |t| && i / 2 == p ensures Ordered(e, At(t, i)) {
      if i != h {
        OrderedTransitive(e, At(s, p), At(s, i));
      }
    }
    forall i | 2 <= i <= |t| && i != p && i / 2 != p ensures Ordered(At(t, i / 2), At(t, i)) {
      if i / 2 == h {
        assert Ordered(At(s, h / 2), At(s, i));
      } else {
        assert Ordered(At(s, i / 2), At(s, i));
      }
    }
    forall i | 4 <= i <= |t| && i / 2 == p ensures Ordered(At(t, p / 2), At(t, i)) {
      assert Ordered(At(s, p / 2), At(s, p));
      if i != h {
        OrderedTransitive(At(s, p / 2), At(s, p), At(s, i));
      }
    }
  }

  /** The climb ends where the parent is not greater, or at the root. */
  lemma FillHole(s: seq<Slot>, h: nat, e: Slot)
    requires HasRoomFor(s, h, e)
    requires h > 1 ==> !Less(e.key, At(s, h / 2).key)
    ensures IsHeap(s[h - 1 := e])
  {
    hide Less;
    var t := s[h - 1 := e];
    assert forall i :: 1 <= i <= |s| && i != h ==> At(t, i) == At(s, i);
    forall i | 2 <= i <= |t| ensures Ordered(At(t, i / 2), At(t, i)) {
    }
    forall i | 0 <= i < |t| ensures t[i].Live? {
      assert i + 1 != h ==> At(s, i + 1).Live?;
    }
  }

  /** The entries that lie in the slots. */
  ghost function Bag(s: seq<Slot>): multiset<Slot> {
    multiset(s)
  }

  /** The entries, with `x` in the hole. */
  ghost predicate Keeps(s: seq<Slot>, h: nat, x: Slot, all: multiset<Slot>) {
    1 <= h <= |s| && Bag(s[h - 1 := x]) == all
  }

  /** Moving a hole moves nothing else. */
  lemma MoveHole(s: seq<Slot>, h: nat, c: nat, x: Slot, all: multiset<Slot>)
    requires Keeps(s, h, x, all) && 1 <= c <= |s| && h != c
    ensures Keeps(s[h - 1 := s[c - 1]], c, x, all)
  {
  }

  /** Nothing in a heap is less than its root. */
  lemma {:induction false} RootIsLeast(s: seq<Slot>, i: nat)
    requires IsHeap(s) && 1 <= i <= |s|
    ensures Ordered(At(s, 1), At(s, i))
  {
    if i == 1 {
      LessTrichotomy(s[0].key, s[0].key);
    } else {
      RootIsLeast(s, i / 2);
      OrderedTransitive(At(s, 1), At(s, i / 2), At(s, i));
    }
  }

  /** With a hole below the root, nothing outside the hole is less than the root. */
  lemma {:induction false} RootIsLeastBesideHole(s: seq<Slot>, h: nat, i: nat)
    requires HasHole(s, h) && h > 1 && 1 <= i <= |s| && i != h
    ensures Ordered(At(s, 1), At(s, i))
  {
    hide Leq;
    if i == 1 {
      assert At(s, 1).Live?;
      LeqReflexive(s[0].key);
    } else if i / 2 == h {
      RootIsLeastBesideHole(s, h, h / 2);
      OrderedTransitive(At(s, 1), At(s, h / 2), At(s, i));
    } else {
      RootIsLeastBesideHole(s, h, i / 2);
      OrderedTransitive(At(s, 1), At(s, i / 2), At(s, i));
    }
  }

  lemma LeqReflexive(a: Bytes)
    ensures Leq(a, a)
  {
    LessTrichotomy(a, a);
  }

  method Push(heap: array<Slot>, heapSize: nat, entry: Slot)
    requires heapSize < heap.Length && entry.Live? && IsHeap(heap[..heapSize])
    modifies heap
    ensures IsHeap(heap[..heapSize + 1])
    ensures Bag(heap[..heapSize + 1]) == Bag(old(heap[..heapSize])) + multiset{entry}
  {
    hide Less, Leq, HasRoomFor, IsHeap, Keeps, Bag;
    ghost var all := Bag(heap[..heapSize]) + multiset{entry};
    RoomAtEnd(heap[..heapSize], heap[..heapSize + 1], entry);
    var i := ClimbFromEnd(heap, heapSize, entry, all);
    ghost var s := heap[..heapSize + 1];
    PushEnd(s, i, entry);
    Kept(s, i + 1, entry, all);
    heap[i] := entry;
    assert heap[..heapSize + 1] == s[i := entry];
  }

  method ClimbFromEnd(heap: array<Slot>, heapSize: nat, entry: Slot, ghost all: multiset<Slot>) returns (i: nat)
    requires heapSize < heap.Length && entry.Live? && HasRoomFor(heap[..heapSize + 1], heapSize + 1, entry)
    requires Keeps(heap[..heapSize + 1], heapSize + 1, entry, all)
    modifies heap
    ensures i <= heapSize && HasRoomFor(heap[..heapSize + 1], i + 1, entry)
    ensures Keeps(heap[..heapSize + 1], i + 1, entry, all)
    ensures i > 0 ==> heap[(i - 1) / 2].Live? && !Less(entry.key, heap[(i - 1) / 2].key)
  {
    hide Less, Leq, HasRoomFor, IsHeap, Keeps, Bag;
    i := heapSize;
    while i != 0
      invariant i <= heapSize && HasRoomFor(heap[..heapSize + 1], i + 1, entry)
      invariant Keeps(heap[..heapSize + 1], i + 1, entry, all)
    {
      var parent := (i - 1) / 2;
      ghost var s := heap[..heapSize + 1];
      ParentIsLive(s, i, entry);
      if !Less(entry.key, heap[parent].key) {
        break;
      }
      PushStep(s, i, entry);
      MoveHole(s, i + 1, parent + 1, entry, all);
      heap[i] := heap[parent];
      assert heap[..heapSize + 1] == s[i := s[parent]];
      i := parent;
    }
  }

  /** The steps of `Push`, whose indices are not shifted. */
  lemma ParentIsLive(s: seq<Slot>, i: nat, e: Slot)
    requires 0 < i < |s| && HasRoomFor(s, i + 1, e)
    ensures s[(i - 1) / 2].Live?
  {
    assert (i + 1) / 2 == (i - 1) / 2 + 1;
    assert At(s, (i + 1) / 2).Live?;
  }

  lemma PushStep(s: seq<Slot>, i: nat, e: Slot)
    requires 0 < i < |s| && HasRoomFor(s, i + 1, e)
    requires var p := s[(i - 1) / 2]; p.Live? && Less(e.key, p.key)
    ensures HasRoomFor(s[i := s[(i - 1) / 2]], (i - 1) / 2 + 1, e)
  {
    assert (i + 1) / 2 == (i - 1) / 2 + 1;
    ClimbStep(s, i + 1, e);
  }

  lemma PushEnd(s: seq<Slot>, i: nat, e: Slot)
    requires i < |s| && HasRoomFor(s, i + 1, e)
    requires i > 0 ==> s[(i - 1) / 2].Live? && !Less(e.key, s[(i - 1) / 2].key)
    ensures IsHeap(s[i := e])
  {
    if i > 0 {
      assert (i + 1) / 2 == (i - 1) / 2 + 1;
    }
    FillHole(s, i + 1, e);
  }

  lemma Kept(s: seq<Slot>, h: nat, x: Slot, all: multiset<Slot>)
    requires Keeps(s, h, x, all)
    ensures Bag(s[h - 1 := x]) == all
  {
  }

  lemma RoomAtEnd(s: seq<Slot>, t: seq<Slot>, e: Slot)
    requires IsHeap(s) && |t| == |s| + 1 && t[..|s|] == s && e.Live?
    ensures HasRoomFor(t, |t|, e)
    ensures Keeps(t, |t|, e, Bag(s) + multiset{e})
  {
    assert t[|s| := e] == s + [e];
    assert forall i :: 1 <= i <= |s| ==> At(t, i) == At(s, i);
    assert forall i :: 1 <= i <= |s| ==> At(s, i).Live?;
  }

  /** Moves the hole at the root down to a leaf; the root's own key is never looked at. */
  method SinkHole(heap: array<Slot>, heapSize: nat, ghost x: Slot) returns (i: nat)
    requires 1 <= heapSize <= heap.Length && HasHole(heap[..heapSize], 1)
    modifies heap
    ensures 1 <= i <= heapSize < 2 * i && HasHole(heap[..heapSize], i)
    ensures Keeps(heap[..heapSize], i, x, Bag(old(heap[..heapSize])[0 := x]))
  {
    hide Less, Leq, HasHole, Keeps, Ordered, Bag;
    ghost var all := Bag(heap[..heapSize][0 := x]);
    TopIsKept(heap[..heapSize], x);
    i := 1;
    var child := 2;
    while child <= heapSize
      invariant 1 <= i <= heapSize && child == 2 * i
      invariant HasHole(heap[..heapSize], i) && Keeps(heap[..heapSize], i, x, all)
      decreases heapSize - i
    {
      ghost var s := heap[..heapSize];
      ChildrenAreLive(s, i);
      if child + 1 <= heapSize && Less(heap[child + 1 - 1].key, heap[child - 1].key) {
        child := child + 1;
      }
      SmallerChild(s, i, child);
      SinkStep(s, i, child);
      MoveHole(s, i, child, x, all);
      heap[i - 1] := heap[child - 1];
      assert heap[..heapSize] == s[i - 1 := s[child - 1]];
      i, child := child, 2 * child;
    }
  }

  lemma TopIsKept(s: seq<Slot>, x: Slot)
    requires s != []
    ensures Keeps(s, 1, x, Bag(s[0 := x]))
  {
  }

  lemma ChildrenAreLive(s: seq<Slot>, h: nat)
    requires HasHole(s, h) && 2 * h <= |s|
    ensures s[2 * h - 1].Live? && (2 * h + 1 <= |s| ==> s[2 * h].Live?)
  {
    assert At(s, 2 * h).Live?;
    assert 2 * h + 1 <= |s| ==> At(s, 2 * h + 1).Live?;
  }

  lemma SmallerChild(s: seq<Slot>, h: nat, c: nat)
    requires HasHole(s, h) && 2 * h <= |s| && (c == 2 * h || (c == 2 * h + 1 && c <= |s|))
    requires 2 * h + 1 <= |s| ==> (c == 2 * h + 1 <==> Less(At(s, 2 * h + 1).key, At(s, 2 * h).key))
    ensures forall i :: 2 <= i <= |s| && i / 2 == h ==> Ordered(At(s, c), At(s, i))
  {
    hide Less;
    LeqReflexive(At(s, c).key);
    if 2 * h + 1 <= |s| {
      LessTrichotomy(At(s, 2 * h).key, At(s, 2 * h + 1).key);
    }
  }

  /** Replaces the top, which may be stale. */
  method ReplaceTop(heap: array<Slot>, heapSize: nat, entry: Slot)
    requires 1 <= heapSize <= heap.Length && entry.Live?
    requires HasHole(heap[..heapSize], 1)
    modifies heap
    ensures IsHeap(heap[..heapSize])
    ensures Bag(heap[..heapSize]) == Bag(old(heap[..heapSize])[0 := entry])
  {
    hide Less, Leq, HasHole, HasRoomFor, IsHeap, Keeps, Bag, TailClimbs;
    ghost var all := Bag(heap[..heapSize][0 := entry]);
    var i := SinkHole(heap, heapSize, entry);
    RoomInLeaf(heap[..heapSize], i, entry);
    while i > 1
      invariant 1 <= i <= heapSize && HasRoomFor(heap[..heapSize], i, entry) && Keeps(heap[..heapSize], i, entry, all)
    {
      var parent := i / 2;
      ghost var s := heap[..heapSize];
      AncestorIsLive(s, i, entry);
      if !Less(entry.key, heap[parent - 1].key) {
        break;
      }
      ClimbStep(s, i, entry);
      MoveHole(s, i, parent, entry, all);
      heap[i - 1] := heap[parent - 1];
      assert heap[..heapSize] == s[i - 1 := s[parent - 1]];
      i := parent;
    }
    ghost var s := heap[..heapSize];
    FillHole(s, i, entry);
    Kept(s, i, entry, all);
    heap[i - 1] := entry;
    assert heap[..heapSize] == s[i - 1 := entry];
  }

  lemma RoomInLeaf(s: seq<Slot>, h: nat, e: Slot)
    requires HasHole(s, h) && 2 * h > |s| && e.Live?
    ensures HasRoomFor(s, h, e)
  {
  }

  lemma AncestorIsLive(s: seq<Slot>, h: nat, e: Slot)
    requires HasRoomFor(s, h, e) && h > 1
    ensures s[h / 2 - 1].Live?
  {
    assert At(s, h / 2).Live?;
  }

  /** Removes the top, which may be stale. The climb of the tail is guarded by `i > 0` alone; since
      the root is not greater than the tail, it stops before it could look in front of the array. */
  method Pop(heap: array<Slot>, heapSize: nat)
    requires 1 <= heapSize <= heap.Length
    requires HasHole(heap[..heapSize], 1)
    modifies heap
    ensures IsHeap(heap[..heapSize - 1])
    ensures Bag(heap[..heapSize - 1]) == Bag(old(heap[..heapSize])[1..])
  {
    hide Less, Leq, HasHole, HasRoomFor, IsHeap, Keeps, Bag, TailClimbs;
    ghost var rest := heap[..heapSize][1..];
    assert heap[..heapSize][0 := Stale] == [Stale] + rest;
    var i := SinkHole(heap, heapSize, Stale);
    ghost var s := heap[..heapSize];
    assert s[..heapSize - 1] == heap[..heapSize - 1];
    if i == heapSize {
      HoleAtEnd(s, rest);
      return;
    }
    TailStarts(s, i);
    i := ClimbTail(heap, heapSize, i, Bag([Stale] + rest));
    s := heap[..heapSize];
    TailStep(s, i);
    TailEnds(s, i, rest);
    heap[i - 1] := heap[heapSize - 1];
    assert heap[..heapSize - 1] == s[..heapSize - 1][i - 1 := s[heapSize - 1]];
  }

  lemma SameRest(a: seq<Slot>, b: seq<Slot>)
    requires Bag(a + [Stale]) == Bag([Stale] + b)
    ensures Bag(a) == Bag(b)
  {
    assert multiset(a) == multiset(a + [Stale]) - multiset{Stale};
    assert multiset(b) == multiset([Stale] + b) - multiset{Stale};
  }

  method ClimbTail(heap: array<Slot>, heapSize: nat, hole: nat, ghost all: multiset<Slot>) returns (i: nat)
    requires 2 <= hole < heapSize <= heap.Length
    requires TailClimbs(heap[..heapSize], hole) && Keeps(heap[..heapSize], hole, Stale, all)
    modifies heap
    ensures 2 <= i < heapSize && TailClimbs(heap[..heapSize], i) && Keeps(heap[..heapSize], i, Stale, all)
    ensures heap[heapSize - 1].Live? && heap[i / 2 - 1].Live? && !Less(heap[heapSize - 1].key, heap[i / 2 - 1].key)
  {
    hide Less, TailClimbs, Keeps, Bag;
    i := hole;
    while i > 0
      invariant 2 <= i < heapSize && TailClimbs(heap[..heapSize], i) && Keeps(heap[..heapSize], i, Stale, all)
    {
      var parent := i / 2;
      ghost var s := heap[..heapSize];
      TailStep(s, i);
      if !Less(heap[heapSize - 1].key, heap[parent - 1].key) {
        break;
      }
      MoveHole(s, i, parent, Stale, all);
      heap[i - 1] := heap[parent - 1];
      assert heap[..heapSize] == s[i - 1 := s[parent - 1]];
      i := parent;
    }
  }

  /** The hole at `i` is below the root, the tail fits below it, and the root is not greater than the tail. */
  ghost predicate TailClimbs(s: seq<Slot>, i: nat) {
    2 <= i < |s| && HasRoomFor(s[..|s| - 1], i, s[|s| - 1]) && Ordered(s[0], s[|s| - 1])
  }

  lemma TailStarts(s: seq<Slot>, h: nat)
    requires HasHole(s, h) && 1 <= h < |s| < 2 * h
    ensures h >= 2 && TailClimbs(s, h)
  {
    RootIsLeastBesideHole(s, h, |s|);
    RoomForTail(s, h);
  }

  /** The parent is in the array, and when the climb goes on the parent is not the root. */
  lemma TailStep(s: seq<Slot>, i: nat)
    requires TailClimbs(s, i)
    ensures s[|s| - 1].Live? && s[i / 2 - 1].Live?
    ensures Less(s[|s| - 1].key, s[i / 2 - 1].key) ==> i / 2 >= 2 && TailClimbs(s[i - 1 := s[i / 2 - 1]], i / 2)
  {
    hide Less;
    var t, p := s[..|s| - 1], i / 2;
    assert At(t, p).Live?;
    if Less(s[|s| - 1].key, s[p - 1].key) {
      ClimbStep(t, i, s[|s| - 1]);
      assert s[i - 1 := s[p - 1]][..|s| - 1] == t[i - 1 := At(t, p)];
    }
  }

  lemma TailEnds(s: seq<Slot>, i: nat, rest: seq<Slot>)
    requires TailClimbs(s, i) && Keeps(s, i, Stale, Bag([Stale] + rest))
    requires s[|s| - 1].Live? && s[i / 2 - 1].Live? && !Less(s[|s| - 1].key, s[i / 2 - 1].key)
    ensures IsHeap(s[..|s| - 1][i - 1 := s[|s| - 1]])
    ensures Bag(s[..|s| - 1][i - 1 := s[|s| - 1]]) == Bag(rest)
  {
    hide *;
    TailFits(s, i);
    var t, tail := s[..|s| - 1], s[|s| - 1];
    FillHole(t, i, tail);
    MoveHole(s, i, |s|, Stale, Bag([Stale] + rest));
    KeptBag(s[i - 1 := tail], |s|, Stale, Bag([Stale] + rest));
    assert s[i - 1 := tail][|s| - 1 := Stale] == t[i - 1 := tail] + [Stale];
    SameRest(t[i - 1 := tail], rest);
  }

  lemma TailFits(s: seq<Slot>, i: nat)
    requires TailClimbs(s, i)
    ensures 2 <= i < |s| && HasRoomFor(s[..|s| - 1], i, s[|s| - 1]) && At(s[..|s| - 1], i / 2) == s[i / 2 - 1]
  {
    hide HasRoomFor;
  }

  lemma KeptBag(s: seq<Slot>, h: nat, x: Slot, all: multiset<Slot>)
    requires Keeps(s, h, x, all)
    ensures 1 <= h <= |s| && Bag(s[h - 1 := x]) == all
  {
  }

  lemma HoleAtEnd(s: seq<Slot>, rest: seq<Slot>)
    requires HasHole(s, |s|) && Keeps(s, |s|, Stale, Bag([Stale] + rest))
    ensures IsHeap(s[..|s| - 1])
    ensures Bag(s[..|s| - 1]) == Bag(rest)
  {
    var t := s[..|s| - 1];
    assert s[|s| - 1 := Stale] == t + [Stale];
    SameRest(t, rest);
    assert forall i :: 1 <= i <= |t| ==> At(t, i) == At(s, i);
    forall i | 0 <= i < |t| ensures t[i].Live? {
      assert At(s, i + 1).Live?;
    }
  }

  lemma RoomForTail(s: seq<Slot>, h: nat)
    requires HasHole(s, h) && h < |s| && 2 * h > |s|
    ensures HasRoomFor(s[..|s| - 1], h, s[|s| - 1])
  {
    var t := s[..|s| - 1];
    assert forall i :: 1 <= i <= |t| ==> At(t, i) == At(s, i);
    assert At(s, |s|).Live?;
  }
}

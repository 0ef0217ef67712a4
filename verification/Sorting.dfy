/** Sorting entries by offset, and drawing a sample of them. */
module Sorting {
  import opened OffsetLists

  function Insert(s: seq<Entry>, e: Entry): seq<Entry> {
    if s == [] || s[|s| - 1].offset <= e.offset then s + [e] else Insert(s[..|s| - 1], e) + [s[|s| - 1]]
  }

  function SortByOffset(s: seq<Entry>): seq<Entry> {
    if s == [] then [] else Insert(SortByOffset(s[..|s| - 1]), s[|s| - 1])
  }

  ghost predicate AtMostOffset(s: seq<Entry>, high: nat) {
    forall i :: 0 <= i < |s| ==> s[i].offset <= high
  }

  lemma {:induction false} InsertSorts(s: seq<Entry>, e: Entry, high: nat)
    requires Sorted(s) && AtMostOffset(s, high) && e.offset <= high
    ensures Sorted(Insert(s, e)) && AtMostOffset(Insert(s, e), high)
  {
    hide Sorted, AtMostOffset;
    if s == [] || s[|s| - 1].offset <= e.offset {
      AddLast(s, e, high);
    } else {
      var last := s[|s| - 1];
      TakeLast(s, high);
      InsertSorts(s[..|s| - 1], e, last.offset);
      var r := Insert(s[..|s| - 1], e);
      AddBehind(r, last, high);
    }
  }

  lemma AddLast(s: seq<Entry>, e: Entry, high: nat)
    requires Sorted(s) && AtMostOffset(s, high) && e.offset <= high && (s == [] || s[|s| - 1].offset <= e.offset)
    ensures Sorted(s + [e]) && AtMostOffset(s + [e], high)
  {
  }

  lemma AddBehind(s: seq<Entry>, e: Entry, high: nat)
    requires Sorted(s) && AtMostOffset(s, e.offset) && e.offset <= high
    ensures Sorted(s + [e]) && AtMostOffset(s + [e], high)
  {
  }

  lemma TakeLast(s: seq<Entry>, high: nat)
    requires s != [] && Sorted(s) && AtMostOffset(s, high)
    ensures Sorted(s[..|s| - 1]) && AtMostOffset(s[..|s| - 1], s[|s| - 1].offset) && s[|s| - 1].offset <= high
  {
  }

  lemma {:induction false} InsertAdds(s: seq<Entry>, e: Entry)
    ensures multiset(Insert(s, e)) == multiset(s) + multiset{e}
  {
    if !(s == [] || s[|s| - 1].offset <= e.offset) {
      var n := |s| - 1;
      InsertAdds(s[..n], e);
      assert s == s[..n] + [s[n]];
    }
  }

  lemma {:induction false} SortSorts(s: seq<Entry>)
    ensures Sorted(SortByOffset(s)) && multiset(SortByOffset(s)) == multiset(s)
  {
    if s != [] {
      hide Insert, Sorted;
      var n := |s| - 1;
      SortSorts(s[..n]);
      var high := Highest(SortByOffset(s[..n]) + [s[n]]);
      assert forall i :: 0 <= i < |SortByOffset(s[..n])| ==>
             (SortByOffset(s[..n]) + [s[n]])[i] == SortByOffset(s[..n])[i];
      assert (SortByOffset(s[..n]) + [s[n]])[|SortByOffset(s[..n])|] == s[n];
      InsertSorts(SortByOffset(s[..n]), s[n], high);
      InsertAdds(SortByOffset(s[..n]), s[n]);
      assert s == s[..n] + [s[n]];
    }
  }

  function Highest(s: seq<Entry>): (r: nat)
    ensures forall i :: 0 <= i < |s| ==> s[i].offset <= r
  {
    if s == [] then 0
    else
      var r := Highest(s[..|s| - 1]);
      if s[|s| - 1].offset > r then s[|s| - 1].offset else r
  }

  lemma SortKeepsLength(s: seq<Entry>)
    ensures |SortByOffset(s)| == |s|
  {
    SortSorts(s);
    assert |multiset(SortByOffset(s))| == |multiset(s)|;
  }

  // ---------- A random sample ----------

  lemma SwapKeeps(before: seq<Entry>, after: seq<Entry>, i: nat, j: nat)
    requires i < |before| && j < |before| && after == before[i := before[j]][j := before[i]]
    ensures multiset(after) == multiset(before)
  {
  }

  lemma PartOf(s: seq<Entry>, n: nat)
    requires n <= |s|
    ensures multiset(s[..n]) <= multiset(s)
  {
    assert s == s[..n] + s[n..];
  }

  /** The sample of a query: entries beyond the first ones take the place of a random one of them, or of
      none; `draw` stands for the generator, which gives a place up to `i`. */
  method RandomSample(offsets: array<Entry>, count: nat, draw: nat -> nat) returns (size: nat)
    requires Sorted(offsets[..]) && forall i :: draw(i) <= i
    modifies offsets
    ensures size == if offsets.Length <= count then offsets.Length else count
    ensures Sorted(offsets[..size]) && multiset(offsets[..size]) <= multiset(old(offsets[..]))
    ensures offsets.Length <= count ==> offsets[..] == old(offsets[..])
  {
    hide Sorted, SortByOffset;
    ghost var was := offsets[..];
    if offsets.Length <= count {
      assert offsets[..offsets.Length] == was;
      return offsets.Length;
    }
    for i := count to offsets.Length
      invariant multiset(offsets[..]) == multiset(was)
    {
      ghost var before := offsets[..];
      var j := draw(i);
      if j < count {
        offsets[i], offsets[j] := offsets[j], offsets[i];
        SwapKeeps(before, offsets[..], i, j);
      }
    }
    size := count;
    PartOf(offsets[..], size);
    SortFirst(offsets, size);
  }

  /** `std::sort` of the first entries. */
  method SortFirst(a: array<Entry>, n: nat)
    requires n <= a.Length
    modifies a
    ensures Sorted(a[..n]) && multiset(a[..n]) == multiset(old(a[..n]))
  {
    hide Sorted, SortByOffset;
    var sorted := SortByOffset(a[..n]);
    SortSorts(a[..n]);
    SortKeepsLength(a[..n]);
    for i := 0 to n
      invariant a[..i] == sorted[..i]
    {
      a[i] := sorted[i];
    }
    assert a[..n] == sorted;
  }
}

/** Counting how an index entry overlaps two sets of offsets, and dropping what was not known in time. */
module Correlate {
  import opened OffsetLists

  // ---------- Narrowing binary search ----------

  /** Everything before `n` is below `x`. */
  predicate Before(s: seq<Entry>, n: nat, x: nat)
    requires n <= |s|
  {
    forall i :: 0 <= i < n ==> s[i].offset < x
  }

  predicate NotBefore(s: seq<Entry>, n: nat, x: nat)
    requires n <= |s|
  {
    forall i :: n <= i < |s| ==> s[i].offset >= x
  }

  /** The first place, from `begin` on, whose offset is not less than the given one. */
  method LowerBound(s: seq<Entry>, begin: nat, offset: nat) returns (at: nat)
    requires Sorted(s) && begin <= |s| && Before(s, begin, offset)
    ensures begin <= at <= |s| && Before(s, at, offset) && NotBefore(s, at, offset)
  {
    at := begin;
    var len := |s| - begin;
    while len > 0
      invariant begin <= at && 0 <= len && at + len <= |s|
      invariant Before(s, at, offset) && NotBefore(s, at + len, offset)
    {
      var half := len / 2;
      var middle := at + half;
      if s[middle].offset < offset {
        at := middle + 1;
        len := len - half - 1;
      } else {
        len := half;
      }
    }
  }

  lemma FoundAt(s: seq<Entry>, at: nat, x: nat)
    requires at <= |s| && Before(s, at, x) && NotBefore(s, at, x) && Sorted(s)
    ensures HasOffset(s, x) <==> at < |s| && s[at].offset == x
  {
    if HasOffset(s, x) {
      var i :| 0 <= i < |s| && s[i].offset == x;
      assert at <= i;
    }
  }

  // ---------- The counts of a score range ----------

  predicate InRange(score: Number, low: Number, high: Number) {
    !score.Below(low) && !high.Below(score)
  }

  /** The offsets that have some score in the range. */
  function InRangeOffsets(keys: seq<Entry>, low: Number, high: Number): set<nat> {
    set i | 0 <= i < |keys| && InRange(keys[i].score, low, high) :: keys[i].offset
  }

  /** The offsets of the set that are in the list. */
  function Among(offsets: set<nat>, list: seq<Entry>): set<nat> {
    set x | x in offsets && HasOffset(list, x)
  }

  lemma OneMoreOffset(keys: seq<Entry>, low: Number, high: Number, k: nat)
    requires k < |keys|
    ensures InRangeOffsets(keys[..k + 1], low, high) ==
            InRangeOffsets(keys[..k], low, high) + if InRange(keys[k].score, low, high) then {keys[k].offset} else {}
  {
    hide InRange;
    var a, b := InRangeOffsets(keys[..k], low, high), InRangeOffsets(keys[..k + 1], low, high);
    forall x | x in b ensures x in a || (InRange(keys[k].score, low, high) && x == keys[k].offset) {
      var i :| 0 <= i < |keys[..k + 1]| && InRange(keys[..k + 1][i].score, low, high) && keys[..k + 1][i].offset == x;
      if i < k {
        assert keys[..k][i] == keys[i];
      }
    }
    forall x | x in a ensures x in b {
      var i :| 0 <= i < |keys[..k]| && InRange(keys[..k][i].score, low, high) && keys[..k][i].offset == x;
      assert keys[..k + 1][i] == keys[i];
    }
    if InRange(keys[k].score, low, high) {
      assert keys[..k + 1][k] == keys[k];
    }
  }

  lemma AmongPush(offsets: set<nat>, list: seq<Entry>, x: nat)
    requires x !in offsets
    ensures |Among(offsets + {x}, list)| == |Among(offsets, list)| + if HasOffset(list, x) then 1 else 0
  {
    hide HasOffset;
    if HasOffset(list, x) {
      assert Among(offsets + {x}, list) == Among(offsets, list) + {x};
    } else {
      assert Among(offsets + {x}, list) == Among(offsets, list);
    }
  }

  /** What has been counted after the first `k` keys. */
  ghost predicate Counted(keys: seq<Entry>, k: nat, low: Number, high: Number, list: seq<Entry>, count: nat)
    requires k <= |keys|
  {
    count == |Among(InRangeOffsets(keys[..k], low, high), list)|
  }

  /** All counted offsets are below the next key. */
  ghost predicate Behind(keys: seq<Entry>, k: nat, low: Number, high: Number)
    requires k <= |keys|
  {
    k < |keys| ==> forall x :: x in InRangeOffsets(keys[..k], low, high) ==> x < keys[k].offset
  }

  lemma SkipOutOfRange(keys: seq<Entry>, k: nat, low: Number, high: Number)
    requires Sorted(keys) && k < |keys| && Behind(keys, k, low, high) && !InRange(keys[k].score, low, high)
    ensures Behind(keys, k + 1, low, high)
    ensures InRangeOffsets(keys[..k + 1], low, high) == InRangeOffsets(keys[..k], low, high)
  {
    hide InRange, InRangeOffsets;
    OneMoreOffset(keys, low, high, k);
  }

  /** A key in range and all others with its offset. */
  lemma {:induction false} SkipRun(keys: seq<Entry>, k: nat, end: nat, low: Number, high: Number)
    requires Sorted(keys) && k < end <= |keys| && Behind(keys, k, low, high) && InRange(keys[k].score, low, high)
    requires forall i :: k <= i < end ==> keys[i].offset == keys[k].offset
    ensures InRangeOffsets(keys[..end], low, high) == InRangeOffsets(keys[..k], low, high) + {keys[k].offset}
    ensures keys[k].offset !in InRangeOffsets(keys[..k], low, high)
    ensures end < |keys| && keys[end].offset != keys[k].offset ==> Behind(keys, end, low, high)
  {
    hide InRange, InRangeOffsets;
    OneMoreOffset(keys, low, high, end - 1);
    if end > k + 1 {
      SkipRun(keys, k, end - 1, low, high);
    }
  }

  lemma NothingCounted(keys: seq<Entry>, low: Number, high: Number, list: seq<Entry>)
    ensures Counted(keys, 0, low, high, list, 0) && Behind(keys, 0, low, high)
  {
    assert InRangeOffsets(keys[..0], low, high) == {};
    assert Among({}, list) == {};
  }

  /** The counting loop of `ProcessRange`: of the offsets with some score in the range, how many are in A,
      in B, and in either. */
  method CountRange(offsetsA: seq<Entry>, offsetsB: seq<Entry>, keys: seq<Entry>, minScore: Number, maxScore: Number)
    returns (countA: nat, countB: nat, countEither: nat)
    requires Sorted(offsetsA) && Sorted(offsetsB) && Sorted(keys)
    ensures var found := InRangeOffsets(keys, minScore, maxScore);
            && countA == |Among(found, offsetsA)|
            && countB == |Among(found, offsetsB)|
            && countEither == |Among(found, offsetsA + offsetsB)|
  {
    hide InRange, Sorted, InRangeOffsets, Among, HasOffset, Behind;
    countA, countB, countEither := 0, 0, 0;
    var k, a, b := 0, 0, 0;
    NothingCounted(keys, minScore, maxScore, offsetsA);
    NothingCounted(keys, minScore, maxScore, offsetsB);
    NothingCounted(keys, minScore, maxScore, offsetsA + offsetsB);
    while k != |keys|
      invariant k <= |keys| && a <= |offsetsA| && b <= |offsetsB|
      invariant k < |keys| ==> Before(offsetsA, a, keys[k].offset) && Before(offsetsB, b, keys[k].offset)
      invariant Behind(keys, k, minScore, maxScore)
      invariant Counted(keys, k, minScore, maxScore, offsetsA, countA)
      invariant Counted(keys, k, minScore, maxScore, offsetsB, countB)
      invariant Counted(keys, k, minScore, maxScore, offsetsA + offsetsB, countEither)
    {
      var offset := keys[k].offset;
      if !InRange(keys[k].score, minScore, maxScore) {
        SkipOutOfRange(keys, k, minScore, maxScore);
        NextNotSmaller(keys, k);
        k := k + 1;
        continue;
      }
      a := LowerBound(offsetsA, a, offset);
      b := LowerBound(offsetsB, b, offset);
      FoundAt(offsetsA, a, offset);
      FoundAt(offsetsB, b, offset);
      EitherHas(offsetsA, offsetsB, offset);
      ghost var found := InRangeOffsets(keys[..k], minScore, maxScore);
      var match_ := false;
      if a != |offsetsA| && offsetsA[a].offset == offset {
        countA := countA + 1;
        match_ := true;
      }
      if b != |offsetsB| && offsetsB[b].offset == offset {
        countB := countB + 1;
        match_ := true;
      }
      if match_ {
        countEither := countEither + 1;
      }
      ghost var first := k;
      k := k + 1;
      while k != |keys| && keys[k].offset == offset
        invariant first < k <= |keys| && forall i :: first <= i < k ==> keys[i].offset == offset
      {
        k := k + 1;
      }
      SkipRun(keys, first, k, minScore, maxScore);
      AmongPush(found, offsetsA, offset);
      AmongPush(found, offsetsB, offset);
      AmongPush(found, offsetsA + offsetsB, offset);
      NextNotSmaller(keys, k - 1);
      AtEndBehind(keys, minScore, maxScore);
    }
    assert keys[..k] == keys;
  }

  lemma AtEndBehind(keys: seq<Entry>, low: Number, high: Number)
    ensures Behind(keys, |keys|, low, high)
  {
  }

  lemma NextNotSmaller(keys: seq<Entry>, k: nat)
    requires Sorted(keys) && k < |keys|
    ensures k + 1 < |keys| ==> keys[k].offset <= keys[k + 1].offset
  {
  }

  // ---------- Counts by score ----------

  /** A score that an offset of A (1), of B (-1) or of both (0) has. */
  type Side = x: int | -1 <= x <= 1

  datatype Class = Class(score: Number, side: Side)

  datatype Totals = Totals(score: Number, a: nat, b: nat, either: nat)

  predicate NotAbove(x: Number, y: Number) {
    !y.Below(x)
  }

  /** Entries, each counted as often as it occurs, whose score is not above `score` and whose offset is in the list. */
  function CountIn(keys: seq<Entry>, list: seq<Entry>, score: Number): nat {
    if keys == [] then 0
    else
      var e := keys[|keys| - 1];
      CountIn(keys[..|keys| - 1], list, score) + if HasOffset(list, e.offset) && NotAbove(e.score, score) then 1 else 0
  }

  /** The same count over classes; `side` is the sign that does not count. */
  function CountClasses(classes: seq<Class>, side: int, score: Number): nat {
    if classes == [] then 0
    else
      var c := classes[|classes| - 1];
      CountClasses(classes[..|classes| - 1], side, score) + if c.side != side && NotAbove(c.score, score) then 1 else 0
  }

  lemma CountClassesPush(classes: seq<Class>, c: Class, side: int, score: Number)
    ensures CountClasses([], side, score) == 0
    ensures CountClasses(classes + [c], side, score) ==
            CountClasses(classes, side, score) + if c.side != side && NotAbove(c.score, score) then 1 else 0
  {
    assert (classes + [c])[..|classes|] == classes;
  }

  lemma CountInPush(keys: seq<Entry>, k: nat, list: seq<Entry>, score: Number)
    requires k < |keys|
    ensures CountIn(keys[..0], list, score) == 0
    ensures CountIn(keys[..k + 1], list, score) ==
            CountIn(keys[..k], list, score)
              + if HasOffset(list, keys[k].offset) && NotAbove(keys[k].score, score) then 1 else 0
  {
    assert keys[..k + 1][..k] == keys[..k];
  }

  /** The classes stand for the keys: they give the same counts, whatever the score. */
  ghost predicate StandFor(classes: seq<Class>, keys: seq<Entry>, a: seq<Entry>, b: seq<Entry>) {
    forall score: Number ::
      && CountClasses(classes, -1, score) == CountIn(keys, a, score)
      && CountClasses(classes, 1, score) == CountIn(keys, b, score)
      && CountClasses(classes, 2, score) == CountIn(keys, a + b, score)
  }

  lemma StandForPush(classes: seq<Class>, keys: seq<Entry>, k: nat, a: seq<Entry>, b: seq<Entry>, side: Side)
    requires k < |keys| && StandFor(classes, keys[..k], a, b)
    requires side == (if HasOffset(a, keys[k].offset) then 1 else 0) - (if HasOffset(b, keys[k].offset) then 1 else 0)
    ensures HasOffset(a + b, keys[k].offset) ==> StandFor(classes + [Class(keys[k].score, side)], keys[..k + 1], a, b)
    ensures !HasOffset(a + b, keys[k].offset) ==> StandFor(classes, keys[..k + 1], a, b)
  {
    hide CountClasses, CountIn, HasOffset, NotAbove;
    EitherHas(a, b, keys[k].offset);
    forall score: Number ensures
      && CountIn(keys[..k + 1], a, score) == CountIn(keys[..k], a, score)
           + (if HasOffset(a, keys[k].offset) && NotAbove(keys[k].score, score) then 1 else 0)
      && CountIn(keys[..k + 1], b, score) == CountIn(keys[..k], b, score)
           + (if HasOffset(b, keys[k].offset) && NotAbove(keys[k].score, score) then 1 else 0)
      && CountIn(keys[..k + 1], a + b, score) == CountIn(keys[..k], a + b, score)
           + (if HasOffset(a + b, keys[k].offset) && NotAbove(keys[k].score, score) then 1 else 0)
      && CountClasses(classes + [Class(keys[k].score, side)], -1, score) == CountClasses(classes, -1, score)
           + (if side != -1 && NotAbove(keys[k].score, score) then 1 else 0)
      && CountClasses(classes + [Class(keys[k].score, side)], 1, score) == CountClasses(classes, 1, score)
           + (if side != 1 && NotAbove(keys[k].score, score) then 1 else 0)
      && CountClasses(classes + [Class(keys[k].score, side)], 2, score) == CountClasses(classes, 2, score)
           + (if NotAbove(keys[k].score, score) then 1 else 0) {
      CountInPush(keys, k, a, score);
      CountInPush(keys, k, b, score);
      CountInPush(keys, k, a + b, score);
      CountClassesPush(classes, Class(keys[k].score, side), -1, score);
      CountClassesPush(classes, Class(keys[k].score, side), 1, score);
      CountClassesPush(classes, Class(keys[k].score, side), 2, score);
    }
  }

  /** A score belongs to some class exactly when some matching key has it. */
  ghost predicate SameScores(classes: seq<Class>, keys: seq<Entry>, a: seq<Entry>, b: seq<Entry>) {
    forall score: Number :: ClassScore(classes, score) <==> KeyScore(keys, a + b, score)
  }

  ghost predicate ClassScore(classes: seq<Class>, score: Number) {
    exists i :: 0 <= i < |classes| && classes[i].score == score
  }

  ghost predicate KeyScore(keys: seq<Entry>, list: seq<Entry>, score: Number) {
    exists i :: 0 <= i < |keys| && keys[i].score == score && HasOffset(list, keys[i].offset)
  }

  lemma ClassScorePush(classes: seq<Class>, c: Class, score: Number)
    ensures !ClassScore([], score)
    ensures ClassScore(classes + [c], score) <==> ClassScore(classes, score) || c.score == score
  {
    var s := classes + [c];
    if ClassScore(classes, score) {
      var i :| 0 <= i < |classes| && classes[i].score == score;
      assert s[i].score == score;
    }
    if c.score == score {
      assert s[|classes|].score == score;
    }
    if ClassScore(s, score) && c.score != score {
      var i :| 0 <= i < |s| && s[i].score == score;
      assert classes[i].score == score;
    }
  }

  lemma KeyScorePush(keys: seq<Entry>, k: nat, list: seq<Entry>, score: Number)
    requires k < |keys|
    ensures !KeyScore(keys[..0], list, score)
    ensures KeyScore(keys[..k + 1], list, score) <==>
            KeyScore(keys[..k], list, score) || (keys[k].score == score && HasOffset(list, keys[k].offset))
  {
    hide HasOffset;
    var s := keys[..k + 1];
    if KeyScore(keys[..k], list, score) {
      var i :| 0 <= i < k && keys[..k][i].score == score && HasOffset(list, keys[..k][i].offset);
      assert s[i] == keys[..k][i];
    }
    if keys[k].score == score && HasOffset(list, keys[k].offset) {
      assert s[k] == keys[k];
    }
    if KeyScore(s, list, score) && !(keys[k].score == score && HasOffset(list, keys[k].offset)) {
      var i :| 0 <= i < |s| && s[i].score == score && HasOffset(list, s[i].offset);
      assert keys[..k][i] == s[i];
    }
  }

  /** The first loop of `ProcessSeries`: keeps the scores of the keys that are in A or in B. */
  method Classify(offsetsA: seq<Entry>, offsetsB: seq<Entry>, keys: seq<Entry>) returns (classes: seq<Class>)
    requires Sorted(offsetsA) && Sorted(offsetsB) && Sorted(keys)
    ensures StandFor(classes, keys, offsetsA, offsetsB) && SameScores(classes, keys, offsetsA, offsetsB)
  {
    hide Sorted, HasOffset, StandFor, ClassScore, KeyScore, CountIn, CountClasses;
    classes := [];
    var a, b := 0, 0;
    NothingStandsFor(keys, offsetsA, offsetsB);
    for k := 0 to |keys|
      invariant a <= |offsetsA| && b <= |offsetsB|
      invariant k < |keys| ==> Before(offsetsA, a, keys[k].offset) && Before(offsetsB, b, keys[k].offset)
      invariant StandFor(classes, keys[..k], offsetsA, offsetsB) && SameScores(classes, keys[..k], offsetsA, offsetsB)
    {
      var offset := keys[k].offset;
      a := LowerBound(offsetsA, a, offset);
      b := LowerBound(offsetsB, b, offset);
      FoundAt(offsetsA, a, offset);
      FoundAt(offsetsB, b, offset);
      EitherHas(offsetsA, offsetsB, offset);
      NextNotSmaller(keys, k);
      var cls: int := 0;
      var match_ := false;
      if a != |offsetsA| && offsetsA[a].offset == offset {
        cls := cls + 1;
        match_ := true;
      }
      if b != |offsetsB| && offsetsB[b].offset == offset {
        cls := cls - 1;
        match_ := true;
      }
      StandForPush(classes, keys, k, offsetsA, offsetsB, cls);
      SameScoresPush(classes, keys, k, offsetsA, offsetsB, Class(keys[k].score, cls));
      if !match_ {
        continue;
      }
      classes := classes + [Class(keys[k].score, cls)];
    }
    assert keys[..|keys|] == keys;
  }

  lemma SameScoresPush(classes: seq<Class>, keys: seq<Entry>, k: nat, a: seq<Entry>, b: seq<Entry>, c: Class)
    requires k < |keys| && SameScores(classes, keys[..k], a, b) && c.score == keys[k].score
    ensures HasOffset(a + b, keys[k].offset) ==> SameScores(classes + [c], keys[..k + 1], a, b)
    ensures !HasOffset(a + b, keys[k].offset) ==> SameScores(classes, keys[..k + 1], a, b)
  {
    hide HasOffset, ClassScore, KeyScore;
    forall score: Number ensures
      && (ClassScore(classes + [c], score) <==> ClassScore(classes, score) || c.score == score)
      && (KeyScore(keys[..k + 1], a + b, score) <==>
            KeyScore(keys[..k], a + b, score) || (keys[k].score == score && HasOffset(a + b, keys[k].offset))) {
      ClassScorePush(classes, c, score);
      KeyScorePush(keys, k, a + b, score);
    }
  }

  lemma NothingStandsFor(keys: seq<Entry>, a: seq<Entry>, b: seq<Entry>)
    ensures StandFor([], keys[..0], a, b) && SameScores([], keys[..0], a, b)
  {
  }

  predicate ClassesSorted(s: seq<Class>) {
    forall i, j :: 0 <= i < j < |s| ==> NotAbove(s[i].score, s[j].score)
  }

  predicate ClassLess(c: Class, d: Class) {
    c.score.Below(d.score) || (c.score == d.score && c.side < d.side)
  }

  function InsertClass(s: seq<Class>, c: Class): seq<Class> {
    if s == [] || !ClassLess(c, s[|s| - 1]) then s + [c] else InsertClass(s[..|s| - 1], c) + [s[|s| - 1]]
  }

  /** `std::sort` of pairs. */
  function SortClasses(s: seq<Class>): seq<Class> {
    if s == [] then [] else InsertClass(SortClasses(s[..|s| - 1]), s[|s| - 1])
  }

  lemma {:induction false} InsertKeeps(s: seq<Class>, c: Class, side: int, score: Number)
    ensures CountClasses(InsertClass(s, c), side, score) == CountClasses(s + [c], side, score)
    ensures ClassScore(InsertClass(s, c), score) <==> ClassScore(s + [c], score)
  {
    hide CountClasses, ClassScore, ClassLess, NotAbove;
    if !(s == [] || !ClassLess(c, s[|s| - 1])) {
      var n := |s| - 1;
      InsertKeeps(s[..n], c, side, score);
      CountClassesPush(InsertClass(s[..n], c), s[n], side, score);
      CountClassesPush(s[..n], c, side, score);
      CountClassesPush(s[..n], s[n], side, score);
      CountClassesPush(s, c, side, score);
      ClassScorePush(InsertClass(s[..n], c), s[n], score);
      ClassScorePush(s[..n], c, score);
      ClassScorePush(s[..n], s[n], score);
      ClassScorePush(s, c, score);
      assert s == s[..n] + [s[n]];
    }
  }

  ghost predicate NoneAbove(s: seq<Class>, high: Number) {
    forall i :: 0 <= i < |s| ==> NotAbove(s[i].score, high)
  }

  lemma {:induction false} InsertSorts(s: seq<Class>, c: Class, high: Number)
    requires ClassesSorted(s) && NotAbove(c.score, high) && NoneAbove(s, high)
    ensures ClassesSorted(InsertClass(s, c)) && NoneAbove(InsertClass(s, c), high)
  {
    hide NotAbove, ClassesSorted, NoneAbove;
    if s == [] || !ClassLess(c, s[|s| - 1]) {
      NotLess(s, c);
      LastClass(s, c, high);
    } else {
      var d := s[|s| - 1];
      UpToLast(s, high);
      EqualOrBelow(c.score, d.score);
      InsertSorts(s[..|s| - 1], c, d.score);
      LastClass(InsertClass(s[..|s| - 1], c), d, high);
    }
  }

  lemma NotLess(s: seq<Class>, c: Class)
    requires ClassesSorted(s) && (s == [] || !ClassLess(c, s[|s| - 1]))
    ensures NoneAbove(s, c.score)
  {
    if s != [] {
      var d := s[|s| - 1];
      EqualOrBelow(d.score, c.score);
      forall i | 0 <= i < |s| ensures NotAbove(s[i].score, c.score) {
        assert i < |s| - 1 ==> NotAbove(s[i].score, d.score);
      }
    }
  }

  lemma UpToLast(s: seq<Class>, high: Number)
    requires s != [] && ClassesSorted(s) && NoneAbove(s, high)
    ensures ClassesSorted(s[..|s| - 1]) && NoneAbove(s[..|s| - 1], s[|s| - 1].score) && NotAbove(s[|s| - 1].score, high)
  {
  }

  lemma LastClass(s: seq<Class>, d: Class, high: Number)
    requires ClassesSorted(s) && NotAbove(d.score, high) && NoneAbove(s, d.score)
    ensures ClassesSorted(s + [d]) && NoneAbove(s + [d], high)
  {
  }

  lemma SortNothing()
    ensures SortClasses([]) == []
  {
  }

  lemma SortUnfolds(s: seq<Class>)
    requires s != []
    ensures SortClasses(s) == InsertClass(SortClasses(s[..|s| - 1]), s[|s| - 1])
  {
  }

  lemma {:induction false} SortKeeps(s: seq<Class>, side: int, score: Number)
    ensures CountClasses(SortClasses(s), side, score) == CountClasses(s, side, score)
    ensures ClassScore(SortClasses(s), score) <==> ClassScore(s, score)
  {
    hide *;
    SortNothing();
    if s != [] {
      var n := |s| - 1;
      SortUnfolds(s);
      SortKeeps(s[..n], side, score);
      InsertKeeps(SortClasses(s[..n]), s[n], side, score);
      CountClassesPush(SortClasses(s[..n]), s[n], side, score);
      CountClassesPush(s[..n], s[n], side, score);
      ClassScorePush(SortClasses(s[..n]), s[n], score);
      ClassScorePush(s[..n], s[n], score);
      assert s == s[..n] + [s[n]];
    }
  }

  lemma {:induction false} SortSorts(s: seq<Class>)
    ensures ClassesSorted(SortClasses(s))
  {
    if s != [] {
      hide InsertClass;
      SortSorts(s[..|s| - 1]);
      NoneAboveAll(SortClasses(s[..|s| - 1]));
      InsertSorts(SortClasses(s[..|s| - 1]), s[|s| - 1], PlusInfinity);
    }
  }

  lemma NoneAboveAll(s: seq<Class>)
    ensures NoneAbove(s, PlusInfinity)
  {
  }

  /** What the totals say about the classes before place `n`: one entry for each score, in increasing
      order, with the counts up to that score. */
  ghost predicate Agrees(agg: seq<Totals>, classes: seq<Class>) {
    && (forall i, j :: 0 <= i < j < |agg| ==> agg[i].score.Below(agg[j].score))
    && (agg == [] <==> classes == [])
    && (agg != [] ==> agg[|agg| - 1].score == classes[|classes| - 1].score)
    && (forall i :: 0 <= i < |agg| ==> agg[i] == TotalsAt(classes, agg[i].score))
    && (forall score: Number :: (exists i :: 0 <= i < |agg| && agg[i].score == score) <==> ClassScore(classes, score))
  }

  function TotalsAt(classes: seq<Class>, score: Number): Totals {
    Totals(score, CountClasses(classes, -1, score), CountClasses(classes, 1, score), CountClasses(classes, 2, score))
  }

  lemma {:induction false} AllNotAbove(classes: seq<Class>, side: int, score: Number, high: Number)
    requires forall i :: 0 <= i < |classes| ==> NotAbove(classes[i].score, score) && NotAbove(classes[i].score, high)
    ensures CountClasses(classes, side, score) == CountClasses(classes, side, high)
  {
    if classes != [] {
      hide NotAbove;
      AllNotAbove(classes[..|classes| - 1], side, score, high);
    }
  }

  /** The counts of one more class, seen from its own score and from smaller ones. */
  lemma TotalsPush(classes: seq<Class>, c: Class, score: Number)
    ensures NotAbove(c.score, score) ==>
              TotalsAt(classes + [c], score) ==
              var t := TotalsAt(classes, score);
              Totals(score, t.a + (if c.side != -1 then 1 else 0), t.b + (if c.side != 1 then 1 else 0),
                     t.either + (if c.side != 2 then 1 else 0))
    ensures !NotAbove(c.score, score) ==> TotalsAt(classes + [c], score) == TotalsAt(classes, score)
  {
    hide CountClasses, NotAbove;
    CountClassesPush(classes, c, -1, score);
    CountClassesPush(classes, c, 1, score);
    CountClassesPush(classes, c, 2, score);
  }

  lemma SortedClassPush(classes: seq<Class>, n: nat)
    requires n < |classes| && ClassesSorted(classes)
    ensures ClassesSorted(classes[..n]) && classes[..n + 1] == classes[..n] + [classes[n]]
    ensures n > 0 ==> NotAbove(classes[n - 1].score, classes[n].score)
    ensures forall i :: 0 <= i < n ==> NotAbove(classes[..n][i].score, classes[n].score)
    ensures n > 0 ==> forall i :: 0 <= i < n ==> NotAbove(classes[..n][i].score, classes[n - 1].score)
  {
    if n > 0 {
      forall i | 0 <= i < n ensures NotAbove(classes[..n][i].score, classes[n - 1].score) {
        assert i < n - 1 ==> NotAbove(classes[i].score, classes[n - 1].score);
      }
    }
  }

  lemma EqualOrBelow(x: Number, y: Number)
    ensures NotAbove(x, y) && x != y <==> x.Below(y)
    ensures x.Below(y) ==> !NotAbove(y, x)
    ensures NotAbove(x, x)
  {
  }

  /** A score that was there already: the last entry takes the new counts. */
  lemma AgreesSame(init: seq<Totals>, last: Totals, classes: seq<Class>, c: Class)
    requires Agrees(init + [last], classes) && last.score == c.score
    ensures Agrees(init + [TotalsAt(classes + [c], c.score)], classes + [c])
  {
    hide TotalsAt, Number.Below, NotAbove, ClassScore;
    var agg, next := init + [last], init + [TotalsAt(classes + [c], c.score)];
    ScoreOfTotals(classes + [c], c.score);
    assert agg[|init|] == last && next[|init|].score == c.score;
    forall i, j | 0 <= i < j < |next| ensures next[i].score.Below(next[j].score) {
      assert agg[i].score.Below(agg[j].score);
    }
    forall i | 0 <= i < |init| ensures next[i] == TotalsAt(classes + [c], next[i].score) {
      assert agg[i].score.Below(agg[|init|].score) && agg[i] == TotalsAt(classes, agg[i].score);
      EqualOrBelow(agg[i].score, c.score);
      TotalsPush(classes, c, agg[i].score);
    }
    forall score: Number
      ensures (exists i :: 0 <= i < |next| && next[i].score == score) <==> ClassScore(classes + [c], score) {
      ClassScorePush(classes, c, score);
      assert ClassScore(classes, score) <==> exists i :: 0 <= i < |agg| && agg[i].score == score;
      if i :| 0 <= i < |agg| && agg[i].score == score {
        assert next[i].score == score;
      }
      if i :| 0 <= i < |next| && next[i].score == score {
        assert agg[i].score == score;
      }
    }
  }

  lemma ScoreOfTotals(classes: seq<Class>, score: Number)
    ensures TotalsAt(classes, score).score == score
  {
  }

  /** A new score gets a new entry. */
  lemma AgreesNew(agg: seq<Totals>, classes: seq<Class>, c: Class)
    requires Agrees(agg, classes)
    requires agg != [] ==> NotAbove(classes[|classes| - 1].score, c.score) && classes[|classes| - 1].score != c.score
    ensures Agrees(agg + [TotalsAt(classes + [c], c.score)], classes + [c])
  {
    hide TotalsAt, Number.Below, NotAbove, ClassScore;
    var next := agg + [TotalsAt(classes + [c], c.score)];
    ScoreOfTotals(classes + [c], c.score);
    assert next[|agg|].score == c.score;
    if agg != [] {
      EqualOrBelow(classes[|classes| - 1].score, c.score);
    }
    forall i | 0 <= i < |agg| ensures agg[i].score.Below(c.score) && next[i] == TotalsAt(classes + [c], next[i].score) {
      assert i < |agg| - 1 ==> agg[i].score.Below(agg[|agg| - 1].score);
      if i < |agg| - 1 {
        BelowTransitive(agg[i].score, agg[|agg| - 1].score, c.score);
      }
      EqualOrBelow(agg[i].score, c.score);
      TotalsPush(classes, c, agg[i].score);
    }
    forall score: Number
      ensures (exists i :: 0 <= i < |next| && next[i].score == score) <==> ClassScore(classes + [c], score) {
      ClassScorePush(classes, c, score);
      assert ClassScore(classes, score) <==> exists i :: 0 <= i < |agg| && agg[i].score == score;
      if i :| 0 <= i < |agg| && agg[i].score == score {
        assert next[i].score == score;
      }
      if i :| 0 <= i < |next| && next[i].score == score {
        assert i < |agg| ==> agg[i].score == score;
      }
    }
  }

  lemma BelowTransitive(x: Number, y: Number, z: Number)
    requires x.Below(y) && y.Below(z)
    ensures x.Below(z)
  {
  }

  /** The running counts up to the last class are the counts up to its score. */
  lemma RunningCounts(classes: seq<Class>, c: Class)
    requires forall i :: 0 <= i < |classes| ==> NotAbove(classes[i].score, c.score)
    ensures TotalsAt(classes + [c], c.score) ==
            Totals(c.score, CountClasses(classes + [c], -1, PlusInfinity), CountClasses(classes + [c], 1, PlusInfinity),
                   CountClasses(classes + [c], 2, PlusInfinity))
  {
    hide CountClasses, NotAbove;
    forall i | 0 <= i < |classes + [c]|
      ensures NotAbove((classes + [c])[i].score, c.score) && NotAbove((classes + [c])[i].score, PlusInfinity) {
      NothingAbove((classes + [c])[i].score);
      EqualOrBelow(c.score, c.score);
    }
    AllNotAbove(classes + [c], -1, c.score, PlusInfinity);
    AllNotAbove(classes + [c], 1, c.score, PlusInfinity);
    AllNotAbove(classes + [c], 2, c.score, PlusInfinity);
  }

  lemma NothingAbove(x: Number)
    ensures NotAbove(x, PlusInfinity)
  {
  }

  /** The loop that fills `agg`. */
  method Aggregate(classes: seq<Class>) returns (agg: seq<Totals>)
    requires ClassesSorted(classes)
    ensures Agrees(agg, classes)
  {
    hide ClassesSorted, Agrees, NotAbove, CountClasses, TotalsAt;
    agg := [];
    var countA: nat, countB: nat, countEither: nat := 0, 0, 0;
    NothingAgrees();
    assert classes[..0] == [];
    for n := 0 to |classes|
      invariant Agrees(agg, classes[..n])
      invariant countA == CountClasses(classes[..n], -1, PlusInfinity)
                && countB == CountClasses(classes[..n], 1, PlusInfinity)
      invariant countEither == CountClasses(classes[..n], 2, PlusInfinity)
    {
      var c := classes[n];
      SortedClassPush(classes, n);
      NothingAbove(c.score);
      CountClassesPush(classes[..n], c, -1, PlusInfinity);
      CountClassesPush(classes[..n], c, 1, PlusInfinity);
      CountClassesPush(classes[..n], c, 2, PlusInfinity);
      RunningCounts(classes[..n], c);
      LastAgrees(agg, classes[..n]);
      if c.side >= 0 {
        countA := countA + 1;
      }
      if c.side <= 0 {
        countB := countB + 1;
      }
      countEither := countEither + 1;
      if agg != [] && agg[|agg| - 1].score == c.score {
        ghost var init, last := agg[..|agg| - 1], agg[|agg| - 1];
        assert agg == init + [last];
        AgreesSame(init, last, classes[..n], c);
        agg := agg[|agg| - 1 := Totals(c.score, countA, countB, countEither)];
        assert agg == init + [Totals(c.score, countA, countB, countEither)];
      } else {
        AgreesNew(agg, classes[..n], c);
        agg := agg + [Totals(c.score, countA, countB, countEither)];
      }
    }
    assert classes[..|classes|] == classes;
  }

  lemma NothingAgrees()
    ensures Agrees([], [])
    ensures forall side, score :: CountClasses([], side, score) == 0
  {
  }

  lemma LastAgrees(agg: seq<Totals>, classes: seq<Class>)
    requires Agrees(agg, classes)
    ensures agg != [] ==> classes != [] && agg[|agg| - 1].score == classes[|classes| - 1].score
  {
    hide TotalsAt, ClassScore;
  }

  /** The counts of `ProcessSeries`: for every score that a key in A or B has, in increasing order, how
      many keys with no higher score are in A, in B, and in either. */
  method CountByScore(offsetsA: seq<Entry>, offsetsB: seq<Entry>, keys: seq<Entry>) returns (agg: seq<Totals>)
    requires Sorted(offsetsA) && Sorted(offsetsB) && Sorted(keys)
    ensures forall i, j :: 0 <= i < j < |agg| ==> agg[i].score.Below(agg[j].score)
    ensures forall i :: 0 <= i < |agg| ==>
              var s := agg[i].score;
              agg[i] == Totals(s, CountIn(keys, offsetsA, s), CountIn(keys, offsetsB, s),
                CountIn(keys, offsetsA + offsetsB, s))
    ensures forall s: Number :: (exists i :: 0 <= i < |agg| && agg[i].score == s) <==>
            KeyScore(keys, offsetsA + offsetsB, s)
  {
    hide Sorted, CountIn, CountClasses, ClassScore, KeyScore, SortClasses, ClassesSorted;
    var classes := Classify(offsetsA, offsetsB, keys);
    SortSorts(classes);
    forall score: Number, side: int
      ensures CountClasses(SortClasses(classes), side, score) == CountClasses(classes, side, score) {
      SortKeeps(classes, side, score);
    }
    forall score: Number ensures ClassScore(SortClasses(classes), score) <==> ClassScore(classes, score) {
      SortKeeps(classes, 0, score);
    }
    classes := SortClasses(classes);
    agg := Aggregate(classes);
  }

  // ---------- What is counted ----------

  /** The order of the reals, between the two infinities. */
  ghost predicate AtMost(x: Number, y: Number) {
    x.MinusInfinity? || y.PlusInfinity? || (x.Finite? && y.Finite? && x.r <= y.r)
  }

  lemma NotAboveMeaning(x: Number, y: Number)
    ensures NotAbove(x, y) <==> AtMost(x, y)
    ensures !y.Below(x) <==> AtMost(x, y)
  {
  }

  /** The offsets that `CountRange` counts: those of the keys with a score from `low` to `high`. */
  lemma InRangeMeaning(keys: seq<Entry>, low: Number, high: Number, list: seq<Entry>, x: nat)
    ensures x in Among(InRangeOffsets(keys, low, high), list) <==>
            && (exists i :: 0 <= i < |keys| && keys[i].offset == x && AtMost(low, keys[i].score)
                            && AtMost(keys[i].score, high))
            && exists j :: 0 <= j < |list| && list[j].offset == x
  {
    hide Number.Below, AtMost;
    forall i | 0 <= i < |keys|
      ensures InRange(keys[i].score, low, high) <==> AtMost(low, keys[i].score) && AtMost(keys[i].score, high) {
      NotAboveMeaning(low, keys[i].score);
      NotAboveMeaning(keys[i].score, high);
    }
  }

  ghost predicate IsUpTo(e: Entry, list: seq<Entry>, score: Number) {
    AtMost(e.score, score) && exists j :: 0 <= j < |list| && list[j].offset == e.offset
  }

  /** The keys that `CountByScore` counts for a score. */
  ghost function KeysUpTo(keys: seq<Entry>, list: seq<Entry>, score: Number): set<nat> {
    set i | 0 <= i < |keys| && IsUpTo(keys[i], list, score)
  }

  lemma KeysUpToPush(keys: seq<Entry>, n: nat, list: seq<Entry>, score: Number)
    requires n + 1 == |keys|
    ensures n !in KeysUpTo(keys[..n], list, score)
    ensures KeysUpTo(keys, list, score) ==
            KeysUpTo(keys[..n], list, score) + if IsUpTo(keys[n], list, score) then {n} else {}
  {
    hide IsUpTo;
  }

  lemma IsCounted(e: Entry, list: seq<Entry>, score: Number)
    ensures HasOffset(list, e.offset) && NotAbove(e.score, score) <==> IsUpTo(e, list, score)
  {
    hide NotAbove, AtMost;
    NotAboveMeaning(e.score, score);
  }

  lemma {:induction false} CountInMeaning(keys: seq<Entry>, list: seq<Entry>, score: Number)
    ensures CountIn(keys, list, score) == |KeysUpTo(keys, list, score)|
  {
    hide NotAbove, HasOffset, KeysUpTo, IsUpTo;
    if keys == [] {
      NoKeyUpTo(list, score);
    } else {
      var n := |keys| - 1;
      CountInMeaning(keys[..n], list, score);
      KeysUpToPush(keys, n, list, score);
      IsCounted(keys[n], list, score);
    }
  }

  lemma NoKeyUpTo(list: seq<Entry>, score: Number)
    ensures KeysUpTo([], list, score) == {}
  {
  }
}

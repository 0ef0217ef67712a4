/** Dropping the entries that were not known before the matching event: the filter over three lists. */
module Timestamps {
  import opened OffsetLists
  import opened ListOps
  import opened Correlate

  /** `later - earlier`, for an earlier score below the later one. */
  function Difference(later: Number, earlier: Number): Number {
    if later.PlusInfinity? || earlier.MinusInfinity? then PlusInfinity
    else if later.Finite? && earlier.Finite? then Finite(later.r - earlier.r)
    else MinusInfinity
  }

  function Least(run: seq<Entry>): Number
    requires run != []
  {
    var n := |run| - 1;
    if n == 0 then run[0].score
    else
      var least := Least(run[..n]);
      if run[n].score.Below(least) then run[n].score else least
  }

  /** The least score is one of the run, and no score of the run is below it. */
  lemma {:induction false} LeastIsLeast(run: seq<Entry>)
    requires run != []
    ensures exists i :: 0 <= i < |run| && run[i].score == Least(run)
    ensures forall i :: 0 <= i < |run| ==> !run[i].score.Below(Least(run))
  {
    var n := |run| - 1;
    assert n == 0 || run[n].score.Below(Least(run[..n])) ==> run[n].score == Least(run);
    if n > 0 {
      LeastIsLeast(run[..n]);
      var i :| 0 <= i < n && run[..n][i].score == Least(run[..n]);
      assert run[i].score == Least(run[..n]);
      assert forall k :: 0 <= k < n ==> !run[..n][k].score.Below(Least(run[..n]));
    }
  }

  /** The entry stays, with the time up to the first event, when it came before all events. */
  function Earlier(e: Entry, events: seq<Entry>): seq<Entry>
    requires events != []
  {
    if e.score.Below(Least(events)) then [e.(score := Difference(Least(events), e.score))] else []
  }

  /** What becomes of a run of keys: its first entry is measured against A's events, or against B's;
      keys in neither set are dropped. */
  function TimedRun(keys: seq<Entry>, a: seq<Entry>, b: seq<Entry>): seq<Entry> {
    if keys == [] then []
    else if a != [] then Earlier(keys[0], a)
    else if b != [] then Earlier(keys[0], b)
    else []
  }

  /** With the earliest of the events at place `m`: the first key stays exactly when its time is before all
      of them, and is left with the time in between. */
  lemma TimedMeaning(keys: seq<Entry>, events: seq<Entry>, others: seq<Entry>, m: nat)
    requires keys != [] && m < |events| && forall i :: 0 <= i < |events| ==> !events[i].score.Below(events[m].score)
    ensures TimedRun(keys, events, others) == TimedRun(keys, [], events)
    ensures TimedRun(keys, [], []) == [] && TimedRun([], events, others) == []
    ensures keys[0].score.Finite? && events[m].score.Finite? ==>
              TimedRun(keys, events, others) ==
              if keys[0].score.r >= events[m].score.r then []
              else [Entry(keys[0].offset, Finite(events[m].score.r - keys[0].score.r), keys[0].pct)]
    ensures keys[0].score.PlusInfinity? || events[m].score.MinusInfinity? ==> TimedRun(keys, events, others) == []
    ensures (keys[0].score.MinusInfinity? && !events[m].score.MinusInfinity?)
            || (!keys[0].score.PlusInfinity? && events[m].score.PlusInfinity?) ==>
              TimedRun(keys, events, others) == [Entry(keys[0].offset, PlusInfinity, keys[0].pct)]
  {
    hide Least;
    LeastAt(events, m);
  }

  lemma LeastAt(events: seq<Entry>, m: nat)
    requires m < |events| && forall i :: 0 <= i < |events| ==> !events[i].score.Below(events[m].score)
    ensures Least(events) == events[m].score
  {
    hide Least;
    LeastIsLeast(events);
    var i :| 0 <= i < |events| && events[i].score == Least(events);
    assert !events[i].score.Below(events[m].score) && !events[m].score.Below(Least(events));
  }

  /** No offset is in both lists. */
  ghost predicate Disjoint(a: seq<Entry>, b: seq<Entry>) {
    forall x: nat :: Run(a, x) == [] || Run(b, x) == []
  }

  /** Removing A's offsets from B makes the two disjoint, as `ca_schema_query_correlate` does first. */
  lemma SubtractionMakesDisjoint(a: seq<Entry>, b: seq<Entry>, rest: seq<Entry>)
    requires forall x: nat :: Run(rest, x) == if Run(a, x) == [] then Run(b, x) else []
    ensures Disjoint(a, rest)
  {
    hide Run;
  }

  /** The entries from `lo` to `hi` are the whole run. */
  lemma {:induction false} RunIsSlice(s: seq<Entry>, lo: nat, hi: nat, x: nat)
    requires lo <= hi <= |s| && Before(s, lo, x) && (forall i :: lo <= i < hi ==> s[i].offset == x)
    requires NotBefore(s, hi, x + 1)
    ensures Run(s, x) == s[lo..hi]
  {
    hide Run;
    Unfold(s, x);
    if s == [] {
    } else if lo > 0 {
      RunIsSlice(s[1..], lo - 1, hi - 1, x);
      assert s[1..][lo - 1..hi - 1] == s[lo..hi];
      NothingBefore(Run(s[1..], x));
    } else if hi > 0 {
      RunIsSlice(s[1..], 0, hi - 1, x);
      assert s[0..hi] == [s[0]] + s[1..][0..hi - 1];
    } else {
      RunIsSlice(s[1..], 0, 0, x);
      NothingBefore(Run(s[1..], x));
    }
  }

  lemma NoneHere(s: seq<Entry>, at: nat, x: nat)
    requires Sorted(s) && at <= |s| && Before(s, at, x) && (at < |s| ==> s[at].offset > x)
    ensures Run(s, x) == []
  {
    RunIsSlice(s, at, at, x);
  }

  lemma HereIs(s: seq<Entry>, at: nat)
    requires at < |s| && Sorted(s) && Before(s, at, s[at].offset)
    ensures Run(s, s[at].offset) != [] && Run(s, s[at].offset)[0] == s[at]
  {
    var x := s[at].offset;
    var hi := RunEnd(s, at);
    RunIsSlice(s, at, hi, x);
    assert s[at..hi][0] == s[at];
  }

  function RunEnd(s: seq<Entry>, at: nat): (r: nat)
    requires at < |s| && Sorted(s)
    ensures at < r <= |s| && (forall i :: at <= i < r ==> s[i].offset == s[at].offset)
            && NotBefore(s, r, s[at].offset + 1)
    decreases |s| - at
  {
    if at + 1 < |s| && s[at + 1].offset == s[at].offset then RunEnd(s, at + 1) else at + 1
  }

  lemma LeastPush(run: seq<Entry>, e: Entry)
    requires run != []
    ensures Least(run + [e]) == if e.score.Below(Least(run)) then e.score else Least(run)
  {
    assert (run + [e])[..|run|] == run;
  }

  /** The least score of the run that starts at `at`, and the place behind the run. */
  method LeastOfRun(s: seq<Entry>, at: nat) returns (least: Number, next: nat)
    requires Sorted(s) && at < |s| && Before(s, at, s[at].offset)
    ensures at < next <= |s| && Before(s, next, s[at].offset + 1) && NotBefore(s, next, s[at].offset + 1)
    ensures Run(s, s[at].offset) != [] && least == Least(Run(s, s[at].offset))
  {
    hide Run, Least;
    var offset := s[at].offset;
    least, next := s[at].score, at;
    OneLeast(s[at]);
    assert s[at..at + 1] == [s[at]];
    while true
      invariant at <= next < |s| && (forall i :: at <= i <= next ==> s[i].offset == offset)
      invariant least == Least(s[at..next + 1])
      decreases |s| - next
    {
      next := next + 1;
      if next == |s| || s[next].offset != offset {
        break;
      }
      assert s[at..next + 1] == s[at..next] + [s[next]];
      LeastPush(s[at..next], s[next]);
      if s[next].score.Below(least) {
        least := s[next].score;
      }
    }
    RunIsSlice(s, at, next, offset);
  }

  lemma OneLeast(e: Entry)
    ensures Least([e]) == e.score
  {
  }

  method SkipBelow(s: seq<Entry>, at: nat, offset: nat) returns (next: nat)
    requires Sorted(s) && at < |s| && s[at].offset < offset && Before(s, at, offset)
    ensures at < next <= |s| && Before(s, next, offset) && (next == |s| || s[next].offset >= offset)
  {
    next := at + 1;
    while next != |s| && s[next].offset < offset
      invariant at < next <= |s| && Before(s, next, offset)
    {
      next := next + 1;
    }
  }

  /** Below `x` everything is decided; from `x` on nothing has been written. */
  ghost predicate DoneBelow(out: seq<Entry>, keys: seq<Entry>, a: seq<Entry>, b: seq<Entry>, x: nat) {
    && Sorted(out) && Before(out, |out|, x)
    && forall y: nat :: y < x ==> Run(out, y) == TimedRun(Run(keys, y), Run(a, y), Run(b, y))
  }

  lemma Gap(out: seq<Entry>, keys: seq<Entry>, a: seq<Entry>, b: seq<Entry>, x: nat, z: nat)
    requires DoneBelow(out, keys, a, b, x) && x <= z && forall y: nat :: x <= y < z ==> Run(keys, y) == []
    ensures DoneBelow(out, keys, a, b, z)
  {
    hide Run;
    forall y: nat | y < z ensures Run(out, y) == TimedRun(Run(keys, y), Run(a, y), Run(b, y)) {
      if x <= y {
        NoneHere(out, |out|, y);
      }
    }
  }

  lemma Decide(out: seq<Entry>, keys: seq<Entry>, a: seq<Entry>, b: seq<Entry>, x: nat, kept: seq<Entry>)
    requires DoneBelow(out, keys, a, b, x) && kept == TimedRun(Run(keys, x), Run(a, x), Run(b, x))
    requires |kept| <= 1 && (kept != [] ==> kept[0].offset == x)
    ensures DoneBelow(out + kept, keys, a, b, x + 1)
  {
    hide Run, TimedRun;
    NoneHere(out, |out|, x);
    assert [] + kept == kept;
    forall y: nat | y < x + 1 ensures Run(out + kept, y) == TimedRun(Run(keys, y), Run(a, y), Run(b, y)) {
      AtMostOneMore(out, kept, x, y);
    }
    StaysSorted(out, kept, x);
  }

  lemma AtMostOneMore(out: seq<Entry>, kept: seq<Entry>, x: nat, y: nat)
    requires |kept| <= 1 && (kept != [] ==> kept[0].offset == x)
    ensures Run(out + kept, y) == if y == x then Run(out, y) + kept else Run(out, y)
  {
    hide *;
    assert out + [] == out && Run(out, y) + [] == Run(out, y);
    if kept != [] {
      assert kept == [kept[0]];
      Push(out, kept[0], y);
    }
  }

  lemma StaysSorted(out: seq<Entry>, kept: seq<Entry>, x: nat)
    requires Sorted(out) && Before(out, |out|, x)
    requires |kept| <= 1 && (kept != [] ==> kept[0].offset == x)
    ensures Sorted(out + kept) && Before(out + kept, |out + kept|, x + 1)
  {
  }

  /** The next key's run is the next thing to decide. */
  lemma NextKey(keys: seq<Entry>, i: nat, x: nat)
    requires Sorted(keys) && i <= |keys| && Before(keys, i, x) && NotBefore(keys, i, x)
    ensures forall y: nat :: x <= y && (i < |keys| ==> y < keys[i].offset) ==> Run(keys, y) == []
  {
    forall y: nat | x <= y && (i < |keys| ==> y < keys[i].offset) ensures Run(keys, y) == [] {
      RunIsSlice(keys, i, i, y);
    }
  }

  /** Entries that are written stay below the next key, and far enough down. */
  method Keep(keys: array<Entry>, output: nat, i: nat, least: Number, ghost was: seq<Entry>, ghost events: seq<Entry>)
    returns (next: nat)
    requires output <= i < keys.Length == |was| && keys[i..] == was[i..]
    requires events != [] && least == Least(events)
    modifies keys
    ensures output <= next <= i + 1 && keys[i + 1..] == was[i + 1..]
    ensures keys[..next] == old(keys[..output]) + Earlier(was[i], events)
  {
    Unread(keys[..], was, i);
    ghost var written := keys[..output];
    next := output;
    if keys[i].score.Below(least) {
      var e := keys[i];
      keys[output] := e;
      keys[output] := keys[output].(score := Difference(least, e.score));
      next := output + 1;
      assert keys[..next] == written + [was[i].(score := Difference(least, was[i].score))];
    } else {
      assert written + [] == written;
    }
  }

  lemma StillUnread(now: seq<Entry>, was: seq<Entry>, i: nat, j: nat)
    requires i <= j <= |now| == |was| && now[i..] == was[i..]
    ensures now[j..] == was[j..]
    ensures j < |now| ==> now[j] == was[j]
  {
    assert now[j..] == now[i..][j - i..] && was[j..] == was[i..][j - i..];
    assert j < |now| ==> now[j] == now[i..][j - i] && was[j] == was[i..][j - i];
  }

  /** The offset of the next key is the next one to decide. */
  lemma Reach(out: seq<Entry>, keys: seq<Entry>, a: seq<Entry>, b: seq<Entry>, i: nat, x: nat)
    requires Sorted(keys) && i < |keys| && Before(keys, i, x) && NotBefore(keys, i, x) && DoneBelow(out, keys, a, b, x)
    ensures DoneBelow(out, keys, a, b, keys[i].offset) && Before(keys, i, keys[i].offset)
    ensures Run(keys, keys[i].offset) != [] && Run(keys, keys[i].offset)[0] == keys[i]
  {
    hide *;
    NextKey(keys, i, x);
    AtNextKey(keys, i, x);
    Gap(out, keys, a, b, x, keys[i].offset);
    HereIs(keys, i);
  }

  /** Steps over all keys with the offset of the first one. */
  method SkipRun(keys: array<Entry>, first: nat, offset: nat, ghost was: seq<Entry>) returns (i: nat)
    requires Sorted(was) && first < keys.Length == |was| && keys[first + 1..] == was[first + 1..]
    requires offset == was[first].offset
    ensures first < i <= keys.Length && keys[i..] == was[i..]
    ensures Before(was, i, was[first].offset + 1) && NotBefore(was, i, was[first].offset + 1)
    ensures i < keys.Length ==> was[i].offset > was[first].offset
  {
    hide *;
    i := first + 1;
    while i != keys.Length && keys[i].offset == offset
      invariant first < i <= keys.Length
      invariant forall k :: first <= k < i ==> was[k].offset == offset
    {
      StillUnread(keys[..], was, first + 1, i);
      i := i + 1;
    }
    StillUnread(keys[..], was, first + 1, i);
    BehindRun(was, first, i, offset);
  }

  /** `FilterByTimestamp` over three lists. */
  method FilterByTimestamp(keys: array<Entry>, offsetsA: seq<Entry>, offsetsB: seq<Entry>) returns (size: nat)
    requires Sorted(keys[..]) && Sorted(offsetsA) && Sorted(offsetsB) && Disjoint(offsetsA, offsetsB)
    modifies keys
    ensures size <= keys.Length && Sorted(keys[..size])
    ensures forall x: nat :: Run(keys[..size], x) == TimedRun(Run(old(keys[..]), x), Run(offsetsA, x), Run(offsetsB, x))
  {
    hide *;
    ghost var was := keys[..];
    var output, i, a, b := 0, 0, 0, 0;
    ghost var x: nat := 0;
    NothingDone(was, offsetsA, offsetsB);
    assert keys[..0] == [];
    while i != keys.Length
      invariant output <= i <= keys.Length && a <= |offsetsA| && b <= |offsetsB| && keys[i..] == was[i..]
      invariant Before(was, i, x) && NotBefore(was, i, x)
      invariant i < keys.Length ==> Before(offsetsA, a, was[i].offset) && Before(offsetsB, b, was[i].offset)
      invariant DoneBelow(keys[..output], was, offsetsA, offsetsB, x)
      decreases keys.Length - i, |offsetsA| - a + |offsetsB| - b
    {
      Unread(keys[..], was, i);
      var offset := keys[i].offset;
      ghost var out := keys[..output];
      Reach(out, was, offsetsA, offsetsB, i, x);
      var aOk, bOk := a != |offsetsA|, b != |offsetsB|;
      ghost var kept: seq<Entry> := [];
      if aOk && offset == offsetsA[a].offset {
        var least;
        HereIs(offsetsA, a);
        least, a := LeastOfRun(offsetsA, a);
        output := Keep(keys, output, i, least, was, Run(offsetsA, offset));
        kept := Earlier(was[i], Run(offsetsA, offset));
        AtMostOne(was[i], Run(offsetsA, offset));
        AgainstA(was, offsetsA, offsetsB, offset);
      } else if bOk && offset == offsetsB[b].offset {
        var least;
        HereIs(offsetsB, b);
        least, b := LeastOfRun(offsetsB, b);
        output := Keep(keys, output, i, least, was, Run(offsetsB, offset));
        kept := Earlier(was[i], Run(offsetsB, offset));
        AtMostOne(was[i], Run(offsetsB, offset));
        AgainstB(was, offsetsA, offsetsB, offset);
      } else if aOk && offsetsA[a].offset < offset {
        a := SkipBelow(offsetsA, a, offset);
        continue;
      } else if bOk && offsetsB[b].offset < offset {
        b := SkipBelow(offsetsB, b, offset);
        continue;
      } else {
        NoneHere(offsetsA, a, offset);
        NoneHere(offsetsB, b, offset);
        InNeither(was, offsetsA, offsetsB, offset);
        assert out + [] == out;
      }
      Decide(out, was, offsetsA, offsetsB, offset, kept);
      i := SkipRun(keys, i, offset, was);
      x := offset + 1;
      if i < keys.Length {
        Further(offsetsA, a, offset, was[i].offset);
        Further(offsetsB, b, offset, was[i].offset);
      }
    }
    size := output;
    AllDone(keys[..size], was, offsetsA, offsetsB, x);
  }

  lemma AtMostOne(e: Entry, events: seq<Entry>)
    requires events != []
    ensures |Earlier(e, events)| <= 1 && (Earlier(e, events) != [] ==> Earlier(e, events)[0].offset == e.offset)
  {
  }

  lemma NothingDone(keys: seq<Entry>, a: seq<Entry>, b: seq<Entry>)
    ensures DoneBelow([], keys, a, b, 0) && Before(keys, 0, 0) && NotBefore(keys, 0, 0)
    ensures forall x: nat :: Before(a, 0, x) && Before(b, 0, x)
  {
  }

  lemma AtNextKey(keys: seq<Entry>, i: nat, x: nat)
    requires Sorted(keys) && i < |keys| && Before(keys, i, x) && NotBefore(keys, i, x)
    ensures x <= keys[i].offset && Before(keys, i, keys[i].offset)
  {
  }

  lemma AgainstA(keys: seq<Entry>, a: seq<Entry>, b: seq<Entry>, x: nat)
    requires Run(keys, x) != [] && Run(a, x) != []
    ensures TimedRun(Run(keys, x), Run(a, x), Run(b, x)) == Earlier(Run(keys, x)[0], Run(a, x))
  {
  }

  lemma AgainstB(keys: seq<Entry>, a: seq<Entry>, b: seq<Entry>, x: nat)
    requires Run(keys, x) != [] && Run(b, x) != [] && Disjoint(a, b)
    ensures TimedRun(Run(keys, x), Run(a, x), Run(b, x)) == Earlier(Run(keys, x)[0], Run(b, x))
  {
    hide Run;
  }

  lemma InNeither(keys: seq<Entry>, a: seq<Entry>, b: seq<Entry>, x: nat)
    requires Run(a, x) == [] && Run(b, x) == []
    ensures TimedRun(Run(keys, x), Run(a, x), Run(b, x)) == []
  {
  }

  lemma BehindRun(keys: seq<Entry>, first: nat, i: nat, offset: nat)
    requires Sorted(keys) && first < i <= |keys| && keys[first].offset == offset
    requires forall k :: first <= k < i ==> keys[k].offset == offset
    requires i < |keys| ==> keys[i].offset != offset
    ensures Before(keys, i, offset + 1) && NotBefore(keys, i, offset + 1)
    ensures i < |keys| ==> keys[i].offset > offset
  {
  }

  lemma Further(s: seq<Entry>, at: nat, offset: nat, next: nat)
    requires at <= |s| && offset < next
    ensures Before(s, at, offset + 1) ==> Before(s, at, next)
    ensures Before(s, at, offset) ==> Before(s, at, next)
  {
  }

  lemma AllDone(out: seq<Entry>, keys: seq<Entry>, a: seq<Entry>, b: seq<Entry>, x: nat)
    requires DoneBelow(out, keys, a, b, x) && Before(keys, |keys|, x) && Sorted(keys)
    ensures Sorted(out) && forall y: nat :: Run(out, y) == TimedRun(Run(keys, y), Run(a, y), Run(b, y))
  {
    hide Run;
    forall y: nat ensures Run(out, y) == TimedRun(Run(keys, y), Run(a, y), Run(b, y)) {
      if y >= x {
        NoneHere(out, |out|, y);
        NoneHere(keys, |keys|, y);
      }
    }
  }
}

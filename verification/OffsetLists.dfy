/** Lists of offsets with scores, sorted by offset, possibly with several entries for one offset. A list
    is described by its runs: the entries of each offset, in their order. */
module OffsetLists {

  /** A score as a number; floats that are not a number are not part of this model. */
  datatype Number = MinusInfinity | Finite(r: real) | PlusInfinity {
    predicate Below(other: Number) {
      match this
      case MinusInfinity => other != MinusInfinity
      case Finite(r) => other.PlusInfinity? || (other.Finite? && r < other.r)
      case PlusInfinity => false
    }

    function Negated(): Number {
      match this
      case MinusInfinity => PlusInfinity
      case Finite(r) => Finite(-r)
      case PlusInfinity => MinusInfinity
    }
  }

  /** The order of numbers is that of the reals, between the two infinities. */
  lemma BelowMeaning(a: Number, b: Number)
    ensures a.Finite? && b.Finite? ==> (a.Below(b) <==> a.r < b.r)
    ensures a.MinusInfinity? ==> (a.Below(b) <==> !b.MinusInfinity?)
    ensures b.PlusInfinity? ==> (a.Below(b) <==> !a.PlusInfinity?)
    ensures a.PlusInfinity? || b.MinusInfinity? ==> !a.Below(b)
  {
  }

  lemma NegatedMeaning(a: Number)
    ensures a.Finite? ==> a.Negated() == Finite(0.0 - a.r)
    ensures a.MinusInfinity? <==> a.Negated().PlusInfinity?
    ensures a.PlusInfinity? <==> a.Negated().MinusInfinity?
  {
  }

  /** Percentiles are only carried along. */
  datatype Entry = Entry(offset: nat, score: Number, pct: seq<Number>)

  predicate Sorted(s: seq<Entry>) {
    forall i, j :: 0 <= i < j < |s| ==> s[i].offset <= s[j].offset
  }

  predicate AtLeast(s: seq<Entry>, low: nat) {
    forall i :: 0 <= i < |s| ==> s[i].offset >= low
  }

  /** The entries for one offset. */
  function Run(s: seq<Entry>, x: nat): (r: seq<Entry>)
    ensures |r| <= |s|
  {
    if s == [] then [] else if s[0].offset == x then [s[0]] + Run(s[1..], x) else Run(s[1..], x)
  }

  lemma Unfold(s: seq<Entry>, x: nat)
    ensures Run([], x) == []
    ensures s != [] ==> Run(s, x) == (if s[0].offset == x then [s[0]] else []) + Run(s[1..], x)
  {
    if s != [] {
      assert [] + Run(s[1..], x) == Run(s[1..], x);
    }
  }

  lemma Cons(e: Entry, s: seq<Entry>, x: nat)
    ensures Run([e] + s, x) == (if e.offset == x then [e] else []) + Run(s, x)
  {
    hide Run;
    assert ([e] + s)[1..] == s;
    Unfold([e] + s, x);
  }

  lemma {:induction false} Append(a: seq<Entry>, b: seq<Entry>, x: nat)
    ensures Run(a + b, x) == Run(a, x) + Run(b, x)
  {
    hide Run;
    Unfold(a, x);
    if a == [] {
      assert a + b == b && [] + Run(b, x) == Run(b, x);
    } else {
      assert a + b == [a[0]] + (a[1..] + b);
      Cons(a[0], a[1..] + b, x);
      Append(a[1..], b, x);
    }
  }

  lemma Push(s: seq<Entry>, e: Entry, x: nat)
    ensures Run(s + [e], x) == Run(s, x) + if e.offset == x then [e] else []
  {
    hide Run;
    Append(s, [e], x);
    Cons(e, [], x);
    Unfold([], x);
    assert [e] + [] == [e];
  }

  lemma Tail(s: seq<Entry>)
    requires s != [] && Sorted(s)
    ensures Sorted(s[1..]) && AtLeast(s[1..], s[0].offset) && AtLeast(s, s[0].offset)
  {
  }

  lemma Prepend(e: Entry, s: seq<Entry>, low: nat)
    requires Sorted(s) && AtLeast(s, e.offset) && low <= e.offset
    ensures Sorted([e] + s) && AtLeast([e] + s, low)
  {
  }

  lemma Weaken(s: seq<Entry>, high: nat, low: nat)
    requires AtLeast(s, high) && low <= high
    ensures AtLeast(s, low)
  {
  }

  lemma AtLeastTail(s: seq<Entry>, low: nat)
    requires s != [] && AtLeast(s, low)
    ensures AtLeast(s[1..], low) && s[0].offset >= low
  {
  }

  lemma {:induction false} NoRunBelow(s: seq<Entry>, x: nat)
    requires AtLeast(s, x + 1)
    ensures Run(s, x) == []
  {
    hide Run, AtLeast;
    Unfold(s, x);
    if s != [] {
      AtLeastTail(s, x + 1);
      NoRunBelow(s[1..], x);
    }
  }

  /** Below the first offset of a sorted list there is nothing. */
  lemma NoRunBeforeHead(s: seq<Entry>, x: nat)
    requires Sorted(s) && (s != [] ==> x < s[0].offset)
    ensures Run(s, x) == []
  {
    hide Run;
    NoRunBelow(s, x);
  }

  /** The head of a sorted list is the head of its run. */
  lemma HeadOfRun(s: seq<Entry>)
    requires s != []
    ensures Run(s, s[0].offset) != [] && Run(s, s[0].offset)[0] == s[0]
  {
  }

  /** A sorted list is determined by its runs. */
  lemma {:induction false} RunsDetermine(a: seq<Entry>, b: seq<Entry>)
    requires Sorted(a) && Sorted(b) && forall x: nat :: Run(a, x) == Run(b, x)
    ensures a == b
  {
    hide Run;
    if a == [] || b == [] {
      if a != [] {
        HeadOfRun(a);
        Unfold([], a[0].offset);
      }
      if b != [] {
        HeadOfRun(b);
        Unfold([], b[0].offset);
      }
    } else {
      SameHead(a, b);
      Tail(a);
      Tail(b);
      forall x: nat ensures Run(a[1..], x) == Run(b[1..], x) {
        Unfold(a, x);
        Unfold(b, x);
        SameTail([a[0]], Run(a[1..], x), Run(b[1..], x));
        assert [] + Run(a[1..], x) == Run(a[1..], x) && [] + Run(b[1..], x) == Run(b[1..], x);
      }
      RunsDetermine(a[1..], b[1..]);
      assert a == [a[0]] + a[1..] && b == [b[0]] + b[1..];
    }
  }

  lemma SameTail<T>(p: seq<T>, a: seq<T>, b: seq<T>)
    ensures p + a == p + b ==> a == b
  {
    assert (p + a)[|p|..] == a && (p + b)[|p|..] == b;
  }

  lemma SameHead(a: seq<Entry>, b: seq<Entry>)
    requires a != [] && b != [] && Sorted(a) && Sorted(b) && forall x: nat :: Run(a, x) == Run(b, x)
    ensures a[0] == b[0]
  {
    hide Run;
    HeadOfRun(a);
    HeadOfRun(b);
    if a[0].offset < b[0].offset {
      NoRunBeforeHead(b, a[0].offset);
    } else if b[0].offset < a[0].offset {
      NoRunBeforeHead(a, b[0].offset);
    }
  }

  predicate HasOffset(s: seq<Entry>, x: nat) {
    exists i :: 0 <= i < |s| && s[i].offset == x
  }

  lemma {:induction false} RunMembers(s: seq<Entry>, x: nat)
    ensures Run(s, x) != [] <==> HasOffset(s, x)
    ensures forall e :: e in Run(s, x) <==> e in s && e.offset == x
  {
    hide Run, HasOffset;
    Unfold(s, x);
    HasOffsetTail(s, x);
    if s != [] {
      RunMembers(s[1..], x);
      assert s == [s[0]] + s[1..];
    }
  }

  lemma HasRun(s: seq<Entry>, x: nat)
    ensures Run(s, x) != [] <==> HasOffset(s, x)
  {
    RunMembers(s, x);
  }

  lemma EitherHas(a: seq<Entry>, b: seq<Entry>, x: nat)
    ensures HasOffset(a + b, x) <==> HasOffset(a, x) || HasOffset(b, x)
  {
    var s := a + b;
    if HasOffset(a, x) {
      var i :| 0 <= i < |a| && a[i].offset == x;
      assert s[i].offset == x;
    }
    if HasOffset(b, x) {
      var i :| 0 <= i < |b| && b[i].offset == x;
      assert s[|a| + i].offset == x;
    }
    if HasOffset(s, x) {
      var i :| 0 <= i < |s| && s[i].offset == x;
      if i < |a| {
        assert a[i].offset == x;
      } else {
        assert b[i - |a|].offset == x;
      }
    }
  }

  lemma HasOffsetTail(s: seq<Entry>, x: nat)
    ensures s == [] ==> !HasOffset(s, x)
    ensures s != [] ==> (HasOffset(s, x) <==> s[0].offset == x || HasOffset(s[1..], x))
  {
    if s != [] {
      if HasOffset(s[1..], x) {
        var i :| 0 <= i < |s[1..]| && s[1..][i].offset == x;
        assert s[i + 1].offset == x;
      }
      if HasOffset(s, x) && s[0].offset != x {
        var i :| 0 <= i < |s| && s[i].offset == x;
        assert s[1..][i - 1].offset == x;
      }
    }
  }
}

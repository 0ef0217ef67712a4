/** Byte strings, their unsigned lexicographic order, and the concatenation of lists of strings. */
module Bytes {

  type Byte = x: int | 0 <= x < 256

  type Bytes = seq<Byte>

  /** `std::lexicographical_compare` on unsigned bytes, which is also `string_view::operator<`. */
  predicate Less(a: Bytes, b: Bytes) {
    if b == [] then false
    else if a == [] then true
    else if a[0] != b[0] then a[0] < b[0]
    else Less(a[1..], b[1..])
  }

  predicate Leq(a: Bytes, b: Bytes) {
    !Less(b, a)
  }

  lemma {:induction false} LessTrichotomy(a: Bytes, b: Bytes)
    ensures !(Less(a, b) && Less(b, a))
    ensures a == b <==> !Less(a, b) && !Less(b, a)
  {
    if a != [] && b != [] && a[0] == b[0] {
      LessTrichotomy(a[1..], b[1..]);
      assert a == [a[0]] + a[1..] && b == [b[0]] + b[1..];
    }
  }

  lemma {:induction false} LessTransitive(a: Bytes, b: Bytes, c: Bytes)
    requires Less(a, b) && Less(b, c)
    ensures Less(a, c)
  {
    if a != [] && a[0] == b[0] && b[0] == c[0] {
      LessTransitive(a[1..], b[1..], c[1..]);
    }
  }

  lemma LeqTransitive(a: Bytes, b: Bytes, c: Bytes)
    requires Leq(a, b) && Leq(b, c)
    ensures Leq(a, c)
    ensures Less(a, b) || Less(b, c) ==> Less(a, c)
  {
    LessTrichotomy(a, b);
    LessTrichotomy(b, c);
    LessTrichotomy(a, c);
    if Less(a, b) && Less(b, c) {
      LessTransitive(a, b, c);
    }
  }

  /** The first place where the strings differ is before the end of `b`, and there `a` ends or has the lower byte. */
  ghost predicate Precedes(a: Bytes, b: Bytes) {
    exists n :: 0 <= n <= |a| && n < |b| && a[..n] == b[..n] && (n < |a| ==> a[n] < b[n])
  }

  /** The order without its recursion. */
  lemma {:induction false} LessMeaning(a: Bytes, b: Bytes)
    ensures Less(a, b) <==> Precedes(a, b)
    ensures Leq(a, b) <==> a == b || Precedes(a, b)
  {
    LessTrichotomy(a, b);
    if a != [] && b != [] && a[0] == b[0] {
      LessMeaning(a[1..], b[1..]);
      if Precedes(a[1..], b[1..]) {
        var n :| 0 <= n <= |a[1..]| && n < |b[1..]| && a[1..][..n] == b[1..][..n]
          && (n < |a[1..]| ==> a[1..][n] < b[1..][n]);
        assert a[..n + 1] == [a[0]] + a[1..][..n] && b[..n + 1] == [b[0]] + b[1..][..n];
      }
      if Precedes(a, b) {
        var n :| 0 <= n <= |a| && n < |b| && a[..n] == b[..n] && (n < |a| ==> a[n] < b[n]);
        assert a[1..][..n - 1] == a[..n][1..] && b[1..][..n - 1] == b[..n][1..];
      }
    } else if a != [] && b != [] {
      FirstByteDecides(a, b);
    } else if b != [] {
      assert a[..0] == b[..0];
    }
  }

  lemma FirstByteDecides(a: Bytes, b: Bytes)
    requires a != [] && b != [] && a[0] != b[0]
    ensures Precedes(a, b) <==> a[0] < b[0]
  {
    assert a[..0] == b[..0];
    forall n | 0 < n <= |a| && n < |b| ensures a[..n] != b[..n] {
      assert a[..n][0] != b[..n][0];
    }
  }

  /** "a" comes before "b", and a string before its continuations. */
  lemma OrderExample()
    ensures Less([97], [98]) && !Less([98], [97])
    ensures Less([97], [97, 0]) && Less([97, 255], [98])
  {
  }

  predicate IsPrefix(p: Bytes, s: Bytes) {
    |p| <= |s| && s[..|p|] == p
  }

  /** A proper prefix comes before the string that it starts. */
  lemma {:induction false} PrefixIsLeq(p: Bytes, s: Bytes)
    requires IsPrefix(p, s)
    ensures Leq(p, s)
  {
    if p != [] {
      assert p[0] == s[..|p|][0] && p[1..] == s[1..][..|p| - 1];
      PrefixIsLeq(p[1..], s[1..]);
    }
  }

  /** The strings that start with `p` are an interval of the order. */
  lemma {:induction false} PrefixIsConvex(p: Bytes, a: Bytes, b: Bytes)
    requires Leq(p, a) && Leq(a, b) && IsPrefix(p, b)
    ensures IsPrefix(p, a)
  {
    if p != [] {
      assert b[0] == p[0] by { assert b[..|p|][0] == p[0]; }
      assert a != [] && a[0] == p[0];
      assert p[1..] == b[1..][..|p| - 1] by { assert b[..|p|][1..] == p[1..]; }
      PrefixIsConvex(p[1..], a[1..], b[1..]);
      assert a[..|p|] == [a[0]] + a[1..][..|p| - 1];
    }
  }

  lemma SliceOfSlice<T>(s: seq<T>, at: nat, end: nat, i: nat, j: nat)
    requires at <= end <= |s| && i <= j <= end - at
    ensures s[at..end][i..j] == s[at + i..at + j]
  {
    var a, b := s[at..end][i..j], s[at + i..at + j];
    assert |a| == |b| && forall k :: 0 <= k < |a| ==> a[k] == b[k];
  }

  /** `code` is what the data holds at `at`. */
  ghost predicate LiesAt(data: Bytes, at: nat, code: Bytes) {
    at + |code| <= |data| && data[at..at + |code|] == code
  }

  lemma Lies(data: Bytes, at: nat, code: Bytes)
    ensures LiesAt(data, at, code) <==> at + |code| <= |data| && data[at..at + |code|] == code
  {
  }

  lemma LiesAtSplit(data: Bytes, at: nat, a: Bytes, b: Bytes)
    ensures LiesAt(data, at, a + b) <==> LiesAt(data, at, a) && LiesAt(data, at + |a|, b)
  {
    var n := |a| + |b|;
    if LiesAt(data, at, a + b) {
      SliceOfSlice(data, at, at + n, 0, |a|);
      SliceOfSlice(data, at, at + n, |a|, n);
      assert (a + b)[0..|a|] == a && (a + b)[|a|..n] == b;
    }
    if LiesAt(data, at, a) && LiesAt(data, at + |a|, b) {
      assert data[at..at + n] == data[at..at + |a|] + data[at + |a|..at + n];
    }
  }

  lemma LiesAtByte(data: Bytes, at: nat, code: Bytes, i: nat)
    requires LiesAt(data, at, code) && i < |code|
    ensures at + i < |data| && data[at + i] == code[i]
  {
    assert data[at..at + |code|][i] == data[at + i];
  }

  lemma SliceOne<T>(s: seq<T>, i: nat)
    requires i < |s|
    ensures s[i..i + 1] == [s[i]]
  {
  }

  /** What is left of a number in a field of 32 bits. */
  function Low32(n: nat): (r: nat)
    ensures r <= n && (r == n <==> n < 0x1_0000_0000)
  {
    n % 0x1_0000_0000
  }

  function Sum(s: seq<nat>): nat {
    if s == [] then 0 else s[0] + Sum(s[1..])
  }

  lemma {:induction false} SumAppend(a: seq<nat>, b: seq<nat>)
    ensures Sum(a + b) == Sum(a) + Sum(b)
  {
    if a == [] {
      assert a + b == b;
    } else {
      SumAppend(a[1..], b);
      assert (a + b)[1..] == a[1..] + b;
    }
  }

  function Sizes(items: seq<Bytes>): (r: seq<nat>)
    ensures |r| == |items|
  {
    seq(|items|, i requires 0 <= i < |items| => |items[i]|)
  }

  /** Concatenating a list of lists. */
  function Concat<T>(parts: seq<seq<T>>): seq<T> {
    if parts == [] then [] else parts[0] + Concat(parts[1..])
  }

  lemma {:induction false} ConcatAppend<T>(a: seq<seq<T>>, b: seq<seq<T>>)
    ensures Concat(a + b) == Concat(a) + Concat(b)
  {
    if a == [] {
      assert a + b == b;
    } else {
      ConcatAppend(a[1..], b);
      assert (a + b)[1..] == a[1..] + b;
      assert Concat(a + b) == a[0] + (Concat(a[1..]) + Concat(b));
    }
  }

  lemma ConcatPush<T>(a: seq<seq<T>>, last: seq<T>)
    ensures Concat(a + [last]) == Concat(a) + last
  {
    ConcatAppend(a, [last]);
    assert Concat([last]) == last + Concat<T>([]);
  }

  /** Part `i` of a list is found in the concatenation behind the parts before it. */
  lemma ConcatAt<T>(parts: seq<seq<T>>, i: nat)
    requires i < |parts|
    ensures Concat(parts) == Concat(parts[..i]) + parts[i] + Concat(parts[i + 1..])
    ensures Concat(parts[..i + 1]) == Concat(parts[..i]) + parts[i]
    ensures |Concat(parts[..i])| + |parts[i]| <= |Concat(parts)|
    ensures Concat(parts)[|Concat(parts[..i])|..|Concat(parts[..i])| + |parts[i]|] == parts[i]
  {
    ConcatAppend(parts[..i + 1], parts[i + 1..]);
    assert parts == parts[..i + 1] + parts[i + 1..];
    ConcatPush(parts[..i], parts[i]);
    assert parts[..i + 1] == parts[..i] + [parts[i]];
  }

  lemma {:induction false} ConcatLength(items: seq<Bytes>)
    ensures |Concat(items)| == Sum(Sizes(items))
  {
    if items != [] {
      ConcatLength(items[1..]);
      assert Sizes(items)[1..] == Sizes(items[1..]);
    }
  }

  /** Cuts concatenated data back into its items, as the lazy caches of the write-once table do. */
  method Views(sizes: seq<nat>, data: Bytes, ghost items: seq<Bytes>) returns (views: seq<Bytes>)
    requires sizes == Sizes(items) && data == Concat(items)
    ensures views == items
  {
    views := [];
    var offset := 0;
    for i := 0 to |sizes|
      invariant views == items[..i]
      invariant offset == |Concat(items[..i])|
    {
      ConcatAt(items, i);
      views := views + [data[offset..offset + sizes[i]]];
      offset := offset + sizes[i];
    }
  }

  function LittleEndian(v: nat, n: nat): (r: Bytes)
    ensures |r| == n
  {
    if n == 0 then [] else [v % 0x100] + LittleEndian(v / 0x100, n - 1)
  }

  function FromLittleEndian(b: Bytes): (r: nat)
    ensures r < Power256(|b|)
  {
    if b == [] then 0 else b[0] + 0x100 * FromLittleEndian(b[1..])
  }

  function Power256(n: nat): nat {
    if n == 0 then 1 else 0x100 * Power256(n - 1)
  }

  lemma {:induction false} LittleEndianRoundTrip(v: nat, n: nat)
    requires v < Power256(n)
    ensures FromLittleEndian(LittleEndian(v, n)) == v
  {
    if n > 0 {
      assert v / 0x100 < Power256(n - 1);
      LittleEndianRoundTrip(v / 0x100, n - 1);
      assert LittleEndian(v, n)[1..] == LittleEndian(v / 0x100, n - 1);
    }
  }

  lemma FieldWidths()
    ensures Power256(1) == 0x100 && Power256(4) == 0x1_0000_0000 && Power256(8) == 0x1_0000_0000_0000_0000
  {
    assert Power256(2) == 0x1_0000 && Power256(6) == 0x1_0000_0000_0000;
  }
}

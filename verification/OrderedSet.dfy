/** Sets of numbers as increasing lists, the way an ordered container iterates over them. */
module OrderedSet {

  predicate Increasing(s: seq<nat>) {
    forall i, j :: 0 <= i < j < |s| ==> s[i] < s[j]
  }

  /** `std::set::insert`. */
  method Insert(s: seq<nat>, x: nat) returns (r: seq<nat>)
    requires Increasing(s)
    ensures Increasing(r)
    ensures forall y :: y in r <==> y == x || y in s
  {
    var i := 0;
    while i < |s| && s[i] < x
      invariant i <= |s| && forall k :: 0 <= k < i ==> s[k] < x
    {
      i := i + 1;
    }
    if i < |s| && s[i] == x {
      return s;
    }
    r := s[..i] + [x] + s[i..];
    forall y ensures y in r <==> y == x || y in s {
      assert s == s[..i] + s[i..];
    }
  }
}

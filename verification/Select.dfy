/** The join of a selection with one of its fields. */
module Select {
  import opened Table
  import O = OffsetLists
  import opened OffsetLists
  import opened ScoreOps
  import opened Correlate
  import opened Timestamps

  predicate AllZero(field: seq<Entry>) {
    forall i :: 0 <= i < |field| ==> field[i].score == Finite(0.0)
  }

  /** The value of a field at an offset: its first score there, one when the field has no scores, and
      nothing when the field does not have the offset. */
  function FieldValue(field: seq<Entry>, x: nat): Option<Number> {
    var run := Run(field, x);
    if run == [] then None else Some(if AllZero(field) then Finite(1.0) else run[0].score)
  }

  /** With the first entry of the field for an offset at place `k`. */
  lemma FieldMeaning(field: seq<Entry>, x: nat, k: nat)
    requires k < |field| && field[k].offset == x && forall i :: 0 <= i < k ==> field[i].offset != x
    ensures (exists i :: 0 <= i < |field| && field[i].score != Finite(0.0)) ==>
              FieldValue(field, x) == Some(field[k].score)
    ensures (forall i :: 0 <= i < |field| ==> field[i].score == Finite(0.0)) ==>
              FieldValue(field, x) == Some(Finite(1.0))
  {
    hide Run;
    FirstOfRun(field, x, k);
  }

  lemma {:induction false} FirstOfRun(field: seq<Entry>, x: nat, k: nat)
    requires k < |field| && field[k].offset == x && forall i :: 0 <= i < k ==> field[i].offset != x
    ensures Run(field, x) != [] && Run(field, x)[0] == field[k]
  {
    hide Run;
    Unfold(field, x);
    if k > 0 {
      FirstOfRun(field[1..], x, k - 1);
    }
  }

  lemma NoField(field: seq<Entry>, x: nat)
    requires forall i :: 0 <= i < |field| ==> field[i].offset != x
    ensures FieldValue(field, x) == None
  {
    hide Run, AllZero;
    RunMembers(field, x);
  }

  /** One pass over both lists. */
  method JoinField(selection: seq<Entry>, field: seq<Entry>) returns (values: seq<Option<Number>>)
    requires StrictlyIncreasing(selection) && O.Sorted(field)
    ensures |values| == |selection|
    ensures forall i :: 0 <= i < |selection| ==> values[i] == FieldValue(field, selection[i].offset)
  {
    hide Run, O.Sorted, Before;
    var allZero := true;
    for i := 0 to |field|
      invariant allZero && forall k :: 0 <= k < i ==> field[k].score == Finite(0.0)
    {
      if field[i].score != Finite(0.0) {
        allZero := false;
        break;
      }
    }
    assert allZero <==> AllZero(field);
    values := [];
    var vi := 0;
    NothingBelow(field);
    for i := 0 to |selection|
      invariant |values| == i && vi <= |field|
      invariant i < |selection| ==> Before(field, vi, selection[i].offset)
      invariant forall k :: 0 <= k < i ==> values[k] == FieldValue(field, selection[k].offset)
    {
      hide AllZero;
      var offset := selection[i].offset;
      if vi != |field| && field[vi].offset < offset {
        vi := SkipBelow(field, vi, offset);
      }
      if vi == |field| || field[vi].offset > offset {
        NoneHere(field, vi, offset);
        values := values + [None];
      } else {
        HereIs(field, vi);
        values := values + [Some(if allZero then Finite(1.0) else field[vi].score)];
      }
      if i + 1 < |selection| {
        Farther(field, vi, offset, selection[i + 1].offset);
      }
    }
  }

  lemma NothingBelow(field: seq<Entry>)
    ensures forall x: nat :: Before(field, 0, x)
  {
  }

  lemma Farther(field: seq<Entry>, at: nat, offset: nat, next: nat)
    requires at <= |field| && Before(field, at, offset) && offset < next
    ensures Before(field, at, next)
  {
  }
}

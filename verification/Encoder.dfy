/** The encoders of offset/score series, statement by statement, and the size of what they write. */
module Encoder {
  import opened Bytes
  import opened Table
  import opened I = Integers
  import opened Rle
  import opened Points
  import opened Decode
  import opened Format
  import opened OrderedSet

  lemma SortedPrefix(ps: seq<Point>, i: nat)
    requires i <= |ps|
    ensures SortedByOffset(ps) ==> SortedByOffset(ps[..i])
    ensures i < |ps| && i > 0 && SortedByOffset(ps) ==> ps[i - 1].offset <= ps[i].offset
    ensures i < |ps| && SortedByOffset(ps[..i]) && (i > 0 ==> ps[i - 1].offset <= ps[i].offset) ==>
            SortedByOffset(ps[..i + 1])
  {
  }

  lemma StepsPush(ps: seq<Point>, i: nat)
    requires 0 < i < |ps| && SortedByOffset(ps[..i + 1])
    ensures SortedByOffset(ps[..i]) && ps[i - 1].offset <= ps[i].offset
    ensures StepsOf(ps[..i + 1]) == StepsOf(ps[..i]) + [ps[i].offset - ps[i - 1].offset]
  {
    assert ps[..i + 1][..i] == ps[..i];
  }

  /** The step before point `i`. */
  lemma {:induction false} StepAt(ps: seq<Point>, i: nat)
    requires 0 < i < |ps| && SortedByOffset(ps)
    ensures ps[i - 1].offset <= ps[i].offset
    ensures StepsOf(ps)[i - 1] == ps[i].offset - ps[i - 1].offset
    decreases |ps|
  {
    var n := |ps| - 1;
    if i < n {
      SortedPrefix(ps, n);
      StepAt(ps[..n], i);
    }
  }

  // ---------- Steps ----------

  /** The distinct steps in increasing order; fails when an offset is below the one before it. */
  method CollectSteps(values: seq<Point>) returns (steps: Option<seq<nat>>)
    ensures steps.Some? <==> SortedByOffset(values)
    ensures steps.Some? ==> Increasing(steps.value) && forall x :: x in steps.value <==> x in StepsOf(values)
  {
    hide StepsOf;
    var found: seq<nat> := [];
    var i := 1;
    NoSteps(values);
    while i < |values|
      invariant 1 <= i && (values != [] ==> i <= |values|)
      invariant var n := if values == [] then 0 else i; SortedByOffset(values[..n])
      invariant Increasing(found)
      invariant values != [] ==> forall x :: x in found <==> x in StepsOf(values[..i])
      invariant values == [] ==> found == []
    {
      SortedPrefix(values, i);
      if values[i].offset < values[i - 1].offset {
        return None;
      }
      StepsPush(values, i);
      found := Insert(found, values[i].offset - values[i - 1].offset);
      i := i + 1;
    }
    assert values == [] ==> values[..0] == values;
    assert values != [] ==> values[..i] == values;
    steps := Some(found);
  }

  lemma NoSteps(values: seq<Point>)
    ensures SortedByOffset(values[..0])
    ensures StepsOf([]) == []
    ensures values != [] ==> SortedByOffset(values[..1]) && StepsOf(values[..1]) == []
  {
  }

  /** Writes the differences between the dictionary's steps and numbers the steps. */
  method WriteDictionary(dict: seq<nat>) returns (output: Bytes, keyOf: map<nat, nat>)
    requires Increasing(dict) && AllInRange(dict)
    ensures output == FormatAll(Deltas(dict))
    ensures forall x :: x in keyOf <==> x in dict
    ensures forall x :: x in dict ==> keyOf[x] < |dict| && dict[keyOf[x]] == x
  {
    hide Deltas, FormatAll, Increasing;
    output, keyOf := [], map[];
    var last := 0;
    NothingWritten();
    for i := 0 to |dict|
      invariant Increasing(dict[..i])
      invariant output == FormatAll(Deltas(dict[..i]))
      invariant forall x :: x in keyOf <==> x in dict[..i]
      invariant forall x :: x in dict[..i] ==> keyOf[x] < i && dict[keyOf[x]] == x
      invariant last == if i == 0 then 0 else dict[i - 1]
    {
      var step := dict[i];
      DictionaryPrefix(dict, i);
      FormatAllPush(Deltas(dict[..i]), step - last);
      var code := FormatInteger(step - last);
      output := output + code;
      keyOf := keyOf[step := i];
      last := step;
      assert dict[..i + 1] == dict[..i] + [dict[i]];
    }
    assert dict[..|dict|] == dict;
  }

  lemma NothingWritten()
    ensures Increasing([]) && FormatAll(Deltas([])) == [] && FormatAll([]) == []
  {
  }

  lemma DictionaryPrefix(dict: seq<nat>, i: nat)
    requires Increasing(dict) && i < |dict|
    ensures Increasing(dict[..i]) && Increasing(dict[..i + 1]) && (i > 0 ==> dict[i - 1] < dict[i])
    ensures dict[i] !in dict[..i]
    ensures Deltas(dict[..i + 1]) == Deltas(dict[..i]) + [dict[i] - if i == 0 then 0 else dict[i - 1]]
  {
    assert dict[..i + 1][..i] == dict[..i];
  }

  /** The place of a step in the dictionary. */
  function PlaceOf(dict: seq<nat>, x: nat): (r: nat)
    requires x in dict
    ensures r < |dict| && dict[r] == x
  {
    if dict[|dict| - 1] == x then |dict| - 1 else PlaceOf(dict[..|dict| - 1], x)
  }

  predicate Covers(dict: seq<nat>, steps: seq<nat>) {
    forall x :: x in steps ==> x in dict
  }

  function KeysIn(dict: seq<nat>, steps: seq<nat>): (r: seq<nat>)
    requires Covers(dict, steps)
    ensures |r| == |steps|
  {
    seq(|steps|, i requires 0 <= i < |steps| => assert steps[i] in steps; PlaceOf(dict, steps[i]))
  }

  /** The places lead back to the steps. */
  lemma KeysLookUp(dict: seq<nat>, steps: seq<nat>)
    requires Covers(dict, steps)
    ensures AllBelow(KeysIn(dict, steps), |dict|) && Look(dict, KeysIn(dict, steps)) == steps
  {
    forall i | 0 <= i < |steps| ensures KeysIn(dict, steps)[i] < |dict| && dict[KeysIn(dict, steps)[i]] == steps[i] {
      assert steps[i] in steps;
    }
  }

  lemma OnePlace(dict: seq<nat>, x: nat, i: nat)
    requires Increasing(dict) && i < |dict| && dict[i] == x
    ensures x in dict && PlaceOf(dict, x) == i
  {
  }

  lemma KeysPush(dict: seq<nat>, steps: seq<nat>, i: nat)
    requires i < |steps| && Covers(dict, steps)
    ensures Covers(dict, steps[..i]) && Covers(dict, steps[..i + 1]) && steps[i] in dict
    ensures KeysIn(dict, steps[..i + 1]) == KeysIn(dict, steps[..i]) + [PlaceOf(dict, steps[i])]
  {
    hide PlaceOf;
    assert steps[i] in steps;
  }

  /** Every step by its place in the dictionary. */
  method WriteKeys(values: seq<Point>, keyOf: map<nat, nat>, ghost dict: seq<nat>) returns (output: Bytes)
    requires SortedByOffset(values) && |dict| < UINT64 && Increasing(dict) && Covers(dict, StepsOf(values))
    requires forall x :: x in dict ==> x in keyOf && keyOf[x] < |dict| && dict[keyOf[x]] == x
    ensures output == FormatAll(KeysIn(dict, StepsOf(values)))
  {
    hide FormatAll, StepsOf, SortedByOffset, Increasing, KeysIn, Covers;
    output := [];
    NoKeys(dict);
    var i := 1;
    while i < |values|
      invariant 1 <= i && i - 1 <= |StepsOf(values)| && Covers(dict, StepsOf(values)[..i - 1])
      invariant output == FormatAll(KeysIn(dict, StepsOf(values)[..i - 1]))
    {
      StepAt(values, i);
      ghost var steps := StepsOf(values);
      KeysPush(dict, steps, i - 1);
      var step := values[i].offset - values[i - 1].offset;
      OnePlace(dict, step, keyOf[step]);
      FormatAllPush(KeysIn(dict, steps[..i - 1]), keyOf[step]);
      var code := FormatInteger(keyOf[step]);
      output := output + code;
      i := i + 1;
    }
    assert StepsOf(values)[..|StepsOf(values)|] == StepsOf(values);
  }

  lemma NoKeys(dict: seq<nat>)
    ensures Covers(dict, []) && FormatAll(KeysIn(dict, [])) == []
  {
  }

  method WriteSteps(values: seq<Point>) returns (output: Bytes)
    requires SortedByOffset(values) && InRange(values)
    ensures output == FormatAll(StepsOf(values))
  {
    hide FormatAll, StepsOf, SortedByOffset;
    output := [];
    NothingWritten();
    StepsInRange(values);
    var i := 1;
    while i < |values|
      invariant 1 <= i && i - 1 <= |StepsOf(values)|
      invariant output == FormatAll(StepsOf(values)[..i - 1])
    {
      StepAt(values, i);
      var steps := StepsOf(values);
      assert steps[..i] == steps[..i - 1] + [steps[i - 1]];
      FormatAllPush(steps[..i - 1], steps[i - 1]);
      var code := FormatInteger(values[i].offset - values[i - 1].offset);
      output := output + code;
      i := i + 1;
    }
    assert StepsOf(values)[..|StepsOf(values)|] == StepsOf(values);
  }

  // ---------- The mask of points with percentiles ----------

  /** Bit `k` of a byte switched on. */
  function SetBit(b: nat, k: nat): nat {
    if Bit(b, k) then b else b + Pow2(k)
  }

  /** `mask[i >> 3] |= 1 << (i & 7)` for every point whose percentiles are all finite. */
  method MakeMask(values: seq<Point>) returns (mask: seq<nat>)
    ensures mask == Mask(values)
  {
    hide *;
    var size := (|values| + 7) / 8;
    var bits := new nat[size](_ => 0);
    NoFlags(values, size);
    for i := 0 to |values|
      invariant forall j :: 0 <= j < size ==> bits[j] == MaskByte(Flags(values[..i], j))
    {
      OtherFlags(values, i, size);
      ThisFlag(values, i);
      if values[i].HasBands() {
        bits[i / 8] := SetBit(bits[i / 8], i % 8);
      }
    }
    assert values[..|values|] == values;
    mask := bits[..];
    MaskAt(values, mask);
  }

  lemma NoFlags(values: seq<Point>, size: nat)
    ensures forall j :: 0 <= j < size ==> MaskByte(Flags(values[..0], j)) == 0
  {
    forall j | 0 <= j < size ensures MaskByte(Flags(values[..0], j)) == 0 {
      assert Flags(values[..0], j) == [];
    }
  }

  lemma MaskAt(values: seq<Point>, mask: seq<nat>)
    requires |mask| == (|values| + 7) / 8 && forall j :: 0 <= j < |mask| ==> mask[j] == MaskByte(Flags(values, j))
    ensures mask == Mask(values)
  {
  }

  lemma OtherFlags(values: seq<Point>, i: nat, size: nat)
    requires i < |values|
    ensures forall j :: 0 <= j < size && j != i / 8 ==>
              MaskByte(Flags(values[..i + 1], j)) == MaskByte(Flags(values[..i], j))
  {
    hide MaskByte, Point.HasBands;
    forall j | 0 <= j < size && j != i / 8
      ensures MaskByte(Flags(values[..i + 1], j)) == MaskByte(Flags(values[..i], j)) {
      assert Flags(values[..i + 1], j) == Flags(values[..i], j);
    }
  }

  /** The bit of point `i` is not set before the point is reached. */
  lemma ThisFlag(values: seq<Point>, i: nat)
    requires i < |values|
    ensures var before := MaskByte(Flags(values[..i], i / 8));
            MaskByte(Flags(values[..i + 1], i / 8)) == if values[i].HasBands() then SetBit(before, i % 8) else before
  {
    hide MaskByte, Point.HasBands, Pow2, Bit;
    var flags := Flags(values[..i], i / 8);
    assert |flags| == i % 8;
    assert Flags(values[..i + 1], i / 8) == flags + [values[i].HasBands()];
    MaskBytePush(flags, values[i].HasBands());
    MaskByteBits(flags, i % 8);
  }

  /** The bytes of the mask go through the run-length writer. */
  method WriteMask(mask: seq<nat>) returns (output: Bytes)
    requires forall b :: b in mask ==> b < 0x100
    ensures Expand(output) == Some(mask) && |output| <= 2 * |mask|
  {
    hide Expand, Repeat, RleWriter.Valid;
    var rle := new RleWriter();
    for i := 0 to |mask|
      invariant rle.Valid() && fresh(rle) && rle.put == mask[..i]
    {
      assert mask[i] in mask;
      rle.Put(mask[i]);
      assert mask[..i + 1] == mask[..i] + [mask[i]];
    }
    rle.Flush();
    assert mask[..|mask|] == mask;
    output := rle.output;
  }

  method WriteScores(values: seq<Point>, mask: seq<nat>) returns (output: Bytes)
    requires InRange(values) && mask == Mask(values)
    ensures output == Scores(values, |values|)
  {
    hide Bit, Mask, Point.HasBands, LittleEndian, InRange, Scores;
    output := [];
    NoScoresYet(values);
    for i := 0 to |values|
      invariant output == Scores(values, i)
    {
      MaskBits(values, i);
      ScoresLast(values, i);
      var p := values[i];
      var code := LittleEndian(p.score.f, 4);
      if Bit(mask[i / 8], i % 8) {
        code := code + (LittleEndian(p.pct5, 4) + LittleEndian(p.pct25, 4) + LittleEndian(p.pct75, 4)
          + LittleEndian(p.pct95, 4));
      } else {
        assert code + [] == code;
      }
      output := output + code;
    }
  }

  lemma NoScoresYet(values: seq<Point>)
    requires InRange(values)
    ensures Scores(values, 0) == []
  {
  }

  // ---------- The with-prediction record ----------

  /** The dictionary is used when it is small against the series. */
  function Chosen(dict: seq<nat>, steps: seq<nat>, rle: Bytes): Form
    requires Covers(dict, steps)
  {
    if |steps| > 0 && |dict| < 256 && |dict| < (|steps| + 1) / 4 then Form(Some(dict), KeysIn(dict, steps), rle)
    else Form(None, [], rle)
  }

  lemma ChosenFits(dict: seq<nat>, steps: seq<nat>, rle: Bytes)
    requires Increasing(dict) && AllInRange(dict) && Covers(dict, steps)
    ensures var form := Chosen(dict, steps, rle);
            form.dict.Some? ==> Increasing(form.dict.value) && DictionaryOk(steps, form.dict.value, form.keys)
  {
    hide KeysIn, PlaceOf, Increasing;
    KeysLookUp(dict, steps);
    if |steps| > 0 {
      assert steps[0] in steps;
    }
  }

  /** Steps behind the first offset: by dictionary when that is small against the series. */
  method WriteStepPart(values: seq<Point>, steps: seq<nat>) returns (output: Bytes)
    requires SortedByOffset(values) && InRange(values) && values != []
    requires Increasing(steps) && forall x :: x in steps <==> x in StepsOf(values)
    ensures Covers(steps, StepsOf(values))
    ensures Chosen(steps, StepsOf(values), []).dict.Some? ==> Increasing(steps)
    ensures output == StepPart(StepsOf(values), Chosen(steps, StepsOf(values), []))
  {
    hide StepsOf, FormatAll, Deltas, I.Format, SortedByOffset, Increasing, InRange, KeysIn;
    output := [];
    StepsInRange(values);
    if |values| > 1 {
      if |steps| < 256 && |steps| < |values| / 4 {
        SameSteps(steps, StepsOf(values));
        var size := FormatInteger(|steps|);
        var deltas, keyOf := WriteDictionary(steps);
        var codes := WriteKeys(values, keyOf, steps);
        output := size + deltas + codes;
      } else {
        var size := FormatInteger(0);
        var codes := WriteSteps(values);
        output := size + codes;
      }
    }
  }

  lemma SameSteps(a: seq<nat>, b: seq<nat>)
    requires AllInRange(b) && forall x :: x in a <==> x in b
    ensures AllInRange(a)
  {
    forall i | 0 <= i < |a| ensures a[i] < UINT64 {
      assert a[i] in b;
    }
  }

  /** Encodes any series that is sorted by offset, and no other. */
  method EncodeWithPrediction(values: seq<Point>) returns (output: Option<Bytes>)
    requires InRange(values)
    ensures output.Some? <==> SortedByOffset(values)
    ensures output.Some? && values == [] ==> output.value == [WITH_PREDICTION] + I.Format(0)
    ensures output.Some? && values != [] ==> IsRecord(values, output.value)
  {
    hide StepsOf, I.Format, StepPart, Scores, Expand, Mask, SortedByOffset, Increasing, IsRecord, Chosen;
    var count := FormatInteger(|values|);
    if values == [] {
      SortedWhenEmpty();
      return Some([WITH_PREDICTION] + count);
    }
    FirstInRange(values);
    var first := FormatInteger(values[0].offset);
    var found := CollectSteps(values);
    if found.None? {
      return None;
    }
    var stepPart := WriteStepPart(values, found.value);
    var mask := MakeMask(values);
    MaskIsBytes(values);
    var rle := WriteMask(mask);
    var scores := WriteScores(values, mask);
    StepsInRange(values);
    SameSteps(found.value, StepsOf(values));
    WholeRecord(values, found.value, rle, stepPart);
    output := Some([WITH_PREDICTION] + (count + (first + (stepPart + (rle + scores)))));
  }

  lemma WholeRecord(values: seq<Point>, dict: seq<nat>, rle: Bytes, stepPart: Bytes)
    requires values != [] && SortedByOffset(values) && InRange(values)
    requires Increasing(dict) && AllInRange(dict) && Covers(dict, StepsOf(values))
    requires Expand(rle) == Some(Mask(values)) && |rle| <= 2 * |Mask(values)|
    requires stepPart == StepPart(StepsOf(values), Chosen(dict, StepsOf(values), []))
    ensures IsRecord(values, [WITH_PREDICTION]
              + (I.Format(|values|) + (I.Format(values[0].offset) + (stepPart + (rle + Scores(values, |values|))))))
  {
    hide StepsOf, I.Format, Scores, Expand, Mask, SortedByOffset, Increasing, KeysIn, DictionaryOk;
    var form := Chosen(dict, StepsOf(values), rle);
    ChosenFits(dict, StepsOf(values), rle);
    assert FormOk(values, form);
    assert stepPart == StepPart(StepsOf(values), form);
  }

  lemma SortedWhenEmpty()
    ensures SortedByOffset([])
  {
  }

  // ---------- The size of a record ----------

  lemma {:induction false} FormatAllLength(values: seq<nat>, width: nat)
    requires AllInRange(values)
    requires width == 10 || (width == 2 && forall i :: 0 <= i < |values| ==> values[i] < 0x4000)
    ensures |FormatAll(values)| <= width * |values|
  {
    if values != [] {
      hide I.Format;
      var n := |values| - 1;
      FormatAllLength(values[..n], width);
      FormatLength(values[n]);
      assert width * |values| == width * n + width;
    }
  }

  lemma {:induction false} ScoresLength(ps: seq<Point>, n: nat)
    requires InRange(ps) && n <= |ps|
    ensures |Scores(ps, n)| <= 20 * n
  {
    if n > 0 {
      ScoresLength(ps, n - 1);
    }
  }

  lemma StepPartLength(ps: seq<Point>, form: Form)
    requires ps != [] && SortedByOffset(ps) && InRange(ps) && FormOk(ps, form)
    requires form.dict.Some? ==> Increasing(form.dict.value)
    ensures |StepPart(StepsOf(ps), form)| <= 10 * |ps|
  {
    hide FormatAll, Deltas, I.Format, SortedByOffset, Increasing, StepsOf, Expand, Mask, InRange;
    var steps := StepsOf(ps);
    StepsInRange(ps);
    FormatLength(0);
    FormatAllLength(steps, 10);
    if form.dict.Some? && steps != [] {
      var dict := form.dict.value;
      FormatLength(|dict|);
      DeltasInRange(dict);
      FormatAllLength(Deltas(dict), 10);
      KeysInRange(form.keys, |dict|);
      FormatAllLength(form.keys, 2);
    }
  }

  /** The buffer of `ca_offset_score_size`, 32 bytes and 32 for every point, always suffices. */
  lemma RecordFits(ps: seq<Point>, code: Bytes)
    requires ps != [] && SortedByOffset(ps) && InRange(ps) && IsRecord(ps, code)
    ensures |code| <= 32 + 32 * |ps|
  {
    hide StepPart, Scores, I.Format, SortedByOffset, Increasing, StepsOf, Expand, DictionaryOk;
    var form :| FormOk(ps, form) && (form.dict.Some? ==> Increasing(form.dict.value))
      && code == [WITH_PREDICTION] + RecordBytes(ps, form);
    FirstInRange(ps);
    FormatLength(|ps|);
    FormatLength(ps[0].offset);
    StepPartLength(ps, form);
    ScoresLength(ps, |ps|);
  }
}

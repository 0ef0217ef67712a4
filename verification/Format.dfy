/** Writing offset/score series: the with-prediction record, the single-point record, the empty record. */
module Format {
  import opened Bytes
  import opened Table
  import opened I = Integers
  import opened Rle
  import opened Points
  import opened Decode
  import opened OrderedSet

  predicate SortedByOffset(ps: seq<Point>) {
    forall i, j :: 0 <= i < j < |ps| ==> ps[i].offset <= ps[j].offset
  }

  predicate InRange(ps: seq<Point>) {
    |ps| < UINT64 && forall i :: 0 <= i < |ps| ==> ps[i].InRange()
  }

  /** The differences between neighbouring offsets. */
  function StepsOf(ps: seq<Point>): (r: seq<nat>)
    requires SortedByOffset(ps)
    ensures |r| == if ps == [] then 0 else |ps| - 1
  {
    var n := |ps| - 1;
    if n <= 0 then [] else StepsOf(ps[..n]) + [ps[n].offset - ps[n - 1].offset]
  }

  function Deltas(dict: seq<nat>): (r: seq<nat>)
    requires Increasing(dict)
    ensures |r| == |dict|
  {
    if dict == [] then []
    else
      var n := |dict| - 1;
      Deltas(dict[..n]) + [dict[n] - if n == 0 then 0 else dict[n - 1]]
  }

  /** How a record was written: with which dictionary of steps, if any, and with which code for the mask. */
  datatype Form = Form(dict: Option<seq<nat>>, keys: seq<nat>, rle: Bytes)

  /** The keys look the steps up in the dictionary, which is smaller than a quarter of the series. */
  predicate DictionaryOk(steps: seq<nat>, dict: seq<nat>, keys: seq<nat>) {
    && Increasing(dict) && AllInRange(dict) && 0 < |dict| < 256 && |dict| < (|steps| + 1) / 4
    && |keys| == |steps| && AllBelow(keys, |dict|) && Look(dict, keys) == steps
  }

  function StepPart(steps: seq<nat>, form: Form): Bytes
    requires form.dict.Some? ==> Increasing(form.dict.value)
  {
    if steps == [] then []
    else
      match form.dict
      case None => I.Format(0) + FormatAll(steps)
      case Some(dict) => I.Format(|dict|) + FormatAll(Deltas(dict)) + FormatAll(form.keys)
  }

  /** The form fits the series. */
  ghost predicate FormOk(ps: seq<Point>, form: Form)
    requires SortedByOffset(ps)
  {
    && (form.dict.Some? ==> DictionaryOk(StepsOf(ps), form.dict.value, form.keys))
    && Expand(form.rle) == Some(Mask(ps)) && |form.rle| <= 2 * |Mask(ps)|
  }

  /** The stored scores of the first `n` points. */
  function Scores(ps: seq<Point>, n: nat): Bytes
    requires InRange(ps) && n <= |ps|
  {
    if n == 0 then [] else Scores(ps, n - 1) + PointBytes(ps[n - 1])
  }

  /** A with-prediction record without its type byte. */
  function RecordBytes(ps: seq<Point>, form: Form): Bytes
    requires ps != [] && SortedByOffset(ps) && InRange(ps)
    requires form.dict.Some? ==> Increasing(form.dict.value)
  {
    I.Format(|ps|) + (I.Format(ps[0].offset) + (StepPart(StepsOf(ps), form) + (form.rle + Scores(ps, |ps|))))
  }

  /** A with-prediction record of the series, in some form that fits it. */
  ghost predicate IsRecord(ps: seq<Point>, code: Bytes)
    requires ps != [] && SortedByOffset(ps) && InRange(ps)
  {
    exists form :: FormOk(ps, form) && (form.dict.Some? ==> Increasing(form.dict.value))
      && code == [WITH_PREDICTION] + RecordBytes(ps, form)
  }

  // ---------- Reading back what was written ----------

  lemma LastStep(dict: seq<nat>)
    requires dict != [] && Increasing(dict) && AllInRange(dict)
    ensures var n := |dict| - 1;
            && Increasing(dict[..n]) && AllInRange(dict[..n]) && dict == dict[..n] + [dict[n]]
            && (n > 0 ==> dict[n - 1] < dict[n]) && dict[n] < UINT64
  {
    hide Deltas;
  }

  lemma LastDelta(dict: seq<nat>)
    requires dict != [] && Increasing(dict)
    ensures var n := |dict| - 1;
            Increasing(dict[..n]) && Deltas(dict) == Deltas(dict[..n]) + [dict[n] - if n == 0 then 0 else dict[n - 1]]
  {
  }

  lemma {:induction false} DeltasInRange(dict: seq<nat>)
    requires Increasing(dict) && AllInRange(dict)
    ensures AllInRange(Deltas(dict))
  {
    if dict != [] {
      hide Deltas, Increasing;
      LastStep(dict);
      LastDelta(dict);
      DeltasInRange(dict[..|dict| - 1]);
    }
  }

  lemma {:induction false} SumsOfDeltas(dict: seq<nat>)
    requires Increasing(dict) && AllInRange(dict)
    ensures PrefixSums(Deltas(dict)) == dict
  {
    if dict != [] {
      hide PrefixSums, Add64, Increasing, AllInRange, Deltas;
      LastStep(dict);
      LastDelta(dict);
      var n := |dict| - 1;
      var init, last := dict[..n], if n == 0 then 0 else dict[n - 1];
      SumsOfDeltas(init);
      SumPush(Deltas(init), init, dict[n], last);
    }
  }

  lemma SumPush(deltas: seq<nat>, sums: seq<nat>, x: nat, last: nat)
    requires PrefixSums(deltas) == sums && last <= x < UINT64 && last == if sums == [] then 0 else sums[|sums| - 1]
    ensures PrefixSums(deltas + [x - last]) == sums + [x]
  {
    hide PrefixSums, Add64;
    PrefixSumsPush(deltas, x - last);
  }

  lemma {:induction false} StepsInRange(ps: seq<Point>)
    requires SortedByOffset(ps) && InRange(ps)
    ensures AllInRange(StepsOf(ps))
  {
    if |ps| > 1 {
      StepsInRange(ps[..|ps| - 1]);
    }
  }

  lemma {:induction false} AccumulateSteps(ps: seq<Point>)
    requires ps != [] && SortedByOffset(ps) && InRange(ps)
    ensures Accumulate(ps[0].offset, StepsOf(ps)) == Offsets(ps)
  {
    hide *;
    var n := |ps| - 1;
    OffsetsPush(ps);
    SortedInit(ps);
    StepsPush(ps);
    if n > 0 {
      AccumulateSteps(ps[..n]);
      AccumulatePush(ps[0].offset, StepsOf(ps[..n]), ps[n].offset - ps[n - 1].offset);
    } else {
      assert ps[..n] == [] && [] + [ps[0].offset] == [ps[0].offset];
      NoStep(ps[0].offset);
    }
  }

  lemma SortedInit(ps: seq<Point>)
    requires ps != [] && SortedByOffset(ps) && InRange(ps)
    ensures var n := |ps| - 1;
            && SortedByOffset(ps[..n]) && InRange(ps[..n]) && ps[n].offset < UINT64
            && (n > 0 ==> ps[n - 1].offset <= ps[n].offset && Offsets(ps[..n])[n - 1] == ps[n - 1].offset)
  {
  }

  lemma StepsPush(ps: seq<Point>)
    requires ps != [] && SortedByOffset(ps) && SortedByOffset(ps[..|ps| - 1])
    requires |ps| > 1 ==> ps[|ps| - 2].offset <= ps[|ps| - 1].offset
    ensures var n := |ps| - 1;
            StepsOf(ps) == if n == 0 then [] else StepsOf(ps[..n]) + [ps[n].offset - ps[n - 1].offset]
  {
    hide SortedByOffset;
  }

  lemma NoStep(first: nat)
    ensures Accumulate(first, []) == [first]
  {
  }

  lemma OffsetsPush(ps: seq<Point>)
    requires ps != []
    ensures Offsets(ps) == Offsets(ps[..|ps| - 1]) + [ps[|ps| - 1].offset]
    ensures Offsets([]) == []
  {
  }

  lemma KeysInRange(keys: seq<nat>, n: nat)
    requires AllBelow(keys, n) && n < UINT64
    ensures AllInRange(keys)
  {
  }

  lemma StepsRoundTrip(ps: seq<Point>, form: Form, data: Bytes, at: nat)
    requires ps != [] && SortedByOffset(ps) && InRange(ps) && FormOk(ps, form)
    requires var code := StepPart(StepsOf(ps), form); at + |code| <= |data| && LiesAt(data, at, code)
    ensures DecodeSteps(data, at, |ps|) == Some((StepsOf(ps), at + |StepPart(StepsOf(ps), form)|))
  {
    hide LiesAt, I.Format, Parse, ParseMany, FormatAll, Expand, Mask, StepsOf;
    var steps := StepsOf(ps);
    StepsInRange(ps);
    if steps != [] {
      match form.dict {
        case None =>
          LiesAtSplit(data, at, I.Format(0), FormatAll(steps));
          ParseFormat(0, data, at);
          ParseFormatAll(steps, data, at + |I.Format(0)|);
        case Some(dict) =>
          DictionaryRoundTrip(steps, dict, form.keys, data, at);
      }
    }
  }

  lemma DictionaryRoundTrip(steps: seq<nat>, dict: seq<nat>, keys: seq<nat>, data: Bytes, at: nat)
    requires steps != [] && DictionaryOk(steps, dict, keys)
    requires var code := I.Format(|dict|) + FormatAll(Deltas(dict)) + FormatAll(keys);
             at + |code| <= |data| && LiesAt(data, at, code)
    ensures var code := I.Format(|dict|) + FormatAll(Deltas(dict)) + FormatAll(keys);
            DecodeSteps(data, at, |steps| + 1) == Some((steps, at + |code|))
  {
    hide LiesAt, I.Format, Parse, ParseMany, FormatAll, Increasing, Deltas, Look, PrefixSums;
    var a, b, c := I.Format(|dict|), FormatAll(Deltas(dict)), FormatAll(keys);
    SumsOfDeltas(dict);
    DeltasInRange(dict);
    LiesAtSplit(data, at, a + b, c);
    LiesAtSplit(data, at, a, b);
    ParseFormat(|dict|, data, at);
    ParseFormatAll(Deltas(dict), data, at + |a|);
    KeysInRange(keys, |dict|);
    ParseFormatAll(keys, data, at + |a| + |b|);
  }

  lemma FloatRoundTrip(f: Float, data: Bytes, at: nat)
    requires LiesAt(data, at, LittleEndian(f, 4))
    ensures at + 4 <= |data| && DecodeFloat(data, at) == f
  {
    FieldWidths();
    LittleEndianRoundTrip(f, 4);
  }

  lemma PointRoundTrip(p: Point, data: Bytes, at: nat)
    requires p.score.Bits? && LiesAt(data, at, PointBytes(p)) && at <= |data|
    ensures DecodePoint(data, at, p.offset, p.HasBands()) == Some((p.Kept(), at + |PointBytes(p)|))
  {
    hide LiesAt, DecodeFloat, LittleEndian, Point.HasBands;
    if p.HasBands() {
      var f, a, b, c, d := LittleEndian(p.score.f, 4), LittleEndian(p.pct5, 4), LittleEndian(p.pct25, 4),
          LittleEndian(p.pct75, 4), LittleEndian(p.pct95, 4);
      LiesAtSplit(data, at, f, a + b + c + d);
      LiesAtSplit(data, at + 4, a + b + c, d);
      LiesAtSplit(data, at + 4, a + b, c);
      LiesAtSplit(data, at + 4, a, b);
      FloatRoundTrip(p.score.f, data, at);
      FloatRoundTrip(p.pct5, data, at + 4);
      FloatRoundTrip(p.pct25, data, at + 8);
      FloatRoundTrip(p.pct75, data, at + 12);
      FloatRoundTrip(p.pct95, data, at + 16);
    } else {
      assert LittleEndian(p.score.f, 4) + [] == LittleEndian(p.score.f, 4);
      FloatRoundTrip(p.score.f, data, at);
    }
  }

  lemma {:induction false} ScoresRoundTrip(ps: seq<Point>, n: nat, data: Bytes, at: nat)
    requires InRange(ps) && n <= |ps| && at <= |data| && LiesAt(data, at, Scores(ps, n))
    ensures DecodePoints(data, at, Offsets(ps), Mask(ps), n) == Some((Kept(ps)[..n], at + |Scores(ps, n)|))
  {
    hide *;
    if n == 0 {
      NoScores(ps, data, at);
    } else {
      ScoresLast(ps, n - 1);
      LiesAtSplit(data, at, Scores(ps, n - 1), PointBytes(ps[n - 1]));
      ScoresRoundTrip(ps, n - 1, data, at);
      ScoresStep(ps, n - 1, data, at, Scores(ps, n - 1));
    }
  }

  lemma NoScores(ps: seq<Point>, data: Bytes, at: nat)
    requires InRange(ps) && at <= |data|
    ensures DecodePoints(data, at, Offsets(ps), Mask(ps), 0) == Some((Kept(ps)[..0], at + |Scores(ps, 0)|))
  {
    assert Kept(ps)[..0] == [];
  }

  lemma ScoresLast(ps: seq<Point>, n: nat)
    requires InRange(ps) && n < |ps|
    ensures ps[n].score.Bits? && Scores(ps, n + 1) == Scores(ps, n) + PointBytes(ps[n])
  {
  }

  lemma ScoresStep(ps: seq<Point>, n: nat, data: Bytes, at: nat, code: Bytes)
    requires n < |ps| && ps[n].score.Bits? && at <= |data| && LiesAt(data, at, code + PointBytes(ps[n]))
    requires DecodePoints(data, at, Offsets(ps), Mask(ps), n) == Some((Kept(ps)[..n], at + |code|))
    ensures DecodePoints(data, at, Offsets(ps), Mask(ps), n + 1) ==
            Some((Kept(ps)[..n + 1], at + |code + PointBytes(ps[n])|))
  {
    hide LiesAt, DecodePoint, DecodePoints, PointBytes, Mask, Point.HasBands, Point.Kept, Kept, Offsets;
    LiesAtSplit(data, at, code, PointBytes(ps[n]));
    Lies(data, at, code);
    PointRoundTrip(ps[n], data, at + |code|);
    ScoresJoin(ps, n, data, at, at + |code|, at + |code| + |PointBytes(ps[n])|);
  }

  lemma ScoresJoin(ps: seq<Point>, n: nat, data: Bytes, at: nat, mid: nat, after: nat)
    requires at <= |data| && mid <= |data| && n < |ps|
    requires DecodePoints(data, at, Offsets(ps), Mask(ps), n) == Some((Kept(ps)[..n], mid))
    requires DecodePoint(data, mid, ps[n].offset, ps[n].HasBands()) == Some((ps[n].Kept(), after))
    ensures DecodePoints(data, at, Offsets(ps), Mask(ps), n + 1) == Some((Kept(ps)[..n + 1], after))
  {
    hide DecodePoint, DecodePoints, Bit, Mask, Point.HasBands, Point.Kept, Kept, Offsets;
    MaskBits(ps, n);
    KeptAt(ps, n);
    DecodePointsStep(data, at, Offsets(ps), Mask(ps), n, Kept(ps)[..n], mid);
  }

  lemma KeptAt(ps: seq<Point>, i: nat)
    requires i < |ps|
    ensures Kept(ps)[..i + 1] == Kept(ps)[..i] + [ps[i].Kept()] && Offsets(ps)[i] == ps[i].offset
  {
  }

  /** Decoding a with-prediction record gives the same offsets and scores, bit by bit, and keeps
      percentiles exactly where all four are finite, whatever lies around the record. */
  lemma WithPredictionRoundTrip(ps: seq<Point>, form: Form, data: Bytes, at: nat)
    requires ps != [] && SortedByOffset(ps) && InRange(ps) && FormOk(ps, form)
    requires LiesAt(data, at, [WITH_PREDICTION] + RecordBytes(ps, form))
    ensures at + 1 + |RecordBytes(ps, form)| <= |data|
    ensures DecodeRecord(data, at) == Some(Record(Kept(ps), at + 1 + |RecordBytes(ps, form)|))
  {
    hide LiesAt, I.Format, Parse, StepPart, DecodeSteps, Expand, DecodeBytes, Scores, DecodePoints, Mask, StepsOf,
         SortedByOffset, Offsets, Accumulate, FormOk, Increasing;
    DictionaryIncreases(ps, form);
    var a, b, c, d, e := I.Format(|ps|), I.Format(ps[0].offset), StepPart(StepsOf(ps), form), form.rle,
      Scores(ps, |ps|);
    Lies(data, at, [WITH_PREDICTION] + RecordBytes(ps, form));
    LiesAtByte(data, at, [WITH_PREDICTION] + RecordBytes(ps, form), 0);
    LiesAtSplit(data, at, [WITH_PREDICTION], RecordBytes(ps, form));
    LiesAtSplit(data, at + 1, a, b + (c + (d + e)));
    LiesAtSplit(data, at + 1 + |a|, b, c + (d + e));
    LiesAtSplit(data, at + 1 + |a| + |b|, c, d + e);
    LiesAtSplit(data, at + 1 + |a| + |b| + |c|, d, e);
    ParseFormat(|ps|, data, at + 1);
    FirstInRange(ps);
    ParseFormat(ps[0].offset, data, at + 1 + |a|);
    StepsRoundTrip(ps, form, data, at + 1 + |a| + |b|);
    AccumulateSteps(ps);
    MaskRoundTrip(ps, form, data, at + 1 + |a| + |b| + |c|);
    assert ps[..|ps|] == ps && Kept(ps)[..|ps|] == Kept(ps);
    ScoresRoundTrip(ps, |ps|, data, at + 1 + |a| + |b| + |c| + |d|);
  }

  lemma DictionaryIncreases(ps: seq<Point>, form: Form)
    requires SortedByOffset(ps) && FormOk(ps, form)
    ensures form.dict.Some? ==> Increasing(form.dict.value)
  {
  }

  lemma FirstInRange(ps: seq<Point>)
    requires ps != [] && InRange(ps)
    ensures ps[0].offset < UINT64 && |ps| < UINT64
  {
  }

  lemma MaskRoundTrip(ps: seq<Point>, form: Form, data: Bytes, at: nat)
    requires SortedByOffset(ps) && FormOk(ps, form) && at + |form.rle| <= |data| && LiesAt(data, at, form.rle)
    ensures DecodeBytes(data, at, (|ps| + 7) / 8) == Some((Mask(ps), at + |form.rle|))
  {
    ReadExpanded(form.rle, data, at);
  }
}

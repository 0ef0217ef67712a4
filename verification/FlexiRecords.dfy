/** Flexi records from the writer's side: every layout that the parser reads, and what it reads from it. Nothing
    in the repository writes such records any more, so the writer is a specification. */
module FlexiRecords {
  import opened Bytes
  import opened Table
  import opened I = Integers
  import opened Rle
  import opened Points
  import opened Decode
  import opened Format
  import opened WithPrediction
  import opened Series

  // ---------- Steps ----------

  /** Steps of `gcd * (least + quantized[i])`, the quantized ones being at most `range`. */
  datatype Layout = Layout(gcd: nat, least: nat, range: nat, quantized: seq<nat>, rle: Bytes)

  /** Two quantized steps in each byte, the first one in the low half. */
  function Packed(quantized: seq<nat>): (r: Bytes)
    requires forall i :: 0 <= i < |quantized| ==> quantized[i] < 16
    ensures |r| == (|quantized| + 1) / 2
  {
    seq((|quantized| + 1) / 2, j requires 0 <= j < (|quantized| + 1) / 2 =>
      quantized[2 * j] + 16 * if 2 * j + 1 < |quantized| then quantized[2 * j + 1] else 0)
  }

  predicate AtMostEach(values: seq<nat>, high: nat) {
    forall i :: 0 <= i < |values| ==> values[i] <= high
  }

  predicate LayoutOk(l: Layout) {
    && l.gcd < UINT64 && l.least < UINT64 && l.range < UINT64
    && (l.gcd != 0 && l.range <= 15 ==> AtMostEach(l.quantized, l.range))
    && (l.gcd != 0 && 0 < l.range <= 15 ==> AtMostEach(l.quantized, 15) && Expand(l.rle) == Some(Packed(l.quantized)))
    && (l.gcd != 0 && 15 < l.range <= 255 ==> AtMostEach(l.quantized, 255) && Expand(l.rle) == Some(l.quantized))
    && (l.gcd != 0 && l.range > 255 ==> AllInRange(l.quantized))
  }

  /** No steps at all, equal steps, half bytes, bytes, or integers. */
  function StepBytes(l: Layout): Bytes {
    if l.gcd == 0 then []
    else
      I.Format(l.least) + (I.Format(l.range) +
        if l.range == 0 then [] else if l.range <= 255 then l.rle else FormatAll(l.quantized))
  }

  /** The offsets grow by the steps, without wrapping around. */
  ghost predicate Grows(offsets: seq<nat>, l: Layout) {
    && |offsets| == |l.quantized| + 1 && AllInRange(offsets)
    && forall i :: 0 <= i < |l.quantized| ==>
         offsets[i + 1] == offsets[i] + if l.gcd == 0 then 0 else l.gcd * (l.least + l.quantized[i])
  }

  lemma NibblesOfPacked(quantized: seq<nat>)
    requires forall i :: 0 <= i < |quantized| ==> quantized[i] < 16
    ensures Nibbles(Packed(quantized), |quantized|) == quantized
  {
    var r := Nibbles(Packed(quantized), |quantized|);
    forall i | 0 <= i < |quantized| ensures r[i] == quantized[i] {
      assert Packed(quantized)[i / 2] == quantized[2 * (i / 2)]
        + 16 * if 2 * (i / 2) + 1 < |quantized| then quantized[2 * (i / 2) + 1] else 0;
      assert i == 2 * (i / 2) || i == 2 * (i / 2) + 1;
    }
  }

  lemma QuantizedRead(l: Layout, data: Bytes, at: nat)
    requires LayoutOk(l) && l.gcd != 0
    requires LiesAt(data, at, if l.range == 0 then [] else if l.range <= 255 then l.rle else FormatAll(l.quantized))
    ensures var code := if l.range == 0 then [] else if l.range <= 255 then l.rle else FormatAll(l.quantized);
            && at + |code| <= |data|
            && DecodeQuantized(data, at, l.range, |l.quantized|) == Some((l.quantized, at + |code|))
  {
    hide ReadMany, Expand, FormatAll, Packed, Nibbles, ParseMany, LiesAt;
    var code := if l.range == 0 then [] else if l.range <= 255 then l.rle else FormatAll(l.quantized);
    Lies(data, at, code);
    if l.range == 0 {
      assert seq(|l.quantized|, _ => 0) == l.quantized;
    } else if l.range <= 15 {
      ReadExpanded(l.rle, data, at);
      NibblesOfPacked(l.quantized);
    } else if l.range <= 255 {
      ReadExpanded(l.rle, data, at);
    } else {
      ParseFormatAll(l.quantized, data, at);
    }
  }

  /** The steps that the parser makes of a layout. */
  function StepsOf(l: Layout): (r: seq<nat>)
    ensures |r| == |l.quantized|
  {
    if l.gcd == 0 then seq(|l.quantized|, _ => 0) else Scale(l.gcd, l.least, l.quantized)
  }

  lemma StepsRead(l: Layout, data: Bytes, at: nat)
    requires LayoutOk(l) && LiesAt(data, at, StepBytes(l))
    ensures at + |StepBytes(l)| <= |data|
    ensures DecodeFlexiSteps(data, at, l.gcd, |l.quantized|) == Some((StepsOf(l), at + |StepBytes(l)|))
  {
    hide LiesAt, I.Format, Parse, FormatAll, DecodeQuantized, Scale;
    Lies(data, at, StepBytes(l));
    if l.gcd != 0 {
      var a, b := I.Format(l.least), I.Format(l.range);
      var code := if l.range == 0 then [] else if l.range <= 255 then l.rle else FormatAll(l.quantized);
      LiesAtSplit(data, at, a, b + code);
      LiesAtSplit(data, at + |a|, b, code);
      ParseFormat(l.least, data, at);
      ParseFormat(l.range, data, at + |a|);
      QuantizedRead(l, data, at + |a| + |b|);
    }
  }

  /** Below 2 to the 64 the wrapping sums and products are the sums and products. */
  lemma StepIs(l: Layout, offsets: seq<nat>, i: nat)
    requires LayoutOk(l) && Grows(offsets, l) && i < |l.quantized|
    ensures Add64(offsets[i], StepsOf(l)[i]) == offsets[i + 1]
  {
    hide Low64;
    if l.gcd != 0 {
      FactorIsLess(l.gcd, l.least + l.quantized[i]);
    }
  }

  lemma FactorIsLess(a: nat, b: nat)
    requires a > 0
    ensures b <= a * b
  {
    if a > 1 {
      assert (a - 1) * b >= 0 && a * b == (a - 1) * b + b;
    }
  }

  lemma {:induction false} OffsetsAccumulate(l: Layout, offsets: seq<nat>, n: nat)
    requires LayoutOk(l) && Grows(offsets, l) && n <= |l.quantized|
    ensures Accumulate(offsets[0], StepsOf(l)[..n]) == offsets[..n + 1]
  {
    hide Add64, StepsOf, LayoutOk;
    if n == 0 {
      NoStep(offsets[0]);
      assert StepsOf(l)[..0] == [] && offsets[..1] == [offsets[0]];
    } else {
      OffsetsAccumulate(l, offsets, n - 1);
      StepIs(l, offsets, n - 1);
      var steps := StepsOf(l);
      assert steps[..n] == steps[..n - 1] + [steps[n - 1]];
      AccumulatePush(offsets[0], steps[..n - 1], steps[n - 1]);
      assert offsets[..n + 1] == offsets[..n] + [offsets[n]] && |steps[..n - 1]| == n - 1;
    }
  }

  // ---------- Scores ----------

  /** Floats, or integers from `least` on in one, two or three bytes. */
  datatype Scores = Floats(bits: seq<Float>) | Counts(width: nat, least: nat, values: seq<nat>) {
    function Size(): nat {
      if Floats? then |bits| else |values|
    }

    predicate Ok() {
      Counts? ==>
        && 1 <= width <= 3 && least < UINT64
        && forall i :: 0 <= i < |values| ==>
             && least <= values[i] < 0x1_0000_0000
             && values[i] - least < (if width == 1 then 0x100 else if width == 2 then 0x1_0000 else 0x100_0000)
    }

    /** The score itself. */
    function At(i: nat): Score
      requires i < Size()
    {
      if Floats? then Bits(bits[i]) else Whole(values[i])
    }

    /** Its bytes: those of the float, lowest first, or those of the distance from the least score, highest first. */
    function Code(i: nat): Bytes
      requires Ok() && i < Size()
    {
      if Floats? then LittleEndian(bits[i], 4)
      else
        var d := values[i] - least;
        if width == 1 then [d]
        else if width == 2 then [d / 0x100, d % 0x100]
        else [d / 0x1_0000, d / 0x100 % 0x100, d % 0x100]
    }

    function Kind(): nat {
      if Floats? then 0 else width
    }

    function Codes(n: nat): Bytes
      requires Ok() && n <= Size()
    {
      if n == 0 then [] else Codes(n - 1) + Code(n - 1)
    }
  }

  /** The flags: how scores are stored, and whether one score stands for all. */
  function ScoreBytes(s: Scores, one: bool): Bytes
    requires s.Ok()
  {
    [s.Kind() + if one then 0x80 else 0] + ((if s.Floats? then [] else I.Format(s.least)) + s.Codes(s.Size()))
  }

  ghost predicate Scored(s: Scores, one: bool, count: nat) {
    s.Ok() && s.Size() == if one then 1 else count
  }

  /** The points: each offset with its own score, or all with the one score. */
  function PointsOf(offsets: seq<nat>, s: Scores, one: bool): (r: seq<Point>)
    requires s.Size() == if one then 1 else |offsets|
    ensures |r| == |offsets|
  {
    seq(|offsets|, i requires 0 <= i < |offsets| => Plain(offsets[i], s.At(if one then 0 else i)))
  }

  lemma CodeWidth(s: Scores, i: nat)
    requires s.Ok() && i < s.Size()
    ensures |s.Code(i)| == ScoreWidth(s.Kind())
  {
  }

  lemma {:induction false} CodesWidth(s: Scores, n: nat)
    requires s.Ok() && n <= s.Size()
    ensures |s.Codes(n)| == n * ScoreWidth(s.Kind())
  {
    if n > 0 {
      hide ScoreWidth, Scores.Code;
      CodesWidth(s, n - 1);
      CodeWidth(s, n - 1);
      NextMultiple(n - 1, ScoreWidth(s.Kind()));
    }
  }

  lemma {:induction false} CodeAt(s: Scores, data: Bytes, at: nat, n: nat, k: nat)
    requires s.Ok() && k < n <= s.Size() && LiesAt(data, at, s.Codes(n))
    ensures LiesAt(data, ScorePlace(at, s.Kind(), k), s.Code(k))
  {
    hide LiesAt, Scores.Code, ScoreWidth;
    LiesAtSplit(data, at, s.Codes(n - 1), s.Code(n - 1));
    if k < n - 1 {
      CodeAt(s, data, at, n - 1, k);
    } else {
      CodesWidth(s, k);
    }
  }

  lemma HighFirst(code: Bytes)
    ensures |code| == 2 ==> BigEndian(code) == 0x100 * Number(code, 0) + Number(code, 1)
    ensures |code| == 3 ==>
              BigEndian(code) == 0x1_0000 * Number(code, 0) + 0x100 * Number(code, 1) + Number(code, 2)
  {
    if |code| == 2 || |code| == 3 {
      assert BigEndian([]) == 0 && code[..1][..0] == [];
      assert BigEndian(code[..1]) == Number(code, 0);
      assert code[..2][..1] == code[..1] && BigEndian(code[..2]) == 0x100 * Number(code, 0) + Number(code, 1);
      assert |code| == 2 ==> code[..2] == code;
    }
  }

  /** A byte as a number. */
  function Number(data: Bytes, i: nat): nat
    requires i < |data|
  {
    data[i] as nat
  }

  lemma DistanceIs(d: nat)
    ensures d == d / 0x100 * 0x100 + d % 0x100
    ensures d == d / 0x1_0000 * 0x1_0000 + d / 0x100 % 0x100 * 0x100 + d % 0x100
  {
  }

  /** Integers that reach beyond 32 bits wrap around: the score is the remainder. */
  lemma ScoreWraps(data: Bytes, at: nat, least: nat)
    ensures at + 1 <= |data| ==>
              FlexiScore(data, at, 1, least) == Whole((least + Number(data, at)) % 0x1_0000_0000)
    ensures at + 2 <= |data| ==>
              FlexiScore(data, at, 2, least) ==
              Whole((least + 0x100 * Number(data, at) + Number(data, at + 1)) % 0x1_0000_0000)
    ensures at + 3 <= |data| ==>
              FlexiScore(data, at, 3, least) ==
              Whole((least + 0x1_0000 * Number(data, at) + 0x100 * Number(data, at + 1) + Number(data, at + 2))
                % 0x1_0000_0000)
  {
    hide BigEndian;
    if at + 2 <= |data| {
      HighFirst(data[at..at + 2]);
    }
    if at + 3 <= |data| {
      HighFirst(data[at..at + 3]);
    }
  }

  /** One score, read where it lies. */
  lemma ScoreRead(s: Scores, data: Bytes, at: nat, k: nat)
    requires s.Ok() && k < s.Size() && LiesAt(data, at, s.Code(k))
    ensures at + ScoreWidth(s.Kind()) <= |data|
    ensures FlexiScore(data, at, s.Kind(), if s.Floats? then 0 else s.least % 0x1_0000_0000) == s.At(k)
  {
    hide LiesAt, LittleEndian, DecodeFloat, BigEndian, FlexiScore, Scores.Code, IsDistance;
    CodeWidth(s, k);
    Lies(data, at, s.Code(k));
    if s.Floats? {
      FloatCode(s, k);
      FloatRead(s.bits[k], data, at);
    } else {
      CountCode(s, k);
      CountRead(s.width, s.least, s.values[k], data, at, s.Code(k));
    }
  }

  lemma CountRead(width: nat, least: nat, v: nat, data: Bytes, at: nat, code: Bytes)
    requires IsDistance(width, v - least, code) && LiesAt(data, at, code)
    requires least <= v < 0x1_0000_0000
    ensures at + width <= |data| && FlexiScore(data, at, width, least % 0x1_0000_0000) == Whole(v)
  {
    hide LiesAt, FlexiScore, Number, IsDistance;
    DistanceRead(width, v - least, data, at, code);
    ScoreWraps(data, at, least);
    assert least % 0x1_0000_0000 == least && v % 0x1_0000_0000 == v;
  }

  /** The bytes of a distance, highest first. */
  predicate IsDistance(width: nat, d: int, code: Bytes) {
    && d >= 0 && 1 <= width <= 3 && |code| == width
    && (width == 1 ==> code[0] as nat == d)
    && (width == 2 ==> d < 0x1_0000 && code[0] as nat == d / 0x100 && code[1] as nat == d % 0x100)
    && (width == 3 ==> d < 0x100_0000 && code[0] as nat == d / 0x1_0000
                       && code[1] as nat == d / 0x100 % 0x100 && code[2] as nat == d % 0x100)
  }

  lemma FloatCode(s: Scores, k: nat)
    requires s.Floats? && k < s.Size()
    ensures s.Code(k) == LittleEndian(s.bits[k], 4)
  {
    hide LittleEndian;
  }

  lemma CountCode(s: Scores, k: nat)
    requires s.Counts? && s.Ok() && k < s.Size()
    ensures s.least < 0x1_0000_0000 && s.values[k] < 0x1_0000_0000
    ensures IsDistance(s.width, s.values[k] - s.least, s.Code(k))
  {
  }

  lemma FloatRead(bits: Float, data: Bytes, at: nat)
    requires LiesAt(data, at, LittleEndian(bits, 4))
    ensures at + 4 <= |data| && FlexiScore(data, at, 0, 0) == Bits(bits)
  {
    hide LittleEndian, DecodeFloat, LiesAt;
    FloatRoundTrip(bits, data, at);
  }

  lemma DistanceRead(width: nat, d: nat, data: Bytes, at: nat, code: Bytes)
    requires IsDistance(width, d, code) && LiesAt(data, at, code)
    ensures 1 <= width <= 3 && |code| == width
    ensures at + width <= |data|
    ensures width == 1 ==> d == Number(data, at)
    ensures width == 2 ==> d == 0x100 * Number(data, at) + Number(data, at + 1)
    ensures width == 3 ==> d == 0x1_0000 * Number(data, at) + 0x100 * Number(data, at + 1) + Number(data, at + 2)
  {
    hide LiesAt;
    Lies(data, at, code);
    LiesAtByte(data, at, code, 0);
    if width > 1 {
      LiesAtByte(data, at, code, 1);
    }
    if width > 2 {
      LiesAtByte(data, at, code, 2);
    }
    DistanceIs(d);
  }

  lemma FlagsAre(kind: nat, one: bool)
    requires kind < 4
    ensures var flags := kind + if one then 0x80 else 0;
            flags < 0x100 && flags % 4 == kind && (flags >= 0x80 <==> one)
  {
  }

  lemma AllScoresRead(offsets: seq<nat>, s: Scores, one: bool, data: Bytes, at: nat, flags: Byte)
    requires Scored(s, one, |offsets|) && flags as nat == s.Kind() + if one then 0x80 else 0
    requires LiesAt(data, at, s.Codes(s.Size()))
    ensures at + |s.Codes(s.Size())| == ScorePlace(at, flags % 4, StoredCount(flags, |offsets|)) <= |data|
    ensures FlexiPoints(data, at, flags, if s.Floats? then 0 else s.least % 0x1_0000_0000, offsets) ==
            PointsOf(offsets, s, one)
  {
    hide LiesAt, FlexiScore, Scores.Codes, Scores.Code, Scores.At, ScoreWidth;
    FlagsAre(s.Kind(), one);
    CodesWidth(s, s.Size());
    Lies(data, at, s.Codes(s.Size()));
    var least := if s.Floats? then 0 else s.least % 0x1_0000_0000;
    forall i | 0 <= i < |offsets|
      ensures FlexiPoints(data, at, flags, least, offsets)[i] == PointsOf(offsets, s, one)[i] {
      var k := if one then 0 else i;
      CodeAt(s, data, at, s.Size(), k);
      ScoreRead(s, data, ScorePlace(at, s.Kind(), k), k);
    }
  }

  lemma ScoresRead(offsets: seq<nat>, s: Scores, one: bool, data: Bytes, at: nat)
    requires Scored(s, one, |offsets|) && LiesAt(data, at, ScoreBytes(s, one))
    ensures at + |ScoreBytes(s, one)| <= |data|
    ensures DecodeFlexiScores(data, at, offsets) ==
            Some(Record(PointsOf(offsets, s, one), at + |ScoreBytes(s, one)|))
  {
    hide LiesAt, I.Format, Parse, Scores.Codes, FlexiPoints, PointsOf, ScorePlace;
    FlagsAre(s.Kind(), one);
    var flags: Byte := s.Kind() + if one then 0x80 else 0;
    var a, b := if s.Floats? then [] else I.Format(s.least), s.Codes(s.Size());
    Lies(data, at, ScoreBytes(s, one));
    LiesAtByte(data, at, ScoreBytes(s, one), 0);
    LiesAtSplit(data, at, [flags], a + b);
    LiesAtSplit(data, at + 1, a, b);
    if !s.Floats? {
      ParseFormat(s.least, data, at + 1);
    }
    AllScoresRead(offsets, s, one, data, at + 1 + |a|, flags);
  }

  // ---------- Whole records ----------

  function FlexiBytes(offsets: seq<nat>, l: Layout, s: Scores, one: bool): Bytes
    requires offsets != [] && s.Ok()
  {
    [FLEXI] + (I.Format(|offsets|) + (I.Format(offsets[0]) + (I.Format(l.gcd) + (StepBytes(l) + ScoreBytes(s, one)))))
  }

  /** In each layout of the steps and of the scores, the parser reads exactly the offsets and the scores that
      were written, whatever lies around the record. */
  lemma FlexiRoundTrip(offsets: seq<nat>, l: Layout, s: Scores, one: bool)
    requires |offsets| < UINT64 && LayoutOk(l) && Grows(offsets, l) && Scored(s, one, |offsets|)
    ensures Series.Codes(FlexiBytes(offsets, l, s, one), PointsOf(offsets, s, one))
  {
    hide LiesAt, DecodeRecord, FlexiBytes, PointsOf, Scored, LayoutOk, Grows;
    OffsetsNotEmpty(offsets, l, s, one);
    var code := FlexiBytes(offsets, l, s, one);
    forall data: Bytes, at: nat | LiesAt(data, at, code)
      ensures at + |code| <= |data| && at < |data|
      ensures DecodeRecord(data, at) == Some(Record(PointsOf(offsets, s, one), at + |code|)) {
      RecordRead(offsets, l, s, one, data, at);
    }
  }

  lemma OffsetsNotEmpty(offsets: seq<nat>, l: Layout, s: Scores, one: bool)
    requires Grows(offsets, l) && Scored(s, one, |offsets|)
    ensures offsets != [] && s.Ok() && s.Size() == (if one then 1 else |offsets|)
    ensures FlexiBytes(offsets, l, s, one) != []
  {
    hide I.Format, StepBytes, ScoreBytes, Scores.Ok, Scores.Size;
  }

  lemma RecordRead(offsets: seq<nat>, l: Layout, s: Scores, one: bool, data: Bytes, at: nat)
    requires |offsets| < UINT64 && LayoutOk(l) && Grows(offsets, l) && Scored(s, one, |offsets|)
    requires LiesAt(data, at, FlexiBytes(offsets, l, s, one))
    ensures at < at + |FlexiBytes(offsets, l, s, one)| <= |data|
    ensures DecodeRecord(data, at) ==
            Some(Record(PointsOf(offsets, s, one), at + |FlexiBytes(offsets, l, s, one)|))
  {
    hide LiesAt, I.Format, Parse, StepBytes, ScoreBytes, DecodeFlexiSteps, DecodeFlexiScores, Accumulate, StepsOf;
    hide LayoutOk, PointsOf;
    var n, a, b, e, f := I.Format(|offsets|), I.Format(offsets[0]), I.Format(l.gcd), StepBytes(l), ScoreBytes(s, one);
    var code := FlexiBytes(offsets, l, s, one);
    Lies(data, at, code);
    LiesAtByte(data, at, code, 0);
    LiesAtSplit(data, at, [FLEXI], n + (a + (b + (e + f))));
    LiesAtSplit(data, at + 1, n, a + (b + (e + f)));
    LiesAtSplit(data, at + 1 + |n|, a, b + (e + f));
    LiesAtSplit(data, at + 1 + |n| + |a|, b, e + f);
    LiesAtSplit(data, at + 1 + |n| + |a| + |b|, e, f);
    GcdInRange(l);
    ParseFormat(|offsets|, data, at + 1);
    ParseFormat(offsets[0], data, at + 1 + |n|);
    ParseFormat(l.gcd, data, at + 1 + |n| + |a|);
    StepsRead(l, data, at + 1 + |n| + |a| + |b|);
    OffsetsAccumulate(l, offsets, |l.quantized|);
    assert StepsOf(l)[..|l.quantized|] == StepsOf(l) && offsets[..|l.quantized| + 1] == offsets;
    ScoresRead(offsets, s, one, data, at + 1 + |n| + |a| + |b| + |e|);
  }

  lemma GcdInRange(l: Layout)
    requires LayoutOk(l)
    ensures l.gcd < UINT64
  {
  }

  /** Such a record is a stream of its own. */
  lemma FlexiStream(offsets: seq<nat>, l: Layout, s: Scores, one: bool)
    requires |offsets| < UINT64 && LayoutOk(l) && Grows(offsets, l) && Scored(s, one, |offsets|)
    ensures offsets != [] && DecodeStream(FlexiBytes(offsets, l, s, one), 0) == Some(PointsOf(offsets, s, one))
  {
    hide Series.Codes, FlexiBytes, PointsOf, LayoutOk, Grows, Scored, DecodeStream, LiesAt;
    OffsetsNotEmpty(offsets, l, s, one);
    FlexiRoundTrip(offsets, l, s, one);
    var code, ps := FlexiBytes(offsets, l, s, one), PointsOf(offsets, s, one);
    assert Concat([code]) == code + Concat<Byte>([]) == code && Concat([ps]) == ps + Concat<Point>([]) == ps;
    assert code[0..] == code;
    Lies(code, 0, code);
    StreamOfRecords([code], [ps], code, 0);
  }

  /** One point at offset 5 with the least score 100 and the byte 7 has the score 107. */
  lemma LeastScoreExample()
    ensures DecodeStream([6, 1, 5, 0, 1, 100, 7], 0) == Some([Plain(5, Whole(107))])
  {
    hide DecodeStream, I.Format, LayoutOk, StepBytes, ScoreBytes, Scores.Codes, Scores.Code;
    var l, s := Layout(0, 0, 0, [], []), Counts(1, 100, [107]);
    ExampleParts(l, s);
    FlexiStream([5], l, s, false);
    assert FlexiBytes([5], l, s, false) == [6, 1, 5, 0, 1, 100, 7];
    assert PointsOf([5], s, false) == [Plain(5, Whole(107))];
  }

  lemma ExampleParts(l: Layout, s: Scores)
    requires l == Layout(0, 0, 0, [], []) && s == Counts(1, 100, [107])
    ensures LayoutOk(l) && StepBytes(l) == [] && s.Ok() && ScoreBytes(s, false) == [1, 100, 7]
    ensures I.Format(1) == [1] && I.Format(5) == [5] && I.Format(0) == [0]
  {
    hide I.Format;
    SmallFormat(1);
    SmallFormat(5);
    SmallFormat(0);
    SmallFormat(100);
    assert s.Codes(0) == [] && s.Code(0) == [7] && s.Codes(1) == [] + [7];
  }

  lemma SmallFormat(v: nat)
    requires v < 0x80
    ensures I.Format(v) == [v]
  {
    NoGroup();
  }

  /** Three points from offset 5 on, with steps of 1 and 2 in one byte (the low half first), and one score for
      all: the least score 300 and the byte 7. */
  lemma HalfByteExample()
    ensures DecodeStream([6, 3, 5, 1, 0, 2, 0x21, 0x81, 0x82, 0x2c, 7], 0) ==
            Some([Plain(5, Whole(307)), Plain(6, Whole(307)), Plain(8, Whole(307))])
  {
    hide DecodeStream, I.Format, LayoutOk, Grows, StepBytes, ScoreBytes, Scores.Codes, Scores.Code;
    var l, s := Layout(1, 0, 2, [1, 2], [0x21]), Counts(1, 300, [307]);
    HalfByteSteps(l);
    HalfByteScores(s);
    SmallFormat(1);
    SmallFormat(3);
    SmallFormat(5);
    FlexiStream([5, 6, 8], l, s, true);
    assert FlexiBytes([5, 6, 8], l, s, true) == [6, 3, 5, 1, 0, 2, 0x21, 0x81, 0x82, 0x2c, 7];
    assert PointsOf([5, 6, 8], s, true) == [Plain(5, Whole(307)), Plain(6, Whole(307)), Plain(8, Whole(307))];
  }

  lemma HalfByteSteps(l: Layout)
    requires l == Layout(1, 0, 2, [1, 2], [0x21])
    ensures LayoutOk(l) && Grows([5, 6, 8], l) && StepBytes(l) == [0, 2, 0x21]
  {
    hide I.Format, Expand, Packed;
    SmallFormat(0);
    SmallFormat(2);
    HalfBytePacked();
    var offsets := [5, 6, 8];
    forall i | 0 <= i < 2 ensures offsets[i + 1] == offsets[i] + l.gcd * (l.least + l.quantized[i]) {
      assert i == 0 || i == 1;
    }
  }

  lemma HalfBytePacked()
    ensures Packed([1, 2]) == [0x21] && Expand([0x21]) == Some([0x21])
  {
    assert [0x21][1..] == [] && Expand([]) == Some([]) && [0x21] + [] == [0x21];
  }

  lemma HalfByteScores(s: Scores)
    requires s == Counts(1, 300, [307])
    ensures s.Ok() && ScoreBytes(s, true) == [0x81, 0x82, 0x2c, 7]
  {
    hide I.Format;
    TwoGroups();
    assert s.Codes(0) == [] && s.Code(0) == [7] && s.Codes(1) == [] + [7];
  }

  lemma TwoGroups()
    ensures I.Format(300) == [0x82, 0x2c]
  {
    NoGroup();
    assert HighGroups(2) == HighGroups(0) + [0x82];
  }
}

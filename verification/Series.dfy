/** Choosing a record for a series, the single-point record, and streams of records. */
module Series {
  import opened Bytes
  import opened Table
  import opened Integers
  import opened Points
  import opened Decode
  import opened Format
  import opened OrderedSet
  import opened Encoder
  import opened Floats
  import Varint

  // ---------- The record of a single point ----------

  /** What a single-point record keeps of a score: the integer, when three bytes can hold it or its
      complement, or else the bits of the float. */
  function Shown(f: Float): Score {
    match IntegerValue(f)
    case Some(n) => if -0x100_0000 <= n <= 0xff_ffff then Whole(n) else Bits(f)
    case None => Bits(f)
  }

  function Magnitude(n: int): nat {
    if n >= 0 then n else -1 - n
  }

  function SingleType(s: Score): Byte {
    match s
    case Bits(_) => SINGLE_FLOAT
    case Whole(n) =>
      var m := Magnitude(n);
      (if m <= 0xff then SINGLE_POSITIVE_1 else if m <= 0xffff then SINGLE_POSITIVE_2 else SINGLE_POSITIVE_3)
      + if n >= 0 then 0 else 1
  }

  function SingleBytes(offset: nat, s: Score): Bytes {
    var payload := match s case Bits(f) => f as nat case Whole(n) => Magnitude(n);
    [SingleType(s)] + (Varint.Encode(offset) + LittleEndian(payload, SingleWidth(SingleType(s))))
  }

  lemma LowByte(v: nat, n: nat)
    ensures LittleEndian(v, 0) == [] && LittleEndian(v, n + 1) == [v % 0x100] + LittleEndian(v / 0x100, n)
  {
  }

  /** The low bytes of a number, one shift at a time. */
  lemma LowBytes(v: nat)
    ensures LittleEndian(v, 1) == [v % 0x100]
    ensures LittleEndian(v, 2) == [v % 0x100, v / 0x100 % 0x100]
    ensures LittleEndian(v, 3) == [v % 0x100, v / 0x100 % 0x100, v / 0x1_0000 % 0x100]
  {
    hide LittleEndian;
    var w, x := v / 0x100, v / 0x1_0000;
    assert w / 0x100 == x;
    LowByte(v, 0);
    LowByte(v, 1);
    LowByte(v, 2);
    LowByte(w, 0);
    LowByte(w, 1);
    LowByte(x, 0);
    LowByte(w / 0x100, 0);
    LowByte(x / 0x100, 0);
  }

  method EncodeSingle(value: Point) returns (o: Bytes)
    requires value.InRange()
    ensures o == SingleBytes(value.offset, Shown(value.score.f))
  {
    hide LittleEndian, IntegerValue;
    var type_, score: nat := SINGLE_FLOAT, 0;
    var rounded := IntegerValue(value.score.f);
    if rounded.Some? {
      if rounded.value >= 0 {
        score := rounded.value;
        if score <= 0xff {
          type_ := SINGLE_POSITIVE_1;
        } else if score <= 0xffff {
          type_ := SINGLE_POSITIVE_2;
        } else if score <= 0xff_ffff {
          type_ := SINGLE_POSITIVE_3;
        }
      } else {
        score := -1 - rounded.value;
        if score <= 0xff {
          type_ := SINGLE_NEGATIVE_1;
        } else if score <= 0xffff {
          type_ := SINGLE_NEGATIVE_2;
        } else if score <= 0xff_ffff {
          type_ := SINGLE_NEGATIVE_3;
        }
      }
    }
    assert type_ == SingleType(Shown(value.score.f));
    o := [type_];
    var offset := Varint.ValueEncode(value.offset);
    var payload: Bytes;
    if type_ == SINGLE_FLOAT {
      payload := LittleEndian(value.score.f, 4);
    } else {
      LowBytes(score);
      payload := [score % 0x100];
      if type_ >= SINGLE_POSITIVE_2 {
        payload := payload + [score / 0x100 % 0x100];
      }
      if type_ >= SINGLE_POSITIVE_3 {
        payload := payload + [score / 0x1_0000 % 0x100];
      }
    }
    o := o + (offset + payload);
  }

  /** What a record that was written as `code` decodes to, whatever lies around it. */
  ghost predicate Codes(code: Bytes, points: seq<Point>) {
    && code != []
    && forall data: Bytes, at: nat :: LiesAt(data, at, code) ==>
         at + |code| <= |data| && at < |data| && DecodeRecord(data, at) == Some(Record(points, at + |code|))
  }

  lemma Widths()
    ensures Power256(1) == 0x100 && Power256(2) == 0x1_0000 && Power256(3) == 0x100_0000 && Power256(4) == 0x1_0000_0000
  {
  }

  lemma PayloadRoundTrip(s: Score, data: Bytes, at: nat)
    requires s.Whole? ==> -0x100_0000 <= s.n <= 0xff_ffff
    requires var payload := match s case Bits(f) => f as nat case Whole(n) => Magnitude(n);
             LiesAt(data, at, LittleEndian(payload, SingleWidth(SingleType(s))))
    ensures SINGLE_FLOAT <= SingleType(s) <= SINGLE_NEGATIVE_3
    ensures at + SingleWidth(SingleType(s)) <= |data| && SingleScore(SingleType(s), data, at) == s
  {
    hide LittleEndian, FromLittleEndian, Power256;
    Widths();
    match s {
      case Bits(f) => FloatRoundTrip(f, data, at);
      case Whole(n) => LittleEndianRoundTrip(Magnitude(n), SingleWidth(SingleType(s)));
    }
  }

  lemma {:induction false} VarintEnds(v: nat, data: Bytes, at: nat)
    requires LiesAt(data, at, Varint.Encode(v))
    ensures at <= |data| && Ends(data, at)
    decreases v
  {
    LiesAtByte(data, at, Varint.Encode(v), 0);
    if v >= 0x80 {
      LiesAtSplit(data, at, [v % 0x80 + 0x80], Varint.Encode(v / 0x80));
      VarintEnds(v / 0x80, data, at + 1);
    }
  }

  lemma VarintRoundTrip(v: nat, data: Bytes, at: nat)
    requires v < UINT64 && LiesAt(data, at, Varint.Encode(v))
    ensures at + |Varint.Encode(v)| <= |data| && ParseVarint(data, at) == Some((v, at + |Varint.Encode(v)|))
  {
    hide Varint.Decode, Varint.Encode, LiesAt, Ends;
    Lies(data, at, Varint.Encode(v));
    VarintEnds(v, data, at);
    Varint.DecodeEncode(v, data, at);
  }

  lemma SingleAt(offset: nat, s: Score, data: Bytes, at: nat)
    requires offset < UINT64 && (s.Whole? ==> -0x100_0000 <= s.n <= 0xff_ffff)
    requires LiesAt(data, at, SingleBytes(offset, s))
    ensures at < at + |SingleBytes(offset, s)| <= |data|
    ensures DecodeRecord(data, at) == Some(Record([Plain(offset, s)], at + |SingleBytes(offset, s)|))
  {
    hide LiesAt, Varint.Encode, LittleEndian, ParseVarint, SingleScore, Magnitude;
    var payload := match s case Bits(f) => f as nat case Whole(n) => Magnitude(n);
    var code, a, b := SingleBytes(offset, s), Varint.Encode(offset), LittleEndian(payload, SingleWidth(SingleType(s)));
    Lies(data, at, code);
    LiesAtByte(data, at, code, 0);
    LiesAtSplit(data, at, [SingleType(s)], a + b);
    LiesAtSplit(data, at + 1, a, b);
    VarintRoundTrip(offset, data, at + 1);
    PayloadRoundTrip(s, data, at + 1 + |a|);
  }

  /** A single-point record keeps the offset and the number that the score is. */
  lemma SingleRoundTrip(offset: nat, s: Score)
    requires offset < UINT64 && (s.Whole? ==> -0x100_0000 <= s.n <= 0xff_ffff)
    ensures Codes(SingleBytes(offset, s), [Plain(offset, s)])
  {
    hide LiesAt, DecodeRecord, Varint.Encode, LittleEndian, SingleType;
    var code := SingleBytes(offset, s);
    forall data: Bytes, at: nat | LiesAt(data, at, code)
      ensures at + |code| <= |data| && at < |data|
              && DecodeRecord(data, at) == Some(Record([Plain(offset, s)], at + |code|)) {
      hide SingleBytes;
      SingleAt(offset, s, data, at);
    }
  }

  /** What is shown is the number that the float is. */
  lemma ShownIsExact(f: Float)
    ensures Shown(f).Bits? ==> Shown(f).f == f
    ensures Shown(f).Whole? ==> Denotes(f, Shown(f).n) && -0x100_0000 <= Shown(f).n <= 0xff_ffff
  {
    if Shown(f).Whole? {
      IntegerValueIsExact(f, Shown(f).n);
    }
  }

  /** A single-point record tells all floats apart, except the two zeros. */
  lemma OnlyZerosAreConfused(f: Float, g: Float)
    ensures Shown(f) == Shown(g) <==> f == g || (f % 0x8000_0000 == 0 && g % 0x8000_0000 == 0)
  {
    if Shown(f) == Shown(g) {
      ShownIsExact(f);
      ShownIsExact(g);
      if Shown(f).Whole? {
        IntegerDeterminesFloat(f, g, Shown(f).n);
      }
    }
    if f % 0x8000_0000 == 0 && g % 0x8000_0000 == 0 {
      ZeroIsShown(f);
      ZeroIsShown(g);
    }
  }

  lemma ZeroIsShown(f: Float)
    requires f % 0x8000_0000 == 0
    ensures Shown(f) == Whole(0)
  {
    hide Pow2, IntegerValue;
    assert f == 0 || f == 0x8000_0000;
    assert Significand(f) == 0;
    assert Denotes(f, 0);
    IntegerValueIsExact(f, 0);
  }

  // ---------- Formatting a series ----------

  /** No bytes are written for a series that is out of order, and packed records are not part of this model. */
  datatype Outcome = Written(bytes: Bytes) | OutOfOrder | Packed

  predicate AnyBands(values: seq<Point>) {
    exists i :: 0 <= i < |values| && values[i].HasBands()
  }

  /** What the stored form keeps of a series. */
  function Stored(values: seq<Point>): seq<Point>
    requires InRange(values)
  {
    if |values| == 1 && !AnyBands(values) then [Plain(values[0].offset, Shown(values[0].score.f))] else Kept(values)
  }

  lemma WithPredictionCodes(ps: seq<Point>, code: Bytes)
    requires ps != [] && SortedByOffset(ps) && InRange(ps) && IsRecord(ps, code)
    ensures Codes(code, Kept(ps)) && code[0] == WITH_PREDICTION
  {
    hide LiesAt, DecodeRecord, RecordBytes, SortedByOffset, InRange, FormOk, Kept, Increasing;
    var form :| FormOk(ps, form) && (form.dict.Some? ==> Increasing(form.dict.value))
      && code == [WITH_PREDICTION] + RecordBytes(ps, form);
    forall data: Bytes, at: nat | LiesAt(data, at, code)
      ensures at + |code| <= |data| && at < |data| && DecodeRecord(data, at) == Some(Record(Kept(ps), at + |code|)) {
      WithPredictionRoundTrip(ps, form, data, at);
    }
  }

  lemma EmptyCodes()
    ensures Codes([EMPTY], [])
  {
    forall data: Bytes, at: nat | LiesAt(data, at, [EMPTY])
      ensures at + 1 <= |data| && DecodeRecord(data, at) == Some(Record([], at + 1)) {
      LiesAtByte(data, at, [EMPTY], 0);
    }
  }

  lemma {:induction false} VarintLength(v: nat)
    requires v < UINT64
    ensures |Varint.Encode(v)| <= 10
  {
    hide *;
    Varint.SpaceIsLength(v);
    PowerOf64();
    UsedBitsBound(v, 64);
    SpaceOfBits(v);
  }

  lemma PowerOf64()
    ensures Pow2(64) == UINT64
  {
    assert Pow2(4) == 0x10;
    assert Pow2(8) == 0x100;
    hide Pow2;
    Pow2Sum(8, 8);
    Pow2Sum(16, 16);
    Pow2Sum(32, 32);
  }

  lemma SpaceOfBits(v: nat)
    requires Varint.UsedBits(v) <= 64
    ensures Varint.ValueSpace(v) <= 10
  {
  }

  lemma {:induction false} UsedBitsBound(v: nat, n: nat)
    requires v < Pow2(n)
    ensures Varint.UsedBits(v) <= n
  {
    if v != 0 {
      UsedBitsBound(v / 2, n - 1);
    }
  }

  /** Every series that is sorted, and has percentiles or at most one point, is written within the
      space reserved for it, in a form that decodes to what is kept of it. */
  method FormatOffsetScore(values: seq<Point>) returns (r: Outcome)
    requires InRange(values)
    ensures r.OutOfOrder? <==> AnyBands(values) && !SortedByOffset(values)
    ensures r.Packed? <==> !AnyBands(values) && |values| > 1
    ensures r.Written? ==> Codes(r.bytes, Stored(values)) && |r.bytes| <= 32 + 32 * |values|
    ensures r.Written? ==> r.bytes[0] != FLEXI && (r.bytes[0] == WITH_PREDICTION ==> values != [])
  {
    hide Point.HasBands, SortedByOffset, Codes, IsRecord, Kept;
    if values == [] {
      EmptyCodes();
      NothingKept();
      return Written([EMPTY]);
    }
    var hasBands := false;
    for i := 0 to |values|
      invariant !hasBands && forall k :: 0 <= k < i ==> !values[k].HasBands()
    {
      if values[i].HasBands() {
        hasBands := true;
        break;
      }
    }
    if hasBands {
      var output := EncodeWithPrediction(values);
      if output.None? {
        return OutOfOrder;
      }
      WithPredictionCodes(values, output.value);
      RecordFits(values, output.value);
      r := Written(output.value);
    } else if |values| == 1 {
      var o := EncodeSingle(values[0]);
      ShownIsExact(values[0].score.f);
      SingleRoundTrip(values[0].offset, Shown(values[0].score.f));
      VarintLength(values[0].offset);
      r := Written(o);
    } else {
      r := Packed;
    }
  }

  lemma NothingKept()
    ensures Kept([]) == [] && !AnyBands([])
  {
  }

  // ---------- Streams ----------

  lemma DecodeStreamStep(data: Bytes, at: nat, record: Record)
    requires at < |data| && DecodeRecord(data, at) == Some(record)
    ensures DecodeStream(data, at) ==
            if DecodeStream(data, record.next).Some? then Some(record.points + DecodeStream(data, record.next).value)
              else None
  {
  }

  lemma CodesAt(code: Bytes, points: seq<Point>, data: Bytes, at: nat)
    requires Codes(code, points) && LiesAt(data, at, code)
    ensures at < at + |code| <= |data|
    ensures DecodeRecord(data, at) == Some(Record(points, at + |code|))
  {
    hide LiesAt, DecodeRecord;
  }

  ghost predicate AllCode(codes: seq<Bytes>, series: seq<seq<Point>>) {
    |codes| == |series| && forall i :: 0 <= i < |codes| ==> Codes(codes[i], series[i])
  }

  lemma FirstCodes(codes: seq<Bytes>, series: seq<seq<Point>>)
    requires codes != [] && AllCode(codes, series)
    ensures series != [] && Codes(codes[0], series[0]) && AllCode(codes[1..], series[1..])
    ensures Concat(codes) == codes[0] + Concat(codes[1..]) && Concat(series) == series[0] + Concat(series[1..])
  {
    hide Codes;
  }

  lemma NoRecords(codes: seq<Bytes>, series: seq<seq<Point>>, data: Bytes)
    requires codes == [] && AllCode(codes, series)
    ensures |Concat(codes)| == 0 && Concat(series) == [] && DecodeStream(data, |data|) == Some([])
  {
  }

  /** Encodings laid end to end decode to the series laid end to end. */
  lemma {:induction false} StreamOfRecords(codes: seq<Bytes>, series: seq<seq<Point>>, data: Bytes, at: nat)
    requires AllCode(codes, series) && LiesAt(data, at, Concat(codes)) && at + |Concat(codes)| == |data|
    ensures DecodeStream(data, at) == Some(Concat(series))
    decreases |codes|
  {
    hide *;
    if codes == [] {
      NoRecords(codes, series, data);
    } else {
      FirstCodes(codes, series);
      LiesAtSplit(data, at, codes[0], Concat(codes[1..]));
      CodesAt(codes[0], series[0], data, at);
      DecodeStreamStep(data, at, Record(series[0], at + |codes[0]|));
      StreamOfRecords(codes[1..], series[1..], data, at + |codes[0]|);
    }
  }

  lemma TwoRecords(a: Bytes, p: seq<Point>, b: Bytes, q: seq<Point>)
    requires Codes(a, p) && Codes(b, q)
    ensures DecodeStream(a + b, 0) == Some(p + q)
  {
    hide Codes, DecodeStream;
    assert Concat([a, b]) == a + Concat([b]) == a + (b + Concat<Byte>([])) == a + b;
    assert Concat([p, q]) == p + Concat([q]) == p + (q + Concat<Point>([])) == p + q;
    StreamOfRecords([a, b], [p, q], a + b, 0);
  }
}

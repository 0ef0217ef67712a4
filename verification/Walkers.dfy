/** The three walkers over streams of offset/score records agree. */
module Walkers {
  import opened Bytes
  import opened Table
  import opened I = Integers
  import opened Rle
  import opened Points
  import opened Decode
  import opened Format
  import opened WithPrediction
  import opened Flexi
  import opened Series
  import Varint

  method ReadVarint(data: Bytes, at: nat) returns (r: Option<(nat, nat)>)
    requires at <= |data|
    ensures r == ParseVarint(data, at)
  {
    if !Ends(data, at) {
      return None;
    }
    EndsDecode(data, at);
    var value, next := Varint.ValueDecode(data, at);
    r := Some((value % UINT64, next));
  }

  lemma FewBytes(data: Bytes, at: nat)
    ensures at + 1 <= |data| ==> FromLittleEndian(data[at..at + 1]) == data[at]
    ensures at + 2 <= |data| ==> FromLittleEndian(data[at..at + 2]) == Shifted(data[at], data[at + 1], 0)
    ensures at + 3 <= |data| ==> FromLittleEndian(data[at..at + 3]) == Shifted(data[at], data[at + 1], data[at + 2])
  {
    hide FromLittleEndian;
    if at + 1 <= |data| {
      LowFirst(data, at, 0);
    }
    if at + 2 <= |data| {
      LowFirst(data, at, 1);
      LowFirst(data, at + 1, 0);
    }
    if at + 3 <= |data| {
      LowFirst(data, at, 2);
      LowFirst(data, at + 1, 1);
      LowFirst(data, at + 2, 0);
    }
  }

  lemma LowFirst(data: Bytes, at: nat, n: nat)
    requires at + n + 1 <= |data|
    ensures var low: nat := data[at];
            FromLittleEndian(data[at..at + n + 1]) == low + 0x100 * FromLittleEndian(data[at + 1..at + 1 + n])
    ensures FromLittleEndian([]) == 0 && data[at + n + 1..at + n + 1] == []
  {
    assert data[at..at + n + 1][1..] == data[at + 1..at + 1 + n];
  }

  function Shifted(low: nat, middle: nat, high: nat): nat {
    low + 0x100 * middle + 0x1_0000 * high
  }

  method ParseSingle(type_: Byte, data: Bytes, at: nat) returns (r: Option<Record>)
    requires SINGLE_FLOAT <= type_ <= SINGLE_NEGATIVE_3 && at <= |data|
    ensures r == DecodeSingle(type_, data, at)
  {
    hide ParseVarint, FromLittleEndian, DecodeFloat;
    var p := ReadVarint(data, at);
    if p.None? {
      return None;
    }
    var (offset, a) := p.value;
    FewBytes(data, a);
    if type_ == SINGLE_FLOAT {
      if a + 4 > |data| {
        return None;
      }
      return Some(Record([Plain(offset, Bits(DecodeFloat(data, a)))], a + 4));
    }
    var width := if type_ <= SINGLE_NEGATIVE_1 then 1 else if type_ <= SINGLE_NEGATIVE_2 then 2 else 3;
    if a + width > |data| {
      return None;
    }
    var score: int := data[a];
    if width >= 2 {
      score := Shifted(data[a], data[a + 1], 0);
    }
    if width == 3 {
      score := Shifted(data[a], data[a + 1], data[a + 2]);
    }
    if type_ == SINGLE_NEGATIVE_1 || type_ == SINGLE_NEGATIVE_2 || type_ == SINGLE_NEGATIVE_3 {
      score := -1 - score;
    }
    r := Some(Record([Plain(offset, Whole(score))], a + width));
  }

  /** `ca_offset_score_parse`. */
  method OffsetScoreParse(data: Bytes) returns (r: Option<seq<Point>>)
    ensures r == DecodeStream(data, 0)
  {
    hide DecodeStream, DecodeWithPrediction, DecodeFlexi, DecodeSingle;
    var output: seq<Point>, begin := [], 0;
    StreamSteps(data, 0);
    while begin < |data|
      invariant begin <= |data|
      invariant DecodeStream(data, 0) ==
                if DecodeStream(data, begin).Some? then Some(output + DecodeStream(data, begin).value) else None
    {
      StreamSteps(data, begin);
      var type_ := data[begin];
      var record: Option<Record> := None;
      if type_ == WITH_PREDICTION {
        record := ParseWithPrediction(data, begin + 1);
      } else if type_ == FLEXI {
        record := ParseFlexi(data, begin + 1);
      } else if SINGLE_FLOAT <= type_ <= SINGLE_NEGATIVE_3 {
        record := ParseSingle(type_, data, begin + 1);
      } else if type_ == EMPTY {
        record := Some(Record([], begin + 1));
      }
      if record.None? {
        return None;
      }
      assert forall rest :: output + (record.value.points + rest) == output + record.value.points + rest;
      output := output + record.value.points;
      begin := record.value.next;
    }
    StreamSteps(data, |data|);
    assert output + [] == output;
    r := Some(output);
  }

  lemma StreamSteps(data: Bytes, at: nat)
    requires at <= |data|
    ensures DecodeStream(data, |data|) == Some([])
    ensures DecodeStream(data, at).Some? ==> [] + DecodeStream(data, at).value == DecodeStream(data, at).value
    ensures at < |data| ==>
              DecodeStream(data, at) ==
              match DecodeRecord(data, at)
              case None => None
              case Some(record) =>
                match DecodeStream(data, record.next)
                case None => None
                case Some(rest) => Some(record.points + rest)
  {
    hide DecodeRecord;
  }

  /** The counter for single-point records skips the score. */
  method SkipSingle(type_: Byte, data: Bytes, at: nat) returns (r: Option<(nat, nat)>)
    requires SINGLE_FLOAT <= type_ <= SINGLE_NEGATIVE_3 && at <= |data|
    ensures DecodeSingle(type_, data, at).Some? ==>
              r == Some((LastOffset(DecodeSingle(type_, data, at).value.points),
                DecodeSingle(type_, data, at).value.next))
    ensures DecodeSingle(type_, data, at).Some? ==> |DecodeSingle(type_, data, at).value.points| == 1
    ensures r.Some? ==> r.value.1 > at
  {
    hide ParseVarint, SingleScore;
    var p := ReadVarint(data, at);
    if p.None? {
      return None;
    }
    var next := p.value.1;
    if type_ == SINGLE_FLOAT {
      next := next + 4;
    } else if type_ == SINGLE_POSITIVE_1 || type_ == SINGLE_NEGATIVE_1 {
      next := next + 1;
    } else if type_ == SINGLE_POSITIVE_2 || type_ == SINGLE_NEGATIVE_2 {
      next := next + 2;
    } else {
      next := next + 3;
    }
    r := Some((p.value.0, next));
  }

  /** What remains to be counted on a stream that the parser accepts. */
  ghost predicate Remains(data: Bytes, begin: nat, counted: nat) {
    && begin <= |data|
    && (DecodeStream(data, 0).Some? ==>
          DecodeStream(data, begin).Some?
            && |DecodeStream(data, 0).value| == counted + |DecodeStream(data, begin).value|)
  }

  lemma CountOne(data: Bytes, begin: nat, counted: nat, record: Record)
    requires Remains(data, begin, counted) && begin < |data| && DecodeStream(data, 0).Some?
    requires DecodeRecord(data, begin) == Some(record)
    ensures Remains(data, record.next, counted + |record.points|)
  {
    hide DecodeStream, DecodeRecord;
    StreamSteps(data, begin);
  }

  lemma RecordIsThere(data: Bytes, begin: nat, counted: nat)
    requires Remains(data, begin, counted) && begin < |data| && DecodeStream(data, 0).Some?
    ensures DecodeRecord(data, begin).Some?
  {
    hide DecodeRecord;
    StreamSteps(data, begin);
  }

  /** `ca_offset_score_count`: on every stream that the parser accepts, the number of points. */
  method OffsetScoreCount(data: Bytes) returns (r: Option<nat>)
    ensures DecodeStream(data, 0).Some? ==> r == Some(|DecodeStream(data, 0).value|)
  {
    hide DecodeStream, DecodeWithPrediction, DecodeFlexi, DecodeSingle, Remains;
    var result: nat, begin: nat := 0, 0;
    NothingCounted(data);
    while begin < |data|
      invariant DecodeStream(data, 0).Some? ==> Remains(data, begin, result)
      decreases if begin < |data| then |data| - begin else 0
    {
      if DecodeStream(data, 0).Some? {
        RecordIsThere(data, begin, result);
        CountOne(data, begin, result, DecodeRecord(data, begin).value);
      }
      var type_ := data[begin];
      if type_ == WITH_PREDICTION {
        var record := ParseWithPrediction(data, begin + 1);
        if record.None? {
          return None;
        }
        result, begin := result + |record.value.points|, record.value.next;
      } else if type_ == FLEXI {
        var counted := CountFlexi(data, begin + 1);
        if counted.None? {
          return None;
        }
        result, begin := result + counted.value.0, counted.value.1;
      } else if SINGLE_FLOAT <= type_ <= SINGLE_NEGATIVE_3 {
        var skipped := SkipSingle(type_, data, begin + 1);
        if skipped.None? {
          return None;
        }
        result, begin := result + 1, skipped.value.1;
      } else if type_ == EMPTY {
        begin := begin + 1;
      } else {
        return None;
      }
    }
    CountedAll(data, begin, result);
    r := Some(result);
  }

  lemma NothingCounted(data: Bytes)
    ensures Remains(data, 0, 0)
  {
  }

  lemma CountedAll(data: Bytes, begin: nat, counted: nat)
    requires DecodeStream(data, 0).Some? ==> Remains(data, begin, counted)
    requires begin >= |data|
    ensures DecodeStream(data, 0).Some? ==> counted == |DecodeStream(data, 0).value|
  {
    StreamSteps(data, |data|);
  }

  // ---------- The maximum walker ----------

  function Max(a: nat, b: nat): nat {
    if a >= b then a else b
  }

  /** The largest of the last offsets of all records. */
  function LargestLast(data: Bytes, at: nat): nat
    requires at <= |data| && DecodeStream(data, at).Some?
    decreases |data| - at
  {
    if at == |data| then 0
    else
      var record := DecodeRecord(data, at).value;
      Max(LastOffset(record.points), LargestLast(data, record.next))
  }

  /** The streams, among those that the parser accepts, that the maximum walker accepts: there is no
      with-prediction record without points, and the walker's reading of a Flexi record ends with the data. */
  predicate MaxAccepts(data: Bytes, at: nat)
    requires at <= |data| && DecodeStream(data, at).Some?
    decreases |data| - at
  {
    if at == |data| then true
    else
      var record := DecodeRecord(data, at).value;
      && (data[at] == WITH_PREDICTION ==> record.points != [])
      && (data[at] == FLEXI ==> MaxEnd(data, at + 1) == Some(|data|))
      && MaxAccepts(data, record.next)
  }

  lemma {:induction false} ParseEnds(data: Bytes, at: nat, a: nat, b: nat)
    requires at <= |data|
    ensures ParseFrom(data, at, a).Some? <==> ParseFrom(data, at, b).Some?
    ensures ParseFrom(data, at, a).Some? ==> ParseFrom(data, at, a).value.1 == ParseFrom(data, at, b).value.1
    decreases |data| - at
  {
    if at < |data| && data[at] >= 0x80 {
      hide Shift;
      ParseEnds(data, at + 1, Shift(a, data[at]), Shift(b, data[at]));
    }
  }

  /** Where an integer that starts one byte later ends. */
  lemma ParseTail(data: Bytes, at: nat)
    requires at <= |data| && Parse(data, at).Some?
    ensures at < |data|
    ensures data[at] < 0x80 ==> Parse(data, at).value.1 == at + 1
    ensures data[at] >= 0x80 ==> Parse(data, at + 1).Some? && Parse(data, at + 1).value.1 == Parse(data, at).value.1
  {
    hide Shift;
    if data[at] >= 0x80 {
      ParseEnds(data, at + 1, Shift(0, data[at]), 0);
    }
  }

  lemma HeaderParts(data: Bytes, at: nat) returns (offsets: seq<nat>)
    requires at <= |data| && DecodeFlexi(data, at).Some? && StepsAreOverlooked(data, at)
    ensures var c := FlexiHeader(data, at).value.3;
            && Parse(data, c).Some? && Parse(data, Parse(data, c).value.1).Some? && |offsets| == 1
            && DecodeFlexiScores(data, Parse(data, Parse(data, c).value.1).value.1, offsets) == DecodeFlexi(data, at)
  {
    hide Parse, DecodeFlexiScores, Accumulate, ReadMany, ParseMany;
    var (_, first, gcd, c) := FlexiHeader(data, at).value;
    var b := Parse(data, Parse(data, c).value.1).value.1;
    var steps := DecodeFlexiSteps(data, c, gcd, 0).value;
    NothingRead(data, b);
    ParseManyStep(data, b, 0);
    offsets := Accumulate(first, steps.0);
  }

  lemma ScoresTake(data: Bytes, at: nat, offsets: seq<nat>)
    requires at <= |data| && DecodeFlexiScores(data, at, offsets).Some? && |offsets| == 1
    ensures DecodeFlexiScores(data, at, offsets).value.next >= at + 3
  {
    hide Parse, FlexiPoints;
  }

  lemma OneScoreEnd(data: Bytes, at: nat)
    requires at < |data|
    ensures FlexiScoresEnd(data, at, 1) ==
            if data[at] % 4 == 0 then Some(at + 5)
            else if Parse(data, at + 1).Some? then Some(Parse(data, at + 1).value.1 + data[at] % 4)
            else None
  {
    hide Parse;
  }

  /** Overlooking the steps makes the walker stop no later than the parser, so when it stops at the end
      of the data the record is the last one all the same. */
  lemma OverlookedEndsEarlier(data: Bytes, at: nat)
    requires at <= |data| && DecodeFlexi(data, at).Some? && MaxEnd(data, at).Some?
    ensures MaxEnd(data, at).value <= DecodeFlexi(data, at).value.next
  {
    hide Parse, DecodeFlexi, DecodeFlexiScores, FlexiHeader, FlexiScoresEnd;
    if StepsAreOverlooked(data, at) {
      var offsets := HeaderParts(data, at);
      var c := FlexiHeader(data, at).value.3;
      var d := Parse(data, c).value.1;
      var e := Parse(data, d).value.1;
      ScoresTake(data, e, offsets);
      ParseTail(data, c);
      OneScoreEnd(data, c);
    }
  }

  /** What the walker has seen of a stream that the parser accepts: it goes on from the start of a
      record, the rest of the stream being in order if and only if the whole stream is. */
  ghost predicate Seen(data: Bytes, begin: nat, result: nat) {
    && begin <= |data| && DecodeStream(data, 0).Some? && DecodeStream(data, begin).Some?
    && (MaxAccepts(data, 0) <==> MaxAccepts(data, begin))
    && LargestLast(data, 0) == Max(result, LargestLast(data, begin))
  }

  lemma SeenStep(data: Bytes, begin: nat, result: nat)
    requires begin < |data| && Seen(data, begin, result)
    ensures DecodeRecord(data, begin).Some?
    ensures var record := DecodeRecord(data, begin).value;
            && (data[begin] == WITH_PREDICTION && record.points == [] ==> !MaxAccepts(data, 0))
            && (data[begin] == FLEXI && MaxEnd(data, begin + 1) != Some(|data|) ==> !MaxAccepts(data, 0))
            && ((data[begin] == WITH_PREDICTION ==> record.points != [])
                && (data[begin] == FLEXI ==> MaxEnd(data, begin + 1) == Some(|data|))
                ==> Seen(data, record.next, Max(result, LastOffset(record.points))))
  {
    hide DecodeRecord, LastOffset, MaxEnd;
    StreamSteps(data, begin);
  }

  lemma FlexiIsLast(data: Bytes, begin: nat)
    requires begin < |data| && data[begin] == FLEXI && DecodeRecord(data, begin).Some?
    requires MaxEnd(data, begin + 1) == Some(|data|)
    ensures DecodeRecord(data, begin).value.next == |data|
  {
    hide DecodeFlexi, MaxEnd;
    OverlookedEndsEarlier(data, begin + 1);
  }

  /** `ca_offset_score_max_offset`: on every stream that the parser accepts, either the largest of the
      records' last offsets, or a failure; and it does not fail exactly on the streams described above. */
  method OffsetScoreMaxOffset(data: Bytes) returns (r: Option<nat>)
    ensures DecodeStream(data, 0).Some? ==> r == if MaxAccepts(data, 0) then Some(LargestLast(data, 0)) else None
  {
    hide DecodeStream, DecodeWithPrediction, DecodeFlexi, DecodeSingle, Seen, MaxAccepts, LargestLast, LastOffset,
         MaxEnd;
    var result: nat, begin: nat := 0, 0;
    NothingSeen(data);
    while begin < |data|
      invariant DecodeStream(data, 0).Some? ==> Seen(data, begin, result)
      decreases if begin < |data| then |data| - begin else 0
    {
      if DecodeStream(data, 0).Some? {
        SeenStep(data, begin, result);
        if data[begin] == FLEXI && MaxEnd(data, begin + 1) == Some(|data|) {
          FlexiIsLast(data, begin);
        }
      }
      NoLastOffset();
      var type_ := data[begin];
      var offset: nat := 0;
      if type_ == WITH_PREDICTION {
        var last := GetMaxOffsetWithPrediction(data, begin + 1);
        if last.None? {
          return None;
        }
        offset, begin := last.value.0, last.value.1;
      } else if type_ == FLEXI {
        var last := GetMaxOffsetFlexi(data, begin + 1);
        if last.None? {
          return None;
        }
        offset, begin := last.value.0, last.value.1;
      } else if SINGLE_FLOAT <= type_ <= SINGLE_NEGATIVE_3 {
        var skipped := SkipSingle(type_, data, begin + 1);
        if skipped.None? {
          return None;
        }
        offset, begin := skipped.value.0, skipped.value.1;
      } else if type_ == EMPTY {
        begin := begin + 1;
      } else {
        return None;
      }
      if offset > result {
        result := offset;
      }
    }
    if DecodeStream(data, 0).Some? {
      SeenAll(data, begin, result);
    }
    r := Some(result);
  }

  lemma NothingSeen(data: Bytes)
    ensures DecodeStream(data, 0).Some? ==> Seen(data, 0, 0)
  {
    hide DecodeStream, MaxAccepts, LargestLast;
  }

  lemma SeenAll(data: Bytes, begin: nat, result: nat)
    requires begin >= |data| && Seen(data, begin, result)
    ensures MaxAccepts(data, 0) && LargestLast(data, 0) == result
  {
    hide DecodeStream;
    assert MaxAccepts(data, |data|) && LargestLast(data, |data|) == 0;
  }

  // ---------- The maximum walker against the parsed points ----------

  function Largest(points: seq<Point>): nat {
    if points == [] then 0 else Max(points[0].offset, Largest(points[1..]))
  }

  lemma {:induction false} LargestAppend(a: seq<Point>, b: seq<Point>)
    ensures Largest(a + b) == Max(Largest(a), Largest(b))
  {
    if a == [] {
      assert a + b == b;
    } else {
      LargestAppend(a[1..], b);
      assert (a + b)[1..] == a[1..] + b;
    }
  }

  /** The last offset is one of the offsets, and the largest of them when they ascend. */
  lemma {:induction false} LastAndLargest(points: seq<Point>)
    ensures LastOffset(points) <= Largest(points)
    ensures SortedByOffset(points) ==> LastOffset(points) == Largest(points)
  {
    if |points| == 1 {
      assert points[1..] == [];
    } else if points != [] {
      LastAndLargest(points[1..]);
      assert LastOffset(points[1..]) == LastOffset(points);
      assert SortedByOffset(points) ==> points[0].offset <= points[|points| - 1].offset;
    }
  }

  /** No record wraps around: the offsets of each of them ascend. */
  predicate RecordsAscend(data: Bytes, at: nat)
    requires at <= |data| && DecodeStream(data, at).Some?
    decreases |data| - at
  {
    if at == |data| then true
    else
      var record := DecodeRecord(data, at).value;
      SortedByOffset(record.points) && RecordsAscend(data, record.next)
  }

  /** The largest last offset is never more than the largest parsed offset, and equal to it unless the
      sums of a record wrap around. */
  lemma {:induction false} LargestLastIsLargest(data: Bytes, at: nat)
    requires at <= |data| && DecodeStream(data, at).Some?
    ensures LargestLast(data, at) <= Largest(DecodeStream(data, at).value)
    ensures RecordsAscend(data, at) ==> LargestLast(data, at) == Largest(DecodeStream(data, at).value)
    decreases |data| - at
  {
    hide *;
    LargestLastStep(data, at);
    if at < |data| {
      var record := DecodeRecord(data, at).value;
      LargestLastIsLargest(data, record.next);
      LastAndLargest(record.points);
      LargestAppend(record.points, DecodeStream(data, record.next).value);
      MaxIsMonotone(LastOffset(record.points), Largest(record.points), LargestLast(data, record.next),
                    Largest(DecodeStream(data, record.next).value));
    }
  }

  lemma LargestLastStep(data: Bytes, at: nat)
    requires at <= |data| && DecodeStream(data, at).Some?
    ensures at == |data| ==> LargestLast(data, at) == 0 && Largest(DecodeStream(data, at).value) == 0
    ensures at < |data| ==>
              && DecodeRecord(data, at).Some?
              && var record := DecodeRecord(data, at).value;
                 && at < record.next <= |data|
                 && DecodeStream(data, record.next).Some?
                 && DecodeStream(data, at).value == record.points + DecodeStream(data, record.next).value
                 && LargestLast(data, at) == Max(LastOffset(record.points), LargestLast(data, record.next))
                 && (RecordsAscend(data, at) <==> SortedByOffset(record.points) && RecordsAscend(data, record.next))
  {
    hide DecodeRecord, SortedByOffset, LastOffset;
    StreamSteps(data, at);
  }

  lemma MaxIsMonotone(a: nat, b: nat, c: nat, d: nat)
    requires a <= b && c <= d
    ensures Max(a, c) <= Max(b, d)
  {
  }

  /** Some record ends with the offset `x`. */
  ghost predicate SomeRecordEndsWith(data: Bytes, at: nat, x: nat)
    requires at <= |data| && DecodeStream(data, at).Some?
    decreases |data| - at
  {
    at < |data|
    && var record := DecodeRecord(data, at).value;
       (record.points != [] && LastOffset(record.points) == x) || SomeRecordEndsWith(data, record.next, x)
  }

  lemma {:induction false} LargestLastIsSome(data: Bytes, at: nat, x: nat)
    requires at <= |data| && DecodeStream(data, at).Some? && LargestLast(data, at) <= x
    ensures LargestLast(data, at) == x <==> x == 0 || SomeRecordEndsWith(data, at, x)
    decreases |data| - at
  {
    hide DecodeRecord;
    StreamSteps(data, at);
    if at < |data| {
      LargestLastIsSome(data, DecodeRecord(data, at).value.next, x);
    }
  }

  /** An accepted stream gives the largest of all offsets exactly when some record ends with it: a record
      whose sums wrap around can have it in its middle. */
  lemma LargestIsSeen(data: Bytes)
    requires DecodeStream(data, 0).Some?
    ensures var largest := Largest(DecodeStream(data, 0).value);
            LargestLast(data, 0) == largest <==> largest == 0 || SomeRecordEndsWith(data, 0, largest)
  {
    hide *;
    LargestLastIsLargest(data, 0);
    LargestLastIsSome(data, 0, Largest(DecodeStream(data, 0).value));
  }

  /** Two points whose offsets are 5 and, the step being two less than 2 to the 64, 3: the walker accepts
      the record and gives 3. */
  lemma WrappedOffsetsExample()
    ensures var data: Bytes := [WITH_PREDICTION, 2, 5, 0] + I.Format(UINT64 - 2) + [0, 0, 0, 0, 0, 0, 0, 0, 0];
            && DecodeStream(data, 0) == Some([Plain(5, Bits(0)), Plain(3, Bits(0))])
            && MaxAccepts(data, 0) && LargestLast(data, 0) == 3
  {
    hide FromLittleEndian, Accumulate, ReadMany, ParseMany, DecodeStream, I.Format, Parse, LiesAt, DecodePoints;
    var step := I.Format(UINT64 - 2);
    var data: Bytes := [WITH_PREDICTION, 2, 5, 0] + step + [0, 0, 0, 0, 0, 0, 0, 0, 0];
    var e := 4 + |step|;
    OneByte(data, 1);
    OneByte(data, 2);
    OneByte(data, 3);
    assert LiesAt(data, 4, step) by {
      LiesInMiddle([WITH_PREDICTION, 2, 5, 0], step, [0, 0, 0, 0, 0, 0, 0, 0, 0]);
    }
    ParseFormat(UINT64 - 2, data, 4);
    ParseManyStep(data, 4, 0);
    ReadOneByte(data, e);
    WrappedOffsets();
    TwoZeroScores(data, e + 1);
    assert [] + [UINT64 - 2] == [UINT64 - 2];
    assert DecodeSteps(data, 3, 2) == Some(([UINT64 - 2], e)) && DecodeBytes(data, e, 1) == Some(([0], e + 1));
    var points := [Plain(5, Bits(0)), Plain(3, Bits(0))];
    assert points + [] == points && DecodeRecord(data, 0) == Some(Record(points, |data|));
    StreamSteps(data, 0);
    StreamSteps(data, |data|);
    assert LargestLast(data, |data|) == 0 && MaxAccepts(data, |data|);
  }

  lemma LiesInMiddle(a: Bytes, code: Bytes, b: Bytes)
    ensures LiesAt(a + code + b, |a|, code)
  {
    assert (a + code + b)[|a|..|a| + |code|] == code;
  }

  lemma WrappedOffsets()
    ensures Accumulate(5, [UINT64 - 2]) == [5, 3]
  {
    AccumulatePush(5, [], UINT64 - 2);
    assert [] + [UINT64 - 2] == [UINT64 - 2] && Accumulate(5, []) == [5];
    assert Add64(5, UINT64 - 2) == 3;
  }

  lemma TwoZeroScores(data: Bytes, at: nat)
    requires at + 8 == |data| && forall i :: at <= i < |data| ==> data[i] == 0
    ensures DecodePoints(data, at, [5, 3], [0], 2) == Some(([Plain(5, Bits(0)), Plain(3, Bits(0))], |data|))
  {
    hide DecodeFloat;
    ZeroFloat(data, at);
    ZeroFloat(data, at + 4);
    var p, q := Plain(5, Bits(0)), Plain(3, Bits(0));
    assert !Bit(0, 0) && !Bit(0, 1);
    assert DecodePoint(data, at, 5, false) == Some((p, at + 4))
           && DecodePoint(data, at + 4, 3, false) == Some((q, at + 8));
    assert DecodePoints(data, at, [5, 3], [0], 0) == Some(([], at));
    assert DecodePoints(data, at, [5, 3], [0], 1) == Some(([] + [p], at + 4));
    assert [] + [p] == [p] && [p] + [q] == [p, q];
  }

  /** A Flexi record of one point with a common divisor that the parser accepts and the maximum walker
      does not: the point is at offset 5. */
  lemma OverlookedStepsExample()
    ensures var data: Bytes := [FLEXI, 1, 5, 1, 3, 0, 0, 0, 0, 0, 0];
            && DecodeStream(data, 0) == Some([Plain(5, Bits(0))])
            && !MaxAccepts(data, 0)
  {
    hide FromLittleEndian, Accumulate, ReadMany, ParseMany, DecodeStream;
    var data: Bytes := [FLEXI, 1, 5, 1, 3, 0, 0, 0, 0, 0, 0];
    OneByte(data, 1);
    OneByte(data, 2);
    OneByte(data, 3);
    OneByte(data, 4);
    OneByte(data, 5);
    ZeroFloat(data, 7);
    NoAccumulation(5);
    assert DecodeFlexiSteps(data, 4, 1, 0) == Some(([], 6));
    ExampleScores(data);
    StreamSteps(data, 0);
    StreamSteps(data, 11);
    assert DecodeRecord(data, 0) == Some(Record([Plain(5, Bits(0))], 11));
    assert StepsAreOverlooked(data, 1);
    OneScoreEnd(data, 4);
    assert [Plain(5, Bits(0))] + [] == [Plain(5, Bits(0))];
  }

  lemma OneByte(data: Bytes, at: nat)
    requires at < |data| && data[at] < 0x80
    ensures Parse(data, at) == Some((data[at] as nat, at + 1))
  {
  }

  lemma ZeroFloat(data: Bytes, at: nat)
    requires at + 4 <= |data| && data[at] == data[at + 1] == data[at + 2] == data[at + 3] == 0
    ensures DecodeFloat(data, at) == 0
  {
    hide FromLittleEndian;
    LowFirst(data, at, 3);
    LowFirst(data, at + 1, 2);
    LowFirst(data, at + 2, 1);
    LowFirst(data, at + 3, 0);
  }

  lemma ExampleScores(data: Bytes)
    requires |data| == 11 && data[6] == 0 && DecodeFloat(data, 7) == 0
    ensures DecodeFlexiScores(data, 6, [5]) == Some(Record([Plain(5, Bits(0))], 11))
  {
    hide DecodeFloat;
    assert ScorePlace(7, 0, 1) == 11 && ScorePlace(7, 0, 0) == 7;
    assert FlexiPoints(data, 7, 0, 0, [5]) == [PointAt(data, 7, 0, 0, 5, 0)];
  }

  // ---------- What the encoder writes ----------

  ghost predicate AllWritten(codes: seq<Bytes>, series: seq<seq<Point>>) {
    && AllCode(codes, series)
    && forall i :: 0 <= i < |codes| ==>
         SortedByOffset(series[i]) && codes[i] != [] && codes[i][0] != FLEXI
           && (codes[i][0] == WITH_PREDICTION ==> series[i] != [])
  }

  lemma FirstWritten(codes: seq<Bytes>, series: seq<seq<Point>>)
    requires codes != [] && AllWritten(codes, series)
    ensures series != [] && AllWritten(codes[1..], series[1..]) && SortedByOffset(series[0]) && codes[0] != []
    ensures codes[0][0] != FLEXI && (codes[0][0] == WITH_PREDICTION ==> series[0] != [])
  {
    hide Codes, SortedByOffset;
  }

  lemma AcceptsStep(data: Bytes, at: nat, record: Record)
    requires at < |data| && DecodeRecord(data, at) == Some(record) && DecodeStream(data, record.next).Some?
    requires MaxAccepts(data, record.next) && RecordsAscend(data, record.next) && SortedByOffset(record.points)
    requires data[at] != FLEXI && (data[at] == WITH_PREDICTION ==> record.points != [])
    ensures DecodeStream(data, at).Some? && MaxAccepts(data, at) && RecordsAscend(data, at)
  {
    hide DecodeRecord, SortedByOffset, MaxEnd;
    StreamSteps(data, at);
  }

  lemma AcceptsEnd(data: Bytes)
    ensures DecodeStream(data, |data|).Some? && MaxAccepts(data, |data|) && RecordsAscend(data, |data|)
  {
  }

  lemma NothingWritten(codes: seq<Bytes>)
    requires codes == []
    ensures |Concat(codes)| == 0
  {
  }

  /** The walker accepts encodings laid end to end, and no sum wraps around. */
  lemma {:induction false} WrittenIsAccepted(codes: seq<Bytes>, series: seq<seq<Point>>, data: Bytes, at: nat)
    requires AllWritten(codes, series) && LiesAt(data, at, Concat(codes)) && at + |Concat(codes)| == |data|
    ensures DecodeStream(data, at).Some? && MaxAccepts(data, at) && RecordsAscend(data, at)
    decreases |codes|
  {
    hide *;
    if codes == [] {
      NothingWritten(codes);
      AcceptsEnd(data);
    } else {
      FirstWritten(codes, series);
      FirstOfWritten(codes, series);
      LiesAtSplit(data, at, codes[0], Concat(codes[1..]));
      LiesAtByte(data, at, codes[0], 0);
      CodesAt(codes[0], series[0], data, at);
      WrittenIsAccepted(codes[1..], series[1..], data, at + |codes[0]|);
      AcceptsStep(data, at, Record(series[0], at + |codes[0]|));
    }
  }

  /** On encodings laid end to end, the maximum walker gives the largest offset of all series. */
  lemma MaxOfWritten(codes: seq<Bytes>, series: seq<seq<Point>>, data: Bytes, at: nat)
    requires AllWritten(codes, series) && LiesAt(data, at, Concat(codes)) && at + |Concat(codes)| == |data|
    ensures DecodeStream(data, at) == Some(Concat(series))
    ensures MaxAccepts(data, at) && RecordsAscend(data, at) && LargestLast(data, at) == Largest(Concat(series))
  {
    hide *;
    StreamOfWritten(codes, series, data, at);
    WrittenIsAccepted(codes, series, data, at);
    LargestLastIsLargest(data, at);
  }

  lemma FirstOfWritten(codes: seq<Bytes>, series: seq<seq<Point>>)
    requires codes != [] && AllWritten(codes, series)
    ensures Codes(codes[0], series[0]) && Concat(codes) == codes[0] + Concat(codes[1..])
  {
    hide Codes, SortedByOffset;
    FirstCodes(codes, series);
  }

  lemma StreamOfWritten(codes: seq<Bytes>, series: seq<seq<Point>>, data: Bytes, at: nat)
    requires AllWritten(codes, series) && LiesAt(data, at, Concat(codes)) && at + |Concat(codes)| == |data|
    ensures DecodeStream(data, at) == Some(Concat(series))
  {
    hide DecodeStream, Codes, SortedByOffset, LiesAt, Concat;
    StreamOfRecords(codes, series, data, at);
  }
}

/** The three walkers of Flexi records: the parser, the counter and the maximum walker. */
module Flexi {
  import opened Bytes
  import opened Table
  import opened Integers
  import opened Rle
  import opened Points
  import opened Decode
  import opened WithPrediction

  /** The offsets behind `first`, for quantized steps. */
  function OffsetsBy(first: nat, gcd: nat, least: nat, quantized: seq<nat>): (r: seq<nat>)
    ensures |r| == |quantized| + 1
  {
    Accumulate(first, Scale(gcd, least, quantized))
  }

  lemma OffsetsByPush(first: nat, gcd: nat, least: nat, quantized: seq<nat>, q: nat)
    ensures OffsetsBy(first, gcd, least, []) == [first]
    ensures var r := OffsetsBy(first, gcd, least, quantized);
            OffsetsBy(first, gcd, least, quantized + [q]) == r + [Add64(r[|quantized|], Mul64(gcd, Add64(least, q)))]
  {
    hide Accumulate, Mul64, Add64;
    NoAccumulation(first);
    assert Scale(gcd, least, []) == [];
    assert Scale(gcd, least, quantized + [q]) == Scale(gcd, least, quantized) + [Mul64(gcd, Add64(least, q))];
    AccumulatePush(first, Scale(gcd, least, quantized), Mul64(gcd, Add64(least, q)));
  }

  /** The same for quantized steps that may be missing, with the place behind them. */
  function AllBy(first: nat, gcd: nat, least: nat, quantized: Option<(seq<nat>, nat)>): Option<(seq<nat>, nat)> {
    if quantized.None? then None else Some((OffsetsBy(first, gcd, least, quantized.value.0), quantized.value.1))
  }

  function LastBy(first: nat, gcd: nat, least: nat, quantized: Option<(seq<nat>, nat)>): Option<(nat, nat)> {
    if quantized.None? then None else Some((LastOf(OffsetsBy(first, gcd, least, quantized.value.0)), quantized.value.1))
  }

  lemma ByQuantized(first: nat, gcd: nat, least: nat, quantized: seq<nat>, next: nat)
    ensures AllBy(first, gcd, least, None) == None && LastBy(first, gcd, least, None) == None
    ensures AllBy(first, gcd, least, Some((quantized, next))) == Some((OffsetsBy(first, gcd, least, quantized), next))
    ensures LastBy(first, gcd, least, Some((quantized, next))) ==
            Some((LastOf(OffsetsBy(first, gcd, least, quantized)), next))
  {
  }

  /** What the number of bytes read from a run-length code amounts to. */
  lemma CodeRead(data: Bytes, at: nat, n: nat)
    requires at <= |data|
    ensures ReadMany(data, at, 0, n).None? ==> DecodeBytes(data, at, n) == None
    ensures ReadMany(data, at, 0, n).Some? ==>
              DecodeBytes(data, at, n) ==
              if ReadMany(data, at, 0, n).value.2 == 0
              then Some((ReadMany(data, at, 0, n).value.0, ReadMany(data, at, 0, n).value.1)) else None
    ensures ReadMany(data, at, 0, (n + 1) / 2).None? ==> DecodeNibbles(data, at, n) == None
    ensures ReadMany(data, at, 0, (n + 1) / 2).Some? ==>
              DecodeNibbles(data, at, n) ==
              if ReadMany(data, at, 0, (n + 1) / 2).value.2 == 0
              then Some((Nibbles(ReadMany(data, at, 0, (n + 1) / 2).value.0, n),
                ReadMany(data, at, 0, (n + 1) / 2).value.1)) else None
  {
    hide ReadMany, Nibbles;
  }

  function PlaceBehind(values: Option<(seq<nat>, nat)>): Option<nat> {
    if values.None? then None else Some(values.value.1)
  }

  function Zeros(n: nat): (r: seq<nat>)
    ensures |r| == n
  {
    seq(n, _ => 0)
  }

  lemma ZerosPush(n: nat)
    ensures Zeros(0) == [] && Zeros(n + 1) == Zeros(n) + [0]
  {
  }

  lemma NibblesPush(bytes: Bytes, b: Byte)
    ensures Nibbles([], 0) == []
    ensures Nibbles(bytes + [b], 2 * |bytes| + 1) == Nibbles(bytes, 2 * |bytes|) + [b % 0x10]
    ensures Nibbles(bytes + [b], 2 * |bytes| + 2) == Nibbles(bytes, 2 * |bytes|) + [b % 0x10] + [b / 0x10]
  {
  }

  // ---------- The parser's offsets ----------

  /** Steps that are all the same. */
  method EqualSteps(first: nat, gcd: nat, least: nat, n: nat) returns (offsets: seq<nat>)
    requires least < UINT64
    ensures offsets == OffsetsBy(first, gcd, least, Zeros(n))
  {
    hide *;
    offsets := [first];
    OffsetsByPush(first, gcd, least, [], 0);
    ZerosPush(0);
    NoChange(least);
    for i := 0 to n
      invariant offsets == OffsetsBy(first, gcd, least, Zeros(i))
    {
      ZerosPush(i);
      OffsetsByPush(first, gcd, least, Zeros(i), 0);
      offsets := offsets + [Add64(offsets[i], Mul64(gcd, least))];
    }
  }

  lemma NoChange(least: nat)
    requires least < UINT64
    ensures Add64(least, 0) == least
  {
  }

  /** Two steps in each byte. */
  method NibbleSteps(data: Bytes, at: nat, first: nat, gcd: nat, least: nat, n: nat)
    returns (r: Option<(seq<nat>, nat)>)
    requires at <= |data|
    ensures r == AllBy(first, gcd, least, DecodeNibbles(data, at, n))
  {
    hide *;
    var rle := new RleReader(data, at);
    var offsets := [first];
    ghost var got: Bytes := [];
    CodeRead(data, at, n);
    ByQuantized(first, gcd, least, [], 0);
    ReaderState(rle);
    NothingRead(data, at);
    NibblesPush([], 0);
    OffsetsByPush(first, gcd, least, [], 0);
    var i := 0;
    while i < n
      invariant i <= n + 1 && rle.Valid() && fresh(rle) && rle.data == data && rle.start == at
      invariant rle.count == |got| == (i + 1) / 2 && rle.got == got && (i < n ==> i % 2 == 0) && (i > n ==> i % 2 == 0)
      invariant var m := if i <= n then i else n;
                m <= 2 * |got| && offsets == OffsetsBy(first, gcd, least, Nibbles(got, m))
    {
      var tmp := rle.ReadRleByte();
      if tmp.None? {
        ReadManyFails(data, at, 0, |got| + 1, (n + 1) / 2);
        return None;
      }
      NibblesPush(got, tmp.value);
      OffsetsByPush(first, gcd, least, Nibbles(got, i), tmp.value % 0x10);
      OffsetsByPush(first, gcd, least, Nibbles(got, i) + [tmp.value % 0x10], tmp.value / 0x10);
      offsets := offsets + [Add64(offsets[i], Mul64(gcd, Add64(least, tmp.value % 0x10)))];
      if i + 1 < n {
        offsets := offsets + [Add64(offsets[i + 1], Mul64(gcd, Add64(least, tmp.value / 0x10)))];
      }
      got := got + [tmp.value];
      i := i + 2;
    }
    ReaderState(rle);
    ByQuantized(first, gcd, least, Nibbles(got, n), rle.at);
    r := if rle.run == 0 then Some((offsets, rle.at)) else None;
  }

  lemma ReaderState(rle: RleReader)
    requires rle.Valid()
    ensures rle.start <= |rle.data| && rle.at <= |rle.data|
    ensures ReadMany(rle.data, rle.start, 0, rle.count) == Some((rle.got, rle.at, rle.run))
  {
    hide ReadMany;
  }

  /** One step in each byte. */
  method ByteSteps(data: Bytes, at: nat, first: nat, gcd: nat, least: nat, n: nat) returns (r: Option<(seq<nat>, nat)>)
    requires at <= |data|
    ensures r == AllBy(first, gcd, least, DecodeBytes(data, at, n))
  {
    hide *;
    var rle := new RleReader(data, at);
    var offsets := [first];
    ghost var got: Bytes := [];
    CodeRead(data, at, n);
    ByQuantized(first, gcd, least, [], 0);
    ReaderState(rle);
    NothingRead(data, at);
    OffsetsByPush(first, gcd, least, [], 0);
    for i := 0 to n
      invariant rle.Valid() && fresh(rle) && rle.data == data && rle.start == at
      invariant rle.count == |got| == i && rle.got == got
      invariant offsets == OffsetsBy(first, gcd, least, got)
    {
      var b := rle.ReadRleByte();
      if b.None? {
        ReadManyFails(data, at, 0, i + 1, n);
        return None;
      }
      OffsetsByPush(first, gcd, least, got, b.value);
      offsets := offsets + [Add64(offsets[i], Mul64(gcd, Add64(least, b.value)))];
      got := got + [b.value];
    }
    ReaderState(rle);
    ByQuantized(first, gcd, least, got, rle.at);
    r := if rle.run == 0 then Some((offsets, rle.at)) else None;
  }

  method IntegerSteps(data: Bytes, at: nat, first: nat, gcd: nat, least: nat, n: nat)
    returns (r: Option<(seq<nat>, nat)>)
    requires at <= |data|
    ensures r == AllBy(first, gcd, least, ParseMany(data, at, n))
  {
    hide *;
    var offsets, next := [first], at;
    ghost var got: seq<nat> := [];
    ByQuantized(first, gcd, least, [], 0);
    ParseManyStep(data, at, 0);
    OffsetsByPush(first, gcd, least, [], 0);
    for i := 0 to n
      invariant next <= |data| && |got| == i && ParseMany(data, at, i) == Some((got, next))
      invariant offsets == OffsetsBy(first, gcd, least, got)
    {
      ParsedOne(data, at, i, got, next);
      var p := ParseInteger(data, next);
      if p.None? {
        return None;
      }
      OffsetsByPush(first, gcd, least, got, p.value.0);
      offsets := offsets + [Add64(offsets[i], Mul64(gcd, Add64(least, p.value.0)))];
      got := got + [p.value.0];
      next := p.value.1;
    }
    ByQuantized(first, gcd, least, got, next);
    r := Some((offsets, next));
  }

  /** Without a common divisor all offsets are the first one. */
  method RepeatOffset(first: nat, n: nat) returns (offsets: seq<nat>)
    requires first < UINT64
    ensures offsets == Accumulate(first, Zeros(n))
  {
    hide Accumulate, Zeros, Add64;
    offsets := [first];
    NoAccumulation(first);
    ZerosPush(0);
    for i := 0 to n
      invariant offsets == Accumulate(first, Zeros(i)) && forall k :: 0 <= k <= i ==> offsets[k] == first
    {
      ZerosPush(i);
      AccumulatePush(first, Zeros(i), 0);
      NoChange(first);
      offsets := offsets + [first];
    }
  }

  method ReadFlexiOffsets(data: Bytes, at: nat, first: nat, gcd: nat, count: nat) returns (r: Option<(seq<nat>, nat)>)
    requires at <= |data| && count > 0 && first < UINT64
    ensures r == OffsetsFrom(first, DecodeFlexiSteps(data, at, gcd, count - 1))
  {
    hide Parse, ParseMany, Accumulate, ReadMany, Add64, Sub64, Nibbles, Scale;
    if gcd == 0 {
      var offsets := RepeatOffset(first, count - 1);
      return Some((offsets, at));
    }
    var p := ParseInteger(data, at);
    if p.None? {
      return None;
    }
    var least := p.value.0;
    var q := ParseInteger(data, p.value.1);
    if q.None? {
      return None;
    }
    var most, b := Add64(q.value.0, least), q.value.1;
    WidthOfRange(q.value.0, least);
    if least == most {
      var offsets := EqualSteps(first, gcd, least, count - 1);
      r := Some((offsets, b));
    } else if Sub64(most, least) <= 0x0f {
      r := NibbleSteps(data, b, first, gcd, least, count - 1);
    } else if Sub64(most, least) <= 0xff {
      r := ByteSteps(data, b, first, gcd, least, count - 1);
    } else {
      r := IntegerSteps(data, b, first, gcd, least, count - 1);
    }
  }

  // ---------- Scores ----------

  /** Score `k` of those that start at `at`. */
  predicate ScoreLies(data: Bytes, at: nat, kind: nat, least: nat, k: nat, score: Score)
    requires kind < 4
  {
    && ScorePlace(at, kind, k) + ScoreWidth(kind) <= |data|
    && score == FlexiScore(data, ScorePlace(at, kind, k), kind, least)
  }

  ghost predicate ScoresLie(data: Bytes, at: nat, kind: nat, least: nat, scores: seq<Score>)
    requires kind < 4
  {
    forall k :: 0 <= k < |scores| ==> ScoreLies(data, at, kind, least, k, scores[k])
  }

  lemma ScoresLiePush(data: Bytes, at: nat, kind: nat, least: nat, scores: seq<Score>)
    requires kind < 4 && ScoresLie(data, at, kind, least, scores)
    requires ScorePlace(at, kind, |scores|) + ScoreWidth(kind) <= |data|
    ensures ScoresLie(data, at, kind, least, scores + [FlexiScore(data, ScorePlace(at, kind, |scores|), kind, least)])
  {
    hide FlexiScore, ScoreWidth, ScorePlace;
  }

  lemma NoScoresLie(data: Bytes, at: nat, kind: nat, least: nat)
    requires kind < 4
    ensures ScoresLie(data, at, kind, least, [])
  {
  }

  method ReadStoredScores(data: Bytes, at: nat, kind: nat, least: nat, n: nat) returns (r: Option<(seq<Score>, nat)>)
    requires at <= |data| && kind < 4
    ensures r.Some? <==> ScorePlace(at, kind, n) <= |data|
    ensures r.Some? ==> |r.value.0| == n && r.value.1 == ScorePlace(at, kind, n)
    ensures r.Some? ==> ScoresLie(data, at, kind, least, r.value.0)
  {
    hide FlexiScore, ScoreWidth, ScorePlace, ScoresLie;
    NoScoresLie(data, at, kind, least);
    var scores: seq<Score>, begin := [], at;
    ScorePlaces(at, kind, 0, 0);
    for i := 0 to n
      invariant begin == ScorePlace(at, kind, i) && |scores| == i && begin <= |data|
      invariant ScoresLie(data, at, kind, least, scores)
    {
      ScorePlaces(at, kind, i, n);
      if begin + ScoreWidth(kind) > |data| {
        return None;
      }
      ScoresLiePush(data, at, kind, least, scores);
      scores := scores + [FlexiScore(data, begin, kind, least)];
      begin := begin + ScoreWidth(kind);
    }
    r := Some((scores, begin));
  }

  lemma PointsFromScores(data: Bytes, at: nat, flags: Byte, least: nat, offsets: seq<nat>, scores: seq<Score>,
                         points: seq<Point>)
    requires ScorePlace(at, flags % 4, StoredCount(flags, |offsets|)) <= |data|
    requires |scores| == StoredCount(flags, |offsets|) && ScoresLie(data, at, flags % 4, least, scores)
    requires |points| == |offsets|
    requires forall i :: 0 <= i < |points| ==> points[i] == Plain(offsets[i], scores[if flags >= 0x80 then 0 else i])
    ensures points == FlexiPoints(data, at, flags, least, offsets)
  {
    hide FlexiScore, ScoreWidth, ScorePlace;
    var spec := FlexiPoints(data, at, flags, least, offsets);
    forall i | 0 <= i < |points| ensures points[i] == spec[i] {
      var k := if flags >= 0x80 then 0 else i;
      assert ScoreLies(data, at, flags % 4, least, k, scores[k]);
    }
  }

  /** The flags, the least score and the place of the scores. */
  function FlexiScoresHeader(data: Bytes, at: nat): (r: Option<(Byte, nat, nat)>)
    requires at <= |data|
    ensures r.Some? ==> at < r.value.2 <= |data|
  {
    if at == |data| then None
    else if data[at] % 4 == 0 then Some((data[at], 0, at + 1))
    else
      match Parse(data, at + 1)
      case None => None
      case Some((least, a)) => Some((data[at], least, a))
  }

  method ReadFlexiScoresHeader(data: Bytes, at: nat) returns (r: Option<(Byte, nat, nat)>)
    requires at <= |data|
    ensures r == FlexiScoresHeader(data, at)
  {
    hide Parse;
    if at == |data| {
      return None;
    }
    if data[at] % 4 == 0 {
      return Some((data[at], 0, at + 1));
    }
    var p := ParseInteger(data, at + 1);
    r := if p.None? then None else Some((data[at], p.value.0, p.value.1));
  }

  lemma ScoresByHeader(data: Bytes, at: nat, offsets: seq<nat>)
    requires at <= |data|
    ensures DecodeFlexiScores(data, at, offsets) ==
            match FlexiScoresHeader(data, at)
            case None => None
            case Some((flags, least, a)) =>
              var end := ScorePlace(a, flags % 4, StoredCount(flags, |offsets|));
              if end > |data| then None
              else Some(Record(FlexiPoints(data, a, flags, least % 0x1_0000_0000, offsets), end))
  {
    hide Parse, FlexiPoints, ScorePlace;
  }

  /** The scores that are stored, then the first one for all other points. */
  method ReadFlexiScores(data: Bytes, at: nat, offsets: seq<nat>) returns (r: Option<Record>)
    requires at <= |data| && offsets != []
    ensures r == DecodeFlexiScores(data, at, offsets)
  {
    hide FlexiScoresHeader, DecodeFlexiScores, FlexiPoints, ScoreWidth, ScorePlace, FlexiScore, ScoresLie;
    ScoresByHeader(data, at, offsets);
    var header := ReadFlexiScoresHeader(data, at);
    if header.None? {
      return None;
    }
    var (flags, least, begin) := header.value;
    var stored := StoredCount(flags, |offsets|);
    var scores := ReadStoredScores(data, begin, flags % 4, least % 0x1_0000_0000, stored);
    if scores.None? {
      return None;
    }
    var points: seq<Point> := [];
    for i := 0 to |offsets|
      invariant |points| == i
      invariant forall k :: 0 <= k < i ==>
                points[k] == Plain(offsets[k], scores.value.0[if flags >= 0x80 then 0 else k])
    {
      points := points + [Plain(offsets[i], if i < stored then scores.value.0[i] else points[0].score)];
    }
    PointsFromScores(data, begin, flags, least % 0x1_0000_0000, offsets, scores.value.0, points);
    r := Some(Record(points, scores.value.1));
  }

  method ParseFlexi(data: Bytes, at: nat) returns (r: Option<Record>)
    requires at <= |data|
    ensures r == DecodeFlexi(data, at)
  {
    hide Parse, DecodeFlexiSteps, Accumulate, DecodeFlexiScores;
    var p := ParseInteger(data, at);
    if p.None? {
      return None;
    }
    var (count, a) := p.value;
    if count == 0 {
      return if a == |data| then Some(Record([], a)) else None;
    }
    var first := ParseInteger(data, a);
    if first.None? {
      return None;
    }
    var gcd := ParseInteger(data, first.value.1);
    if gcd.None? {
      return None;
    }
    var offsets := ReadFlexiOffsets(data, gcd.value.1, first.value.0, gcd.value.0, count);
    if offsets.None? {
      return None;
    }
    r := ReadFlexiScores(data, offsets.value.1, offsets.value.0);
  }

  // ---------- The counter ----------

  method SkipRle(data: Bytes, at: nat, n: nat) returns (r: Option<nat>)
    requires at <= |data|
    ensures r.Some? <==> ReadMany(data, at, 0, n).Some? && ReadMany(data, at, 0, n).value.2 == 0
    ensures r.Some? ==> r.value == ReadMany(data, at, 0, n).value.1
    ensures r.Some? ==> r.value <= |data|
  {
    hide *;
    var rle := new RleReader(data, at);
    ReaderState(rle);
    NothingRead(data, at);
    for i := 0 to n
      invariant rle.Valid() && fresh(rle) && rle.data == data && rle.start == at && rle.count == i
    {
      var b := rle.ReadRleByte();
      if b.None? {
        ReadManyFails(data, at, 0, i + 1, n);
        return None;
      }
    }
    ReaderState(rle);
    r := if rle.run == 0 then Some(rle.at) else None;
  }

  lemma Places(values: seq<nat>, next: nat)
    ensures PlaceBehind(None) == None && PlaceBehind(Some((values, next))) == Some(next)
  {
  }

  method SkipIntegers(data: Bytes, at: nat, n: nat) returns (r: Option<nat>)
    requires at <= |data|
    ensures r == PlaceBehind(ParseMany(data, at, n))
    ensures r.Some? ==> r.value <= |data|
  {
    hide *;
    var next := at;
    ghost var got: seq<nat> := [];
    Places([], 0);
    ParseManyStep(data, at, 0);
    for i := 0 to n
      invariant next <= |data| && ParseMany(data, at, i) == Some((got, next))
    {
      ParsedOne(data, at, i, got, next);
      var p := ParseInteger(data, next);
      if p.None? {
        return None;
      }
      got := got + [p.value.0];
      next := p.value.1;
    }
    Places(got, next);
    r := Some(next);
  }

  method SkipFlexiSteps(data: Bytes, at: nat, gcd: nat, count: nat) returns (r: Option<nat>)
    requires at <= |data| && count > 0
    ensures r == PlaceBehind(DecodeFlexiSteps(data, at, gcd, count - 1))
    ensures r.Some? ==> at <= r.value <= |data|
  {
    hide Parse, ParseMany, ReadMany, Add64, Sub64, Nibbles, Scale;
    if gcd == 0 {
      return Some(at);
    }
    var p := ParseInteger(data, at);
    if p.None? {
      return None;
    }
    var least := p.value.0;
    var q := ParseInteger(data, p.value.1);
    if q.None? {
      return None;
    }
    var most, b := Add64(q.value.0, least), q.value.1;
    WidthOfRange(q.value.0, least);
    if least == most {
      r := Some(b);
    } else if Sub64(most, least) <= 0x0f {
      r := SkipRle(data, b, count / 2);
    } else if Sub64(most, least) <= 0xff {
      r := SkipRle(data, b, count - 1);
    } else {
      r := SkipIntegers(data, b, count - 1);
    }
  }

  /** Where the scores of `count` points end; they may be missing. */
  function FlexiScoresEnd(data: Bytes, at: nat, count: nat): (r: Option<nat>)
    requires at <= |data|
    ensures r.Some? ==> at < r.value
  {
    match FlexiScoresHeader(data, at)
    case None => None
    case Some((flags, _, a)) => Some(ScorePlace(a, flags % 4, StoredCount(flags, count)))
  }

  method SkipFlexiScores(data: Bytes, at: nat, count: nat) returns (r: Option<nat>)
    requires at <= |data|
    ensures r == FlexiScoresEnd(data, at, count)
  {
    hide FlexiScoresHeader;
    var header := ReadFlexiScoresHeader(data, at);
    if header.None? {
      return None;
    }
    var (flags, _, a) := header.value;
    var stored := StoredCount(flags, count);
    r := Some(a + stored * (if flags % 4 == 0 then 4 else flags % 4));
  }

  lemma ScoresEnd(data: Bytes, at: nat, offsets: seq<nat>)
    requires at <= |data| && DecodeFlexiScores(data, at, offsets).Some?
    ensures FlexiScoresEnd(data, at, |offsets|) == Some(DecodeFlexiScores(data, at, offsets).value.next)
    ensures |DecodeFlexiScores(data, at, offsets).value.points| == |offsets|
    ensures Offsets(DecodeFlexiScores(data, at, offsets).value.points) == offsets
  {
    hide FlexiScoresHeader, FlexiScore, ScoreWidth, ScorePlace, DecodeFlexiScores;
    ScoresByHeader(data, at, offsets);
  }

  /** On every record that the parser accepts, the counter gives the number of points and stops at the same place. */
  method CountFlexi(data: Bytes, at: nat) returns (r: Option<(nat, nat)>)
    requires at <= |data|
    ensures DecodeFlexi(data, at).Some? ==>
              r == Some((|DecodeFlexi(data, at).value.points|, DecodeFlexi(data, at).value.next))
    ensures r.Some? ==> r.value.1 > at
  {
    hide Parse, DecodeFlexiSteps, Accumulate, DecodeFlexiScores, FlexiScoresEnd;
    var p := ParseInteger(data, at);
    if p.None? {
      return None;
    }
    var (count, a) := p.value;
    if count == 0 {
      return if a == |data| then Some((0, a)) else None;
    }
    var first := ParseInteger(data, a);
    if first.None? {
      return None;
    }
    var gcd := ParseInteger(data, first.value.1);
    if gcd.None? {
      return None;
    }
    var scores := SkipFlexiSteps(data, gcd.value.1, gcd.value.0, count);
    if scores.None? {
      return None;
    }
    ghost var offsets := Accumulate(first.value.0, DecodeFlexiSteps(data, gcd.value.1, gcd.value.0, count - 1).value.0);
    if DecodeFlexiScores(data, scores.value, offsets).Some? {
      ScoresEnd(data, scores.value, offsets);
    }
    var end := SkipFlexiScores(data, scores.value, count);
    r := if end.None? then None else Some((count, end.value));
  }

  // ---------- The maximum walker ----------

  /** The closed form for steps that are all the same. */
  lemma {:induction false} EqualStepsSum(first: nat, gcd: nat, least: nat, n: nat)
    requires first < UINT64 && least < UINT64
    ensures LastOf(OffsetsBy(first, gcd, least, Zeros(n))) == Add64(first, Mul64(Mul64(gcd, least), n))
  {
    hide *;
    var step := Mul64(gcd, least);
    if n == 0 {
      ZerosPush(0);
      OffsetsByPush(first, gcd, least, [], 0);
      LastOfPush([], first);
      NoProduct(first, step);
    } else {
      EqualStepsSum(first, gcd, least, n - 1);
      ZerosPush(n - 1);
      OffsetsByPush(first, gcd, least, Zeros(n - 1), 0);
      NoChange(least);
      OffsetsByLast(first, gcd, least, Zeros(n - 1));
      LastOfPush(OffsetsBy(first, gcd, least, Zeros(n - 1)),
        Add64(LastOf(OffsetsBy(first, gcd, least, Zeros(n - 1))), step));
      OneMore(first, step, n - 1);
    }
  }

  lemma NoProduct(first: nat, step: nat)
    requires first < UINT64
    ensures Add64(first, Mul64(step, 0)) == first
  {
    assert step * 0 == 0;
  }

  lemma OffsetsByLast(first: nat, gcd: nat, least: nat, quantized: seq<nat>)
    ensures OffsetsBy(first, gcd, least, quantized)[|quantized|] == LastOf(OffsetsBy(first, gcd, least, quantized))
  {
  }

  /** The last offset after one more step. */
  lemma LastStepBy(first: nat, gcd: nat, least: nat, quantized: seq<nat>, q: nat)
    ensures LastOf(OffsetsBy(first, gcd, least, [])) == first
    ensures LastOf(OffsetsBy(first, gcd, least, quantized + [q])) ==
            Add64(LastOf(OffsetsBy(first, gcd, least, quantized)), Mul64(gcd, Add64(least, q)))
  {
    hide *;
    var r := OffsetsBy(first, gcd, least, quantized);
    OffsetsByPush(first, gcd, least, quantized, q);
    OffsetsByLast(first, gcd, least, quantized);
    LastOfPush([], first);
    LastOfPush(r, Add64(r[|quantized|], Mul64(gcd, Add64(least, q))));
  }

  method SumNibbles(data: Bytes, at: nat, first: nat, gcd: nat, least: nat, count: nat) returns (r: Option<(nat, nat)>)
    requires at <= |data| && count > 1
    ensures r == LastBy(first, gcd, least, DecodeNibbles(data, at, count - 1))
    ensures r.Some? ==> r.value.1 <= |data|
  {
    hide *;
    var rle := new RleReader(data, at);
    var offset := first;
    ghost var got: Bytes := [];
    CodeRead(data, at, count - 1);
    ByQuantized(first, gcd, least, [], 0);
    ReaderState(rle);
    NothingRead(data, at);
    NibblesPush([], 0);
    LastStepBy(first, gcd, least, [], 0);
    var i := 1;
    while i < count
      invariant 1 <= i <= count + 1 && i % 2 == 1 && rle.Valid() && fresh(rle) && rle.data == data && rle.start == at
      invariant rle.count == |got| == i / 2 && rle.got == got
      invariant var m := if i <= count then i - 1 else count - 1;
                m <= 2 * |got| && offset == LastOf(OffsetsBy(first, gcd, least, Nibbles(got, m)))
    {
      var tmp := rle.ReadRleByte();
      if tmp.None? {
        ReadManyFails(data, at, 0, |got| + 1, count / 2);
        return None;
      }
      NibblesPush(got, tmp.value);
      LastStepBy(first, gcd, least, Nibbles(got, i - 1), tmp.value % 0x10);
      LastStepBy(first, gcd, least, Nibbles(got, i - 1) + [tmp.value % 0x10], tmp.value / 0x10);
      offset := Add64(offset, Mul64(gcd, Add64(least, tmp.value % 0x10)));
      if i + 1 < count {
        offset := Add64(offset, Mul64(gcd, Add64(least, tmp.value / 0x10)));
      }
      got := got + [tmp.value];
      i := i + 2;
    }
    ReaderState(rle);
    ByQuantized(first, gcd, least, Nibbles(got, count - 1), rle.at);
    r := if rle.run == 0 then Some((offset, rle.at)) else None;
  }

  method SumBytes(data: Bytes, at: nat, first: nat, gcd: nat, least: nat, count: nat) returns (r: Option<(nat, nat)>)
    requires at <= |data| && count > 1
    ensures r == LastBy(first, gcd, least, DecodeBytes(data, at, count - 1))
    ensures r.Some? ==> r.value.1 <= |data|
  {
    hide *;
    var rle := new RleReader(data, at);
    var offset := first;
    ghost var got: Bytes := [];
    CodeRead(data, at, count - 1);
    ByQuantized(first, gcd, least, [], 0);
    ReaderState(rle);
    NothingRead(data, at);
    LastStepBy(first, gcd, least, [], 0);
    for i := 1 to count
      invariant rle.Valid() && fresh(rle) && rle.data == data && rle.start == at
      invariant rle.count == |got| == i - 1 && rle.got == got
      invariant offset == LastOf(OffsetsBy(first, gcd, least, got))
    {
      var b := rle.ReadRleByte();
      if b.None? {
        ReadManyFails(data, at, 0, i, count - 1);
        return None;
      }
      LastStepBy(first, gcd, least, got, b.value);
      offset := Add64(offset, Mul64(gcd, Add64(least, b.value)));
      got := got + [b.value];
    }
    ReaderState(rle);
    ByQuantized(first, gcd, least, got, rle.at);
    r := if rle.run == 0 then Some((offset, rle.at)) else None;
  }

  method SumIntegers(data: Bytes, at: nat, first: nat, gcd: nat, least: nat, count: nat) returns (r: Option<(nat, nat)>)
    requires at <= |data| && count > 1
    ensures r == LastBy(first, gcd, least, ParseMany(data, at, count - 1))
    ensures r.Some? ==> r.value.1 <= |data|
  {
    hide *;
    var offset, next := first, at;
    ghost var got: seq<nat> := [];
    ByQuantized(first, gcd, least, [], 0);
    ParseManyStep(data, at, 0);
    LastStepBy(first, gcd, least, [], 0);
    for i := 1 to count
      invariant next <= |data| && |got| == i - 1 && ParseMany(data, at, i - 1) == Some((got, next))
      invariant offset == LastOf(OffsetsBy(first, gcd, least, got))
    {
      ParsedOne(data, at, i - 1, got, next);
      var p := ParseInteger(data, next);
      if p.None? {
        return None;
      }
      LastStepBy(first, gcd, least, got, p.value.0);
      offset := Add64(offset, Mul64(gcd, Add64(least, p.value.0)));
      got := got + [p.value.0];
      next := p.value.1;
    }
    ByQuantized(first, gcd, least, got, next);
    r := Some((offset, next));
  }

  /** The last offset: a closed form for equal steps, a running sum for others. */
  method SumFlexiOffsets(data: Bytes, at: nat, first: nat, gcd: nat, count: nat) returns (r: Option<(nat, nat)>)
    requires at <= |data| && count > 1 && gcd != 0 && first < UINT64
    ensures r == LastFrom(first, DecodeFlexiSteps(data, at, gcd, count - 1))
    ensures r.Some? ==> at <= r.value.1 <= |data|
  {
    hide Parse, ParseMany, Accumulate, ReadMany, Add64, Sub64, Mul64, Nibbles, Scale, LastOf;
    var p := ParseInteger(data, at);
    if p.None? {
      return None;
    }
    var least := p.value.0;
    var q := ParseInteger(data, p.value.1);
    if q.None? {
      return None;
    }
    var most, b := Add64(q.value.0, least), q.value.1;
    WidthOfRange(q.value.0, least);
    if least == most {
      EqualStepsSum(first, gcd, least, count - 1);
      r := Some((Add64(first, Mul64(Mul64(gcd, least), count - 1)), b));
    } else if Sub64(most, least) <= 0x0f {
      r := SumNibbles(data, b, first, gcd, least, count);
    } else if Sub64(most, least) <= 0xff {
      r := SumBytes(data, b, first, gcd, least, count);
    } else {
      r := SumIntegers(data, b, first, gcd, least, count);
    }
  }

  /** The three integers before the steps: the number of points, the first offset, the common divisor. */
  function FlexiHeader(data: Bytes, at: nat): (r: Option<(nat, nat, nat, nat)>)
    requires at <= |data|
    ensures r.Some? ==> at <= r.value.3 <= |data| && r.value.1 < UINT64
  {
    match Parse(data, at)
    case None => None
    case Some((count, a)) =>
      match Parse(data, a)
      case None => None
      case Some((first, b)) =>
        match Parse(data, b)
        case None => None
        case Some((gcd, c)) => Some((count, first, gcd, c))
  }

  /** The walker takes a record of one point with a common divisor for one without steps, so it looks
      for the scores two integers too early. */
  predicate StepsAreOverlooked(data: Bytes, at: nat)
    requires at <= |data|
  {
    var h := FlexiHeader(data, at);
    h.Some? && h.value.0 == 1 && h.value.2 != 0
  }

  /** Where the walker stops, given that the parser accepts the record. */
  function MaxEnd(data: Bytes, at: nat): Option<nat>
    requires at <= |data| && DecodeFlexi(data, at).Some?
  {
    if StepsAreOverlooked(data, at) then FlexiScoresEnd(data, FlexiHeader(data, at).value.3, 1)
    else Some(DecodeFlexi(data, at).value.next)
  }

  lemma LastOfFirst(first: nat, gcd: nat, data: Bytes, at: nat, count: nat)
    requires at <= |data| && count > 0 && first < UINT64
    ensures (gcd == 0 || count == 1) && DecodeFlexiSteps(data, at, gcd, count - 1).Some? ==>
              LastOf(Accumulate(first, DecodeFlexiSteps(data, at, gcd, count - 1).value.0)) == first
    ensures gcd == 0 ==> DecodeFlexiSteps(data, at, gcd, count - 1).Some? &&
                         DecodeFlexiSteps(data, at, gcd, count - 1).value.1 == at
  {
    if gcd == 0 {
      assert DecodeFlexiSteps(data, at, gcd, count - 1).value.0 == Zeros(count - 1);
      ZeroStepsStay(first, count - 1);
    }
  }

  lemma {:induction false} ZeroStepsStay(first: nat, n: nat)
    requires first < UINT64
    ensures LastOf(Accumulate(first, Zeros(n))) == first
  {
    if n > 0 {
      hide Accumulate, Zeros, Add64;
      ZeroStepsStay(first, n - 1);
      ZerosPush(n - 1);
      AccumulatePush(first, Zeros(n - 1), 0);
      NoChange(first);
    } else {
      assert Zeros(0) == [];
    }
  }

  /** On every record that the parser accepts: the walker gives the last offset exactly when the place
      where it stops is the end of the data. */
  method GetMaxOffsetFlexi(data: Bytes, at: nat) returns (r: Option<(nat, nat)>)
    requires at <= |data|
    ensures DecodeFlexi(data, at).Some? ==>
              r == if MaxEnd(data, at) != Some(|data|) then None
                   else Some((LastOffset(DecodeFlexi(data, at).value.points), |data|))
    ensures r.Some? ==> r.value.1 > at
  {
    hide Parse, DecodeFlexiSteps, Accumulate, DecodeFlexiScores, FlexiScoresEnd, LastOffset;
    var p := ParseInteger(data, at);
    if p.None? {
      return None;
    }
    var (count, a) := p.value;
    NoLastOffset();
    if count == 0 {
      return Some((0, a));
    }
    var first := ParseInteger(data, a);
    if first.None? {
      return None;
    }
    var gcd := ParseInteger(data, first.value.1);
    if gcd.None? {
      return None;
    }
    var offset, begin := first.value.0, gcd.value.1;
    LastOfFirst(offset, gcd.value.0, data, begin, count);
    if gcd.value.0 != 0 && count > 1 {
      var sum := SumFlexiOffsets(data, begin, offset, gcd.value.0, count);
      if sum.None? {
        return None;
      }
      offset, begin := sum.value.0, sum.value.1;
    }
    ghost var steps := DecodeFlexiSteps(data, gcd.value.1, gcd.value.0, count - 1);
    if steps.Some? && DecodeFlexiScores(data, steps.value.1, Accumulate(first.value.0, steps.value.0)).Some? {
      ScoresEnd(data, steps.value.1, Accumulate(first.value.0, steps.value.0));
      LastOffsetBy(DecodeFlexi(data, at).value.points, Accumulate(first.value.0, steps.value.0));
    }
    var end := SkipFlexiScores(data, begin, count);
    if end.None? || end.value != |data| {
      return None;
    }
    r := Some((offset, end.value));
  }

  lemma NoLastOffset()
    ensures LastOffset([]) == 0
  {
  }

  lemma LastOffsetBy(points: seq<Point>, offsets: seq<nat>)
    requires offsets != [] && Offsets(points) == offsets
    ensures LastOffset(points) == LastOf(offsets)
  {
    assert offsets[..|points|] == offsets;
    LastOffsetOf(points, offsets);
  }
}

/** What a stream of offset/score records stands for. Nothing is decoded from data that ends too
    early, fails a check of the parser, or holds a record that this model leaves out. */
module Decode {
  import opened Bytes
  import opened Table
  import opened Integers
  import opened Rle
  import opened Points
  import Varint

  datatype Record = Record(points: seq<Point>, next: nat)

  function PrefixSums(deltas: seq<nat>): (r: seq<nat>)
    ensures |r| == |deltas|
  {
    if deltas == [] then []
    else
      var n := |deltas| - 1;
      var r := PrefixSums(deltas[..n]);
      r + [Add64(deltas[n], if r == [] then 0 else r[n - 1])]
  }

  lemma PrefixSumsPush(deltas: seq<nat>, d: nat)
    ensures var r := PrefixSums(deltas);
            PrefixSums(deltas + [d]) == r + [Add64(d, if r == [] then 0 else r[|r| - 1])]
  {
    assert (deltas + [d])[..|deltas|] == deltas;
  }

  predicate AllBelow(indices: seq<nat>, n: nat) {
    forall i :: 0 <= i < |indices| ==> indices[i] < n
  }

  function Look(steps: seq<nat>, indices: seq<nat>): (r: seq<nat>)
    requires AllBelow(indices, |steps|)
    ensures |r| == |indices|
  {
    seq(|indices|, i requires 0 <= i < |indices| => steps[indices[i]])
  }

  /** The steps between `count` points of a with-prediction record, directly or by dictionary. */
  function DecodeSteps(data: Bytes, at: nat, count: nat): (r: Option<(seq<nat>, nat)>)
    requires at <= |data| && count > 0
    ensures r.Some? ==> |r.value.0| == count - 1 && at <= r.value.1 <= |data|
  {
    if count == 1 then Some(([], at))
    else
      match Parse(data, at)
      case None => None
      case Some((stepCount, a)) =>
        if stepCount > count + 1 then None
        else if stepCount == 0 then ParseMany(data, a, count - 1)
        else
          match ParseMany(data, a, stepCount)
          case None => None
          case Some((deltas, b)) =>
            match ParseMany(data, b, count - 1)
            case None => None
            case Some((indices, c)) =>
              if AllBelow(indices, stepCount) then Some((Look(PrefixSums(deltas), indices), c)) else None
  }

  function DecodeFloat(data: Bytes, at: nat): Float
    requires at + 4 <= |data|
  {
    FieldWidths();
    FromLittleEndian(data[at..at + 4])
  }

  function DecodePoint(data: Bytes, at: nat, offset: nat, bands: bool): (r: Option<(Point, nat)>)
    requires at <= |data|
    ensures r.Some? ==> at <= r.value.1 <= |data|
  {
    if at + 4 > |data| then None
    else if !bands then Some((Plain(offset, Bits(DecodeFloat(data, at))), at + 4))
    else if at + 20 > |data| then None
    else Some((Point(offset, Bits(DecodeFloat(data, at)), DecodeFloat(data, at + 4), DecodeFloat(data, at + 8),
                     DecodeFloat(data, at + 12), DecodeFloat(data, at + 16)), at + 20))
  }

  /** The points of the first `n` offsets, their scores being at `at`. */
  function DecodePoints(data: Bytes, at: nat, offsets: seq<nat>, mask: seq<nat>, n: nat): (r: Option<(seq<Point>, nat)>)
    requires at <= |data| && n <= |offsets| && |mask| == (|offsets| + 7) / 8
    ensures r.Some? ==> |r.value.0| == n && at <= r.value.1 <= |data|
  {
    if n == 0 then Some(([], at))
    else
      match DecodePoints(data, at, offsets, mask, n - 1)
      case None => None
      case Some((points, next)) =>
        match DecodePoint(data, next, offsets[n - 1], Bit(mask[(n - 1) / 8], (n - 1) % 8))
        case None => None
        case Some((point, after)) => Some((points + [point], after))
  }

  lemma DecodePointsStep(data: Bytes, at: nat, offsets: seq<nat>, mask: seq<nat>, n: nat, points: seq<Point>, next: nat)
    requires at <= |data| && n < |offsets| && |mask| == (|offsets| + 7) / 8
    requires DecodePoints(data, at, offsets, mask, n) == Some((points, next))
    ensures var p := DecodePoint(data, next, offsets[n], Bit(mask[n / 8], n % 8));
            DecodePoints(data, at, offsets, mask, n + 1) ==
            if p.None? then None else Some((points + [p.value.0], p.value.1))
  {
  }

  /** The four-bit numbers of a row of bytes, low half first. */
  function Nibbles(bytes: Bytes, n: nat): (r: seq<nat>)
    requires n <= 2 * |bytes|
    ensures |r| == n
  {
    seq(n, i requires 0 <= i < n => if i % 2 == 0 then bytes[i / 2] % 0x10 else bytes[i / 2] / 0x10)
  }

  /** Two numbers in each byte of a run-length code that ends with them. */
  function DecodeNibbles(data: Bytes, at: nat, n: nat): (r: Option<(seq<nat>, nat)>)
    requires at <= |data|
    ensures r.Some? ==> |r.value.0| == n && at <= r.value.1 <= |data|
  {
    match ReadMany(data, at, 0, (n + 1) / 2)
    case None => None
    case Some((bytes, next, run)) => if run == 0 then Some((Nibbles(bytes, n), next)) else None
  }

  /** One number in each byte of a run-length code that ends with them. */
  function DecodeBytes(data: Bytes, at: nat, n: nat): (r: Option<(seq<nat>, nat)>)
    requires at <= |data|
    ensures r.Some? ==> |r.value.0| == n && at <= r.value.1 <= |data|
  {
    match ReadMany(data, at, 0, n)
    case None => None
    case Some((bytes, next, run)) => if run == 0 then Some((bytes, next)) else None
  }

  function DecodeWithPrediction(data: Bytes, at: nat): (r: Option<Record>)
    requires at <= |data|
    ensures r.Some? ==> at < r.value.next <= |data|
  {
    match Parse(data, at)
    case None => None
    case Some((count, a)) =>
      if count == 0 then (if a == |data| then Some(Record([], a)) else None)
      else
        match Parse(data, a)
        case None => None
        case Some((first, b)) =>
          match DecodeSteps(data, b, count)
          case None => None
          case Some((steps, c)) =>
            match DecodeBytes(data, c, (count + 7) / 8)
            case None => None
            case Some((mask, d)) =>
              match DecodePoints(data, d, Accumulate(first, steps), mask, count)
              case None => None
              case Some((points, end)) => Some(Record(points, end))
  }

  /** The quantized steps of a Flexi record with a greatest common divisor. */
  function DecodeQuantized(data: Bytes, at: nat, range: nat, n: nat): (r: Option<(seq<nat>, nat)>)
    requires at <= |data|
    ensures r.Some? ==> |r.value.0| == n && at <= r.value.1 <= |data|
  {
    if range == 0 then Some((seq(n, _ => 0), at))
    else if range <= 0x0f then DecodeNibbles(data, at, n)
    else if range <= 0xff then DecodeBytes(data, at, n)
    else ParseMany(data, at, n)
  }

  /** Steps are `gcd * (least + quantized)`, in 64 bits. */
  function Scale(gcd: nat, least: nat, quantized: seq<nat>): (r: seq<nat>)
    ensures |r| == |quantized|
  {
    seq(|quantized|, i requires 0 <= i < |quantized| => Mul64(gcd, Add64(least, quantized[i])))
  }

  function DecodeFlexiSteps(data: Bytes, at: nat, gcd: nat, n: nat): (r: Option<(seq<nat>, nat)>)
    requires at <= |data|
    ensures r.Some? ==> |r.value.0| == n && at <= r.value.1 <= |data|
  {
    if gcd == 0 then Some((seq(n, _ => 0), at))
    else
      match Parse(data, at)
      case None => None
      case Some((least, a)) =>
        match Parse(data, a)
        case None => None
        case Some((range, b)) =>
          match DecodeQuantized(data, b, range, n)
          case None => None
          case Some((quantized, c)) => Some((Scale(gcd, least, quantized), c))
  }

  /** The width in bytes of one Flexi score. */
  function ScoreWidth(kind: nat): nat {
    if kind == 0 then 4 else kind
  }

  function BigEndian(b: Bytes): nat {
    if b == [] then 0 else BigEndian(b[..|b| - 1]) * 0x100 + b[|b| - 1]
  }

  /** One Flexi score: a float, or a big-endian integer above the least score in 32 bits. */
  function FlexiScore(data: Bytes, at: nat, kind: nat, least: nat): Score
    requires kind < 4 && at + ScoreWidth(kind) <= |data|
  {
    if kind == 0 then Bits(DecodeFloat(data, at))
    else if kind == 1 then Whole((least + data[at]) % 0x1_0000_0000)
    else if kind == 2 then Whole((least + BigEndian(data[at..at + 2])) % 0x1_0000_0000)
    else Whole((least + BigEndian(data[at..at + 3])) % 0x1_0000_0000)
  }

  /** The place of score `k`. */
  function ScorePlace(at: nat, kind: nat, k: nat): (r: nat)
    ensures r >= at
  {
    at + k * ScoreWidth(kind)
  }

  lemma ScorePlaces(at: nat, kind: nat, k: nat, n: nat)
    ensures ScorePlace(at, kind, 0) == at
    ensures ScorePlace(at, kind, k + 1) == ScorePlace(at, kind, k) + ScoreWidth(kind)
    ensures k < n ==> ScorePlace(at, kind, k + 1) <= ScorePlace(at, kind, n)
  {
    hide ScoreWidth;
    NextMultiple(k, ScoreWidth(kind));
    if k < n {
      MultiplesGrow(k + 1, n, ScoreWidth(kind));
    }
  }

  lemma NextMultiple(k: nat, width: nat)
    ensures (k + 1) * width == k * width + width
  {
  }

  lemma {:induction false} MultiplesGrow(k: nat, n: nat, width: nat)
    requires k <= n
    ensures k * width <= n * width
    decreases n
  {
    if k < n {
      MultiplesGrow(k, n - 1, width);
      NextMultiple(n - 1, width);
    }
  }

  /** How many scores are stored: one may stand for all points. */
  function StoredCount(flags: Byte, count: nat): nat {
    if flags >= 0x80 then 1 else count
  }

  function PointAt(data: Bytes, at: nat, kind: nat, least: nat, offset: nat, k: nat): Point
    requires kind < 4 && ScorePlace(at, kind, k) + ScoreWidth(kind) <= |data|
  {
    Plain(offset, FlexiScore(data, ScorePlace(at, kind, k), kind, least))
  }

  function FlexiPoints(data: Bytes, at: nat, flags: Byte, least: nat, offsets: seq<nat>): (r: seq<Point>)
    requires ScorePlace(at, flags % 4, StoredCount(flags, |offsets|)) <= |data|
    ensures |r| == |offsets|
  {
    seq(|offsets|, i requires 0 <= i < |offsets| =>
      var k := if flags >= 0x80 then 0 else i;
      ScorePlaces(at, flags % 4, k, StoredCount(flags, |offsets|));
      PointAt(data, at, flags % 4, least, offsets[i], k))
  }

  function DecodeFlexiScores(data: Bytes, at: nat, offsets: seq<nat>): (r: Option<Record>)
    requires at <= |data|
    ensures r.Some? ==> at < r.value.next <= |data|
  {
    if at == |data| then None
    else
      var flags := data[at];
      var low: Option<(nat, nat)> := if flags % 4 == 0 then Some((0, at + 1)) else Parse(data, at + 1);
      match low
      case None => None
      case Some((least, a)) =>
        var end := ScorePlace(a, flags % 4, StoredCount(flags, |offsets|));
        if end > |data| then None
        else Some(Record(FlexiPoints(data, a, flags, least % 0x1_0000_0000, offsets), end))
  }

  function DecodeFlexi(data: Bytes, at: nat): (r: Option<Record>)
    requires at <= |data|
    ensures r.Some? ==> at < r.value.next <= |data|
  {
    match Parse(data, at)
    case None => None
    case Some((count, a)) =>
      if count == 0 then (if a == |data| then Some(Record([], a)) else None)
      else
        match Parse(data, a)
        case None => None
        case Some((first, b)) =>
          match Parse(data, b)
          case None => None
          case Some((gcd, c)) =>
            match DecodeFlexiSteps(data, c, gcd, count - 1)
            case None => None
            case Some((steps, d)) => DecodeFlexiScores(data, d, Accumulate(first, steps))
  }

  /** A varint whose last byte is there, in 64 bits. */
  function ParseVarint(data: Bytes, at: nat): (r: Option<(nat, nat)>)
    requires at <= |data|
    ensures r.Some? ==> at < r.value.1 <= |data| && r.value.0 < UINT64
  {
    if Ends(data, at) then
      EndsDecode(data, at);
      var (value, next) := Varint.Decode(data, at);
      Some((value % UINT64, next))
    else None
  }

  predicate Ends(data: Bytes, at: nat)
    requires at <= |data|
    decreases |data| - at
  {
    at < |data| && (data[at] < 0x80 || Ends(data, at + 1))
  }

  lemma {:induction false} EndsDecode(data: Bytes, at: nat)
    requires at <= |data| && Ends(data, at)
    ensures at < Varint.Decode(data, at).1 <= |data|
    ensures exists end :: at <= end < |data| && data[end] < 0x80
    decreases |data| - at
  {
    if data[at] >= 0x80 {
      EndsDecode(data, at + 1);
    }
  }

  /** How many bytes the score of a single-point record takes. */
  function SingleWidth(type_: Byte): nat {
    if type_ == SINGLE_FLOAT then 4
    else if type_ == SINGLE_POSITIVE_1 || type_ == SINGLE_NEGATIVE_1 then 1
    else if type_ == SINGLE_POSITIVE_2 || type_ == SINGLE_NEGATIVE_2 then 2
    else 3
  }

  function SingleScore(type_: Byte, data: Bytes, at: nat): Score
    requires SINGLE_FLOAT <= type_ <= SINGLE_NEGATIVE_3 && at + SingleWidth(type_) <= |data|
  {
    if type_ == SINGLE_FLOAT then Bits(DecodeFloat(data, at))
    else
      var n: int := FromLittleEndian(data[at..at + SingleWidth(type_)]);
      // an odd type stands for the bitwise complement
      Whole(if type_ % 2 == 0 then n else -1 - n)
  }

  function DecodeSingle(type_: Byte, data: Bytes, at: nat): (r: Option<Record>)
    requires SINGLE_FLOAT <= type_ <= SINGLE_NEGATIVE_3 && at <= |data|
    ensures r.Some? ==> at < r.value.next <= |data|
  {
    match ParseVarint(data, at)
    case None => None
    case Some((offset, a)) =>
      if a + SingleWidth(type_) > |data| then None
      else Some(Record([Plain(offset, SingleScore(type_, data, a))], a + SingleWidth(type_)))
  }

  /** One record; its first byte is its type. */
  function DecodeRecord(data: Bytes, at: nat): (r: Option<Record>)
    requires at < |data|
    ensures r.Some? ==> at < r.value.next <= |data|
  {
    var type_ := data[at];
    if type_ == WITH_PREDICTION then DecodeWithPrediction(data, at + 1)
    else if type_ == FLEXI then DecodeFlexi(data, at + 1)
    else if SINGLE_FLOAT <= type_ <= SINGLE_NEGATIVE_3 then DecodeSingle(type_, data, at + 1)
    else if type_ == EMPTY then Some(Record([], at + 1))
    else None
  }

  /** The points of all records from `at` on. */
  function DecodeStream(data: Bytes, at: nat): Option<seq<Point>>
    requires at <= |data|
    decreases |data| - at
  {
    if at == |data| then Some([])
    else
      match DecodeRecord(data, at)
      case None => None
      case Some(record) =>
        match DecodeStream(data, record.next)
        case None => None
        case Some(rest) => Some(record.points + rest)
  }
}

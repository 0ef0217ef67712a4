/** The parser and the maximum walker of with-prediction records. */
module WithPrediction {
  import opened Bytes
  import opened Table
  import opened Integers
  import opened Rle
  import opened Points
  import opened Decode

  lemma ParseManyStep(data: Bytes, at: nat, n: nat)
    requires at <= |data|
    ensures ParseMany(data, at, 0) == Some(([], at))
    ensures ParseMany(data, at, n).None? ==> ParseMany(data, at, n + 1).None?
    ensures ParseMany(data, at, n).Some? ==>
              var (values, next) := ParseMany(data, at, n).value;
              ParseMany(data, at, n + 1) ==
              match Parse(data, next)
              case None => None
              case Some((value, after)) => Some((values + [value], after))
  {
  }

  /** What `ParseMany` returns when the first `n + 1` integers are there. */
  lemma ParsedOne(data: Bytes, at: nat, n: nat, values: seq<nat>, next: nat)
    requires at <= |data| && ParseMany(data, at, n) == Some((values, next))
    ensures Parse(data, next).None? ==> forall m: nat :: m > n ==> ParseMany(data, at, m).None?
    ensures Parse(data, next).Some? ==>
              ParseMany(data, at, n + 1) == Some((values + [Parse(data, next).value.0], Parse(data, next).value.1))
  {
    hide ParseMany, Parse;
    ParseManyStep(data, at, n);
    if Parse(data, next).None? {
      forall m: nat | m > n ensures ParseMany(data, at, m).None? {
        ParseManyFails(data, at, n + 1, m);
      }
    }
  }

  /** A dictionary from its stored differences. */
  function SumsBehind(deltas: Option<(seq<nat>, nat)>): Option<(seq<nat>, nat)> {
    match deltas
    case None => None
    case Some((d, next)) => Some((PrefixSums(d), next))
  }

  /** The dictionary of steps, stored as differences. */
  method ReadDictionary(data: Bytes, at: nat, stepCount: nat) returns (r: Option<(seq<nat>, nat)>)
    requires at <= |data|
    ensures r == SumsBehind(ParseMany(data, at, stepCount))
  {
    hide *;
    ghost var deltas: seq<nat> := [];
    var steps: seq<nat>, next, last := [], at, 0;
    ParseManyStep(data, at, 0);
    NoSums();
    BehindNothing();
    for i := 0 to stepCount
      invariant next <= |data| && |deltas| == |steps| == i
      invariant ParseMany(data, at, i) == Some((deltas, next)) && steps == PrefixSums(deltas)
      invariant last == if steps == [] then 0 else steps[|steps| - 1]
    {
      ParsedOne(data, at, i, deltas, next);
      var p := ParseInteger(data, next);
      if p.None? {
        return None;
      }
      var step := Add64(p.value.0, last);
      PrefixSumsPush(deltas, p.value.0);
      deltas := deltas + [p.value.0];
      next := p.value.1;
      steps := steps + [step];
      last := step;
    }
    SumsAre(deltas, next);
    r := Some((steps, next));
  }

  lemma BehindNothing()
    ensures SumsBehind(None) == None
  {
  }

  lemma SumsAre(deltas: seq<nat>, next: nat)
    ensures SumsBehind(Some((deltas, next))) == Some((PrefixSums(deltas), next))
  {
  }

  lemma NoSums()
    ensures PrefixSums([]) == []
  {
  }

  /** The dictionary, if there is one, and the place where the steps themselves start. Nothing is
      returned when the dictionary is too large for the series. */
  function StepsHeader(data: Bytes, at: nat, count: nat): (r: Option<(seq<nat>, nat)>)
    requires at <= |data| && count > 0
    ensures r.Some? ==> at <= r.value.1 <= |data|
  {
    if count == 1 then Some(([], at))
    else
      match Parse(data, at)
      case None => None
      case Some((stepCount, a)) =>
        if stepCount > count + 1 then None
        else SumsBehind(ParseMany(data, a, stepCount))
  }

  method ReadStepsHeader(data: Bytes, at: nat, count: nat) returns (r: Option<(seq<nat>, nat)>)
    requires at <= |data| && count > 0
    ensures r == StepsHeader(data, at, count)
  {
    hide Parse, ParseMany, PrefixSums;
    var steps: seq<nat>, next := [], at;
    if count > 1 {
      var p := ParseInteger(data, at);
      if p.None? || p.value.0 > count + 1 {
        return None;
      }
      next := p.value.1;
      ParseManyStep(data, next, 0);
      NoSums();
      if p.value.0 > 0 {
        r := ReadDictionary(data, next, p.value.0);
        return;
      }
    }
    r := Some((steps, next));
  }

  /** The steps that `n` stored integers stand for. */
  function StepsBehind(steps: seq<nat>, values: seq<nat>): Option<seq<nat>> {
    if steps == [] then Some(values)
    else if AllBelow(values, |steps|) then Some(Look(steps, values))
    else None
  }

  lemma StepsByHeader(data: Bytes, at: nat, count: nat)
    requires at <= |data| && count > 0
    ensures DecodeSteps(data, at, count) ==
            match StepsHeader(data, at, count)
            case None => None
            case Some((steps, b)) =>
              match ParseMany(data, b, count - 1)
              case None => None
              case Some((values, c)) =>
                match StepsBehind(steps, values)
                case None => None
                case Some(found) => Some((found, c))
  {
    hide Parse, PrefixSums, ParseMany;
    if count == 1 {
      ParseManyStep(data, at, 0);
    } else if Parse(data, at).Some? {
      ParseManyStep(data, Parse(data, at).value.1, 0);
      NoSums();
    }
  }

  lemma StepsBehindPush(steps: seq<nat>, values: seq<nat>, v: nat)
    ensures StepsBehind(steps, []) == Some([])
    ensures StepsBehind(steps, values).None? ==> StepsBehind(steps, values + [v]).None?
    ensures StepsBehind(steps, values).Some? ==>
              StepsBehind(steps, values + [v]) ==
              if steps == [] then Some(StepsBehind(steps, values).value + [v])
              else if v < |steps| then Some(StepsBehind(steps, values).value + [steps[v]])
              else None
  {
    var all := values + [v];
    assert all[|values|] == v;
    if StepsBehind(steps, values).None? {
      var i :| 0 <= i < |values| && values[i] >= |steps|;
      assert all[i] >= |steps|;
    } else if steps != [] && v < |steps| {
      assert AllBelow(all, |steps|);
      assert Look(steps, all) == Look(steps, values) + [steps[v]];
    }
  }

  /** An index that is too large spoils the record however many integers follow. */
  lemma {:induction false} BadIndexStays(data: Bytes, at: nat, steps: seq<nat>, m: nat, n: nat)
    requires at <= |data| && m <= n && ParseMany(data, at, m).Some?
    requires StepsBehind(steps, ParseMany(data, at, m).value.0).None?
    ensures ParseMany(data, at, n).Some? ==> StepsBehind(steps, ParseMany(data, at, n).value.0).None?
  {
    hide StepsBehind, ParseMany, Parse;
    if m < n && ParseMany(data, at, n).Some? {
      ParseManyStep(data, at, n - 1);
      BadIndexStays(data, at, steps, m, n - 1);
      var (values, next) := ParseMany(data, at, n - 1).value;
      StepsBehindPush(steps, values, Parse(data, next).value.0);
    }
  }

  /** One pass over the stored steps, giving the step that each of them stands for. */
  method ReadStep(data: Bytes, at: nat, steps: seq<nat>, next: nat, ghost n: nat, ghost values: seq<nat>,
                  ghost found: seq<nat>)
    returns (r: Option<(nat, nat)>, ghost v: nat)
    requires at <= |data| && next <= |data|
    requires ParseMany(data, at, n) == Some((values, next)) && StepsBehind(steps, values) == Some(found)
    ensures r.Some? ==> r.value.1 <= |data| && ParseMany(data, at, n + 1) == Some((values + [v], r.value.1))
    ensures r.Some? ==> StepsBehind(steps, values + [v]) == Some(found + [r.value.0])
    ensures r.None? ==> forall m: nat :: m > n && ParseMany(data, at, m).Some? ==>
                          StepsBehind(steps, ParseMany(data, at, m).value.0).None?
  {
    hide *;
    v := 0;
    ParsedOne(data, at, n, values, next);
    var p := ParseInteger(data, next);
    if p.None? {
      return None, v;
    }
    v := p.value.0;
    StepsBehindPush(steps, values, v);
    if steps == [] {
      r := Some((p.value.0, p.value.1));
    } else if p.value.0 < |steps| {
      r := Some((steps[p.value.0], p.value.1));
    } else {
      forall m: nat | m > n && ParseMany(data, at, m).Some?
        ensures StepsBehind(steps, ParseMany(data, at, m).value.0).None? {
        BadIndexStays(data, at, steps, n + 1, m);
      }
      r := None;
    }
  }

  function LastOf(s: seq<nat>): nat
    requires s != []
  {
    s[|s| - 1]
  }

  /** The offsets that steps lead to. */
  function OffsetsFrom(first: nat, steps: Option<(seq<nat>, nat)>): Option<(seq<nat>, nat)> {
    if steps.None? then None else Some((Accumulate(first, steps.value.0), steps.value.1))
  }

  /** The last offset that steps lead to. */
  function LastFrom(first: nat, steps: Option<(seq<nat>, nat)>): Option<(nat, nat)> {
    if steps.None? then None else Some((LastOf(Accumulate(first, steps.value.0)), steps.value.1))
  }

  lemma FromSteps(first: nat, steps: seq<nat>, next: nat)
    ensures OffsetsFrom(first, None) == None && LastFrom(first, None) == None
    ensures OffsetsFrom(first, Some((steps, next))) == Some((Accumulate(first, steps), next))
    ensures LastFrom(first, Some((steps, next))) == Some((LastOf(Accumulate(first, steps)), next))
  {
  }

  /** The offsets of a record: the first one, then one step after another. */
  method ReadOffsets(data: Bytes, at: nat, first: nat, count: nat) returns (r: Option<(seq<nat>, nat)>)
    requires at <= |data| && count > 0
    ensures r == OffsetsFrom(first, DecodeSteps(data, at, count))
  {
    hide *;
    FromSteps(first, [], 0);
    StepsByHeader(data, at, count);
    var header := ReadStepsHeader(data, at, count);
    if header.None? {
      return None;
    }
    var (steps, b) := header.value;
    var offsets, next := [first], b;
    ghost var values: seq<nat>, found: seq<nat>, v := [], [], 0;
    ParseManyStep(data, b, 0);
    StepsBehindPush(steps, [], 0);
    NoAccumulation(first);
    for i := 1 to count
      invariant next <= |data| && ParseMany(data, b, i - 1) == Some((values, next))
      invariant StepsBehind(steps, values) == Some(found) && offsets == Accumulate(first, found) && |found| == i - 1
    {
      AccumulatePush(first, found, 0);
      var step;
      step, v := ReadStep(data, b, steps, next, i - 1, values, found);
      if step.None? {
        return None;
      }
      AccumulatePush(first, found, step.value.0);
      values, found := values + [v], found + [step.value.0];
      offsets := offsets + [Add64(offsets[i - 1], step.value.0)];
      next := step.value.1;
    }
    FromSteps(first, found, next);
    r := Some((offsets, next));
  }

  lemma NoAccumulation(first: nat)
    ensures Accumulate(first, []) == [first]
  {
  }

  /** The maximum walker's loop over the steps: the last offset, without the ones before it. */
  method SumOffsets(data: Bytes, at: nat, first: nat, count: nat) returns (r: Option<(nat, nat)>)
    requires at <= |data| && count > 0
    ensures r == LastFrom(first, DecodeSteps(data, at, count))
  {
    hide *;
    FromSteps(first, [], 0);
    StepsByHeader(data, at, count);
    var header := ReadStepsHeader(data, at, count);
    if header.None? {
      return None;
    }
    var (steps, b) := header.value;
    var result, next := first, b;
    ghost var values: seq<nat>, found: seq<nat>, v := [], [], 0;
    ParseManyStep(data, b, 0);
    StepsBehindPush(steps, [], 0);
    NoAccumulation(first);
    LastOfPush([], first);
    for i := 1 to count
      invariant next <= |data| && ParseMany(data, b, i - 1) == Some((values, next))
      invariant StepsBehind(steps, values) == Some(found) && result == LastOf(Accumulate(first, found))
                && |found| == i - 1
    {
      var step;
      step, v := ReadStep(data, b, steps, next, i - 1, values, found);
      if step.None? {
        return None;
      }
      AccumulatePush(first, found, step.value.0);
      LastOfPush(Accumulate(first, found), Add64(result, step.value.0));
      AccumulateLast(first, found);
      values, found := values + [v], found + [step.value.0];
      result := Add64(result, step.value.0);
      next := step.value.1;
    }
    FromSteps(first, found, next);
    r := Some((result, next));
  }

  lemma LastOfPush(s: seq<nat>, x: nat)
    ensures LastOf(s + [x]) == x && [] + [x] == [x]
  {
  }

  lemma AccumulateLast(first: nat, steps: seq<nat>)
    ensures Accumulate(first, steps)[|steps|] == LastOf(Accumulate(first, steps))
  {
  }

  /** The mask, run-length coded; the last run must end with it. */
  method ReadMask(data: Bytes, at: nat, size: nat) returns (r: Option<(seq<nat>, nat)>)
    requires at <= |data|
    ensures r == DecodeBytes(data, at, size)
    ensures r.Some? ==> |r.value.0| == size
  {
    hide ReadMany, ReadByte;
    var rle := new RleReader(data, at);
    var mask: seq<Byte> := [];
    NothingRead(data, at);
    for i := 0 to size
      invariant rle.Valid() && fresh(rle) && rle.data == data && rle.start == at && rle.count == i && rle.got == mask
                && |mask| == i
    {
      var b := rle.ReadRleByte();
      if b.None? {
        ReadManyFails(data, at, 0, i + 1, size);
        return None;
      }
      mask := mask + [b.value];
    }
    r := if rle.run == 0 then Some((mask, rle.at)) else None;
  }

  lemma NothingRead(data: Bytes, at: nat)
    requires at <= |data|
    ensures ReadMany(data, at, 0, 0) == Some(([], at, 0))
  {
  }

  lemma {:induction false} DecodePointsFails(data: Bytes, at: nat, offsets: seq<nat>, mask: seq<nat>, m: nat, n: nat)
    requires at <= |data| && m <= n <= |offsets| && |mask| == (|offsets| + 7) / 8
    requires DecodePoints(data, at, offsets, mask, m).None?
    ensures DecodePoints(data, at, offsets, mask, n).None?
  {
    if m < n {
      DecodePointsFails(data, at, offsets, mask, m, n - 1);
    }
  }

  /** The scores, with percentiles where the mask says so. */
  method ReadScores(data: Bytes, at: nat, offsets: seq<nat>, mask: seq<nat>) returns (r: Option<(seq<Point>, nat)>)
    requires at <= |data| && |mask| == (|offsets| + 7) / 8
    ensures r == DecodePoints(data, at, offsets, mask, |offsets|)
  {
    hide DecodePoints, Bit, DecodeFloat;
    var points: seq<Point>, next := [], at;
    NoPoints(data, at, offsets, mask);
    for i := 0 to |offsets|
      invariant next <= |data| && DecodePoints(data, at, offsets, mask, i) == Some((points, next))
    {
      DecodePointsStep(data, at, offsets, mask, i, points, next);
      var bands := Bit(mask[i / 8], i % 8);
      if next + (if bands then 20 else 4) > |data| {
        DecodePointsFails(data, at, offsets, mask, i + 1, |offsets|);
        return None;
      }
      var point := Plain(offsets[i], Bits(DecodeFloat(data, next)));
      next := next + 4;
      if bands {
        point := point.(pct5 := DecodeFloat(data, next), pct25 := DecodeFloat(data, next + 4),
                        pct75 := DecodeFloat(data, next + 8), pct95 := DecodeFloat(data, next + 12));
        next := next + 16;
      }
      points := points + [point];
    }
    r := Some((points, next));
  }

  lemma NoPoints(data: Bytes, at: nat, offsets: seq<nat>, mask: seq<nat>)
    requires at <= |data| && |mask| == (|offsets| + 7) / 8
    ensures DecodePoints(data, at, offsets, mask, 0) == Some(([], at))
  {
  }

  method ParseWithPrediction(data: Bytes, at: nat) returns (r: Option<Record>)
    requires at <= |data|
    ensures r == DecodeWithPrediction(data, at)
  {
    hide Parse, DecodeSteps, DecodeBytes, DecodePoints, Accumulate;
    var p := ParseInteger(data, at);
    if p.None? {
      return None;
    }
    var (count, a) := p.value;
    if count == 0 {
      return if a == |data| then Some(Record([], a)) else None;
    }
    var first := ParseInteger(data, a);
    if first.None? {
      return None;
    }
    var offsets := ReadOffsets(data, first.value.1, first.value.0, count);
    if offsets.None? {
      return None;
    }
    var mask := ReadMask(data, offsets.value.1, (count + 7) / 8);
    if mask.None? {
      return None;
    }
    var points := ReadScores(data, mask.value.1, offsets.value.0, mask.value.0);
    r := if points.None? then None else Some(Record(points.value.0, points.value.1));
  }

  /** Where the scores end, by the mask alone. The walker does not look at them, so it may end up
      behind the end of the data. */
  function ScoresSize(mask: seq<nat>, n: nat): nat
    requires n <= 8 * |mask|
  {
    if n == 0 then 0 else ScoresSize(mask, n - 1) + if Bit(mask[(n - 1) / 8], (n - 1) % 8) then 20 else 4
  }

  lemma {:induction false} DecodePointsSize(data: Bytes, at: nat, offsets: seq<nat>, mask: seq<nat>, n: nat)
    requires at <= |data| && n <= |offsets| && |mask| == (|offsets| + 7) / 8
    requires DecodePoints(data, at, offsets, mask, n).Some?
    ensures DecodePoints(data, at, offsets, mask, n).value.1 == at + ScoresSize(mask, n)
    ensures Offsets(DecodePoints(data, at, offsets, mask, n).value.0) == offsets[..n]
  {
    if n > 0 {
      hide DecodeFloat, Bit;
      DecodePointsSize(data, at, offsets, mask, n - 1);
    }
  }

  /** Skips the scores. */
  method SkipScores(mask: seq<nat>, at: nat, count: nat) returns (next: nat)
    requires count <= 8 * |mask|
    ensures next == at + ScoresSize(mask, count)
  {
    hide Bit;
    next := at;
    for i := 0 to count
      invariant next == at + ScoresSize(mask, i)
    {
      next := next + 4;
      if Bit(mask[i / 8], i % 8) {
        next := next + 16;
      }
    }
  }

  /** The last offset of a record, 0 when there is none. */
  function LastOffset(points: seq<Point>): nat {
    if points == [] then 0 else points[|points| - 1].offset
  }

  /** On every record that the parser accepts, the maximum walker gives the last offset and stops at
      the same place, unless the record is empty, which it does not accept. */
  method GetMaxOffsetWithPrediction(data: Bytes, at: nat) returns (r: Option<(nat, nat)>)
    requires at <= |data|
    ensures DecodeWithPrediction(data, at).Some? ==>
              var record := DecodeWithPrediction(data, at).value;
              r == if record.points == [] then None else Some((LastOffset(record.points), record.next))
    ensures r.Some? ==> r.value.1 > at
  {
    hide Parse, DecodeSteps, DecodeBytes, DecodePoints, Accumulate, Offsets;
    var p := ParseInteger(data, at);
    if p.None? {
      return None;
    }
    var (count, a) := p.value;
    if count == 0 {
      return None;
    }
    var first := ParseInteger(data, a);
    if first.None? {
      return None;
    }
    var last := SumOffsets(data, first.value.1, first.value.0, count);
    if last.None? {
      return None;
    }
    var mask := ReadMask(data, last.value.1, (count + 7) / 8);
    if mask.None? {
      return None;
    }
    var next := SkipScores(mask.value.0, mask.value.1, count);
    ghost var steps := DecodeSteps(data, first.value.1, count).value.0;
    ghost var offsets := Accumulate(first.value.0, steps);
    if DecodePoints(data, mask.value.1, offsets, mask.value.0, count).Some? {
      ghost var points := DecodePoints(data, mask.value.1, offsets, mask.value.0, count).value.0;
      DecodePointsSize(data, mask.value.1, offsets, mask.value.0, count);
      LastOffsetOf(points, offsets);
    }
    r := Some((last.value.0, next));
  }

  lemma LastOffsetOf(points: seq<Point>, offsets: seq<nat>)
    requires points != [] && |offsets| == |points| && Offsets(points) == offsets[..|points|]
    ensures LastOffset(points) == LastOf(offsets)
  {
    assert Offsets(points)[|points| - 1] == points[|points| - 1].offset;
  }
}

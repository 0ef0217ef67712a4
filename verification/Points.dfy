/** Offset/score points and the parts of their stored form that writing and reading share. */
module Points {
  import opened Bytes
  import opened Table
  import opened Integers

  /** A float is its 32 bits. */
  type Float = x: int | 0 <= x < 0x1_0000_0000

  const QUIET_NAN: Float := 0x7fc0_0000

  predicate IsFinite(f: Float) {
    f / 0x80_0000 % 0x100 != 0xff
  }

  /** A score as it was stored: the bits of a float, or an integer that is converted to the nearest float. */
  datatype Score = Bits(f: Float) | Whole(n: int)

  datatype Point = Point(offset: nat, score: Score, pct5: Float, pct25: Float, pct75: Float, pct95: Float) {
    predicate HasBands() {
      IsFinite(pct5) && IsFinite(pct25) && IsFinite(pct75) && IsFinite(pct95)
    }

    /** What is left of the point in the stored form: percentiles only when all four are finite. */
    function Kept(): Point {
      if HasBands() then this else Plain(offset, score)
    }

    predicate InRange() {
      offset < UINT64 && score.Bits?
    }
  }

  function Plain(offset: nat, score: Score): Point {
    Point(offset, score, QUIET_NAN, QUIET_NAN, QUIET_NAN, QUIET_NAN)
  }

  function Kept(ps: seq<Point>): (r: seq<Point>)
    ensures |r| == |ps|
  {
    seq(|ps|, i requires 0 <= i < |ps| => ps[i].Kept())
  }

  const WITH_PREDICTION: Byte := 0
  const FLEXI: Byte := 6
  const SINGLE_FLOAT: Byte := 9
  const SINGLE_POSITIVE_1: Byte := 10
  const SINGLE_NEGATIVE_1: Byte := 11
  const SINGLE_POSITIVE_2: Byte := 12
  const SINGLE_NEGATIVE_2: Byte := 13
  const SINGLE_POSITIVE_3: Byte := 14
  const SINGLE_NEGATIVE_3: Byte := 15
  const EMPTY: Byte := 16

  predicate AllInRange(values: seq<nat>) {
    forall i :: 0 <= i < |values| ==> values[i] < UINT64
  }

  /** The parsed integers of `n` fields that follow one another. */
  function ParseMany(data: Bytes, at: nat, n: nat): (r: Option<(seq<nat>, nat)>)
    requires at <= |data|
    ensures r.Some? ==> |r.value.0| == n && at <= r.value.1 <= |data| && AllInRange(r.value.0)
  {
    if n == 0 then Some(([], at))
    else
      match ParseMany(data, at, n - 1)
      case None => None
      case Some((values, next)) =>
        match Parse(data, next)
        case None => None
        case Some((value, after)) => Some((values + [value], after))
  }

  lemma {:induction false} ParseManyFails(data: Bytes, at: nat, m: nat, n: nat)
    requires at <= |data| && m <= n && ParseMany(data, at, m).None?
    ensures ParseMany(data, at, n).None?
  {
    if m < n {
      ParseManyFails(data, at, m, n - 1);
    }
  }

  function FormatAll(values: seq<nat>): Bytes {
    if values == [] then [] else FormatAll(values[..|values| - 1]) + Format(values[|values| - 1])
  }

  lemma FormatAllPush(values: seq<nat>, v: nat)
    ensures FormatAll(values + [v]) == FormatAll(values) + Format(v)
  {
    assert (values + [v])[..|values|] == values;
  }

  lemma {:induction false} ParseFormatAll(values: seq<nat>, data: Bytes, at: nat)
    requires AllInRange(values)
    requires at + |FormatAll(values)| <= |data| && LiesAt(data, at, FormatAll(values))
    ensures ParseMany(data, at, |values|) == Some((values, at + |FormatAll(values)|))
  {
    if values != [] {
      hide LiesAt, Format, Parse;
      var n := |values| - 1;
      var init, last := values[..n], values[n];
      assert values == init + [last];
      LiesAtSplit(data, at, FormatAll(init), Format(last));
      ParseFormatAll(init, data, at);
      ParseFormat(last, data, at + |FormatAll(init)|);
    }
  }

  /** Offsets from the first one and the steps, in 64 bits. */
  function Accumulate(first: nat, steps: seq<nat>): (r: seq<nat>)
    ensures |r| == |steps| + 1 && r[0] == first
  {
    if steps == [] then [first]
    else
      var r := Accumulate(first, steps[..|steps| - 1]);
      r + [Add64(r[|r| - 1], steps[|steps| - 1])]
  }

  lemma AccumulatePush(first: nat, steps: seq<nat>, step: nat)
    ensures var r := Accumulate(first, steps);
            Accumulate(first, steps + [step]) == r + [Add64(r[|steps|], step)]
  {
    assert (steps + [step])[..|steps|] == steps;
  }

  function Offsets(ps: seq<Point>): (r: seq<nat>)
    ensures |r| == |ps|
  {
    seq(|ps|, i requires 0 <= i < |ps| => ps[i].offset)
  }

  /** Bit `k` of a byte. */
  function Bit(b: nat, k: nat): bool {
    if k == 0 then b % 2 == 1 else Bit(b / 2, k - 1)
  }

  function Pow2(k: nat): nat {
    if k == 0 then 1 else 2 * Pow2(k - 1)
  }

  /** The byte whose lowest bits are the flags. */
  function MaskByte(flags: seq<bool>): nat {
    if flags == [] then 0 else (if flags[0] then 1 else 0) + 2 * MaskByte(flags[1..])
  }

  lemma {:induction false} MaskByteBits(flags: seq<bool>, k: nat)
    ensures Bit(MaskByte(flags), k) <==> k < |flags| && flags[k]
  {
    if flags == [] {
      NoBits(k);
    } else {
      MaskByteHalves(flags);
      if k > 0 {
        MaskByteBits(flags[1..], k - 1);
      }
    }
  }

  lemma MaskByteHalves(flags: seq<bool>)
    requires flags != []
    ensures MaskByte(flags) / 2 == MaskByte(flags[1..]) && (MaskByte(flags) % 2 == 1 <==> flags[0])
  {
  }

  lemma {:induction false} MaskByteBound(flags: seq<bool>)
    ensures MaskByte(flags) < Pow2(|flags|)
  {
    if flags != [] {
      MaskByteBound(flags[1..]);
    }
  }

  lemma {:induction false} NoBits(k: nat)
    ensures !Bit(0, k)
  {
    if k > 0 {
      NoBits(k - 1);
    }
  }

  lemma {:induction false} MaskBytePush(flags: seq<bool>, flag: bool)
    ensures MaskByte(flags + [flag]) == MaskByte(flags) + if flag then Pow2(|flags|) else 0
  {
    if flags == [] {
      assert [flag][1..] == [];
    } else {
      MaskBytePush(flags[1..], flag);
      assert (flags + [flag])[1..] == flags[1..] + [flag];
    }
  }

  /** Which of the points `8 * j` to `8 * j + 7` have percentiles. */
  function Flags(ps: seq<Point>, j: nat): (r: seq<bool>)
    ensures |r| <= 8
  {
    var n := if |ps| < 8 * j then 0 else if |ps| - 8 * j < 8 then |ps| - 8 * j else 8;
    seq(n, i requires 0 <= i < n => ps[8 * j + i].HasBands())
  }

  function Mask(ps: seq<Point>): (r: seq<nat>)
    ensures |r| == (|ps| + 7) / 8
  {
    seq((|ps| + 7) / 8, j requires 0 <= j < (|ps| + 7) / 8 => MaskByte(Flags(ps, j)))
  }

  lemma MaskBits(ps: seq<Point>, i: nat)
    requires i < |ps|
    ensures i / 8 < |Mask(ps)|
    ensures Bit(Mask(ps)[i / 8], i % 8) <==> ps[i].HasBands()
  {
    hide Bit, MaskByte, Point.HasBands;
    var j, k := i / 8, i % 8;
    assert 8 * j + k == i;
    assert Mask(ps)[j] == MaskByte(Flags(ps, j));
    assert k < |Flags(ps, j)| && Flags(ps, j)[k] == ps[8 * j + k].HasBands();
    MaskByteBits(Flags(ps, j), k);
  }

  lemma MaskIsBytes(ps: seq<Point>)
    ensures forall b :: b in Mask(ps) ==> b < 0x100
  {
    assert Pow2(8) == 0x100 by { assert Pow2(4) == 16; }
    forall j | 0 <= j < |Mask(ps)| ensures Mask(ps)[j] < 0x100 {
      var flags := Flags(ps, j);
      MaskByteBound(flags);
      Pow2Monotone(|flags|, 8);
    }
  }

  lemma {:induction false} Pow2Monotone(a: nat, b: nat)
    requires a <= b
    ensures Pow2(a) <= Pow2(b)
  {
    if a < b {
      Pow2Monotone(a, b - 1);
    }
  }

  /** The stored scores of one point. */
  function PointBytes(p: Point): Bytes
    requires p.score.Bits?
  {
    LittleEndian(p.score.f, 4)
    + if !p.HasBands() then []
      else LittleEndian(p.pct5, 4) + LittleEndian(p.pct25, 4) + LittleEndian(p.pct75, 4) + LittleEndian(p.pct95, 4)
  }
}

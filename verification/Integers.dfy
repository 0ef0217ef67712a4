/** The variable-length integers of the offset/score format: base 128, most significant group first. */
module Integers {
  import opened Bytes
  import opened Table

  const UINT64: nat := 0x1_0000_0000_0000_0000

  /** The low 64 bits. */
  function Low64(a: nat): (r: nat)
    ensures r < UINT64
    ensures a < UINT64 ==> r == a
  {
    a % UINT64
  }

  /** Addition of unsigned 64-bit integers. */
  function Add64(a: nat, b: nat): (r: nat)
    ensures r < UINT64
    ensures a + b < UINT64 ==> r == a + b
  {
    Low64(a + b)
  }

  function Sub64(a: nat, b: nat): (r: nat) {
    (a - b) % UINT64
  }

  function Mul64(a: nat, b: nat): (r: nat)
    ensures r < UINT64
  {
    Low64(a * b)
  }

  /** A width survives being stored as an upper end. */
  lemma WidthOfRange(range: nat, least: nat)
    requires range < UINT64 && least < UINT64
    ensures Sub64(Add64(range, least), least) == range
    ensures Add64(range, least) == least <==> range == 0
  {
    var top := Add64(range, least);
    assert top == range + least || top == range + least - UINT64;
  }

  lemma Wrap(a: nat, k: nat)
    ensures (a + k * UINT64) % UINT64 == a % UINT64
  {
    assert (a + k * UINT64) / UINT64 == a / UINT64 + k;
  }

  lemma AddWraps(a: nat, b: nat)
    ensures Low64(Low64(a) + b) == Low64(a + b)
  {
    Wrap(a % UINT64 + b, a / UINT64);
  }

  lemma AddTwice(first: nat, p: nat, step: nat)
    ensures Low64(Low64(first + Low64(p)) + step) == Low64(first + Low64(p + step))
  {
    hide *;
    AddWraps(first + Low64(p), step);
    AddWraps(p, first + step);
    AddWraps(p + step, first);
  }

  /** Adding the product and once more the factor. */
  lemma OneMore(first: nat, step: nat, n: nat)
    ensures Add64(Add64(first, Mul64(step, n)), step) == Add64(first, Mul64(step, n + 1))
  {
    hide Low64;
    Distribute(step, n);
    AddTwice(first, step * n, step);
  }

  lemma Distribute(a: nat, n: nat)
    ensures a * (n + 1) == a * n + a
  {
  }

  /** All groups but the last carry the continuation bit. */
  function HighGroups(v: nat): Bytes {
    if v == 0 then [] else HighGroups(v / 0x80) + [v % 0x80 + 0x80]
  }

  function Format(v: nat): (r: Bytes)
    ensures |r| >= 1
  {
    HighGroups(v / 0x80) + [v % 0x80]
  }

  /** The group above the lowest `7 * n` bits is written exactly when there is something there. */
  lemma GroupAt(q: nat)
    ensures HighGroups(q) == HighGroups(q / 0x80) + if q != 0 then [0x80 + q % 0x80] else []
  {
    assert HighGroups(0) == [];
  }

  lemma LowShifts(v: nat)
    ensures v / 0x80 / 0x80 == v / 0x4000 && v / 0x4000 / 0x80 == v / 0x20_0000
    ensures v / 0x20_0000 / 0x80 == v / 0x1000_0000 && v / 0x1000_0000 / 0x80 == v / 0x8_0000_0000
  {
  }

  lemma HighShifts(v: nat)
    ensures v / 0x8_0000_0000 / 0x80 == v / 0x400_0000_0000
    ensures v / 0x400_0000_0000 / 0x80 == v / 0x2_0000_0000_0000
    ensures v / 0x2_0000_0000_0000 / 0x80 == v / 0x100_0000_0000_0000
    ensures v / 0x100_0000_0000_0000 / 0x80 == v / 0x8000_0000_0000_0000
    ensures v < UINT64 ==> v / 0x8000_0000_0000_0000 / 0x80 == 0
  {
  }

  lemma NoGroup()
    ensures HighGroups(0) == []
  {
  }

  /** One line of the formatter: a group, when the value reaches it. */
  method PutGroup(output: Bytes, present: bool, q: nat) returns (r: Bytes)
    requires output == HighGroups(q / 0x80) && (present <==> q != 0)
    ensures r == HighGroups(q)
  {
    hide HighGroups;
    GroupAt(q);
    r := if present then output + [0x80 + q % 0x80] else output;
  }

  /** Writes the groups one by one, from the top. */
  method FormatInteger(value: nat) returns (output: Bytes)
    requires value < UINT64
    ensures output == Format(value)
  {
    hide HighGroups;
    output := [];
    LowShifts(value);
    HighShifts(value);
    NoGroup();
    output := PutGroup(output, value > 0x7fff_ffff_ffff_ffff, value / 0x8000_0000_0000_0000);
    output := PutGroup(output, value > 0xff_ffff_ffff_ffff, value / 0x100_0000_0000_0000);
    output := PutGroup(output, value > 0x1_ffff_ffff_ffff, value / 0x2_0000_0000_0000);
    output := PutGroup(output, value > 0x3ff_ffff_ffff, value / 0x400_0000_0000);
    output := PutGroup(output, value > 0x7_ffff_ffff, value / 0x8_0000_0000);
    output := PutGroup(output, value > 0xfff_ffff, value / 0x1000_0000);
    output := PutGroup(output, value > 0x1f_ffff, value / 0x20_0000);
    output := PutGroup(output, value > 0x3fff, value / 0x4000);
    output := PutGroup(output, value > 0x7f, value / 0x80);
    output := output + [value % 0x80];
  }

  /** `result <<= 7; result |= ...` in 64 bits. */
  function Shift(result: nat, byte: Byte): (r: nat)
    ensures r < UINT64
  {
    (result * 0x80 + byte % 0x80) % UINT64
  }

  /** The parsed value and the place behind it; nothing when the integer runs off the end of the data. */
  function ParseFrom(data: Bytes, at: nat, result: nat): (r: Option<(nat, nat)>)
    requires at <= |data|
    ensures r.Some? ==> at < r.value.1 <= |data| && r.value.0 < UINT64
    decreases |data| - at
  {
    if at == |data| then None
    else
      var next := Shift(result, data[at]);
      if data[at] < 0x80 then Some((next, at + 1)) else ParseFrom(data, at + 1, next)
  }

  function Parse(data: Bytes, at: nat): (r: Option<(nat, nat)>)
    requires at <= |data|
    ensures r.Some? ==> at < r.value.1 <= |data| && r.value.0 < UINT64
  {
    ParseFrom(data, at, 0)
  }

  /** The parser's loop. */
  method ParseInteger(data: Bytes, at: nat) returns (r: Option<(nat, nat)>)
    requires at <= |data|
    ensures r == Parse(data, at)
  {
    if at == |data| {
      return None;
    }
    var i := at;
    var result: nat := data[i] % 0x80;
    while data[i] >= 0x80
      invariant at <= i < |data|
      invariant Parse(data, at) == if data[i] < 0x80 then Some((result, i + 1)) else ParseFrom(data, i + 1, result)
      invariant result < UINT64
      decreases |data| - i
    {
      i := i + 1;
      if i == |data| {
        return None;
      }
      result := Shift(result, data[i]);
    }
    r := Some((result, i + 1));
  }

  lemma HighGroupsStep(v: nat)
    requires v != 0
    ensures HighGroups(v) == HighGroups(v / 0x80) + [v % 0x80 + 0x80]
  {
  }

  lemma ShiftStep(v: nat)
    requires v < UINT64
    ensures Shift(v / 0x80, v % 0x80) == v && Shift(v / 0x80, v % 0x80 + 0x80) == v
  {
  }

  lemma ParseStep(data: Bytes, at: nat, result: nat)
    requires at < |data| && data[at] >= 0x80
    ensures ParseFrom(data, at, result) == ParseFrom(data, at + 1, Shift(result, data[at]))
  {
  }

  lemma {:induction false} ParseHigh(v: nat, data: Bytes, at: nat, result: nat)
    requires LiesAt(data, at, HighGroups(v)) && v < UINT64 && result == 0
    ensures at + |HighGroups(v)| <= |data|
    ensures ParseFrom(data, at, result) == ParseFrom(data, at + |HighGroups(v)|, v)
  {
    hide *;
    NoGroup();
    Lies(data, at, HighGroups(v));
    if v != 0 {
      var high := v / 0x80;
      var n := |HighGroups(high)|;
      HighGroupsStep(v);
      LiesAtSplit(data, at, HighGroups(high), [v % 0x80 + 0x80]);
      ParseHigh(high, data, at, result);
      LiesAtByte(data, at, HighGroups(v), n);
      ParseStep(data, at + n, high);
      ShiftStep(v);
    }
  }

  /** Parsing is exact in any surroundings. */
  lemma ParseFormat(v: nat, data: Bytes, at: nat)
    requires v < UINT64 && LiesAt(data, at, Format(v))
    ensures at + |Format(v)| <= |data|
    ensures Parse(data, at) == Some((v, at + |Format(v)|))
  {
    hide HighGroups, Shift, LiesAt;
    var n := |HighGroups(v / 0x80)|;
    ShiftStep(v);
    LiesAtSplit(data, at, HighGroups(v / 0x80), [v % 0x80]);
    ParseHigh(v / 0x80, data, at, 0);
    LiesAtByte(data, at, Format(v), n);
  }

  lemma {:induction false} HighGroupsLength(v: nat, n: nat)
    requires v < Power128(n)
    ensures |HighGroups(v)| <= n
  {
    if v != 0 {
      assert n > 0;
      assert v / 0x80 < Power128(n - 1);
      HighGroupsLength(v / 0x80, n - 1);
    }
  }

  function Power128(n: nat): nat {
    if n == 0 then 1 else 0x80 * Power128(n - 1)
  }

  /** No 64-bit integer takes more than ten bytes. */
  lemma FormatLength(v: nat)
    ensures v < UINT64 ==> |Format(v)| <= 10
    ensures v < 0x4000 ==> |Format(v)| <= 2
    ensures v < 0x80 ==> |Format(v)| == 1
  {
    if v < UINT64 {
      assert Power128(4) == 0x1000_0000 && Power128(9) == 0x1000_0000 * (0x1000_0000 * 0x80) by {
        assert Power128(2) == 0x4000 && Power128(6) == 0x1000_0000 * 0x4000 && Power128(8) == 0x1000_0000 * 0x1000_0000;
      }
      HighGroupsLength(v / 0x80, 9);
    }
    assert v < 0x4000 ==> HighGroups(v / 0x80 / 0x80) == [];
  }
}

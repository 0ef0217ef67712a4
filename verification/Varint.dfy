/** The variable-length integers of `oroch::varint_codec`: 7-bit groups, least significant first. */
module Varint {
  import opened Bytes

  function Encode(v: nat): (r: Bytes)
    ensures |r| >= 1
  {
    if v < 0x80 then [v] else [v % 0x80 + 0x80] + Encode(v / 0x80)
  }

  /** The encoder's loop. */
  method ValueEncode(src: nat) returns (dst: Bytes)
    ensures dst == Encode(src)
  {
    dst := [];
    var value := src;
    while value >= 0x80
      invariant Encode(src) == dst + Encode(value)
    {
      dst := dst + [value % 0x80 + 0x80];
      value := value / 0x80;
    }
    dst := dst + [value];
  }


  /** The value of the integer at `at`, which continues up to a byte below 0x80, and the place behind it. */
  function Decode(data: Bytes, at: nat): (r: (nat, nat))
    requires at <= |data|
    ensures at <= r.1 <= |data|
    decreases |data| - at
  {
    if at == |data| then (0, at)
    else if data[at] < 0x80 then (data[at], at + 1)
    else
      var (high, next) := Decode(data, at + 1);
      (data[at] - 0x80 + 0x80 * high, next)
  }

  /** Decoding is exact in any surroundings, so encodings can be laid side by side. */
  lemma {:induction false} DecodeEncode(v: nat, data: Bytes, at: nat)
    requires at + |Encode(v)| <= |data| && data[at..at + |Encode(v)|] == Encode(v)
    ensures Decode(data, at) == (v, at + |Encode(v)|)
  {
    var code := Encode(v);
    assert data[at] == data[at..at + |code|][0];
    if v >= 0x80 {
      assert code[1..] == Encode(v / 0x80);
      assert data[at + 1..at + |code|] == data[at..at + |code|][1..];
      DecodeEncode(v / 0x80, data, at + 1);
    }
  }

  /** `low` plus the groups still to come, `weight` being the weight of the next one. */
  ghost predicate Splits(total: nat, low: nat, weight: nat, high: nat) {
    total == low + weight * high
  }

  lemma NextGroup(total: nat, low: nat, weight: nat, digit: nat, high: nat)
    requires Splits(total, low, weight, digit + 0x80 * high)
    ensures Splits(total, low + digit * weight, weight * 0x80, high)
  {
  }

  method AddGroup(low: nat, weight: nat, digit: nat, ghost total: nat, ghost high: nat) returns (sum: nat, shifted: nat)
    requires Splits(total, low, weight, digit + 0x80 * high)
    ensures Splits(total, sum, shifted, high)
  {
    NextGroup(total, low, weight, digit, high);
    sum, shifted := low + digit * weight, weight * 0x80;
  }

  lemma LastGroup(total: nat, low: nat, weight: nat, digit: nat)
    requires Splits(total, low, weight, digit)
    ensures total == low + digit * weight
  {
  }

  lemma DecodeStep(data: Bytes, at: nat)
    requires at < |data|
    ensures data[at] < 0x80 ==> Decode(data, at) == (data[at], at + 1)
    ensures data[at] >= 0x80 ==>
              Decode(data, at) == (data[at] - 0x80 + 0x80 * Decode(data, at + 1).0, Decode(data, at + 1).1)
  {
  }

  lemma NothingSplit(total: nat)
    ensures Splits(total, 0, 1, total)
  {
  }

  /** The decoder's loop; `shift` is the weight of the next group. */
  method ValueDecode(data: Bytes, at: nat) returns (value: nat, next: nat)
    requires exists end :: at <= end < |data| && data[end] < 0x80
    ensures (value, next) == Decode(data, at)
  {
    hide Decode, Splits;
    value, next := 0, at;
    var shift := 1;
    NothingSplit(Decode(data, at).0);
    ghost var end :| at <= end < |data| && data[end] < 0x80;
    while data[next] >= 0x80
      invariant at <= next <= end
      invariant Splits(Decode(data, at).0, value, shift, Decode(data, next).0)
      invariant Decode(data, at).1 == Decode(data, next).1
      decreases end - next
    {
      DecodeStep(data, next);
      value, shift := AddGroup(value, shift, data[next] - 0x80, Decode(data, at).0, Decode(data, next + 1).0);
      next := next + 1;
    }
    DecodeStep(data, next);
    LastGroup(Decode(data, at).0, value, shift, data[next]);
    value := value + data[next] * shift;
    next := next + 1;
  }

  /** The number of significant bits, which the source takes from a count of leading zeros. */
  function UsedBits(v: nat): nat {
    if v == 0 then 0 else 1 + UsedBits(v / 2)
  }

  function ValueSpace(v: nat): nat {
    if v == 0 then 1 else (UsedBits(v) + 6) / 7
  }

  /** The space reserved for a value is exactly the space that its encoding takes. */
  lemma {:induction false} SpaceIsLength(v: nat)
    ensures ValueSpace(v) == |Encode(v)|
  {
    if v < 0x80 {
      assert UsedBits(v) <= 7 by { UsedBitsOfGroup(v); }
    } else {
      SpaceIsLength(v / 0x80);
      UsedBitsShift(v);
    }
  }

  lemma UsedBitsOfGroup(v: nat)
    requires v < 0x80
    ensures UsedBits(v) <= 7
    ensures v > 0 ==> UsedBits(v) > 0
  {
    var a := v / 2;
    var b := a / 2;
    var c := b / 2;
    var d := c / 2;
    var e := d / 2;
    var f := e / 2;
    assert UsedBits(f) <= 1 && UsedBits(e) <= 2 && UsedBits(d) <= 3 && UsedBits(c) <= 4 && UsedBits(b) <= 5;
  }

  lemma UsedBitsShift(v: nat)
    requires v >= 0x80
    ensures UsedBits(v) == 7 + UsedBits(v / 0x80)
  {
    var a := v / 2;
    var b := a / 2;
    var c := b / 2;
    var d := c / 2;
    var e := d / 2;
    var f := e / 2;
    assert UsedBits(v) == 2 + UsedBits(b);
    assert UsedBits(b) == 2 + UsedBits(d);
    assert UsedBits(d) == 2 + UsedBits(f);
    assert f / 2 == v / 0x80;
  }

  function EncodeAll(vs: seq<nat>): Bytes {
    if vs == [] then [] else Encode(vs[0]) + EncodeAll(vs[1..])
  }

  function SpaceAll(vs: seq<nat>): nat {
    if vs == [] then 0 else ValueSpace(vs[0]) + SpaceAll(vs[1..])
  }

  lemma {:induction false} SpaceAllIsLength(vs: seq<nat>)
    ensures SpaceAll(vs) == |EncodeAll(vs)|
    ensures |vs| <= |EncodeAll(vs)|
  {
    if vs != [] {
      SpaceIsLength(vs[0]);
      SpaceAllIsLength(vs[1..]);
    }
  }

  lemma {:induction false} EncodeAllAppend(a: seq<nat>, b: seq<nat>)
    ensures EncodeAll(a + b) == EncodeAll(a) + EncodeAll(b)
  {
    if a == [] {
      assert a + b == b;
    } else {
      EncodeAllAppend(a[1..], b);
      assert (a + b)[1..] == a[1..] + b;
    }
  }

  method EncodeSequence(vs: seq<nat>) returns (dst: Bytes)
    ensures dst == EncodeAll(vs)
  {
    dst := [];
    for i := 0 to |vs|
      invariant dst == EncodeAll(vs[..i])
    {
      var code := ValueEncode(vs[i]);
      EncodeAllAppend(vs[..i], [vs[i]]);
      assert vs[..i + 1] == vs[..i] + [vs[i]];
      assert EncodeAll([vs[i]]) == Encode(vs[i]) + EncodeAll([]);
      dst := dst + code;
    }
    assert vs[..|vs|] == vs;
  }

  lemma FirstCode(vs: seq<nat>, i: nat)
    requires i < |vs|
    ensures EncodeAll(vs[i..]) == Encode(vs[i]) + EncodeAll(vs[i + 1..])
  {
    assert vs[i..][1..] == vs[i + 1..];
  }

  lemma NoCode()
    ensures EncodeAll([]) == []
  {
  }

  /** Reads back `|vs|` values that start at `at`; nothing is assumed about what follows them. */
  method DecodeSequence(data: Bytes, at: nat, count: nat, ghost vs: seq<nat>) returns (values: seq<nat>, next: nat)
    requires count == |vs|
    requires at + |EncodeAll(vs)| <= |data| && data[at..at + |EncodeAll(vs)|] == EncodeAll(vs)
    ensures values == vs && next == at + |EncodeAll(vs)|
  {
    hide *;
    values, next := [], at;
    assert vs[0..] == vs && vs[count..] == [] && vs[..count] == vs;
    Lies(data, at, EncodeAll(vs));
    NoCode();
    for i := 0 to count
      invariant values == vs[..i]
      invariant next + |EncodeAll(vs[i..])| == at + |EncodeAll(vs)|
      invariant LiesAt(data, next, EncodeAll(vs[i..]))
    {
      FirstCode(vs, i);
      LiesAtSplit(data, next, Encode(vs[i]), EncodeAll(vs[i + 1..]));
      Lies(data, next, Encode(vs[i]));
      var value, after := DecodeOne(data, next, vs[i]);
      values := values + [value];
      next := after;
    }
  }

  /** Reading one value that was encoded at `at`. */
  method DecodeOne(data: Bytes, at: nat, ghost v: nat) returns (value: nat, next: nat)
    requires at + |Encode(v)| <= |data| && data[at..at + |Encode(v)|] == Encode(v)
    ensures value == v && next == at + |Encode(v)|
  {
    EncodeEnds(v);
    assert data[at + |Encode(v)| - 1] == data[at..at + |Encode(v)|][|Encode(v)| - 1];
    value, next := ValueDecode(data, at);
    DecodeEncode(v, data, at);
  }

  lemma {:induction false} EncodeEnds(v: nat)
    ensures Encode(v)[|Encode(v)| - 1] < 0x80
  {
    if v >= 0x80 {
      EncodeEnds(v / 0x80);
    }
  }
}

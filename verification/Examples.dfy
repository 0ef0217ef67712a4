/** Small inputs of the stored formats, byte by byte, with what they stand for. They fix what no round trip can:
    the order of bytes, the marks and the constants that writer and reader share. */
module Examples {
  import opened Bytes
  import opened Table
  import V = Varint
  import I = Integers
  import opened Rle
  import opened Points
  import opened Decode
  import Format
  import F = Floats
  import S = Series
  import opened Block
  import opened Index
  import opened TableFile
  import opened WriteOnceTable

  // ---------- Integers ----------

  /** Of the groups of 7 bits the table file puts the lowest first. */
  lemma LowestGroupFirst()
    ensures V.Encode(300) == [0xac, 0x02]
  {
    assert V.Encode(2) == [2];
  }

  /** The series puts the highest first. */
  lemma HighestGroupFirst()
    ensures I.Format(300) == [0x82, 0x2c]
  {
    I.NoGroup();
    assert I.HighGroups(2) == I.HighGroups(0) + [0x82];
  }

  lemma SmallNumbers(v: nat)
    requires v < 0x80
    ensures V.Encode(v) == [v] && I.Format(v) == [v]
  {
    I.NoGroup();
  }

  /** Fixed widths have the lowest byte first. */
  lemma LowestByteFirst(a: Byte, b: Byte, c: Byte, d: Byte)
    ensures FromLittleEndian([a, b]) == a as nat + 0x100 * b as nat
    ensures FromLittleEndian([a, b, c]) == a as nat + 0x100 * b as nat + 0x1_0000 * c as nat
    ensures FromLittleEndian([a, b, c, d]) == a as nat + 0x100 * b as nat + 0x1_0000 * c as nat + 0x100_0000 * d as nat
  {
    assert FromLittleEndian([]) == 0 && FromLittleEndian([a]) == a && [a, b][1..] == [b] && FromLittleEndian([b]) == b;
    assert [a, b, c][1..] == [b, c] && [b, c][1..] == [c] && FromLittleEndian([c]) == c;
    assert [a, b, c, d][1..] == [b, c, d] && [b, c, d][1..] == [c, d] && [c, d][1..] == [d];
    assert FromLittleEndian([d]) == d && FromLittleEndian([b, c]) == b as nat + 0x100 * c as nat;
    assert FromLittleEndian([c, d]) == c as nat + 0x100 * d as nat;
    assert FromLittleEndian([b, c, d]) == b as nat + 0x100 * c as nat + 0x1_0000 * d as nat;
  }

  /** A byte from 0xc0 on repeats the byte behind it, one more time than its low bits say. */
  lemma RunsAndLiterals()
    ensures Expand([5, 0xc2, 7, 0xbf]) == Some([5, 7, 7, 7, 0xbf])
  {
    hide Expand;
    NothingExpands();
    assert [0xbf][1..] == [] && [0xc2, 7, 0xbf][2..] == [0xbf] && [5, 0xc2, 7, 0xbf][1..] == [0xc2, 7, 0xbf];
    ExpandFirst([0xbf]);
    ExpandFirst([0xc2, 7, 0xbf]);
    ExpandFirst([5, 0xc2, 7, 0xbf]);
    assert Repeat(7, 3) == [7, 7, 7];
    assert [0xbf] + [] == [0xbf] && [7, 7, 7] + [0xbf] == [7, 7, 7, 0xbf]
           && [5] + [7, 7, 7, 0xbf] == [5, 7, 7, 7, 0xbf];
  }

  lemma NothingExpands()
    ensures Expand([]) == Some([])
  {
  }

  lemma ExpandFirst(code: Bytes)
    ensures code != [] && code[0] < 0xc0 && Expand(code[1..]).Some? ==>
              Expand(code) == Some([code[0]] + Expand(code[1..]).value)
    ensures |code| >= 2 && code[0] >= 0xc0 && Expand(code[2..]).Some? ==>
              Expand(code) == Some(Repeat(code[1], code[0] - 0xc0 + 1) + Expand(code[2..]).value)
  {
    hide Repeat;
  }

  // ---------- Floats ----------

  /** A float is finite unless its exponent is the highest one. */
  lemma FieldsOfFloat(sign: nat, exponent: nat, fraction: nat)
    requires sign < 2 && exponent < 0x100 && fraction < 0x80_0000
    ensures var f := 0x8000_0000 * sign + 0x80_0000 * exponent + fraction;
            && f < 0x1_0000_0000
            && (IsFinite(f) <==> exponent < 0xff)
            && (F.IsNegative(f) <==> sign == 1)
            && F.Exponent(f) == exponent
            && F.Significand(f) == (if exponent == 0 then fraction else 0x80_0000 + fraction)
            && F.Scale(f) == if exponent == 0 then 1 else exponent
  {
    var f := 0x8000_0000 * sign + 0x80_0000 * exponent + fraction;
    assert f / 0x80_0000 == 0x100 * sign + exponent && f % 0x80_0000 == fraction;
  }

  /** 0x3f800000 is 1, 0xc0400000 is -3, 0x3f000000 is no integer, 0x7fc00000 is no number. */
  lemma FloatExamples()
    ensures F.IntegerValue(0x3f80_0000) == Some(1) && F.IntegerValue(0xc040_0000) == Some(-3)
    ensures F.IntegerValue(0x3f00_0000) == None && !IsFinite(QUIET_NAN) && QUIET_NAN == 0x7fc0_0000
    ensures F.IntegerValue(0x0000_0000) == Some(0)
  {
    hide *;
    FloatIs(0, 127, 0, 23);
    FloatIs(1, 128, 0x40_0000, 22);
    FloatIs(0, 126, 0, 24);
    FloatIs(0, 0, 0, 149);
    PowersOfTwo();
    NoNumber();
  }

  lemma NoNumber()
    ensures QUIET_NAN == 0x7fc0_0000 && !IsFinite(QUIET_NAN)
  {
  }

  lemma FloatIs(sign: nat, exponent: nat, fraction: nat, digits: nat)
    requires sign < 2 && exponent < 150 && fraction < 0x80_0000 && digits == 150 - if exponent == 0 then 1 else exponent
    ensures Pow2(digits) > 0
    ensures var significand := if exponent == 0 then fraction else 0x80_0000 + fraction;
            F.IntegerValue(0x8000_0000 * sign + 0x80_0000 * exponent + fraction) ==
            if significand % Pow2(digits) != 0 then None
            else Some((significand / Pow2(digits)) * if sign == 0 then 1 else -1)
  {
    hide Pow2, IsFinite, F.Significand, F.Exponent, F.IsNegative;
    F.Pow2Positive(digits);
    FieldsOfFloat(sign, exponent, fraction);
  }

  lemma PowersOfTwo()
    ensures Pow2(22) == 0x40_0000 && Pow2(23) == 0x80_0000 && Pow2(24) == 0x100_0000
  {
    assert Pow2(4) == 16;
    assert Pow2(8) == 0x100;
    assert Pow2(12) == 0x1000;
    assert Pow2(16) == 0x1_0000;
    assert Pow2(20) == 0x10_0000;
  }

  /** Percentiles count when all four are finite, and are dropped otherwise. */
  lemma BandsMeaning(offset: nat, score: Score, a: Float, b: Float, c: Float, d: Float)
    ensures var all := IsFinite(a) && IsFinite(b) && IsFinite(c) && IsFinite(d);
            && (Point(offset, score, a, b, c, d).HasBands() <==> all)
            && Point(offset, score, a, b, c, d).Kept() ==
               if all then Point(offset, score, a, b, c, d)
               else Point(offset, score, 0x7fc0_0000, 0x7fc0_0000, 0x7fc0_0000, 0x7fc0_0000)
  {
  }

  // ---------- Series ----------

  lemma SmallParse(data: Bytes, at: nat)
    requires at < |data| && data[at] < 0x80
    ensures I.Parse(data, at) == Some((data[at] as nat, at + 1))
  {
  }

  /** A record of one point: the type, the offset, and the number or its complement. */
  lemma SingleIntegers(a: Byte, b: Byte, c: Byte)
    ensures var two := a as int + 0x100 * b as int;
            var three := two + 0x1_0000 * c as int;
            && DecodeRecord([10, 5, a], 0) == Some(Record([Plain(5, Whole(a as int))], 3))
            && DecodeRecord([11, 5, a], 0) == Some(Record([Plain(5, Whole(-1 - a as int))], 3))
            && DecodeRecord([12, 5, a, b], 0) == Some(Record([Plain(5, Whole(two))], 4))
            && DecodeRecord([13, 5, a, b], 0) == Some(Record([Plain(5, Whole(-1 - two))], 4))
            && DecodeRecord([14, 5, a, b, c], 0) == Some(Record([Plain(5, Whole(three))], 5))
            && DecodeRecord([15, 5, a, b, c], 0) == Some(Record([Plain(5, Whole(-1 - three))], 5))
  {
    hide *;
    LowestByteFirst(a, b, c, 0);
    OneByte(a);
    SingleWidths();
    IsSingle(10, [a]);
    IsSingle(11, [a]);
    IsSingle(12, [a, b]);
    IsSingle(13, [a, b]);
    IsSingle(14, [a, b, c]);
    IsSingle(15, [a, b, c]);
    assert [10] + [5] + [a] == [10, 5, a] && [11] + [5] + [a] == [11, 5, a];
    assert [12] + [5] + [a, b] == [12, 5, a, b] && [13] + [5] + [a, b] == [13, 5, a, b];
    assert [14] + [5] + [a, b, c] == [14, 5, a, b, c] && [15] + [5] + [a, b, c] == [15, 5, a, b, c];
  }

  /** With a float, or with no point at all. */
  lemma SingleFloats(a: Byte, b: Byte, c: Byte, d: Byte)
    ensures DecodeRecord([9, 5, a, b, c, d], 0) ==
            Some(Record([Plain(5, Bits((a as int + 0x100 * b as int + 0x1_0000 * c as int + 0x100_0000 * d as int)
                                         as Float))], 6))
    ensures DecodeRecord([16], 0) == Some(Record([], 1))
  {
    hide FromLittleEndian, V.Decode, ParseVarint;
    LowestByteFirst(a, b, c, d);
    FiveAt([9, 5, a, b, c, d]);
    assert [9, 5, a, b, c, d][2..6] == [a, b, c, d];
  }

  lemma IsSingle(kind: Byte, code: Bytes)
    requires 10 <= kind <= 15 && |code| == SingleWidth(kind)
    ensures DecodeRecord([kind] + [5] + code, 0) ==
            Some(Record([Plain(5,
              Whole(if kind % 2 == 0 then FromLittleEndian(code) else -1 - FromLittleEndian(code)))],
                        2 + |code|))
  {
    hide FromLittleEndian, ParseVarint, DecodeRecord, DecodeSingle;
    var data := [kind] + [5] + code;
    FiveAt(data);
    assert data[2..2 + |code|] == code;
    RecordOfOne(data, kind);
    PointOfOne(data, kind, code);
  }

  lemma RecordOfOne(data: Bytes, kind: Byte)
    requires 10 <= kind <= 15 && data != [] && data[0] == kind
    ensures DecodeRecord(data, 0) == DecodeSingle(kind, data, 1)
  {
    hide DecodeSingle;
  }

  lemma PointOfOne(data: Bytes, kind: Byte, code: Bytes)
    requires 10 <= kind <= 15 && |code| == SingleWidth(kind) && |data| >= 2 + |code| && data[2..2 + |code|] == code
    requires ParseVarint(data, 1) == Some((5, 2))
    ensures DecodeSingle(kind, data, 1) ==
            Some(Record([Plain(5,
              Whole(if kind % 2 == 0 then FromLittleEndian(code) else -1 - FromLittleEndian(code)))],
                        2 + |code|))
  {
    hide FromLittleEndian, ParseVarint, SingleWidth;
  }

  lemma SingleWidths()
    ensures SingleWidth(10) == SingleWidth(11) == 1 && SingleWidth(12) == SingleWidth(13) == 2
    ensures SingleWidth(14) == SingleWidth(15) == 3
  {
  }

  lemma OneByte(a: Byte)
    ensures FromLittleEndian([a]) == a
  {
    assert FromLittleEndian([]) == 0;
  }

  lemma FiveAt(data: Bytes)
    requires |data| > 2 && data[1] == 5
    ensures ParseVarint(data, 1) == Some((5, 2))
  {
  }

  /** The point at offset 5 with four percentiles: the kind 0, one point, its offset, a mask of one bit, and
      the score in front of the percentiles from the lowest to the highest. */
  lemma BandsExample(score: Float, a: Float, b: Float, c: Float, d: Float)
    requires IsFinite(a) && IsFinite(b) && IsFinite(c) && IsFinite(d)
    ensures var code := LittleEndian(score, 4) + LittleEndian(a, 4) + LittleEndian(b, 4) + LittleEndian(c, 4)
                        + LittleEndian(d, 4);
            DecodeRecord([0, 1, 5, 1] + code, 0) == Some(Record([Point(5, Bits(score), a, b, c, d)], 24))
  {
    hide *;
    var p := Point(5, Bits(score), a, b, c, d);
    HasAll(p);
    OneBandForm(p, PointBytes(p));
    AloneDecoded(p, [0, 1, 5, 1] + PointBytes(p));
  }

  lemma HasAll(p: Point)
    requires p.offset == 5 && p.score.Bits?
    requires IsFinite(p.pct5) && IsFinite(p.pct25) && IsFinite(p.pct75) && IsFinite(p.pct95)
    ensures p.HasBands() && p.InRange()
    ensures PointBytes(p) == LittleEndian(p.score.f, 4) + LittleEndian(p.pct5, 4) + LittleEndian(p.pct25, 4)
                             + LittleEndian(p.pct75, 4) + LittleEndian(p.pct95, 4)
    ensures |PointBytes(p)| == 20
  {
    hide LittleEndian, IsFinite;
  }

  lemma AloneDecoded(p: Point, code: Bytes)
    requires Format.InRange([p]) && Format.FormOk([p], Format.Form(None, [], [1])) && p.HasBands()
    requires code == [WITH_PREDICTION] + Format.RecordBytes([p], Format.Form(None, [], [1]))
    ensures DecodeRecord(code, 0) == Some(Record([p], |code|))
  {
    hide DecodeRecord, Format.FormOk, Format.RecordBytes, LiesAt, Point.HasBands;
    LiesAlone(code);
    Format.WithPredictionRoundTrip([p], Format.Form(None, [], [1]), code, 0);
    assert Kept([p]) == [p];
  }

  lemma LiesAlone(code: Bytes)
    ensures LiesAt(code, 0, code)
  {
    assert code[0..|code|] == code;
  }

  lemma OneBandForm(p: Point, code: Bytes)
    requires p.InRange() && p.HasBands() && p.offset == 5 && code == PointBytes(p)
    ensures Format.SortedByOffset([p]) && Format.InRange([p]) && Format.FormOk([p], Format.Form(None, [], [1]))
    ensures [WITH_PREDICTION] + Format.RecordBytes([p], Format.Form(None, [], [1])) == [0, 1, 5, 1] + code
  {
    hide LittleEndian, I.Format, Expand, MaskByte, PointBytes, Point.HasBands;
    SmallNumbers(1);
    SmallNumbers(5);
    OneMask(p);
    NothingExpands();
    ExpandFirst([1]);
    assert [1][1..] == [] && [1] + [] == [1];
    assert Format.Scores([p], 0) == [] && Format.Scores([p], 1) == [] + code;
    assert [0] + ([1] + ([5] + ([] + ([1] + code)))) == [0, 1, 5, 1] + code;
  }

  lemma OneMask(p: Point)
    requires p.HasBands()
    ensures Mask([p]) == [1]
  {
    hide Point.HasBands;
    assert Flags([p], 0) == [true];
    assert MaskByte([true]) == 1 + 2 * MaskByte([]);
    assert Mask([p])[0] == MaskByte(Flags([p], 0));
  }

  /** Steps without a dictionary, and with one: the number of its steps, their differences, and a place for
      each step. */
  lemma StepExamples()
    ensures DecodeSteps([0, 2], 0, 2) == Some(([2], 2))
    ensures DecodeSteps([2, 2, 3, 1, 0], 0, 3) == Some(([5, 2], 5))
    ensures Accumulate(5, [5, 2]) == [5, 10, 12]
  {
    hide I.Parse, ParseMany, PrefixSums, Accumulate;
    SmallParse([0, 2], 0);
    SmallParse([2, 2, 3, 1, 0], 0);
    OneParsed([0, 2], 1);
    TwoParsed([2, 2, 3, 1, 0], 1);
    TwoParsed([2, 2, 3, 1, 0], 3);
    SumExamples();
    assert Look([2, 5], [1, 0]) == [5, 2];
  }

  lemma SumExamples()
    ensures PrefixSums([2, 3]) == [2, 5] && Accumulate(5, [5, 2]) == [5, 10, 12]
  {
    hide PrefixSums, Accumulate;
    NoSums();
    PrefixSumsPush([], 2);
    PrefixSumsPush([2], 3);
    AccumulatePush(5, [], 5);
    AccumulatePush(5, [5], 2);
    assert [] + [2] == [2] && [2] + [3] == [2, 3] && [] + [5] == [5] && [5] + [2] == [5, 2];
  }

  lemma NoSums()
    ensures PrefixSums([]) == [] && Accumulate(5, []) == [5]
  {
  }

  lemma OneParsed(data: Bytes, at: nat)
    requires at < |data| && data[at] < 0x80
    ensures ParseMany(data, at, 1) == Some(([data[at] as nat], at + 1))
  {
    hide I.Parse;
    SmallParse(data, at);
    assert ParseMany(data, at, 0) == Some(([], at)) && [] + [data[at] as nat] == [data[at] as nat];
  }

  lemma TwoParsed(data: Bytes, at: nat)
    requires at + 1 < |data| && data[at] < 0x80 && data[at + 1] < 0x80
    ensures ParseMany(data, at, 2) == Some(([data[at] as nat, data[at + 1] as nat], at + 2))
  {
    hide I.Parse;
    OneParsed(data, at);
    SmallParse(data, at + 1);
    assert [data[at] as nat] + [data[at + 1] as nat] == [data[at] as nat, data[at + 1] as nat];
  }

  // ---------- Table files ----------

  /** A table file starts with "p.i.tabl", version 4.0, the flag of seekable tables, the compression, four zero
      bytes, and the offset of the index. */
  lemma HeaderExample(f: TableFile.Format, indexOffset: nat)
    requires indexOffset < 0x1_0000_0000_0000_0000
    ensures HeaderBytes(FormatHeader(f, indexOffset)) ==
            [0x70, 0x2e, 0x69, 0x2e, 0x74, 0x61, 0x62, 0x6c, 4, 0, if f.seekable then 1 else 0,
             if f.compressed then 1 else 0, 0, 0, 0, 0] + LittleEndian(indexOffset, 8)
  {
    hide LittleEndian;
    MagicBytes();
    OneField(4);
    OneField(0);
    OneField(1);
    NoBytes();
  }

  lemma OneField(v: nat)
    requires v < 0x100
    ensures LittleEndian(v, 1) == [v]
  {
    assert LittleEndian(0, 0) == [];
  }

  lemma NoBytes()
    ensures LittleEndian(0, 4) == [0, 0, 0, 0]
  {
    assert LittleEndian(0, 2) == [0, 0] && LittleEndian(0, 3) == [0] + [0, 0];
  }

  lemma MagicBytes()
    ensures LittleEndian(0x6c62_6174_2e69_2e70, 8) == [0x70, 0x2e, 0x69, 0x2e, 0x74, 0x61, 0x62, 0x6c]
  {
    hide LittleEndian;
    LowFirst(0x6c, 1);
    LowFirst(0x6c62, 2);
    LowFirst(0x6c_6261, 3);
    LowFirst(0x6c62_6174, 4);
    LowFirst(0x6c_6261_742e, 5);
    LowFirst(0x6c62_6174_2e69, 6);
    LowFirst(0x6c_6261_742e_692e, 7);
    LowFirst(0x6c62_6174_2e69_2e70, 8);
    assert LittleEndian(0, 0) == [];
  }

  lemma LowFirst(v: nat, n: nat)
    requires n > 0
    ensures LittleEndian(v, n) == [v % 0x100] + LittleEndian(v / 0x100, n - 1)
  {
  }

  /** The header opens when the magic fits, the version is at least 4, the compression is none or ZSTD, and no
      flag for an extension is set; and it has the seekable flag when that is asked for. */
  lemma OpensExactly(h: Header, seekable: bool)
    ensures CheckHeader(h, seekable) == None <==>
            && h.magic == 0x6c62_6174_2e69_2e70 && h.majorVersion >= 4 && (h.compression == 0 || h.compression == 1)
            && h.flags % 4 < 2 && (seekable ==> h.flags % 2 == 1)
    ensures h.magic != 0x6c62_6174_2e69_2e70 <==> CheckHeader(h, seekable) == Some(BadMagic)
  {
  }

  /** Two rows in a seekable block: the sizes of each row in front of it. */
  lemma SeekableExample()
    ensures SeekableBytes([Row([97], [98, 99]), Row([100, 101], [])]) == [1, 2, 97, 98, 99, 2, 0, 100, 101]
  {
    hide V.Encode, Concat, RowCode;
    SmallNumbers(0);
    SmallNumbers(1);
    SmallNumbers(2);
    var a, b := Row([97], [98, 99]), Row([100, 101], []);
    CodeOf(a);
    CodeOf(b);
    TwoParts(RowCode(a), RowCode(b));
    assert RowCodes([a, b]) == [RowCode(a), RowCode(b)];
  }

  /** In the other kind of block: all sizes, all keys, all values. */
  lemma ColumnarExample()
    ensures ColumnarBytes([Row([97], [98, 99]), Row([100, 101], [])]) == [1, 2, 2, 0, 97, 100, 101, 98, 99]
  {
    hide V.Encode, V.EncodeAll, Concat;
    SmallNumbers(0);
    SmallNumbers(1);
    SmallNumbers(2);
    var rows := [Row([97], [98, 99]), Row([100, 101], [])];
    assert Keys(rows) == [[97], [100, 101]] && Values(rows) == [[98, 99], []];
    assert Sizes([[97], [100, 101]]) == [1, 2] && Sizes([[98, 99], []]) == [2, 0];
    TwoParts([97], [100, 101]);
    TwoParts([98, 99], []);
    TwoNumbers(1, 2);
    TwoNumbers(2, 0);
  }

  /** An index of two blocks: their number, their sizes, their numbers of rows, the sizes of their last keys,
      and these keys. */
  lemma IndexExample()
    ensures IndexBytes([300, 5], [2, 1], [[97], [98, 99]]) == [2, 0xac, 0x02, 5, 2, 1, 1, 2, 97, 98, 99]
  {
    hide V.Encode, V.EncodeAll, Concat;
    LowestGroupFirst();
    SmallNumbers(1);
    SmallNumbers(2);
    SmallNumbers(5);
    assert Sizes([[97], [98, 99]]) == [1, 2];
    TwoParts([97], [98, 99]);
    TwoNumbers(300, 5);
    TwoNumbers(2, 1);
    TwoNumbers(1, 2);
  }

  lemma CodeOf(row: Row)
    ensures RowCode(row) == V.Encode(|row.key|) + V.Encode(|row.value|) + row.key + row.value
  {
  }

  lemma TwoParts(a: Bytes, b: Bytes)
    ensures Concat([a, b]) == a + b
  {
    assert [a, b][1..] == [b] && [b][1..] == [] && Concat<Byte>([]) == [] && Concat([b]) == b + [] && b + [] == b;
  }

  lemma TwoNumbers(a: nat, b: nat)
    ensures V.EncodeAll([a, b]) == V.Encode(a) + V.Encode(b)
  {
    hide V.Encode;
    assert [a, b][1..] == [b] && [b][1..] == [] && V.EncodeAll([]) == [] && V.EncodeAll([b]) == V.Encode(b) + [];
  }
}

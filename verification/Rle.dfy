/** Run-length coding of bytes. A byte of 0xc0 or more announces a run of the byte that follows it. */
module Rle {
  import opened Bytes
  import opened Table

  function Repeat(value: Byte, n: nat): (r: Bytes)
    ensures |r| == n && forall i :: 0 <= i < n ==> r[i] == value
  {
    if n == 0 then [] else Repeat(value, n - 1) + [value]
  }

  /** What a sequence of whole codes stands for. */
  function Expand(code: Bytes): Option<Bytes> {
    if code == [] then Some([])
    else if code[0] < 0xc0 then
      match Expand(code[1..])
      case None => None
      case Some(rest) => Some([code[0]] + rest)
    else if |code| < 2 then None
    else
      match Expand(code[2..])
      case None => None
      case Some(rest) => Some(Repeat(code[1], code[0] - 0xc0 + 1) + rest)
  }

  lemma ExpandLiteralFirst(value: Byte, rest: Bytes)
    requires value < 0xc0
    ensures Expand([value] + rest) == if Expand(rest).Some? then Some([value] + Expand(rest).value) else None
  {
    assert ([value] + rest)[1..] == rest;
  }

  lemma ExpandRunFirst(head: Byte, value: Byte, rest: Bytes)
    requires head >= 0xc0
    ensures Expand([head, value] + rest) ==
            if Expand(rest).Some? then Some(Repeat(value, head - 0xc0 + 1) + Expand(rest).value) else None
  {
    assert ([head, value] + rest)[2..] == rest;
  }

  lemma ExpandShort(code: Bytes)
    ensures Expand(code).Some? && code != [] && code[0] >= 0xc0 ==> |code| >= 2
    ensures Expand([]) == Some([])
  {
  }

  lemma {:induction false} ExpandAppend(a: Bytes, b: Bytes)
    requires Expand(a).Some? && Expand(b).Some?
    ensures Expand(a + b) == Some(Expand(a).value + Expand(b).value)
  {
    hide Expand;
    ExpandShort(a);
    var rb := Expand(b).value;
    if a == [] {
      assert a + b == b && [] + rb == rb;
    } else if a[0] < 0xc0 {
      var rest := a[1..];
      assert a == [a[0]] + rest && a + b == [a[0]] + (rest + b);
      ExpandLiteralFirst(a[0], rest);
      ExpandLiteralFirst(a[0], rest + b);
      ExpandAppend(rest, b);
      assert [a[0]] + (Expand(rest).value + rb) == ([a[0]] + Expand(rest).value) + rb;
    } else {
      var rest, run := a[2..], Repeat(a[1], a[0] - 0xc0 + 1);
      assert a == [a[0], a[1]] + rest && a + b == [a[0], a[1]] + (rest + b);
      ExpandRunFirst(a[0], a[1], rest);
      ExpandRunFirst(a[0], a[1], rest + b);
      ExpandAppend(rest, b);
      assert run + (Expand(rest).value + rb) == (run + Expand(rest).value) + rb;
    }
  }

  lemma ExpandRun(value: Byte, run: nat)
    requires 1 <= run <= 0x40
    ensures Expand([0xc0 + (run - 1), value]) == Some(Repeat(value, run))
  {
    var code := [0xc0 + (run - 1), value];
    assert code[2..] == [] && Expand(code[2..]) == Some([]);
    assert Repeat(value, run) + [] == Repeat(value, run);
  }

  lemma ExpandLiteral(value: Byte)
    requires value < 0xc0
    ensures Expand([value]) == Some([value])
  {
    assert [value][1..] == [];
    assert [value] + [] == [value];
  }

  /** The output stands for all bytes put so far but for the last `run`, which are equal. */
  ghost predicate StandsFor(output: Bytes, value: Byte, run: nat, put: Bytes) {
    && run < 0x40 && run <= |put|
    && Expand(output) == Some(put[..|put| - run])
    && put[|put| - run..] == Repeat(value, run)
    && |output| <= 2 * (|put| - run)
  }

  /** One more byte of a run, and a run that became as long as a code can be. */
  lemma LongerRun(output: Bytes, value: Byte, run: nat, put: Bytes, v: Byte)
    requires StandsFor(output, value, run, put) && (run == 0 || v == value)
    ensures run <= 0x3f
    ensures run < 0x3f ==> StandsFor(output, v, run + 1, put + [v])
    ensures run == 0x3f ==> StandsFor(output + [0xff, v], v, 0, put + [v])
  {
    hide Expand;
    var done := put[..|put| - run];
    assert put + [v] == done + Repeat(v, run + 1);
    assert (put + [v])[..|done|] == done && (put + [v])[|done|..] == Repeat(v, run + 1);
    ExpandRun(v, run + 1);
    if run == 0x3f {
      ExpandAppend(output, [0xff, v]);
      assert (put + [v])[..|put + [v]|] == put + [v];
      assert (put + [v])[|put + [v]|..] == [];
    }
  }

  class RleWriter {
    var output: Bytes
    var value: Byte
    var run: nat
    ghost var put: Bytes

    ghost predicate Valid()
      reads this
    {
      StandsFor(output, value, run, put)
    }

    constructor ()
      ensures Valid() && put == []
    {
      output, value, run, put := [], 0, 0, [];
    }

    /** Writes out the run; afterwards the output stands for everything. */
    method Flush()
      requires Valid()
      modifies this
      ensures Valid() && put == old(put) && run == 0
      ensures Expand(output) == Some(put) && |output| <= 2 * |put|
    {
      hide Expand;
      ghost var before, done := output, put[..|put| - run];
      assert put == done + Repeat(value, run);
      if run == 0 {
        assert put[..|put|] == put;
        return;
      }
      if run <= 2 && value < 0xc0 {
        ExpandLiteral(value);
        ExpandAppend(before, [value]);
        ExpandAppend(before + [value], [value]);
        assert run == 2 ==> done + [value] + [value] == put;
        assert run == 1 ==> done + [value] == put;
        output := output + [value];
        run := run - 1;
        if run != 0 {
          output := output + [value];
          run := run - 1;
        }
      } else {
        ExpandRun(value, run);
        ExpandAppend(before, [0xc0 + (run - 1), value]);
        output := output + [0xc0 + (run - 1), value];
        run := 0;
      }
      assert put[..|put|] == put;
    }

    method Put(v: Byte)
      requires Valid()
      modifies this
      ensures Valid() && put == old(put) + [v]
    {
      hide Expand, Repeat, StandsFor;
      if v != value && run != 0 {
        Flush();
      }
      LongerRun(output, value, run, put, v);
      value := v;
      run := run + 1;
      put := put + [v];
      if run == 0x40 {
        output := output + [0xff, value];
        run := 0;
      }
    }
  }

  /** One read: the byte, the place behind it and the rest of the run. */
  function ReadByte(data: Bytes, at: nat, run: nat): (r: Option<(Byte, nat, nat)>)
    requires at <= |data| && (run > 0 ==> at > 0)
    ensures r.Some? ==> 0 < r.value.1 <= |data| && at <= r.value.1
  {
    if run > 0 then Some((data[at - 1], at, run - 1))
    else if at == |data| then None
    else if data[at] < 0xc0 then Some((data[at], at + 1, 0))
    else if at + 1 == |data| then None
    else Some((data[at + 1], at + 2, data[at] - 0xc0))
  }

  /** `n` reads in a row. */
  function ReadMany(data: Bytes, at: nat, run: nat, n: nat): (r: Option<(Bytes, nat, nat)>)
    requires at <= |data| && (run > 0 ==> at > 0)
    ensures r.Some? ==> |r.value.0| == n && at <= r.value.1 <= |data| && (r.value.2 > 0 ==> r.value.1 > 0)
  {
    if n == 0 then Some(([], at, run))
    else
      match ReadMany(data, at, run, n - 1)
      case None => None
      case Some((bytes, next, left)) =>
        match ReadByte(data, next, left)
        case None => None
        case Some((byte, after, rest)) => Some((bytes + [byte], after, rest))
  }

  lemma {:induction false} ReadManyFails(data: Bytes, at: nat, run: nat, m: nat, n: nat)
    requires at <= |data| && (run > 0 ==> at > 0) && m <= n
    requires ReadMany(data, at, run, m).None?
    ensures ReadMany(data, at, run, n).None?
  {
    if m < n {
      ReadManyFails(data, at, run, m, n - 1);
    }
  }

  /** Reads that follow one another. */
  lemma {:induction false} ReadManyJoin(data: Bytes, at: nat, run: nat, m: nat, n: nat, p: (Bytes, nat, nat),
                                        q: (Bytes, nat, nat))
    requires at <= |data| && (run > 0 ==> at > 0)
    requires ReadMany(data, at, run, m) == Some(p)
    requires ReadMany(data, p.1, p.2, n) == Some(q)
    ensures ReadMany(data, at, run, m + n) == Some((p.0 + q.0, q.1, q.2))
  {
    if n == 0 {
      assert p.0 + [] == p.0;
    } else {
      var prior := ReadMany(data, p.1, p.2, n - 1).value;
      ReadManyJoin(data, at, run, m, n - 1, p, prior);
      var byte := ReadByte(data, prior.1, prior.2).value.0;
      assert p.0 + (prior.0 + [byte]) == p.0 + prior.0 + [byte];
    }
  }

  lemma {:induction false} ReadRun(data: Bytes, at: nat, run: nat, n: nat)
    requires 0 < at <= |data| && n <= run
    ensures ReadMany(data, at, run, n) == Some((Repeat(data[at - 1], n), at, run - n))
  {
    if n > 0 {
      ReadRun(data, at, run, n - 1);
    }
  }

  /** Reading back everything that a code stands for ends, with no run left, at the end of the code. */
  lemma {:induction false} ReadExpanded(code: Bytes, data: Bytes, at: nat)
    requires Expand(code).Some? && at + |code| <= |data| && LiesAt(data, at, code)
    ensures var bytes := Expand(code).value; ReadMany(data, at, 0, |bytes|) == Some((bytes, at + |code|, 0))
  {
    hide Expand, LiesAt;
    ExpandShort(code);
    if code == [] {
    } else if code[0] < 0xc0 {
      var rest := code[1..];
      assert code == [code[0]] + rest;
      ExpandLiteralFirst(code[0], rest);
      LiesAtByte(data, at, code, 0);
      LiesAtSplit(data, at, [code[0]], rest);
      ReadExpanded(rest, data, at + 1);
      ReadLiteral(data, at, Expand(rest).value, at + |code|);
    } else {
      var rest := code[2..];
      assert code == [code[0], code[1]] + rest;
      ExpandRunFirst(code[0], code[1], rest);
      LiesAtByte(data, at, code, 0);
      LiesAtByte(data, at, code, 1);
      LiesAtSplit(data, at, [code[0], code[1]], rest);
      ReadExpanded(rest, data, at + 2);
      ReadLongRun(data, at, Expand(rest).value, at + |code|);
    }
  }

  /** Reading a literal, or a run, and then the rest. */
  lemma ReadLiteral(data: Bytes, at: nat, rest: Bytes, end: nat)
    requires at < |data| && data[at] < 0xc0
    requires ReadMany(data, at + 1, 0, |rest|) == Some((rest, end, 0))
    ensures ReadMany(data, at, 0, 1 + |rest|) == Some(([data[at]] + rest, end, 0))
  {
    hide ReadMany;
    ReadOneByte(data, at);
    ReadManyJoin(data, at, 0, 1, |rest|, ([data[at]], at + 1, 0), (rest, end, 0));
  }

  lemma ReadLongRun(data: Bytes, at: nat, rest: Bytes, end: nat)
    requires at + 1 < |data| && data[at] >= 0xc0
    requires ReadMany(data, at + 2, 0, |rest|) == Some((rest, end, 0))
    ensures var bytes := Repeat(data[at + 1], data[at] - 0xc0 + 1) + rest;
            ReadMany(data, at, 0, |bytes|) == Some((bytes, end, 0))
  {
    hide ReadMany;
    var value, run := data[at + 1], data[at] - 0xc0;
    ReadOneByte(data, at);
    ReadRun(data, at + 2, run, run);
    ReadManyJoin(data, at, 0, 1, run, ([value], at + 2, run), (Repeat(value, run), at + 2, 0));
    assert [value] + Repeat(value, run) == Repeat(value, run + 1);
    ReadManyJoin(data, at, 0, 1 + run, |rest|, (Repeat(value, run + 1), at + 2, 0), (rest, end, 0));
  }

  lemma ReadOneByte(data: Bytes, at: nat)
    requires at <= |data|
    ensures var r := ReadByte(data, at, 0);
            ReadMany(data, at, 0, 1) ==
            match r
            case None => None
            case Some((byte, next, left)) => Some(([byte], next, left))
  {
    assert ReadMany(data, at, 0, 0) == Some(([], at, 0));
    var r := ReadByte(data, at, 0);
    assert r.Some? ==> [] + [r.value.0] == [r.value.0];
  }

  /** The reading context: the place in the data and the rest of the current run. */
  class RleReader {
    const data: Bytes
    const start: nat
    var at: nat
    var run: nat
    ghost var count: nat
    ghost var got: Bytes

    ghost predicate Valid()
      reads this
    {
      && start <= |data| && at <= |data| && (run > 0 ==> at > 0)
      && ReadMany(data, start, 0, count) == Some((got, at, run))
    }

    constructor (data: Bytes, at: nat)
      requires at <= |data|
      ensures Valid() && this.data == data && start == at && count == 0
    {
      this.data, start, this.at, run, count, got := data, at, at, 0, 0, [];
    }

    /** Nothing is returned when the data ends in the middle of a code. */
    method ReadRleByte() returns (byte: Option<Byte>)
      requires Valid()
      modifies this
      ensures byte.Some? ==> Valid() && count == old(count) + 1 && got == old(got) + [byte.value]
      ensures byte.None? ==> ReadMany(data, start, 0, old(count) + 1).None?
    {
      if run != 0 {
        run := run - 1;
      } else if at < |data| && data[at] >= 0xc0 {
        if at + 1 == |data| {
          return None;
        }
        run := data[at] - 0xc0;
        at := at + 2;
      } else if at < |data| {
        at := at + 1;
      } else {
        return None;
      }
      byte := Some(data[at - 1]);
      count := count + 1;
      got := got + [data[at - 1]];
    }
  }
}

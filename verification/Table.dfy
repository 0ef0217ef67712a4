/** Rows of a table, and the cursor that every table backend promises to be. */
module Table {
  import opened Bytes

  datatype Option<+T> = None | Some(value: T)

  datatype Row = Row(key: Bytes, value: Bytes)

  function Keys(rows: seq<Row>): (r: seq<Bytes>)
    ensures |r| == |rows|
  {
    seq(|rows|, i requires 0 <= i < |rows| => rows[i].key)
  }

  function Values(rows: seq<Row>): (r: seq<Bytes>)
    ensures |r| == |rows|
  {
    seq(|rows|, i requires 0 <= i < |rows| => rows[i].value)
  }

  ghost predicate SortedKeys(keys: seq<Bytes>) {
    forall i, j :: 0 <= i < j < |keys| ==> Leq(keys[i], keys[j])
  }

  ghost predicate Sorted(rows: seq<Row>) {
    SortedKeys(Keys(rows))
  }

  lemma SortedPrefix(rows: seq<Row>, n: nat)
    requires n <= |rows|
    ensures Sorted(rows) || n <= 1 ==> Sorted(rows[..n])
  {
    if Sorted(rows) {
      var keys := Keys(rows[..n]);
      forall i, j | 0 <= i < j < n ensures Leq(keys[i], keys[j]) {
        assert Leq(Keys(rows)[i], Keys(rows)[j]);
      }
    }
  }

  lemma SortedPush(rows: seq<Row>, row: Row)
    requires Sorted(rows)
    ensures Sorted(rows + [row]) <==> rows == [] || Leq(rows[|rows| - 1].key, row.key)
  {
    var keys, n := Keys(rows + [row]), |rows|;
    assert forall i :: 0 <= i < n ==> keys[i] == Keys(rows)[i];
    assert keys[n] == row.key;
    if rows != [] {
      assert keys[n - 1] == rows[n - 1].key;
      if Leq(keys[n - 1], row.key) {
        forall i | 0 <= i < n ensures Leq(keys[i], keys[n]) {
          if i < n - 1 {
            LeqTransitive(keys[i], keys[n - 1], keys[n]);
          }
        }
      } else {
        assert !Leq(keys[n - 1], keys[n]);
      }
    }
  }

  /** Each row's key is equal to the key before it, or comes behind it in the order of bytes. */
  ghost predicate InKeyOrder(rows: seq<Row>) {
    forall i :: 0 < i < |rows| ==> rows[i - 1].key == rows[i].key || Precedes(rows[i - 1].key, rows[i].key)
  }

  /** Being sorted is a matter of neighbours. */
  lemma {:induction false} SortedMeaning(rows: seq<Row>)
    ensures Sorted(rows) <==> InKeyOrder(rows)
  {
    hide Precedes, Less;
    if |rows| > 1 {
      var n := |rows| - 1;
      var init, last := rows[..n], rows[n];
      assert rows == init + [last];
      SortedMeaning(init);
      SortedPrefix(rows, n);
      LessMeaning(init[n - 1].key, last.key);
      if Sorted(init) {
        SortedPush(init, last);
      }
      InKeyOrderPush(init, last);
    }
  }

  lemma InKeyOrderPush(init: seq<Row>, last: Row)
    requires init != []
    ensures InKeyOrder(init + [last]) <==>
            var before := init[|init| - 1].key;
            InKeyOrder(init) && (before == last.key || Precedes(before, last.key))
  {
    hide Precedes;
    var rows, n := init + [last], |init|;
    assert rows[n] == last && rows[n - 1] == init[n - 1];
    if InKeyOrder(rows) {
      forall i | 0 < i < n ensures init[i - 1].key == init[i].key || Precedes(init[i - 1].key, init[i].key) {
        assert rows[i] == init[i] && rows[i - 1] == init[i - 1];
      }
    }
  }

  lemma SortedLast(rows: seq<Row>, row: Row)
    requires Sorted(rows) && rows != [] && row in rows
    ensures Leq(row.key, rows[|rows| - 1].key)
  {
    var i :| 0 <= i < |rows| && rows[i] == row;
    var keys := Keys(rows);
    LessTrichotomy(row.key, row.key);
    assert i < |rows| - 1 ==> Leq(keys[i], keys[|rows| - 1]);
  }

  /** The rows of one key, in their order. */
  function WithKey(rows: seq<Row>, key: Bytes): seq<Row> {
    if rows == [] then []
    else
      var last := rows[|rows| - 1];
      WithKey(rows[..|rows| - 1], key) + if last.key == key then [last] else []
  }

  lemma WithKeyPush(rows: seq<Row>, row: Row, key: Bytes)
    ensures WithKey(rows + [row], key) == WithKey(rows, key) + if row.key == key then [row] else []
  {
    assert (rows + [row])[..|rows|] == rows;
  }

  lemma {:induction false} WithKeyMember(rows: seq<Row>, key: Bytes)
    ensures WithKey(rows, key) != [] <==> exists i :: 0 <= i < |rows| && rows[i].key == key
    ensures forall r :: r in WithKey(rows, key) ==> r in rows && r.key == key
  {
    if rows != [] {
      var init := rows[..|rows| - 1];
      WithKeyMember(init, key);
      if i :| 0 <= i < |rows| && rows[i].key == key {
        assert i < |init| ==> init[i].key == key;
      }
      assert forall i :: 0 <= i < |init| ==> init[i] == rows[i];
      if i :| 0 <= i < |init| && init[i].key == key {
        assert rows[i].key == key;
      }
    }
  }

  /** `p` is the place of the first key that is not less than `key`. */
  ghost predicate IsLowerBound(keys: seq<Bytes>, key: Bytes, p: nat) {
    && p <= |keys|
    && (forall i :: 0 <= i < p ==> Less(keys[i], key))
    && (forall i :: p <= i < |keys| ==> Leq(key, keys[i]))
  }

  lemma LowerBoundIsUnique(keys: seq<Bytes>, key: Bytes, p: nat, q: nat)
    requires IsLowerBound(keys, key, p) && IsLowerBound(keys, key, q)
    ensures p == q
  {
    assert p < |keys| ==> !Less(keys[p], key);
    assert q < |keys| ==> !Less(keys[q], key);
  }

  function FirstNotLess(keys: seq<Bytes>, key: Bytes): (p: nat)
    ensures p <= |keys|
  {
    if keys == [] || !Less(keys[0], key) then 0 else 1 + FirstNotLess(keys[1..], key)
  }

  lemma {:induction false} FirstNotLessIsLowerBound(keys: seq<Bytes>, key: Bytes)
    requires SortedKeys(keys)
    ensures IsLowerBound(keys, key, FirstNotLess(keys, key))
  {
    var p := FirstNotLess(keys, key);
    if keys == [] {
    } else if Less(keys[0], key) {
      var rest := keys[1..];
      FirstNotLessIsLowerBound(rest, key);
      forall i | 0 <= i < p ensures Less(keys[i], key) {
        assert 0 < i ==> Less(rest[i - 1], key);
      }
      forall i | p <= i < |keys| ensures Leq(key, keys[i]) {
        assert Leq(key, rest[i - 1]);
      }
    } else {
      forall i | 0 < i < |keys| ensures Leq(key, keys[i]) {
        LeqTransitive(key, keys[0], keys[i]);
      }
    }
  }

  /** `std::lower_bound` on a sorted list of keys. */
  method LowerBound(keys: seq<Bytes>, key: Bytes) returns (p: nat)
    requires SortedKeys(keys)
    ensures IsLowerBound(keys, key, p)
  {
    p := 0;
    var end := |keys|;
    while p < end
      invariant p <= end <= |keys|
      invariant forall i :: 0 <= i < p ==> Less(keys[i], key)
      invariant forall i :: end <= i < |keys| ==> Leq(key, keys[i])
    {
      var middle := (p + end) / 2;
      if Less(keys[middle], key) {
        forall i | p <= i < middle ensures Less(keys[i], key) {
          LeqTransitive(keys[i], keys[middle], key) by {
            LessTrichotomy(keys[middle], key);
          }
        }
        p := middle + 1;
      } else {
        forall i | middle <= i < end ensures Leq(key, keys[i]) {
          if middle < i {
            LeqTransitive(key, keys[middle], keys[i]);
          }
        }
        end := middle;
      }
    }
  }

  datatype Op = First | Key(key: Bytes) | Skip(count: nat) | Read

  datatype Answer = Moved(ok: bool) | Got(row: Option<Row>)

  /** What a reader of a sorted table is: a list of rows and a position in it. */
  datatype Cursor = Cursor(rows: seq<Row>, pos: nat) {

    ghost predicate Valid() {
      Sorted(rows) && pos <= |rows|
    }

    function ReadRow(): (r: (Option<Row>, Cursor)) {
      if pos < |rows| then (Some(rows[pos]), this.(pos := pos + 1)) else (None, this)
    }

    function Skip(count: nat): (r: (bool, Cursor)) {
      if pos + count <= |rows| then (true, this.(pos := pos + count)) else (false, this.(pos := |rows|))
    }

    function SeekToFirst(): Cursor {
      this.(pos := 0)
    }

    /** Moves to the first row whose key is not less than `key`; true when its key is `key`. */
    function SeekToKey(key: Bytes): (r: (bool, Cursor))
      ensures r.1.pos <= |rows|
    {
      var p := FirstNotLess(Keys(rows), key);
      (p < |rows| && rows[p].key == key, this.(pos := p))
    }

    function Step(op: Op): (r: (Answer, Cursor))
      ensures r.1.rows == rows && (pos <= |rows| ==> r.1.pos <= |rows|)
    {
      match op
      case First => (Moved(true), SeekToFirst())
      case Key(key) => var (found, c) := SeekToKey(key); (Moved(found), c)
      case Skip(count) => var (done, c) := Skip(count); (Moved(done), c)
      case Read => var (row, c) := ReadRow(); (Got(row), c)
    }

    /** The answers to a whole run of calls. */
    function Run(ops: seq<Op>): (r: (seq<Answer>, Cursor))
      ensures |r.0| == |ops| && r.1.rows == rows && (pos <= |rows| ==> r.1.pos <= |rows|)
      decreases |ops|
    {
      if ops == [] then ([], this)
      else
        var (answers, c) := Run(ops[..|ops| - 1]);
        var (answer, last) := c.Step(ops[|ops| - 1]);
        (answers + [answer], last)
    }

    /** Whether `count` calls of `ReadRow` all give a row, and the cursor after them. */
    function ReadMany(count: nat): (bool, Cursor)
      decreases count
    {
      if count == 0 then (true, this)
      else
        var (row, next) := ReadRow();
        var (rest, last) := next.ReadMany(count - 1);
        (row.Some? && rest, last)
    }
  }

  /** Skipping rows is reading them without looking. */
  lemma {:induction false} SkipIsReading(c: Cursor, count: nat)
    requires c.pos <= |c.rows|
    ensures c.Skip(count) == c.ReadMany(count)
    decreases count
  {
    if count != 0 {
      SkipIsReading(c.ReadRow().1, count - 1);
    }
  }

  /** A key is found exactly when some row has it, and then the first such row is found. */
  lemma FoundIffPresent(c: Cursor, key: Bytes)
    requires c.Valid()
    ensures var (found, after) := c.SeekToKey(key);
            && (found <==> exists i :: 0 <= i < |c.rows| && c.rows[i].key == key)
            && (forall i :: 0 <= i < after.pos ==> Less(c.rows[i].key, key))
            && (forall i :: after.pos <= i < |c.rows| ==> Leq(key, c.rows[i].key))
  {
    var keys := Keys(c.rows);
    var (found, after) := c.SeekToKey(key);
    FirstNotLessIsLowerBound(keys, key);
    assert forall i :: 0 <= i < |keys| ==> keys[i] == c.rows[i].key;
    forall i | 0 <= i < |c.rows| && c.rows[i].key == key
      ensures found
    {
      assert keys[i] == key;
      LessTrichotomy(keys[i], key);
      assert after.pos <= i;
      if after.pos < i {
        assert Leq(keys[after.pos], keys[i]) && Leq(key, keys[after.pos]);
      }
      LessTrichotomy(keys[after.pos], key);
    }
  }
}

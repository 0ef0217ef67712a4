/** The merge of sorted tables, and the wrapper that hands over all values of a key at once. */
module Merge {
  import opened Bytes
  import opened Table
  import opened Heap

  function SlotOf(row: Row, t: nat): Slot {
    Live(row.key, row.value, t)
  }

  /** The slots of the rows that were read but not yet handed over; table `t` has at most one. */
  function Waiting(pending: seq<Option<Row>>): seq<Slot> {
    if pending == [] then []
    else
      var t := |pending| - 1;
      Waiting(pending[..t]) + if pending[t].Some? then [SlotOf(pending[t].value, t)] else []
  }

  function One(row: Option<Row>, t: nat): multiset<Slot> {
    if row.Some? then multiset{SlotOf(row.value, t)} else multiset{}
  }

  lemma WaitingPush(p: seq<Option<Row>>)
    requires p != []
    ensures multiset(Waiting(p)) == multiset(Waiting(p[..|p| - 1])) + One(p[|p| - 1], |p| - 1)
  {
  }

  lemma {:induction false} WaitingUpdate(p: seq<Option<Row>>, t: nat, v: Option<Row>)
    requires t < |p|
    ensures multiset(Waiting(p[t := v])) + One(p[t], t) == multiset(Waiting(p)) + One(v, t)
  {
    hide Waiting, One;
    var n := |p| - 1;
    WaitingPush(p);
    WaitingPush(p[t := v]);
    if t < n {
      WaitingUpdate(p[..n], t, v);
      assert p[t := v][..n] == p[..n][t := v];
      var last := One(p[n], n);
      assert multiset(Waiting(p[t := v])) + One(p[t], t) == (multiset(Waiting(p[..n][t := v])) + One(p[t], t)) + last;
    } else {
      assert p[t := v][..n] == p[..n];
    }
  }

  lemma {:induction false} WaitingMember(p: seq<Option<Row>>, slot: Slot)
    ensures slot in Waiting(p) <==> slot.Live? && slot.table < |p| && p[slot.table] == Some(Row(slot.key, slot.value))
  {
    if p != [] {
      WaitingMember(p[..|p| - 1], slot);
    }
  }

  /** The heap holds exactly the waiting rows. */
  ghost predicate HoldsWaiting(s: seq<Slot>, pending: seq<Option<Row>>) {
    Bag(s) == Bag(Waiting(pending))
  }

  lemma HoldsMember(s: seq<Slot>, pending: seq<Option<Row>>, slot: Slot)
    requires HoldsWaiting(s, pending)
    ensures slot in s <==>
            slot.Live? && slot.table < |pending| && pending[slot.table] == Some(Row(slot.key, slot.value))
  {
    assert slot in s <==> slot in Bag(s);
    assert slot in Waiting(pending) <==> slot in Bag(Waiting(pending));
    WaitingMember(pending, slot);
  }

  /** The root is the next row of its table, and no waiting row has a smaller key. */
  lemma TopIsNext(s: seq<Slot>, pending: seq<Option<Row>>)
    requires IsHeap(s) && s != [] && HoldsWaiting(s, pending)
    ensures s[0].Live? && s[0].table < |pending| && pending[s[0].table] == Some(Row(s[0].key, s[0].value))
    ensures forall t :: 0 <= t < |pending| && pending[t].Some? ==> Leq(s[0].key, pending[t].value.key)
  {
    hide HoldsWaiting, Leq, IsHeap;
    HoldsMember(s, pending, s[0]);
    forall t | 0 <= t < |pending| && pending[t].Some? ensures Leq(s[0].key, pending[t].value.key) {
      HoldsMember(s, pending, SlotOf(pending[t].value, t));
      var i :| 0 <= i < |s| && s[i] == SlotOf(pending[t].value, t);
      RootIsLeast(s, i + 1);
    }
  }

  lemma EmptyHeap(pending: seq<Option<Row>>)
    requires HoldsWaiting([], pending)
    ensures forall t :: 0 <= t < |pending| ==> pending[t].None?
  {
    hide HoldsWaiting;
    forall t | 0 <= t < |pending| ensures pending[t].None? {
      if pending[t].Some? {
        HoldsMember([], pending, SlotOf(pending[t].value, t));
      }
    }
  }

  /** What a push, a replaced top and a popped top do to the waiting rows. */
  lemma WaitingAfter(s: seq<Slot>, pending: seq<Option<Row>>, t: nat, next: Option<Row>)
    requires t < |pending| && HoldsWaiting(s, pending)
    ensures pending[t].None? && next.Some? ==>
            Bag(s) + multiset{SlotOf(next.value, t)} == Bag(Waiting(pending[t := next]))
    ensures s != [] && pending[t].Some? && s[0] == SlotOf(pending[t].value, t) && next.Some?
         ==> HoldsWaiting(s[0 := SlotOf(next.value, t)], pending[t := next])
    ensures s != [] && pending[t].Some? && s[0] == SlotOf(pending[t].value, t) && next.None?
         ==> HoldsWaiting(s[1..], pending[t := next])
  {
    hide *;
    WaitingBags(s, pending, t, next);
    if s != [] && pending[t].Some? && s[0] == SlotOf(pending[t].value, t) {
      TopOfBag(s);
      SameRest(Bag(Waiting(pending[t := next])), Bag(s[1..]) + One(next, t), multiset{s[0]});
      if next.Some? {
        TopOfBag(s[0 := SlotOf(next.value, t)]);
        BagsHold(s[0 := SlotOf(next.value, t)], pending[t := next]);
      } else {
        BagsHold(s[1..], pending[t := next]);
      }
    }
  }

  lemma WaitingBags(s: seq<Slot>, pending: seq<Option<Row>>, t: nat, next: Option<Row>)
    requires t < |pending| && HoldsWaiting(s, pending)
    ensures Bag(Waiting(pending[t := next])) + One(pending[t], t) == Bag(s) + One(next, t)
    ensures One(pending[t], t) == if pending[t].Some? then multiset{SlotOf(pending[t].value, t)} else multiset{}
    ensures One(next, t) == if next.Some? then multiset{SlotOf(next.value, t)} else multiset{}
  {
    hide Waiting;
    WaitingUpdate(pending, t, next);
  }

  lemma TopOfBag(s: seq<Slot>)
    requires s != []
    ensures Bag(s) == Bag(s[1..]) + multiset{s[0]}
  {
    assert s == [s[0]] + s[1..];
  }

  lemma BagsHold(s: seq<Slot>, pending: seq<Option<Row>>)
    requires Bag(s) == Bag(Waiting(pending))
    ensures HoldsWaiting(s, pending)
  {
  }

  lemma SameRest(a: multiset<Slot>, b: multiset<Slot>, x: multiset<Slot>)
    requires a + x == b + x
    ensures a == b
  {
    assert a == (a + x) - x && b == (b + x) - x;
  }

  /** The rows handed over from table `t`, in their order. */
  function Of(calls: seq<Row>, from: seq<nat>, t: nat): seq<Row>
    requires |calls| == |from|
  {
    if calls == [] then []
    else
      var n := |calls| - 1;
      Of(calls[..n], from[..n], t) + if from[n] == t then [calls[n]] else []
  }

  lemma OfPush(calls: seq<Row>, from: seq<nat>, row: Row, t: nat, u: nat)
    requires |calls| == |from|
    ensures Of(calls + [row], from + [t], u) == Of(calls, from, u) + if t == u then [row] else []
  {
    assert (calls + [row])[..|calls|] == calls && (from + [t])[..|from|] == from;
  }

  /** The rows of a table from its start up to where it was read. */
  function Read(start: Cursor, now: Cursor): seq<Row>
    requires start.pos <= now.pos <= |start.rows|
  {
    start.rows[start.pos..now.pos]
  }

  /** What has been read of table `t` is what was handed over and then the waiting row. */
  ghost predicate TableOk(start: Cursor, now: Cursor, waiting: Option<Row>, done: seq<Row>) {
    && now.rows == start.rows && start.pos <= now.pos <= |start.rows|
    && Read(start, now) == done + (if waiting.Some? then [waiting.value] else [])
    && (waiting.None? ==> now.pos == |start.rows|)
  }

  /** The state between two calls. */
  ghost predicate Between(start: seq<Cursor>, now: seq<Cursor>, pending: seq<Option<Row>>, calls: seq<Row>,
                          from: seq<nat>) {
    && |start| == |now| == |pending| && |calls| == |from|
    && (forall i :: 0 <= i < |from| ==> from[i] < |start|)
    && (forall t :: 0 <= t < |start| ==> TableOk(start[t], now[t], pending[t], Of(calls, from, t)))
    && Sorted(calls)
    && (forall t :: 0 <= t < |start| && pending[t].Some? && calls != [] ==>
                      Leq(calls[|calls| - 1].key, pending[t].value.key))
  }

  /** One call: the least waiting row is handed over and its table is read again. */
  lemma OneCall(start: seq<Cursor>, now: seq<Cursor>, pending: seq<Option<Row>>, calls: seq<Row>, from: seq<nat>,
                t: nat)
    requires Between(start, now, pending, calls, from)
    requires t < |start| && pending[t].Some? && Sorted(start[t].rows)
    requires forall u :: 0 <= u < |pending| && pending[u].Some? ==> Leq(pending[t].value.key, pending[u].value.key)
    ensures var (next, c) := now[t].ReadRow();
            Between(start, now[t := c], pending[t := next], calls + [pending[t].value], from + [t])
  {
    hide Leq, Sorted, Of;
    var row := pending[t].value;
    var (next, c) := now[t].ReadRow();
    SortedPush(calls, row);
    forall u | 0 <= u < |start|
      ensures TableOk(start[u], now[t := c][u], pending[t := next][u], Of(calls + [row], from + [t], u))
    {
      OfPush(calls, from, row, t, u);
      assert TableOk(start[u], now[u], pending[u], Of(calls, from, u));
      if u == t {
        ReadOneMore(start[t], now[t], row, Of(calls, from, t));
      }
    }
    if next.Some? {
      NextIsNotLess(start[t], now[t], row, Of(calls, from, t));
    }
  }

  lemma ReadOneMore(start: Cursor, now: Cursor, row: Row, done: seq<Row>)
    requires TableOk(start, now, Some(row), done)
    ensures var (next, c) := now.ReadRow(); TableOk(start, c, next, done + [row])
  {
    var (next, c) := now.ReadRow();
    if next.Some? {
      assert start.rows[start.pos..c.pos] == start.rows[start.pos..now.pos] + [next.value];
    } else {
      assert done + [row] + [] == done + [row];
    }
  }

  lemma NextIsNotLess(start: Cursor, now: Cursor, row: Row, done: seq<Row>)
    requires Sorted(start.rows) && TableOk(start, now, Some(row), done) && now.pos < |now.rows|
    ensures Leq(row.key, now.rows[now.pos].key)
  {
    assert row == Read(start, now)[|done|];
    assert |Read(start, now)| == |done| + 1;
    var keys := Keys(start.rows);
    assert Leq(keys[now.pos - 1], keys[now.pos]);
  }

  /** The rows that the tables have not given yet. */
  function Left(now: seq<Cursor>): nat {
    if now == [] then 0
    else
      var c := now[|now| - 1];
      Left(now[..|now| - 1]) + if c.pos < |c.rows| then |c.rows| - c.pos else 0
  }

  lemma {:induction false} LeftAfterRead(now: seq<Cursor>, t: nat)
    requires t < |now|
    ensures var (row, c) := now[t].ReadRow(); Left(now[t := c]) == Left(now) - if row.Some? then 1 else 0
  {
    var n := |now| - 1;
    var c := now[t].ReadRow().1;
    if t < n {
      LeftAfterRead(now[..n], t);
      assert now[t := c][..n] == now[..n][t := c];
    } else {
      assert now[t := c][..n] == now[..n];
    }
  }

  /** What the merge promises, whether or not it ran to the end: the calls are sorted, table by table
      they are the rows of the table from its start, and every row that is missing has no smaller key
      than the last call. */
  ghost predicate Merged(start: seq<Cursor>, calls: seq<Row>, from: seq<nat>) {
    && |calls| == |from| && Sorted(calls)
    && (forall i :: 0 <= i < |from| ==> from[i] < |start|)
    && (forall t :: 0 <= t < |start| ==> start[t].pos <= |start[t].rows|
                                         && Of(calls, from, t) <= start[t].rows[start[t].pos..])
    && (calls != [] ==>
          forall t, p :: 0 <= t < |start| && start[t].pos + |Of(calls, from, t)| <= p < |start[t].rows| ==>
            Leq(calls[|calls| - 1].key, start[t].rows[p].key))
  }

  ghost predicate Complete(start: seq<Cursor>, calls: seq<Row>, from: seq<nat>)
    requires Merged(start, calls, from)
  {
    forall t :: 0 <= t < |start| ==> Of(calls, from, t) == start[t].rows[start[t].pos..]
  }

  lemma TableMerged(start: Cursor, now: Cursor, waiting: Option<Row>, done: seq<Row>)
    requires TableOk(start, now, waiting, done)
    ensures done <= start.rows[start.pos..]
    ensures waiting.None? ==> done == start.rows[start.pos..]
    ensures forall p :: start.pos + |done| <= p < |start.rows| ==>
                          waiting.Some? && (p == start.pos + |done| ==> start.rows[p] == waiting.value)
  {
    var all := start.rows[start.pos..];
    assert Read(start, now) == all[..now.pos - start.pos];
    assert done == all[..|done|];
    if waiting.Some? {
      assert Read(start, now)[|done|] == waiting.value;
    }
  }

  lemma BetweenIsMerged(start: seq<Cursor>, now: seq<Cursor>, pending: seq<Option<Row>>, calls: seq<Row>,
                        from: seq<nat>)
    requires Between(start, now, pending, calls, from)
    requires forall t :: 0 <= t < |start| ==> Sorted(start[t].rows)
    ensures Merged(start, calls, from)
    ensures (forall t :: 0 <= t < |pending| ==> pending[t].None?) ==> Complete(start, calls, from)
  {
    hide Leq, Of, TableOk;
    forall t | 0 <= t < |start|
      ensures start[t].pos <= |start[t].rows| && Of(calls, from, t) <= start[t].rows[start[t].pos..]
      ensures pending[t].None? ==> Of(calls, from, t) == start[t].rows[start[t].pos..]
    {
      assert TableOk(start[t], now[t], pending[t], Of(calls, from, t));
      TableInRange(start[t], now[t], pending[t], Of(calls, from, t));
      TableMerged(start[t], now[t], pending[t], Of(calls, from, t));
    }
    if calls != [] {
      forall t, p | 0 <= t < |start| && start[t].pos + |Of(calls, from, t)| <= p < |start[t].rows|
        ensures Leq(calls[|calls| - 1].key, start[t].rows[p].key)
      {
        assert TableOk(start[t], now[t], pending[t], Of(calls, from, t));
        TableMerged(start[t], now[t], pending[t], Of(calls, from, t));
        var q, keys := start[t].pos + |Of(calls, from, t)|, Keys(start[t].rows);
        assert start[t].rows[q] == pending[t].value;
        if q < p {
          assert Leq(keys[q], keys[p]);
          LeqTransitive(calls[|calls| - 1].key, pending[t].value.key, start[t].rows[p].key);
        }
      }
    }
  }

  lemma TableInRange(start: Cursor, now: Cursor, waiting: Option<Row>, done: seq<Row>)
    requires TableOk(start, now, waiting, done)
    ensures start.pos <= |start.rows|
  {
  }

  /** Before the first call: the tables below `i` were read once. */
  ghost predicate Started(start: seq<Cursor>, now: seq<Cursor>, pending: seq<Option<Row>>, i: nat) {
    && |start| == |now| == |pending| && i <= |start|
    && (forall t :: 0 <= t < i ==> TableOk(start[t], now[t], pending[t], []))
    && (forall t :: i <= t < |start| ==> now[t] == start[t] && pending[t].None?)
  }

  lemma ReadFirst(start: seq<Cursor>, now: seq<Cursor>, pending: seq<Option<Row>>, i: nat)
    requires Started(start, now, pending, i) && i < |start| && start[i].pos <= |start[i].rows|
    ensures var (row, c) := now[i].ReadRow(); Started(start, now[i := c], pending[i := row], i + 1)
  {
    var (row, c) := now[i].ReadRow();
    assert now[i] == start[i];
    if row.Some? {
      SliceOne(start[i].rows, start[i].pos);
    }
  }

  lemma StartedIsBetween(start: seq<Cursor>, now: seq<Cursor>, pending: seq<Option<Row>>)
    requires Started(start, now, pending, |start|)
    ensures Between(start, now, pending, [], [])
  {
  }

  lemma NextCall(start: seq<Cursor>, now: seq<Cursor>, pending: seq<Option<Row>>, calls: seq<Row>, from: seq<nat>,
                 s: seq<Slot>)
    requires Between(start, now, pending, calls, from)
    requires forall t :: 0 <= t < |start| ==> Sorted(start[t].rows)
    requires IsHeap(s) && s != [] && HoldsWaiting(s, pending)
    ensures s[0].Live? && s[0].table < |start| == |now| == |pending|
    ensures pending[s[0].table] == Some(Row(s[0].key, s[0].value))
    ensures var row, t := Row(s[0].key, s[0].value), s[0].table;
            var (next, c) := now[t].ReadRow();
            && Between(start, now[t := c], pending[t := next], calls + [row], from + [t])
            && Merged(start, calls + [row], from + [t])
  {
    hide Leq, Of, Sorted, Merged, HoldsWaiting, IsHeap;
    TopIsNext(s, pending);
    var row, t := Row(s[0].key, s[0].value), s[0].table;
    OneCall(start, now, pending, calls, from, t);
    var (next, c) := now[t].ReadRow();
    BetweenIsMerged(start, now[t := c], pending[t := next], calls + [row], from + [t]);
  }

  /** Reads the first row of every table into the heap. */
  method FillHeap(tables: array<Cursor>, heap: array<Slot>) returns (heapSize: nat, ghost pending: seq<Option<Row>>)
    requires heap.Length == tables.Length
    requires forall t :: 0 <= t < tables.Length ==> tables[t].pos <= |tables[t].rows|
    modifies tables, heap
    ensures Started(old(tables[..]), tables[..], pending, tables.Length)
    ensures heapSize <= heap.Length && IsHeap(heap[..heapSize]) && HoldsWaiting(heap[..heapSize], pending)
  {
    hide Started, HoldsWaiting, Bag, IsHeap;
    ghost var start := tables[..];
    pending := seq(tables.Length, _ => None);
    heapSize := 0;
    NothingWaits(start, pending);
    assert heap[..0] == [];
    for i := 0 to tables.Length
      invariant heapSize <= i && |pending| == tables.Length
      invariant tables[i..] == start[i..]
      invariant forall t :: i <= t < tables.Length ==> pending[t].None?
      invariant Started(start, tables[..], pending, i)
      invariant IsHeap(heap[..heapSize]) && HoldsWaiting(heap[..heapSize], pending)
    {
      assert tables[i] == tables[i..][0] == start[i];
      ReadFirst(start, tables[..], pending, i);
      WaitingAfter(heap[..heapSize], pending, i, tables[i].ReadRow().0);
      var (row, c) := tables[i].ReadRow();
      ghost var now := tables[..];
      tables[i] := c;
      assert tables[..] == now[i := c];
      assert tables[i + 1..] == now[i + 1..] == start[i + 1..];
      if row.None? {
        assert pending[i := row] == pending;
        continue;
      }
      pending := pending[i := row];
      var e := Live(row.value.key, row.value.value, i);
      Push(heap, heapSize, e);
      heapSize := heapSize + 1;
      HoldsAre(heap[..heapSize], pending);
    }
    assert tables[..] == tables[..tables.Length];
  }

  lemma HoldsAre(s: seq<Slot>, pending: seq<Option<Row>>)
    requires Bag(s) == Bag(Waiting(pending))
    ensures HoldsWaiting(s, pending)
  {
  }

  lemma {:induction false} NothingWaits(start: seq<Cursor>, pending: seq<Option<Row>>)
    requires |start| == |pending| && forall t :: 0 <= t < |pending| ==> pending[t].None?
    ensures Started(start, start, pending, 0) && HoldsWaiting([], pending) && IsHeap([])
  {
    WaitingOfNone(pending);
  }

  lemma {:induction false} WaitingOfNone(pending: seq<Option<Row>>)
    requires forall t :: 0 <= t < |pending| ==> pending[t].None?
    ensures Waiting(pending) == []
  {
    if pending != [] {
      WaitingOfNone(pending[..|pending| - 1]);
    }
  }

  /** Reads the table of the top again, which makes the top stale, and restores the heap. */
  method ReadAndRestore(tables: array<Cursor>, heap: array<Slot>, heapSize: nat, ghost pending: seq<Option<Row>>,
                        e: Slot)
    returns (size: nat, ghost waiting: seq<Option<Row>>)
    requires 0 < heapSize <= heap.Length && heap[0] == e && e.Live?
    requires e.table < tables.Length == |pending| && pending[e.table] == Some(Row(e.key, e.value))
    requires IsHeap(heap[..heapSize]) && HoldsWaiting(heap[..heapSize], pending)
    modifies tables, heap
    ensures var (row, c) := old(tables[e.table]).ReadRow();
            tables[..] == old(tables[..])[e.table := c] && waiting == pending[e.table := row]
    ensures size <= heap.Length && IsHeap(heap[..size]) && HoldsWaiting(heap[..size], waiting)
    ensures Left(tables[..]) < Left(old(tables[..])) || (Left(tables[..]) == Left(old(tables[..])) && size < heapSize)
  {
    hide HoldsWaiting, Bag, IsHeap, Waiting, HasHole, Left;
    ghost var s := heap[..heapSize];
    LeftAfterRead(tables[..], e.table);
    WaitingAfter(s, pending, e.table, tables[e.table].ReadRow().0);
    var (row, c) := tables[e.table].ReadRow();
    tables[e.table] := c;
    assert tables[..] == old(tables[..])[e.table := c];
    waiting := pending[e.table := row];
    heap[0] := Stale;
    assert heap[..heapSize] == s[0 := Stale] && heap[..heapSize][0 := e] == s;
    HoleAtTop(heap[..heapSize], e);
    if row.None? {
      Pop(heap, heapSize);
      size := heapSize - 1;
      assert s[0 := Stale][1..] == s[1..];
      HoldsSame(s[1..], heap[..size], waiting);
    } else {
      var next := Live(row.value.key, row.value.value, e.table);
      ReplaceTop(heap, heapSize, next);
      size := heapSize;
      assert s[0 := Stale][0 := next] == s[0 := next];
      HoldsSame(s[0 := next], heap[..size], waiting);
    }
  }

  lemma HoldsSame(s: seq<Slot>, t: seq<Slot>, pending: seq<Option<Row>>)
    requires HoldsWaiting(s, pending) && Bag(s) == Bag(t)
    ensures HoldsWaiting(t, pending)
  {
  }

  lemma CallsInOrder(start: seq<Cursor>, calls: seq<Row>, from: seq<nat>)
    requires Merged(start, calls, from)
    ensures InKeyOrder(calls)
  {
    hide Sorted, Of, InKeyOrder;
    SortedMeaning(calls);
  }

  /** The driver. `stops` says after which calls the callback asks to stop. */
  method MergeTables(tables: array<Cursor>, stops: seq<Row> -> bool)
    returns (result: int, calls: seq<Row>, ghost from: seq<nat>)
    requires forall t :: 0 <= t < tables.Length ==> tables[t].Valid()
    modifies tables
    ensures Merged(old(tables[..]), calls, from)
    ensures InKeyOrder(calls)
    ensures result == 0 || (result == -1 && calls != [] && stops(calls))
    ensures result == 0 ==> Complete(old(tables[..]), calls, from) && (calls != [] ==> !stops(calls))
    ensures forall k :: 0 < k < |calls| ==> !stops(calls[..k])
  {
    hide Between, Started, HoldsWaiting, IsHeap, Bag, Merged, Complete, HasHole, Sorted, Left, Cursor.ReadRow;
    hide InKeyOrder;
    ghost var start := tables[..];
    var heap := new Slot[tables.Length](_ => Stale);
    var heapSize: nat;
    ghost var pending: seq<Option<Row>>;
    assert forall t :: 0 <= t < |start| ==> Sorted(start[t].rows) && start[t].pos <= |start[t].rows|;
    heapSize, pending := FillHeap(tables, heap);
    calls, from := [], [];
    StartedIsBetween(start, tables[..], pending);
    while heapSize != 0
      invariant heapSize <= heap.Length
      invariant Between(start, tables[..], pending, calls, from)
      invariant IsHeap(heap[..heapSize]) && HoldsWaiting(heap[..heapSize], pending)
      invariant forall k :: 0 < k <= |calls| ==> !stops(calls[..k])
      decreases Left(tables[..]), heapSize
    {
      var e := heap[0];
      NextCall(start, tables[..], pending, calls, from, heap[..heapSize]);
      var before := calls;
      calls := calls + [Row(e.key, e.value)];
      from := from + [e.table];
      assert forall k :: 0 < k <= |before| ==> calls[..k] == before[..k];
      if stops(calls) {
        CallsInOrder(start, calls, from);
        return -1, calls, from;
      }
      assert calls[..|calls|] == calls;
      heapSize, pending := ReadAndRestore(tables, heap, heapSize, pending, e);
    }
    assert heap[..heapSize] == [];
    EmptyHeap(pending);
    BetweenIsMerged(start, tables[..], pending, calls, from);
    if calls != [] {
      assert calls[..|calls|] == calls;
    }
    CallsInOrder(start, calls, from);
    result := 0;
  }

  /** All rows that the tables had to give. */
  function AllRows(start: seq<Cursor>): multiset<Row> {
    if start == [] then multiset{}
    else
      var c := start[|start| - 1];
      AllRows(start[..|start| - 1]) + multiset(if c.pos <= |c.rows| then c.rows[c.pos..] else [])
  }

  /** The calls whose table is below `n`. */
  function Below(calls: seq<Row>, from: seq<nat>, n: nat): seq<Row>
    requires |calls| == |from|
  {
    if calls == [] then []
    else
      var k := |calls| - 1;
      Below(calls[..k], from[..k], n) + if from[k] < n then [calls[k]] else []
  }

  lemma {:induction false} BelowStep(calls: seq<Row>, from: seq<nat>, n: nat)
    requires |calls| == |from|
    ensures multiset(Below(calls, from, n + 1)) == multiset(Below(calls, from, n)) + multiset(Of(calls, from, n))
  {
    hide *;
    BelowUnfolds(calls, from, n + 1);
    BelowUnfolds(calls, from, n);
    OfUnfolds(calls, from, n);
    if calls != [] {
      var k := |calls| - 1;
      BelowStep(calls[..k], from[..k], n);
      BagPush(Below(calls[..k], from[..k], n + 1), if from[k] < n + 1 then [calls[k]] else []);
      BagPush(Below(calls[..k], from[..k], n), if from[k] < n then [calls[k]] else []);
      BagPush(Of(calls[..k], from[..k], n), if from[k] == n then [calls[k]] else []);
    }
  }

  lemma BelowUnfolds(calls: seq<Row>, from: seq<nat>, n: nat)
    requires |calls| == |from|
    ensures calls == [] ==> Below(calls, from, n) == []
    ensures calls != [] ==>
              var k := |calls| - 1;
              Below(calls, from, n) == Below(calls[..k], from[..k], n) + if from[k] < n then [calls[k]] else []
  {
  }

  lemma OfUnfolds(calls: seq<Row>, from: seq<nat>, t: nat)
    requires |calls| == |from|
    ensures calls == [] ==> Of(calls, from, t) == []
    ensures calls != [] ==>
              var k := |calls| - 1;
              Of(calls, from, t) == Of(calls[..k], from[..k], t) + if from[k] == t then [calls[k]] else []
  {
  }

  lemma BagPush(rows: seq<Row>, more: seq<Row>)
    ensures multiset(rows + more) == multiset(rows) + multiset(more)
  {
  }

  lemma {:induction false} BelowNone(calls: seq<Row>, from: seq<nat>)
    requires |calls| == |from|
    ensures Below(calls, from, 0) == []
  {
    if calls != [] {
      BelowNone(calls[..|calls| - 1], from[..|calls| - 1]);
    }
  }

  lemma {:induction false} BelowAll(calls: seq<Row>, from: seq<nat>, n: nat)
    requires |calls| == |from| && forall i :: 0 <= i < |from| ==> from[i] < n
    ensures Below(calls, from, n) == calls
  {
    if calls != [] {
      BelowAll(calls[..|calls| - 1], from[..|calls| - 1], n);
    }
  }

  lemma {:induction false} BelowIsAllRows(start: seq<Cursor>, calls: seq<Row>, from: seq<nat>, n: nat)
    requires |calls| == |from| && n <= |start|
    requires forall t :: 0 <= t < |start| ==>
             start[t].pos <= |start[t].rows| && Of(calls, from, t) == start[t].rows[start[t].pos..]
    ensures multiset(Below(calls, from, n)) == AllRows(start[..n])
  {
    hide *;
    RowsUpTo(start, n);
    if n == 0 {
      BelowNone(calls, from);
    } else {
      BelowIsAllRows(start, calls, from, n - 1);
      BelowStep(calls, from, n - 1);
    }
  }

  lemma RowsUpTo(start: seq<Cursor>, n: nat)
    requires n <= |start| && forall t :: 0 <= t < |start| ==> start[t].pos <= |start[t].rows|
    ensures n == 0 ==> AllRows(start[..n]) == multiset{}
    ensures n > 0 ==>
              AllRows(start[..n]) == AllRows(start[..n - 1]) + multiset(start[n - 1].rows[start[n - 1].pos..])
  {
    if n > 0 {
      assert start[..n][..n - 1] == start[..n - 1];
    }
  }

  /** A merge that ran to the end handed over exactly the rows of all tables. */
  lemma CompleteIsAllRows(start: seq<Cursor>, calls: seq<Row>, from: seq<nat>)
    requires Merged(start, calls, from) && Complete(start, calls, from)
    ensures multiset(calls) == AllRows(start)
  {
    BelowIsAllRows(start, calls, from, |start|);
    BelowAll(calls, from, |start|);
    assert start[..|start|] == start;
  }

  datatype Group = Group(key: Bytes, values: seq<Bytes>)

  /** The values of equal consecutive keys, together. */
  function Groups(rows: seq<Row>): seq<Group> {
    if rows == [] then []
    else
      var groups, last := Groups(rows[..|rows| - 1]), rows[|rows| - 1];
      var n := |groups| - 1;
      if groups != [] && groups[n].key == last.key
      then groups[..n] + [Group(last.key, groups[n].values + [last.value])]
      else groups + [Group(last.key, [last.value])]
  }

  lemma GroupsPush(rows: seq<Row>, row: Row)
    ensures Groups([]) == []
    ensures var groups := Groups(rows);
            Groups(rows + [row]) ==
            if groups != [] && groups[|groups| - 1].key == row.key
            then groups[..|groups| - 1] + [Group(row.key, groups[|groups| - 1].values + [row.value])]
            else groups + [Group(row.key, [row.value])]
  {
    assert (rows + [row])[..|rows|] == rows;
  }

  /** For sorted rows the groups are the distinct keys, strictly increasing, each with all values of
      its key. */
  ghost predicate GroupedByKey(groups: seq<Group>, rows: seq<Row>) {
    && (forall i, j :: 0 <= i < j < |groups| ==> Less(groups[i].key, groups[j].key))
    && (forall i :: 0 <= i < |groups| ==>
                      groups[i].values != [] && groups[i].values == Values(WithKey(rows, groups[i].key)))
    && (forall r :: r in rows ==> exists i :: 0 <= i < |groups| && groups[i].key == r.key)
    && (rows != [] ==> groups != [] && groups[|groups| - 1].key == rows[|rows| - 1].key)
  }

  lemma {:induction false} GroupsOfSorted(rows: seq<Row>)
    requires Sorted(rows)
    ensures GroupedByKey(Groups(rows), rows)
  {
    if rows != [] {
      var init, last := rows[..|rows| - 1], rows[|rows| - 1];
      assert rows == init + [last];
      SortedPrefix(rows, |init|);
      GroupsOfSorted(init);
      GroupOneMore(init, last);
    }
  }

  lemma NewKey(init: seq<Row>, key: Bytes)
    requires forall r :: r in init ==> r.key != key
    ensures WithKey(init, key) == []
  {
    WithKeyMember(init, key);
  }

  lemma ValuesPush(rows: seq<Row>, row: Row)
    ensures Values([row]) == [row.value] && Values(rows + [row]) == Values(rows) + [row.value]
  {
  }

  /** One more row of the last key. */
  lemma JoinGroup(groups: seq<Group>, init: seq<Row>, last: Row)
    requires GroupedByKey(groups, init) && groups != [] && groups[|groups| - 1].key == last.key
    ensures GroupedByKey(groups[..|groups| - 1] + [Group(last.key, groups[|groups| - 1].values + [last.value])],
                         init + [last])
  {
    hide Less, WithKey, Values;
    var n := |groups| - 1;
    var next, rows := groups[..n] + [Group(last.key, groups[n].values + [last.value])], init + [last];
    assert forall i :: 0 <= i < |next| ==> next[i].key == groups[i].key;
    forall i | 0 <= i < |next| ensures next[i].values != [] && next[i].values == Values(WithKey(rows, next[i].key)) {
      WithKeyPush(init, last, groups[i].key);
      ValuesPush(WithKey(init, last.key), last);
      Regroup(WithKey(init, groups[i].key));
      if i < n {
        LessTrichotomy(groups[i].key, groups[n].key);
      }
    }
    forall r | r in rows ensures exists i :: 0 <= i < |next| && next[i].key == r.key {
      if r in init {
        var i :| 0 <= i < |groups| && groups[i].key == r.key;
        assert next[i].key == r.key;
      } else {
        assert next[n].key == r.key;
      }
    }
  }

  /** The first row of a key behind all others. */
  lemma AddGroup(groups: seq<Group>, init: seq<Row>, last: Row)
    requires GroupedByKey(groups, init) && forall i :: 0 <= i < |groups| ==> Less(groups[i].key, last.key)
    ensures GroupedByKey(groups + [Group(last.key, [last.value])], init + [last])
  {
    hide Less, WithKey, Values;
    var n := |groups|;
    var next, rows := groups + [Group(last.key, [last.value])], init + [last];
    LessTrichotomy(last.key, last.key);
    NewKey(init, last.key);
    ValuesPush(WithKey(init, last.key), last);
    forall i | 0 <= i < |next| ensures next[i].values != [] && next[i].values == Values(WithKey(rows, next[i].key)) {
      WithKeyPush(init, last, next[i].key);
      Regroup(WithKey(init, next[i].key));
      if i < n {
        LessTrichotomy(groups[i].key, last.key);
      }
    }
    forall r | r in rows ensures exists i :: 0 <= i < |next| && next[i].key == r.key {
      if r in init {
        var i :| 0 <= i < |groups| && groups[i].key == r.key;
        assert next[i].key == r.key;
      } else {
        assert next[n].key == r.key;
      }
    }
  }

  lemma Regroup(rows: seq<Row>)
    ensures rows + [] == rows && [] + rows == rows
  {
  }

  lemma NoGroups(groups: seq<Group>)
    requires GroupedByKey(groups, [])
    ensures groups == []
  {
    if groups != [] {
      NewKey([], groups[0].key);
    }
  }

  /** The next row has the key of the last group or a greater one. */
  lemma LastOrGreater(groups: seq<Group>, init: seq<Row>, last: Row)
    requires GroupedByKey(groups, init) && (init != [] ==> Leq(init[|init| - 1].key, last.key))
    ensures (groups != [] && groups[|groups| - 1].key == last.key)
            || forall i :: 0 <= i < |groups| ==> Less(groups[i].key, last.key)
  {
    hide Less, WithKey, Values;
    var n := |groups| - 1;
    if init != [] {
      LessTrichotomy(groups[n].key, last.key);
    } else {
      NoGroups(groups);
    }
    if groups != [] && groups[n].key != last.key {
      forall i | 0 <= i < |groups| ensures Less(groups[i].key, last.key) {
        if i < n {
          LessTransitive(groups[i].key, groups[n].key, last.key);
        }
      }
    }
  }

  lemma GroupOneMore(init: seq<Row>, last: Row)
    requires Sorted(init + [last]) && Sorted(init) && GroupedByKey(Groups(init), init)
    ensures GroupedByKey(Groups(init + [last]), init + [last])
  {
    hide *;
    var groups := Groups(init);
    SortedPush(init, last);
    GroupsPush(init, last);
    LastOrGreater(groups, init, last);
    if groups != [] && groups[|groups| - 1].key == last.key {
      JoinGroup(groups, init, last);
    } else {
      AddGroup(groups, init, last);
    }
  }

  /** The wrapper's callback with the state that it captures. */
  class GroupingCallback {
    var currentKey: Bytes
    var data: seq<Bytes>
    var handed: seq<Group>
    ghost var seen: seq<Row>

    /** What was handed on, and the group that is being collected. */
    ghost predicate Valid()
      reads this
    {
      && handed + (if data != [] then [Group(currentKey, data)] else []) == Groups(seen)
      && (data == [] ==> seen == [])
    }

    constructor ()
      ensures Valid() && seen == []
    {
      currentKey, data, handed, seen := [], [], [], [];
    }

    method Call(row: Row) returns (result: int)
      requires Valid()
      modifies this
      ensures Valid() && seen == old(seen) + [row] && result == 0
    {
      hide Groups;
      GroupsPush(seen, row);
      ghost var h, k, d := handed, currentKey, data;
      if d == [] {
        assert h == Groups(seen) == [] && d + [row.value] == [row.value];
      } else {
        ghost var groups := Groups(seen);
        assert groups == h + [Group(k, d)];
        assert groups[|groups| - 1] == Group(k, d) && groups[..|groups| - 1] == h;
      }
      if row.key != currentKey {
        if data != [] {
          handed := handed + [Group(currentKey, data)];
        }
        data := [];
        currentKey := row.key;
      }
      data := data + [row.value];
      seen := seen + [row];
      assert row.key != k ==> data == [row.value];
      assert handed + [Group(currentKey, data)] == Groups(seen);
      result := 0;
    }
  }

  /** The grouping overload: every key once, in strictly increasing order, with all of its values. */
  method MergeGrouped(tables: array<Cursor>) returns (groups: seq<Group>, ghost calls: seq<Row>, ghost from: seq<nat>)
    requires forall t :: 0 <= t < tables.Length ==> tables[t].Valid()
    modifies tables
    ensures Merged(old(tables[..]), calls, from) && Complete(old(tables[..]), calls, from)
    ensures multiset(calls) == AllRows(old(tables[..]))
    ensures groups == Groups(calls) && GroupedByKey(groups, calls)
  {
    hide Complete, AllRows, GroupedByKey, Groups, Cursor.Valid;
    ghost var start := tables[..];
    var result, rows;
    result, rows, from := MergeTables(tables, _ => false);
    calls := rows;
    CompleteIsAllRows(start, calls, from);
    var callback := new GroupingCallback();
    for i := 0 to |rows|
      invariant callback.Valid() && callback.seen == rows[..i] && fresh(callback)
    {
      var r := callback.Call(rows[i]);
      assert rows[..i + 1] == rows[..i] + [rows[i]];
    }
    assert rows[..|rows|] == rows;
    GroupsOfSorted(rows);
    groups := callback.handed + if callback.data != [] then [Group(callback.currentKey, callback.data)] else [];
  }
}

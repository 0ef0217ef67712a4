/** The loader's input: escapes, fields and lines, and the groups of values that a list of lines makes. */
module Lines {
  import opened Bytes
  import opened Table
  import opened OffsetLists

  const TAB: Byte := 9
  const NEWLINE: Byte := 10
  const RETURN: Byte := 13
  const BACKSLASH: Byte := 92

  datatype Location = At(offset: nat) | NoMatch | Junk

  datatype Reading = Reading(score: Number, pct: seq<Number>)

  /** `locate` turns an offset field into an offset, `read` a value field into a score, `keep` tells the
      keys that pass the shard and key filters. */
  datatype Config = Config(delimiter: Byte, unescape: bool, summaries: bool,
                           locate: Bytes -> Location, read: Bytes -> Option<Reading>, keep: Bytes -> bool,
                           threshold: Option<Number>, strip: Bytes, add: Bytes)

  // ---------- Escapes ----------

  /** A character and whether a backslash came before it. */
  datatype Token = Token(ch: Byte, escaped: bool)

  function Unescaped(ch: Byte): Byte {
    if ch == 't' as int then TAB else if ch == 'r' as int then RETURN else if ch == 'n' as int then NEWLINE else ch
  }

  /** The characters of a text, and whether it ends inside an escape. */
  function Tokens(text: Bytes, unescape: bool): (seq<Token>, bool) {
    if text == [] then ([], false)
    else
      var n := |text| - 1;
      var (tokens, open) := Tokens(text[..n], unescape);
      if open then (tokens + [Token(Unescaped(text[n]), true)], false)
      else if text[n] == BACKSLASH && unescape then (tokens, true)
      else (tokens + [Token(text[n], false)], false)
  }

  lemma TokensPush(text: Bytes, ch: Byte, unescape: bool)
    ensures var (tokens, open) := Tokens(text, unescape);
            Tokens(text + [ch], unescape) ==
            if open then (tokens + [Token(Unescaped(ch), true)], false)
            else if ch == BACKSLASH && unescape then (tokens, true)
            else (tokens + [Token(ch, false)], false)
  {
    assert (text + [ch])[..|text|] == text;
  }

  lemma {:induction false} TokensAppend(a: Bytes, b: Bytes, unescape: bool)
    requires !Tokens(a, unescape).1
    ensures Tokens(a + b, unescape) == (Tokens(a, unescape).0 + Tokens(b, unescape).0, Tokens(b, unescape).1)
  {
    if b == [] {
      assert a + b == a && Tokens(a, unescape).0 + [] == Tokens(a, unescape).0;
    } else {
      hide Tokens;
      var init, last := b[..|b| - 1], b[|b| - 1];
      assert b == init + [last] && a + b == (a + init) + [last];
      TokensAppend(a, init, unescape);
      TokensPush(init, last, unescape);
      TokensPush(a + init, last, unescape);
      var x, y := Tokens(a, unescape).0, Tokens(init, unescape).0;
      assert forall t :: (x + y) + [t] == x + (y + [t]);
    }
  }

  /** `Escape`. */
  function EscapeByte(ch: Byte): Bytes {
    if ch == BACKSLASH then [BACKSLASH, BACKSLASH]
    else if ch == NEWLINE then [BACKSLASH, 'n' as int]
    else if ch == RETURN then [BACKSLASH, 'r' as int]
    else if ch == TAB then [BACKSLASH, 't' as int]
    else [ch]
  }

  /** Backslash, line feed, carriage return and tab are written as a backslash with itself, n, r and t; what
      follows a backslash is read as these, or as itself. */
  lemma EscapesAre(ch: Byte)
    ensures ch == 92 ==> EscapeByte(ch) == [92, 92]
    ensures ch == 10 ==> EscapeByte(ch) == [92, 110]
    ensures ch == 13 ==> EscapeByte(ch) == [92, 114]
    ensures ch == 9 ==> EscapeByte(ch) == [92, 116]
    ensures ch !in {9, 10, 13, 92} ==> EscapeByte(ch) == [ch]
    ensures ch == 110 ==> Unescaped(ch) == 10
    ensures ch == 114 ==> Unescaped(ch) == 13
    ensures ch == 116 ==> Unescaped(ch) == 9
    ensures ch !in {110, 114, 116} ==> Unescaped(ch) == ch
  {
  }

  function Escaped(text: Bytes): Bytes {
    if text == [] then [] else Escaped(text[..|text| - 1]) + EscapeByte(text[|text| - 1])
  }

  method Escape(text: Bytes) returns (result: Bytes)
    ensures result == Escaped(text)
  {
    result := [];
    for i := 0 to |text|
      invariant result == Escaped(text[..i])
    {
      assert text[..i + 1][..i] == text[..i];
      var ch := text[i];
      if ch == BACKSLASH {
        result := result + [BACKSLASH, BACKSLASH];
      } else if ch == NEWLINE {
        result := result + [BACKSLASH, 'n' as int];
      } else if ch == RETURN {
        result := result + [BACKSLASH, 'r' as int];
      } else if ch == TAB {
        result := result + [BACKSLASH, 't' as int];
      } else {
        result := result + [ch];
      }
    }
    assert text[..|text|] == text;
  }

  /** The characters of an escaped text: those that structure the input are all marked as escaped. */
  function Quoted(text: Bytes): (r: seq<Token>)
    ensures |r| == |text|
  {
    seq(|text|, i requires 0 <= i < |text| => Token(text[i], text[i] in {BACKSLASH, NEWLINE, RETURN, TAB}))
  }

  lemma {:induction false} TokensOfEscaped(text: Bytes)
    ensures Tokens(Escaped(text), true) == (Quoted(text), false)
  {
    hide *;
    NoTokens();
    EscapedParts(text);
    if text != [] {
      var init, last := text[..|text| - 1], text[|text| - 1];
      TokensOfEscaped(init);
      TokensAppend(Escaped(init), EscapeByte(last), true);
      TokensOfByte(last);
    }
  }

  lemma EscapedParts(text: Bytes)
    ensures text == [] ==> Escaped(text) == [] && Quoted(text) == []
    ensures text != [] ==>
              var init, last := text[..|text| - 1], text[|text| - 1];
              && Escaped(text) == Escaped(init) + EscapeByte(last)
              && Quoted(text) == Quoted(init) + [Token(last, last in {BACKSLASH, NEWLINE, RETURN, TAB})]
  {
    hide EscapeByte;
    if text != [] {
      var init, last := text[..|text| - 1], text[|text| - 1];
      assert Quoted(text) == Quoted(init) + [Token(last, last in {BACKSLASH, NEWLINE, RETURN, TAB})];
    }
  }

  lemma TokensOfByte(ch: Byte)
    ensures Tokens(EscapeByte(ch), true) == ([Token(ch, ch in {BACKSLASH, NEWLINE, RETURN, TAB})], false)
  {
    hide Tokens;
    var code := EscapeByte(ch);
    TokensPush([], code[0], true);
    NoTokens();
    if |code| == 2 {
      TokensPush([code[0]], code[1], true);
      assert code == [code[0]] + [code[1]] && [] + [code[0]] == [code[0]];
    } else {
      assert [] + [code[0]] == code;
    }
    assert forall t: Token :: [] + [t] == [t];
  }

  lemma NoTokens()
    ensures Tokens([], true) == ([], false)
  {
  }

  // ---------- Lines ----------

  datatype Line = Line(key: Bytes, place: Bytes, value: Bytes)

  datatype Phase = ParseKey | ParseOffset | ParseValue

  /** What has been read: whole lines, and the fields so far of a line that has not ended. */
  datatype Frame = Frame(lines: seq<Line>, phase: Phase, line: Line) {
    function Step(c: Config, t: Token): Frame {
      match phase
      case ParseKey =>
        if t == Token(c.delimiter, false) then this.(phase := if c.summaries then ParseValue else ParseOffset)
        else this.(line := line.(key := line.key + [t.ch]))
      case ParseOffset =>
        if t == Token(c.delimiter, false) then this.(phase := ParseValue)
        else this.(line := line.(place := line.place + [t.ch]))
      case ParseValue =>
        if t == Token(RETURN, false) then this
        else if t == Token(NEWLINE, false) then Frame(lines + [line], ParseKey, NoLine())
        else this.(line := line.(value := line.value + [t.ch]))
    }
  }

  function NoLine(): Line {
    Line([], [], [])
  }

  function Start(): Frame {
    Frame([], ParseKey, NoLine())
  }

  function Frames(c: Config, tokens: seq<Token>): Frame {
    if tokens == [] then Start() else Frames(c, tokens[..|tokens| - 1]).Step(c, tokens[|tokens| - 1])
  }

  lemma FramesPush(c: Config, tokens: seq<Token>, t: Token)
    ensures Frames(c, []) == Start()
    ensures Frames(c, tokens + [t]) == Frames(c, tokens).Step(c, t)
  {
    assert (tokens + [t])[..|tokens|] == tokens;
  }

  /** The frame of a whole text. */
  function ReadText(c: Config, text: Bytes): Frame {
    Frames(c, Tokens(text, c.unescape).0)
  }

  // ---------- Groups ----------

  datatype Group = Group(key: Bytes, series: seq<Entry>)

  /** The value that a line adds, if any. */
  function LineEntry(c: Config, line: Line): Option<Entry> {
    if c.summaries then None
    else
      match c.locate(line.place)
      case At(offset) =>
        (match c.read(line.value)
         case Some(r) => Some(Entry(offset, r.score, r.pct))
         case None => None)
      case NoMatch => None
      case Junk => None
  }

  predicate LineFails(c: Config, line: Line) {
    !c.summaries && (c.locate(line.place).Junk? || (c.locate(line.place).At? && c.read(line.value).None?))
  }

  /** The key of the last line, the values not yet flushed, and the groups that were flushed. */
  datatype Pending = Pending(current: Bytes, values: seq<Entry>, groups: seq<Group>) {
    function Flushed(): Pending {
      if values == [] then this else Pending(current, [], groups + [Group(current, values)])
    }

    /** Seeing (a part of) the next key flushes the values unless it is a prefix of the last key. */
    function Sees(key: Bytes): Pending {
      if IsPrefix(key, current) then this else Flushed()
    }

    function Line(c: Config, line: Line): Pending {
      var next := Sees(line.key);
      match LineEntry(c, line)
      case None => Pending(line.key, next.values, next.groups)
      case Some(e) => Pending(line.key, next.values + [e], next.groups)
    }
  }

  function Collect(c: Config, lines: seq<Line>): Pending {
    if lines == [] then Pending([], [], []) else Collect(c, lines[..|lines| - 1]).Line(c, lines[|lines| - 1])
  }

  lemma RunPush(c: Config, lines: seq<Line>, line: Line)
    ensures Collect(c, []) == Pending([], [], [])
    ensures Collect(c, lines + [line]) == Collect(c, lines).Line(c, line)
  {
    assert (lines + [line])[..|lines|] == lines;
  }

  /** The groups of a whole input. */
  function Groups(c: Config, lines: seq<Line>): seq<Group> {
    Collect(c, lines).Flushed().groups
  }

  // ---------- Which lines are grouped rightly ----------

  /** Each value with the key that it was written under. */
  function Flatten(groups: seq<Group>): seq<(Bytes, Entry)> {
    if groups == [] then []
    else
      var g := groups[|groups| - 1];
      Flatten(groups[..|groups| - 1]) + WithKey(g.key, g.series)
  }

  function WithKey(key: Bytes, series: seq<Entry>): (r: seq<(Bytes, Entry)>)
    ensures |r| == |series|
  {
    seq(|series|, i requires 0 <= i < |series| => (key, series[i]))
  }

  /** Each value with the key of its own line. */
  function Wanted(c: Config, lines: seq<Line>): seq<(Bytes, Entry)> {
    if lines == [] then []
    else
      var line := lines[|lines| - 1];
      Wanted(c, lines[..|lines| - 1]) + match LineEntry(c, line) case None => [] case Some(e) => [(line.key, e)]
  }

  /** Whether the lines at the end that have one key hold a value. */
  function HasPending(c: Config, lines: seq<Line>): bool {
    if lines == [] then false
    else
      var n := |lines| - 1;
      LineEntry(c, lines[n]).Some? || (n > 0 && lines[n - 1].key == lines[n].key && HasPending(c, lines[..n]))
  }

  /** No key with values is followed by a proper prefix of itself. */
  predicate NoShrinking(c: Config, lines: seq<Line>) {
    if |lines| <= 1 then true
    else
      var n := |lines| - 1;
      && NoShrinking(c, lines[..n])
      && !(HasPending(c, lines[..n]) && IsPrefix(lines[n].key, lines[n - 1].key) && lines[n].key != lines[n - 1].key)
  }

  lemma FlattenPush(groups: seq<Group>, g: Group)
    ensures Flatten([]) == []
    ensures Flatten(groups + [g]) == Flatten(groups) + WithKey(g.key, g.series)
  {
    assert (groups + [g])[..|groups|] == groups;
  }

  lemma WithKeyPush(key: Bytes, series: seq<Entry>, e: Entry)
    ensures WithKey(key, []) == []
    ensures WithKey(key, series + [e]) == WithKey(key, series) + [(key, e)]
  {
  }

  lemma PrefixOfItself(a: Bytes)
    ensures IsPrefix(a, a)
  {
    assert a[..|a|] == a;
  }

  lemma LastLine(c: Config, lines: seq<Line>)
    requires lines != []
    ensures Collect(c, lines).current == lines[|lines| - 1].key
  {
  }

  /** As long as nothing shrinks, flushed and pending values are under their own keys, and values are
      pending exactly when the last run of equal keys holds one. */
  lemma {:induction false} RightSoFar(c: Config, lines: seq<Line>)
    requires NoShrinking(c, lines)
    ensures var run := Collect(c, lines);
            && Flatten(run.groups) + WithKey(run.current, run.values) == Wanted(c, lines)
            && (run.values != [] <==> HasPending(c, lines))
  {
    if lines != [] {
      hide Flatten, IsPrefix, LineEntry;
      var n := |lines| - 1;
      var init, line := lines[..n], lines[n];
      RightSoFar(c, init);
      RunPush(c, init, line);
      assert lines == init + [line];
      var before, next := Collect(c, init), Collect(c, init).Sees(line.key);
      if n > 0 {
        LastLine(c, init);
        assert before.current == lines[n - 1].key;
        PrefixOfItself(line.key);
      } else {
        assert before.values == [];
      }
      FlattenPush(before.groups, Group(before.current, before.values));
      SameKeyOrNothing(before, line.key, next);
      if LineEntry(c, line).Some? {
        WithKeyPush(line.key, next.values, LineEntry(c, line).value);
        Regroup(Flatten(next.groups), WithKey(line.key, next.values), [(line.key, LineEntry(c, line).value)]);
      } else {
        assert Wanted(c, lines) == Wanted(c, init) + [];
      }
    } else {
      assert Collect(c, lines) == Pending([], [], []);
    }
  }

  lemma Regroup<T>(a: seq<T>, b: seq<T>, d: seq<T>)
    ensures a + (b + d) == (a + b) + d
    ensures a + [] == a
  {
  }

  /** Seeing a key that is equal, or not a prefix, keeps every value under its key. */
  lemma SameKeyOrNothing(before: Pending, key: Bytes, next: Pending)
    requires next == before.Sees(key)
    requires before.values == [] || key == before.current || !IsPrefix(key, before.current)
    ensures Flatten(next.groups) + WithKey(key, next.values) ==
            Flatten(before.groups) + WithKey(before.current, before.values)
    ensures next.values == [] || (key == before.current && next.values == before.values)
    ensures key == before.current ==> next.values == before.values
  {
    PrefixOfItself(key);
    FlattenPush(before.groups, Group(before.current, before.values));
    WithKeyPush(key, [], Entry(0, PlusInfinity, []));
    WithKeyPush(before.current, [], Entry(0, PlusInfinity, []));
    Regroup(Flatten(next.groups), [], []);
    Regroup(Flatten(before.groups), [], []);
  }

  // ---------- Which lines are not ----------

  lemma {:induction false} NothingIsLost(c: Config, lines: seq<Line>)
    ensures var run := Collect(c, lines); |Flatten(run.groups)| + |run.values| == |Wanted(c, lines)|
  {
    if lines != [] {
      hide Flatten, IsPrefix, LineEntry;
      var n := |lines| - 1;
      NothingIsLost(c, lines[..n]);
      RunPush(c, lines[..n], lines[n]);
      assert lines == lines[..n] + [lines[n]];
      var before := Collect(c, lines[..n]);
      FlattenPush(before.groups, Group(before.current, before.values));
    } else {
      FlattenPush([], Group([], []));
    }
  }

  /** Some value has been written under a key that is not its own. */
  ghost predicate FlushedWrong(groups: seq<Group>, wanted: seq<(Bytes, Entry)>) {
    exists i :: 0 <= i < |Flatten(groups)| && i < |wanted| && Flatten(groups)[i].0 != wanted[i].0
  }

  /** The key has become shorter than that of some value that waits for it. */
  ghost predicate PendingWrong(run: Pending, wanted: seq<(Bytes, Entry)>) {
    exists i :: |Flatten(run.groups)| <= i < |Flatten(run.groups)| + |run.values| && i < |wanted|
      && |run.current| < |wanted[i].0|
  }

  lemma FlushedWrongStays(groups: seq<Group>, g: Group, wanted: seq<(Bytes, Entry)>, more: seq<(Bytes, Entry)>)
    requires FlushedWrong(groups, wanted)
    ensures FlushedWrong(groups, wanted + more) && FlushedWrong(groups + [g], wanted + more)
  {
    FlattenPush(groups, g);
    hide Flatten;
    var i :| 0 <= i < |Flatten(groups)| && i < |wanted| && Flatten(groups)[i].0 != wanted[i].0;
    assert (wanted + more)[i] == wanted[i] && Flatten(groups + [g])[i] == Flatten(groups)[i];
  }

  /** Flushing makes a waiting mistake a written one. */
  lemma FlushWrong(run: Pending, wanted: seq<(Bytes, Entry)>, more: seq<(Bytes, Entry)>)
    requires PendingWrong(run, wanted)
    ensures run.values != [] && FlushedWrong(run.groups + [Group(run.current, run.values)], wanted + more)
  {
    FlattenPush(run.groups, Group(run.current, run.values));
    hide Flatten;
    var i :| |Flatten(run.groups)| <= i < |Flatten(run.groups)| + |run.values| && i < |wanted|
      && |run.current| < |wanted[i].0|;
    var all := Flatten(run.groups + [Group(run.current, run.values)]);
    assert all[i] == WithKey(run.current, run.values)[i - |Flatten(run.groups)|];
    assert (wanted + more)[i] == wanted[i];
  }

  lemma WrongStep(c: Config, run: Pending, line: Line, wanted: seq<(Bytes, Entry)>, more: seq<(Bytes, Entry)>)
    requires FlushedWrong(run.groups, wanted) || PendingWrong(run, wanted)
    ensures var next := run.Line(c, line); FlushedWrong(next.groups, wanted + more) || PendingWrong(next, wanted + more)
  {
    hide Flatten, IsPrefix, LineEntry;
    var next := run.Line(c, line);
    if FlushedWrong(run.groups, wanted) {
      FlushedWrongStays(run.groups, Group(run.current, run.values), wanted, more);
    } else if IsPrefix(line.key, run.current) {
      ShorterPrefix(line.key, run.current);
      var i :| |Flatten(run.groups)| <= i < |Flatten(run.groups)| + |run.values| && i < |wanted|
        && |run.current| < |wanted[i].0|;
      assert (wanted + more)[i] == wanted[i];
    } else {
      FlushWrong(run, wanted, more);
    }
  }

  lemma ShorterPrefix(p: Bytes, s: Bytes)
    requires IsPrefix(p, s)
    ensures |p| <= |s| && (p != s ==> |p| < |s|)
  {
    assert s[..|s|] == s;
  }

  /** After a key has shrunk while values were pending, something is wrong for good. */
  lemma {:induction false} WrongForGood(c: Config, lines: seq<Line>)
    requires !NoShrinking(c, lines)
    ensures FlushedWrong(Collect(c, lines).groups, Wanted(c, lines))
            || PendingWrong(Collect(c, lines), Wanted(c, lines))
  {
    hide FlushedWrong, PendingWrong, LineEntry;
    var n := |lines| - 1;
    var init, line := lines[..n], lines[n];
    assert lines == init + [line];
    RunPush(c, init, line);
    var more := match LineEntry(c, line) case None => [] case Some(e) => [(line.key, e)];
    assert Wanted(c, lines) == Wanted(c, init) + more;
    if !NoShrinking(c, init) {
      WrongForGood(c, init);
      WrongStep(c, Collect(c, init), line, Wanted(c, init), more);
    } else {
      RightSoFar(c, init);
      LastLine(c, init);
      NowWrong(c, Collect(c, init), line, Wanted(c, init), more);
    }
  }

  lemma NowWrong(c: Config, run: Pending, line: Line, wanted: seq<(Bytes, Entry)>, more: seq<(Bytes, Entry)>)
    requires Flatten(run.groups) + WithKey(run.current, run.values) == wanted && run.values != []
    requires IsPrefix(line.key, run.current) && line.key != run.current
    ensures PendingWrong(run.Line(c, line), wanted + more)
  {
    hide Flatten, IsPrefix, LineEntry;
    ShorterPrefix(line.key, run.current);
    var i := |Flatten(run.groups)|;
    assert wanted[i] == WithKey(run.current, run.values)[0];
    assert (wanted + more)[i] == wanted[i];
    assert |run.Line(c, line).current| < |(wanted + more)[i].0|;
  }

  /** Every value is written under the key of its own line exactly when no key with values is followed
      by a proper prefix of itself. */
  lemma GroupingIsRight(c: Config, lines: seq<Line>)
    ensures Flatten(Groups(c, lines)) == Wanted(c, lines) <==> NoShrinking(c, lines)
  {
    hide Flatten, Wanted, NoShrinking;
    var run := Collect(c, lines);
    FlattenPush(run.groups, Group(run.current, run.values));
    WithKeyPush(run.current, [], Entry(0, PlusInfinity, []));
    Regroup(Flatten(run.groups), [], []);
    if NoShrinking(c, lines) {
      RightSoFar(c, lines);
    } else {
      WrongForGood(c, lines);
      if PendingWrong(run, Wanted(c, lines)) {
        FlushWrong(run, Wanted(c, lines), []);
        Regroup(Wanted(c, lines), [], []);
      } else {
        FlushedWrongStays(run.groups, Group(run.current, run.values), Wanted(c, lines), []);
        Regroup(Wanted(c, lines), [], []);
      }
    }
  }

  // ---------- Sorted input ----------

  ghost predicate KeysAscend(lines: seq<Line>) {
    forall i, j :: 0 <= i < j < |lines| ==> Leq(lines[i].key, lines[j].key)
  }

  lemma LessPrefix(p: Bytes, s: Bytes)
    requires IsPrefix(p, s) && Leq(s, p)
    ensures p == s
  {
    PrefixIsLeq(p, s);
    LessTrichotomy(p, s);
  }

  lemma {:induction false} SortedDoesNotShrink(c: Config, lines: seq<Line>)
    requires KeysAscend(lines)
    ensures NoShrinking(c, lines)
  {
    if |lines| > 1 {
      hide HasPending, IsPrefix, Less;
      var n := |lines| - 1;
      SortedDoesNotShrink(c, lines[..n]);
      if IsPrefix(lines[n].key, lines[n - 1].key) {
        LessPrefix(lines[n].key, lines[n - 1].key);
      }
    }
  }

  ghost predicate GroupsAscend(groups: seq<Group>) {
    && (forall i :: 0 <= i < |groups| ==> groups[i].series != [])
    && (forall i, j :: 0 <= i < j < |groups| ==> Less(groups[i].key, groups[j].key))
  }

  ghost predicate AllBelow(groups: seq<Group>, key: Bytes) {
    forall i :: 0 <= i < |groups| ==> Less(groups[i].key, key)
  }

  lemma Raise(groups: seq<Group>, low: Bytes, high: Bytes)
    requires AllBelow(groups, low) && Leq(low, high)
    ensures AllBelow(groups, high)
  {
    forall i | 0 <= i < |groups| ensures Less(groups[i].key, high) {
      LessTrichotomy(groups[i].key, low);
      LeqTransitive(groups[i].key, low, high);
    }
  }

  lemma {:induction false} SortedRun(c: Config, lines: seq<Line>)
    requires KeysAscend(lines)
    ensures GroupsAscend(Collect(c, lines).groups) && AllBelow(Collect(c, lines).groups, Collect(c, lines).current)
  {
    if lines != [] {
      hide IsPrefix, Less, LineEntry, AllBelow;
      var n := |lines| - 1;
      var init, line := lines[..n], lines[n];
      assert lines == init + [line];
      SortedRun(c, init);
      RunPush(c, init, line);
      var run := Collect(c, init);
      if n > 0 {
        LastLine(c, init);
        assert run.current == lines[n - 1].key && Leq(lines[n - 1].key, line.key);
      } else {
        NothingIsBelow(line.key);
      }
      Raise(run.groups, run.current, line.key);
      if !IsPrefix(line.key, run.current) {
        PrefixOfItself(line.key);
        LessTrichotomy(run.current, line.key);
        OneMoreGroup(run.groups, Group(run.current, run.values), line.key);
      }
    } else {
      assert Collect(c, lines).groups == [];
    }
  }

  lemma NothingIsBelow(key: Bytes)
    ensures Leq([], key)
  {
  }

  lemma OneMoreGroup(groups: seq<Group>, g: Group, key: Bytes)
    requires GroupsAscend(groups) && AllBelow(groups, g.key)
    ensures g.series != [] ==> GroupsAscend(groups + [g])
    ensures Less(g.key, key) ==> AllBelow(groups + [g], key)
  {
    hide Less;
    if Less(g.key, key) {
      LessTrichotomy(g.key, key);
      Raise(groups, g.key, key);
    }
  }

  /** The values of one key. */
  function SeriesOf(pairs: seq<(Bytes, Entry)>, key: Bytes): seq<Entry> {
    if pairs == [] then []
    else
      var last := pairs[|pairs| - 1];
      SeriesOf(pairs[..|pairs| - 1], key) + if last.0 == key then [last.1] else []
  }

  lemma SeriesOfPush(pairs: seq<(Bytes, Entry)>, pair: (Bytes, Entry), key: Bytes)
    ensures SeriesOf([], key) == []
    ensures SeriesOf(pairs + [pair], key) == SeriesOf(pairs, key) + if pair.0 == key then [pair.1] else []
    ensures SeriesOf(pairs, key) + [] == SeriesOf(pairs, key)
  {
    assert (pairs + [pair])[..|pairs|] == pairs;
  }

  lemma {:induction false} SeriesOfAppend(a: seq<(Bytes, Entry)>, b: seq<(Bytes, Entry)>, key: Bytes)
    ensures SeriesOf(a + b, key) == SeriesOf(a, key) + SeriesOf(b, key)
  {
    if b == [] {
      assert a + b == a;
      Regroup(SeriesOf(a, key), [], []);
    } else {
      var n := |b| - 1;
      SeriesOfAppend(a, b[..n], key);
      assert (a + b)[..|a + b| - 1] == a + b[..n];
      Regroup(SeriesOf(a, key), SeriesOf(b[..n], key), if b[n].0 == key then [b[n].1] else []);
    }
  }

  lemma {:induction false} SeriesOfGroup(g: Group, key: Bytes)
    ensures SeriesOf(WithKey(g.key, g.series), key) == if g.key == key then g.series else []
    decreases |g.series|
  {
    hide SeriesOf, WithKey;
    SeriesOfPush([], (g.key, Entry(0, PlusInfinity, [])), key);
    WithKeyPush(g.key, [], Entry(0, PlusInfinity, []));
    if g.series != [] {
      var init, last := g.series[..|g.series| - 1], g.series[|g.series| - 1];
      SeriesOfGroup(Group(g.key, init), key);
      assert g.series == init + [last];
      WithKeyPush(g.key, init, last);
      SeriesOfPush(WithKey(g.key, init), (g.key, last), key);
    }
  }

  lemma {:induction false} SeriesOfOthers(groups: seq<Group>, key: Bytes)
    requires forall i :: 0 <= i < |groups| ==> groups[i].key != key
    ensures SeriesOf(Flatten(groups), key) == []
  {
    if groups != [] {
      hide SeriesOf;
      var n := |groups| - 1;
      SeriesOfOthers(groups[..n], key);
      SeriesOfAppend(Flatten(groups[..n]), WithKey(groups[n].key, groups[n].series), key);
      SeriesOfGroup(groups[n], key);
    } else {
      assert Flatten(groups) == [];
    }
  }

  lemma {:induction false} SeriesOfEach(groups: seq<Group>, i: nat)
    requires GroupsAscend(groups) && i < |groups|
    ensures SeriesOf(Flatten(groups), groups[i].key) == groups[i].series
    decreases |groups|
  {
    hide SeriesOf, Less;
    var n := |groups| - 1;
    var key := groups[i].key;
    SeriesOfAppend(Flatten(groups[..n]), WithKey(groups[n].key, groups[n].series), key);
    SeriesOfGroup(groups[n], key);
    if i < n {
      LessTrichotomy(groups[i].key, groups[n].key);
      SeriesOfEach(groups[..n], i);
      Regroup(groups[i].series, [], []);
    } else {
      forall k | 0 <= k < n ensures groups[..n][k].key != key {
        LessTrichotomy(groups[k].key, key);
      }
      SeriesOfOthers(groups[..n], key);
    }
  }

  /** Input that is sorted by key: every key with values is written once, in increasing order, with all of
      its values in their order. */
  lemma SortedGroups(c: Config, lines: seq<Line>)
    requires KeysAscend(lines)
    ensures GroupsAscend(Groups(c, lines))
    ensures Flatten(Groups(c, lines)) == Wanted(c, lines)
    ensures forall i :: 0 <= i < |Groups(c, lines)| ==>
              Groups(c, lines)[i].series == SeriesOf(Wanted(c, lines), Groups(c, lines)[i].key)
  {
    hide Flatten, Wanted, NoShrinking, SeriesOf, Less;
    var run := Collect(c, lines);
    SortedRun(c, lines);
    if run.values != [] {
      OneMoreGroup(run.groups, Group(run.current, run.values), []);
    }
    SortedDoesNotShrink(c, lines);
    GroupingIsRight(c, lines);
    forall i | 0 <= i < |Groups(c, lines)|
      ensures Groups(c, lines)[i].series == SeriesOf(Wanted(c, lines), Groups(c, lines)[i].key) {
      SeriesOfEach(Groups(c, lines), i);
    }
  }

  // ---------- Escaped fields ----------

  /** A character does not occur, unless it is escaped. */
  predicate Without(tokens: seq<Token>, ch: Byte) {
    forall i :: 0 <= i < |tokens| ==> tokens[i] != Token(ch, false)
  }

  /** All but the carriage returns that are not escaped. */
  function Kept(tokens: seq<Token>): seq<Token> {
    if tokens == [] then []
    else
      var n := |tokens| - 1;
      Kept(tokens[..n]) + if tokens[n].ch == 13 && !tokens[n].escaped then [] else [tokens[n]]
  }

  lemma WithoutParts(tokens: seq<Token>, ch: Byte)
    requires Without(tokens, ch) && tokens != []
    ensures Without(tokens[..|tokens| - 1], ch) && tokens[|tokens| - 1] != Token(ch, false)
  {
  }

  lemma {:induction false} AllKept(tokens: seq<Token>)
    requires Without(tokens, 13)
    ensures Kept(tokens) == tokens
  {
    hide Without;
    if tokens != [] {
      var n := |tokens| - 1;
      WithoutParts(tokens, 13);
      AllKept(tokens[..n]);
      assert tokens == tokens[..n] + [tokens[n]];
    }
  }

  function Chars(tokens: seq<Token>): (r: Bytes)
    ensures |r| == |tokens|
  {
    seq(|tokens|, i requires 0 <= i < |tokens| => tokens[i].ch)
  }

  lemma NoChars()
    ensures Chars([]) == []
  {
  }

  lemma CharsPush(tokens: seq<Token>, t: Token)
    ensures Chars(tokens + [t]) == Chars(tokens) + [t.ch]
  {
  }

  lemma {:induction false} ReadKey(c: Config, before: seq<Token>, field: seq<Token>)
    requires Without(field, c.delimiter) && Frames(c, before).phase.ParseKey?
    ensures var f := Frames(c, before);
            Frames(c, before + field) == f.(line := f.line.(key := f.line.key + Chars(field)))
  {
    hide Frames, Chars, Without;
    var f := Frames(c, before);
    NoChars();
    if field == [] {
      assert before + field == before && f.line.key + Chars(field) == f.line.key;
    } else {
      var n := |field| - 1;
      assert before + field == (before + field[..n]) + [field[n]];
      WithoutParts(field, c.delimiter);
      ReadKey(c, before, field[..n]);
      FramesPush(c, before + field[..n], field[n]);
      CharsPush(field[..n], field[n]);
      assert field == field[..n] + [field[n]];
      assert (f.line.key + Chars(field[..n])) + [field[n].ch] == f.line.key + Chars(field);
    }
  }

  /** A value field goes up to the end of the line and loses its carriage returns. */
  lemma {:induction false} ReadValue(c: Config, before: seq<Token>, field: seq<Token>)
    requires Without(field, 10) && Frames(c, before).phase.ParseValue?
    ensures var f := Frames(c, before);
            Frames(c, before + field) == f.(line := f.line.(value := f.line.value + Chars(Kept(field))))
  {
    hide Frames, Chars, Without;
    var f := Frames(c, before);
    NoChars();
    if field == [] {
      assert before + field == before && f.line.value + Chars(Kept(field)) == f.line.value;
    } else {
      var n := |field| - 1;
      assert before + field == (before + field[..n]) + [field[n]];
      WithoutParts(field, 10);
      ReadValue(c, before, field[..n]);
      FramesPush(c, before + field[..n], field[n]);
      CharsPush(Kept(field[..n]), field[n]);
      assert Kept(field[..n]) + [] == Kept(field[..n]);
      assert f.line.value + (Chars(Kept(field[..n])) + [field[n].ch]) ==
             (f.line.value + Chars(Kept(field[..n]))) + [field[n].ch];
    }
  }

  lemma {:induction false} ReadPlace(c: Config, before: seq<Token>, field: seq<Token>)
    requires Without(field, c.delimiter) && Frames(c, before).phase.ParseOffset?
    ensures var f := Frames(c, before);
            Frames(c, before + field) == f.(line := f.line.(place := f.line.place + Chars(field)))
  {
    hide Frames, Chars, Without;
    var f := Frames(c, before);
    NoChars();
    if field == [] {
      assert before + field == before && f.line.place + Chars(field) == f.line.place;
    } else {
      var n := |field| - 1;
      assert before + field == (before + field[..n]) + [field[n]];
      WithoutParts(field, c.delimiter);
      ReadPlace(c, before, field[..n]);
      FramesPush(c, before + field[..n], field[n]);
      CharsPush(field[..n], field[n]);
      assert field == field[..n] + [field[n]];
      assert (f.line.place + Chars(field[..n])) + [field[n].ch] == f.line.place + Chars(field);
    }
  }

  /** A line of three fields. */
  lemma ReadLine(c: Config, before: seq<Token>, key: seq<Token>, place: seq<Token>, value: seq<Token>)
    requires !c.summaries && Frames(c, before).phase.ParseKey? && Frames(c, before).line == NoLine()
    requires Without(key, c.delimiter) && Without(place, c.delimiter) && Without(value, 10)
    ensures var tab := [Token(c.delimiter, false)];
            Frames(c, before + (key + tab + place + tab + value + [Token(10, false)])) ==
            Frame(Frames(c, before).lines + [Line(Chars(key), Chars(place), Chars(Kept(value)))], ParseKey, NoLine())
  {
    hide Frames, Without, Chars, Kept;
    var tab, end := Token(c.delimiter, false), Token(10, false);
    var a := before + key;
    var b := a + [tab];
    var d := b + place;
    var e := d + [tab];
    var f := e + value;
    ReadKey(c, before, key);
    FramesPush(c, a, tab);
    ReadPlace(c, b, place);
    FramesPush(c, d, tab);
    ReadValue(c, e, value);
    FramesPush(c, f, end);
    var chars := Chars(Kept(value));
    assert [] + Chars(key) == Chars(key) && [] + Chars(place) == Chars(place) && [] + chars == chars;
    assert before + (key + [tab] + place + [tab] + value + [end]) == f + [end];
  }

  function Plain(text: Bytes): (r: seq<Token>)
    ensures |r| == |text|
  {
    seq(|text|, i requires 0 <= i < |text| => Token(text[i], false))
  }

  lemma {:induction false} PlainText(text: Bytes, unescape: bool)
    requires BACKSLASH !in text
    ensures Tokens(text, unescape) == (Plain(text), false)
  {
    if text != [] {
      var n := |text| - 1;
      PlainText(text[..n], unescape);
      assert Plain(text) == Plain(text[..n]) + [Token(text[n], false)];
    } else {
      assert Plain(text) == [];
    }
  }

  /** None of the characters that structure the input. */
  predicate IsPlain(c: Config, text: Bytes) {
    c.delimiter !in text && 92 !in text && 10 !in text && 13 !in text
  }

  lemma PlainField(c: Config, text: Bytes)
    requires IsPlain(c, text)
    ensures Without(Plain(text), c.delimiter) && Without(Plain(text), 10) && Without(Plain(text), 13)
    ensures Chars(Plain(text)) == text && Kept(Plain(text)) == Plain(text)
  {
    hide Kept;
    AllKept(Plain(text));
  }

  /** A line may end in a carriage return and a line feed: the carriage return is not part of the value. */
  lemma CarriageReturn(c: Config, key: Bytes, place: Bytes, value: Bytes)
    requires !c.summaries && c.delimiter != 92
    requires IsPlain(c, key) && IsPlain(c, place) && IsPlain(c, value)
    ensures var front := key + [c.delimiter] + place + [c.delimiter] + value;
            && ReadText(c, front + [10]).lines == [Line(key, place, value)]
            && ReadText(c, front + [13, 10]).lines == [Line(key, place, value)]
  {
    hide *;
    PlainLine(c, key, place, value, []);
    PlainLine(c, key, place, value, [13]);
    var front := key + [c.delimiter] + place + [c.delimiter] + value;
    assert front + [] + [10] == front + [10] && front + [13] + [10] == front + [13, 10];
  }

  lemma PlainLine(c: Config, key: Bytes, place: Bytes, value: Bytes, end: Bytes)
    requires !c.summaries && c.delimiter != 92 && (end == [] || end == [13])
    requires IsPlain(c, key) && IsPlain(c, place) && IsPlain(c, value)
    ensures ReadText(c, key + [c.delimiter] + place + [c.delimiter] + value + end + [10]).lines ==
            [Line(key, place, value)]
  {
    hide Frames, Tokens, Without, Chars, Kept;
    var text := key + [c.delimiter] + place + [c.delimiter] + value + end + [10];
    PlainText(text, c.unescape);
    PlainField(c, key);
    PlainField(c, place);
    PlainField(c, value);
    EndDropped(Plain(value), end);
    FramesPush(c, [], Token(0, false));
    ReadLine(c, [], Plain(key), Plain(place), Plain(value) + Plain(end));
    var tab := [Token(c.delimiter, false)];
    assert Plain(text) ==
           [] + (Plain(key) + tab + Plain(place) + tab + (Plain(value) + Plain(end)) + [Token(10, false)]);
  }

  lemma EndDropped(tokens: seq<Token>, end: Bytes)
    requires Without(tokens, 10) && Without(tokens, 13) && (end == [] || end == [13])
    ensures Without(tokens + Plain(end), 10) && Kept(tokens + Plain(end)) == tokens
  {
    AllKept(tokens);
    if end == [] {
      assert tokens + Plain(end) == tokens;
    } else {
      assert (tokens + Plain(end))[..|tokens|] == tokens && tokens + [] == tokens;
    }
  }

  /** The text "ab 1 2, a 1 3", with tabs between fields and two lines: both values are written under "a". */
  lemma ShrinkingExample(c: Config, offset: nat, two: Reading, three: Reading)
    requires !c.summaries && c.delimiter == TAB && c.locate([49]) == At(offset)
    requires c.read([50]) == Some(two) && c.read([51]) == Some(three)
    ensures var lines := ReadText(c, [97, 98, TAB, 49, TAB, 50, NEWLINE, 97, TAB, 49, TAB, 51, NEWLINE]).lines;
            var values := [Entry(offset, two.score, two.pct), Entry(offset, three.score, three.pct)];
            && Wanted(c, lines) == [([97, 98], values[0]), ([97], values[1])]
            && Groups(c, lines) == [Group([97], values)]
            && !NoShrinking(c, lines)
  {
    hide *;
    ExampleText(c);
    ExampleGroups(c, offset, two, three);
  }

  lemma ExampleText(c: Config)
    requires !c.summaries && c.delimiter == TAB
    ensures ReadText(c, [97, 98, TAB, 49, TAB, 50, NEWLINE, 97, TAB, 49, TAB, 51, NEWLINE]).lines ==
            [Line([97, 98], [49], [50]), Line([97], [49], [51])]
  {
    hide Frames, Tokens, Without, Kept, Chars;
    var tab, end := [Token(TAB, false)], [Token(NEWLINE, false)];
    var text: Bytes := [97, 98, TAB, 49, TAB, 50, NEWLINE, 97, TAB, 49, TAB, 51, NEWLINE];
    PlainText(text, c.unescape);
    var first := Plain([97, 98]) + tab + Plain([49]) + tab + Plain([50]) + end;
    var second := Plain([97]) + tab + Plain([49]) + tab + Plain([51]) + end;
    assert Plain(text) == first + second;
    PlainField(c, [97, 98]);
    PlainField(c, [97]);
    PlainField(c, [49]);
    PlainField(c, [50]);
    PlainField(c, [51]);
    FramesPush(c, [], Token(0, false));
    ReadLine(c, [], Plain([97, 98]), Plain([49]), Plain([50]));
    assert [] + first == first;
    ReadLine(c, first, Plain([97]), Plain([49]), Plain([51]));
  }

  lemma ExampleGroups(c: Config, offset: nat, two: Reading, three: Reading)
    requires !c.summaries && c.locate([49]) == At(offset)
    requires c.read([50]) == Some(two) && c.read([51]) == Some(three)
    ensures var lines := [Line([97, 98], [49], [50]), Line([97], [49], [51])];
            var values := [Entry(offset, two.score, two.pct), Entry(offset, three.score, three.pct)];
            && Wanted(c, lines) == [([97, 98], values[0]), ([97], values[1])]
            && Groups(c, lines) == [Group([97], values)]
            && !NoShrinking(c, lines)
  {
    hide Collect, LineEntry, IsPrefix;
    var first, second := Line([97, 98], [49], [50]), Line([97], [49], [51]);
    var lines := [first, second];
    var e, f := Entry(offset, two.score, two.pct), Entry(offset, three.score, three.pct);
    ExampleEntries(c, offset, two, three);
    assert lines[..1] == [first] && [first] + [second] == lines && [] + [first] == [first];
    RunPush(c, [], first);
    RunPush(c, [first], second);
    assert Collect(c, [first]) == Pending([97, 98], [e], []);
    assert [e] + [f] == [e, f];
    assert Collect(c, lines) == Pending([97], [e, f], []);
    assert Wanted(c, [first]) == [([97, 98], e)];
    assert HasPending(c, [first]);
  }

  lemma ExampleEntries(c: Config, offset: nat, two: Reading, three: Reading)
    requires !c.summaries && c.locate([49]) == At(offset)
    requires c.read([50]) == Some(two) && c.read([51]) == Some(three)
    ensures LineEntry(c, Line([97, 98], [49], [50])) == Some(Entry(offset, two.score, two.pct))
    ensures LineEntry(c, Line([97], [49], [51])) == Some(Entry(offset, three.score, three.pct))
    ensures IsPrefix([97], [97, 98])
  {
  }

  /** A row as a summary dump writes it. */
  function Written(row: Row): Bytes {
    Escaped(row.key) + [TAB] + Escaped(row.value) + [NEWLINE]
  }

  function WrittenAll(rows: seq<Row>): Bytes {
    if rows == [] then [] else WrittenAll(rows[..|rows| - 1]) + Written(rows[|rows| - 1])
  }

  function AsLines(rows: seq<Row>): (r: seq<Line>)
    ensures |r| == |rows|
  {
    seq(|rows|, i requires 0 <= i < |rows| => Line(rows[i].key, [], rows[i].value))
  }

  lemma QuotedField(text: Bytes)
    ensures Without(Quoted(text), TAB) && Without(Quoted(text), 10) && Kept(Quoted(text)) == Quoted(text)
    ensures Chars(Quoted(text)) == text
  {
    hide Kept;
    AllKept(Quoted(text));
  }

  lemma TokensOfWritten(row: Row)
    ensures Tokens(Written(row), true) ==
            (Quoted(row.key) + [Token(TAB, false)] + Quoted(row.value) + [Token(NEWLINE, false)], false)
  {
    hide Tokens, Quoted;
    TokensOfEscaped(row.key);
    TokensOfEscaped(row.value);
    TokensPush(Escaped(row.key), TAB, true);
    TokensAppend(Escaped(row.key) + [TAB], Escaped(row.value), true);
    TokensPush(Escaped(row.key) + [TAB] + Escaped(row.value), NEWLINE, true);
  }

  lemma ReadRow(c: Config, before: seq<Token>, row: Row)
    requires c.summaries && c.delimiter == TAB && Frames(c, before).phase.ParseKey?
             && Frames(c, before).line == NoLine()
    ensures Frames(c, before + (Quoted(row.key) + [Token(TAB, false)] + Quoted(row.value) + [Token(NEWLINE, false)])) ==
            Frame(Frames(c, before).lines + [Line(row.key, [], row.value)], ParseKey, NoLine())
  {
    hide Frames, Quoted, Without, Chars, Kept;
    var a := before + Quoted(row.key);
    var b := a + [Token(TAB, false)];
    var d := b + Quoted(row.value);
    QuotedField(row.key);
    QuotedField(row.value);
    ReadKey(c, before, Quoted(row.key));
    FramesPush(c, a, Token(TAB, false));
    ReadValue(c, b, Quoted(row.value));
    FramesPush(c, d, Token(NEWLINE, false));
    assert [] + row.key == row.key && [] + row.value == row.value;
    assert before + (Quoted(row.key) + [Token(TAB, false)] + Quoted(row.value) + [Token(NEWLINE, false)]) ==
           d + [Token(NEWLINE, false)];
  }

  /** Reading back escaped rows gives exactly those rows, whatever bytes they are made of. */
  lemma {:induction false} EscapeRoundTrip(c: Config, rows: seq<Row>)
    requires c.summaries && c.unescape && c.delimiter == TAB
    ensures !Tokens(WrittenAll(rows), true).1
    ensures ReadText(c, WrittenAll(rows)) == Frame(AsLines(rows), ParseKey, NoLine())
  {
    hide *;
    if rows == [] {
      NoRows(c, rows);
    } else {
      var n := |rows| - 1;
      LastRow(rows);
      EscapeRoundTrip(c, rows[..n]);
      TokensAppend(WrittenAll(rows[..n]), Written(rows[n]), true);
      TokensOfWritten(rows[n]);
      ReadIs(c, WrittenAll(rows[..n]));
      ReadIs(c, WrittenAll(rows));
      ReadRow(c, Tokens(WrittenAll(rows[..n]), true).0, rows[n]);
    }
  }

  lemma ReadIs(c: Config, text: Bytes)
    requires c.unescape
    ensures ReadText(c, text) == Frames(c, Tokens(text, true).0)
  {
  }

  lemma NoRows(c: Config, rows: seq<Row>)
    requires rows == [] && c.unescape
    ensures !Tokens(WrittenAll(rows), true).1
    ensures ReadText(c, WrittenAll(rows)) == Frame(AsLines(rows), ParseKey, NoLine())
  {
    NoTokens();
    FramesPush(c, [], Token(0, false));
    assert AsLines(rows) == [];
  }

  lemma LastRow(rows: seq<Row>)
    requires rows != []
    ensures var n := |rows| - 1;
            && WrittenAll(rows) == WrittenAll(rows[..n]) + Written(rows[n])
            && AsLines(rows) == AsLines(rows[..n]) + [Line(rows[n].key, [], rows[n].value)]
  {
    hide *;
    LastWritten(rows);
    LastLines(rows);
  }

  lemma LastLines(rows: seq<Row>)
    requires rows != []
    ensures var n := |rows| - 1; AsLines(rows) == AsLines(rows[..n]) + [Line(rows[n].key, [], rows[n].value)]
  {
    var n := |rows| - 1;
    var a, b := AsLines(rows), AsLines(rows[..n]) + [Line(rows[n].key, [], rows[n].value)];
    forall i | 0 <= i < |a| ensures a[i] == b[i] {
      assert i < n ==> rows[..n][i] == rows[i];
    }
  }

  lemma LastWritten(rows: seq<Row>)
    requires rows != []
    ensures WrittenAll(rows) == WrittenAll(rows[..|rows| - 1]) + Written(rows[|rows| - 1])
  {
    hide Written;
  }
}

/** The admin export: offset batches of a hundred rows, written until a batch comes back empty. */
module Exports {
  import opened Lists
  import opened Messages

  const BATCH := 100

  /** The optional time range of an export. */
  datatype Range = Range(from: Option<int>, to: Option<int>)

  predicate Within(r: Range, created: int) {
    (r.from.Some? ==> created >= r.from.value) && (r.to.Some? ==> created <= r.to.value)
  }

  function Wanted(r: Range): Message -> bool { (m: Message) => !m.deleted && Within(r, m.created) }

  /** The chat's rows the query selects, in seq order. */
  function Matching(rows: seq<Message>, r: Range): (s: seq<Message>)
    ensures forall m :: m in s <==> m in rows && !m.deleted && Within(r, m.created)
  {
    Filter(rows, Wanted(r))
  }

  /** LIMIT and OFFSET. */
  function Window<T>(s: seq<T>, limit: nat, offset: nat): seq<T> {
    s[Min(offset, |s|)..Min(offset + limit, |s|)]
  }

  /** A line of CSV output, its quoting aside; and a line of JSON. */
  datatype Line =
    | Header
    | Csv(id: Id, num: nat, text: Text, user: UserId, created: int)
    | Json(message: Message)

  function CsvOf(m: Message): Line { Csv(m.id, m.num, m.text, m.user, m.created) }

  function CsvLines(ms: seq<Message>): (r: seq<Line>)
    ensures |r| == |ms| && forall i :: 0 <= i < |ms| ==> r[i] == CsvOf(ms[i])
  {
    seq(|ms|, i requires 0 <= i < |ms| => CsvOf(ms[i]))
  }

  function JsonLines(ms: seq<Message>): (r: seq<Line>)
    ensures |r| == |ms| && forall i :: 0 <= i < |ms| ==> r[i] == Json(ms[i])
  {
    seq(|ms|, i requires 0 <= i < |ms| => Json(ms[i]))
  }

  /** What should come out: every live message of the range once, in order of its number. */
  lemma MatchingExact(rows: seq<Message>, r: Range)
    requires Numbered(rows)
    ensures Ascending(Matching(rows, r))
    ensures forall m :: m in Matching(rows, r) <==>
              && m in rows && !m.deleted
              && (r.from.Some? ==> r.from.value <= m.created) && (r.to.Some? ==> m.created <= r.to.value)
    ensures forall i, j {:trigger Matching(rows, r)[i].id, Matching(rows, r)[j].id} ::
      0 <= i < j < |Matching(rows, r)| ==> Matching(rows, r)[i].id != Matching(rows, r)[j].id
  {
    var s := Matching(rows, r);
    FilterAscending(rows, Wanted(r));
    forall i, j | 0 <= i < j < |s| ensures s[i].id != s[j].id {
      assert s[i] in rows && s[j] in rows && s[i].num < s[j].num;
      assert rows[s[i].num - 1] == s[i] && rows[s[j].num - 1] == s[j];
    }
  }

  /** One more batch after the first `offset` messages. */
  lemma WindowExtends<T>(s: seq<T>, offset: nat)
    ensures Take(s, offset) + Window(s, BATCH, offset) == Take(s, offset + BATCH)
    ensures Window(s, BATCH, offset) == [] <==> |s| <= offset
  {
  }

  /** The query of one export, on a table that does not change while it is read. */
  class MessageReader {
    const selection: seq<Message>

    constructor (rows: seq<Message>, r: Range)
      ensures selection == Matching(rows, r)
    {
      selection := Matching(rows, r);
    }

    method GetByChatRange(limit: nat, offset: nat) returns (msgs: seq<Message>)
      ensures msgs == Window(selection, limit, offset)
    {
      var result := Window(selection, limit, offset);
      msgs := [];
      for i := 0 to |result|
        invariant msgs == result[..i]
      {
        msgs := msgs + [result[i]];
      }
    }
  }

  lemma LinesGrow(ms: seq<Message>, more: seq<Message>)
    ensures CsvLines(ms + more) == CsvLines(ms) + CsvLines(more)
    ensures JsonLines(ms + more) == JsonLines(ms) + JsonLines(more)
  {
  }

  lemma HeaderFirst(lines: seq<Line>, more: seq<Line>)
    ensures ([Header] + lines) + more == [Header] + (lines + more)
  {
  }

  /** The rows of one batch. */
  method WriteCsv(batch: seq<Message>) returns (lines: seq<Line>)
    ensures lines == CsvLines(batch)
  {
    lines := [];
    for i := 0 to |batch|
      invariant lines == CsvLines(batch[..i])
    {
      lines := lines + [CsvOf(batch[i])];
    }
    assert batch[..|batch|] == batch;
  }

  method WriteJson(batch: seq<Message>) returns (lines: seq<Line>)
    ensures lines == JsonLines(batch)
  {
    lines := [];
    for i := 0 to |batch|
      invariant lines == JsonLines(batch[..i])
    {
      lines := lines + [Json(batch[i])];
    }
    assert batch[..|batch|] == batch;
  }

  /** The header, then every selected message once, in order, however many there are. */
  method ExportCsv(messages: MessageReader) returns (out: seq<Line>)
    ensures out == [Header] + CsvLines(messages.selection)
    ensures var ms := messages.selection;
      && |out| == 1 + |ms| && out[0] == Header
      && forall k {:trigger ms[k]} :: 0 <= k < |ms| ==>
           out[1 + k] == Csv(ms[k].id, ms[k].num, ms[k].text, ms[k].user, ms[k].created)
  {
    out := [Header];
    ghost var all := messages.selection;
    var offset := 0;
    while true
      invariant offset >= 0 && out == [Header] + CsvLines(Take(all, offset))
      decreases |all| - offset
    {
      var batch := messages.GetByChatRange(BATCH, offset);
      WindowExtends(all, offset);
      if |batch| == 0 { break; }
      var lines := WriteCsv(batch);
      LinesGrow(Take(all, offset), batch);
      HeaderFirst(CsvLines(Take(all, offset)), lines);
      out := out + lines;
      offset := offset + BATCH;
    }
  }

  method ExportNdjson(messages: MessageReader) returns (out: seq<Line>)
    ensures out == JsonLines(messages.selection)
    ensures |out| == |messages.selection| && forall k :: 0 <= k < |out| ==> out[k] == Json(messages.selection[k])
  {
    out := [];
    ghost var all := messages.selection;
    var offset := 0;
    while true
      invariant offset >= 0 && out == JsonLines(Take(all, offset))
      decreases |all| - offset
    {
      var batch := messages.GetByChatRange(BATCH, offset);
      WindowExtends(all, offset);
      if |batch| == 0 { break; }
      LinesGrow(Take(all, offset), batch);
      var lines := WriteJson(batch);
      out := out + lines;
      offset := offset + BATCH;
    }
  }

  // --- a table that changes meanwhile -------------------------------------------------------------------

  /** What is written when batch `k` is cut from `selections[k]`, what the query selects by then. */
  function Written<T>(selections: seq<seq<T>>, offset: nat): seq<T>
    decreases |selections|
  {
    if selections == [] || |selections[0]| <= offset then []
    else Window(selections[0], BATCH, offset) + Written(selections[1..], offset + BATCH)
  }

  /** The reads reach an empty batch. */
  predicate Ended<T>(selections: seq<seq<T>>, offset: nat)
    decreases |selections|
  {
    selections != [] && (|selections[0]| <= offset || Ended(selections[1..], offset + BATCH))
  }

  /** Some batch was short, and by the next read the selection had grown past the next offset. */
  predicate Overtaken<T>(selections: seq<seq<T>>, offset: nat)
    decreases |selections|
  {
    |selections| > 1 && |selections[0]| > offset
    && ((|selections[0]| < offset + BATCH < |selections[1]|) || Overtaken(selections[1..], offset + BATCH))
  }

  /** From one read to the next the selection only gets longer at its end. */
  predicate OnlyAppends<T(==)>(selections: seq<seq<T>>)
    decreases |selections|
  {
    |selections| <= 1 || (selections[0] <= selections[1] && OnlyAppends(selections[1..]))
  }

  ghost predicate NoRepeats<T>(all: seq<T>) {
    forall i, k {:trigger all[i], all[k]} :: 0 <= i < k < |all| ==> all[i] != all[k]
  }

  lemma {:induction false} LastExtends<T>(selections: seq<seq<T>>)
    requires selections != [] && OnlyAppends(selections)
    ensures selections[0] <= selections[|selections| - 1]
    decreases |selections|
  {
    if |selections| > 1 {
      LastExtends(selections[1..]);
    }
  }

  lemma JoinsOn<T>(last: seq<T>, offset: nat, now: seq<T>, more: seq<T>)
    requires now <= last && offset + BATCH <= |now|
    ensures last[..offset] + (Window(now, BATCH, offset) + more) == last[..offset + BATCH] + more
  {
    assert last[..offset] + Window(now, BATCH, offset) == last[..offset + BATCH];
  }

  /** What a short batch leads to: nothing more, or messages from too far on. */
  lemma ShortBatch<T>(selections: seq<seq<T>>, offset: nat)
    requires OnlyAppends(selections) && Ended(selections, offset) && offset < |selections[0]| < offset + BATCH
    ensures var last, more := selections[|selections| - 1], Written(selections[1..], offset + BATCH);
      && Written(selections, offset) == selections[0][offset..] + more
      && (more == [] <==> !Overtaken(selections, offset))
      && (more != [] ==> offset + BATCH < |last| && more[0] == last[offset + BATCH])
  {
    LastExtends(selections[1..]);
  }

  lemma Misplaced<T>(now: seq<T>, last: seq<T>, more: seq<T>, at: nat)
    requires NoRepeats(last) && |now| < at < |last| && more != [] && more[0] == last[at]
    ensures !(now + more <= last)
  {
    assert (now + more)[|now|] == last[at] != last[|now|];
  }

  lemma Resume<T>(last: seq<T>, now: seq<T>, offset: nat, more: seq<T>)
    requires now <= last && offset <= |now|
    ensures last[..offset] + (now[offset..] + more) == now + more
  {
  }

  /**
   * While messages are only added, a finished export has written a beginning of the final selection,
   * nothing twice, exactly when no short batch was overtaken by new messages; it then has everything
   * that was there at the start.
   */
  lemma {:induction false} AppendsExportedExactly<T>(selections: seq<seq<T>>, offset: nat)
    requires OnlyAppends(selections) && Ended(selections, offset) && offset <= |selections[0]|
    requires NoRepeats(selections[|selections| - 1])
    ensures var last := selections[|selections| - 1];
      && offset <= |last|
      && (last[..offset] + Written(selections, offset) <= last <==> !Overtaken(selections, offset))
      && (!Overtaken(selections, offset) ==> selections[0] <= last[..offset] + Written(selections, offset))
    decreases |selections|
  {
    LastExtends(selections);
    var now, last := selections[0], selections[|selections| - 1];
    if |now| <= offset {
      assert last[..offset] + [] == last[..offset];
    } else if |now| < offset + BATCH {
      var more := Written(selections[1..], offset + BATCH);
      ShortBatch(selections, offset);
      Resume(last, now, offset, more);
      if more != [] {
        Misplaced(now, last, more, offset + BATCH);
      }
    } else {
      AppendsExportedExactly(selections[1..], offset + BATCH);
      JoinsOn(last, offset, now, Written(selections[1..], offset + BATCH));
    }
  }

  /** What the query selects at each read. */
  function Selections(tables: seq<seq<Message>>, r: Range): (s: seq<seq<Message>>)
    ensures |s| == |tables| && forall i :: 0 <= i < |s| ==> s[i] == Matching(tables[i], r)
  {
    seq(|tables|, i requires 0 <= i < |tables| => Matching(tables[i], r))
  }

  /** From one read to the next messages were only sent. */
  predicate OnlySends(tables: seq<seq<Message>>)
    decreases |tables|
  {
    |tables| <= 1 || (tables[0] <= tables[1] && OnlySends(tables[1..]))
  }

  /** New messages join the selection at its end or not at all. */
  lemma SendsAppend(rows: seq<Message>, later: seq<Message>, r: Range)
    requires rows <= later
    ensures Matching(rows, r) <= Matching(later, r)
  {
    assert later == rows + later[|rows|..];
    FilterConcat(rows, later[|rows|..], Wanted(r));
  }

  lemma {:induction false} SendsOnlyAppend(tables: seq<seq<Message>>, r: Range)
    requires OnlySends(tables)
    ensures OnlyAppends(Selections(tables, r))
    decreases |tables|
  {
    if |tables| > 1 {
      SendsAppend(tables[0], tables[1], r);
      SendsOnlyAppend(tables[1..], r);
      assert Selections(tables, r)[1..] == Selections(tables[1..], r);
    }
  }

  lemma FromTheStart<T>(selections: seq<seq<T>>)
    requires OnlyAppends(selections) && Ended(selections, 0) && NoRepeats(selections[|selections| - 1])
    ensures Written(selections, 0) <= selections[|selections| - 1] <==> !Overtaken(selections, 0)
  {
    AppendsExportedExactly(selections, 0);
    assert selections[|selections| - 1][..0] + Written(selections, 0) == Written(selections, 0);
  }

  lemma MatchingOnce(rows: seq<Message>, r: Range)
    requires Numbered(rows)
    ensures NoRepeats(Matching(rows, r))
  {
    MatchingExact(rows, r);
  }

  /** The export of a chat in which messages are only sent meanwhile. */
  lemma GrowingTableExactly(tables: seq<seq<Message>>, r: Range)
    requires OnlySends(tables) && tables != [] && Numbered(tables[|tables| - 1])
    requires Ended(Selections(tables, r), 0)
    ensures var selections := Selections(tables, r);
      Written(selections, 0) <= Matching(tables[|tables| - 1], r) <==> !Overtaken(selections, 0)
  {
    SendsOnlyAppend(tables, r);
    MatchingOnce(tables[|tables| - 1], r);
    FromTheStart(Selections(tables, r));
  }

  /** An overtaken export: `k` messages at the first read, and more than a batch by the second; message `k` is lost. */
  lemma OvertakenSkips<T>(all: seq<T>, k: nat)
    requires NoRepeats(all) && 0 < k < 100 < |all| <= 200
    ensures var selections := [all[..k], all, all];
      && OnlyAppends(selections) && Ended(selections, 0) && Overtaken(selections, 0)
      && Written(selections, 0) == all[..k] + all[100..] && all[k] !in Written(selections, 0)
  {
    var selections := [all[..k], all, all];
    assert selections[1..] == [all, all] && selections[1..][1..] == [all];
    assert Written([all, all], BATCH) == all[BATCH..] + Written([all], 2 * BATCH);
    assert all[k] !in all[..k] && all[k] !in all[BATCH..];
  }

  /** A deleted message leaves a gap that everything behind it moves up to fill. */
  lemma DeletionCuts(rows: seq<Message>, i: nat, r: Range) returns (j: nat)
    requires i < |rows| && !rows[i].deleted && Within(r, rows[i].created)
    ensures var s := Matching(rows, r);
      j < |s| && s[j] == rows[i] && Matching(rows[i := rows[i].(deleted := true)], r) == s[..j] + s[j + 1..]
  {
    var gone, front, back := rows[i].(deleted := true), Matching(rows[..i], r), Matching(rows[i + 1..], r);
    assert rows == rows[..i] + [rows[i]] + rows[i + 1..];
    assert rows[i := gone] == rows[..i] + [gone] + rows[i + 1..];
    SelectAround(rows[..i], rows[i], rows[i + 1..], r);
    SelectAround(rows[..i], gone, rows[i + 1..], r);
    j := |front|;
    CutBetween(front, rows[i], back);
  }

  lemma CutBetween(a: seq<Message>, m: Message, b: seq<Message>)
    ensures (a + [m] + b)[..|a|] == a && (a + [m] + b)[|a|] == m && (a + [m] + b)[|a| + 1..] == b
    ensures a + [] + b == a + b
  {
  }

  lemma SelectOne(m: Message, r: Range)
    ensures Matching([m], r) == if !m.deleted && Within(r, m.created) then [m] else []
  {
    assert [m][1..] == [];
  }

  lemma SelectAround(a: seq<Message>, m: Message, b: seq<Message>, r: Range)
    ensures Matching(a + [m] + b, r) ==
      Matching(a, r) + (if !m.deleted && Within(r, m.created) then [m] else []) + Matching(b, r)
  {
    SelectOne(m, r);
    FilterConcat(a + [m], b, Wanted(r));
    FilterConcat(a, [m], Wanted(r));
  }

  /** Some reads of one selection, then others that find nothing beyond its end. */
  lemma {:induction false} SameReads<T>(all: seq<T>, p: nat, later: seq<seq<T>>, offset: nat)
    requires offset <= |all| && forall o: nat :: o >= |all| ==> Written(later, o) == []
    ensures Written(seq(p, k => all) + later, offset) ==
      if offset + p * BATCH <= |all| then all[offset..offset + p * BATCH] + Written(later, offset + p * BATCH)
      else all[offset..]
    decreases p
  {
    var runs := seq(p, k => all) + later;
    if p == 0 {
      assert runs == later;
      assert all[offset..offset] + Written(later, offset) == Written(later, offset);
    } else {
      var rest := seq(p - 1, k => all) + later;
      assert runs[0] == all && runs[1..] == rest;
      if offset + BATCH <= |all| {
        SameReads(all, p - 1, later, offset + BATCH);
        TwoParts(all, offset, p, Written(later, offset + p * BATCH));
      } else {
        assert p == 1 ==> rest == later;
        LastRead(all, runs, rest, offset);
      }
    }
  }

  lemma LastRead<T>(all: seq<T>, runs: seq<seq<T>>, rest: seq<seq<T>>, offset: nat)
    requires runs != [] && runs[0] == all && runs[1..] == rest && offset <= |all| < offset + BATCH
    requires Written(rest, offset + BATCH) == []
    ensures Written(runs, offset) == all[offset..]
  {
    assert offset < |all| ==> Window(all, BATCH, offset) + [] == all[offset..];
  }

  lemma TwoParts<T>(all: seq<T>, offset: nat, p: nat, more: seq<T>)
    requires p > 0 && offset + BATCH <= |all|
    ensures offset + p * BATCH <= |all| ==>
      Window(all, BATCH, offset) + (all[offset + BATCH..offset + p * BATCH] + more)
        == all[offset..offset + p * BATCH] + more
    ensures Window(all, BATCH, offset) + all[offset + BATCH..] == all[offset..]
  {
  }

  /** What comes out when message `j` goes after `p` reads: the hole swallows the message at the next offset. */
  lemma WrittenAround<T>(all: seq<T>, j: nat, p: nat, n: nat)
    requires j < |all| <= (p + n) * BATCH && p > 0
    ensures var cut, offset := all[..j] + all[j + 1..], p * BATCH;
      Written(seq(p, k => all) + seq(n, k => cut), 0) == if offset < |all| then all[..offset] + cut[offset..] else all
  {
    var cut, offset := all[..j] + all[j + 1..], p * BATCH;
    var later := seq(n, k => cut);
    SameReads(all, p, later, 0);
    if offset < |all| {
      SameReads(cut, n, [], offset);
      assert later + [] == later;
      assert all[0..offset] == all[..offset];
    } else {
      assert all[0..] == all && all[..|all|] + [] == all;
    }
  }

  /**
   * Offset batches are exact only for a table that stands still. One deletion between two reads, all
   * else unchanged: a message that stays is lost exactly when the deleted one lies before the next
   * offset, and it is the one that stood at that offset.
   */
  lemma DeletionSkipsExactly<T>(all: seq<T>, j: nat, p: nat, n: nat, x: T)
    requires NoRepeats(all) && j < |all| <= (p + n) * BATCH && p > 0
    requires x in all[..j] + all[j + 1..]
    ensures x !in Written(seq(p, k => all) + seq(n, k => all[..j] + all[j + 1..]), 0) <==>
      j < p * 100 < |all| && x == all[p * 100]
  {
    var cut, offset := all[..j] + all[j + 1..], p * BATCH;
    WrittenAround(all, j, p, n);
    var i :| 0 <= i < |cut| && cut[i] == x;
    var at := if i < j then i else i + 1;
    assert all[at] == x;
    if offset < |all| {
      var w := all[..offset] + cut[offset..];
      if j < offset && at == offset {
        forall k | 0 <= k < |w| ensures w[k] != x {
          assert w[k] == all[if k < offset then k else k + 1];
        }
      } else if at < offset {
        assert w[at] == x;
      } else {
        assert w[i] == x;
      }
    }
  }
}

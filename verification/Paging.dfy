/** Listing messages page by page, newest page first, while others send and delete. */
module Paging {
  import opened Lists
  import opened Messages
  import opened Merging

  const DEFAULT_LIMIT := 50
  const MAX_LIMIT := 100

  /** GET messages with `before`, with `after`, or with neither. */
  function PageOf(rows: seq<Message>, after: int, before: int, limit: nat): seq<Message> {
    if before > 0 then Suffix(LiveBefore(rows, before), Min(limit, MAX_LIMIT))
    else if after > 0 then Take(LiveAfter(rows, after), Min(limit, MAX_LIMIT))
    else Suffix(Live(rows), Min(limit, MAX_LIMIT))
  }

  // --- the queries and their in-place reversal -----------------------------------------------------

  lemma ReverseTake<T>(s: seq<T>, n: nat)
    ensures Reverse(Take(Reverse(s), n)) == Suffix(s, n)
  {
    var r := Reverse(s);
    var t := Take(r, n);
    ReversedIs(r, t, Reverse(t), s);
  }

  lemma ReversedIs<T>(r: seq<T>, t: seq<T>, back: seq<T>, s: seq<T>)
    requires |r| == |s| && forall i :: 0 <= i < |s| ==> r[i] == s[|s| - 1 - i]
    requires |back| == |t| && forall i :: 0 <= i < |t| ==> back[i] == t[|t| - 1 - i]
    requires t <= r
    ensures back == s[|s| - |t|..]
  {
    forall i | 0 <= i < |t| ensures back[i] == s[|s| - |t| + i] {
      assert t[|t| - 1 - i] == r[|t| - 1 - i];
    }
  }

  method ReverseInPlace(a: array<Message>)
    modifies a
    ensures a[..] == Reverse(old(a[..]))
  {
    ghost var was := a[..];
    var i, j := 0, a.Length - 1;
    while i < j
      invariant 0 <= i <= a.Length && j == a.Length - 1 - i && i <= j + 1
      invariant forall k {:trigger a[k]} :: 0 <= k < a.Length ==>
        a[k] == if k < i || j < k then was[a.Length - 1 - k] else was[k]
    {
      a[i], a[j] := a[j], a[i];
      i, j := i + 1, j - 1;
    }
  }

  /** Scanning a result set into a slice. */
  method Scan(rows: seq<Message>) returns (msgs: array<Message>)
    ensures fresh(msgs) && msgs[..] == rows
  {
    msgs := new Message[|rows|];
    for i := 0 to |rows|
      invariant msgs[..i] == rows[..i]
    {
      msgs[i] := rows[i];
      assert msgs[..i + 1] == rows[..i] + [rows[i]];
    }
    assert msgs[..] == msgs[..|rows|] && rows[..|rows|] == rows;
  }

  method GetByChatIDBeforeSeq(rows: seq<Message>, before: int, limit: nat) returns (msgs: array<Message>)
    ensures fresh(msgs) && msgs[..] == Suffix(LiveBefore(rows, before), limit)
  {
    msgs := Scan(Take(Reverse(LiveBefore(rows, before)), limit));
    ReverseInPlace(msgs);
    ReverseTake(LiveBefore(rows, before), limit);
  }

  method GetByChatIDAfterSeq(rows: seq<Message>, after: int, limit: nat) returns (msgs: array<Message>)
    ensures fresh(msgs) && msgs[..] == Take(LiveAfter(rows, after), limit)
  {
    msgs := Scan(Take(LiveAfter(rows, after), limit));
  }

  method ListMessages(rows: seq<Message>, limit: nat) returns (msgs: array<Message>)
    ensures fresh(msgs) && msgs[..] == Suffix(Live(rows), if limit > 100 then 100 else limit)
  {
    var capped := if limit > MAX_LIMIT then MAX_LIMIT else limit;
    msgs := Scan(Take(Reverse(Live(rows)), capped));
    ReverseInPlace(msgs);
    ReverseTake(Live(rows), capped);
  }

  /** The list handler. A missing, unreadable or non-positive limit is the default one. */
  method List(rows: seq<Message>, after: int, before: int, limitArg: Option<int>)
    returns (msgs: array<Message>, hasMore: bool)
    ensures fresh(msgs)
    ensures msgs[..] == PageOf(rows, after, before, LimitOf(limitArg))
    ensures hasMore <==> msgs.Length == (if limitArg.Some? && limitArg.value > 0 then limitArg.value else 50)
  {
    var limit: nat := DEFAULT_LIMIT;
    if limitArg.Some? && limitArg.value > 0 {
      limit := limitArg.value;
    }
    if before > 0 {
      msgs := GetByChatIDBeforeSeq(rows, before, if limit > MAX_LIMIT then MAX_LIMIT else limit);
    } else if after > 0 {
      msgs := GetByChatIDAfterSeq(rows, after, if limit > MAX_LIMIT then MAX_LIMIT else limit);
    } else {
      msgs := ListMessages(rows, limit);
    }
    hasMore := msgs.Length == limit;
  }

  function LimitOf(arg: Option<int>): (limit: nat)
    ensures limit >= 1
  {
    if arg.Some? && arg.value > 0 then arg.value else DEFAULT_LIMIT
  }

  /** What a page is cut from: the live rows below `before`, or all of them. */
  function Candidates(rows: seq<Message>, before: int): seq<Message> {
    if before > 0 then LiveBefore(rows, before) else Live(rows)
  }

  /** `has_more` = false promises nothing older, for exactly the limits up to 100 or the short histories. */
  lemma HasMoreSoundExactly(rows: seq<Message>, before: int, limit: nat)
    requires limit >= 1 && Numbered(rows)
    ensures var page := PageOf(rows, 0, before, limit);
      (|page| != limit ==> forall m :: m in Candidates(rows, before) ==> m in page)
      <==> (limit <= 100 || |Candidates(rows, before)| <= 100)
  {
    ReadIsRows(rows, OlderThan(before));
    ReadIsRows(rows, NotDeleted());
    CutLosesExactly(Candidates(rows, before), PageOf(rows, 0, before, limit), limit);
  }

  /** A list cut to its newest `limit`, at most a hundred, misses something unseen by `limit` only above a hundred. */
  lemma CutLosesExactly(older: seq<Message>, page: seq<Message>, limit: nat)
    requires Ascending(older) && limit >= 1 && page == Suffix(older, Min(limit, MAX_LIMIT))
    ensures (|page| != limit ==> forall m :: m in older ==> m in page) <==> (limit <= MAX_LIMIT || |older| <= MAX_LIMIT)
  {
    if limit <= MAX_LIMIT || |older| <= MAX_LIMIT {
      if |page| != limit {
        assert page == older;
      }
    } else {
      assert |page| != limit;
      assert older[0] in older;
      assert page == older[|older| - MAX_LIMIT..];
      forall k | 0 <= k < |page| ensures page[k].num > older[0].num {
        assert page[k] == older[|older| - MAX_LIMIT + k];
      }
      assert older[0] !in page;
    }
  }

  // --- paging under writes ---------------------------------------------------------------------------

  /** The table some sends, edits and soft deletes later. */
  ghost predicate Later(a: seq<Message>, b: seq<Message>) {
    && |a| <= |b|
    && forall i :: 0 <= i < |a| ==> SameOrigin(a[i], b[i]) && (a[i].deleted ==> b[i].deleted)
  }

  ghost predicate History(tables: seq<seq<Message>>)
    decreases |tables|
  {
    && tables != [] && Numbered(tables[0])
    && (|tables| > 1 ==> Later(tables[0], tables[1]) && History(tables[1..]))
  }

  /** One page of `limit` below `before`; the newest page when `before` is zero. */
  function OnePage(rows: seq<Message>, before: int, limit: nat): seq<Message> {
    PageOf(rows, 0, before, limit)
  }

  /** Pages prepended one after the other, each read from the next table, until a short one. */
  function Scroll(tables: seq<seq<Message>>, before: int, limit: nat): seq<Message>
    decreases |tables|
  {
    if tables == [] then [] else
      var page := OnePage(tables[0], before, limit);
      if |page| != limit || page == [] then page else Scroll(tables[1..], page[0].num, limit) + page
  }

  /** Scrolling met a short page within these reads. */
  predicate Finished(tables: seq<seq<Message>>, before: int, limit: nat)
    decreases |tables|
  {
    tables != [] &&
      var page := OnePage(tables[0], before, limit);
      |page| != limit || page == [] || Finished(tables[1..], page[0].num, limit)
  }

  function Bound(rows: seq<Message>, before: int): int {
    if before > 0 then before else |rows| + 1
  }

  /** A page: live rows below `bound`, the newest ones when it is full, all of them when it is not. */
  ghost predicate PageFacts(rows: seq<Message>, page: seq<Message>, bound: int, limit: nat) {
    && Numbered(rows) && RowsOf(rows, page) && |page| <= limit
    && (forall m :: m in page ==> m.num < bound)
    && (forall i {:trigger rows[i]} :: 0 <= i < |rows| && i + 1 < bound && !rows[i].deleted ==>
          rows[i] in page || (page != [] && |page| == limit && i + 1 < page[0].num))
  }

  lemma CutFacts(rows: seq<Message>, all: seq<Message>, bound: int, limit: nat)
    requires RowsOf(rows, all) && limit >= 1
    requires forall m :: m in all ==> m.num < bound
    requires forall i :: 0 <= i < |rows| && i + 1 < bound && !rows[i].deleted ==> rows[i] in all
    requires Numbered(rows)
    ensures PageFacts(rows, Suffix(all, limit), bound, limit)
  {
    var page := Suffix(all, limit);
    CutIsRows(rows, all, limit);
    HeadIsMember(page);
    forall i | 0 <= i < |rows| && i + 1 < bound && !rows[i].deleted
      ensures rows[i] in page || (page != [] && |page| == limit && i + 1 < page[0].num)
    {
      SuffixComplete(all, limit, rows[i]);
    }
  }

  lemma OnePageFacts(rows: seq<Message>, before: int, limit: nat)
    requires Numbered(rows) && 1 <= limit <= MAX_LIMIT && before >= 0
    ensures PageFacts(rows, OnePage(rows, before, limit), Bound(rows, before), limit)
  {
    if before > 0 {
      ReadIsRows(rows, OlderThan(before));
      CutFacts(rows, LiveBefore(rows, before), before, limit);
    } else {
      ReadIsRows(rows, NotDeleted());
      NewestFacts(rows);
      CutFacts(rows, Live(rows), |rows| + 1, limit);
    }
  }

  /** The rows after a number: the oldest ones when the page is full, all of them when it is not. */
  lemma AfterFacts(rows: seq<Message>, all: seq<Message>, after: int, limit: nat)
    requires Numbered(rows) && all == LiveAfter(rows, after)
    ensures var page := Take(all, limit);
      && RowsOf(rows, page) && |page| <= limit && (forall m :: m in page ==> after < m.num)
      && (forall i {:trigger rows[i]} :: 0 <= i < |rows| && after <= i && !rows[i].deleted ==>
            rows[i] in page || (|page| == limit && forall m :: m in page ==> m.num <= i))
  {
    var page := Take(all, limit);
    ReadIsRows(rows, NewerThan(after));
    CutIsRows(rows, all, limit);
    forall m | m in page ensures after < m.num {
      assert m in all;
    }
    forall i | 0 <= i < |rows| && after <= i && !rows[i].deleted
      ensures rows[i] in page || (|page| == limit && forall m :: m in page ==> m.num <= i)
    {
      assert rows[i] in all;
      TakeComplete(all, limit, rows[i]);
    }
  }

  /**
   * Which messages a list request returns, at most a hundred: below `before` the newest, above
   * `after` the oldest, with neither the newest of all; `before` wins over `after`.
   */
  lemma PageMeans(rows: seq<Message>, after: int, before: int, limit: nat)
    requires Numbered(rows) && limit >= 1
    ensures var page, n := PageOf(rows, after, before, limit), if limit < 100 then limit else 100;
      if before > 0 || after <= 0 then
        PageFacts(rows, page, if before > 0 then before else |rows| + 1, n)
      else
        && RowsOf(rows, page) && |page| <= n && (forall m :: m in page ==> after < m.num)
        && (forall i {:trigger rows[i]} :: 0 <= i < |rows| && after <= i && !rows[i].deleted ==>
              rows[i] in page || (|page| == n && forall m :: m in page ==> m.num <= i))
  {
    if before > 0 {
      ReadIsRows(rows, OlderThan(before));
      CutFacts(rows, LiveBefore(rows, before), before, Min(limit, MAX_LIMIT));
    } else if after > 0 {
      AfterFacts(rows, LiveAfter(rows, after), after, Min(limit, MAX_LIMIT));
    } else {
      ReadIsRows(rows, NotDeleted());
      NewestFacts(rows);
      CutFacts(rows, Live(rows), |rows| + 1, Min(limit, MAX_LIMIT));
    }
  }

  lemma NewestFacts(rows: seq<Message>)
    requires Numbered(rows) && RowsOf(rows, Live(rows))
    ensures forall m :: m in Live(rows) ==> m.num < |rows| + 1
    ensures forall i :: 0 <= i < |rows| && !rows[i].deleted ==> rows[i] in Live(rows)
  {
    forall m | m in Live(rows) ensures m.num < |rows| + 1 {
      assert IsRow(rows, m);
    }
  }

  lemma {:induction false} LastLater(tables: seq<seq<Message>>)
    requires History(tables)
    ensures Later(tables[0], tables[|tables| - 1]) && Numbered(tables[|tables| - 1])
    decreases |tables|
  {
    if |tables| > 1 {
      LastLater(tables[1..]);
    }
  }

  ghost predicate HasNum(all: seq<Message>, num: int) {
    exists m :: m in all && m.num == num
  }

  /** One ascending list of rows below `bound`, with every row among the first `n` still live in `end`. */
  ghost predicate Covers(all: seq<Message>, end: seq<Message>, n: nat, bound: int) {
    && Ascending(all)
    && (forall m :: m in all ==> 1 <= m.num < bound && m.num <= |end| && SameOrigin(m, end[m.num - 1]))
    && (forall num {:trigger HasNum(all, num)} ::
          1 <= num <= n && num <= |end| && num < bound && !end[num - 1].deleted ==> HasNum(all, num))
  }

  lemma PageCovers(rows: seq<Message>, page: seq<Message>, end: seq<Message>, bound: int, limit: nat)
    requires PageFacts(rows, page, bound, limit) && Later(rows, end)
    ensures forall m :: m in page ==> 1 <= m.num < bound && m.num <= |end| && SameOrigin(m, end[m.num - 1])
    ensures |page| != limit ==> Covers(page, end, |rows|, bound)
  {
    forall m | m in page ensures m.num <= |end| && SameOrigin(m, end[m.num - 1]) {
      assert IsRow(rows, m);
    }
    if |page| != limit {
      forall num | 1 <= num <= |rows| && num <= |end| && num < bound && !end[num - 1].deleted
        ensures HasNum(page, num)
      {
        assert !rows[num - 1].deleted;
        assert rows[num - 1] in page;
      }
    }
  }

  /** Prepending what the older reads gave to a full page. */
  lemma JoinCovers(
    rows: seq<Message>, page: seq<Message>, older: seq<Message>, end: seq<Message>, bound: int, limit: nat, n: nat)
    requires PageFacts(rows, page, bound, limit) && Later(rows, end) && |page| == limit >= 1
    requires Covers(older, end, n, page[0].num) && |rows| <= n
    ensures Covers(older + page, end, |rows|, bound)
  {
    var all := older + page;
    PageCovers(rows, page, end, bound, limit);
    assert page[0] in page;
    AscendingJoin(older, page, page[0].num);
    forall num | 1 <= num <= |rows| && num <= |end| && num < bound && !end[num - 1].deleted
      ensures HasNum(all, num)
    {
      assert !rows[num - 1].deleted;
      if rows[num - 1] in page {
        assert rows[num - 1] in all;
      } else {
        assert HasNum(older, num);
        var m :| m in older && m.num == num;
        assert m in all;
      }
    }
  }

  /** The reads after a full page: the same histories, one table shorter, below that page. */
  lemma NextReads(tables: seq<seq<Message>>, before: int, limit: nat)
    requires History(tables) && 1 <= limit <= MAX_LIMIT && before >= 0
    requires Finished(tables, before, limit) && |OnePage(tables[0], before, limit)| == limit
    ensures var page, rest := OnePage(tables[0], before, limit), tables[1..];
      && History(rest) && 1 <= page[0].num && Finished(rest, page[0].num, limit)
      && rest[|rest| - 1] == tables[|tables| - 1] && |tables[0]| <= |rest[0]|
      && Scroll(tables, before, limit) == Scroll(rest, page[0].num, limit) + page
  {
    OnePageFacts(tables[0], before, limit);
    FirstOfPage(tables[0], OnePage(tables[0], before, limit), Bound(tables[0], before), limit);
  }

  lemma FullPage(tables: seq<seq<Message>>, before: int, limit: nat, page: seq<Message>, older: seq<Message>)
    requires History(tables) && 1 <= limit <= MAX_LIMIT && before >= 0 && |tables| > 1
    requires page == OnePage(tables[0], before, limit) && |page| == limit
    requires Covers(older, tables[|tables| - 1], |tables[1]|, page[0].num)
    ensures Covers(older + page, tables[|tables| - 1], |tables[0]|, Bound(tables[0], before))
  {
    OnePageFacts(tables[0], before, limit);
    LastLater(tables);
    JoinCovers(tables[0], page, older, tables[|tables| - 1], Bound(tables[0], before), limit, |tables[1]|);
  }

  /**
   * Scrolling back while others write: the pages form one ascending list, and every row that was
   * there below `before` and is still live at the end is on it, once.
   */
  lemma {:induction false} ScrollComplete(tables: seq<seq<Message>>, before: int, limit: nat)
    requires History(tables) && 1 <= limit <= MAX_LIMIT && before >= 0
    requires Finished(tables, before, limit)
    ensures Covers(Scroll(tables, before, limit), tables[|tables| - 1], |tables[0]|, Bound(tables[0], before))
    decreases |tables|
  {
    var page := OnePage(tables[0], before, limit);
    if |page| != limit {
      OnePageFacts(tables[0], before, limit);
      LastLater(tables);
      PageCovers(tables[0], page, tables[|tables| - 1], Bound(tables[0], before), limit);
    } else {
      NextReads(tables, before, limit);
      ScrollComplete(tables[1..], page[0].num, limit);
      FullPage(tables, before, limit, page, Scroll(tables[1..], page[0].num, limit));
    }
  }

  lemma FirstOfPage(rows: seq<Message>, page: seq<Message>, bound: int, limit: nat)
    requires PageFacts(rows, page, bound, limit) && page != []
    ensures 1 <= page[0].num < bound
  {
    assert page[0] in page;
    assert IsRow(rows, page[0]);
  }

  lemma AscendingJoin(a: seq<Message>, b: seq<Message>, at: int)
    requires Ascending(a) && Ascending(b) && b != [] && b[0].num == at
    requires forall m :: m in a ==> m.num < at
    ensures Ascending(a + b)
  {
    forall i, j | 0 <= i < |a| && 0 <= j < |b| ensures a[i].num < b[j].num {
      assert a[i] in a;
      assert j > 0 ==> b[0].num < b[j].num;
    }
  }

  /** As many reads as rows at the start, and one more, always meet a short page. */
  lemma {:induction false} ScrollEnds(tables: seq<seq<Message>>, before: int, limit: nat)
    requires History(tables) && 1 <= limit <= MAX_LIMIT && before >= 0
    requires |tables| >= Bound(tables[0], before) && Bound(tables[0], before) >= 1
    ensures Finished(tables, before, limit)
    decreases |tables|
  {
    var page := OnePage(tables[0], before, limit);
    OnePageFacts(tables[0], before, limit);
    if |page| == limit {
      assert page[0] in page;
      assert IsRow(tables[0], page[0]);
      ScrollEnds(tables[1..], page[0].num, limit);
    }
  }

  lemma CoversAll(all: seq<Message>, rows: seq<Message>, end: seq<Message>)
    requires Covers(all, end, |rows|, |rows| + 1) && Later(rows, end)
    ensures forall m :: m in all ==> 1 <= m.num <= |rows|
    ensures forall i :: 0 <= i < |rows| && !end[i].deleted ==> exists m :: m in all && SameOrigin(m, end[i])
  {
    forall i | 0 <= i < |rows| && !end[i].deleted ensures exists m :: m in all && SameOrigin(m, end[i]) {
      assert HasNum(all, i + 1);
      var m :| m in all && m.num == i + 1;
      assert SameOrigin(m, end[i]);
    }
  }

  /** From the newest page on: everything there at the start and never deleted, ascending, once each. */
  lemma ScrollFromNewest(tables: seq<seq<Message>>, limit: nat)
    requires History(tables) && 1 <= limit <= MAX_LIMIT && |tables| > |tables[0]|
    ensures var all, end := Scroll(tables, 0, limit), tables[|tables| - 1];
      && Finished(tables, 0, limit) && Ascending(all) && |tables[0]| <= |end|
      && (forall m :: m in all ==> 1 <= m.num <= |tables[0]|)
      && (forall i :: 0 <= i < |tables[0]| && !end[i].deleted ==> exists m :: m in all && SameOrigin(m, end[i]))
  {
    ScrollEnds(tables, 0, limit);
    ScrollComplete(tables, 0, limit);
    LastLater(tables);
    CoversAll(Scroll(tables, 0, limit), tables[0], tables[|tables| - 1]);
  }
}

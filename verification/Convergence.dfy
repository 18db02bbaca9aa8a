/** What finitely many successful polls reach once writes stop, and exactly when they reach it. */
module Convergence {
  import opened Lists
  import opened Messages
  import opened ZSets
  import opened Servers
  import opened Polling
  import opened Merging
  import opened Replication

  /** The answer of a chat nobody writes to: the fast path's, or the timed-out wait's. */
  function Reply(s: Server, c: Cursors): Response {
    var r := FastRead(s, c);
    if IsEmpty(r) then NO_CONTENT else r
  }

  /** A poll of such a chat. */
  function Round(s: Server, c: Client): Client { Deliver(c, Reply(s, c.cursors)) }

  /** The client after each of a run of successful polls of a quiet chat. */
  ghost predicate QuietRun(s: Server, trail: seq<Client>)
    decreases |trail|
  {
    trail != [] && (|trail| > 1 ==> trail[1] == Round(s, trail[0]) && QuietRun(s, trail[1..]))
  }

  function Last<T>(trail: seq<T>): T
    requires trail != []
  {
    trail[|trail| - 1]
  }

  const QUIET_POLL: seq<Step> := [PollStart, PollLogs, PollTimeout, PollDone]

  lemma QuietPollUnfolds(y: System)
    ensures Run(y, QUIET_POLL) == Next(Next(Next(Next(y, PollStart), PollLogs), PollTimeout), PollDone)
  {
    assert QUIET_POLL[1..] == [PollLogs, PollTimeout, PollDone] && QUIET_POLL[2..] == [PollTimeout, PollDone];
    assert QUIET_POLL[1..][1..] == QUIET_POLL[2..] && QUIET_POLL[2..][1..] == [PollDone];
  }

  lemma QuietAnswer(y: System)
    requires y.poll.Ready?
    ensures Next(Next(Next(y, PollStart), PollLogs), PollTimeout)
            == y.(poll := Answered(Reply(y.server, y.client.cursors), y.server, y.server))
  {
    var s := y.server;
    var x := Next(y, PollStart);
    assert x == y.(poll := Reading(FastMessages(s, y.client.cursors.after), s, true));
    QuietLogs(x);
    QuietTimeout(y, Next(x, PollLogs), FastRead(s, y.client.cursors));
  }

  lemma QuietLogs(x: System)
    requires x.poll.Reading? && x.poll.fast
    ensures var r := WithLogs(x.poll.messages, x.server.keys, x.client.cursors);
      Next(x, PollLogs) == x.(poll := if IsEmpty(r) then Waiting else Answered(r, x.poll.from, x.server))
  {
  }

  lemma QuietTimeout(y: System, x: System, r: Response)
    requires x == y.(poll := if IsEmpty(r) then Waiting else Answered(r, y.server, y.server))
    ensures Next(x, PollTimeout)
            == y.(poll := Answered(if IsEmpty(r) then NO_CONTENT else r, y.server, y.server))
  {
  }

  /** Nothing is logged above a chat's own counters, so two reads of one state never tear. */
  lemma OneStateNeverTears(c: Client, r: Response, s: Server)
    requires GoodDeletes(s) && GoodEdits(s)
    ensures !Tears(c, r, s.keys, s.keys)
  {
    assert ChangedSince(r, s.keys, s.keys) == {};
  }

  /** The four steps of a quiet poll are one round of the client and nothing else. */
  lemma RoundIsAPoll(y: System)
    requires y.poll.Ready? && Good(y.server)
    ensures var z := Run(y, QUIET_POLL);
      && z.client == Round(y.server, y.client) && z.server == y.server && z.poll.Ready?
      && z.floor == y.floor && z.high == Max(y.high, z.client.cursors.after)
      && z.older == y.older && z.dipped == y.dipped && z.overtaken == y.overtaken && z.torn == y.torn
  {
    QuietPollUnfolds(y);
    QuietAnswer(y);
    PollDoneReceives(Next(Next(Next(y, PollStart), PollLogs), PollTimeout));
    OneStateNeverTears(y.client, Reply(y.server, y.client.cursors), y.server);
  }

  /** The part of the invariant a quiet chat keeps. */
  ghost predicate Tracking(s: Server, c: Client, floor: int, high: int) {
    && Good(s) && InRange(s, c, floor, high) && Tracks(s, c, high) && Complete(s, c.list, floor, high)
  }

  ghost predicate Synced(s: Server, c: Client, floor: int)
    requires 1 <= floor
  {
    && (forall m :: m in c.list ==> IsRow(s.rows, m))
    && Complete(s, c.list, floor, |s.rows|)
  }

  /** A poll from `after` would return a full page, every message of it seen before. */
  ghost predicate SeenPage(s: Server, c: Client, after: int) {
    && |ReadMessages(s, after)| == POLL_LIMIT
    && forall m :: m in ReadMessages(s, after) ==> m.id in c.seen
  }

  ghost predicate LiveAbove(s: Server, high: int) {
    exists k :: 0 <= k < |s.rows| && high <= k && !s.rows[k].deleted
  }

  /** Somewhere at or above the cursor a full page is already seen, and a live message lies beyond. */
  ghost predicate Blocked(s: Server, c: Client, high: int) {
    LiveAbove(s, high) && exists after :: c.cursors.after <= after && SeenPage(s, c, after)
  }

  ghost function UnseenAbove(s: Server, c: Client): set<int> {
    set i | 0 <= i < |s.rows| && c.cursors.after <= i && !s.rows[i].deleted && s.rows[i].id !in c.seen
  }

  // --- one round -------------------------------------------------------------------------------

  lemma RoundAnswers(s: Server, c: Client)
    requires Good(s)
    ensures Answers(SlowRead(s, c.cursors), s, s, c.cursors)
    ensures Round(s, c) == Deliver(c, SlowRead(s, c.cursors))
  {
    ReadAnswers(s, s, c.cursors);
    FastIsSlow(s, c.cursors.after);
    var r := SlowRead(s, c.cursors);
    if IsEmpty(r) {
      EmptyMeans(s, c.cursors);
    }
  }

  lemma EmptyMeans(s: Server, c: Cursors)
    requires IsEmpty(SlowRead(s, c))
    ensures SlowRead(s, c) == NO_CONTENT
  {
    assert |ZRangeAbove(s.keys.deleteLog, c.afterDelete)| == |SlowRead(s, c).deleted|;
    assert |ZRangeAbove(s.keys.editLog, c.afterEdit)| == |SlowRead(s, c).edits|;
  }

  lemma RoundFacts(s: Server, c: Client, floor: int, high: int)
    requires Tracking(s, c, floor, high)
    ensures var r := SlowRead(s, c.cursors);
      Receiving(r, s, s, s, c, floor, high) && Delivered(c, Round(s, c), r, News(c, r)) && DistinctIds(Round(s, c).list)
  {
    var r := SlowRead(s, c.cursors);
    RoundAnswers(s, c);
    EvolvesReflexive(s);
    DeliverFacts(c, r);
    AnswerDistinct(r, s, s, c);
  }

  lemma RoundKeepsTracking(s: Server, c: Client, floor: int, high: int)
    requires Tracking(s, c, floor, high)
    ensures Tracking(s, Round(s, c), floor, Max(high, Round(s, c).cursors.after))
    ensures AllSettled(s, c) ==> AllSettled(s, Round(s, c))
    ensures c.cursors.after <= Round(s, c).cursors.after
  {
    var r := SlowRead(s, c.cursors);
    RoundFacts(s, c, floor, high);
    DoneTracks(r, s, s, s, c, Round(s, c), News(c, r), floor, high);
    DoneComplete(r, s, s, s, c, Round(s, c), News(c, r), floor, high);
    if AllSettled(s, c) {
      OneStateNeverTears(c, r, s);
      DoneSettled(r, s, s, s, c, Round(s, c), News(c, r), floor, high);
    }
  }

  lemma RoundKeepsOrder(s: Server, c: Client, floor: int, high: int)
    requires Tracking(s, c, floor, high) && InOrder(c, floor)
    ensures InOrder(Round(s, c), floor)
  {
    RoundAnswers(s, c);
    EvolvesReflexive(s);
    OneStateNeverTears(c, SlowRead(s, c.cursors), s);
    CompleteAbove(s, c.list, floor, c.cursors.after + 1, high);
    DoneOrder(SlowRead(s, c.cursors), s, s, c, floor, high);
  }

  /** After one round nothing logged is above the cursors, so settled copies are rows. */
  lemma RoundCatchesUp(s: Server, c: Client, floor: int, high: int)
    requires Tracking(s, c, floor, high) && AllSettled(s, c)
    ensures forall m :: m in Round(s, c).list ==> IsRow(s.rows, m)
  {
    var d := Round(s, c);
    RoundFacts(s, c, floor, high);
    RoundKeepsTracking(s, c, floor, high);
    forall m | m in d.list ensures IsRow(s.rows, m) {
      assert Known(s, m) && Settled(s, d.cursors, m);
      assert !DeletePending(s.keys.deleteLog, d.cursors.afterDelete, m.id);
      assert !EditPending(s.keys.editLog, d.cursors.afterEdit, m.id);
    }
  }

  lemma CaughtUpIsSynced(s: Server, c: Client, floor: int, high: int)
    requires Tracking(s, c, floor, high) && !LiveAbove(s, high)
    requires forall m :: m in c.list ==> IsRow(s.rows, m)
    ensures Synced(s, c, floor)
  {
  }

  // --- progress ----------------------------------------------------------------------------------

  /** Unless blocked, a round finds something new, or nothing live lies beyond `high`. */
  lemma RoundProgress(s: Server, c: Client, floor: int, high: int)
    requires Tracking(s, c, floor, high) && !Blocked(s, c, high) && LiveAbove(s, high)
    ensures UnseenAbove(s, Round(s, c)) < UnseenAbove(s, c)
  {
    var r := SlowRead(s, c.cursors);
    RoundFacts(s, c, floor, high);
    SomethingNew(s, c, r, News(c, r), high);
    var m :| m in News(c, r);
    LessUnseen(s, c, Round(s, c), r, News(c, r), m);
  }

  lemma LessUnseen(s: Server, c: Client, d: Client, r: Response, news: seq<Message>, m: Message)
    requires Delivered(c, d, r, news) && Answers(r, s, s, c.cursors) && c.cursors.after <= |s.rows| && m in news
    ensures UnseenAbove(s, d) < UnseenAbove(s, c)
  {
    assert IsRow(s.rows, m);
    assert m.num - 1 in UnseenAbove(s, c);
    assert m.num - 1 !in UnseenAbove(s, d);
    assert UnseenAbove(s, d) <= UnseenAbove(s, c);
  }

  lemma SomethingNew(s: Server, c: Client, r: Response, news: seq<Message>, high: int)
    requires Answers(r, s, s, c.cursors) && r.messages == ReadMessages(s, c.cursors.after)
    requires forall m :: m in news <==> m in r.messages && m.id !in c.seen
    requires 0 <= c.cursors.after <= high && Tracks(s, c, high)
    requires !Blocked(s, c, high) && LiveAbove(s, high)
    ensures exists m :: m in news
  {
    var k :| 0 <= k < |s.rows| && high <= k && !s.rows[k].deleted;
    if s.rows[k] in r.messages {
      assert s.rows[k] in news;
    } else {
      assert !SeenPage(s, c, c.cursors.after);
      var m :| m in r.messages && m.id !in c.seen;
      assert m in news;
    }
  }

  lemma StaysUnblocked(s: Server, c: Client, floor: int, high: int)
    requires Tracking(s, c, floor, high) && !Blocked(s, c, high)
    ensures !Blocked(s, Round(s, c), Max(high, Round(s, c).cursors.after))
  {
    var r := SlowRead(s, c.cursors);
    var d := Round(s, c);
    RoundFacts(s, c, floor, high);
    forall after | d.cursors.after <= after && SeenPage(s, d, after) ensures SeenPage(s, c, after) {
      SeenBefore(s, c, d, r, News(c, r), after);
    }
  }

  /** What a full seen page above the new cursor holds was seen before the round. */
  lemma SeenBefore(s: Server, c: Client, d: Client, r: Response, news: seq<Message>, after: int)
    requires Delivered(c, d, r, news) && Answers(r, s, s, c.cursors) && Numbered(s.rows)
    requires d.cursors.after <= after && SeenPage(s, d, after)
    ensures SeenPage(s, c, after)
  {
    MessagesAnswer(s, after);
    forall m | m in ReadMessages(s, after) ensures m.id in c.seen {
      assert IsRow(s.rows, m);
      forall n | n in news ensures n.id != m.id {
        assert IsRow(s.rows, n) && n.num != m.num;
        assert s.rows[n.num - 1].id != s.rows[m.num - 1].id;
      }
    }
  }

  lemma SmallerSet(a: set<int>, b: set<int>)
    requires a < b
    ensures |a| < |b|
  {
    assert b == a + (b - a);
  }

  lemma RunTail(s: Server, trail: seq<Client>)
    requires QuietRun(s, trail) && |trail| > 1
    ensures trail[1] == Round(s, trail[0])
    ensures QuietRun(s, trail[1..]) && Last(trail[1..]) == Last(trail)
  {
  }

  /**
   * A settled, unblocked client is in step with a quiet chat after one poll more than there are
   * unseen live rows above its cursor.
   */
  lemma {:induction false} Converges(s: Server, trail: seq<Client>, floor: int, high: int)
    requires QuietRun(s, trail) && |trail| >= 2 + |UnseenAbove(s, trail[0])|
    requires Tracking(s, trail[0], floor, high) && AllSettled(s, trail[0]) && !Blocked(s, trail[0], high)
    ensures Synced(s, Last(trail), floor)
    decreases |trail|
  {
    var c, d := trail[0], trail[1];
    RunTail(s, trail);
    RoundKeepsTracking(s, c, floor, high);
    StaysUnblocked(s, c, floor, high);
    if LiveAbove(s, high) {
      RoundProgress(s, c, floor, high);
      SmallerSet(UnseenAbove(s, d), UnseenAbove(s, c));
      Converges(s, trail[1..], floor, Max(high, d.cursors.after));
    } else {
      QuietStays(s, trail, floor, high);
    }
  }

  lemma {:induction false} QuietStays(s: Server, trail: seq<Client>, floor: int, high: int)
    requires QuietRun(s, trail) && |trail| >= 2
    requires Tracking(s, trail[0], floor, high) && AllSettled(s, trail[0]) && !LiveAbove(s, high)
    ensures Synced(s, Last(trail), floor)
    decreases |trail|
  {
    var c, d := trail[0], trail[1];
    RunTail(s, trail);
    RoundKeepsTracking(s, c, floor, high);
    if |trail| == 2 {
      RoundCatchesUp(s, c, floor, high);
      CaughtUpIsSynced(s, d, floor, Max(high, d.cursors.after));
    } else {
      QuietStays(s, trail[1..], floor, Max(high, d.cursors.after));
    }
  }

  /** A list in order stays in order, and a synced one in order is the live rows from `floor`. */
  lemma {:induction false} RunKeepsOrder(s: Server, trail: seq<Client>, floor: int, high: int)
    requires QuietRun(s, trail) && Tracking(s, trail[0], floor, high) && InOrder(trail[0], floor)
    ensures InOrder(Last(trail), floor)
    decreases |trail|
  {
    if |trail| > 1 {
      RunTail(s, trail);
      RoundKeepsTracking(s, trail[0], floor, high);
      RoundKeepsOrder(s, trail[0], floor, high);
      RunKeepsOrder(s, trail[1..], floor, Max(high, trail[1].cursors.after));
    }
  }

  lemma SyncedList(s: Server, c: Client, floor: int)
    requires Numbered(s.rows) && 1 <= floor && Synced(s, c, floor) && InOrder(c, floor)
    ensures c.list == LiveAfter(s.rows, floor - 1)
  {
    var live := LiveAfter(s.rows, floor - 1);
    ReadIsRows(s.rows, NewerThan(floor - 1));
    forall m ensures m in c.list <==> m in live {
      if m in live {
        assert s.rows[m.num - 1].id in Ids(c.list);
        var x :| x in c.list && x.id == m.id;
        assert IsRow(s.rows, x) && s.rows[x.num - 1].id == s.rows[m.num - 1].id;
      }
      if m in c.list {
        assert IsRow(s.rows, m);
        assert s.rows[m.num - 1] in s.rows;
      }
    }
    AscendingExtensional(c.list, live);
  }

  // --- what never converges -----------------------------------------------------------------------

  lemma UnsettledStays(s: Server, c: Client, floor: int, high: int)
    requires Tracking(s, c, floor, high) && !AllSettled(s, c)
    ensures !AllSettled(s, Round(s, c))
  {
    var r := SlowRead(s, c.cursors);
    RoundFacts(s, c, floor, high);
    var m :| m in c.list && !Settled(s, c.cursors, m);
    StillUnsettled(s, c, Round(s, c), r, News(c, r), m);
  }

  lemma StillUnsettled(s: Server, c: Client, d: Client, r: Response, news: seq<Message>, m: Message)
    requires Delivered(c, d, r, news) && Answers(r, s, s, c.cursors) && GoodDeletes(s)
    requires m in c.list && Known(s, m) && !Settled(s, c.cursors, m)
    ensures !AllSettled(s, d)
  {
    var row := s.rows[m.num - 1];
    assert DeletePending(s.keys.deleteLog, c.cursors.afterDelete, m.id) ==> LoggedDelete(s.keys.deleteLog, row.id);
    assert m.id !in r.deleted;
    var x := Edited(m, r.edits);
    assert Carried(c.list, r, m, x);
    assert !row.deleted ==> x == m;
    assert !Settled(s, d.cursors, x) by {
      NotPendingLater(s.keys, c.cursors, d.cursors, m.id);
    }
  }

  lemma NotPendingLater(k: Keys, c: Cursors, d: Cursors, id: Id)
    requires c.afterDelete <= d.afterDelete && c.afterEdit <= d.afterEdit
    ensures !DeletePending(k.deleteLog, c.afterDelete, id) ==> !DeletePending(k.deleteLog, d.afterDelete, id)
    ensures !EditPending(k.editLog, c.afterEdit, id) ==> !EditPending(k.editLog, d.afterEdit, id)
  {
  }

  function Elements(s: seq<Message>): set<Message> { set m | m in s }

  lemma {:induction false} AscendingSize(s: seq<Message>)
    requires Ascending(s)
    ensures |Elements(s)| == |s|
  {
    if s != [] {
      AscendingSize(s[1..]);
      assert s == [s[0]] + s[1..];
      assert Elements(s) == {s[0]} + Elements(s[1..]);
      forall m | m in s[1..] ensures s[0].num < m.num {
        var k :| 0 <= k < |s[1..]| && s[1..][k] == m;
        assert s[k + 1].num == m.num;
      }
    }
  }

  lemma MoreThan(a: seq<Message>, b: seq<Message>, n: Message)
    requires Ascending(a) && Ascending(b)
    requires n in b && n !in a && forall m :: m in a ==> m in b
    ensures |a| < |b|
  {
    AscendingSize(a);
    AscendingSize(b);
    assert Elements(b) == (Elements(a) + {n}) + (Elements(b) - (Elements(a) + {n}));
  }

  /** A full page of seen rows stands before the news: the cursor cannot pass it. */
  lemma CannotPass(s: Server, c: Client, d: Client, r: Response, news: seq<Message>, after: int)
    requires Delivered(c, d, r, news) && Answers(r, s, s, c.cursors) && Numbered(s.rows)
    requires c.cursors.after <= after && SeenPage(s, c, after)
    ensures d.cursors.after <= after
  {
    MessagesAnswer(s, after);
    if d.cursors.after > after {
      var n :| n in news && n.num == d.cursors.after;
      PageBeforeNews(s.rows, ReadMessages(s, after), r.messages, c.cursors.after, after, n);
      MoreThan(ReadMessages(s, after), r.messages, n);
    }
  }

  lemma PageBeforeNews(
    rows: seq<Message>, page: seq<Message>, ms: seq<Message>, from: int, after: int, n: Message)
    requires AnswersMessages(page, rows, after) && AnswersMessages(ms, rows, from) && from <= after
    requires n in ms && n !in page && after < n.num
    ensures forall m :: m in page ==> m in ms
  {
    assert IsRow(rows, n) && rows[n.num - 1] !in page;
    forall m | m in page ensures m in ms {
      assert IsRow(rows, m);
      assert rows[m.num - 1] in ms;
    }
  }

  lemma BlockedStays(s: Server, c: Client, floor: int, high: int)
    requires Tracking(s, c, floor, high) && Blocked(s, c, high)
    ensures Blocked(s, Round(s, c), Max(high, Round(s, c).cursors.after))
  {
    RoundFacts(s, c, floor, high);
    BlockedAfter(s, c, Round(s, c), SlowRead(s, c.cursors), News(c, SlowRead(s, c.cursors)), high);
  }

  lemma BlockedAfter(s: Server, c: Client, d: Client, r: Response, news: seq<Message>, high: int)
    requires Delivered(c, d, r, news) && Answers(r, s, s, c.cursors) && Numbered(s.rows)
    requires Tracks(s, c, high) && Blocked(s, c, high)
    ensures Blocked(s, d, Max(high, d.cursors.after))
  {
    var after :| c.cursors.after <= after && SeenPage(s, c, after);
    CannotPass(s, c, d, r, news, after);
    assert SeenPage(s, d, after);
    SeenPageBelow(s, c, after, high);
  }

  lemma SeenPageBelow(s: Server, c: Client, after: int, high: int)
    requires Numbered(s.rows) && Tracks(s, c, high) && SeenPage(s, c, after)
    ensures after < high
  {
    MessagesAnswer(s, after);
    var page := ReadMessages(s, after);
    assert page[0] in page;
    assert IsRow(s.rows, page[0]) && s.rows[page[0].num - 1].id in c.seen;
  }

  lemma NotPastHigh(s: Server, c: Client, high: int, i: nat)
    requires Numbered(s.rows) && Tracks(s, c, high) && high <= i < |s.rows|
    ensures s.rows[i].id !in Ids(c.list)
  {
    forall m | m in c.list ensures m.id != s.rows[i].id {
      assert Known(s, m);
      assert s.rows[m.num - 1].id == m.id;
    }
  }

  lemma BlockedNotSynced(s: Server, c: Client, floor: int, high: int)
    requires Tracking(s, c, floor, high) && LiveAbove(s, high)
    ensures !Synced(s, c, floor)
  {
    var k :| 0 <= k < |s.rows| && high <= k && !s.rows[k].deleted;
    NotPastHigh(s, c, high, k);
  }

  lemma {:induction false} NeverConverges(s: Server, trail: seq<Client>, floor: int, high: int)
    requires QuietRun(s, trail) && Tracking(s, trail[0], floor, high)
    requires !AllSettled(s, trail[0]) || Blocked(s, trail[0], high)
    ensures !Synced(s, Last(trail), floor)
    decreases |trail|
  {
    var c := trail[0];
    if |trail| == 1 {
      if AllSettled(s, c) {
        BlockedNotSynced(s, c, floor, high);
      }
    } else {
      RunTail(s, trail);
      RoundKeepsTracking(s, c, floor, high);
      if AllSettled(s, c) {
        BlockedStays(s, c, floor, high);
      } else {
        UnsettledStays(s, c, floor, high);
      }
      NeverConverges(s, trail[1..], floor, Max(high, trail[1].cursors.after));
    }
  }

  /** The exact condition under which polling a quiet chat brings the client in step. */
  lemma ConvergesExactly(s: Server, trail: seq<Client>, floor: int, high: int)
    requires QuietRun(s, trail) && |trail| >= 2 + |UnseenAbove(s, trail[0])|
    requires Tracking(s, trail[0], floor, high)
    ensures Synced(s, Last(trail), floor) <==> AllSettled(s, trail[0]) && !Blocked(s, trail[0], high)
  {
    if AllSettled(s, trail[0]) && !Blocked(s, trail[0], high) {
      Converges(s, trail, floor, high);
    } else {
      NeverConverges(s, trail, floor, high);
    }
  }

  /** While a seen full page stands before the news, no row past `high` is ever listed. */
  lemma {:induction false} BlockedNeverLists(s: Server, trail: seq<Client>, floor: int, high: int, i: nat)
    requires QuietRun(s, trail) && Tracking(s, trail[0], floor, high) && Blocked(s, trail[0], high)
    requires high <= i < |s.rows|
    ensures s.rows[i].id !in Ids(Last(trail).list)
  {
    var after :| trail[0].cursors.after <= after && SeenPage(s, trail[0], after);
    PageHolds(s, trail, floor, high, after);
    NotPastHigh(s, Last(trail), high, i);
  }

  lemma {:induction false} PageHolds(s: Server, trail: seq<Client>, floor: int, high: int, after: int)
    requires QuietRun(s, trail) && Tracking(s, trail[0], floor, high)
    requires trail[0].cursors.after <= after && SeenPage(s, trail[0], after)
    ensures Tracks(s, Last(trail), high)
    decreases |trail|
  {
    if |trail| > 1 {
      RunTail(s, trail);
      HeldBack(s, trail[0], floor, high, after);
      PageHolds(s, trail[1..], floor, high, after);
    }
  }

  lemma HeldBack(s: Server, c: Client, floor: int, high: int, after: int)
    requires Tracking(s, c, floor, high) && c.cursors.after <= after && SeenPage(s, c, after)
    ensures var d := Round(s, c); Tracking(s, d, floor, high) && d.cursors.after <= after && SeenPage(s, d, after)
  {
    var r := SlowRead(s, c.cursors);
    RoundFacts(s, c, floor, high);
    RoundKeepsTracking(s, c, floor, high);
    CannotPass(s, c, Round(s, c), r, News(c, r), after);
    SeenPageBelow(s, c, after, high);
  }

  /**
   * In a quiet chat the next poll takes a listed message whose row is deleted off the list, for good,
   * exactly when its deletion is logged above the client's cursor; otherwise it stays for good.
   */
  lemma {:induction false} DeletedLeavesExactly(s: Server, trail: seq<Client>, floor: int, high: int, i: nat)
    requires QuietRun(s, trail) && Tracking(s, trail[0], floor, high) && |trail| >= 2
    requires i < |s.rows| && s.rows[i].deleted && s.rows[i].id in Ids(trail[0].list)
    ensures s.rows[i].id in Ids(Last(trail).list)
            <==> !DeletePending(s.keys.deleteLog, trail[0].cursors.afterDelete, s.rows[i].id)
    decreases |trail|
  {
    var c, d := trail[0], trail[1];
    RunTail(s, trail);
    RoundKeepsTracking(s, c, floor, high);
    DeletedAfterRound(s, c, floor, high, i);
    if s.rows[i].id !in Ids(d.list) {
      DeletedStaysAway(s, trail[1..], floor, Max(high, d.cursors.after), i);
    } else if |trail| > 2 {
      DeletedLeavesExactly(s, trail[1..], floor, Max(high, d.cursors.after), i);
    }
  }

  lemma DeletedAfterRound(s: Server, c: Client, floor: int, high: int, i: nat)
    requires Tracking(s, c, floor, high) && i < |s.rows| && s.rows[i].deleted
    ensures var d, id := Round(s, c), s.rows[i].id;
      && (id in Ids(d.list) <==> id in Ids(c.list) && !DeletePending(s.keys.deleteLog, c.cursors.afterDelete, id))
      && !DeletePending(s.keys.deleteLog, d.cursors.afterDelete, id)
  {
    RoundFacts(s, c, floor, high);
    DeletedAfter(s, c, Round(s, c), SlowRead(s, c.cursors), News(c, SlowRead(s, c.cursors)), s.rows[i]);
  }

  lemma DeletedAfter(s: Server, c: Client, d: Client, r: Response, news: seq<Message>, row: Message)
    requires Delivered(c, d, r, news) && Answers(r, s, s, c.cursors) && Numbered(s.rows)
    requires row in s.rows && row.deleted
    ensures row.id in Ids(d.list) <==>
              row.id in Ids(c.list) && !DeletePending(s.keys.deleteLog, c.cursors.afterDelete, row.id)
    ensures !DeletePending(s.keys.deleteLog, d.cursors.afterDelete, row.id)
  {
    forall m | m in news ensures m.id != row.id {
      assert IsRow(s.rows, m);
      assert s.rows[m.num - 1].id == m.id;
    }
    assert row.id in r.deleted <==> DeletePending(s.keys.deleteLog, c.cursors.afterDelete, row.id);
  }

  lemma {:induction false} DeletedStaysAway(s: Server, trail: seq<Client>, floor: int, high: int, i: nat)
    requires QuietRun(s, trail) && Tracking(s, trail[0], floor, high)
    requires i < |s.rows| && s.rows[i].deleted && s.rows[i].id !in Ids(trail[0].list)
    ensures s.rows[i].id !in Ids(Last(trail).list)
    decreases |trail|
  {
    if |trail| > 1 {
      RunTail(s, trail);
      RoundKeepsTracking(s, trail[0], floor, high);
      DeletedAfterRound(s, trail[0], floor, high, i);
      DeletedStaysAway(s, trail[1..], floor, Max(high, trail[1].cursors.after), i);
    }
  }

  // --- few step-backs ------------------------------------------------------------------------------

  lemma {:induction false} AscendingSpread(s: seq<Message>, j: nat)
    requires Ascending(s) && j < |s|
    ensures s[j].num >= s[0].num + j
  {
    if j > 0 {
      AscendingSpread(s, j - 1);
      assert s[j - 1].num < s[j].num;
    }
  }

  /** With fewer than a page of numbers between the cursor and its highest value nothing blocks. */
  lemma FewStepBacksUnblocked(s: Server, c: Client, floor: int, high: int)
    requires Tracking(s, c, floor, high) && high - c.cursors.after < POLL_LIMIT
    ensures !Blocked(s, c, high)
  {
    forall after | c.cursors.after <= after ensures !SeenPage(s, c, after) {
      MessagesAnswer(s, after);
      var page := ReadMessages(s, after);
      if |page| == POLL_LIMIT {
        AscendingSpread(page, POLL_LIMIT - 1);
        var first, last := page[0], page[POLL_LIMIT - 1];
        assert first in page && last in page;
        assert last.num > high;
        assert s.rows[last.num - 1].id == last.id;
      }
    }
  }

  // --- what a change comes to ------------------------------------------------------------------------

  lemma WriteKeepsTracking(s: Server, w: Write, c: Client, floor: int, high: int)
    requires Tracking(s, c, floor, high)
    ensures Tracking(Apply(s, w), c, floor, high)
    ensures AllSettled(s, c) ==> AllSettled(Apply(s, w), c)
  {
    WriteKeepsGood(s, w);
    TracksEvolves(s, w, c, high);
    CompleteEvolves(s, Apply(s, w), c.list, floor, high);
    if AllSettled(s, c) { SettledEvolves(s, Apply(s, w), c); }
  }

  /** An edit of a listed, live message shows after the next poll: new text, new time, once. */
  lemma EditShows(s: Server, c: Client, floor: int, high: int, i: nat, text: Text, at: int)
    requires Tracking(s, c, floor, high) && AllSettled(s, c)
    requires i < |s.rows| && !s.rows[i].deleted && s.rows[i].id in Ids(c.list)
    ensures var id := s.rows[i].id; var list := Round(Apply(s, Change(id, text, at)), c).list;
      && id in Ids(list)
      && forall m :: m in list && m.id == id ==> m.text == text && m.editedAt == Some(at) && !m.deleted
  {
    var id := s.rows[i].id;
    var t := Apply(s, Change(id, text, at));
    ChangeStores(s, i, text, at);
    WriteKeepsTracking(s, Change(id, text, at), c, floor, high);
    RoundCatchesUp(t, c, floor, high);
    LiveStays(t, c, floor, high, i);
    RowsCopied(t.rows, Round(t, c).list, i);
  }

  lemma RowsCopied(rows: seq<Message>, list: seq<Message>, i: nat)
    requires Numbered(rows) && i < |rows| && forall m :: m in list ==> IsRow(rows, m)
    ensures forall m :: m in list && m.id == rows[i].id ==> m == rows[i]
  {
    forall m | m in list && m.id == rows[i].id ensures m == rows[i] {
      assert IsRow(rows, m) && rows[m.num - 1].id == rows[i].id;
    }
  }

  /** A poll of a quiet chat takes no live message off the list. */
  lemma LiveStays(s: Server, c: Client, floor: int, high: int, i: nat)
    requires Tracking(s, c, floor, high) && i < |s.rows| && !s.rows[i].deleted && s.rows[i].id in Ids(c.list)
    ensures s.rows[i].id in Ids(Round(s, c).list)
  {
    RoundFacts(s, c, floor, high);
    LiveKept(s, c, Round(s, c), SlowRead(s, c.cursors), News(c, SlowRead(s, c.cursors)), i);
  }

  lemma LiveKept(s: Server, c: Client, d: Client, r: Response, news: seq<Message>, i: nat)
    requires Delivered(c, d, r, news) && AnswersDeletes(r, s.keys, c.cursors.afterDelete) && GoodDeletes(s)
    requires i < |s.rows| && !s.rows[i].deleted && s.rows[i].id in Ids(c.list)
    ensures s.rows[i].id in Ids(d.list)
  {
    assert DeletePending(s.keys.deleteLog, c.cursors.afterDelete, s.rows[i].id) ==>
             LoggedDelete(s.keys.deleteLog, s.rows[i].id);
  }

  /** A deletion of any message shows after the next poll: it is listed no more, whatever the client missed before. */
  lemma DeletionShows(s: Server, c: Client, floor: int, high: int, i: nat)
    requires Tracking(s, c, floor, high) && i < |s.rows|
    ensures var id := s.rows[i].id; id !in Ids(Round(Apply(s, Delete(id)), c).list)
  {
    var id := s.rows[i].id;
    var t := Apply(s, Delete(id));
    DeleteStores(s, i);
    WriteKeepsTracking(s, Delete(id), c, floor, high);
    DeletedAfterRound(t, c, floor, high, i);
    PendingWeaken(t.keys, s.keys, c.cursors, id);
  }
}

/**
 * The widget and the server as one step system. A poll reads its messages at one step, the two logs
 * at a later one, and its answer reaches the widget later still; a page of older messages is read at
 * one step and arrives at a later one. Writes, and the other request, may come between.
 */
module Replication {
  import opened Lists
  import opened Messages
  import opened Servers
  import opened Polling
  import opened Merging

  /** `from` is the server the messages were read from, `at` the one the logs were read from. */
  datatype Poll =
    | Ready
    | Waiting
    | Reading(messages: seq<Message>, from: Server, fast: bool)
    | Answered(response: Response, from: Server, at: Server)

  datatype Older = Idle | Requested(before: int) | Arrived(page: seq<Message>, before: int, at: Server)

  /**
   * The last six fields are history: the oldest number the loaded pages vouch for, the highest
   * value the cursor ever had, the messages whose change was logged after the older page in flight
   * was read and has been delivered, whether the cursor ever fell more than one below `floor`,
   * whether a page ever brought such a message into the list, and whether an answer ever brought a
   * message together with a change to it logged after that message was read.
   */
  datatype System = System(
    server: Server, client: Client, poll: Poll, older: Older,
    floor: int, high: int, touched: set<Id>, dipped: bool, overtaken: bool, torn: bool)

  datatype Step =
    | Written(w: Write)
    | PollStart | PollLogs | PollWake | PollTimeout | PollDone | PollFailed | PollLimited
    | OlderAsk | OlderServe | OlderDone | OlderFailed

  /** The oldest number a page vouches for; a short page vouches for everything below it. */
  function FloorOf(page: seq<Message>): int {
    if |page| < PAGE_LIMIT then 1 else page[0].num
  }

  function Open(s: Server): System {
    var page := NewestPage(s);
    var client := Opened(page);
    System(s, client, Ready, Idle, FloorOf(page), client.cursors.after, {}, false, false, false)
  }

  function Next(y: System, step: Step): System {
    match step
    case Written(w) => y.(server := Apply(y.server, w))
    case PollStart =>
      if !y.poll.Ready? then y
      else y.(poll := Reading(FastMessages(y.server, y.client.cursors.after), y.server, true))
    case PollLogs =>
      if !y.poll.Reading? then y else
        var r := WithLogs(y.poll.messages, y.server.keys, y.client.cursors);
        y.(poll := if y.poll.fast && IsEmpty(r) then Waiting else Answered(r, y.poll.from, y.server))
    case PollWake =>
      if !y.poll.Waiting? then y
      else y.(poll := Reading(ReadMessages(y.server, y.client.cursors.after), y.server, false))
    case PollTimeout =>
      if !y.poll.Waiting? then y else y.(poll := Answered(NO_CONTENT, y.server, y.server))
    case PollDone =>
      if !y.poll.Answered? then y else Received(y, y.poll.response)
    case PollFailed =>
      var client := StepBack(y.client);
      y.(poll := Ready, client := client, dipped := y.dipped || client.cursors.after + 1 < y.floor)
    case PollLimited =>
      if !y.poll.Ready? then y else y.(client := RateLimited(y.client))
    case OlderAsk =>
      if y.older.Idle? && y.client.hasMore && y.client.list != [] && y.client.list[0].num > 0
      then y.(older := Requested(y.client.list[0].num)) else y
    case OlderServe =>
      if !y.older.Requested? then y else
        y.(older := Arrived(PageBefore(y.server, y.older.before), y.older.before, y.server), touched := {})
    case OlderDone =>
      if !y.older.Arrived? then y else Prepended(y, y.older.page, y.older.before)
    case OlderFailed =>
      y.(older := Idle)
  }

  /** The changes an answer read from `at` brings that were logged after `page` was read. */
  function ChangedSince(r: Response, at: Keys, page: Keys): set<Id> {
    (set id | id in r.deleted && DeletePending(at.deleteLog, page.deleteSeq, id))
    + (set e | e in r.edits && EditPending(at.editLog, page.editSeq, e.id) :: e.id)
  }

  function Received(y: System, r: Response): System
    requires y.poll.Answered?
  {
    var client := Deliver(y.client, r);
    y.(poll := Ready, client := client, high := Max(y.high, client.cursors.after),
       touched := if y.older.Arrived? then y.touched + ChangedSince(r, y.poll.at.keys, y.older.at.keys) else y.touched,
       torn := y.torn || Tears(y.client, r, y.poll.from.keys, y.poll.at.keys))
  }

  /** The answer appends a message together with a change to it logged after the message was read. */
  predicate Tears(c: Client, r: Response, from: Keys, at: Keys) {
    exists m :: m in r.messages && Comes(c, r, m) && m.id in ChangedSince(r, at, from)
  }

  /** The oldest number vouched for once `page`, asked below `before`, has come in. */
  function FloorAfter(floor: int, page: seq<Message>, before: int): int {
    if before >= floor then Min(floor, FloorOf(page)) else floor
  }

  function Prepended(y: System, page: seq<Message>, before: int): System {
    y.(older := Idle, client := OlderArrived(y.client, page), floor := FloorAfter(y.floor, page, before),
       overtaken := y.overtaken || exists m :: m in page && m.id in y.touched && m.id !in Ids(y.client.list))
  }

  function Run(y: System, steps: seq<Step>): System
    decreases |steps|
  {
    if steps == [] then y else Run(Next(y, steps[0]), steps[1..])
  }

  // --- invariants ----------------------------------------------------------------------------

  ghost predicate Known(s: Server, m: Message) {
    1 <= m.num <= |s.rows| && SameOrigin(m, s.rows[m.num - 1]) && !m.deleted
  }

  ghost predicate InRange(s: Server, c: Client, floor: int, high: int) {
    && 0 <= c.cursors.after <= high <= |s.rows|
    && 0 <= c.cursors.afterDelete <= s.keys.deleteSeq
    && 0 <= c.cursors.afterEdit <= s.keys.editSeq
    && 1 <= floor <= high + 1
  }

  /** Every listed message is a row not above `high`; every live row the widget has seen is listed. */
  ghost predicate Tracks(s: Server, c: Client, high: int) {
    && (forall m :: m in c.list ==> Known(s, m) && m.num <= high)
    && DistinctIds(c.list)
    && (forall id :: id in c.seen ==> id in Ids(s.rows))
    && (forall i :: 0 <= i < |s.rows| && s.rows[i].id in c.seen ==>
          i < high && (s.rows[i].deleted || s.rows[i].id in Ids(c.list)))
  }

  /** No live row between `floor` and `high` is missing from the list. */
  ghost predicate Complete(s: Server, list: seq<Message>, floor: int, high: int)
    requires 1 <= floor && high <= |s.rows|
  {
    forall i :: floor - 1 <= i < high && !s.rows[i].deleted ==> s.rows[i].id in Ids(list)
  }

  /** The listed copy is the row, or the next poll will bring what it lacks. */
  ghost predicate Settled(s: Server, c: Cursors, m: Message)
    requires Known(s, m)
  {
    var row := s.rows[m.num - 1];
    if row.deleted then DeletePending(s.keys.deleteLog, c.afterDelete, m.id)
    else m == row || EditPending(s.keys.editLog, c.afterEdit, m.id)
  }

  ghost predicate AllSettled(s: Server, c: Client) {
    forall m :: m in c.list ==> Known(s, m) && Settled(s, c.cursors, m)
  }

  /** Ascending from `floor` on, and older pages given up only with the whole past loaded. */
  ghost predicate InOrder(c: Client, floor: int) {
    && Ascending(c.list)
    && (forall m :: m in c.list ==> floor <= m.num)
    && floor <= c.cursors.after + 1
    && (!c.hasMore ==> floor == 1)
  }

  /** The order of the list was never disturbed. */
  predicate Straight(y: System) { !y.dipped && !y.torn }

  /** No change was ever delivered ahead of the message it is about. */
  predicate Whole(y: System) { !y.overtaken && !y.torn }

  /** What is known about messages read from `from` for the cursors the client still has. */
  ghost predicate GoodRead(y: System, from: Server) {
    && Good(from) && Evolves(from, y.server)
    && 0 <= y.client.cursors.after
    && y.client.cursors.afterDelete <= from.keys.deleteSeq
    && y.client.cursors.afterEdit <= from.keys.editSeq
    && y.high <= |from.rows|
    && (Straight(y) ==> Complete(from, y.client.list, y.client.cursors.after + 1, y.high))
  }

  /** What is known about the poll in flight. */
  ghost predicate GoodPoll(y: System) {
    && (y.poll.Reading? ==>
          GoodRead(y, y.poll.from) && y.poll.messages == ReadMessages(y.poll.from, y.client.cursors.after))
    && (y.poll.Answered? ==>
          && GoodRead(y, y.poll.from)
          && Good(y.poll.at) && Evolves(y.poll.at, y.server) && Evolves(y.poll.from, y.poll.at)
          && (y.poll.response == NO_CONTENT || y.poll.response ==
                WithLogs(ReadMessages(y.poll.from, y.client.cursors.after), y.poll.at.keys, y.client.cursors)))
  }

  /** What is known about the older page in flight. */
  ghost predicate GoodOlder(y: System) {
    && (y.older.Idle? || (
          && 1 <= y.older.before <= y.high
          && (Straight(y) ==> y.floor <= y.older.before && forall m :: m in y.client.list ==> y.older.before <= m.num)))
    && (y.older.Arrived? ==> GoodPage(y.server, y.client.cursors, y.touched, y.older))
  }

  ghost predicate GoodPage(s: Server, c: Cursors, touched: set<Id>, older: Older)
    requires older.Arrived?
  {
    && Good(older.at) && Evolves(older.at, s)
    && older.page == PageBefore(older.at, older.before)
    && older.before <= |older.at.rows|
    && (forall e :: e in s.keys.deleteLog && e.score > older.at.keys.deleteSeq ==>
          e.member in touched || e.score > c.afterDelete)
    && (forall e :: e in s.keys.editLog && e.score > older.at.keys.editSeq ==>
          e.member.id in touched || e.score > c.afterEdit)
  }

  ghost predicate Inv(y: System) {
    && Good(y.server)
    && InRange(y.server, y.client, y.floor, y.high)
    && Tracks(y.server, y.client, y.high)
    && Complete(y.server, y.client.list, y.floor, y.high)
    && (Whole(y) ==> AllSettled(y.server, y.client))
    && (Straight(y) ==> InOrder(y.client, y.floor))
    && GoodPoll(y)
    && GoodOlder(y)
  }

  // --- the first page --------------------------------------------------------------------------

  lemma NewestIsRows(s: Server)
    requires Numbered(s.rows)
    ensures RowsOf(s.rows, NewestPage(s))
  {
    ReadIsRows(s.rows, NotDeleted());
    CutIsRows(s.rows, Live(s.rows), PAGE_LIMIT);
  }

  lemma BeforeIsRows(s: Server, before: int)
    requires Numbered(s.rows)
    ensures RowsOf(s.rows, PageBefore(s, before))
    ensures forall m :: m in PageBefore(s, before) ==> m.num < before
  {
    ReadIsRows(s.rows, OlderThan(before));
    CutIsRows(s.rows, LiveBefore(s.rows, before), PAGE_LIMIT);
  }

  lemma OpenInv(s: Server)
    requires Good(s)
    ensures Inv(Open(s))
  {
    var y, page := Open(s), NewestPage(s);
    NewestIsRows(s);
    FloorOfPage(page);
    OpenTracks(s, page);
    OpenComplete(s, page);
  }

  ghost predicate FloorBounds(page: seq<Message>, high: int) {
    && 1 <= FloorOf(page) <= high + 1
    && forall m :: m in page ==> FloorOf(page) <= m.num
  }

  lemma FloorOfPage(page: seq<Message>)
    requires Ascending(page) && forall m :: m in page ==> 1 <= m.num
    ensures FloorBounds(page, MaxNum(page, 0))
  {
    HeadIsMember(page);
  }

  lemma OpenTracks(s: Server, page: seq<Message>)
    requires Good(s) && RowsOf(s.rows, page)
    ensures MaxNum(page, 0) <= |s.rows|
    ensures Tracks(s, Opened(page), MaxNum(page, 0)) && AllSettled(s, Opened(page))
  {
    RowsDistinct(s.rows, page);
    forall m | m in page ensures Known(s, m) && m.num <= MaxNum(page, 0) {
      assert IsRow(s.rows, m);
    }
  }

  lemma OpenComplete(s: Server, page: seq<Message>)
    requires Good(s) && page == NewestPage(s) && RowsOf(s.rows, page)
    requires MaxNum(page, 0) <= |s.rows| && 1 <= FloorOf(page)
    ensures Complete(s, page, FloorOf(page), MaxNum(page, 0))
  {
    ReadIsRows(s.rows, NotDeleted());
    forall i | FloorOf(page) - 1 <= i < MaxNum(page, 0) && !s.rows[i].deleted ensures s.rows[i].id in Ids(page) {
      assert s.rows[i] in Live(s.rows);
      SuffixComplete(Live(s.rows), PAGE_LIMIT, s.rows[i]);
      HeadIsMember(page);
    }
  }

  // --- writes ----------------------------------------------------------------------------------

  lemma WrittenInv(y: System, w: Write)
    requires Inv(y)
    ensures Inv(Next(y, Written(w)))
  {
    WriteKeepsGood(y.server, w);
    TracksEvolves(y.server, w, y.client, y.high);
    EvolvedInv(y, Apply(y.server, w), Next(y, Written(w)));
  }

  lemma EvolvedInv(y: System, t: Server, z: System)
    requires Inv(y) && Good(t) && Evolves(y.server, t) && z == y.(server := t) && Tracks(t, y.client, y.high)
    ensures Inv(z)
  {
    var s := y.server;
    CompleteEvolves(s, t, y.client.list, y.floor, y.high);
    if y.poll.Reading? || y.poll.Answered? { EvolvesTransitive(y.poll.from, s, t); }
    if y.poll.Answered? { EvolvesTransitive(y.poll.at, s, t); }
    if Whole(y) { SettledEvolves(s, t, y.client); }
    if y.older.Arrived? {
      EvolvesTransitive(y.older.at, s, t);
      PageEvolves(s, t, y.client.cursors, y.touched, y.older);
    }
  }

  lemma TracksEvolves(s: Server, w: Write, c: Client, high: int)
    requires Good(s) && Evolves(s, Apply(s, w)) && Tracks(s, c, high) && high <= |s.rows|
    ensures Tracks(Apply(s, w), c, high)
  {
    var t := Apply(s, w);
    IdsGrow(s, t);
    assert forall i :: |s.rows| <= i < |t.rows| ==> t.rows[i].id !in Ids(s.rows);
    forall m | m in c.list ensures Known(t, m) {
      assert RowEvolves(s, t, m.num - 1);
    }
    forall i | 0 <= i < |t.rows| && t.rows[i].id in c.seen
      ensures i < high && (t.rows[i].deleted || t.rows[i].id in Ids(c.list))
    {
      if i < |s.rows| {
        assert RowEvolves(s, t, i);
      }
    }
  }

  lemma CompleteEvolves(s: Server, t: Server, list: seq<Message>, floor: int, high: int)
    requires Evolves(s, t) && 1 <= floor && high <= |s.rows| && Complete(s, list, floor, high)
    ensures Complete(t, list, floor, high)
  {
    forall i | floor - 1 <= i < high && !t.rows[i].deleted ensures t.rows[i].id in Ids(list) {
      assert RowEvolves(s, t, i);
    }
  }

  lemma IdsGrow(s: Server, t: Server)
    requires Evolves(s, t)
    ensures Ids(s.rows) <= Ids(t.rows)
  {
    forall id | id in Ids(s.rows) ensures id in Ids(t.rows) {
      var k :| 0 <= k < |s.rows| && s.rows[k].id == id;
      assert RowEvolves(s, t, k);
      assert t.rows[k] in t.rows;
    }
  }

  lemma SettledEvolves(s: Server, t: Server, c: Client)
    requires Evolves(s, t) && AllSettled(s, c)
    requires c.cursors.afterDelete <= s.keys.deleteSeq && c.cursors.afterEdit <= s.keys.editSeq
    ensures AllSettled(t, c)
  {
    forall m | m in c.list ensures Known(t, m) && Settled(t, c.cursors, m) {
      assert RowEvolves(s, t, m.num - 1);
      assert Settled(s, c.cursors, m);
      PendingWeaken(t.keys, s.keys, c.cursors, m.id);
    }
  }

  /** Pending above a counter is pending above any cursor not past that counter. */
  lemma PendingWeaken(k: Keys, from: Keys, c: Cursors, id: Id)
    requires c.afterDelete <= from.deleteSeq && c.afterEdit <= from.editSeq
    ensures DeletePending(k.deleteLog, from.deleteSeq, id) ==> DeletePending(k.deleteLog, c.afterDelete, id)
    ensures EditPending(k.editLog, from.editSeq, id) ==> EditPending(k.editLog, c.afterEdit, id)
  {
  }

  lemma PageEvolves(s: Server, t: Server, c: Cursors, touched: set<Id>, older: Older)
    requires older.Arrived? && GoodPage(s, c, touched, older)
    requires Evolves(s, t) && Evolves(older.at, t)
    requires c.afterDelete <= s.keys.deleteSeq && c.afterEdit <= s.keys.editSeq
    ensures GoodPage(t, c, touched, older)
  {
    var from := older.at.keys;
    forall e | e in t.keys.deleteLog && e.score > from.deleteSeq
      ensures e.member in touched || e.score > c.afterDelete
    {
      assert e.score <= s.keys.deleteSeq ==> e in s.keys.deleteLog;
    }
    forall e | e in t.keys.editLog && e.score > from.editSeq ensures e.member.id in touched || e.score > c.afterEdit {
      assert e.score <= s.keys.editSeq ==> e in s.keys.editLog;
    }
  }

  // --- a poll answer arrives ---------------------------------------------------------------------

  /** A client about to take in an answer `r` whose messages were read from `from` and whose logs from `at`. */
  ghost predicate Receiving(r: Response, from: Server, at: Server, s: Server, c: Client, floor: int, high: int) {
    && Answers(r, from, at, c.cursors)
    && GoodDeletes(at) && EditsKnown(at)
    && Numbered(from.rows) && Numbered(s.rows) && Evolves(from, at) && Evolves(from, s) && Evolves(at, s)
    && InRange(s, c, floor, high)
    && Tracks(s, c, high)
    && c.cursors.afterDelete <= from.keys.deleteSeq
    && c.cursors.afterEdit <= from.keys.editSeq
    && high <= |from.rows|
  }

  /** A row whose id a poll reports as deleted is deleted, then and later. */
  lemma ReportedIsDeleted(r: Response, at: Server, s: Server, c: Cursors, i: nat)
    requires AnswersDeletes(r, at.keys, c.afterDelete) && GoodDeletes(at) && Numbered(s.rows) && Evolves(at, s)
    requires i < |s.rows| && s.rows[i].id in r.deleted
    ensures s.rows[i].deleted
  {
    var id := s.rows[i].id;
    var e :| e in at.keys.deleteLog && e.member == id && e.score > c.afterDelete;
    var j :| 0 <= j < |at.rows| && at.rows[j].id == id;
    assert LoggedDelete(at.keys.deleteLog, at.rows[j].id);
    assert RowEvolves(at, s, j);
  }

  /** A message read from `at` is the row of the same number later on, and no other row has its id. */
  lemma RowLater(at: Server, s: Server, m: Message)
    requires Evolves(at, s) && Numbered(s.rows) && IsRow(at.rows, m)
    ensures Known(s, m)
    ensures forall i :: 0 <= i < |s.rows| && s.rows[i].id == m.id ==> i == m.num - 1
    ensures !s.rows[m.num - 1].deleted ==>
              s.rows[m.num - 1] == m || EditPending(s.keys.editLog, at.keys.editSeq, m.id)
    ensures s.rows[m.num - 1].deleted ==> DeletePending(s.keys.deleteLog, at.keys.deleteSeq, m.id)
  {
    assert RowEvolves(at, s, m.num - 1);
  }

  lemma NewsAreRows(r: Response, from: Server, c: Client, d: Client, news: seq<Message>)
    requires AnswersMessages(r.messages, from.rows, c.cursors.after) && Delivered(c, d, r, news)
    requires c.cursors.after <= |from.rows|
    ensures forall m :: m in news ==> IsRow(from.rows, m) && c.cursors.after < m.num <= d.cursors.after
    ensures d.cursors.after <= |from.rows|
  {
  }

  lemma DoneTracks(
    r: Response, from: Server, at: Server, s: Server, c: Client, d: Client, news: seq<Message>, floor: int, high: int)
    requires Receiving(r, from, at, s, c, floor, high) && Delivered(c, d, r, news) && DistinctIds(d.list)
    ensures InRange(s, d, floor, Max(high, d.cursors.after)) && Tracks(s, d, Max(high, d.cursors.after))
  {
    var h := Max(high, d.cursors.after);
    NewsAreRows(r, from, c, d, news);
    IdsGrow(from, s);
    forall m | m in d.list ensures Known(s, m) && m.num <= h {
      ListedStaysKnown(r, from, s, c, d, news, high, m);
    }
    forall id | id in Ids(news) ensures id in Ids(s.rows) {
      var m :| m in news && m.id == id;
      assert from.rows[m.num - 1] in from.rows;
    }
    forall i | 0 <= i < |s.rows| && s.rows[i].id in d.seen
      ensures i < h && (s.rows[i].deleted || s.rows[i].id in Ids(d.list))
    {
      SeenStaysListed(r, from, at, s, c, d, news, floor, high, i);
    }
  }

  lemma ListedStaysKnown(
    r: Response, from: Server, s: Server, c: Client, d: Client, news: seq<Message>, high: int, m: Message)
    requires Evolves(from, s) && Numbered(s.rows) && Tracks(s, c, high) && Delivered(c, d, r, news)
    requires AnswersMessages(r.messages, from.rows, c.cursors.after) && m in d.list
    ensures Known(s, m) && m.num <= Max(high, d.cursors.after)
  {
    if m in news {
      RowLater(from, s, m);
    } else {
      var prior :| Carried(c.list, r, prior, m);
      EditedKnown(s, prior, r.edits);
    }
  }

  lemma EditedKnown(s: Server, m: Message, edits: seq<Edit>)
    requires Known(s, m)
    ensures Known(s, Edited(m, edits)) && Edited(m, edits).num == m.num && Edited(m, edits).id == m.id
  {
  }

  lemma SeenStaysListed(
    r: Response, from: Server, at: Server, s: Server, c: Client, d: Client, news: seq<Message>, floor: int, high: int,
    i: nat)
    requires Receiving(r, from, at, s, c, floor, high) && Delivered(c, d, r, news)
    requires i < |s.rows| && s.rows[i].id in d.seen
    ensures i < Max(high, d.cursors.after) && (s.rows[i].deleted || s.rows[i].id in Ids(d.list))
  {
    var id := s.rows[i].id;
    if id in Ids(news) {
      var m :| m in news && m.id == id;
      RowLater(from, s, m);
    } else if id in r.deleted {
      ReportedIsDeleted(r, at, s, c.cursors, i);
    }
  }

  lemma DoneComplete(
    r: Response, from: Server, at: Server, s: Server, c: Client, d: Client, news: seq<Message>, floor: int, high: int)
    requires Receiving(r, from, at, s, c, floor, high) && Delivered(c, d, r, news)
    requires Complete(s, c.list, floor, high)
    ensures Max(high, d.cursors.after) <= |s.rows|
    ensures Complete(s, d.list, floor, Max(high, d.cursors.after))
  {
    NewsAreRows(r, from, c, d, news);
    forall i | floor - 1 <= i < Max(high, d.cursors.after) && !s.rows[i].deleted
      ensures s.rows[i].id in Ids(d.list)
    {
      if i >= high {
        NextIsNews(r, from, at, s, c, d, news, floor, high, i);
      } else if s.rows[i].id in r.deleted {
        ReportedIsDeleted(r, at, s, c.cursors, i);
      }
    }
  }

  /** A live row past `high`, up to the new cursor, is among the news. */
  lemma NextIsNews(
    r: Response, from: Server, at: Server, s: Server, c: Client, d: Client, news: seq<Message>, floor: int, high: int,
    i: nat)
    requires Receiving(r, from, at, s, c, floor, high) && Delivered(c, d, r, news)
    requires high <= i < d.cursors.after <= |from.rows| && !s.rows[i].deleted
    ensures s.rows[i].id in Ids(news)
  {
    var row := from.rows[i];
    assert RowEvolves(from, s, i);
    var last :| last in news && last.num == d.cursors.after;
    assert row in r.messages;
    assert row in news;
  }

  lemma DoneSettled(
    r: Response, from: Server, at: Server, s: Server, c: Client, d: Client, news: seq<Message>, floor: int, high: int)
    requires Receiving(r, from, at, s, c, floor, high) && Delivered(c, d, r, news) && DistinctIds(d.list)
    requires AllSettled(s, c) && !Tears(c, r, from.keys, at.keys)
    ensures AllSettled(s, d)
  {
    forall m | m in d.list ensures Known(s, m) && Settled(s, d.cursors, m) {
      ListedStaysKnown(r, from, s, c, d, news, high, m);
      if m.id in Ids(c.list) && m.id !in r.deleted {
        var prior :| prior in c.list && prior.id == m.id;
        EditedKnown(s, prior, r.edits);
        assert Carried(c.list, r, prior, Edited(prior, r.edits));
        OneCopy(d.list, m, Edited(prior, r.edits));
        PriorSettled(r, at, s, c, d, prior, m);
      } else {
        assert m in news;
        NewsSettled(r, from, at, s, c.cursors, d.cursors, m);
      }
    }
  }

  lemma OneCopy(list: seq<Message>, a: Message, b: Message)
    requires DistinctIds(list) && a in list && b in list && a.id == b.id
    ensures a == b
  {
    var i :| 0 <= i < |list| && list[i] == a;
    var j :| 0 <= j < |list| && list[j] == b;
  }

  /** A new message no change of which came with it: what has changed since is still to come. */
  lemma NewsSettled(r: Response, from: Server, at: Server, s: Server, c: Cursors, d: Cursors, m: Message)
    requires IsRow(from.rows, m) && Evolves(from, s) && Evolves(at, s) && Numbered(s.rows)
    requires AnswersDeletes(r, at.keys, c.afterDelete) && AnswersEdits(r, at, c.afterEdit)
    requires c.afterDelete <= from.keys.deleteSeq && c.afterEdit <= from.keys.editSeq
    requires from.keys.deleteSeq <= at.keys.deleteSeq && from.keys.editSeq <= at.keys.editSeq
    requires d.afterDelete == Max(c.afterDelete, r.lastDelete) && d.afterEdit == Max(c.afterEdit, r.lastEdit)
    requires m.id !in ChangedSince(r, at.keys, from.keys)
    ensures Known(s, m) && Settled(s, d, m)
  {
    RowLater(from, s, m);
    if DeletePending(s.keys.deleteLog, from.keys.deleteSeq, m.id) {
      var e :| e in s.keys.deleteLog && e.member == m.id && e.score > from.keys.deleteSeq;
      if e.score <= at.keys.deleteSeq {
        assert e in at.keys.deleteLog;
        assert DeletePending(at.keys.deleteLog, c.afterDelete, m.id);
      }
    }
    if EditPending(s.keys.editLog, from.keys.editSeq, m.id) {
      var e :| e in s.keys.editLog && e.member.id == m.id && e.score > from.keys.editSeq;
      if e.score <= at.keys.editSeq {
        assert e in at.keys.editLog;
        assert EditPending(at.keys.editLog, c.afterEdit, m.id);
        assert EditFor(r.edits, m.id).Some?;
      }
    }
  }

  /** A listed message not reported deleted: what the answer left out of it is still to come. */
  lemma PriorSettled(r: Response, at: Server, s: Server, c: Client, d: Client, prior: Message, m: Message)
    requires AnswersDeletes(r, at.keys, c.cursors.afterDelete) && AnswersEdits(r, at, c.cursors.afterEdit)
    requires Evolves(at, s) && Numbered(s.rows)
    requires c.cursors.afterDelete <= at.keys.deleteSeq && c.cursors.afterEdit <= at.keys.editSeq
    requires d.cursors.afterDelete == Max(c.cursors.afterDelete, r.lastDelete)
    requires d.cursors.afterEdit == Max(c.cursors.afterEdit, r.lastEdit)
    requires EditsKnown(at) && AllSettled(s, c) && Carried(c.list, r, prior, m)
    ensures Known(s, m) && Settled(s, d.cursors, m)
  {
    var row := s.rows[m.num - 1];
    assert Settled(s, c.cursors, prior);
    if row.deleted {
      DeletionStillPending(r, at, s, c.cursors, d.cursors, prior.id);
    } else if EditFor(r.edits, prior.id).Some? {
      EditedIsRow(r, at, s, c.cursors, prior);
      PendingWeaken(s.keys, at.keys, d.cursors, m.id);
    } else if prior != row {
      EditStillPending(r, at, s, c.cursors, d.cursors, prior.id);
    }
  }

  lemma DeletionStillPending(r: Response, at: Server, s: Server, c: Cursors, d: Cursors, id: Id)
    requires AnswersDeletes(r, at.keys, c.afterDelete) && Evolves(at, s) && c.afterDelete <= at.keys.deleteSeq
    requires d.afterDelete == Max(c.afterDelete, r.lastDelete)
    requires DeletePending(s.keys.deleteLog, c.afterDelete, id) && id !in r.deleted
    ensures DeletePending(s.keys.deleteLog, d.afterDelete, id)
  {
    var e :| e in s.keys.deleteLog && e.member == id && e.score > c.afterDelete;
    assert e.score > at.keys.deleteSeq;
  }

  lemma EditStillPending(r: Response, at: Server, s: Server, c: Cursors, d: Cursors, id: Id)
    requires AnswersEdits(r, at, c.afterEdit) && Evolves(at, s) && c.afterEdit <= at.keys.editSeq
    requires d.afterEdit == Max(c.afterEdit, r.lastEdit)
    requires EditPending(s.keys.editLog, c.afterEdit, id) && EditFor(r.edits, id).None?
    ensures EditPending(s.keys.editLog, d.afterEdit, id)
  {
    var e :| e in s.keys.editLog && e.member.id == id && e.score > c.afterEdit;
    assert e.score > at.keys.editSeq;
  }

  /** An edited copy of a live row is the row as read, so any difference is a later, logged edit. */
  lemma EditedIsRow(r: Response, at: Server, s: Server, c: Cursors, prior: Message)
    requires AnswersEdits(r, at, c.afterEdit) && Evolves(at, s) && Numbered(s.rows)
    requires Known(s, prior) && !s.rows[prior.num - 1].deleted
    requires EditsKnown(at)
    requires EditFor(r.edits, prior.id).Some?
    ensures Edited(prior, r.edits) == s.rows[prior.num - 1] || EditPending(s.keys.editLog, at.keys.editSeq, prior.id)
  {
    var e :| e in at.keys.editLog && e.member.id == prior.id && e.score > c.afterEdit;
    var i :| 0 <= i < |at.rows| && at.rows[i].id == prior.id;
    assert RowEvolves(at, s, i);
    assert i == prior.num - 1;
    assert Edited(prior, r.edits) == at.rows[i];
  }

  lemma DoneOrder(r: Response, from: Server, at: Server, c: Client, floor: int, high: int)
    requires Answers(r, from, at, c.cursors) && GoodDeletes(from) && Numbered(from.rows) && Evolves(from, at)
    requires InOrder(c, floor) && (forall m :: m in c.list ==> m.num <= high) && !Tears(c, r, from.keys, at.keys)
    requires 0 <= c.cursors.after && high <= |from.rows| && Complete(from, c.list, c.cursors.after + 1, high)
    ensures InOrder(Deliver(c, r), floor)
    ensures forall m :: m in Deliver(c, r).list ==>
              m.num > high || exists prior :: prior in c.list && prior.num == m.num
  {
    var news := News(c, r);
    FilterAscending(r.messages, Unseen(c.seen));
    forall m | m in news && m.num <= high ensures m.id in Ids(c.list) && m.id !in r.deleted {
      AlreadyListed(r, from, at, c, high, m);
    }
    MergeAscending(c.list, news, r.deleted, r.edits, high);
    forall m | m in Deliver(c, r).list && m.num <= high ensures exists prior :: prior in c.list && prior.num == m.num {
      MergeNums(c.list, news, r.deleted, r.edits, high, m);
    }
  }

  lemma AlreadyListed(r: Response, from: Server, at: Server, c: Client, high: int, m: Message)
    requires Answers(r, from, at, c.cursors) && GoodDeletes(from) && Numbered(from.rows) && Evolves(from, at)
    requires 0 <= c.cursors.after && high <= |from.rows| && Complete(from, c.list, c.cursors.after + 1, high)
    requires m in r.messages && m.num <= high && m.id !in c.seen && !Tears(c, r, from.keys, at.keys)
    ensures m.id in Ids(c.list) && m.id !in r.deleted
  {
    assert IsRow(from.rows, m);
    assert from.rows[m.num - 1].id == m.id;
    DeletedAfterwards(r, from, at, c.cursors, m);
    assert m.id in r.deleted ==> Comes(c, r, m);
  }

  /** A message read live and reported deleted in one answer was deleted between the two reads. */
  lemma DeletedAfterwards(r: Response, from: Server, at: Server, c: Cursors, m: Message)
    requires AnswersDeletes(r, at.keys, c.afterDelete) && GoodDeletes(from) && Evolves(from, at) && IsRow(from.rows, m)
    ensures m.id in r.deleted ==> m.id in ChangedSince(r, at.keys, from.keys)
  {
    if m.id in r.deleted {
      var e :| e in at.keys.deleteLog && e.member == m.id && e.score > c.afterDelete;
      assert !LoggedDelete(from.keys.deleteLog, from.rows[m.num - 1].id);
      assert e !in from.keys.deleteLog;
    }
  }

  /** Changes to the page in flight that the answer brought are remembered in `touched`. */
  lemma PageAfterPoll(r: Response, at: Server, s: Server, c: Cursors, d: Cursors, touched: set<Id>, older: Older)
    requires older.Arrived? && GoodPage(s, c, touched, older)
    requires AnswersDeletes(r, at.keys, c.afterDelete) && AnswersEdits(r, at, c.afterEdit) && Evolves(at, s)
    requires c.afterDelete <= at.keys.deleteSeq && c.afterEdit <= at.keys.editSeq
    requires d.afterDelete == Max(c.afterDelete, r.lastDelete)
    requires d.afterEdit == Max(c.afterEdit, r.lastEdit)
    ensures GoodPage(s, d, touched + ChangedSince(r, at.keys, older.at.keys), older)
  {
    var page, after := older.at.keys, touched + ChangedSince(r, at.keys, older.at.keys);
    forall e | e in s.keys.deleteLog && e.score > page.deleteSeq ensures e.member in after || e.score > d.afterDelete {
      if c.afterDelete < e.score <= d.afterDelete {
        assert e in at.keys.deleteLog;
        assert DeletePending(at.keys.deleteLog, page.deleteSeq, e.member);
        assert DeletePending(at.keys.deleteLog, c.afterDelete, e.member);
      }
    }
    forall e | e in s.keys.editLog && e.score > page.editSeq ensures e.member.id in after || e.score > d.afterEdit {
      if c.afterEdit < e.score <= d.afterEdit {
        assert e in at.keys.editLog;
        assert EditPending(at.keys.editLog, page.editSeq, e.member.id);
        assert EditPending(at.keys.editLog, c.afterEdit, e.member.id);
        assert EditFor(r.edits, e.member.id).Some?;
      }
    }
  }

  lemma DoneInv(y: System)
    requires Inv(y) && y.poll.Answered?
    ensures Inv(Next(y, PollDone))
  {
    PollDoneReceives(y);
    if y.poll.response == NO_CONTENT {
      NothingInv(y);
    } else {
      ReadAnswers(y.poll.from, y.poll.at, y.client.cursors);
      AnswerInv(y);
    }
  }

  lemma PollDoneReceives(y: System)
    requires y.poll.Answered?
    ensures Next(y, PollDone) == Received(y, y.poll.response)
  {
  }

  lemma NothingReceived(y: System)
    requires y.poll.Answered? && y.poll.response == NO_CONTENT && y.client.cursors.after <= y.high
    requires 0 <= y.client.cursors.afterDelete && 0 <= y.client.cursors.afterEdit
    ensures Next(y, PollDone) == y.(poll := Ready, client := y.client.(retryDelay := FIRST_DELAY))
  {
    DeliverNothing(y.client);
    assert ChangedSince(NO_CONTENT, y.poll.at.keys, y.poll.from.keys) == {};
    assert !Tears(y.client, NO_CONTENT, y.poll.from.keys, y.poll.at.keys);
    if y.older.Arrived? {
      assert ChangedSince(NO_CONTENT, y.poll.at.keys, y.older.at.keys) == {};
    }
  }

  lemma NothingInv(y: System)
    requires Inv(y) && y.poll.Answered? && y.poll.response == NO_CONTENT
    ensures Inv(Next(y, PollDone))
  {
    NothingReceived(y);
    DelayInv(y, Next(y, PollDone));
  }

  /** Neither the wait of the poll loop nor an empty answer touches anything the invariant is about. */
  lemma DelayInv(y: System, z: System)
    requires Inv(y) && z == y.(poll := Ready, client := z.client)
    requires z.client == y.client.(retryDelay := FIRST_DELAY)
    ensures Inv(z)
  {
  }

  lemma AnswerInv(y: System)
    requires Inv(y) && y.poll.Answered? && Answers(y.poll.response, y.poll.from, y.poll.at, y.client.cursors)
    ensures Inv(Received(y, y.poll.response))
  {
    var r, from, at := y.poll.response, y.poll.from, y.poll.at;
    DeliverFacts(y.client, r);
    AnswerDistinct(r, from, at, y.client);
    AnswerOrder(y, r, from, at);
    AnswerState(y, Deliver(y.client, r), News(y.client, r), Received(y, r));
  }

  lemma AnswerState(y: System, d: Client, news: seq<Message>, z: System)
    requires Inv(y) && y.poll.Answered? && Answers(y.poll.response, y.poll.from, y.poll.at, y.client.cursors)
    requires Delivered(y.client, d, y.poll.response, news) && DistinctIds(d.list)
    requires z.server == y.server && z.client == d && z.poll == Ready && z.floor == y.floor
    requires z.high == Max(y.high, d.cursors.after) && z.dipped == y.dipped && z.overtaken == y.overtaken
    requires z.torn == (y.torn || Tears(y.client, y.poll.response, y.poll.from.keys, y.poll.at.keys))
    requires (Straight(z) ==> InOrder(d, y.floor)) && GoodOlder(z)
    ensures Inv(z)
  {
    var r, from, at := y.poll.response, y.poll.from, y.poll.at;
    DoneTracks(r, from, at, y.server, y.client, d, news, y.floor, y.high);
    DoneComplete(r, from, at, y.server, y.client, d, news, y.floor, y.high);
    if Whole(z) { DoneSettled(r, from, at, y.server, y.client, d, news, y.floor, y.high); }
  }

  lemma AnswerDistinct(r: Response, from: Server, at: Server, c: Client)
    requires Answers(r, from, at, c.cursors) && Numbered(from.rows) && DistinctIds(c.list)
    ensures DistinctIds(Deliver(c, r).list)
  {
    RowsDistinct(from.rows, r.messages);
    FilterDistinct(r.messages, Unseen(c.seen));
    MergeDistinct(c.list, News(c, r), r.deleted, r.edits);
  }

  lemma AnswerOrder(y: System, r: Response, from: Server, at: Server)
    requires Inv(y) && y.poll.Answered? && r == y.poll.response && from == y.poll.from && at == y.poll.at
    requires Answers(r, from, at, y.client.cursors)
    ensures Straight(Received(y, r)) ==> InOrder(Deliver(y.client, r), y.floor)
    ensures GoodOlder(Received(y, r))
  {
    if Straight(Received(y, r)) { DoneOrder(r, from, at, y.client, y.floor, y.high); }
    AnswerPage(y, r, from, at);
  }

  lemma AnswerPage(y: System, r: Response, from: Server, at: Server)
    requires GoodPoll(y) && GoodOlder(y) && y.poll.Answered? && from == y.poll.from && at == y.poll.at
    requires Answers(r, from, at, y.client.cursors)
    ensures y.older.Arrived? ==>
      GoodPage(y.server, Deliver(y.client, r).cursors, y.touched + ChangedSince(r, at.keys, y.older.at.keys), y.older)
  {
    if y.older.Arrived? {
      PageAfterPoll(r, at, y.server, y.client.cursors, Deliver(y.client, r).cursors, y.touched, y.older);
    }
  }

  // --- the other steps of the poll loop ----------------------------------------------------------

  lemma StartInv(y: System)
    requires Inv(y)
    ensures Inv(Next(y, PollStart))
  {
    FastIsSlow(y.server, y.client.cursors.after);
    if y.poll.Ready? { ReadingInv(y, Next(y, PollStart), true); }
  }

  lemma WakeInv(y: System)
    requires Inv(y)
    ensures Inv(Next(y, PollWake))
  {
    if y.poll.Waiting? { ReadingInv(y, Next(y, PollWake), false); }
  }

  lemma ReadingInv(y: System, z: System, fast: bool)
    requires Inv(y) && z == y.(poll := Reading(ReadMessages(y.server, y.client.cursors.after), y.server, fast))
    ensures Inv(z)
  {
    EvolvesReflexive(y.server);
    if Straight(y) { CompleteAbove(y.server, y.client.list, y.floor, y.client.cursors.after + 1, y.high); }
  }

  lemma CompleteAbove(s: Server, list: seq<Message>, floor: int, higher: int, high: int)
    requires 1 <= floor <= higher && high <= |s.rows| && Complete(s, list, floor, high)
    ensures Complete(s, list, higher, high)
  {
  }

  lemma LogsInv(y: System)
    requires Inv(y) && y.poll.Reading?
    ensures Inv(Next(y, PollLogs))
  {
    EvolvesReflexive(y.server);
  }

  lemma TimeoutInv(y: System)
    requires Inv(y)
    ensures Inv(Next(y, PollTimeout))
  {
    EvolvesReflexive(y.server);
    if Straight(y) { CompleteAbove(y.server, y.client.list, y.floor, y.client.cursors.after + 1, y.high); }
  }

  lemma LimitedInv(y: System)
    requires Inv(y)
    ensures Inv(Next(y, PollLimited))
  {
    if y.poll.Ready? { DelayInv(y, Next(y, PollLimited)); }
  }

  lemma FailedInv(y: System)
    requires Inv(y)
    ensures Inv(Next(y, PollFailed))
  {
  }

  // --- older pages ---------------------------------------------------------------------------------

  lemma OlderAskInv(y: System)
    requires Inv(y)
    ensures Inv(Next(y, OlderAsk))
  {
    HeadIsMember(y.client.list);
  }

  lemma OlderServeInv(y: System)
    requires Inv(y)
    ensures Inv(Next(y, OlderServe))
  {
    EvolvesReflexive(y.server);
  }

  /** Every live row from the page's floor up to `before` is on the page. */
  lemma PageHasAll(at: Server, before: int, i: nat)
    requires Numbered(at.rows) && i < |at.rows| && !at.rows[i].deleted
    requires FloorOf(PageBefore(at, before)) <= i + 1 < before
    ensures at.rows[i].id in Ids(PageBefore(at, before))
  {
    ReadIsRows(at.rows, OlderThan(before));
    assert at.rows[i] in LiveBefore(at.rows, before);
    SuffixComplete(LiveBefore(at.rows, before), PAGE_LIMIT, at.rows[i]);
    HeadIsMember(PageBefore(at, before));
  }

  lemma PrependedComplete(at: Server, s: Server, list: seq<Message>, before: int, floor: int, high: int)
    requires Numbered(at.rows) && Evolves(at, s) && before <= |at.rows|
    requires 1 <= floor <= before && high <= |s.rows| && Complete(s, list, floor, high)
    requires 1 <= FloorOf(PageBefore(at, before))
    ensures Complete(s, MergeOlder(list, PageBefore(at, before)), Min(floor, FloorOf(PageBefore(at, before))), high)
  {
    var page := PageBefore(at, before);
    OlderMembers(list, page);
    forall i | Min(floor, FloorOf(page)) - 1 <= i < high && !s.rows[i].deleted
      ensures s.rows[i].id in Ids(MergeOlder(list, page))
    {
      if i < floor - 1 {
        assert RowEvolves(at, s, i);
        PageHasAll(at, before, i);
      }
    }
  }

  lemma PrependedTracks(at: Server, s: Server, c: Client, page: seq<Message>, high: int)
    requires Numbered(at.rows) && Numbered(s.rows) && Evolves(at, s) && Tracks(s, c, high)
    requires RowsOf(at.rows, page) && forall m :: m in page ==> m.num <= high
    ensures Tracks(s, OlderArrived(c, page), high)
  {
    RowsDistinct(at.rows, page);
    OlderMembers(c.list, page);
    forall m | m in MergeOlder(c.list, page) ensures Known(s, m) && m.num <= high {
      if m !in c.list {
        assert IsRow(at.rows, m);
        RowLater(at, s, m);
      }
    }
  }

  lemma PrependedSettled(s: Server, c: Client, touched: set<Id>, older: Older)
    requires older.Arrived? && GoodPage(s, c.cursors, touched, older) && Numbered(s.rows)
    requires RowsOf(older.at.rows, older.page) && AllSettled(s, c)
    requires forall m :: m in older.page && m.id in touched ==> m.id in Ids(c.list)
    ensures AllSettled(s, OlderArrived(c, older.page))
  {
    forall m | m in MergeOlder(c.list, older.page) ensures Known(s, m) && Settled(s, c.cursors, m) {
      if m !in c.list {
        assert m in older.page && m.id !in Ids(c.list);
        assert IsRow(older.at.rows, m);
        RowLater(older.at, s, m);
        PageCopySettled(s, c.cursors, touched, older, m.id);
      }
    }
  }

  /** A change logged after the page was read is still to come, unless it has touched the message. */
  lemma PageCopySettled(s: Server, c: Cursors, touched: set<Id>, older: Older, id: Id)
    requires older.Arrived? && GoodPage(s, c, touched, older) && id !in touched
    ensures DeletePending(s.keys.deleteLog, older.at.keys.deleteSeq, id) ==>
              DeletePending(s.keys.deleteLog, c.afterDelete, id)
    ensures EditPending(s.keys.editLog, older.at.keys.editSeq, id) ==> EditPending(s.keys.editLog, c.afterEdit, id)
  {
  }

  lemma PrependedOrder(c: Client, page: seq<Message>, before: int, floor: int)
    requires InOrder(c, floor) && Ascending(page) && |page| <= PAGE_LIMIT && 1 <= floor <= before
    requires forall m :: m in c.list ==> before <= m.num
    requires forall m :: m in page ==> 1 <= m.num < before
    ensures InOrder(OlderArrived(c, page), Min(floor, FloorOf(page)))
  {
    OlderAscending(c.list, page, before);
    HeadIsMember(page);
  }

  lemma OlderDoneInv(y: System)
    requires Inv(y) && y.older.Arrived?
    ensures Inv(Next(y, OlderDone))
  {
    OlderDonePrepends(y);
    PrependedInv(y, Next(y, OlderDone));
  }

  lemma OlderDonePrepends(y: System)
    requires y.older.Arrived?
    ensures Next(y, OlderDone) == Prepended(y, y.older.page, y.older.before)
  {
  }

  lemma PrependedInv(y: System, z: System)
    requires Inv(y) && y.older.Arrived? && z == Prepended(y, y.older.page, y.older.before)
    ensures Inv(z)
  {
    PrependedRange(y);
    PrependedAll(y);
    PrependedStraight(y);
    PrependedWhole(y);
    PrependedPoll(y);
    PrependedState(y, z.client, z.floor, z);
  }

  lemma PrependedState(y: System, d: Client, floor: int, z: System)
    requires Good(y.server) && InRange(y.server, y.client, y.floor, y.high)
    requires z.server == y.server && z.client == d && z.floor == floor && z.high == y.high
    requires z.dipped == y.dipped && z.torn == y.torn && z.older.Idle? && GoodPoll(z)
    requires 1 <= floor <= y.floor && d.cursors == y.client.cursors
    requires Tracks(y.server, d, y.high) && Complete(y.server, d.list, floor, y.high)
    requires Straight(y) ==> InOrder(d, floor)
    requires Whole(z) ==> AllSettled(y.server, d)
    ensures Inv(z)
  {
  }

  lemma PrependedWhole(y: System)
    requires Inv(y) && y.older.Arrived?
    ensures var z := Prepended(y, y.older.page, y.older.before); Whole(z) ==> AllSettled(y.server, z.client)
  {
    if Whole(Prepended(y, y.older.page, y.older.before)) {
      BeforeIsRows(y.older.at, y.older.before);
      PrependedSettled(y.server, y.client, y.touched, y.older);
    }
  }

  lemma PrependedAll(y: System)
    requires Inv(y) && y.older.Arrived?
    requires 1 <= FloorOf(y.older.page)
    ensures Complete(y.server, MergeOlder(y.client.list, y.older.page),
                     FloorAfter(y.floor, y.older.page, y.older.before), y.high)
  {
    if y.floor <= y.older.before {
      PrependedComplete(y.older.at, y.server, y.client.list, y.older.before, y.floor, y.high);
    } else {
      OlderMembers(y.client.list, y.older.page);
    }
  }

  lemma PageRange(at: Server, before: int, page: seq<Message>)
    requires Numbered(at.rows) && page == PageBefore(at, before)
    ensures 1 <= FloorOf(page) && RowsOf(at.rows, page) && |page| <= PAGE_LIMIT
    ensures forall m :: m in page ==> 1 <= m.num < before
  {
    BeforeIsRows(at, before);
    HeadIsMember(page);
  }

  lemma PrependedRange(y: System)
    requires Inv(y) && y.older.Arrived?
    ensures 1 <= FloorOf(y.older.page)
    ensures Tracks(y.server, OlderArrived(y.client, y.older.page), y.high)
  {
    PageRange(y.older.at, y.older.before, y.older.page);
    PrependedTracks(y.older.at, y.server, y.client, y.older.page, y.high);
  }

  lemma PrependedStraight(y: System)
    requires Inv(y) && y.older.Arrived?
    ensures Straight(y) ==>
              InOrder(OlderArrived(y.client, y.older.page), FloorAfter(y.floor, y.older.page, y.older.before))
  {
    if Straight(y) {
      PageRange(y.older.at, y.older.before, y.older.page);
      PrependedOrder(y.client, y.older.page, y.older.before, y.floor);
    }
  }

  /** A longer list loses nothing the poll answer in flight relies on. */
  lemma PrependedPoll(y: System)
    requires GoodPoll(y) && y.older.Arrived?
    ensures GoodPoll(Prepended(y, y.older.page, y.older.before))
  {
    OlderMembers(y.client.list, y.older.page);
  }

  // --- every run -----------------------------------------------------------------------------------

  lemma StepInv(y: System, step: Step)
    requires Inv(y)
    ensures Inv(Next(y, step))
  {
    match step
    case Written(w) => WrittenInv(y, w);
    case PollDone => if y.poll.Answered? { DoneInv(y); }
    case OlderAsk => OlderAskInv(y);
    case OlderServe => OlderServeInv(y);
    case OlderDone => if y.older.Arrived? { OlderDoneInv(y); }
    case OlderFailed =>
    case PollLogs => if y.poll.Reading? { LogsInv(y); }
    case PollTimeout => TimeoutInv(y);
    case PollFailed => FailedInv(y);
    case PollLimited => LimitedInv(y);
    case PollStart => StartInv(y);
    case PollWake => WakeInv(y);
  }

  lemma {:induction false} RunInv(y: System, steps: seq<Step>)
    requires Inv(y)
    ensures Inv(Run(y, steps))
    decreases |steps|
  {
    if steps != [] {
      StepInv(y, steps[0]);
      RunInv(Next(y, steps[0]), steps[1..]);
    }
  }
}

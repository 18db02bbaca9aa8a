/** What the protocol guarantees in every run, and runs that show where the guarantees stop. */
module Outcomes {
  import opened Lists
  import opened Messages
  import opened Servers
  import opened Polling
  import opened Merging
  import opened Replication
  import opened Convergence

  /** The state after writing `ws` to a new chat, opening the widget, and then `steps`. */
  function After(ws: seq<Write>, steps: seq<Step>): System {
    Run(Open(ApplyAll(EMPTY_CHAT, ws)), steps)
  }

  lemma EveryRun(ws: seq<Write>, steps: seq<Step>)
    ensures Inv(After(ws, steps))
  {
    WritesKeepGood(EMPTY_CHAT, ws);
    OpenInv(ApplyAll(EMPTY_CHAT, ws));
    RunInv(Open(ApplyAll(EMPTY_CHAT, ws)), steps);
  }

  /** Every live message from the oldest loaded one to the highest cursor value is listed. */
  lemma NoSkippedMessage(ws: seq<Write>, steps: seq<Step>, i: nat)
    requires var y := After(ws, steps); y.floor <= i + 1 <= y.high
    ensures var y := After(ws, steps);
      i < |y.server.rows| && (y.server.rows[i].deleted || y.server.rows[i].id in Ids(y.client.list))
  {
    EveryRun(ws, steps);
  }

  /** While nothing disturbed the order, a widget that offers no older page has every live message up to its cursor. */
  lemma NoMoreMeansAll(ws: seq<Write>, steps: seq<Step>, i: nat)
    requires var y := After(ws, steps); Straight(y) && !y.client.hasMore && i < y.high
    ensures var y := After(ws, steps);
      i < |y.server.rows| && (y.server.rows[i].deleted || y.server.rows[i].id in Ids(y.client.list))
  {
    EveryRun(ws, steps);
  }

  /** Nothing is listed twice, everything listed was sent, and the order is that of the numbers. */
  lemma OrderAndUniqueness(ws: seq<Write>, steps: seq<Step>)
    ensures var y := After(ws, steps);
      && DistinctIds(y.client.list)
      && (forall m :: m in y.client.list ==> Known(y.server, m))
      && (Straight(y) ==> Ascending(y.client.list) && forall m :: m in y.client.list ==> y.floor <= m.num)
  {
    EveryRun(ws, steps);
  }

  /** A listed copy that differs from its row has an entry above the client's cursor. */
  lemma NoMissedChange(ws: seq<Write>, steps: seq<Step>, m: Message)
    requires var y := After(ws, steps); m in y.client.list && Whole(y)
    ensures var y := After(ws, steps); Known(y.server, m) && Settled(y.server, y.client.cursors, m)
  {
    EveryRun(ws, steps);
  }

  /** A run of polls from `y` on, nobody writing, one longer than there are unseen live rows above the cursor. */
  ghost predicate LongQuietRun(y: System, trail: seq<Client>) {
    QuietRun(y.server, trail) && trail[0] == y.client && |trail| >= 2 + |UnseenAbove(y.server, y.client)|
  }

  /** The client lists the live rows from `floor` on, nothing else, and in order if it can. */
  ghost predicate ListsTheTable(s: Server, c: Client, floor: int, ordered: bool) {
    1 <= floor && Synced(s, c, floor) && (ordered ==> c.list == LiveAfter(s.rows, floor - 1))
  }

  lemma FewStepBacksReach(s: Server, trail: seq<Client>, floor: int, high: int, ordered: bool)
    requires QuietRun(s, trail) && |trail| >= 2 + |UnseenAbove(s, trail[0])|
    requires Tracking(s, trail[0], floor, high) && AllSettled(s, trail[0])
    requires high - trail[0].cursors.after < POLL_LIMIT && (ordered ==> InOrder(trail[0], floor))
    ensures ListsTheTable(s, Last(trail), floor, ordered)
  {
    FewStepBacksUnblocked(s, trail[0], floor, high);
    Converges(s, trail, floor, high);
    if ordered {
      RunKeepsOrder(s, trail, floor, high);
      SyncedList(s, Last(trail), floor);
    }
  }

  /** The part of the invariant a quiet chat keeps. */
  ghost predicate Follows(y: System) {
    && Tracking(y.server, y.client, y.floor, y.high)
    && (Whole(y) ==> AllSettled(y.server, y.client))
    && (Straight(y) ==> InOrder(y.client, y.floor))
  }

  lemma EveryRunFollows(ws: seq<Write>, steps: seq<Step>)
    ensures Follows(After(ws, steps))
  {
    EveryRun(ws, steps);
  }

  lemma FollowerReaches(y: System, trail: seq<Client>)
    requires Follows(y) && LongQuietRun(y, trail)
    requires Whole(y) && y.high - y.client.cursors.after < POLL_LIMIT
    ensures ListsTheTable(y.server, Last(trail), y.floor, Straight(y))
  {
    FewStepBacksReach(y.server, trail, y.floor, y.high, Straight(y));
  }

  lemma FollowerReachesExactly(y: System, trail: seq<Client>)
    requires Follows(y) && LongQuietRun(y, trail)
    ensures Synced(y.server, Last(trail), y.floor)
            <==> AllSettled(y.server, y.client) && !Blocked(y.server, y.client, y.high)
  {
    ConvergesExactly(y.server, trail, y.floor, y.high);
  }

  /**
   * Once writes stop, a receiving client fewer than a page of step-backs behind, none of whose
   * older pages was overtaken and none of whose answers was torn, reaches the live rows: one poll
   * more than there are unseen live rows above its cursor is enough.
   */
  lemma ReachesTheTable(ws: seq<Write>, steps: seq<Step>, trail: seq<Client>)
    ensures var y := After(ws, steps);
      Whole(y) && y.high - y.client.cursors.after < 100 && LongQuietRun(y, trail) ==>
        ListsTheTable(y.server, Last(trail), y.floor, Straight(y))
  {
    var y := After(ws, steps);
    EveryRunFollows(ws, steps);
    if Whole(y) && y.high - y.client.cursors.after < POLL_LIMIT && LongQuietRun(y, trail) {
      FollowerReaches(y, trail);
    }
  }

  /** From any reachable state the same happens exactly when nothing is unsettled or blocked. */
  lemma ReachesTheTableExactly(ws: seq<Write>, steps: seq<Step>, trail: seq<Client>)
    ensures var y := After(ws, steps);
      1 <= y.floor && (LongQuietRun(y, trail) ==>
        (Synced(y.server, Last(trail), y.floor)
         <==> AllSettled(y.server, y.client) && !Blocked(y.server, y.client, y.high)))
  {
    var y := After(ws, steps);
    EveryRunFollows(ws, steps);
    if LongQuietRun(y, trail) {
      FollowerReachesExactly(y, trail);
    }
  }

  /**
   * From any reachable state between polls: an edit of a listed, live message shows after the next
   * poll, unless a change was ever delivered ahead of its message; a deletion always does.
   */
  lemma ChangesShow(ws: seq<Write>, steps: seq<Step>, i: nat, text: Text, at: int)
    ensures var y := After(ws, steps);
      i < |y.server.rows| && y.poll.Ready? ==>
        var id := y.server.rows[i].id;
        && id !in Ids(Run(Next(y, Written(Delete(id))), QUIET_POLL).client.list)
        && (Whole(y) && !y.server.rows[i].deleted && id in Ids(y.client.list) ==>
              var list := Run(Next(y, Written(Change(id, text, at))), QUIET_POLL).client.list;
              && id in Ids(list)
              && forall m :: m in list && m.id == id ==> m.text == text && m.editedAt == Some(at) && !m.deleted)
  {
    var y := After(ws, steps);
    EveryRunFollows(ws, steps);
    if i < |y.server.rows| && y.poll.Ready? {
      var id := y.server.rows[i].id;
      PollAfter(y, Delete(id));
      PollAfter(y, Change(id, text, at));
      DeletionShows(y.server, y.client, y.floor, y.high, i);
      if Whole(y) && !y.server.rows[i].deleted && id in Ids(y.client.list) {
        EditShows(y.server, y.client, y.floor, y.high, i, text, at);
      }
    }
  }

  lemma PollAfter(y: System, w: Write)
    requires Good(y.server) && y.poll.Ready?
    ensures Run(Next(y, Written(w)), QUIET_POLL).client == Round(Apply(y.server, w), y.client)
  {
    WriteKeepsGood(y.server, w);
    RoundIsAPoll(Next(y, Written(w)));
  }

  // --- when the conditions hold ------------------------------------------------------------------------

  /** The logs and their counters. */
  predicate SameLogs(a: Keys, b: Keys) {
    a.deleteSeq == b.deleteSeq && a.deleteLog == b.deleteLog && a.editSeq == b.editSeq && a.editLog == b.editLog
  }

  /** Every state of the chat the system still holds has the logs `k`, and no change was ever delivered early. */
  ghost predicate Calm(y: System, k: Keys) {
    && Whole(y) && y.touched == {} && SameLogs(y.server.keys, k)
    && (y.poll.Reading? ==> SameLogs(y.poll.from.keys, k))
    && (y.poll.Answered? ==> SameLogs(y.poll.from.keys, k) && SameLogs(y.poll.at.keys, k))
    && (y.older.Arrived? ==> SameLogs(y.older.at.keys, k))
  }

  lemma NothingSince(r: Response, s: Server, at: Keys, page: Keys)
    requires GoodDeletes(s) && GoodEdits(s) && SameLogs(s.keys, at) && SameLogs(s.keys, page)
    ensures ChangedSince(r, at, page) == {}
  {
  }

  lemma ReceivedCalm(y: System, k: Keys)
    requires Good(y.server) && Calm(y, k) && y.poll.Answered?
    ensures Calm(Received(y, y.poll.response), k)
  {
    NothingSince(y.poll.response, y.server, y.poll.at.keys, y.poll.from.keys);
    if y.older.Arrived? { NothingSince(y.poll.response, y.server, y.poll.at.keys, y.older.at.keys); }
  }

  lemma StepCalm(y: System, step: Step, k: Keys)
    requires Good(y.server) && Calm(y, k) && (step.Written? ==> step.w.Send?)
    ensures Calm(Next(y, step), k)
  {
    if step.PollDone? && y.poll.Answered? {
      PollDoneReceives(y);
      ReceivedCalm(y, k);
    }
  }

  lemma {:induction false} RunCalm(y: System, steps: seq<Step>, k: Keys)
    requires Inv(y) && Calm(y, k) && forall step :: step in steps && step.Written? ==> step.w.Send?
    ensures Whole(Run(y, steps))
    decreases |steps|
  {
    if steps != [] {
      assert steps[0] in steps;
      StepCalm(y, steps[0], k);
      StepInv(y, steps[0]);
      RunCalm(Next(y, steps[0]), steps[1..], k);
    }
  }

  /** While messages are only sent, no change is ever delivered ahead of its message. */
  lemma OnlyChangesTear(ws: seq<Write>, steps: seq<Step>)
    requires forall step :: step in steps && step.Written? ==> step.w.Send?
    ensures Whole(After(ws, steps))
  {
    EveryRun(ws, []);
    RunCalm(After(ws, []), steps, After(ws, []).server.keys);
  }

  lemma {:induction false} RunUndipped(y: System, steps: seq<Step>)
    requires !y.dipped && forall step :: step in steps ==> !step.PollFailed?
    ensures !Run(y, steps).dipped
    decreases |steps|
  {
    if steps != [] {
      assert steps[0] in steps;
      RunUndipped(Next(y, steps[0]), steps[1..]);
    }
  }

  /** While no poll fails and messages are only sent, nothing disturbs the order. */
  lemma OnlyFailuresDisturb(ws: seq<Write>, steps: seq<Step>)
    requires forall step :: step in steps ==> !step.PollFailed? && (step.Written? ==> step.w.Send?)
    ensures Straight(After(ws, steps))
  {
    OnlyChangesTear(ws, steps);
    RunUndipped(After(ws, []), steps);
  }

  // --- runs where a guarantee stops ----------------------------------------------------------------

  ghost predicate Reachable(y: System) {
    exists ws, steps :: y == After(ws, steps)
  }

  lemma {:induction false} RunAppend(y: System, steps: seq<Step>, step: Step)
    ensures Run(y, steps + [step]) == Next(Run(y, steps), step)
    decreases |steps|
  {
    if steps == [] {
      assert [step][1..] == [];
    } else {
      assert (steps + [step])[1..] == steps[1..] + [step];
      RunAppend(Next(y, steps[0]), steps[1..], step);
    }
  }

  lemma AfterAppend(ws: seq<Write>, steps: seq<Step>, step: Step)
    ensures After(ws, steps + [step]) == Next(After(ws, steps), step)
  {
    RunAppend(Open(ApplyAll(EMPTY_CHAT, ws)), steps, step);
  }

  lemma ReachableNext(y: System, step: Step)
    requires Reachable(y)
    ensures Reachable(Next(y, step))
  {
    var ws, steps :| y == After(ws, steps);
    AfterAppend(ws, steps, step);
  }

  lemma ReachableOpen(ws: seq<Write>)
    ensures Reachable(Open(ApplyAll(EMPTY_CHAT, ws)))
  {
    assert Open(ApplyAll(EMPTY_CHAT, ws)) == After(ws, []);
  }

  function Hello(n: nat): Write { Send(n, 0, 0, [72, 105], 0) }

  function HelloRow(n: nat): Message { Message(n, 0, 0, n, [72, 105], 0, None, false) }

  /** A chat of `n` live messages, never edited or deleted. */
  ghost predicate Fresh(s: Server, n: nat) {
    && |s.rows| == n && s.counter == n
    && (forall i :: 0 <= i < n ==> s.rows[i] == HelloRow(i + 1))
    && s.keys == NO_KEYS.(lastSeq := if n == 0 then None else Some(n))
  }

  lemma FreshSend(s: Server, n: nat)
    requires Fresh(s, n)
    ensures Fresh(Apply(s, Hello(n + 1)), n + 1)
  {
  }

  lemma {:induction false} ApplyAllAppend(s: Server, ws: seq<Write>, w: Write)
    ensures ApplyAll(s, ws + [w]) == Apply(ApplyAll(s, ws), w)
    decreases |ws|
  {
    if ws == [] {
      assert [w][1..] == [];
    } else {
      assert (ws + [w])[1..] == ws[1..] + [w];
      ApplyAllAppend(Apply(s, ws[0]), ws[1..], w);
    }
  }

  lemma FreshChat(n: nat) returns (ws: seq<Write>)
    ensures Fresh(ApplyAll(EMPTY_CHAT, ws), n)
  {
    ws := [];
    for k := 0 to n
      invariant Fresh(ApplyAll(EMPTY_CHAT, ws), k)
    {
      ApplyAllAppend(EMPTY_CHAT, ws, Hello(k + 1));
      FreshSend(ApplyAll(EMPTY_CHAT, ws), k);
      ws := ws + [Hello(k + 1)];
    }
  }

  lemma ReachableInv(y: System)
    requires Reachable(y)
    ensures Inv(y)
  {
    var ws, steps :| y == After(ws, steps);
    EveryRun(ws, steps);
  }

  // Step-backs.

  /** `z` is `y` after step-backs that left the cursor at `k`. */
  ghost predicate SteppedBack(y: System, z: System, k: int) {
    && z.client.cursors.after == k
    && z.client.seen == y.client.seen && z.client.list == y.client.list
    && z.server == y.server && z.poll == y.poll
    && z.floor == y.floor && z.high == y.high && z.overtaken == y.overtaken && z.torn == y.torn
    && (z.dipped ==> y.dipped || 1 < y.floor)
  }

  lemma StepBackOnce(y: System, z: System, k: int)
    requires SteppedBack(y, z, k) && k > 0 && y.poll.Ready?
    ensures SteppedBack(y, Next(z, PollFailed), k - 1)
  {
  }

  lemma StepBacks(y: System) returns (z: System)
    requires Reachable(y) && y.poll.Ready?
    ensures Reachable(z) && SteppedBack(y, z, 0)
  {
    z := y;
    assert 0 <= y.client.cursors.after by { ReachableInv(y); }
    var k := y.client.cursors.after;
    while k > 0
      invariant 0 <= k && Reachable(z) && SteppedBack(y, z, k)
    {
      ReachableNext(z, PollFailed);
      StepBackOnce(y, z, k);
      z := Next(z, PollFailed);
      k := k - 1;
    }
  }

  // A hundred messages seen, a hundred steps back.

  ghost predicate AllSeen(y: System) {
    forall i :: 0 <= i < |y.server.rows| ==> y.server.rows[i].id in y.client.seen
  }

  lemma HundredSent() returns (y: System)
    ensures Reachable(y) && Fresh(y.server, POLL_LIMIT) && y.poll.Ready? && Straight(y) && Whole(y)
    ensures y.client == Opened([]) && y.floor == 1 && y.high == 0
  {
    y := Open(ApplyAll(EMPTY_CHAT, []));
    ReachableOpen([]);
    assert NewestPage(EMPTY_CHAT) == [];
    for k := 0 to POLL_LIMIT
      invariant Reachable(y) && y == Open(EMPTY_CHAT).(server := y.server) && Fresh(y.server, k)
    {
      ReachableNext(y, Written(Hello(k + 1)));
      FreshSend(y.server, k);
      y := Next(y, Written(Hello(k + 1)));
    }
  }

  lemma FullReach(ms: seq<Message>)
    requires Ascending(ms) && forall m :: m in ms ==> 1 <= m.num
    ensures |ms| == POLL_LIMIT ==> exists m :: m in ms && POLL_LIMIT <= m.num
  {
    if |ms| == POLL_LIMIT {
      AscendingSpread(ms, POLL_LIMIT - 1);
      assert ms[0] in ms && ms[POLL_LIMIT - 1] in ms;
    }
  }

  lemma PollTakesAll(s: Server, c: Client, d: Client, r: Response, news: seq<Message>)
    requires Fresh(s, POLL_LIMIT) && c.seen == {} && c.cursors.after == 0
    requires Answers(r, s, s, c.cursors) && Delivered(c, d, r, news)
    ensures forall i :: 0 <= i < |s.rows| ==> s.rows[i].id in d.seen
    ensures d.cursors.after == POLL_LIMIT
  {
    FullReach(r.messages);
    forall i | 0 <= i < |s.rows| ensures s.rows[i] in news {
      assert !s.rows[i].deleted;
    }
    assert s.rows[POLL_LIMIT - 1] in news;
  }

  lemma QuietPollReachable(y: System)
    requires Reachable(y)
    ensures Reachable(Run(y, QUIET_POLL))
  {
    QuietPollUnfolds(y);
    ReachableNext(y, PollStart);
    ReachableNext(Next(y, PollStart), PollLogs);
    ReachableNext(Next(Next(y, PollStart), PollLogs), PollTimeout);
    ReachableNext(Next(Next(Next(y, PollStart), PollLogs), PollTimeout), PollDone);
  }

  lemma FirstPoll(s: Server, c: Client)
    requires Fresh(s, POLL_LIMIT) && Tracking(s, c, 1, 0) && c.seen == {}
    ensures var d := Round(s, c);
      d.cursors.after == POLL_LIMIT && forall i :: 0 <= i < |s.rows| ==> s.rows[i].id in d.seen
  {
    var r := SlowRead(s, c.cursors);
    RoundFacts(s, c, 1, 0);
    PollTakesAll(s, c, Round(s, c), r, News(c, r));
  }

  lemma HundredReceived() returns (y: System)
    ensures Reachable(y) && y.poll.Ready? && Straight(y) && Whole(y)
    ensures Fresh(y.server, POLL_LIMIT) && y.floor == 1
    ensures y.high == POLL_LIMIT == y.client.cursors.after && AllSeen(y)
  {
    var x := HundredSent();
    assert Tracking(x.server, x.client, 1, 0) by { ReachableInv(x); }
    FirstPoll(x.server, x.client);
    QuietPollReachable(x);
    RoundIsAPoll(x);
    y := Run(x, QUIET_POLL);
  }

  lemma FirstHundred(s: Server, t: Server)
    requires Fresh(s, POLL_LIMIT) && Fresh(t, POLL_LIMIT + 1)
    ensures ReadMessages(t, 0) == s.rows
  {
    FilterAll(t.rows, NewerThan(0));
    assert t.rows[..POLL_LIMIT] == s.rows;
  }

  /** Row `i` is live, and however many polls of the quiet chat succeed, the widget does not list it. */
  ghost predicate NeverListed(y: System, i: nat) {
    && i < |y.server.rows| && !y.server.rows[i].deleted
    && forall trail :: QuietRun(y.server, trail) && trail[0] == y.client ==>
         y.server.rows[i].id !in Ids(Last(trail).list)
  }

  /** Row `i` is deleted, and however many polls of the quiet chat succeed, the widget still lists it. */
  ghost predicate ListedForGood(y: System, i: nat) {
    && i < |y.server.rows| && y.server.rows[i].deleted
    && forall trail :: QuietRun(y.server, trail) && trail[0] == y.client ==>
         y.server.rows[i].id in Ids(Last(trail).list)
  }

  /**
   * A hundred step-backs after a hundred received messages: a message sent then is never listed,
   * whatever number of polls succeeds. One step-back fewer and it would be.
   */
  lemma StallAtAHundred()
    ensures exists y :: Reachable(y) && Straight(y) && Whole(y) && NeverListed(y, 100)
              && y.high - y.client.cursors.after == 100
  {
    var y := HundredStepsBack();
    assert NeverListed(y, POLL_LIMIT);
  }

  lemma HundredStepsBack() returns (y: System)
    ensures Reachable(y) && Straight(y) && Whole(y) && NeverListed(y, POLL_LIMIT)
    ensures y.high - y.client.cursors.after == POLL_LIMIT
  {
    var x := HundredReceived();
    var back := StepBacks(x);
    ReachableNext(back, Written(Hello(POLL_LIMIT + 1)));
    FreshSend(x.server, POLL_LIMIT);
    y := Next(back, Written(Hello(POLL_LIMIT + 1)));
    ReachableInv(y);
    StalledForGood(x.server, y);
  }

  /** All of `s` is seen, one message is new, and the cursor is back at the start. */
  lemma StalledForGood(s: Server, y: System)
    requires Fresh(s, POLL_LIMIT) && Fresh(y.server, POLL_LIMIT + 1)
    requires Tracking(y.server, y.client, 1, POLL_LIMIT) && y.client.cursors.after == 0
    requires forall i :: 0 <= i < |s.rows| ==> s.rows[i].id in y.client.seen
    ensures NeverListed(y, POLL_LIMIT)
  {
    FirstHundred(s, y.server);
    assert SeenPage(y.server, y.client, 0);
    assert !y.server.rows[POLL_LIMIT].deleted;
    forall trail | QuietRun(y.server, trail) && trail[0] == y.client
      ensures y.server.rows[POLL_LIMIT].id !in Ids(Last(trail).list)
    {
      BlockedNeverLists(y.server, trail, 1, POLL_LIMIT, POLL_LIMIT);
    }
  }

  /** A listed message whose row is deleted and whose deletion is not to come any more stays for good. */
  lemma StaysForGood(y: System, i: nat)
    requires Tracking(y.server, y.client, y.floor, y.high) && i < |y.server.rows| && y.server.rows[i].deleted
    requires y.server.rows[i].id in Ids(y.client.list)
    requires !DeletePending(y.server.keys.deleteLog, y.client.cursors.afterDelete, y.server.rows[i].id)
    ensures ListedForGood(y, i)
  {
    forall trail | QuietRun(y.server, trail) && trail[0] == y.client
      ensures y.server.rows[i].id in Ids(Last(trail).list)
    {
      if |trail| > 1 { DeletedLeavesExactly(y.server, trail, y.floor, y.high, i); }
    }
  }

  // A page overtaken by a deletion.

  /**
   * An older page in flight holds a message that is deleted by now. If a poll completes before the
   * page arrives, the widget lists the deleted message and no later poll of the quiet chat removes it.
   */
  lemma OvertakenPageRevives(y: System, m: Message)
    requires Inv(y) && y.poll.Ready? && y.older.Arrived?
    requires m in y.older.page && 1 <= m.num <= |y.server.rows| && y.server.rows[m.num - 1].deleted
    ensures ListedForGood(Next(Run(y, QUIET_POLL), OlderDone), m.num - 1)
  {
    var x := Run(y, QUIET_POLL);
    PageRow(y.older.at, y.server, y.older.before, m);
    RunInv(y, QUIET_POLL);
    AfterThePoll(y, m.id);
    OlderDoneTracks(x);
    ArrivalStays(x, Next(x, OlderDone), m);
  }

  lemma OlderDoneTracks(x: System)
    requires Inv(x) && x.older.Arrived?
    ensures var z := Next(x, OlderDone);
      && Tracking(z.server, z.client, z.floor, z.high)
      && z.server == x.server && z.client == OlderArrived(x.client, x.older.page)
  {
    OlderDoneInv(x);
    InvTracks(Next(x, OlderDone));
    OlderDonePrepends(x);
  }

  lemma ArrivalStays(x: System, z: System, m: Message)
    requires x.older.Arrived? && z.server == x.server && z.client == OlderArrived(x.client, x.older.page)
    requires Tracking(z.server, z.client, z.floor, z.high) && m in x.older.page && 1 <= m.num <= |z.server.rows|
    requires z.server.rows[m.num - 1].deleted && z.server.rows[m.num - 1].id == m.id
    requires !DeletePending(z.server.keys.deleteLog, x.client.cursors.afterDelete, m.id)
    ensures ListedForGood(z, m.num - 1)
  {
    OlderMembers(x.client.list, x.older.page);
    StaysForGood(z, m.num - 1);
  }

  lemma InvTracks(z: System)
    requires Inv(z)
    ensures Tracking(z.server, z.client, z.floor, z.high)
  {
  }

  lemma PageRow(at: Server, s: Server, before: int, m: Message)
    requires Numbered(at.rows) && Numbered(s.rows) && Evolves(at, s) && m in PageBefore(at, before)
    ensures Known(s, m)
  {
    BeforeIsRows(at, before);
    RowLater(at, s, m);
  }

  lemma AfterThePoll(y: System, id: Id)
    requires Tracking(y.server, y.client, y.floor, y.high) && y.poll.Ready?
    ensures var x := Run(y, QUIET_POLL);
      && x.server == y.server && x.older == y.older
      && !DeletePending(y.server.keys.deleteLog, x.client.cursors.afterDelete, id)
  {
    RoundIsAPoll(y);
    RoundDeletes(y.server, y.client, y.floor, y.high, id);
  }

  lemma RoundDeletes(s: Server, c: Client, floor: int, high: int, id: Id)
    requires Tracking(s, c, floor, high)
    ensures !DeletePending(s.keys.deleteLog, Round(s, c).cursors.afterDelete, id)
  {
    RoundFacts(s, c, floor, high);
  }

  // A widget opened on 51 messages has the newest 50 and one older page.

  lemma FreshNewest(s: Server)
    requires Fresh(s, PAGE_LIMIT + 1)
    ensures NewestPage(s) == s.rows[1..]
  {
    FilterAll(s.rows, NotDeleted());
  }

  lemma FreshOldest(s: Server)
    requires Fresh(s, PAGE_LIMIT + 1)
    ensures PageBefore(s, 2) == [s.rows[0]]
  {
    var rows := s.rows;
    assert rows == [rows[0]] + rows[1..];
    FilterConcat([rows[0]], rows[1..], OlderThan(2));
    FilterAll([rows[0]], OlderThan(2));
    assert forall m :: m in rows[1..] ==> !OlderThan(2)(m);
    HeadIsMember(Filter(rows[1..], OlderThan(2)));
    assert LiveBefore(rows, 2) == [rows[0]];
  }

  lemma OpenedOnFresh() returns (y: System)
    ensures Reachable(y) && y.poll.Ready? && y.older.Idle? && Straight(y)
    ensures Fresh(y.server, PAGE_LIMIT + 1) && y.floor == 2
    ensures y.client == Opened(y.server.rows[1..])
  {
    var ws := FreshChat(PAGE_LIMIT + 1);
    ReachableOpen(ws);
    y := Open(ApplyAll(EMPTY_CHAT, ws));
    FreshNewest(y.server);
  }

  lemma FirstAsk(y: System)
    requires Fresh(y.server, PAGE_LIMIT + 1) && y.older.Idle? && y.client == Opened(y.server.rows[1..])
    ensures var z := Next(y, OlderAsk); z.older == Requested(2) && z.server == y.server && z.poll == y.poll
  {
    assert y.client.list[0] == HelloRow(2);
  }

  lemma FirstServe(y: System)
    requires Fresh(y.server, PAGE_LIMIT + 1) && y.older == Requested(2)
    ensures var z := Next(y, OlderServe);
      z.older.Arrived? && HelloRow(1) in z.older.page && z.server == y.server && z.poll == y.poll
  {
    FreshOldest(y.server);
    assert HelloRow(1) in [y.server.rows[0]];
  }

  lemma OldestServed() returns (y: System)
    ensures Reachable(y) && y.poll.Ready? && y.older.Arrived?
    ensures Fresh(y.server, PAGE_LIMIT + 1) && HelloRow(1) in y.older.page
  {
    var a := OpenedOnFresh();
    FirstAsk(a);
    FirstServe(Next(a, OlderAsk));
    ReachableNext(a, OlderAsk);
    ReachableNext(Next(a, OlderAsk), OlderServe);
    y := Next(Next(a, OlderAsk), OlderServe);
  }

  lemma DeleteFirst(s: Server, n: nat)
    requires Fresh(s, n) && n > 0
    ensures var t := Apply(s, Delete(1)); |t.rows| == n && t.rows[0].deleted
  {
    assert s.rows[0].id == 1;
    assert forall j :: 0 < j < n ==> s.rows[j].id == j + 1;
  }

  /** The premises of `OvertakenPageRevives` are met by a run. */
  lemma OvertakenPageIsReachable()
    ensures exists y, m :: Reachable(y) && y.poll.Ready? && y.older.Arrived? && m in y.older.page
              && 1 <= m.num <= |y.server.rows| && y.server.rows[m.num - 1].deleted
  {
    var c := OldestServed();
    ReachableNext(c, Written(Delete(1)));
    DeleteFirst(c.server, PAGE_LIMIT + 1);
    var d := Next(c, Written(Delete(1)));
    assert HelloRow(1) in d.older.page && HelloRow(1).num == 1;
  }

  // An answer torn by a deletion.

  /**
   * A message read by a poll in flight is deleted before the poll reads the logs. The answer then
   * holds both the message and its deletion; the widget removes first and appends after, so it lists
   * the deleted message, and no later poll of the quiet chat removes it.
   */
  lemma TornAnswerRevives(y: System, m: Message)
    requires Inv(y) && y.poll.Reading? && m in y.poll.messages && m.id !in y.client.seen
    requires 1 <= m.num <= |y.server.rows| && y.server.rows[m.num - 1].deleted
    ensures ListedForGood(Next(Next(y, PollLogs), PollDone), m.num - 1)
  {
    var x := Next(y, PollLogs);
    LogsInv(y);
    LogsAnswer(y);
    RowLater(y.poll.from, y.server, m);
    TornStays(x, Next(x, PollDone), m);
  }

  lemma LogsAnswer(y: System)
    requires y.poll.Reading? && y.poll.messages != []
    ensures Next(y, PollLogs) ==
      y.(poll := Answered(WithLogs(y.poll.messages, y.server.keys, y.client.cursors), y.poll.from, y.server))
  {
  }

  lemma TornStays(x: System, z: System, m: Message)
    requires Inv(x) && x.poll.Answered? && x.poll.at == x.server && z == Next(x, PollDone)
    requires m in x.poll.response.messages && m.id !in x.client.seen
    requires Known(x.server, m) && x.server.rows[m.num - 1].deleted
    ensures ListedForGood(z, m.num - 1)
  {
    DoneInv(x);
    InvTracks(z);
    PollDoneReceives(x);
    ReadAnswers(x.poll.from, x.poll.at, x.client.cursors);
    TornDelivery(x.poll.response, x.poll.at, x.client, z.client, m);
    StaysForGood(z, m.num - 1);
  }

  lemma TornDelivery(r: Response, at: Server, c: Client, d: Client, m: Message)
    requires AnswersDeletes(r, at.keys, c.cursors.afterDelete) && d == Deliver(c, r)
    requires m in r.messages && m.id !in c.seen
    ensures m.id in Ids(d.list) && !DeletePending(at.keys.deleteLog, d.cursors.afterDelete, m.id)
  {
    DeliverFacts(c, r);
    assert m in News(c, r);
  }

  /** The premises of `TornAnswerRevives` are met by a run. */
  lemma TornAnswerIsReachable()
    ensures exists y, m :: Reachable(y) && y.poll.Reading? && m in y.poll.messages && m.id !in y.client.seen
              && 1 <= m.num <= |y.server.rows| && y.server.rows[m.num - 1].deleted
  {
    var c := OneRead();
    ReachableNext(c, Written(Delete(1)));
    DeleteFirst(c.server, 1);
    var d := Next(c, Written(Delete(1)));
    assert HelloRow(1) in d.poll.messages && HelloRow(1).num == 1;
  }

  /** A chat opened empty; one message is sent and a poll has just read it. */
  lemma OneRead() returns (c: System)
    ensures Reachable(c) && Fresh(c.server, 1)
    ensures c.poll.Reading? && HelloRow(1) in c.poll.messages && c.client.seen == {}
  {
    var b := OneSent();
    ReachableNext(b, PollStart);
    OneMessage(b.server);
    c := Next(b, PollStart);
  }

  lemma OneSent() returns (b: System)
    ensures Reachable(b) && Fresh(b.server, 1) && b.poll.Ready? && b.client == Opened([])
  {
    var a := Open(ApplyAll(EMPTY_CHAT, []));
    ReachableOpen([]);
    assert NewestPage(EMPTY_CHAT) == [];
    ReachableNext(a, Written(Hello(1)));
    FreshSend(a.server, 0);
    b := Next(a, Written(Hello(1)));
  }

  lemma OneMessage(s: Server)
    requires Fresh(s, 1)
    ensures HelloRow(1) in FastMessages(s, 0)
  {
    FilterAll(s.rows, NewerThan(0));
    assert s.rows[0] in s.rows;
  }

  // A cursor below the loaded pages.

  /** After `OpenedOnFresh` and step-backs to the start, a poll of the quiet chat breaks the order. */
  lemma LateRowBreaksOrder()
    ensures exists y :: Reachable(y) && !y.torn && !Ascending(y.client.list)
  {
    var a := OpenedOnFresh();
    var b := StepBacks(a);
    assert Tracking(b.server, b.client, b.floor, b.high) by { ReachableInv(b); }
    LateRound(b.server, b.client);
    QuietPollReachable(b);
    RoundIsAPoll(b);
  }

  lemma LateRound(s: Server, c: Client)
    requires Fresh(s, PAGE_LIMIT + 1) && Good(s) && c.cursors.after == 0 && c.seen == {} && c.list == s.rows[1..]
    ensures !Ascending(Round(s, c).list)
  {
    RoundAnswers(s, c);
    LateAnswer(s, c, SlowRead(s, c.cursors));
  }

  lemma LateAnswer(s: Server, c: Client, r: Response)
    requires Fresh(s, PAGE_LIMIT + 1) && Answers(r, s, s, c.cursors)
    requires c.cursors.after == 0 && c.seen == {} && c.list == s.rows[1..]
    ensures !Ascending(Deliver(c, r).list)
  {
    var first, second := HelloRow(1), HelloRow(2);
    assert s.rows[0] == first && c.list[0] == second;
    HeadIsMember(r.messages);
    assert first in r.messages;
    assert forall m :: m in c.list ==> m.id != first.id;
    assert !DeletePending(s.keys.deleteLog, 0, second.id);
    assert Comes(c, r, first) && Stays(c, r, second);
    assert forall i :: 0 <= i < |c.list| ==> c.list[i] == HelloRow(i + 2);
    OrderAfterExactly(c, r);
  }
}

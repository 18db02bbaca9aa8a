/** The widget's poll loop and message list, against the transitions of `Polling`. */
module Widgets {
  import opened Lists
  import opened Messages
  import opened Servers
  import opened Polling
  import RateLimiters

  /** How one poll request ended for the loop. */
  datatype Outcome =
    | Answer(response: Response)
    | Aborted
    | Unauthorized
    | Banned
    | TooMany(retryAfter: int)
    | Broken

  predicate Stops(o: Outcome) { o.Aborted? || o.Unauthorized? || o.Banned? }

  function Consume(c: Client, o: Outcome): Client {
    match o
    case Answer(r) => Deliver(c, r)
    case TooMany(_) => RateLimited(c)
    case Broken => StepBack(c)
    case _ => c
  }

  function ConsumeAll(c: Client, os: seq<Outcome>): Client
    decreases |os|
  {
    if os == [] then c else Consume(ConsumeAll(c, os[..|os| - 1]), os[|os| - 1])
  }

  /** The outcomes up to and including the first that stops the loop. */
  function Handled(os: seq<Outcome>): seq<Outcome> {
    if os == [] then [] else if Stops(os[0]) then [os[0]] else [os[0]] + Handled(os[1..])
  }

  /** The pause after an outcome, in milliseconds. */
  function Pause(c: Client, o: Outcome): int {
    match o
    case TooMany(retryAfter) => if retryAfter > 0 then retryAfter * 1000 else RATE_LIMIT_DELAY
    case Broken => c.retryDelay
    case _ => 0
  }

  /** The pauses the loop takes over these outcomes. */
  function PausesOver(c: Client, os: seq<Outcome>): seq<int>
    decreases |os|
  {
    if os == [] then [] else
      var before := os[..|os| - 1];
      PausesOver(c, before) + [Pause(ConsumeAll(c, before), os[|os| - 1])]
  }

  lemma {:induction false} HandledIs(os: seq<Outcome>, n: nat)
    requires n <= |os| && forall k :: 0 <= k < n ==> !Stops(os[k])
    requires n < |os| ==> Stops(os[n])
    ensures Handled(os) == if n < |os| then os[..n + 1] else os[..n]
    decreases |os|
  {
    if n > 0 {
      HandledIs(os[1..], n - 1);
    }
  }

  ghost predicate Turned(before: Client, o: Outcome, after: Client, pause: int) {
    after == Consume(before, o) && pause == Pause(before, o)
  }

  /** The states and pauses of the loop's first `n` turns. */
  ghost predicate Trail(os: seq<Outcome>, n: nat, trail: seq<Client>, pauses: seq<int>) {
    && n <= |os| && |trail| == n + 1 && |pauses| == n
    && forall k {:trigger Turned(trail[k], os[k], trail[k + 1], pauses[k])} ::
         0 <= k < n ==> Turned(trail[k], os[k], trail[k + 1], pauses[k])
  }

  lemma TrailGrows(os: seq<Outcome>, n: nat, trail: seq<Client>, pauses: seq<int>, next: Client, pause: int)
    requires Trail(os, n, trail, pauses) && n < |os| && Turned(trail[n], os[n], next, pause)
    ensures Trail(os, n + 1, trail + [next], pauses + [pause])
  {
    var t, p := trail + [next], pauses + [pause];
    forall k | 0 <= k < n + 1 ensures Turned(t[k], os[k], t[k + 1], p[k]) {
      assert k < n ==> Turned(trail[k], os[k], trail[k + 1], pauses[k]);
    }
  }

  lemma TrailAt(os: seq<Outcome>, n: nat, trail: seq<Client>, pauses: seq<int>, k: nat)
    requires Trail(os, n, trail, pauses) && k < n
    ensures Turned(trail[k], os[k], trail[k + 1], pauses[k])
  {
  }

  lemma ShorterTrail(os: seq<Outcome>, n: nat, trail: seq<Client>, pauses: seq<int>)
    requires Trail(os, n, trail, pauses) && n > 0
    ensures Trail(os, n - 1, trail[..n], pauses[..n - 1]) && pauses == pauses[..n - 1] + [pauses[n - 1]]
  {
    var t, p := trail[..n], pauses[..n - 1];
    forall k | 0 <= k < n - 1 ensures Turned(t[k], os[k], t[k + 1], p[k]) {
      TrailAt(os, n, trail, pauses, k);
    }
  }

  lemma OneMoreOutcome(c: Client, os: seq<Outcome>, n: nat, before: Client, after: Client, pause: int)
    requires n < |os| && before == ConsumeAll(c, os[..n]) && Turned(before, os[n], after, pause)
    ensures after == ConsumeAll(c, os[..n + 1])
    ensures PausesOver(c, os[..n + 1]) == PausesOver(c, os[..n]) + [pause]
  {
    assert os[..n + 1][..n] == os[..n];
  }

  lemma {:induction false} TrailIs(os: seq<Outcome>, n: nat, trail: seq<Client>, pauses: seq<int>)
    requires Trail(os, n, trail, pauses)
    ensures trail[n] == ConsumeAll(trail[0], os[..n]) && pauses == PausesOver(trail[0], os[..n])
  {
    if n > 0 {
      ShorterTrail(os, n, trail, pauses);
      TrailIs(os, n - 1, trail[..n], pauses[..n - 1]);
      TrailAt(os, n, trail, pauses, n - 1);
      OneMoreOutcome(trail[0], os, n - 1, trail[n - 1], trail[n], pauses[n - 1]);
    }
  }

  lemma StopsThere(c: Client, os: seq<Outcome>, n: nat)
    requires n < |os| && Stops(os[n])
    ensures ConsumeAll(c, os[..n + 1]) == ConsumeAll(c, os[..n])
    ensures PausesOver(c, os[..n + 1]) == PausesOver(c, os[..n]) + [0]
  {
    assert os[..n + 1][..n] == os[..n];
  }

  /** Where the loop leaves: a stopping outcome changes nothing and asks for no pause. */
  lemma TrailEnds(os: seq<Outcome>, n: nat, trail: seq<Client>, pauses: seq<int>)
    requires Trail(os, n, trail, pauses)
    requires (forall k :: 0 <= k < n ==> !Stops(os[k])) && (n < |os| ==> Stops(os[n]))
    ensures trail[n] == ConsumeAll(trail[0], Handled(os))
    ensures PausesOver(trail[0], Handled(os)) == if n < |os| then pauses + [0] else pauses
  {
    TrailIs(os, n, trail, pauses);
    HandledIs(os, n);
    if n < |os| { StopsThere(trail[0], os, n); }
  }

  class ChatWindow {
    var allMessages: seq<Message>
    var hasMore: bool
    var loadingMore: bool

    /** The first page is in. */
    constructor (messages: seq<Message>, initialHasMore: bool)
      ensures allMessages == messages && hasMore == initialHasMore && !loadingMore
    {
      allMessages, hasMore, loadingMore := messages, initialHasMore, false;
    }

    method HandlePollMessages(incoming: seq<Message>, deletedIds: seq<Id>, editedMessages: seq<Edit>)
      modifies this`allMessages
      ensures allMessages == MergePoll(old(allMessages), incoming, deletedIds, editedMessages)
    {
      var next := allMessages;
      if |deletedIds| > 0 {
        next := Filter(next, Outside(deletedIds));
      } else {
        FilterAll(next, Outside(deletedIds));
      }
      if |editedMessages| > 0 {
        next := MapEdits(next, editedMessages);
      } else {
        assert ApplyEdits(next, editedMessages) == next;
      }
      if |incoming| > 0 {
        next := next + Filter(incoming, Unseen(Ids(next)));
      }
      allMessages := next;
    }

    /** The map keeps, for each id, the last entry of the list. */
    method MapEdits(list: seq<Message>, edits: seq<Edit>) returns (r: seq<Message>)
      ensures r == ApplyEdits(list, edits)
    {
      var editMap: map<Id, Edit> := map[];
      for i := 0 to |edits|
        invariant forall id {:trigger EditFor(edits[..i], id)} ::
          EditFor(edits[..i], id) == if id in editMap then Some(editMap[id]) else None
      {
        assert edits[..i + 1][..i] == edits[..i];
        editMap := editMap[edits[i].id := edits[i]];
      }
      assert edits[..|edits|] == edits;
      r := [];
      for i := 0 to |list|
        invariant r == ApplyEdits(list[..i], edits)
      {
        var m := list[i];
        assert EditFor(edits, m.id) == if m.id in editMap then Some(editMap[m.id]) else None;
        assert ApplyEdits(list[..i + 1], edits) == ApplyEdits(list[..i], edits) + [Edited(m, edits)];
        if m.id in editMap {
          var e := editMap[m.id];
          m := m.(text := e.text, editedAt := e.editedAt);
        }
        r := r + [m];
      }
      assert list[..|list|] == list;
    }

    /** Asking for older messages: the number to ask below, unless there is nothing to ask. */
    method BeginLoadOlder() returns (before: Option<int>)
      modifies this`loadingMore
      ensures before.Some? <==>
        !old(loadingMore) && hasMore && allMessages != [] && allMessages[0].num > 0
      ensures before.Some? ==> before.value == allMessages[0].num && loadingMore
      ensures before.None? ==> loadingMore == old(loadingMore)
    {
      if loadingMore || !hasMore { return None; }
      var oldestSeq := if allMessages != [] then allMessages[0].num else 0;
      if oldestSeq <= 0 { return None; }
      loadingMore := true;
      before := Some(oldestSeq);
    }

    /** The page arrived, or the request failed. */
    method EndLoadOlder(page: Option<(seq<Message>, bool)>)
      modifies this
      ensures !loadingMore
      ensures page.None? ==> allMessages == old(allMessages) && hasMore == old(hasMore)
      ensures page.Some? ==> allMessages == MergeOlder(old(allMessages), page.value.0) && hasMore == page.value.1
      ensures page.Some? && (page.value.1 <==> |page.value.0| == 50) ==>
                forall c: Client {:trigger OlderArrived(c, page.value.0)} :: c.list == old(allMessages) ==>
                  OlderArrived(c, page.value.0) == c.(list := allMessages, hasMore := hasMore)
    {
      if page.Some? {
        allMessages := Filter(page.value.0, Unseen(Ids(allMessages))) + allMessages;
        hasMore := page.value.1;
      }
      loadingMore := false;
    }
  }

  class LongPoll {
    const window: ChatWindow
    var lastKnownSeq: int
    var lastKnownDeleteSeq: int
    var lastKnownEditSeq: int
    var retryDelay: int
    var seenIds: set<Id>

    function View(): Client reads this, window {
      Client(Cursors(lastKnownSeq, lastKnownDeleteSeq, lastKnownEditSeq), retryDelay, seenIds,
             window.allMessages, window.hasMore)
    }

    /** Polling starts at the highest number loaded. */
    constructor (window: ChatWindow)
      ensures this.window == window
      ensures View() == Opened(window.allMessages).(hasMore := window.hasMore)
      ensures seenIds == {} && lastKnownDeleteSeq == 0 && lastKnownEditSeq == 0 && retryDelay == 1_000
      ensures forall m :: m in window.allMessages ==> m.num <= lastKnownSeq
      ensures lastKnownSeq == 0 || exists m :: m in window.allMessages && m.num == lastKnownSeq
    {
      this.window := window;
      lastKnownSeq := MaxNum(window.allMessages, 0);
      lastKnownDeleteSeq, lastKnownEditSeq := 0, 0;
      retryDelay := FIRST_DELAY;
      seenIds := {};
    }

    method HandleResponse(r: Response)
      modifies this, window
      ensures View() == Deliver(old(View()), r)
    {
      retryDelay := FIRST_DELAY;
      if r.lastDelete > lastKnownDeleteSeq {
        lastKnownDeleteSeq := r.lastDelete;
      }
      if r.lastEdit > lastKnownEditSeq {
        lastKnownEditSeq := r.lastEdit;
      }
      var news := Filter(r.messages, Unseen(seenIds));
      seenIds := seenIds + Ids(news);
      lastKnownSeq := HighestSeq(news, lastKnownSeq);
      Notify(news, r.deleted, r.edits);
    }

    method HighestSeq(news: seq<Message>, base: int) returns (maxSeq: int)
      ensures maxSeq == MaxNum(news, base)
    {
      maxSeq := base;
      for i := 0 to |news|
        invariant maxSeq == MaxNum(news[..i], base)
      {
        HigherSeq(news, base, i);
        maxSeq := if news[i].num > maxSeq then news[i].num else maxSeq;
      }
      assert news[..|news|] == news;
    }

    lemma HigherSeq(news: seq<Message>, base: int, i: nat)
      requires i < |news|
      ensures MaxNum(news[..i + 1], base) == Max(MaxNum(news[..i], base), news[i].num)
    {
      assert news[..i + 1][..i] == news[..i];
    }

    /** The list is told only when there is something to tell. */
    method Notify(news: seq<Message>, deleted: seq<Id>, edits: seq<Edit>)
      modifies window`allMessages
      ensures window.allMessages == MergePoll(old(window.allMessages), news, deleted, edits)
    {
      if |news| > 0 || |deleted| > 0 || |edits| > 0 {
        window.HandlePollMessages(news, deleted, edits);
      } else {
        MergeNothing(window.allMessages, news, deleted, edits);
      }
    }

    lemma MergeNothing(list: seq<Message>, news: seq<Message>, deleted: seq<Id>, edits: seq<Edit>)
      requires news == [] && deleted == [] && edits == []
      ensures MergePoll(list, news, deleted, edits) == list
    {
      FilterAll(list, Outside(deleted));
      assert ApplyEdits(list, edits) == list;
    }

    /** One turn of the loop that does not stop it, up to the pause it asks for. */
    method Turn(o: Outcome) returns (delay: int)
      requires !Stops(o)
      modifies this, window
      ensures Turned(old(View()), o, View(), delay)
      ensures var was, now := old(View()), View();
        match o
        case TooMany(n) => delay == (if n > 0 then 1_000 * n else 60_000) && now == was.(retryDelay := 1_000)
        case Broken =>
          && delay == was.retryDelay
          && now == was.(retryDelay := Min(2 * was.retryDelay, 30_000),
                         cursors := was.cursors.(after := Max(0, was.cursors.after - 1)))
        case _ => delay == 0 && now.retryDelay == 1_000 && now.hasMore == was.hasMore
    {
      delay := 0;
      match o {
        case Answer(r) =>
          HandleResponse(r);
        case TooMany(retryAfter) =>
          delay := if retryAfter > 0 then retryAfter * 1000 else RATE_LIMIT_DELAY;
          retryDelay := FIRST_DELAY;
        case Broken =>
          delay := retryDelay;
          lastKnownSeq := if lastKnownSeq - 1 > 0 then lastKnownSeq - 1 else 0;
          retryDelay := if retryDelay * 2 < MAX_DELAY then retryDelay * 2 else MAX_DELAY;
      }
    }

    /** The loop over the outcomes of successive polls, with the pauses it takes. */
    method Loop(outcomes: seq<Outcome>) returns (pauses: seq<int>)
      modifies this, window
      ensures View() == ConsumeAll(old(View()), Handled(outcomes))
      ensures pauses == PausesOver(old(View()), Handled(outcomes))
      ensures |pauses| <= |outcomes|
      ensures forall k :: 0 <= k < |pauses| - 1 ==>
                !outcomes[k].Aborted? && !outcomes[k].Unauthorized? && !outcomes[k].Banned?
      ensures |pauses| < |outcomes| ==> (
                && pauses != []
                && var last := outcomes[|pauses| - 1]; last.Aborted? || last.Unauthorized? || last.Banned?)
    {
      ghost var trail;
      pauses, trail := Turns(outcomes);
      TrailEnds(outcomes, |pauses|, trail, pauses);
      if |pauses| < |outcomes| {
        pauses := pauses + [0];
      }
    }

    /** The turns before the one that stops the loop. */
    method Turns(outcomes: seq<Outcome>) returns (pauses: seq<int>, ghost trail: seq<Client>)
      modifies this, window
      ensures Trail(outcomes, |pauses|, trail, pauses) && trail[0] == old(View()) && trail[|pauses|] == View()
      ensures forall k :: 0 <= k < |pauses| ==> !Stops(outcomes[k])
      ensures |pauses| < |outcomes| ==> Stops(outcomes[|pauses|])
    {
      pauses := [];
      trail := [View()];
      var i := 0;
      while i < |outcomes| && !Stops(outcomes[i])
        invariant 0 <= i <= |outcomes| && |pauses| == i
        invariant forall k :: 0 <= k < i ==> !Stops(outcomes[k])
        invariant Trail(outcomes, i, trail, pauses) && trail[0] == old(View()) && trail[i] == View()
      {
        var delay := Turn(outcomes[i]);
        ghost var now := View();
        TrailGrows(outcomes, i, trail, pauses, now, delay);
        trail := trail + [now];
        pauses := pauses + [delay];
        i := i + 1;
      }
    }
  }

  // --- back-off --------------------------------------------------------------------------------------

  function Failures(n: nat): seq<Outcome> { seq(n, i => Broken) }

  function Doubled(n: nat): int {
    if n == 0 then FIRST_DELAY else Min(Doubled(n - 1) * 2, MAX_DELAY)
  }

  /** The pauses of a run of failures double from one second and never exceed thirty. */
  lemma {:induction false} BackOff(c: Client, n: nat)
    requires c.retryDelay == FIRST_DELAY
    ensures ConsumeAll(c, Failures(n)).retryDelay == Doubled(n)
    ensures Pause(ConsumeAll(c, Failures(n)), Broken) == Doubled(n)
    ensures Doubled(n) == if n < 5 then [1_000, 2_000, 4_000, 8_000, 16_000][n] else 30_000
    ensures ConsumeAll(c, Failures(n)).cursors.after
            == (if n == 0 then c.cursors.after else Max(0, c.cursors.after - n))
  {
    if n > 0 {
      assert Failures(n)[..n - 1] == Failures(n - 1);
      BackOff(c, n - 1);
    }
  }

  // --- under the rate limiter --------------------------------------------------------------------------

  /**
   * A widget refused with a limiter's own Retry-After pauses a whole window at least, so its next
   * call, if it made no other meanwhile, is let through.
   */
  lemma PausedIsAdmitted(c: Client, calls: seq<int>, now: int, l: RateLimiters.Limits)
    requires RateLimiters.InUse(l) && RateLimiters.Clock(calls) && calls != []
    requires now >= calls[|calls| - 1] + Pause(c, TooMany(l.retryAfter))
    ensures Pause(c, TooMany(l.retryAfter)) >= l.window
    ensures RateLimiters.Clock(calls + [now]) && RateLimiters.Admitted(calls + [now], |calls|, l)
  {
    RateLimiters.ClockAt(calls, |calls| - 1, |calls| - 1);
    RateLimiters.ClockSnoc(calls, now);
    RateLimiters.RetryAfterSound(calls + [now], l);
  }
}

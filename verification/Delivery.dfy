/**
 * How a written message reaches a waiting poll: any number of writers and poll requests of one chat,
 * interleaved command by command, over one-slot channels and non-blocking sends.
 */
module Delivery {
  import opened Lists
  import opened Messages
  import Polling

  type TaskId = nat
  type PollId = nat

  /** A send or a delete in progress; `waiting` are the requests parked when its publish copied the list. */
  datatype Task =
    | Stored(num: nat, removal: bool)
    | Ready(num: nat, removal: bool)
    | Delivering(num: nat, removal: bool, waiting: set<PollId>, left: seq<PollId>)
    | Published(num: nat, removal: bool, waiting: set<PollId>)

  /** Where a request is; an answer remembers the table it was read from. */
  datatype Stage =
    | Asked
    | Reading
    | Behind
    | Parked
    | Woken
    | TimedOut
    | Answered(page: seq<Message>, at: seq<Message>, afterWake: bool)

  /** `floor` is the cached number when the request came in. */
  datatype Poll = Poll(after: int, floor: int, stage: Stage)

  datatype State = State(
    rows: seq<Message>, cached: Option<int>, tasks: map<TaskId, Task>,
    polls: map<PollId, Poll>, subs: seq<PollId>, full: set<PollId>)

  const START := State([], None, map[], map[], [], {})

  datatype Step =
    | Store(task: TaskId, message: Message)
    | Remove(task: TaskId, index: nat)
    | SetCache(task: TaskId)
    | Snapshot(task: TaskId)
    | Offer(task: TaskId)
    | Finish(task: TaskId)
    | Ask(poll: PollId, after: int)
    | CheckCache(poll: PollId)
    | FastRead(poll: PollId)
    | OtherNews(poll: PollId)
    | Subscribe(poll: PollId)
    | Receive(poll: PollId)
    | WokenRead(poll: PollId)
    | TimeOut(poll: PollId)
    | Unsubscribe(poll: PollId)

  function CachedNum(x: State): int { if x.cached.Some? then x.cached.value else 0 }

  function PageAfter(rows: seq<Message>, after: int): seq<Message> {
    Take(LiveAfter(rows, after), Polling.POLL_LIMIT)
  }

  function Without(subs: seq<PollId>, p: PollId): seq<PollId> {
    Filter(subs, (q: PollId) => q != p)
  }

  function ParkedIn(x: State): set<PollId> {
    set p | p in x.subs && p in x.polls && x.polls[p].stage.Parked?
  }

  predicate AtStage(x: State, p: PollId, stage: Stage) {
    p in x.polls && x.polls[p].stage == stage
  }

  function Move(x: State, p: PollId, stage: Stage): State
    requires p in x.polls
  {
    x.(polls := x.polls[p := x.polls[p].(stage := stage)])
  }

  /** A step that is not enabled changes nothing. */
  function Next(x: State, s: Step): State {
    match s
    case Store(t, m) =>
      if t in x.tasks then x else
        var num := |x.rows| + 1;
        x.(rows := x.rows + [m.(num := num, deleted := false)], tasks := x.tasks[t := Stored(num, false)])
    case Remove(t, i) =>
      if t in x.tasks || i >= |x.rows| then x else
        x.(rows := x.rows[i := x.rows[i].(deleted := true)], tasks := x.tasks[t := Ready(i + 1, true)])
    case SetCache(t) =>
      if t !in x.tasks || !x.tasks[t].Stored? then x else
        var k := x.tasks[t];
        x.(cached := Some(k.num), tasks := x.tasks[t := Ready(k.num, k.removal)])
    case Snapshot(t) =>
      if t !in x.tasks || !x.tasks[t].Ready? then x else
        var k := x.tasks[t];
        x.(tasks := x.tasks[t := Delivering(k.num, k.removal, ParkedIn(x), x.subs)])
    case Offer(t) =>
      if t !in x.tasks || !x.tasks[t].Delivering? || x.tasks[t].left == [] then x else
        var k := x.tasks[t];
        x.(full := x.full + {k.left[0]}, tasks := x.tasks[t := k.(left := k.left[1..])])
    case Finish(t) =>
      if t !in x.tasks || !x.tasks[t].Delivering? || x.tasks[t].left != [] then x else
        var k := x.tasks[t];
        x.(tasks := x.tasks[t := Published(k.num, k.removal, k.waiting)])
    case Ask(p, after) =>
      if p in x.polls || after < 0 then x else x.(polls := x.polls[p := Poll(after, CachedNum(x), Asked)])
    case CheckCache(p) =>
      if !AtStage(x, p, Asked) then x
      else Move(x, p, if x.cached.Some? && x.cached.value > x.polls[p].after then Reading else Behind)
    case FastRead(p) =>
      if !AtStage(x, p, Reading) then x else
        var page := PageAfter(x.rows, x.polls[p].after);
        Move(x, p, if page == [] then Behind else Answered(page, x.rows, false))
    case OtherNews(p) =>
      if !AtStage(x, p, Behind) then x else Move(x, p, Answered([], x.rows, false))
    case Subscribe(p) =>
      if !AtStage(x, p, Behind) then x else Move(x, p, Parked).(subs := x.subs + [p])
    case Receive(p) =>
      if !AtStage(x, p, Parked) || p !in x.full then x else Move(x, p, Woken).(full := x.full - {p})
    case WokenRead(p) =>
      if !AtStage(x, p, Woken) then x
      else Move(x, p, Answered(PageAfter(x.rows, x.polls[p].after), x.rows, true))
    case TimeOut(p) =>
      if !AtStage(x, p, Parked) then x else Move(x, p, TimedOut)
    case Unsubscribe(p) =>
      if p !in x.polls || !(x.polls[p].stage.Answered? || x.polls[p].stage.TimedOut?) then x
      else x.(subs := Without(x.subs, p))
  }

  function Run(x: State, steps: seq<Step>): State
    decreases |steps|
  {
    if steps == [] then x else Run(Next(x, steps[0]), steps[1..])
  }

  // --- what every run keeps --------------------------------------------------------------------------

  ghost predicate RowNumbers(rows: seq<Message>) {
    forall i {:trigger rows[i]} :: 0 <= i < |rows| ==> rows[i].num == i + 1
  }

  /** Rows are only added, and only marked deleted. */
  ghost predicate Grew(a: seq<Message>, b: seq<Message>) {
    && |a| <= |b|
    && forall i {:trigger b[i]} :: 0 <= i < |a| ==> b[i] == a[i] || b[i] == a[i].(deleted := true)
  }

  ghost predicate TaskStarted(x: State, k: Task) {
    1 <= k.num <= |x.rows| && (k.removal ==> x.rows[k.num - 1].deleted && !k.Stored?)
  }

  /** The table shows the write behind `k`. */
  ghost predicate Shows(at: seq<Message>, k: Task) {
    1 <= k.num <= |at| && (k.removal ==> at[k.num - 1].deleted)
  }

  /** What became of a request that was parked when `k` copied the subscriber list. */
  ghost predicate NotLost(x: State, k: Task, p: PollId)
    requires k.Delivering? || k.Published?
  {
    p in x.polls && match x.polls[p].stage
      case Parked => p in x.full || (k.Delivering? && p in k.left)
      case Woken => true
      case TimedOut => true
      case Answered(page, at, afterWake) =>
        afterWake && RowNumbers(at) && Shows(at, k) && page == PageAfter(at, x.polls[p].after)
      case _ => false
  }

  ghost predicate TasksOk(x: State) { forall t :: t in x.tasks ==> TaskStarted(x, x.tasks[t]) }

  ghost predicate WakesOk(x: State) {
    forall t, p {:trigger NotLost(x, x.tasks[t], p)} ::
      t in x.tasks && (x.tasks[t].Delivering? || x.tasks[t].Published?) && p in x.tasks[t].waiting
      ==> NotLost(x, x.tasks[t], p)
  }

  /** A request holds its subscription while it is parked or about to read. */
  ghost predicate SubsOk(x: State) {
    && (forall p :: p in x.polls && (x.polls[p].stage.Parked? || x.polls[p].stage.Woken?) ==> p in x.subs)
    && (forall p :: p in x.subs ==> p in x.polls)
  }

  /** The cached number is one the table has given out. */
  ghost predicate CacheOk(x: State) {
    x.cached.Some? ==> 1 <= x.cached.value <= |x.rows|
  }

  ghost predicate Inv(x: State) {
    RowNumbers(x.rows) && TasksOk(x) && WakesOk(x) && SubsOk(x) && CacheOk(x)
  }

  lemma StepGrows(x: State, s: Step)
    requires RowNumbers(x.rows)
    ensures RowNumbers(Next(x, s).rows) && Grew(x.rows, Next(x, s).rows)
  {
  }

  lemma StepTasks(x: State, s: Step)
    requires RowNumbers(x.rows) && TasksOk(x) && CacheOk(x)
    ensures TasksOk(Next(x, s)) && CacheOk(Next(x, s))
  {
    var y := Next(x, s);
    StepGrows(x, s);
    forall t | t in y.tasks ensures TaskStarted(y, y.tasks[t]) {
      if t in x.tasks {
        assert TaskStarted(x, x.tasks[t]);
        assert y.rows[x.tasks[t].num - 1].deleted || y.rows[x.tasks[t].num - 1] == x.rows[x.tasks[t].num - 1];
      }
    }
  }

  lemma StepSubs(x: State, s: Step)
    requires SubsOk(x)
    ensures SubsOk(Next(x, s))
  {
  }

  lemma StepWakes(x: State, s: Step)
    requires Inv(x)
    ensures WakesOk(Next(x, s))
  {
    var y := Next(x, s);
    forall t, p |
      t in y.tasks && (y.tasks[t].Delivering? || y.tasks[t].Published?) && p in y.tasks[t].waiting
      ensures NotLost(y, y.tasks[t], p)
    {
      WakeKept(x, s, t, p);
    }
  }

  lemma WakeKept(x: State, s: Step, t: TaskId, p: PollId)
    requires Inv(x)
    requires var y := Next(x, s);
      t in y.tasks && (y.tasks[t].Delivering? || y.tasks[t].Published?) && p in y.tasks[t].waiting
    ensures NotLost(Next(x, s), Next(x, s).tasks[t], p)
  {
    assert t in x.tasks && TaskStarted(x, x.tasks[t]);
    if x.tasks[t].Ready? {
      assert s == Snapshot(t);
    } else {
      assert NotLost(x, x.tasks[t], p);
      if Next(x, s).tasks[t] == x.tasks[t] {
        NotLostStays(x, s, x.tasks[t], p);
      } else {
        assert s == Offer(t) || s == Finish(t);
      }
    }
  }

  /** A step of another task, or of a request, loses nobody `k` has to wake. */
  lemma NotLostStays(x: State, s: Step, k: Task, p: PollId)
    requires SubsOk(x) && RowNumbers(x.rows) && (k.Delivering? || k.Published?)
    requires TaskStarted(x, k) && NotLost(x, k, p)
    ensures NotLost(Next(x, s), k, p)
  {
  }

  lemma StepInv(x: State, s: Step)
    requires Inv(x)
    ensures Inv(Next(x, s))
  {
    StepGrows(x, s);
    StepTasks(x, s);
    StepSubs(x, s);
    StepWakes(x, s);
  }

  lemma {:induction false} RunInv(x: State, steps: seq<Step>)
    requires Inv(x)
    ensures Inv(Run(x, steps))
    decreases |steps|
  {
    if steps != [] {
      StepInv(x, steps[0]);
      RunInv(Next(x, steps[0]), steps[1..]);
    }
  }

  /** A page misses the live row `at[i]` above its cursor only behind a hundred others. */
  ghost predicate InPage(at: seq<Message>, page: seq<Message>, i: int)
    requires 0 <= i < |at|
  {
    at[i].deleted || at[i] in page
    || (|page| == Polling.POLL_LIMIT && forall m :: m in page ==> m.num < i + 1)
  }

  lemma PageHas(at: seq<Message>, after: int, i: int)
    requires RowNumbers(at) && 0 <= i < |at| && after < i + 1
    ensures InPage(at, PageAfter(at, after), i)
  {
    if !at[i].deleted {
      FilterAscending(at, NewerThan(after));
      assert at[i] in LiveAfter(at, after);
      TakeComplete(LiveAfter(at, after), Polling.POLL_LIMIT, at[i]);
    }
  }

  /**
   * No wake-up is lost, in any interleaving: a request parked when a publish copied the list has a
   * full channel once the publish is done, or has received; and what it then reads shows the write.
   */
  lemma NoLostWakeUp(steps: seq<Step>, t: TaskId, p: PollId)
    requires var y := Run(START, steps); t in y.tasks && y.tasks[t].Published? && p in y.tasks[t].waiting
    ensures var y := Run(START, steps); var k := y.tasks[t];
      && p in y.polls
      && (var poll := y.polls[p];
        && (poll.stage.Parked? || poll.stage.Woken? || poll.stage.TimedOut? || poll.stage.Answered?)
        && (poll.stage.Parked? ==> p in y.full)
        && (poll.stage.Answered? ==>
              && poll.stage.afterWake && Shows(poll.stage.at, k)
              && (poll.after < k.num ==> InPage(poll.stage.at, poll.stage.page, k.num - 1))))
  {
    var y := Run(START, steps);
    RunInv(START, steps);
    assert NotLost(y, y.tasks[t], p);
    var poll := y.polls[p];
    if poll.stage.Answered? && poll.after < y.tasks[t].num {
      PageHas(poll.stage.at, poll.after, y.tasks[t].num - 1);
    }
  }

  /** Under any number of concurrent senders the numbers are 1, 2, 3, ... and the cache never runs ahead. */
  lemma CacheNeverAhead(steps: seq<Step>)
    ensures var y := Run(START, steps);
      RowNumbers(y.rows) && (y.cached.Some? ==> 1 <= y.cached.value <= |y.rows|)
  {
    RunInv(START, steps);
  }

  // --- one sender at a time ----------------------------------------------------------------------------

  predicate NoneStored(x: State) { forall t :: t in x.tasks ==> !x.tasks[t].Stored? }

  /** No row is created between another row's creation and its cache write. */
  predicate OneAtATime(x: State, steps: seq<Step>)
    decreases |steps|
  {
    steps == [] || ((steps[0].Store? ==> NoneStored(x)) && OneAtATime(Next(x, steps[0]), steps[1..]))
  }

  /** Only the newest row may be missing from the cache, and only while its sender is at work. */
  ghost predicate CacheExact(x: State) {
    && (forall t, u {:trigger x.tasks[t], x.tasks[u]} ::
          t in x.tasks && u in x.tasks && x.tasks[t].Stored? && x.tasks[u].Stored? ==> t == u)
    && (forall t :: t in x.tasks && x.tasks[t].Stored? ==>
          x.tasks[t].num == |x.rows| && CachedNum(x) == |x.rows| - 1)
    && (NoneStored(x) ==> CachedNum(x) == |x.rows|)
    && |x.rows| - 1 <= CachedNum(x) <= |x.rows|
  }

  /** Every row the cache knew when the request came in is on the page, or behind a hundred others. */
  ghost predicate AllInPage(after: int, floor: int, at: seq<Message>, page: seq<Message>) {
    floor <= |at|
    && forall i {:trigger at[i]} :: 0 <= i < |at| && after < i + 1 <= floor ==> InPage(at, page, i)
  }

  ghost predicate NoneLive(after: int, floor: int, rows: seq<Message>) {
    floor <= |rows|
    && forall i {:trigger rows[i]} :: 0 <= i < |rows| && after < i + 1 <= floor ==> rows[i].deleted
  }

  /** What a request past its first read cannot have missed: the rows cached when it came in. */
  ghost predicate NothingMissed(rows: seq<Message>, poll: Poll) {
    match poll.stage
    case Asked => true
    case Reading => true
    case Answered(page, at, _) => AllInPage(poll.after, poll.floor, at, page)
    case _ => NoneLive(poll.after, poll.floor, rows)
  }

  ghost predicate Served(x: State) {
    forall p :: p in x.polls ==> x.polls[p].floor <= CachedNum(x) && NothingMissed(x.rows, x.polls[p])
  }

  lemma StoreCache(x: State, s: Step)
    requires Inv(x) && CacheExact(x) && s.Store? && NoneStored(x)
    ensures CacheExact(Next(x, s)) && CachedNum(x) <= CachedNum(Next(x, s))
  {
    assert Next(x, s) == x || Next(x, s).tasks[s.task].Stored?;
  }

  lemma SetCacheCache(x: State, s: Step)
    requires Inv(x) && CacheExact(x) && s.SetCache?
    ensures CacheExact(Next(x, s)) && CachedNum(x) <= CachedNum(Next(x, s))
  {
    var t := s.task;
    if t in x.tasks && x.tasks[t].Stored? {
      assert x.tasks[t].num == |x.rows|;
      assert NoneStored(Next(x, s));
    }
  }

  lemma StepCache(x: State, s: Step)
    requires Inv(x) && CacheExact(x) && (s.Store? ==> NoneStored(x))
    ensures CacheExact(Next(x, s)) && CachedNum(x) <= CachedNum(Next(x, s))
  {
    if s.Store? {
      StoreCache(x, s);
    } else if s.SetCache? {
      SetCacheCache(x, s);
    } else {
      SameCache(x, Next(x, s));
    }
  }

  /** The cache stays exact where neither rows are added nor a row's sender moves on. */
  lemma SameCache(x: State, y: State)
    requires CacheExact(x) && |y.rows| == |x.rows| && y.cached == x.cached
    requires forall t :: t in x.tasks && x.tasks[t].Stored? ==> t in y.tasks && y.tasks[t] == x.tasks[t]
    requires forall t :: t in y.tasks && y.tasks[t].Stored? ==> t in x.tasks && x.tasks[t] == y.tasks[t]
    ensures CacheExact(y)
  {
  }

  lemma ReadServed(after: int, floor: int, rows: seq<Message>)
    requires RowNumbers(rows) && floor <= |rows|
    ensures AllInPage(after, floor, rows, PageAfter(rows, after))
    ensures PageAfter(rows, after) == [] ==> NoneLive(after, floor, rows)
  {
    forall i | 0 <= i < |rows| && after < i + 1 ensures InPage(rows, PageAfter(rows, after), i) {
      PageHas(rows, after, i);
    }
  }

  lemma StaysServed(a: seq<Message>, b: seq<Message>, after: int, floor: int)
    requires Grew(a, b) && NoneLive(after, floor, a)
    ensures NoneLive(after, floor, b) && AllInPage(after, floor, b, [])
  {
    forall i | 0 <= i < |b| && after < i + 1 <= floor ensures b[i].deleted && InPage(b, [], i) {
      assert a[i].deleted;
    }
  }

  lemma PollServed(x: State, s: Step, p: PollId)
    requires Inv(x) && Served(x) && p in x.polls
    requires CachedNum(x) <= |x.rows|
    ensures NothingMissed(Next(x, s).rows, Next(x, s).polls[p])
  {
    var poll, moved := x.polls[p], Next(x, s).polls[p];
    StepGrows(x, s);
    assert NothingMissed(x.rows, poll);
    if moved == poll {
      if !poll.stage.Answered? && !poll.stage.Asked? && !poll.stage.Reading? {
        StaysServed(x.rows, Next(x, s).rows, poll.after, poll.floor);
      }
    } else {
      MovedServed(x, s, p);
    }
  }

  lemma MovedServed(x: State, s: Step, p: PollId)
    requires RowNumbers(x.rows) && p in x.polls && Next(x, s).polls[p] != x.polls[p]
    requires NothingMissed(x.rows, x.polls[p]) && x.polls[p].floor <= CachedNum(x) <= |x.rows|
    ensures NothingMissed(x.rows, Next(x, s).polls[p]) && Next(x, s).rows == x.rows
  {
    var poll := x.polls[p];
    match s
    case OtherNews(_) => StaysServed(x.rows, x.rows, poll.after, poll.floor);
    case FastRead(_) => ReadServed(poll.after, poll.floor, x.rows);
    case WokenRead(_) => ReadServed(poll.after, poll.floor, x.rows);
    case _ =>
  }

  lemma StepServed(x: State, s: Step)
    requires Inv(x) && CacheExact(x) && Served(x) && (s.Store? ==> NoneStored(x))
    ensures Served(Next(x, s))
  {
    var y := Next(x, s);
    StepCache(x, s);
    forall p | p in y.polls ensures y.polls[p].floor <= CachedNum(y) && NothingMissed(y.rows, y.polls[p]) {
      if p in x.polls {
        PollServed(x, s, p);
      }
    }
  }

  /** A send past its cache write is in the cache. */
  ghost predicate SendsCached(x: State) {
    forall t :: t in x.tasks && !x.tasks[t].Stored? && !x.tasks[t].removal ==> x.tasks[t].num <= CachedNum(x)
  }

  ghost predicate SerialInv(x: State) {
    Inv(x) && CacheExact(x) && Served(x) && SendsCached(x)
  }

  lemma StepSerial(x: State, s: Step)
    requires SerialInv(x) && (s.Store? ==> NoneStored(x))
    ensures SerialInv(Next(x, s)) && CachedNum(x) <= CachedNum(Next(x, s))
  {
    StepInv(x, s);
    StepCache(x, s);
    StepServed(x, s);
  }

  lemma {:induction false} RunSerial(x: State, steps: seq<Step>)
    requires SerialInv(x) && OneAtATime(x, steps)
    ensures SerialInv(Run(x, steps))
    decreases |steps|
  {
    if steps != [] {
      StepSerial(x, steps[0]);
      RunSerial(Next(x, steps[0]), steps[1..]);
    }
  }

  lemma NewRequest(x: State, s: Step, p: PollId, least: int)
    requires least <= CachedNum(x) && (p in x.polls ==> least <= x.polls[p].floor)
    ensures p in Next(x, s).polls ==> least <= Next(x, s).polls[p].floor
  {
  }

  /** A request that came in during the run came in with at least the number cached at its start. */
  lemma {:induction false} NewRequests(x: State, steps: seq<Step>, p: PollId, least: int)
    requires SerialInv(x) && OneAtATime(x, steps) && least <= CachedNum(x)
    requires p in x.polls ==> least <= x.polls[p].floor
    ensures var y := Run(x, steps); p in y.polls ==> least <= y.polls[p].floor
    decreases |steps|
  {
    if steps != [] {
      StepSerial(x, steps[0]);
      NewRequest(x, steps[0], p, least);
      NewRequests(Next(x, steps[0]), steps[1..], p, least);
    }
  }

  /** One command after another from any state to any later one. */
  lemma {:induction false} RunJoin(x: State, a: seq<Step>, b: seq<Step>)
    ensures Run(x, a + b) == Run(Run(x, a), b)
    ensures OneAtATime(x, a + b) <==> OneAtATime(x, a) && OneAtATime(Run(x, a), b)
    decreases |a|
  {
    if a == [] {
      assert a + b == b;
    } else {
      assert (a + b)[1..] == a[1..] + b;
      RunJoin(Next(x, a[0]), a[1..], b);
    }
  }

  /**
   * Two-request delivery: with one sender at a time, once a send has passed its cache write every
   * request that comes in later from below the message returns it, unless it was deleted before the
   * read or a hundred live messages come first; it is never left waiting while the message is live.
   */
  lemma TwoRequestDelivery(before: seq<Step>, later: seq<Step>, t: TaskId, p: PollId)
    requires OneAtATime(START, before + later)
    requires var x := Run(START, before);
      t in x.tasks && !x.tasks[t].Stored? && !x.tasks[t].removal && p !in x.polls
    requires var y := Run(START, before + later);
      p in y.polls && y.polls[p].after < Run(START, before).tasks[t].num
    ensures var num, y := Run(START, before).tasks[t].num, Run(START, before + later);
      var poll := y.polls[p];
      && 1 <= num <= |y.rows|
      && (poll.stage.Behind? || poll.stage.Parked? || poll.stage.Woken? || poll.stage.TimedOut? ==>
            y.rows[num - 1].deleted)
      && (poll.stage.Answered? ==>
            num <= |poll.stage.at| && InPage(poll.stage.at, poll.stage.page, num - 1))
  {
    var x := Run(START, before);
    RunJoin(START, before, later);
    RunSerial(START, before);
    NewRequests(x, later, p, x.tasks[t].num);
    RunSerial(x, later);
    var y, num := Run(x, later), x.tasks[t].num;
    assert TaskStarted(x, x.tasks[t]);
    assert NothingMissed(y.rows, y.polls[p]);
  }

  // --- what is stored --------------------------------------------------------------------------------

  /** A stored message keeps its place, its number and its content in every later run; only a deletion marks it. */
  lemma {:induction false} StoredForGood(x: State, steps: seq<Step>, i: nat, m: Message)
    requires i < |x.rows| && x.rows[i] == m.(num := i + 1, deleted := x.rows[i].deleted)
    ensures var y := Run(x, steps);
      && i < |y.rows| && y.rows[i] == m.(num := i + 1, deleted := y.rows[i].deleted)
      && (x.rows[i].deleted ==> y.rows[i].deleted)
    decreases |steps|
  {
    if steps != [] {
      StoredForGood(Next(x, steps[0]), steps[1..], i, m);
    }
  }

  /** A send stores its message, live, behind all others, whatever runs afterwards. */
  lemma SendIsStored(x: State, t: TaskId, m: Message, later: seq<Step>)
    requires t !in x.tasks
    ensures var y := Run(Next(x, Store(t, m)), later); var n := |x.rows|;
      && n < |y.rows| && y.rows[n] == m.(num := n + 1, deleted := y.rows[n].deleted)
      && (later == [] ==> !y.rows[n].deleted)
  {
    StoredForGood(Next(x, Store(t, m)), later, |x.rows|, m);
  }

  // --- several senders at a time -----------------------------------------------------------------------

  /** The fast path of a request from `after`, with nothing between its commands. */
  function FastAnswer(x: State, p: PollId, after: int): State {
    Next(Next(Next(x, Ask(p, after)), CheckCache(p)), FastRead(p))
  }

  ghost predicate FastReturns(x: State, p: PollId, after: int, m: Message) {
    var y := FastAnswer(x, p, after);
    p in y.polls && y.polls[p].stage.Answered? && m in y.polls[p].stage.page
  }

  lemma CacheHit(x: State, p: PollId, after: int, m: Message)
    requires p !in x.polls && CachedNum(x) > after >= 0 && m in PageAfter(x.rows, after)
    ensures FastReturns(x, p, after, m)
  {
    assert AtStage(Next(Next(x, Ask(p, after)), CheckCache(p)), p, Reading);
  }

  lemma CacheMiss(x: State, p: PollId, after: int, m: Message)
    requires p !in x.polls && CachedNum(x) <= after
    ensures !FastReturns(x, p, after, m)
  {
    assert !AtStage(Next(Next(x, Ask(p, after)), CheckCache(p)), p, Reading);
  }

  /**
   * Whatever the senders did, requests from every cursor below a live message return it at once
   * (where the hundred-row page reaches it) exactly when the cached number has reached it.
   */
  lemma FastPathReachesExactly(x: State, p: PollId, i: nat)
    requires RowNumbers(x.rows) && i < |x.rows| && !x.rows[i].deleted && p !in x.polls
    ensures (forall after :: 0 <= after <= i && x.rows[i] in PageAfter(x.rows, after) ==>
               FastReturns(x, p, after, x.rows[i]))
      <==> CachedNum(x) >= i + 1
  {
    if CachedNum(x) >= i + 1 {
      forall after | 0 <= after <= i && x.rows[i] in PageAfter(x.rows, after)
        ensures FastReturns(x, p, after, x.rows[i])
      {
        CacheHit(x, p, after, x.rows[i]);
      }
    } else {
      FirstAbove(x.rows, i);
      CacheMiss(x, p, i, x.rows[i]);
    }
  }

  lemma FirstAbove(rows: seq<Message>, i: nat)
    requires RowNumbers(rows) && i < |rows| && !rows[i].deleted
    ensures rows[i] in PageAfter(rows, i)
  {
    PageHas(rows, i, i);
    forall m | m in PageAfter(rows, i) ensures m.num >= i + 1 {
      assert m in LiveAfter(rows, i);
    }
    HeadIsMember(PageAfter(rows, i));
  }

  const FIRST := Message(10, 0, 1, 0, [1], 0, None, false)
  const SECOND := Message(20, 0, 2, 0, [2], 0, None, false)

  /** Two senders: the second overtakes the first between its create and its cache write. */
  const OVERTAKING: seq<Step> := [
    Store(0, FIRST), Store(1, SECOND), SetCache(1), Snapshot(1), Finish(1), SetCache(0), Snapshot(0), Finish(0)]

  const BOTH_STORED := State(
    [FIRST.(num := 1), SECOND.(num := 2)], None, map[0 := Stored(1, false), 1 := Stored(2, false)], map[], [], {})

  const SECOND_OUT := BOTH_STORED.(
    cached := Some(2), tasks := map[0 := Stored(1, false), 1 := Published(2, false, {})])

  const BOTH_OUT := BOTH_STORED.(
    cached := Some(1), tasks := map[0 := Published(1, false, {}), 1 := Published(2, false, {})])

  lemma RunFrom(x: State, steps: seq<Step>, k: nat)
    requires k < |steps|
    ensures Run(x, steps[k..]) == Run(Next(x, steps[k]), steps[k + 1..])
    ensures OneAtATime(x, steps[k..]) <==>
      (steps[k].Store? ==> NoneStored(x)) && OneAtATime(Next(x, steps[k]), steps[k + 1..])
  {
    assert steps[k..][1..] == steps[k + 1..];
  }

  /** A send from its cache write to the end of its publish, with nobody subscribed. */
  lemma PublishesAlone(x: State, steps: seq<Step>, k: nat, t: TaskId)
    requires t in x.tasks && x.tasks[t].Stored? && x.subs == []
    requires k + 3 <= |steps| && steps[k] == SetCache(t) && steps[k + 1] == Snapshot(t) && steps[k + 2] == Finish(t)
    ensures var n := x.tasks[t].num;
      Run(x, steps[k..]) == Run(
        x.(cached := Some(n), tasks := x.tasks[t := Published(n, x.tasks[t].removal, {})]), steps[k + 3..])
  {
    var k0 := x.tasks[t];
    var x1 := x.(cached := Some(k0.num), tasks := x.tasks[t := Ready(k0.num, k0.removal)]);
    var x2 := x1.(tasks := x.tasks[t := Delivering(k0.num, k0.removal, {}, [])]);
    var x3 := x1.(tasks := x.tasks[t := Published(k0.num, k0.removal, {})]);
    RunFrom(x, steps, k);
    assert ParkedIn(x1) == {};
    assert Next(x1, Snapshot(t)).tasks == x2.tasks;
    RunFrom(x1, steps, k + 1);
    assert Next(x2, Finish(t)).tasks == x3.tasks;
    RunFrom(x2, steps, k + 2);
  }

  lemma BothStored()
    ensures Run(START, OVERTAKING) == Run(BOTH_STORED, OVERTAKING[2..])
    ensures !OneAtATime(START, OVERTAKING)
  {
    assert OVERTAKING[0..] == OVERTAKING;
    RunFrom(START, OVERTAKING, 0);
    var x := Next(START, Store(0, FIRST));
    assert x.tasks[0].Stored?;
    RunFrom(x, OVERTAKING, 1);
    var y := Next(x, Store(1, SECOND));
    assert y.tasks == BOTH_STORED.tasks;
    assert y.rows == BOTH_STORED.rows;
    assert y == BOTH_STORED;
  }

  /**
   * Concurrent senders can lower the cached number for good: both messages are stored and
   * published, yet a request from cursor 1 finds nothing and goes to wait.
   */
  lemma LoweredCacheHidesAMessage(p: PollId)
    ensures var x := Run(START, OVERTAKING);
      && |x.rows| == 2 && !x.rows[1].deleted && x.cached == Some(1)
      && (forall t :: t in x.tasks ==> x.tasks[t].Published?)
      && !OneAtATime(START, OVERTAKING)
      && AtStage(FastAnswer(x, p, 1), p, Behind)
  {
    BothStored();
    BothPublished();
    FindsNothing(p);
  }

  lemma BothPublished()
    ensures Run(BOTH_STORED, OVERTAKING[2..]) == BOTH_OUT
  {
    PublishesAlone(BOTH_STORED, OVERTAKING, 2, 1);
    assert BOTH_STORED.tasks[1 := Published(2, false, {})] == SECOND_OUT.tasks;
    PublishesAlone(SECOND_OUT, OVERTAKING, 5, 0);
    assert SECOND_OUT.tasks[0 := Published(1, false, {})] == BOTH_OUT.tasks;
    assert OVERTAKING[8..] == [];
  }

  lemma FindsNothing(p: PollId)
    ensures AtStage(FastAnswer(BOTH_OUT, p, 1), p, Behind)
  {
    assert AtStage(Next(BOTH_OUT, Ask(p, 1)), p, Asked);
  }
}

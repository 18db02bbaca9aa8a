/**
 * The delete log under concurrent deleters: taking a number (INCR) and logging it (ZADD) are
 * separate commands, and a client may fetch in between.
 */
module DeleteLogs {
  import opened Lists
  import opened Messages
  import opened ZSets
  import opened Polling

  type DeleterId = nat

  /** A number and the message it was taken for. */
  type Deletion = Scored<Id>

  /**
   * A fetch answered but not yet applied: its entries, their largest number, and, as of its read,
   * the deletions numbered but not logged and those whose entry another deleter had moved.
   */
  datatype Fetch = Fetch(entries: seq<Deletion>, max: int, open: set<Deletion>, moved: set<Deletion>)

  /**
   * The counter, the log, the deleters that have a number and have not logged it, and one client.
   * The last four fields are history: every deletion ever logged, those delivered, and those the
   * cursor passed while they were still to be logged, or after their entry had been moved.
   */
  datatype State = State(
    counter: int, log: ZSet<Id>, tickets: map<DeleterId, Deletion>, cursor: int, fetch: Option<Fetch>,
    logged: set<Deletion>, delivered: set<Deletion>, skipped: set<Deletion>, moved: set<Deletion>)

  const START := State(0, [], map[], 0, None, {}, {}, {}, {})

  datatype Step =
    | TakeNumber(deleter: DeleterId, id: Id)
    | Log(deleter: DeleterId)
    | Read
    | Apply

  function Between(ds: set<Deletion>, lo: int, hi: int): set<Deletion> {
    set d | d in ds && lo < d.score <= hi
  }

  /** A step that is not enabled changes nothing; a second read forgets the first (its answer was lost). */
  function Next(x: State, s: Step): State {
    match s
    case TakeNumber(d, id) =>
      if d in x.tickets then x
      else x.(counter := x.counter + 1, tickets := x.tickets[d := Scored(x.counter + 1, id)])
    case Log(d) =>
      if d !in x.tickets then x else
        var t := x.tickets[d];
        x.(log := ZAdd(x.log, t.score, t.member), tickets := x.tickets - {d}, logged := x.logged + {t})
    case Read =>
      var found := ZRangeAbove(x.log, x.cursor);
      x.(fetch := Some(Fetch(found, MaxScore(found), x.tickets.Values, set d | d in x.logged && d !in x.log)))
    case Apply =>
      match x.fetch
      case None => x
      case Some(f) => x.(
        cursor := Max(x.cursor, f.max), fetch := None,
        delivered := x.delivered + (set d | d in f.entries),
        skipped := x.skipped + Between(f.open, x.cursor, f.max),
        moved := x.moved + Between(f.moved, x.cursor, f.max))
  }

  function Run(x: State, steps: seq<Step>): State
    decreases |steps|
  {
    if steps == [] then x else Run(Next(x, steps[0]), steps[1..])
  }

  /** The messages the client was told are deleted. */
  function Heard(x: State): set<Id> { set d | d in x.delivered :: d.member }

  // --- every run --------------------------------------------------------------------------------------------

  /** Numbers are given out once, and the log holds logged deletions, one for each logged message. */
  ghost predicate Numbering(x: State) {
    && (forall t :: t in x.tickets ==> x.tickets[t].score <= x.counter && x.tickets[t] !in x.logged)
    && (forall t, u :: t in x.tickets && u in x.tickets && t != u ==> x.tickets[t] != x.tickets[u])
    && (forall d :: d in x.logged ==> d.score <= x.counter && d.member in Members(x.log))
    && (forall e :: e in x.log ==> e in x.logged)
  }

  /** Every deletion the cursor has passed was delivered, skipped, or moved; the first excludes the others. */
  ghost predicate Passed(x: State) {
    && 0 <= x.cursor <= x.counter
    && (forall d :: d in x.logged && d.score <= x.cursor ==> (d in x.delivered <==> d !in x.skipped && d !in x.moved))
    && (forall t :: t in x.tickets && x.tickets[t].score <= x.cursor ==> x.tickets[t] in x.skipped)
    && (forall d :: d in x.delivered ==> d in x.logged && d.score <= x.cursor)
    && (forall d :: d in x.skipped ==> d.score <= x.cursor)
    && (forall d :: d in x.moved ==> d in x.logged && d !in x.log && d.score <= x.cursor)
  }

  /** The same for what a fetch in flight will pass. */
  ghost predicate WillPass(x: State, f: Fetch) {
    && f.max <= x.counter
    && (forall d :: d in x.logged && x.cursor < d.score <= f.max ==>
          (d in f.entries <==> d !in f.open && d !in f.moved))
    && (forall t :: t in x.tickets && x.cursor < x.tickets[t].score <= f.max ==> x.tickets[t] in f.open)
    && (forall d :: d in f.entries ==> d in x.logged && x.cursor < d.score <= f.max)
    && (forall d :: d in f.moved ==> d in x.logged && d !in x.log)
  }

  ghost predicate Inv(x: State) {
    Numbering(x) && Passed(x) && (x.fetch.Some? ==> WillPass(x, x.fetch.value))
  }

  /** Logging moves at most the message's own entry, and leaves one in its place. */
  lemma LogKeepsMembers(x: State, d: DeleterId)
    requires Numbering(x) && d in x.tickets
    ensures var y := Next(x, Log(d)); forall l :: l in y.logged ==> l.member in Members(y.log)
  {
    var y, t := Next(x, Log(d)), x.tickets[d];
    assert Scored(t.score, t.member) in y.log;
    forall l | l in y.logged ensures l.member in Members(y.log) {
      if l.member != t.member {
        var e :| e in x.log && e.member == l.member;
        assert e in y.log;
      }
    }
  }

  lemma StepNumbering(x: State, s: Step)
    requires Numbering(x)
    ensures Numbering(Next(x, s))
  {
    if s.Log? && s.deleter in x.tickets {
      LogKeepsMembers(x, s.deleter);
    }
  }

  lemma StepInv(x: State, s: Step)
    requires Inv(x)
    ensures Inv(Next(x, s))
  {
    StepNumbering(x, s);
  }

  lemma {:induction false} RunInv(x: State, steps: seq<Step>)
    requires Inv(x)
    ensures Inv(Run(x, steps))
    decreases |steps|
  {
    if steps != [] {
      StepInv(x, steps[0]);
      RunInv(Next(x, steps[0]), steps[1..]);
    }
  }

  /**
   * Any number of deleters, any interleaving, messages deleted any number of times, exactly: a
   * logged deletion at or below the client's cursor was delivered unless, when the client fetched
   * past its number, it was numbered but not yet logged, or its entry had been moved.
   */
  lemma DeliveredExactly(steps: seq<Step>)
    ensures var x := Run(START, steps);
      forall d :: d in x.logged && d.score <= x.cursor ==> (d in x.delivered <==> d !in x.skipped && d !in x.moved)
  {
    RunInv(START, steps);
  }

  /** What is in the log was not moved: there only the numbers fetched past before they were logged are an exception. */
  lemma EntriesExactly(steps: seq<Step>)
    ensures var x := Run(START, steps);
      forall e :: e in x.log && e.score <= x.cursor ==> (e in x.delivered <==> e !in x.skipped)
  {
    RunInv(START, steps);
  }

  /** The client has heard of a message exactly when one of its deletions was passed in time and in place. */
  lemma HeardExactly(steps: seq<Step>, id: Id)
    ensures var x := Run(START, steps);
      id in Heard(x) <==>
        exists d :: d in x.logged && d.member == id && d.score <= x.cursor && d !in x.skipped && d !in x.moved
  {
    RunInv(START, steps);
  }

  /** Only a second deletion of the same message moves an entry: one that is deleted once is lost by skipping alone. */
  lemma DeletedOnceExactly(steps: seq<Step>, d: Deletion)
    requires var x := Run(START, steps);
      d in x.logged && d.score <= x.cursor && forall e :: e in x.logged && e.member == d.member ==> e == d
    ensures var x := Run(START, steps); d.member in Heard(x) <==> d !in x.skipped
  {
    RunInv(START, steps);
    var x := Run(START, steps);
    var e :| e in x.log && e.member == d.member;
    assert d in x.log;
  }

  /**
   * A message deleted twice: the client never hears of it exactly when the deletion left in the log
   * was skipped, and the other one skipped or moved.
   */
  lemma TwiceDeletedExactly(steps: seq<Step>, kept: Deletion, other: Deletion)
    requires var x := Run(START, steps);
      && kept in x.log && other in x.logged && kept.member == other.member
      && kept.score <= x.cursor && other.score <= x.cursor
      && forall d :: d in x.logged && d.member == kept.member ==> d == kept || d == other
    ensures var x := Run(START, steps);
      kept.member !in Heard(x) <==> kept in x.skipped && (other in x.skipped || other in x.moved)
  {
    RunInv(START, steps);
    HeardExactly(steps, kept.member);
  }

  // --- a message deleted twice -------------------------------------------------------------------------------

  /** Nothing that will still be logged or fetched names `id`. */
  ghost predicate OutOfReach(x: State, id: Id) {
    && id !in Heard(x)
    && (forall t :: t in x.tickets ==> x.tickets[t].member != id)
    && (forall e :: e in x.log && e.member == id ==> e.score <= x.cursor)
    && (x.fetch.Some? ==> forall e :: e in x.fetch.value.entries ==> e.member != id)
  }

  lemma StepOutOfReach(x: State, s: Step, id: Id)
    requires OutOfReach(x, id) && (s.TakeNumber? ==> s.id != id)
    ensures OutOfReach(Next(x, s), id)
  {
    assert forall d :: d in x.delivered ==> d.member in Heard(x);
  }

  lemma {:induction false} StaysOutOfReach(x: State, steps: seq<Step>, id: Id)
    requires OutOfReach(x, id) && forall s :: s in steps ==> !(s.TakeNumber? && s.id == id)
    ensures id !in Heard(Run(x, steps))
    decreases |steps|
  {
    if steps != [] {
      assert steps[0] in steps;
      StepOutOfReach(x, steps[0], id);
      StaysOutOfReach(Next(x, steps[0]), steps[1..], id);
    }
  }

  /** Two deleters of one message at work, the slow one already overtaken by the client's cursor. */
  ghost predicate TwiceAtWork(x: State, slow: DeleterId, quick: DeleterId, id: Id) {
    && slow != quick && slow in x.tickets && quick in x.tickets
    && x.tickets[slow].member == id == x.tickets[quick].member
    && x.tickets[slow].score <= x.cursor < x.tickets[quick].score
    && (forall t :: t in x.tickets && t != slow && t != quick ==> x.tickets[t].member != id)
    && id !in Heard(x) && x.fetch.None?
  }

  /**
   * Deleting a message twice can hide it for good: the quick deleter logs a number above the
   * client's cursor, the slow one moves the entry back below it, and however the run goes on the
   * client is never told.
   */
  lemma TwiceDeletedIsLost(x: State, slow: DeleterId, quick: DeleterId, id: Id, later: seq<Step>)
    requires TwiceAtWork(x, slow, quick, id)
    requires forall s :: s in later ==> !(s.TakeNumber? && s.id == id)
    ensures id !in Heard(Run(Next(Next(x, Log(quick)), Log(slow)), later))
  {
    var y := Next(x, Log(quick));
    assert y.tickets[slow] == x.tickets[slow];
    StaysOutOfReach(Next(y, Log(slow)), later, id);
  }

  /** Message 7 has number 1 and is not logged; message 8 is logged as number 2 and fetched. */
  ghost predicate OneSkipped(x: State) {
    && x.counter == x.cursor == 2 && x.fetch.None? && 7 !in Heard(x)
    && x.tickets == map[0 := Scored(1, 7)]
  }

  lemma FetchedTheSecond(x: State)
    requires x.tickets == map[0 := Scored(1, 7)] && x.counter == 2 && x.cursor == 0 && x.delivered == {}
    requires forall e :: e in x.log <==> e == Scored(2, 8)
    ensures OneSkipped(Next(Next(x, Read), Apply))
  {
    assert Scored(2, 8) in Next(x, Read).fetch.value.entries;
  }

  ghost predicate Reached(x: State) {
    exists steps :: x == Run(START, steps)
  }

  lemma {:induction false} RunAppend(x: State, steps: seq<Step>, s: Step)
    ensures Run(x, steps + [s]) == Next(Run(x, steps), s)
    decreases |steps|
  {
    if steps == [] {
      assert [s][1..] == [];
    } else {
      assert (steps + [s])[1..] == steps[1..] + [s];
      RunAppend(Next(x, steps[0]), steps[1..], s);
    }
  }

  lemma ReachedNext(x: State, s: Step)
    requires Reached(x)
    ensures Reached(Next(x, s))
  {
    var steps :| x == Run(START, steps);
    RunAppend(START, steps, s);
  }

  lemma SecondLogged() returns (x: State)
    ensures Reached(x) && x.tickets == map[0 := Scored(1, 7)] && x.counter == 2 && x.cursor == 0 && x.delivered == {}
    ensures forall e :: e in x.log <==> e == Scored(2, 8)
  {
    assert Run(START, []) == START;
    ReachedNext(START, TakeNumber(0, 7));
    var y := Next(Next(START, TakeNumber(0, 7)), TakeNumber(1, 8));
    ReachedNext(Next(START, TakeNumber(0, 7)), TakeNumber(1, 8));
    assert y.tickets[1] == Scored(2, 8);
    ReachedNext(y, Log(1));
    x := Next(y, Log(1));
  }

  lemma SecondDeleter(x: State)
    requires OneSkipped(x)
    ensures TwiceAtWork(Next(x, TakeNumber(2, 7)), 0, 2, 7)
  {
  }

  /** Such a state is reached: number 1 is still open when the client fetches number 2. */
  lemma TwiceAtWorkIsReached()
    ensures exists steps :: TwiceAtWork(Run(START, steps), 0, 2, 7)
  {
    var x := SecondLogged();
    FetchedTheSecond(x);
    ReachedNext(x, Read);
    ReachedNext(Next(x, Read), Apply);
    var y := Next(Next(x, Read), Apply);
    ReachedNext(y, TakeNumber(2, 7));
    SecondDeleter(y);
  }
}

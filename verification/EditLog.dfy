/**
 * The edit log under concurrent editors: writing the row, reading it back, taking a number (INCR)
 * and logging it (ZADD) are separate commands.
 */
module EditLogs {
  import opened Lists
  import opened Messages
  import opened ZSets
  import opened Servers

  type EditorId = nat

  datatype Stage = Written | Reloaded(entry: Edit) | Numbered(num: int, entry: Edit)

  datatype Editor = Editor(id: Id, stage: Stage)

  /** What each row says, the log and its counter, and the editors at work. */
  datatype State = State(rows: map<Id, Edit>, counter: int, log: ZSet<Edit>, editors: map<EditorId, Editor>)

  const START := State(map[], 0, [], map[])

  datatype Step =
    | Post(id: Id, text: Text)
    | Rewrite(editor: EditorId, id: Id, text: Text, at: int)
    | Reload(editor: EditorId)
    | TakeNumber(editor: EditorId)
    | Log(editor: EditorId)

  predicate AtWork(x: State, e: EditorId) { e in x.editors && x.editors[e].id in x.rows }

  function Put(x: State, e: EditorId, stage: Stage): State
    requires e in x.editors
  {
    x.(editors := x.editors[e := x.editors[e].(stage := stage)])
  }

  /** A step that is not enabled changes nothing. */
  function Next(x: State, s: Step): State {
    match s
    case Post(id, text) =>
      if id in x.rows then x else x.(rows := x.rows[id := Edit(id, text, None)])
    case Rewrite(e, id, text, at) =>
      if e in x.editors || id !in x.rows then x
      else x.(rows := x.rows[id := Edit(id, text, Some(at))], editors := x.editors[e := Editor(id, Written)])
    case Reload(e) =>
      if !AtWork(x, e) || !x.editors[e].stage.Written? then x
      else Put(x, e, Reloaded(x.rows[x.editors[e].id]))
    case TakeNumber(e) =>
      if !AtWork(x, e) || !x.editors[e].stage.Reloaded? then x
      else Put(x.(counter := x.counter + 1), e, Numbered(x.counter + 1, x.editors[e].stage.entry))
    case Log(e) =>
      if !AtWork(x, e) || !x.editors[e].stage.Numbered? then x
      else
        var stage := x.editors[e].stage;
        x.(log := ZAdd(x.log, stage.num, stage.entry), editors := x.editors - {e})
  }

  function Run(x: State, steps: seq<Step>): State
    decreases |steps|
  {
    if steps == [] then x else Run(Next(x, steps[0]), steps[1..])
  }

  predicate BeingEdited(x: State, id: Id) {
    exists e :: e in x.editors && x.editors[e].id == id
  }

  /** No edit of a message starts before the last one of the same message is logged. */
  predicate OneEditorEach(x: State, steps: seq<Step>)
    decreases |steps|
  {
    steps == [] ||
      ((steps[0].Rewrite? ==> !BeingEdited(x, steps[0].id)) && OneEditorEach(Next(x, steps[0]), steps[1..]))
  }

  // --- messages edited by one editor at a time, any number of them at once ------------------------------------

  /** An editor past its reload holds what the row says, under a number above the message's log entries. */
  ghost predicate Faithful(x: State, e: EditorId)
    requires e in x.editors
  {
    var id, stage := x.editors[e].id, x.editors[e].stage;
    && id in x.rows
    && (stage.Reloaded? ==> stage.entry == x.rows[id])
    && (stage.Numbered? ==> stage.entry == x.rows[id] && stage.num <= x.counter)
    && (stage.Numbered? ==> forall f :: f in x.log && f.member.id == id ==> f.score < stage.num)
  }

  /** The newest entry of a message nobody is editing is what its row says. */
  ghost predicate Agrees(x: State, id: Id)
    requires id in x.rows
  {
    BeingEdited(x, id) || forall f :: Newest(x.log, f) && f.member.id == id ==> f.member == x.rows[id]
  }

  ghost predicate Inv(x: State) {
    && (forall id :: id in x.rows ==> x.rows[id].id == id)
    && (forall f :: f in x.log ==> f.score <= x.counter && f.member.id in x.rows)
    && (forall d, e :: d in x.editors && e in x.editors && x.editors[d].id == x.editors[e].id ==> d == e)
    && (forall e :: e in x.editors ==> Faithful(x, e))
    && (forall id :: id in x.rows ==> Agrees(x, id))
  }

  lemma LogFaithful(x: State, e: EditorId)
    requires Inv(x) && e in x.editors && x.editors[e].stage.Numbered?
    ensures Inv(Next(x, Log(e)))
  {
    var y, id, stage := Next(x, Log(e)), x.editors[e].id, x.editors[e].stage;
    assert Faithful(x, e);
    var top := Scored(stage.num, stage.entry);
    assert top in y.log;
    forall d | d in y.editors ensures Faithful(y, d) {
      assert Faithful(x, d) && x.editors[d].id != id;
    }
    forall other | other in y.rows ensures Agrees(y, other) {
      assert Agrees(x, other);
      if other == id {
        forall f | Newest(y.log, f) && f.member.id == id ensures f.member == y.rows[id] {
          assert f == top || f in x.log;
        }
      } else if !BeingEdited(y, other) {
        assert !BeingEdited(x, other) by {
          forall d | d in x.editors ensures x.editors[d].id != other {
            assert d == e || d in y.editors;
          }
        }
        forall f | Newest(y.log, f) && f.member.id == other ensures f.member == y.rows[other] {
          assert Newest(x.log, f);
        }
      }
    }
  }

  lemma WriteFaithful(x: State, s: Step)
    requires Inv(x) && s.Rewrite? && !BeingEdited(x, s.id)
    ensures Inv(Next(x, s))
  {
    var y := Next(x, s);
    if y != x {
      forall d | d in y.editors ensures Faithful(y, d) {
        assert d in x.editors ==> Faithful(x, d) && x.editors[d].id != s.id;
      }
      assert y.editors[s.editor].id == s.id;
      forall id | id in y.rows ensures Agrees(y, id) {
        if id != s.id {
          StillAgrees(x, y, id);
        }
      }
    }
  }

  /** A message agrees as it did where its row and the log are as they were and no editor has left. */
  lemma StillAgrees(x: State, y: State, id: Id)
    requires x.log == y.log && id in x.rows && id in y.rows && y.rows[id] == x.rows[id] && Agrees(x, id)
    requires forall d :: d in x.editors ==> d in y.editors && y.editors[d].id == x.editors[d].id
    ensures Agrees(y, id)
  {
    if BeingEdited(x, id) {
      var d :| d in x.editors && x.editors[d].id == id;
      assert d in y.editors && y.editors[d].id == id;
    }
  }

  lemma OtherFaithful(x: State, s: Step)
    requires Inv(x) && (s.Post? || s.Reload? || s.TakeNumber?)
    ensures Inv(Next(x, s))
  {
    var y := Next(x, s);
    if y != x {
      forall d | d in y.editors ensures Faithful(y, d) {
        assert Faithful(x, d);
      }
      forall id | id in y.rows ensures Agrees(y, id) {
        if id in x.rows {
          StillAgrees(x, y, id);
        }
      }
    }
  }

  lemma {:induction false} RunFaithful(x: State, steps: seq<Step>)
    requires Inv(x) && OneEditorEach(x, steps)
    ensures Inv(Run(x, steps))
    decreases |steps|
  {
    if steps != [] {
      var s := steps[0];
      match s {
        case Rewrite(_, _, _, _) => WriteFaithful(x, s);
        case Log(e) => if AtWork(x, e) && x.editors[e].stage.Numbered? { LogFaithful(x, e); }
        case _ => OtherFaithful(x, s);
      }
      RunFaithful(Next(x, s), steps[1..]);
    }
  }

  /**
   * Any number of messages edited at once, each by one editor at a time, command by command: the
   * newest entry of a message nobody is editing carries its row's text and edit time.
   */
  lemma EditLogAgrees(steps: seq<Step>, f: Scored<Edit>)
    requires OneEditorEach(START, steps)
    requires var x := Run(START, steps); Newest(x.log, f) && !BeingEdited(x, f.member.id)
    ensures var x := Run(START, steps); f.member.id in x.rows && f.member == x.rows[f.member.id]
  {
    RunFaithful(START, steps);
    var x := Run(START, steps);
    assert Agrees(x, f.member.id);
  }

  // --- what the log says in the end ------------------------------------------------------------------------------

  /** What was last written for a message: by its post, or by a rewrite that found it and a free editor. */
  function LastWord(x: State, steps: seq<Step>, id: Id, said: Option<Edit>): Option<Edit>
    decreases |steps|
  {
    if steps == [] then said else
      var s := steps[0];
      LastWord(Next(x, s), steps[1..], id,
        if s.Post? && s.id == id && said.None? then Some(Edit(id, s.text, None))
        else if s.Rewrite? && s.id == id && said.Some? && s.editor !in x.editors then Some(Edit(id, s.text, Some(s.at)))
        else said)
  }

  lemma {:induction false} RowSaysLastWord(x: State, steps: seq<Step>, id: Id, said: Option<Edit>)
    requires said == if id in x.rows then Some(x.rows[id]) else None
    ensures var y := Run(x, steps);
      LastWord(x, steps, id, said) == if id in y.rows then Some(y.rows[id]) else None
    decreases |steps|
  {
    if steps != [] {
      var y := Next(x, steps[0]);
      RowSaysLastWord(y, steps[1..], id, if id in y.rows then Some(y.rows[id]) else None);
    }
  }

  /** One editor each at a time: the newest entry of a message nobody is editing is the last thing written for it. */
  lemma LogSaysLastWord(steps: seq<Step>, f: Scored<Edit>)
    requires OneEditorEach(START, steps)
    requires var x := Run(START, steps); Newest(x.log, f) && !BeingEdited(x, f.member.id)
    ensures Some(f.member) == LastWord(START, steps, f.member.id, None)
  {
    EditLogAgrees(steps, f);
    RowSaysLastWord(START, steps, f.member.id, None);
  }

  // --- two editors of one message --------------------------------------------------------------------------------

  /** Entries are of the message they were loaded for, and no number is above the counter. */
  ghost predicate Tidy(x: State) {
    && (forall id :: id in x.rows ==> x.rows[id].id == id)
    && (forall e :: e in x.editors ==> x.editors[e].id in x.rows)
    && (forall e :: e in x.editors && x.editors[e].stage.Reloaded? ==> x.editors[e].stage.entry.id == x.editors[e].id)
    && (forall e :: e in x.editors && x.editors[e].stage.Numbered? ==>
          x.editors[e].stage.entry.id == x.editors[e].id && x.editors[e].stage.num <= x.counter)
    && (forall f :: f in x.log ==> f.score <= x.counter)
    && x.counter >= 0
  }

  lemma StepTidy(x: State, s: Step)
    requires Tidy(x)
    ensures Tidy(Next(x, s))
  {
  }

  lemma {:induction false} RunTidy(x: State, steps: seq<Step>)
    requires Tidy(x)
    ensures Tidy(Run(x, steps))
    decreases |steps|
  {
    if steps != [] {
      StepTidy(x, steps[0]);
      RunTidy(Next(x, steps[0]), steps[1..]);
    }
  }

  predicate EditsNow(x: State, e: EditorId, id: Id) { e in x.editors && x.editors[e].id == id }

  /** Two editors of one message past their reload, with different entries; the quick one has what the row says. */
  ghost predicate Racing(x: State, slow: EditorId, quick: EditorId, id: Id) {
    && Tidy(x) && slow != quick && id in x.rows && EditsNow(x, slow, id) && EditsNow(x, quick, id)
    && (forall e :: EditsNow(x, e, id) ==> e == slow || e == quick)
    && x.editors[slow].stage.Reloaded? && x.editors[quick].stage == Reloaded(x.rows[id])
    && x.editors[slow].stage.entry != x.rows[id]
  }

  /** The number the editor takes in the run; 0 while it takes none. */
  function NumberTaken(x: State, steps: seq<Step>, e: EditorId): int
    decreases |steps|
  {
    if steps == [] then 0
    else if steps[0] == TakeNumber(e) && AtWork(x, e) && x.editors[e].stage.Reloaded? then x.counter + 1
    else NumberTaken(Next(x, steps[0]), steps[1..], e)
  }

  /** An editor on its way, `num` being its number once it has one: holding its entry, or done and logged. */
  ghost predicate OnItsWay(x: State, e: EditorId, id: Id, entry: Edit, num: int) {
    if num == 0 then EditsNow(x, e, id) && x.editors[e].stage == Reloaded(entry)
    else if EditsNow(x, e, id) then x.editors[e].stage == Numbered(num, entry)
    else Scored(num, entry) in x.log
  }

  /** The two editors with the numbers they have so far, all other entries of the message being older. */
  ghost predicate Race(
    x: State, slow: EditorId, quick: EditorId, id: Id, stale: Edit, base: int, slowNum: int, quickNum: int)
  {
    && id in x.rows && stale.id == id && stale != x.rows[id] && 0 <= base <= x.counter
    && (forall e :: EditsNow(x, e, id) ==> e == slow || e == quick)
    && OnItsWay(x, slow, id, stale, slowNum) && OnItsWay(x, quick, id, x.rows[id], quickNum)
    && (slowNum != 0 ==> base < slowNum <= x.counter) && (quickNum != 0 ==> base < quickNum <= x.counter)
    && (slowNum != 0 ==> slowNum != quickNum)
    && (forall f :: f in x.log && f.member.id == id ==>
          f.score <= base || f == Scored(slowNum, stale) || f == Scored(quickNum, x.rows[id]))
  }

  function After(num: int, x: State, s: Step, e: EditorId): int {
    if num == 0 && s == TakeNumber(e) && AtWork(x, e) && x.editors[e].stage.Reloaded? then x.counter + 1 else num
  }

  lemma LogRace(
    x: State, d: EditorId, slow: EditorId, quick: EditorId, id: Id, stale: Edit, base: int, slowNum: int, quickNum: int)
    requires Tidy(x) && slow != quick && Race(x, slow, quick, id, stale, base, slowNum, quickNum)
    ensures Race(Next(x, Log(d)), slow, quick, id, stale, base, slowNum, quickNum)
  {
    var y := Next(x, Log(d));
    assert forall e :: EditsNow(y, e, id) ==> EditsNow(x, e, id);
    if y != x && !EditsNow(x, d, id) {
      assert x.editors[d].stage.entry.id != id;
    }
  }

  lemma NumberRace(
    x: State, d: EditorId, slow: EditorId, quick: EditorId, id: Id, stale: Edit, base: int, slowNum: int, quickNum: int)
    requires Tidy(x) && slow != quick && Race(x, slow, quick, id, stale, base, slowNum, quickNum)
    ensures Race(Next(x, TakeNumber(d)), slow, quick, id, stale, base,
      After(slowNum, x, TakeNumber(d), slow), After(quickNum, x, TakeNumber(d), quick))
  {
    var y := Next(x, TakeNumber(d));
    assert forall e :: EditsNow(y, e, id) <==> EditsNow(x, e, id);
  }

  lemma StepRace(
    x: State, s: Step, slow: EditorId, quick: EditorId, id: Id, stale: Edit, base: int, slowNum: int, quickNum: int)
    requires Tidy(x) && slow != quick && Race(x, slow, quick, id, stale, base, slowNum, quickNum)
    requires s.Rewrite? ==> s.id != id
    ensures Race(Next(x, s), slow, quick, id, stale, base,
              After(slowNum, x, s, slow), After(quickNum, x, s, quick))
  {
    match s
    case Log(d) => LogRace(x, d, slow, quick, id, stale, base, slowNum, quickNum);
    case TakeNumber(d) => NumberRace(x, d, slow, quick, id, stale, base, slowNum, quickNum);
    case _ =>
      var y := Next(x, s);
      assert forall e :: EditsNow(y, e, id) <==> EditsNow(x, e, id);
  }

  lemma {:induction false} RunRace(
    x: State, steps: seq<Step>, slow: EditorId, quick: EditorId, id: Id, stale: Edit, base: int, slowNum: int,
    quickNum: int)
    requires Tidy(x) && slow != quick && Race(x, slow, quick, id, stale, base, slowNum, quickNum)
    requires forall s :: s in steps && s.Rewrite? ==> s.id != id
    ensures Race(Run(x, steps), slow, quick, id, stale, base,
      if slowNum == 0 then NumberTaken(x, steps, slow) else slowNum,
      if quickNum == 0 then NumberTaken(x, steps, quick) else quickNum)
    decreases |steps|
  {
    if steps != [] {
      var s := steps[0];
      assert s in steps;
      StepTidy(x, s);
      StepRace(x, s, slow, quick, id, stale, base, slowNum, quickNum);
      RunRace(Next(x, s), steps[1..], slow, quick, id, stale, base,
              After(slowNum, x, s, slow), After(quickNum, x, s, quick));
    }
  }

  /** With both done, the newest entry of the message is the one with the larger number. */
  lemma RaceOver(x: State, slow: EditorId, quick: EditorId, id: Id, stale: Edit, base: int, slowNum: int, quickNum: int)
    requires slow != quick && Race(x, slow, quick, id, stale, base, slowNum, quickNum) && !BeingEdited(x, id)
    requires x.rows[id].id == id
    ensures (forall f :: Newest(x.log, f) && f.member.id == id ==> f.member == x.rows[id]) <==> quickNum > slowNum
  {
    var s, q := Scored(slowNum, stale), Scored(quickNum, x.rows[id]);
    assert s in x.log && q in x.log;
    if slowNum > quickNum {
      assert Newest(x.log, s);
    }
  }

  /**
   * Two editors of one message race, others being at work on other messages, in any order of the
   * commands: once neither is at work, the newest entry agrees with the row exactly when the editor
   * that loaded the row's text took the later number.
   */
  lemma LaterNumberWins(x: State, slow: EditorId, quick: EditorId, id: Id, later: seq<Step>)
    requires Racing(x, slow, quick, id)
    requires forall s :: s in later && s.Rewrite? ==> s.id != id
    requires !BeingEdited(Run(x, later), id)
    ensures var y := Run(x, later);
      id in y.rows && y.rows[id] == x.rows[id]
      && ((forall f :: Newest(y.log, f) && f.member.id == id ==> f.member == y.rows[id])
          <==> NumberTaken(x, later, quick) > NumberTaken(x, later, slow))
  {
    var stale := x.editors[slow].stage.entry;
    RunRace(x, later, slow, quick, id, stale, x.counter, 0, 0);
    RunTidy(x, later);
    RowStays(x, later, id);
    RaceOver(Run(x, later), slow, quick, id, stale, x.counter,
             NumberTaken(x, later, slow), NumberTaken(x, later, quick));
  }

  lemma {:induction false} RowStays(x: State, steps: seq<Step>, id: Id)
    requires id in x.rows && forall s :: s in steps && s.Rewrite? ==> s.id != id
    ensures var y := Run(x, steps); id in y.rows && y.rows[id] == x.rows[id]
    decreases |steps|
  {
    if steps != [] {
      assert steps[0] in steps;
      RowStays(Next(x, steps[0]), steps[1..], id);
    }
  }

  // --- several editors with the same text -----------------------------------------------------------------------

  /** Whoever edits the message holds what the row says, and one of them is on its way or has logged it. */
  ghost predicate SameText(x: State, id: Id, base: int) {
    && id in x.rows && 0 <= base <= x.counter
    && (forall e :: EditsNow(x, e, id) ==>
          || x.editors[e].stage == Reloaded(x.rows[id])
          || (x.editors[e].stage.Numbered? && x.editors[e].stage.entry == x.rows[id] && base < x.editors[e].stage.num))
    && (forall f :: f in x.log && f.member.id == id ==> f.score <= base || f.member == x.rows[id])
    && (BeingEdited(x, id) || exists f :: f in x.log && f.member == x.rows[id] && f.score > base)
  }

  lemma StepSameText(x: State, s: Step, id: Id, base: int)
    requires Tidy(x) && SameText(x, id, base) && (s.Rewrite? ==> s.id != id)
    ensures SameText(Next(x, s), id, base)
  {
    assert forall e :: EditsNow(Next(x, s), e, id) ==> EditsNow(x, e, id);
    StillOnItsWay(x, s, id, base);
  }

  lemma StillOnItsWay(x: State, s: Step, id: Id, base: int)
    requires Tidy(x) && SameText(x, id, base) && (s.Rewrite? ==> s.id != id)
    ensures var y := Next(x, s);
      BeingEdited(y, id) || exists f :: f in y.log && f.member == x.rows[id] && f.score > base
  {
    var y := Next(x, s);
    if s.Log? && y != x {
      var stage := x.editors[s.editor].stage;
      assert Scored(stage.num, stage.entry) in y.log;
    }
    if BeingEdited(x, id) && !BeingEdited(y, id) {
      var e :| e in x.editors && x.editors[e].id == id;
      assert EditsNow(x, e, id) && !EditsNow(y, e, id);
      assert s == Log(e);
    } else if !BeingEdited(x, id) {
      var f :| f in x.log && f.member == x.rows[id] && f.score > base;
      assert f in y.log;
    }
  }

  lemma {:induction false} RunSameText(x: State, steps: seq<Step>, id: Id, base: int)
    requires Tidy(x) && SameText(x, id, base) && forall s :: s in steps && s.Rewrite? ==> s.id != id
    ensures SameText(Run(x, steps), id, base)
    decreases |steps|
  {
    if steps != [] {
      assert steps[0] in steps;
      StepTidy(x, steps[0]);
      StepSameText(x, steps[0], id, base);
      RunSameText(Next(x, steps[0]), steps[1..], id, base);
    }
  }

  /** Any number of editors that all loaded the row's text: in whatever order they finish, the log agrees. */
  lemma SameTextAgrees(x: State, id: Id, later: seq<Step>)
    requires Tidy(x) && id in x.rows && BeingEdited(x, id)
    requires forall e :: EditsNow(x, e, id) ==> x.editors[e].stage == Reloaded(x.rows[id])
    requires forall s :: s in later && s.Rewrite? ==> s.id != id
    requires !BeingEdited(Run(x, later), id)
    ensures var y := Run(x, later);
      id in y.rows && forall f :: Newest(y.log, f) && f.member.id == id ==> f.member == y.rows[id]
  {
    RunSameText(x, later, id, x.counter);
    RunTidy(x, later);
    var y := Run(x, later);
    var g :| g in y.log && g.member == y.rows[id] && g.score > x.counter;
    forall f | Newest(y.log, f) && f.member.id == id ensures f.member == y.rows[id] {
      assert g.score <= f.score;
    }
  }

  /** One editor has written and reloaded. */
  const ONE_RELOADED := State(
    map[7 := Edit(7, [73], Some(1))], 0, [], map[0 := Editor(7, Reloaded(Edit(7, [73], Some(1))))])

  ghost predicate Reached(x: State) {
    exists steps :: x == Run(START, steps)
  }

  lemma {:induction false} RunAppend(x: State, steps: seq<Step>, s: Step)
    ensures Run(x, steps + [s]) == Next(Run(x, steps), s)
    decreases |steps|
  {
    if steps == [] {
      assert [s][1..] == [];
    } else {
      assert (steps + [s])[1..] == steps[1..] + [s];
      RunAppend(Next(x, steps[0]), steps[1..], s);
    }
  }

  lemma ReachedNext(x: State, s: Step)
    requires Reached(x)
    ensures Reached(Next(x, s))
  {
    var steps :| x == Run(START, steps);
    RunAppend(START, steps, s);
  }

  lemma FirstReloads()
    ensures Reached(ONE_RELOADED)
  {
    assert Run(START, []) == START;
    ReachedNext(START, Post(7, [72]));
    ReachedNext(Next(START, Post(7, [72])), Rewrite(0, 7, [73], 1));
    ReachedNext(Next(Next(START, Post(7, [72])), Rewrite(0, 7, [73], 1)), Reload(0));
    assert Next(Next(Next(START, Post(7, [72])), Rewrite(0, 7, [73], 1)), Reload(0)) == ONE_RELOADED;
  }

  /** Two racing editors are reached: each wrote and reloaded before the other. */
  lemma RacingIsReached()
    ensures exists steps :: Racing(Run(START, steps), 0, 1, 7)
  {
    FirstReloads();
    var x := Next(ONE_RELOADED, Rewrite(1, 7, [74], 2));
    ReachedNext(ONE_RELOADED, Rewrite(1, 7, [74], 2));
    ReachedNext(x, Reload(1));
    SecondReloads();
  }

  lemma SecondReloads()
    ensures Racing(Next(Next(ONE_RELOADED, Rewrite(1, 7, [74], 2)), Reload(1)), 0, 1, 7)
  {
    var x := Next(Next(ONE_RELOADED, Rewrite(1, 7, [74], 2)), Reload(1));
    assert x.rows[7] == Edit(7, [74], Some(2)) && x.editors[0].stage.entry == Edit(7, [73], Some(1));
  }
}

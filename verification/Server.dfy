/** One chat on the server: its rows, its counter and its Redis keys, and what every write keeps. */
module Servers {
  import opened Lists
  import opened Messages
  import opened ZSets

  /** Member of the edit log: the JSON of these three values. */
  datatype Edit = Edit(id: Id, text: Text, editedAt: Option<int>)

  /** chat:<id>:last_seq, :delete_seq, :delete_log, :edit_seq and :edit_log. */
  datatype Keys = Keys(
    lastSeq: Option<int>, deleteSeq: int, deleteLog: ZSet<Id>, editSeq: int, editLog: ZSet<Edit>)

  const NO_KEYS := Keys(None, 0, [], 0, [])

  datatype Server = Server(rows: seq<Message>, counter: nat, keys: Keys)

  const EMPTY_CHAT := Server([], 0, NO_KEYS)

  datatype Write =
    | Send(id: Id, chat: ChatId, user: UserId, text: Text, now: int)
    | Delete(target: Id)
    | Change(target: Id, newText: Text, at: int)

  /** Row `i` after UPDATE ... SET text, edited_at WHERE id AND deleted_at IS NULL. */
  function Retext(m: Message, text: Text, now: int): Message {
    if m.deleted then m else m.(text := text, editedAt := Some(now))
  }

  function LogDelete(k: Keys, id: Id): Keys {
    k.(deleteSeq := k.deleteSeq + 1, deleteLog := ZAdd(k.deleteLog, k.deleteSeq + 1, id))
  }

  function LogEdit(k: Keys, e: Edit): Keys {
    k.(editSeq := k.editSeq + 1, editLog := ZAdd(k.editLog, k.editSeq + 1, e))
  }

  function EntryOf(m: Message): Edit { Edit(m.id, m.text, m.editedAt) }

  /** One completed write. A taken id or an unknown target leaves the chat as it was. */
  function Apply(s: Server, w: Write): Server {
    match w
    case Send(id, chat, user, text, now) =>
      if id in Ids(s.rows) then s else
        var m := Message(id, chat, user, s.counter + 1, text, now, None, false);
        Server(s.rows + [m], s.counter + 1, s.keys.(lastSeq := Some(s.counter + 1)))
    case Delete(target) =>
      var i := IndexOf(s.rows, target);
      if i < 0 then s else
        s.(rows := s.rows[i := s.rows[i].(deleted := true)], keys := LogDelete(s.keys, target))
    case Change(target, newText, at) =>
      var i := IndexOf(s.rows, target);
      if i < 0 then s else
        var updated := Retext(s.rows[i], newText, at);
        s.(rows := s.rows[i := updated], keys := LogEdit(s.keys, EntryOf(updated)))
  }

  function ApplyAll(s: Server, ws: seq<Write>): Server
    decreases |ws|
  {
    if ws == [] then s else ApplyAll(Apply(s, ws[0]), ws[1..])
  }

  predicate DeletePending(log: ZSet<Id>, cursor: int, id: Id) {
    exists e :: e in log && e.member == id && e.score > cursor
  }

  predicate EditPending(log: ZSet<Edit>, cursor: int, id: Id) {
    exists e :: e in log && e.member.id == id && e.score > cursor
  }

  ghost predicate LoggedDelete(log: ZSet<Id>, id: Id) {
    exists e :: e in log && e.member == id
  }

  /** No entry of the same message has a higher score. */
  ghost predicate Newest(log: ZSet<Edit>, e: Scored<Edit>) {
    e in log && forall f :: f in log && f.member.id == e.member.id ==> f.score <= e.score
  }

  ghost predicate GoodDeletes(s: Server) {
    && Valid(s.keys.deleteLog) && StrictScores(s.keys.deleteLog)
    && (forall e :: e in s.keys.deleteLog ==> 0 < e.score <= s.keys.deleteSeq)
    && (forall i {:trigger LoggedDelete(s.keys.deleteLog, s.rows[i].id)} ::
          0 <= i < |s.rows| && LoggedDelete(s.keys.deleteLog, s.rows[i].id) ==> s.rows[i].deleted)
    && (forall e :: e in s.keys.deleteLog ==> e.member in Ids(s.rows))
  }

  /** The newest logged edit of a message carries the text and the edit time of its row. */
  ghost predicate EditsAgree(s: Server) {
    forall e, i {:trigger Newest(s.keys.editLog, e), s.rows[i].id} ::
      Newest(s.keys.editLog, e) && 0 <= i < |s.rows| && s.rows[i].id == e.member.id
      ==> EntryOf(s.rows[i]) == e.member
  }

  ghost predicate EditsKnown(s: Server) {
    forall e :: e in s.keys.editLog ==> e.member.id in Ids(s.rows)
  }

  ghost predicate GoodEdits(s: Server) {
    && Valid(s.keys.editLog) && StrictScores(s.keys.editLog)
    && (forall e :: e in s.keys.editLog ==> 0 < e.score <= s.keys.editSeq)
    && EditsKnown(s)
    && EditsAgree(s)
  }

  ghost predicate Good(s: Server) {
    && Numbered(s.rows)
    && s.counter == |s.rows|
    && s.keys.lastSeq == (if s.rows == [] then None else Some(|s.rows|))
    && s.keys.deleteSeq >= 0 && s.keys.editSeq >= 0
    && GoodDeletes(s)
    && GoodEdits(s)
  }

  /** `b` is `a` after some writes: rows stay, and what changed about them is logged above `a`'s counters. */
  ghost predicate Evolves(a: Server, b: Server) {
    && |a.rows| <= |b.rows|
    && a.keys.deleteSeq <= b.keys.deleteSeq
    && a.keys.editSeq <= b.keys.editSeq
    && (forall i :: 0 <= i < |a.rows| ==> RowEvolves(a, b, i))
    && (forall e :: e in b.keys.deleteLog && e.score <= a.keys.deleteSeq ==> e in a.keys.deleteLog)
    && (forall e :: e in b.keys.editLog && e.score <= a.keys.editSeq ==> e in a.keys.editLog)
    && (forall cursor, id :: DeletePending(a.keys.deleteLog, cursor, id) ==>
          DeletePending(b.keys.deleteLog, cursor, id))
    && (forall cursor, id :: EditPending(a.keys.editLog, cursor, id) ==>
          EditPending(b.keys.editLog, cursor, id))
  }

  ghost predicate RowEvolves(a: Server, b: Server, i: nat)
    requires i < |a.rows| && i < |b.rows|
  {
    var before, after := a.rows[i], b.rows[i];
    && SameOrigin(before, after)
    && (before.deleted ==> after.deleted)
    && (!before.deleted && after.deleted ==> DeletePending(b.keys.deleteLog, a.keys.deleteSeq, after.id))
    && (!after.deleted && before != after ==> EditPending(b.keys.editLog, a.keys.editSeq, after.id))
  }

  lemma EvolvesReflexive(s: Server)
    ensures Evolves(s, s)
  {
    assert forall i :: 0 <= i < |s.rows| ==> RowEvolves(s, s, i);
  }

  lemma EvolvesTransitive(a: Server, b: Server, c: Server)
    requires Evolves(a, b) && Evolves(b, c)
    ensures Evolves(a, c)
  {
    forall i | 0 <= i < |a.rows| ensures RowEvolves(a, c, i) {
      assert RowEvolves(a, b, i) && RowEvolves(b, c, i);
    }
  }

  lemma SendKeepsGood(s: Server, w: Write)
    requires Good(s) && w.Send?
    ensures Good(Apply(s, w)) && Evolves(s, Apply(s, w))
  {
    if w.id in Ids(s.rows) {
      EvolvesReflexive(s);
    } else {
      AppendKeepsGood(s, Apply(s, w));
    }
  }

  /** `t` is `s` with one more row, of a new id. */
  ghost predicate Appended(s: Server, t: Server) {
    && |t.rows| == |s.rows| + 1 && t.counter == |t.rows| && t.keys == s.keys.(lastSeq := Some(|t.rows|))
    && (forall i :: 0 <= i < |s.rows| ==> t.rows[i] == s.rows[i])
    && t.rows[|s.rows|].num == |t.rows|
    && t.rows[|s.rows|].id !in Ids(s.rows)
  }

  lemma AppendKeepsGood(s: Server, t: Server)
    requires Good(s) && Appended(s, t)
    ensures Good(t) && Evolves(s, t)
  {
    assert forall i :: 0 <= i < |s.rows| ==> s.rows[i] in s.rows;
    AppendIds(s, t);
    forall i | 0 <= i < |t.rows| && LoggedDelete(t.keys.deleteLog, t.rows[i].id) ensures t.rows[i].deleted {
      assert i < |s.rows| ==> LoggedDelete(s.keys.deleteLog, s.rows[i].id);
    }
    assert forall i :: 0 <= i < |s.rows| ==> RowEvolves(s, t, i);
  }

  lemma AppendIds(s: Server, t: Server)
    requires Appended(s, t)
    ensures Ids(t.rows) == Ids(s.rows) + {t.rows[|s.rows|].id}
  {
    assert t.rows == s.rows + [t.rows[|s.rows|]];
  }

  lemma DeleteKeepsGood(s: Server, w: Write)
    requires Good(s) && w.Delete?
    ensures Good(Apply(s, w)) && Evolves(s, Apply(s, w))
  {
    var i := IndexOf(s.rows, w.target);
    if i < 0 {
      EvolvesReflexive(s);
    } else {
      ZAddValid(s.keys.deleteLog, s.keys.deleteSeq + 1, w.target);
      SameIds(s.rows, i, s.rows[i].(deleted := true));
      assert Scored(s.keys.deleteSeq + 1, w.target) in Apply(s, w).keys.deleteLog;
      DeleteEvolves(s, w, i);
      DeleteMarks(s, w, i);
    }
  }

  lemma DeleteMarks(s: Server, w: Write, i: nat)
    requires GoodDeletes(s) && Numbered(s.rows) && w.Delete? && i == IndexOf(s.rows, w.target)
    ensures var t := Apply(s, w); forall j {:trigger LoggedDelete(t.keys.deleteLog, t.rows[j].id)} ::
              0 <= j < |t.rows| && LoggedDelete(t.keys.deleteLog, t.rows[j].id) ==> t.rows[j].deleted
  {
    var t := Apply(s, w);
    forall j | 0 <= j < |t.rows| && LoggedDelete(t.keys.deleteLog, t.rows[j].id) ensures t.rows[j].deleted {
      var e :| e in t.keys.deleteLog && e.member == t.rows[j].id;
      if e.score != s.keys.deleteSeq + 1 {
        assert LoggedDelete(s.keys.deleteLog, s.rows[j].id);
      }
    }
  }

  lemma DeleteEvolves(s: Server, w: Write, i: nat)
    requires Good(s) && w.Delete? && i == IndexOf(s.rows, w.target)
    requires Scored(s.keys.deleteSeq + 1, w.target) in Apply(s, w).keys.deleteLog
    ensures Evolves(s, Apply(s, w))
  {
    var t, top := Apply(s, w), Scored(s.keys.deleteSeq + 1, w.target);
    assert forall j :: 0 <= j < |s.rows| ==> RowEvolves(s, t, j);
    forall cursor, id | DeletePending(s.keys.deleteLog, cursor, id)
      ensures DeletePending(t.keys.deleteLog, cursor, id)
    {
      var e :| e in s.keys.deleteLog && e.member == id && e.score > cursor;
      assert (if id == w.target then top else e) in t.keys.deleteLog;
    }
  }

  lemma ChangeKeepsGood(s: Server, w: Write)
    requires Good(s) && w.Change?
    ensures Good(Apply(s, w)) && Evolves(s, Apply(s, w))
  {
    var t, i := Apply(s, w), IndexOf(s.rows, w.target);
    if i < 0 {
      EvolvesReflexive(s);
    } else {
      var entry := EntryOf(t.rows[i]);
      var top := Scored(s.keys.editSeq + 1, entry);
      ZAddValid(s.keys.editLog, s.keys.editSeq + 1, entry);
      SameIds(s.rows, i, t.rows[i]);
      assert top in t.keys.editLog;
      ChangeEvolves(s, w, i, top);
      ChangeAgrees(s, w, i, top);
    }
  }

  lemma ChangeEvolves(s: Server, w: Write, i: nat, top: Scored<Edit>)
    requires Good(s) && w.Change? && i == IndexOf(s.rows, w.target)
    requires top == Scored(s.keys.editSeq + 1, EntryOf(Apply(s, w).rows[i])) && top in Apply(s, w).keys.editLog
    ensures Evolves(s, Apply(s, w))
  {
    var t := Apply(s, w);
    assert forall j :: 0 <= j < |s.rows| ==> RowEvolves(s, t, j);
    forall cursor, id | EditPending(s.keys.editLog, cursor, id) ensures EditPending(t.keys.editLog, cursor, id) {
      var e :| e in s.keys.editLog && e.member.id == id && e.score > cursor;
      assert (if id == w.target then top else e) in t.keys.editLog;
    }
  }

  lemma ChangeAgrees(s: Server, w: Write, i: nat, top: Scored<Edit>)
    requires Good(s) && w.Change? && i == IndexOf(s.rows, w.target)
    requires top == Scored(s.keys.editSeq + 1, EntryOf(Apply(s, w).rows[i]))
    ensures EditsAgree(Apply(s, w))
  {
    var t := Apply(s, w);
    forall e, j | Newest(t.keys.editLog, e) && 0 <= j < |t.rows| && t.rows[j].id == e.member.id
      ensures EntryOf(t.rows[j]) == e.member
    {
      assert top in t.keys.editLog;
      if j == i {
        assert e == top;
      } else {
        assert e in s.keys.editLog;
        assert Newest(s.keys.editLog, e);
      }
    }
  }

  lemma SameIds(rows: seq<Message>, i: nat, m: Message)
    requires i < |rows| && rows[i].id == m.id
    ensures Ids(rows[i := m]) == Ids(rows)
  {
    var after := rows[i := m];
    forall id | id in Ids(rows) ensures id in Ids(after) {
      var k :| 0 <= k < |rows| && rows[k].id == id;
      assert after[k] in after;
    }
    forall id | id in Ids(after) ensures id in Ids(rows) {
      var k :| 0 <= k < |after| && after[k].id == id;
      assert rows[k] in rows;
    }
  }

  /** Every write keeps the chat well formed and evolves it. */
  lemma WriteKeepsGood(s: Server, w: Write)
    requires Good(s)
    ensures Good(Apply(s, w)) && Evolves(s, Apply(s, w))
  {
    match w
    case Send(_, _, _, _, _) => SendKeepsGood(s, w);
    case Delete(_) => DeleteKeepsGood(s, w);
    case Change(_, _, _) => ChangeKeepsGood(s, w);
  }

  /** Every run of writes from the empty chat: numbered rows, agreeing logs, exact cached counter. */
  lemma {:induction false} WritesKeepGood(s: Server, ws: seq<Write>)
    requires Good(s)
    ensures Good(ApplyAll(s, ws)) && Evolves(s, ApplyAll(s, ws))
    decreases |ws|
  {
    if ws == [] {
      EvolvesReflexive(s);
    } else {
      WriteKeepsGood(s, ws[0]);
      WritesKeepGood(Apply(s, ws[0]), ws[1..]);
      EvolvesTransitive(s, Apply(s, ws[0]), ApplyAll(s, ws));
    }
  }

  // --- what each write is for ------------------------------------------------------------------------

  /** Nothing but row `i` differs. */
  ghost predicate OnlyRow(s: Server, t: Server, i: nat) {
    && |t.rows| == |s.rows| && i < |s.rows| && t.counter == s.counter
    && forall j :: 0 <= j < |s.rows| && j != i ==> t.rows[j] == s.rows[j]
  }

  /** The entries of `id` end with `e`; those of other messages are what they were. */
  ghost predicate LoggedLast(s: Server, t: Server, id: Id, e: Edit) {
    && (forall f :: Newest(t.keys.editLog, f) && f.member.id == id ==> f.member == e)
    && (exists f :: Newest(t.keys.editLog, f) && f.member == e)
    && (forall f: Scored<Edit> :: f.member.id != id ==> (f in t.keys.editLog <==> f in s.keys.editLog))
  }

  /** An edit of a live message puts the new text and time into its row and, newest, into the log, and no more. */
  lemma ChangeStores(s: Server, i: nat, text: Text, at: int)
    requires Good(s) && i < |s.rows| && !s.rows[i].deleted
    ensures var id := s.rows[i].id; var t := Apply(s, Change(id, text, at));
      && OnlyRow(s, t, i) && SameOrigin(t.rows[i], s.rows[i])
      && t.rows[i].text == text && t.rows[i].editedAt == Some(at) && !t.rows[i].deleted
      && LoggedLast(s, t, id, Edit(id, text, Some(at)))
      && t.keys.deleteLog == s.keys.deleteLog && t.keys.lastSeq == s.keys.lastSeq
  {
    var id := s.rows[i].id;
    var t := Apply(s, Change(id, text, at));
    assert IndexOf(s.rows, id) == i;
    ChangeKeepsGood(s, Change(id, text, at));
    var top := Scored(s.keys.editSeq + 1, Edit(id, text, Some(at)));
    assert top in t.keys.editLog && Newest(t.keys.editLog, top);
    forall f | Newest(t.keys.editLog, f) && f.member.id == id ensures f.member == Edit(id, text, Some(at)) {
      NewestIsRow(t, f, i);
    }
  }

  lemma NewestIsRow(t: Server, f: Scored<Edit>, i: nat)
    requires EditsAgree(t) && Newest(t.keys.editLog, f) && i < |t.rows| && t.rows[i].id == f.member.id
    ensures f.member == Edit(t.rows[i].id, t.rows[i].text, t.rows[i].editedAt)
  {
  }

  /** An edit of a deleted message changes no row and logs what the row says. */
  lemma ChangeOfDeleted(s: Server, i: nat, text: Text, at: int)
    requires Good(s) && i < |s.rows| && s.rows[i].deleted
    ensures var t := Apply(s, Change(s.rows[i].id, text, at));
      && t.rows == s.rows && t.counter == s.counter && t.keys.deleteLog == s.keys.deleteLog
      && LoggedLast(s, t, s.rows[i].id, Edit(s.rows[i].id, s.rows[i].text, s.rows[i].editedAt))
  {
    var id := s.rows[i].id;
    var t := Apply(s, Change(id, text, at));
    assert IndexOf(s.rows, id) == i;
    ChangeKeepsGood(s, Change(id, text, at));
    var top := Scored(s.keys.editSeq + 1, Edit(id, s.rows[i].text, s.rows[i].editedAt));
    assert top in t.keys.editLog && Newest(t.keys.editLog, top);
    forall f | Newest(t.keys.editLog, f) && f.member.id == id
      ensures f.member == Edit(id, s.rows[i].text, s.rows[i].editedAt)
    {
      NewestIsRow(t, f, i);
    }
  }

  /** A deletion marks its message and logs it above everything; nothing else about any row changes. */
  lemma DeleteStores(s: Server, i: nat)
    requires Good(s) && i < |s.rows|
    ensures var id := s.rows[i].id; var t := Apply(s, Delete(id));
      && OnlyRow(s, t, i) && SameOrigin(t.rows[i], s.rows[i])
      && t.rows[i].deleted && t.rows[i].text == s.rows[i].text && t.rows[i].editedAt == s.rows[i].editedAt
      && DeletePending(t.keys.deleteLog, s.keys.deleteSeq, id)
      && (forall e: Scored<Id> :: e.member != id ==> (e in t.keys.deleteLog <==> e in s.keys.deleteLog))
      && t.keys.editLog == s.keys.editLog && t.keys.lastSeq == s.keys.lastSeq
  {
    var id := s.rows[i].id;
    assert IndexOf(s.rows, id) == i;
    assert Scored(s.keys.deleteSeq + 1, id) in Apply(s, Delete(id)).keys.deleteLog;
  }

  /** A send of an unused id adds one live row with the next number and moves the cached number to it. */
  lemma SendStores(s: Server, id: Id, chat: ChatId, user: UserId, text: Text, now: int)
    requires Good(s) && forall m :: m in s.rows ==> m.id != id
    ensures var t := Apply(s, Send(id, chat, user, text, now));
      && t.rows == s.rows + [Message(id, chat, user, |s.rows| + 1, text, now, None, false)]
      && t.counter == |s.rows| + 1 && t.keys == s.keys.(lastSeq := Some(|s.rows| + 1))
  {
  }
}

/** What one poll answer does to the widget's list, read back in terms of the server's rows. */
module Merging {
  import opened Lists
  import opened Messages
  import opened ZSets
  import opened Servers
  import opened Polling

  /** The message is its row in `rows`, and that row is live. */
  ghost predicate IsRow(rows: seq<Message>, m: Message) {
    1 <= m.num <= |rows| && rows[m.num - 1] == m && !m.deleted
  }

  /** Live rows, ascending. */
  ghost predicate RowsOf(rows: seq<Message>, page: seq<Message>) {
    Ascending(page) && forall m :: m in page ==> IsRow(rows, m)
  }

  function AsSet<T(==)>(s: seq<T>): set<T> { set x | x in s }

  lemma DeletedMeans(s: Server, c: Cursors, id: Id)
    ensures id in SlowRead(s, c).deleted <==> DeletePending(s.keys.deleteLog, c.afterDelete, id)
  {
    var entries := ZRangeAbove(s.keys.deleteLog, c.afterDelete);
    var ids := MembersOf(entries);
    if DeletePending(s.keys.deleteLog, c.afterDelete, id) {
      var e :| e in s.keys.deleteLog && e.member == id && e.score > c.afterDelete;
      var k :| 0 <= k < |entries| && entries[k] == e;
      assert ids[k] == id;
    }
    if id in ids {
      var k :| 0 <= k < |ids| && ids[k] == id;
      assert entries[k] in entries;
    }
  }

  lemma EditComes(s: Server, c: Cursors, id: Id)
    ensures EditFor(SlowRead(s, c).edits, id).Some? <==> EditPending(s.keys.editLog, c.afterEdit, id)
  {
    var entries := ZRangeAbove(s.keys.editLog, c.afterEdit);
    var edits := MembersOf(entries);
    assert edits == SlowRead(s, c).edits;
    if EditPending(s.keys.editLog, c.afterEdit, id) {
      var e :| e in s.keys.editLog && e.member.id == id && e.score > c.afterEdit;
      var k :| 0 <= k < |entries| && entries[k] == e;
      assert edits[k] == e.member;
    }
    if EditFor(edits, id).Some? {
      var k :| 0 <= k < |edits| && edits[k].id == id;
      assert entries[k] in entries;
    }
  }

  /** The entry the last-wins map keeps is the newest one, so it carries the row's text. */
  lemma EditMeans(s: Server, c: Cursors, i: nat)
    requires GoodEdits(s) && i < |s.rows|
    requires EditFor(SlowRead(s, c).edits, s.rows[i].id).Some?
    ensures EditFor(SlowRead(s, c).edits, s.rows[i].id) == Some(EntryOf(s.rows[i]))
  {
    var id, entries := s.rows[i].id, ZRangeAbove(s.keys.editLog, c.afterEdit);
    var k := LastEntry(MembersOf(entries), id);
    LastIsNewest(s, c, id, k);
    NewestAgrees(s, entries[k], i);
  }

  lemma NewestAgrees(s: Server, e: Scored<Edit>, i: nat)
    requires EditsAgree(s) && Newest(s.keys.editLog, e)
    requires i < |s.rows| && s.rows[i].id == e.member.id
    ensures EntryOf(s.rows[i]) == e.member
  {
  }

  ghost function LastEntry(edits: seq<Edit>, id: Id): (k: nat)
    requires EditFor(edits, id).Some?
    ensures k < |edits| && edits[k] == EditFor(edits, id).value && edits[k].id == id
    ensures forall j :: k < j < |edits| ==> edits[j].id != id
  {
    var k :| 0 <= k < |edits| && edits[k] == EditFor(edits, id).value && edits[k].id == id
             && forall j :: k < j < |edits| ==> edits[j].id != id;
    k
  }

  lemma LastIsNewest(s: Server, c: Cursors, id: Id, k: nat)
    requires GoodEdits(s)
    requires var entries := ZRangeAbove(s.keys.editLog, c.afterEdit);
      k < |entries| && entries[k].member.id == id && forall j :: k < j < |entries| ==> entries[j].member.id != id
    ensures Newest(s.keys.editLog, ZRangeAbove(s.keys.editLog, c.afterEdit)[k])
  {
    var entries := ZRangeAbove(s.keys.editLog, c.afterEdit);
    FilterValid(s.keys.editLog, (e: Scored<Edit>) => e.score > c.afterEdit);
    assert entries[k] in entries;
    forall f | f in s.keys.editLog && f.member.id == id ensures f.score <= entries[k].score {
      if f.score > c.afterEdit {
        var j :| 0 <= j < |entries| && entries[j] == f;
        if j < k {
          PairwiseAt(entries, ByStrictScore(), j, k);
        }
      }
    }
  }

  lemma LeftIds(list: seq<Message>, deleted: seq<Id>, id: Id)
    requires id in Ids(list) && id !in deleted
    ensures id in Ids(Filter(list, Outside(deleted)))
  {
    var m :| m in list && m.id == id;
    assert m in Filter(list, Outside(deleted));
  }

  lemma MergeIds(list: seq<Message>, incoming: seq<Message>, deleted: seq<Id>, edits: seq<Edit>)
    ensures Ids(MergePoll(list, incoming, deleted, edits)) == Ids(list) - AsSet(deleted) + Ids(incoming)
  {
    var left := Filter(list, Outside(deleted));
    var kept := ApplyEdits(left, edits);
    EditedIds(left, edits);
    var added := Filter(incoming, Unseen(Ids(kept)));
    forall id | id in Ids(list) - AsSet(deleted) ensures id in Ids(left) {
      LeftIds(list, deleted, id);
    }
    forall id | id in Ids(incoming) ensures id in Ids(kept + added) {
      var m :| m in incoming && m.id == id;
      if id !in Ids(kept) {
        assert m in added;
      }
    }
    assert Ids(kept + added) == Ids(kept) + Ids(added);
  }

  lemma EditedIds(list: seq<Message>, edits: seq<Edit>)
    ensures Ids(ApplyEdits(list, edits)) == Ids(list)
  {
    var after := ApplyEdits(list, edits);
    forall id | id in Ids(list) ensures id in Ids(after) {
      var k :| 0 <= k < |list| && list[k].id == id;
      assert after[k] in after;
    }
    forall id | id in Ids(after) ensures id in Ids(list) {
      var k :| 0 <= k < |after| && after[k].id == id;
      assert list[k] in list;
    }
  }

  /** A listed message after the merge is an old one, kept and perhaps edited, or a new one. */
  lemma MergeMember(list: seq<Message>, incoming: seq<Message>, deleted: seq<Id>, edits: seq<Edit>, m: Message)
    requires m in MergePoll(list, incoming, deleted, edits)
    ensures m in incoming || exists prior :: prior in list && prior.id !in deleted && m == Edited(prior, edits)
  {
    var left := Filter(list, Outside(deleted));
    var kept := ApplyEdits(left, edits);
    if m in kept {
      var k :| 0 <= k < |kept| && kept[k] == m;
      assert left[k] in left;
      assert m == Edited(left[k], edits);
    }
  }

  ghost predicate DistinctIds(list: seq<Message>) {
    forall i, j {:trigger list[i].id, list[j].id} :: 0 <= i < j < |list| ==> list[i].id != list[j].id
  }

  function DifferentIds(): (Message, Message) -> bool { (a: Message, b: Message) => a.id != b.id }

  lemma FilterDistinct(list: seq<Message>, p: Message -> bool)
    requires DistinctIds(list)
    ensures DistinctIds(Filter(list, p))
  {
    var r := Filter(list, p);
    assert Pairwise(list, DifferentIds());
    FilterPairwise(list, p, DifferentIds());
    forall i, j | 0 <= i < j < |r| ensures r[i].id != r[j].id {
      PairwiseAt(r, DifferentIds(), i, j);
    }
  }

  lemma MergeDistinct(list: seq<Message>, incoming: seq<Message>, deleted: seq<Id>, edits: seq<Edit>)
    requires DistinctIds(list) && DistinctIds(incoming)
    ensures DistinctIds(MergePoll(list, incoming, deleted, edits))
  {
    var left := Filter(list, Outside(deleted));
    var kept := ApplyEdits(left, edits);
    FilterDistinct(list, Outside(deleted));
    FilterDistinct(incoming, Unseen(Ids(kept)));
    ConcatDistinct(kept, Filter(incoming, Unseen(Ids(kept))));
  }

  lemma ConcatDistinct(a: seq<Message>, b: seq<Message>)
    requires DistinctIds(a) && DistinctIds(b) && forall m :: m in b ==> m.id !in Ids(a)
    ensures DistinctIds(a + b)
  {
    forall i, j | 0 <= i < |a| && 0 <= j < |b| ensures a[i].id != b[j].id {
      assert a[i] in a && b[j] in b;
    }
  }

  /** Editing keeps the numbers, so the appended list is ascending exactly when it lies above. */
  lemma JoinAscending(left: seq<Message>, before: seq<Message>, added: seq<Message>)
    requires Ascending(left) && Ascending(added)
    requires |before| == |left| && forall i :: 0 <= i < |left| ==> before[i].num == left[i].num
    ensures Ascending(before + added) <==> forall kept, m :: kept in left && m in added ==> kept.num < m.num
  {
    if Ascending(before + added) {
      forall kept, m | kept in left && m in added ensures kept.num < m.num {
        var i :| 0 <= i < |left| && left[i] == kept;
        var j :| 0 <= j < |added| && added[j] == m;
        assert (before + added)[i].num == kept.num && (before + added)[|before| + j] == m;
      }
    }
    if forall kept, m :: kept in left && m in added ==> kept.num < m.num {
      forall i, j | 0 <= i < |before| && 0 <= j < |added| ensures before[i].num < added[j].num {
        assert left[i] in left && added[j] in added;
      }
    }
  }

  /** Appended messages lie above `high` when no incoming one up to `high` is missing from the list. */
  lemma AddedAbove(
    list: seq<Message>, incoming: seq<Message>, deleted: seq<Id>, edits: seq<Edit>, high: int, m: Message)
    requires m in Filter(incoming, Unseen(Ids(ApplyEdits(Filter(list, Outside(deleted)), edits))))
    requires m.num <= high ==> m.id in Ids(list) && m.id !in deleted
    ensures m.num > high
  {
    EditedIds(Filter(list, Outside(deleted)), edits);
    if m.id in Ids(list) && m.id !in deleted { LeftIds(list, deleted, m.id); }
  }

  /** New messages all above the listed ones keep the list ascending. */
  lemma MergeAscending(list: seq<Message>, incoming: seq<Message>, deleted: seq<Id>, edits: seq<Edit>, high: int)
    requires Ascending(list) && Ascending(incoming)
    requires forall m :: m in list ==> m.num <= high
    requires forall m :: m in incoming && m.num <= high ==> m.id in Ids(list) && m.id !in deleted
    ensures Ascending(MergePoll(list, incoming, deleted, edits))
  {
    var left := Filter(list, Outside(deleted));
    var kept := ApplyEdits(left, edits);
    var added := Filter(incoming, Unseen(Ids(kept)));
    FilterAscending(list, Outside(deleted));
    FilterAscending(incoming, Unseen(Ids(kept)));
    forall m | m in added ensures m.num > high {
      AddedAbove(list, incoming, deleted, edits, high, m);
    }
    JoinAscending(left, kept, added);
  }

  /** Under the same premises the merge lists no number up to `high` that was not listed. */
  lemma MergeNums(
    list: seq<Message>, incoming: seq<Message>, deleted: seq<Id>, edits: seq<Edit>, high: int, m: Message)
    requires m in MergePoll(list, incoming, deleted, edits) && m.num <= high
    requires forall x :: x in incoming && x.num <= high ==> x.id in Ids(list) && x.id !in deleted
    ensures exists prior :: prior in list && prior.num == m.num
  {
    var left := Filter(list, Outside(deleted));
    var kept := ApplyEdits(left, edits);
    forall x | x in Filter(incoming, Unseen(Ids(kept))) ensures x.num > high {
      AddedAbove(list, incoming, deleted, edits, high, x);
    }
    assert m in kept;
    var k :| 0 <= k < |kept| && kept[k] == m;
    assert left[k] in list;
  }

  lemma OlderMembers(list: seq<Message>, page: seq<Message>)
    ensures Ids(MergeOlder(list, page)) == Ids(page) + Ids(list)
    ensures DistinctIds(list) && DistinctIds(page) ==> DistinctIds(MergeOlder(list, page))
  {
    var added := Filter(page, Unseen(Ids(list)));
    forall id | id in Ids(page) ensures id in Ids(added + list) {
      var m :| m in page && m.id == id;
      if id !in Ids(list) {
        assert m in added;
      }
    }
    if DistinctIds(list) && DistinctIds(page) {
      FilterDistinct(page, Unseen(Ids(list)));
      forall i, j | 0 <= i < |added| && 0 <= j < |list| ensures added[i].id != list[j].id {
        assert added[i] in added && list[j] in list;
      }
    }
  }

  lemma OlderAscending(list: seq<Message>, page: seq<Message>, before: int)
    requires Ascending(list) && Ascending(page)
    requires forall m :: m in list ==> before <= m.num
    requires forall m :: m in page ==> m.num < before
    ensures Ascending(MergeOlder(list, page))
  {
    var added := Filter(page, Unseen(Ids(list)));
    FilterAscending(page, Unseen(Ids(list)));
    forall i, j | 0 <= i < |added| && 0 <= j < |list| ensures added[i].num < list[j].num {
      assert added[i] in added && list[j] in list;
    }
  }

  lemma DeliverNothing(c: Client)
    requires 0 <= c.cursors.afterDelete && 0 <= c.cursors.afterEdit
    ensures Deliver(c, NO_CONTENT) == c.(retryDelay := FIRST_DELAY)
  {
    FilterAll(c.list, Outside([]));
    assert ApplyEdits(c.list, []) == c.list;
    assert Filter([], Unseen(Ids(c.list))) == [];
  }

  /**
   * A poll answer as its reader sees it, its messages read from `from` and its logs from `at`: exactly
   * the deletions logged above the delete cursor, for every edited message what its row holds, and
   * live rows above the message cursor with nothing skipped below the last one.
   */
  ghost predicate Answers(r: Response, from: Server, at: Server, c: Cursors) {
    && AnswersDeletes(r, at.keys, c.afterDelete)
    && AnswersEdits(r, at, c.afterEdit)
    && AnswersMessages(r.messages, from.rows, c.after)
  }

  ghost predicate AnswersDeletes(r: Response, k: Keys, after: int) {
    && (forall id {:trigger id in r.deleted} :: id in r.deleted <==> DeletePending(k.deleteLog, after, id))
    && 0 <= r.lastDelete <= k.deleteSeq
    && (forall e :: e in k.deleteLog ==> e.score <= Max(after, r.lastDelete))
  }

  ghost predicate AnswersEdits(r: Response, s: Server, after: int) {
    && (forall id {:trigger EditFor(r.edits, id)} ::
          EditFor(r.edits, id).Some? <==> EditPending(s.keys.editLog, after, id))
    && (forall i {:trigger EditFor(r.edits, s.rows[i].id)} ::
          0 <= i < |s.rows| && EditFor(r.edits, s.rows[i].id).Some? ==>
          EditFor(r.edits, s.rows[i].id).value == EntryOf(s.rows[i]))
    && 0 <= r.lastEdit <= s.keys.editSeq
    && (forall e :: e in s.keys.editLog ==> e.score <= Max(after, r.lastEdit))
  }

  ghost predicate AnswersMessages(ms: seq<Message>, rows: seq<Message>, after: int) {
    && |ms| <= POLL_LIMIT
    && RowsOf(rows, ms)
    && (forall m :: m in ms ==> after < m.num)
    && (forall i {:trigger rows[i]} :: 0 <= i < |rows| && after <= i && !rows[i].deleted ==>
          rows[i] in ms || (|ms| == POLL_LIMIT && forall m :: m in ms ==> m.num <= i))
  }

  lemma ReadIsRows(rows: seq<Message>, p: Message -> bool)
    requires Numbered(rows) && forall m :: p(m) ==> !m.deleted
    ensures RowsOf(rows, Filter(rows, p))
  {
    NumberedAscending(rows);
    FilterAscending(rows, p);
  }

  lemma CutIsRows(rows: seq<Message>, s: seq<Message>, n: nat)
    requires RowsOf(rows, s)
    ensures RowsOf(rows, Suffix(s, n)) && RowsOf(rows, Take(s, n))
  {
  }

  lemma RowsDistinct(rows: seq<Message>, page: seq<Message>)
    requires Numbered(rows) && RowsOf(rows, page)
    ensures DistinctIds(page)
  {
    forall i, j | 0 <= i < j < |page| ensures page[i].id != page[j].id {
      assert IsRow(rows, page[i]) && IsRow(rows, page[j]);
    }
  }

  lemma MessagesAnswer(s: Server, after: int)
    requires Numbered(s.rows)
    ensures AnswersMessages(ReadMessages(s, after), s.rows, after)
  {
    var all, ms := LiveAfter(s.rows, after), ReadMessages(s, after);
    ReadIsRows(s.rows, NewerThan(after));
    CutIsRows(s.rows, all, POLL_LIMIT);
    forall m | m in ms ensures after < m.num {
      assert m in all;
    }
    forall i | 0 <= i < |s.rows| && after <= i && !s.rows[i].deleted
      ensures s.rows[i] in ms || (|ms| == POLL_LIMIT && forall m :: m in ms ==> m.num <= i)
    {
      assert s.rows[i] in all;
      TakeComplete(all, POLL_LIMIT, s.rows[i]);
    }
  }

  lemma DeletesAnswer(s: Server, c: Cursors)
    requires Good(s)
    ensures AnswersDeletes(SlowRead(s, c), s.keys, c.afterDelete)
  {
    forall id ensures id in SlowRead(s, c).deleted <==> DeletePending(s.keys.deleteLog, c.afterDelete, id) {
      DeletedMeans(s, c, id);
    }
    DeleteScores(s, c);
  }

  lemma DeleteScores(s: Server, c: Cursors)
    requires s.keys.deleteSeq >= 0 && forall e :: e in s.keys.deleteLog ==> 0 < e.score <= s.keys.deleteSeq
    ensures 0 <= SlowRead(s, c).lastDelete <= s.keys.deleteSeq
    ensures forall e :: e in s.keys.deleteLog ==> e.score <= Max(c.afterDelete, SlowRead(s, c).lastDelete)
  {
    var entries := ZRangeAbove(s.keys.deleteLog, c.afterDelete);
    assert forall e :: e in s.keys.deleteLog && e.score > c.afterDelete ==> e in entries;
  }

  lemma EditsAnswer(s: Server, c: Cursors)
    requires GoodEdits(s) && s.keys.editSeq >= 0
    ensures AnswersEdits(SlowRead(s, c), s, c.afterEdit)
  {
    var r := SlowRead(s, c);
    forall id ensures EditFor(r.edits, id).Some? <==> EditPending(s.keys.editLog, c.afterEdit, id) {
      EditComes(s, c, id);
    }
    forall i | 0 <= i < |s.rows| && EditFor(r.edits, s.rows[i].id).Some?
      ensures EditFor(r.edits, s.rows[i].id).value == EntryOf(s.rows[i])
    {
      EditMeans(s, c, i);
    }
    EditScores(s, c);
  }

  lemma EditScores(s: Server, c: Cursors)
    requires s.keys.editSeq >= 0 && forall e :: e in s.keys.editLog ==> 0 < e.score <= s.keys.editSeq
    ensures 0 <= SlowRead(s, c).lastEdit <= s.keys.editSeq
    ensures forall e :: e in s.keys.editLog ==> e.score <= Max(c.afterEdit, SlowRead(s, c).lastEdit)
  {
    var entries := ZRangeAbove(s.keys.editLog, c.afterEdit);
    assert forall e :: e in s.keys.editLog && e.score > c.afterEdit ==> e in entries;
  }

  /** Messages read first, logs later: an answer to the cursors they were asked with. */
  lemma ReadAnswers(from: Server, at: Server, c: Cursors)
    requires Good(from) && Good(at)
    ensures Answers(WithLogs(ReadMessages(from, c.after), at.keys, c), from, at, c)
  {
    DeletesAnswer(at, c);
    EditsAnswer(at, c);
    MessagesAnswer(from, c.after);
    assert WithLogs(ReadMessages(from, c.after), at.keys, c)
        == SlowRead(at, c).(messages := ReadMessages(from, c.after));
  }

  /** What `Deliver` did, member by member. */
  ghost predicate Delivered(c: Client, d: Client, r: Response, news: seq<Message>) {
    && (forall m :: m in news <==> m in r.messages && m.id !in c.seen)
    && d.seen == c.seen + Ids(news)
    && c.cursors.after <= d.cursors.after
    && (forall m :: m in news ==> m.num <= d.cursors.after)
    && (d.cursors.after == c.cursors.after || exists m :: m in news && m.num == d.cursors.after)
    && d.cursors.afterDelete == Max(c.cursors.afterDelete, r.lastDelete)
    && d.cursors.afterEdit == Max(c.cursors.afterEdit, r.lastEdit)
    && Ids(d.list) == Ids(c.list) - AsSet(r.deleted) + Ids(news)
    && (forall m :: m in d.list ==> m in news || exists prior :: Carried(c.list, r, prior, m))
    && (forall prior, m :: Carried(c.list, r, prior, m) ==> m in d.list)
  }

  /** `m` is the listed message `prior`, not deleted by `r`, with the edits of `r`. */
  ghost predicate Carried(list: seq<Message>, r: Response, prior: Message, m: Message) {
    prior in list && prior.id !in r.deleted && m == Edited(prior, r.edits)
  }

  function News(c: Client, r: Response): seq<Message> {
    Filter(r.messages, Unseen(c.seen))
  }

  /** What is listed after an answer: its news, and what was carried over. */
  lemma DeliverList(c: Client, r: Response)
    ensures forall m :: m in Deliver(c, r).list ==> m in News(c, r) || exists prior :: Carried(c.list, r, prior, m)
    ensures forall prior, m :: Carried(c.list, r, prior, m) ==> m in Deliver(c, r).list
  {
    var list, news := Deliver(c, r).list, News(c, r);
    forall m | m in list ensures m in news || exists prior :: Carried(c.list, r, prior, m) {
      MergeMember(c.list, news, r.deleted, r.edits, m);
      if m !in news {
        var prior :| prior in c.list && prior.id !in r.deleted && m == Edited(prior, r.edits);
        assert Carried(c.list, r, prior, m);
      }
    }
    forall prior, m | Carried(c.list, r, prior, m) ensures m in list {
      var left := Filter(c.list, Outside(r.deleted));
      var k :| 0 <= k < |left| && left[k] == prior;
      assert ApplyEdits(left, r.edits)[k] == m;
    }
  }

  lemma DeliverFacts(c: Client, r: Response)
    ensures Delivered(c, Deliver(c, r), r, News(c, r))
  {
    MergeIds(c.list, News(c, r), r.deleted, r.edits);
    DeliverList(c, r);
  }

  /** `r` brings `m`, which the client appends. */
  predicate Comes(c: Client, r: Response, m: Message) {
    m in r.messages && m.id !in c.seen && (m.id !in Ids(c.list) || m.id in r.deleted)
  }

  /** `m` is listed and `r` leaves it there. */
  predicate Stays(c: Client, r: Response, m: Message) { m in c.list && m.id !in r.deleted }

  lemma ComesMeans(c: Client, r: Response, m: Message)
    ensures m in Filter(News(c, r), Unseen(Ids(ApplyEdits(Filter(c.list, Outside(r.deleted)), r.edits))))
            <==> Comes(c, r, m)
  {
    var left := Filter(c.list, Outside(r.deleted));
    EditedIds(left, r.edits);
    if m.id in Ids(c.list) && m.id !in r.deleted { LeftIds(c.list, r.deleted, m.id); }
  }

  /** An answer leaves an ascending list ascending exactly when all it appends lies above all that stays. */
  lemma OrderAfterExactly(c: Client, r: Response)
    requires Ascending(c.list) && Ascending(r.messages)
    ensures Ascending(Deliver(c, r).list)
            <==> forall m, kept {:trigger Comes(c, r, m), Stays(c, r, kept)} ::
                   Comes(c, r, m) && Stays(c, r, kept) ==> kept.num < m.num
  {
    var left := Filter(c.list, Outside(r.deleted));
    var before := ApplyEdits(left, r.edits);
    var added := Filter(News(c, r), Unseen(Ids(before)));
    FilterAscending(c.list, Outside(r.deleted));
    FilterAscending(r.messages, Unseen(c.seen));
    FilterAscending(News(c, r), Unseen(Ids(before)));
    forall m ensures m in added <==> Comes(c, r, m) {
      ComesMeans(c, r, m);
    }
    JoinAscending(left, before, added);
    assert forall kept :: kept in left <==> Stays(c, r, kept);
  }

  /** With the cached number exact, looking at it first loses nothing. */
  lemma FastIsSlow(s: Server, after: int)
    requires Good(s)
    ensures FastMessages(s, after) == ReadMessages(s, after)
  {
    if !CacheAhead(s.keys, after) {
      NumberedAscending(s.rows);
      forall m ensures m !in LiveAfter(s.rows, after) {
      }
      HeadIsMember(LiveAfter(s.rows, after));
    }
  }
}

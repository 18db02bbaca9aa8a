/** What a poll reads on the server, and what the widget does with it. */
module Polling {
  import opened Lists
  import opened Messages
  import opened ZSets
  import opened Servers

  const POLL_LIMIT := 100
  const PAGE_LIMIT := 50
  const FIRST_DELAY := 1_000
  const MAX_DELAY := 30_000
  const RATE_LIMIT_DELAY := 60_000

  // --- server side -------------------------------------------------------------------------

  datatype Response = Response(
    messages: seq<Message>, deleted: seq<Id>, lastDelete: int, edits: seq<Edit>, lastEdit: int)

  /** 204 No Content, as the widget reads it. */
  const NO_CONTENT := Response([], [], 0, [], 0)

  datatype Cursors = Cursors(after: int, afterDelete: int, afterEdit: int)

  function MaxScore<T>(entries: seq<Scored<T>>): (r: int)
    ensures forall e :: e in entries ==> e.score <= r
    ensures r == 0 || exists e :: e in entries && e.score == r
  {
    if entries == [] then 0 else Max(MaxScore(entries[..|entries| - 1]), entries[|entries| - 1].score)
  }

  function MembersOf<T>(entries: seq<Scored<T>>): (r: seq<T>)
    ensures |r| == |entries|
    ensures forall i :: 0 <= i < |r| ==> r[i] == entries[i].member
  {
    seq(|entries|, i requires 0 <= i < |entries| => entries[i].member)
  }

  function ReadMessages(s: Server, after: int): seq<Message> {
    Take(LiveAfter(s.rows, after), POLL_LIMIT)
  }

  predicate CacheAhead(k: Keys, after: int) {
    k.lastSeq.Some? && k.lastSeq.value > after
  }

  /** The messages before waiting: only when the cached counter is ahead. */
  function FastMessages(s: Server, after: int): seq<Message> {
    if CacheAhead(s.keys, after) then ReadMessages(s, after) else []
  }

  /** The two logs, read after the messages. */
  function WithLogs(messages: seq<Message>, k: Keys, c: Cursors): Response {
    var deletes, edits := ZRangeAbove(k.deleteLog, c.afterDelete), ZRangeAbove(k.editLog, c.afterEdit);
    Response(messages, MembersOf(deletes), MaxScore(deletes), MembersOf(edits), MaxScore(edits))
  }

  /** Both reads from one state of the chat. */
  function SlowRead(s: Server, c: Cursors): Response { WithLogs(ReadMessages(s, c.after), s.keys, c) }

  function FastRead(s: Server, c: Cursors): Response { WithLogs(FastMessages(s, c.after), s.keys, c) }

  predicate IsEmpty(r: Response) {
    r.messages == [] && r.deleted == [] && r.edits == []
  }

  /** GET messages?limit=50&before=b. */
  function PageBefore(s: Server, before: int): seq<Message> {
    Suffix(LiveBefore(s.rows, before), PAGE_LIMIT)
  }

  function NewestPage(s: Server): seq<Message> {
    Suffix(Live(s.rows), PAGE_LIMIT)
  }

  // --- widget side -------------------------------------------------------------------------

  datatype Client = Client(
    cursors: Cursors, retryDelay: int, seen: set<Id>, list: seq<Message>, hasMore: bool)

  function MaxNum(ms: seq<Message>, base: int): (r: int)
    ensures r >= base
    ensures forall m :: m in ms ==> m.num <= r
    ensures r == base || exists m :: m in ms && m.num == r
  {
    if ms == [] then base else Max(MaxNum(ms[..|ms| - 1], base), ms[|ms| - 1].num)
  }

  function Unseen(seen: set<Id>): Message -> bool { (m: Message) => m.id !in seen }

  function Outside(ids: seq<Id>): Message -> bool { (m: Message) => m.id !in ids }

  /** The last entry for `id`: what a map built from the list keeps. */
  function EditFor(edits: seq<Edit>, id: Id): (r: Option<Edit>)
    ensures r.None? ==> forall e :: e in edits ==> e.id != id
    ensures r.Some? ==> exists k :: 0 <= k < |edits| && edits[k] == r.value && r.value.id == id
                                 && forall j :: k < j < |edits| ==> edits[j].id != id
  {
    if edits == [] then None
    else if edits[|edits| - 1].id == id then
      assert edits[|edits| - 1] == edits[|edits| - 1];
      Some(edits[|edits| - 1])
    else EditFor(edits[..|edits| - 1], id)
  }

  function Edited(m: Message, edits: seq<Edit>): Message {
    match EditFor(edits, m.id)
    case None => m
    case Some(e) => m.(text := e.text, editedAt := e.editedAt)
  }

  function ApplyEdits(list: seq<Message>, edits: seq<Edit>): (r: seq<Message>)
    ensures |r| == |list|
    ensures forall i :: 0 <= i < |r| ==> r[i] == Edited(list[i], edits)
  {
    seq(|list|, i requires 0 <= i < |list| => Edited(list[i], edits))
  }

  /** Deletes, then edits, then the new messages whose ids are not listed yet. */
  function MergePoll(list: seq<Message>, incoming: seq<Message>, deleted: seq<Id>, edits: seq<Edit>): seq<Message> {
    var kept := ApplyEdits(Filter(list, Outside(deleted)), edits);
    kept + Filter(incoming, Unseen(Ids(kept)))
  }

  function MergeOlder(list: seq<Message>, page: seq<Message>): seq<Message> {
    Filter(page, Unseen(Ids(list))) + list
  }

  /** One successful poll. */
  function Deliver(c: Client, r: Response): Client {
    var news := Filter(r.messages, Unseen(c.seen));
    Client(
      Cursors(
        MaxNum(news, c.cursors.after),
        Max(c.cursors.afterDelete, r.lastDelete),
        Max(c.cursors.afterEdit, r.lastEdit)),
      FIRST_DELAY,
      c.seen + Ids(news),
      MergePoll(c.list, news, r.deleted, r.edits),
      c.hasMore)
  }

  /** A network or server error: one step back, and the next wait doubles up to the cap. */
  function StepBack(c: Client): Client {
    c.(cursors := c.cursors.(after := Max(0, c.cursors.after - 1)), retryDelay := Min(c.retryDelay * 2, MAX_DELAY))
  }

  function RateLimited(c: Client): Client {
    c.(retryDelay := FIRST_DELAY)
  }

  /** The widget after its first page. */
  function Opened(page: seq<Message>): Client {
    Client(Cursors(MaxNum(page, 0), 0, 0), FIRST_DELAY, {}, page, |page| == PAGE_LIMIT)
  }

  function OlderArrived(c: Client, page: seq<Message>): Client {
    c.(list := MergeOlder(c.list, page), hasMore := |page| == PAGE_LIMIT)
  }
}

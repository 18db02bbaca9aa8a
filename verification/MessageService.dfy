/** The message service: checks, then table write, Redis keys and broker, in that order. */
module MessageServices {
  import opened Lists
  import opened Messages
  import opened Servers
  import opened ChatTables

  const MAX_TEXT := 4096

  datatype Role = Member | Moderator | Admin

  datatype ServiceError =
    | EmptyMessage | MessageTooLong | UserBanned | UserMuted | NotFound | InvalidReply
    | Forbidden | EditForbidden | StoreFailed(error: DbError)

  /** What the poll protocol sees of one chat. */
  function ServerOf(t: Tables, keys: map<ChatId, Keys>, chat: ChatId): Server {
    Server(ChatRows(t.messages, chat), if chat in t.counters then t.counters[chat] else 0, KeysOf(keys, chat))
  }

  function KeysOf(keys: map<ChatId, Keys>, chat: ChatId): Keys {
    if chat in keys then keys[chat] else NO_KEYS
  }

  lemma {:induction false} RowsIndex(ms: seq<Message>, i: nat, m: Message)
    requires DistinctMessages(ms) && i < |ms| && m.id == ms[i].id && m.chat == ms[i].chat
    ensures var rows := ChatRows(ms, m.chat); var j := IndexOf(rows, m.id);
      j >= 0 && rows[j] == ms[i] && ChatRows(ms[i := m], m.chat) == rows[j := m]
    ensures forall chat :: chat != m.chat ==> ChatRows(ms[i := m], chat) == ChatRows(ms, chat)
  {
    var rows := ChatRows(ms, m.chat);
    RowsOfSet(ms, i, m, m.chat);
    RowsDistinct(ms, m.chat);
    var k :| 0 <= k < |rows| && rows[k] == ms[i] && ChatRows(ms[i := m], m.chat) == rows[k := m];
    OnlyIndex(rows, k);
    RowsElsewhere(ms, i, m);
  }

  lemma OnlyIndex(rows: seq<Message>, k: nat)
    requires DistinctMessages(rows) && k < |rows|
    ensures IndexOf(rows, rows[k].id) == k
  {
    var j := IndexOf(rows, rows[k].id);
    assert rows[j].id == rows[k].id;
  }

  lemma RowsElsewhere(ms: seq<Message>, i: nat, m: Message)
    requires i < |ms| && m.chat == ms[i].chat
    ensures forall chat :: chat != m.chat ==> ChatRows(ms[i := m], chat) == ChatRows(ms, chat)
  {
    forall chat | chat != m.chat ensures ChatRows(ms[i := m], chat) == ChatRows(ms, chat) {
      RowsOfSet(ms, i, m, chat);
    }
  }

  lemma RowsAppendAll(ms: seq<Message>, m: Message)
    ensures ChatRows(ms + [m], m.chat) == ChatRows(ms, m.chat) + [m]
    ensures forall chat :: chat != m.chat ==> ChatRows(ms + [m], chat) == ChatRows(ms, chat)
  {
    RowsOfAppend(ms, m, m.chat);
    forall chat | chat != m.chat ensures ChatRows(ms + [m], chat) == ChatRows(ms, chat) {
      RowsOfAppend(ms, m, chat);
    }
  }

  /** From `(t, k)` to `(u, l)` chat `chat` took the write `w` and no other chat changed. */
  ghost predicate OneWrite(t: Tables, k: map<ChatId, Keys>, u: Tables, l: map<ChatId, Keys>, chat: ChatId, w: Write) {
    && ServerOf(u, l, chat) == Apply(ServerOf(t, k, chat), w)
    && u.chats == t.chats
    && forall other :: other != chat ==> ServerOf(u, l, other) == ServerOf(t, k, other)
  }

  ghost predicate AllGood(t: Tables, k: map<ChatId, Keys>) {
    forall chat {:trigger ServerOf(t, k, chat)} :: Good(ServerOf(t, k, chat))
  }

  lemma StartsGood(t: Tables)
    requires Sound(t) && t.messages == []
    ensures AllGood(t, map[])
  {
    forall chat ensures Good(ServerOf(t, map[], chat)) {
      assert chat in t.counters ==> ChatNumbered(t, chat);
      assert ServerOf(t, map[], chat) == EMPTY_CHAT;
      WritesKeepGood(EMPTY_CHAT, []);
    }
  }

  lemma OneWriteKeepsGood(t: Tables, k: map<ChatId, Keys>, u: Tables, l: map<ChatId, Keys>, chat: ChatId, w: Write)
    requires AllGood(t, k) && OneWrite(t, k, u, l, chat, w)
    ensures AllGood(u, l)
  {
    forall other ensures Good(ServerOf(u, l, other)) {
      assert Good(ServerOf(t, k, other));
      if other == chat {
        WriteKeepsGood(ServerOf(t, k, chat), w);
      }
    }
  }

  /** What a completed write leaves behind: sound tables, good chats, and nothing else changed. */
  ghost predicate WroteWell(t: Tables, k: map<ChatId, Keys>, u: Tables, l: map<ChatId, Keys>, chat: ChatId, w: Write) {
    Sound(u) && AllGood(u, l) && OneWrite(t, k, u, l, chat, w)
  }

  function SendKeys(k: map<ChatId, Keys>, chat: ChatId, num: int): map<ChatId, Keys> {
    k[chat := KeysOf(k, chat).(lastSeq := Some(num))]
  }

  function DeleteKeys(k: map<ChatId, Keys>, m: Message): map<ChatId, Keys> {
    k[m.chat := LogDelete(KeysOf(k, m.chat), m.id)]
  }

  function EditKeys(k: map<ChatId, Keys>, m: Message): map<ChatId, Keys> {
    k[m.chat := LogEdit(KeysOf(k, m.chat), EntryOf(m))]
  }

  lemma SendIsOneWrite(t: Tables, k: map<ChatId, Keys>, id: Id, chat: ChatId, user: UserId, text: Text, now: int)
    requires Sound(t) && Create(t, id, chat, user, text, now).Ok?
    ensures var u := Create(t, id, chat, user, text, now).value;
      OneWrite(t, k, u, SendKeys(k, chat, Last(u.messages).num), chat, Send(id, chat, user, text, now))
  {
    var u := Create(t, id, chat, user, text, now).value;
    var m := Last(u.messages);
    AppendSeen(t, k, u, m, SendKeys(k, chat, m.num));
    assert id !in Ids(ChatRows(t.messages, chat));
  }

  /** Appending one row and writing its chat's counter and keys is seen by that chat alone. */
  lemma AppendSeen(t: Tables, k: map<ChatId, Keys>, u: Tables, m: Message, l: map<ChatId, Keys>)
    requires u == t.(messages := t.messages + [m], counters := t.counters[m.chat := m.num])
    requires l == k[m.chat := KeysOf(l, m.chat)]
    ensures ServerOf(u, l, m.chat) == Server(ServerOf(t, k, m.chat).rows + [m], m.num, KeysOf(l, m.chat))
    ensures forall other :: other != m.chat ==> ServerOf(u, l, other) == ServerOf(t, k, other)
  {
    RowsAppendAll(t.messages, m);
  }

  lemma SendWrites(
    t: Tables, k: map<ChatId, Keys>, id: Id, chat: ChatId, user: UserId, text: Text, now: int,
    u: Tables, l: map<ChatId, Keys>)
    requires Sound(t) && AllGood(t, k) && Create(t, id, chat, user, text, now) == Ok(u)
    requires l == SendKeys(k, chat, Last(u.messages).num)
    ensures WroteWell(t, k, u, l, chat, Send(id, chat, user, text, now))
  {
    CreateKeepsSound(t, id, chat, user, text, now);
    SendIsOneWrite(t, k, id, chat, user, text, now);
    OneWriteKeepsGood(t, k, u, l, chat, Send(id, chat, user, text, now));
  }

  function Last(ms: seq<Message>): Message
    requires ms != []
  {
    ms[|ms| - 1]
  }

  /** Writing one row and the keys of its chat is seen by that chat alone. */
  lemma SetRowSeen(t: Tables, k: map<ChatId, Keys>, i: nat, m: Message, kept: Keys)
    requires Sound(t) && i < |t.messages| && SameOrigin(m, t.messages[i])
    ensures var s, u, l := ServerOf(t, k, m.chat), SetRow(t, i, m), k[m.chat := kept];
      var j := IndexOf(s.rows, m.id);
      && j >= 0 && s.rows[j] == t.messages[i]
      && ServerOf(u, l, m.chat) == s.(rows := s.rows[j := m], keys := kept)
      && forall other :: other != m.chat ==> ServerOf(u, l, other) == ServerOf(t, k, other)
  {
    RowsIndex(t.messages, i, m);
  }

  lemma DeleteIsOneWrite(t: Tables, k: map<ChatId, Keys>, i: nat)
    requires Sound(t) && i < |t.messages| && IndexOf(t.messages, t.messages[i].id) == i
    ensures var m := t.messages[i];
      OneWrite(t, k, ChatTables.SoftDelete(t, m.id), DeleteKeys(k, m), m.chat, Delete(m.id))
  {
    var m := t.messages[i];
    SetRowSeen(t, k, i, m.(deleted := true), LogDelete(KeysOf(k, m.chat), m.id));
  }

  lemma DeleteWrites(t: Tables, k: map<ChatId, Keys>, i: nat, u: Tables, l: map<ChatId, Keys>)
    requires Sound(t) && AllGood(t, k) && i < |t.messages| && IndexOf(t.messages, t.messages[i].id) == i
    requires u == ChatTables.SoftDelete(t, t.messages[i].id) && l == DeleteKeys(k, t.messages[i])
    ensures WroteWell(t, k, u, l, t.messages[i].chat, Delete(t.messages[i].id))
  {
    var m := t.messages[i];
    SetRowKeepsSound(t, i, m.(deleted := true));
    DeleteIsOneWrite(t, k, i);
    OneWriteKeepsGood(t, k, u, l, m.chat, Delete(m.id));
  }

  lemma EditIsOneWrite(t: Tables, k: map<ChatId, Keys>, i: nat, text: Text, now: int)
    requires Sound(t) && i < |t.messages| && IndexOf(t.messages, t.messages[i].id) == i
    ensures var m := t.messages[i];
      OneWrite(t, k, Update(t, m.id, text, now), EditKeys(k, Retext(m, text, now)), m.chat, Change(m.id, text, now))
  {
    var m := Retext(t.messages[i], text, now);
    SetRowSeen(t, k, i, m, LogEdit(KeysOf(k, m.chat), EntryOf(m)));
    ChangeIs(ServerOf(t, k, m.chat), t.messages[i], text, now);
  }

  lemma ChangeIs(s: Server, m: Message, text: Text, now: int)
    requires IndexOf(s.rows, m.id) >= 0 && s.rows[IndexOf(s.rows, m.id)] == m
    ensures var row := Retext(m, text, now);
      Apply(s, Change(m.id, text, now))
      == s.(rows := s.rows[IndexOf(s.rows, m.id) := row], keys := LogEdit(s.keys, EntryOf(row)))
  {
  }

  lemma EditWrites(
    t: Tables, k: map<ChatId, Keys>, i: nat, text: Text, now: int, u: Tables, l: map<ChatId, Keys>)
    requires Sound(t) && AllGood(t, k) && i < |t.messages| && IndexOf(t.messages, t.messages[i].id) == i
    requires u == Update(t, t.messages[i].id, text, now) && l == EditKeys(k, Retext(t.messages[i], text, now))
    ensures WroteWell(t, k, u, l, t.messages[i].chat, Change(t.messages[i].id, text, now))
  {
    var m := t.messages[i];
    SetRowKeepsSound(t, i, Retext(m, text, now));
    EditIsOneWrite(t, k, i, text, now);
    OneWriteKeepsGood(t, k, u, l, m.chat, Change(m.id, text, now));
  }

  lemma JoinKeepsAll(t: Tables, k: map<ChatId, Keys>, event: EventId, room: string, name: string, id: ChatId)
    requires Sound(t) && AllGood(t, k) && Join(t, event, room, name, id).Ok?
    ensures var u := Join(t, event, room, name, id).value.0;
      Sound(u) && AllGood(u, k) && forall chat :: ServerOf(u, k, chat) == ServerOf(t, k, chat)
  {
    var u := Join(t, event, room, name, id).value.0;
    ExecuteKeepsSound(t, DoJoin(event, room, name, id));
    assert Execute(t, DoJoin(event, room, name, id)) == u;
    forall chat ensures ServerOf(u, k, chat) == ServerOf(t, k, chat) {
    }
  }

  /** Why a message is refused before anything is written. */
  function Objection(
      ms: seq<Message>, chat: ChatId, text: Text, replyTo: Option<Id>, banned: bool, muted: bool):
    Option<ServiceError>
  {
    var i := if replyTo.Some? then IndexOf(ms, replyTo.value) else -1;
    if |text| == 0 then Some(EmptyMessage)
    else if |text| > MAX_TEXT then Some(MessageTooLong)
    else if banned then Some(UserBanned)
    else if muted then Some(UserMuted)
    else if replyTo.Some? && i < 0 then Some(NotFound)
    else if replyTo.Some? && ms[i].chat != chat then Some(InvalidReply)
    else None
  }

  /** Why the store refuses a row. */
  function StoreRefusal(t: Tables, chat: ChatId, newId: Id): Option<ServiceError> {
    if chat !in t.counters then Some(StoreFailed(NoRows))
    else if newId in Ids(t.messages) then Some(StoreFailed(DuplicateKey))
    else None
  }

  /** Why a message is refused, the first reason that applies. */
  function Refusal(
      t: Tables, chat: ChatId, text: Text, replyTo: Option<Id>, banned: bool, muted: bool, newId: Id):
    Option<ServiceError>
  {
    var objection := Objection(t.messages, chat, text, replyTo, banned, muted);
    if objection.Some? then objection else StoreRefusal(t, chat, newId)
  }

  /** A message is stored exactly when it is non-empty, short enough, allowed, and replies within its chat. */
  lemma AcceptedExactly(
      t: Tables, chat: ChatId, text: Text, replyTo: Option<Id>, banned: bool, muted: bool, newId: Id)
    requires DistinctMessages(t.messages)
    ensures Refusal(t, chat, text, replyTo, banned, muted, newId).None? <==>
      && 1 <= |text| <= 4096 && !banned && !muted
      && (replyTo.Some? ==> exists m :: m in t.messages && m.id == replyTo.value && m.chat == chat)
      && chat in t.counters && forall m :: m in t.messages ==> m.id != newId
  {
    if replyTo.Some? {
      var i := IndexOf(t.messages, replyTo.value);
      assert i >= 0 ==> t.messages[i] in t.messages;
      forall m | m in t.messages && m.id == replyTo.value ensures i >= 0 && m == t.messages[i] {
        var k :| 0 <= k < |t.messages| && t.messages[k] == m;
      }
    }
  }

  /** The row after an edit: a live one says the new text and the time of the edit, a deleted one what it said. */
  predicate Reworded(before: Message, after: Message, text: Text, now: int) {
    && after.id == before.id && after.chat == before.chat && after.user == before.user && after.num == before.num
    && after.created == before.created && after.deleted == before.deleted
    && after.text == (if before.deleted then before.text else text)
    && after.editedAt == (if before.deleted then before.editedAt else Some(now))
  }

  class MessageService {
    var tables: Tables
    var keys: map<ChatId, Keys>
    /** The chats whose subscribers were woken, in order. */
    var published: seq<ChatId>

    constructor (tables: Tables)
      requires Sound(tables) && tables.messages == []
      ensures Valid() && this.tables == tables && keys == map[] && published == []
    {
      this.tables, keys, published := tables, map[], [];
      StartsGood(tables);
    }

    /** The tables are sound and every chat is what its own run of writes made it. */
    ghost predicate Valid() reads this { Sound(tables) && AllGood(tables, keys) }

    /** Nothing but one write to `chat` happened, and its subscribers were woken. */
    twostate predicate Wrote(chat: ChatId, w: Write) reads this {
      && OneWrite(old(tables), old(keys), tables, keys, chat, w)
      && published == old(published) + [chat]
    }

    twostate predicate Untouched() reads this {
      tables == old(tables) && keys == old(keys) && published == old(published)
    }

    method SendMessage(
        chat: ChatId, user: UserId, text: Text, replyTo: Option<Id>, banned: bool, muted: bool, newId: Id, now: int)
      returns (r: Result<Message, ServiceError>)
      requires Valid()
      modifies this
      ensures Valid()
      ensures r.Ok? <==> Refusal(old(tables), chat, text, replyTo, banned, muted, newId).None?
      ensures var t := old(tables); var reply := IndexOf(t.messages, if replyTo.Some? then replyTo.value else newId);
        if |text| == 0 then r == Err(EmptyMessage) && Untouched()
        else if |text| > 4096 then r == Err(MessageTooLong) && Untouched()
        else if banned then r == Err(UserBanned) && Untouched()
        else if muted then r == Err(UserMuted) && Untouched()
        else if replyTo.Some? && reply < 0 then r == Err(NotFound) && Untouched()
        else if replyTo.Some? && t.messages[reply].chat != chat then r == Err(InvalidReply) && Untouched()
        else if chat !in t.counters then r == Err(StoreFailed(NoRows)) && Untouched()
        else if newId in Ids(t.messages) then r == Err(StoreFailed(DuplicateKey)) && Untouched()
        else (
          && r == Ok(Message(newId, chat, user, t.counters[chat] + 1, text, now, None, false))
          && tables.messages == t.messages + [r.value] && tables.counters == t.counters[chat := t.counters[chat] + 1]
          && Wrote(chat, Send(newId, chat, user, text, now)))
    {
      var objection := Examine(chat, text, replyTo, banned, muted);
      if objection.Some? { return Err(objection.value); }
      r := StoreAndPublish(chat, user, text, newId, now);
    }

    /** The checks, in their order. */
    method Examine(chat: ChatId, text: Text, replyTo: Option<Id>, banned: bool, muted: bool)
      returns (objection: Option<ServiceError>)
      ensures objection == Objection(tables.messages, chat, text, replyTo, banned, muted)
    {
      if |text| == 0 { return Some(EmptyMessage); }
      if |text| > MAX_TEXT { return Some(MessageTooLong); }
      if banned { return Some(UserBanned); }
      if muted { return Some(UserMuted); }
      if replyTo.Some? {
        var i := IndexOf(tables.messages, replyTo.value);
        if i < 0 { return Some(NotFound); }
        if tables.messages[i].chat != chat { return Some(InvalidReply); }
      }
      objection := None;
    }

    /** Create, then the cached counter, then the wake-up: a woken reader finds the row. */
    method StoreAndPublish(chat: ChatId, user: UserId, text: Text, newId: Id, now: int)
      returns (r: Result<Message, ServiceError>)
      requires Valid()
      modifies this
      ensures Valid()
      ensures match StoreRefusal(old(tables), chat, newId)
        case Some(e) => r == Err(e) && Untouched()
        case None =>
          && r == Ok(Message(newId, chat, user, old(tables.counters)[chat] + 1, text, now, None, false))
          && tables.messages == old(tables.messages) + [r.value]
          && tables.counters == old(tables.counters)[chat := old(tables.counters)[chat] + 1]
          && Wrote(chat, Send(newId, chat, user, text, now))
    {
      var created := Create(tables, newId, chat, user, text, now);
      if created.Err? { return Err(StoreFailed(created.error)); }
      var m := Last(created.value.messages);
      tables := created.value;
      keys := SendKeys(keys, chat, m.num);
      SendWrites(old(tables), old(keys), newId, chat, user, text, now, tables, keys);
      published := published + [chat];
      r := Ok(m);
    }

    method SoftDelete(id: Id, requestor: UserId, role: Role) returns (r: Result<(), ServiceError>)
      requires Valid()
      modifies this
      ensures Valid()
      ensures var i := IndexOf(old(tables.messages), id);
        if i < 0 then r == Err(NotFound) && Untouched()
        else if old(tables.messages)[i].user != requestor && role == Member then r == Err(Forbidden) && Untouched()
        else (
          && r == Ok(())
          && tables.messages == old(tables.messages)[i := old(tables.messages)[i].(deleted := true)]
          && tables.counters == old(tables.counters) && Wrote(old(tables.messages)[i].chat, Delete(id)))
    {
      var i := IndexOf(tables.messages, id);
      if i < 0 { return Err(NotFound); }
      var m := tables.messages[i];
      if m.user != requestor && role == Member { return Err(Forbidden); }
      MarkAndLog(i);
      published := published + [m.chat];
      r := Ok(());
    }

    /** The mark on the row, then the delete log. */
    method MarkAndLog(i: nat)
      requires Valid() && i < |tables.messages| && IndexOf(tables.messages, tables.messages[i].id) == i
      modifies this`tables, this`keys
      ensures var m := old(tables.messages)[i]; WroteWell(old(tables), old(keys), tables, keys, m.chat, Delete(m.id))
      ensures tables.messages == old(tables.messages)[i := old(tables.messages)[i].(deleted := true)]
      ensures tables.counters == old(tables.counters)
    {
      var m := tables.messages[i];
      tables, keys := ChatTables.SoftDelete(tables, m.id), DeleteKeys(keys, m);
      DeleteWrites(old(tables), old(keys), i, tables, keys);
    }

    method EditMessage(id: Id, requestor: UserId, text: Text, now: int) returns (r: Result<Message, ServiceError>)
      requires Valid()
      modifies this
      ensures Valid()
      ensures var i := IndexOf(old(tables.messages), id);
        if |text| == 0 then r == Err(EmptyMessage) && Untouched()
        else if |text| > MAX_TEXT then r == Err(MessageTooLong) && Untouched()
        else if i < 0 then r == Err(NotFound) && Untouched()
        else if old(tables.messages)[i].user != requestor then r == Err(EditForbidden) && Untouched()
        else (
          && r.Ok? && Reworded(old(tables.messages)[i], r.value, text, now)
          && tables.messages == old(tables.messages)[i := r.value] && tables.counters == old(tables.counters)
          && Wrote(old(tables.messages)[i].chat, Change(id, text, now)))
    {
      if |text| == 0 { return Err(EmptyMessage); }
      if |text| > MAX_TEXT { return Err(MessageTooLong); }
      var i := IndexOf(tables.messages, id);
      if i < 0 { return Err(NotFound); }
      var m := tables.messages[i];
      if m.user != requestor { return Err(EditForbidden); }
      var updated := UpdateAndLog(i, text, now);
      published := published + [m.chat];
      r := Ok(updated);
    }

    /** The row, then the edit log with what the row now says. */
    method UpdateAndLog(i: nat, text: Text, now: int) returns (updated: Message)
      requires Valid() && i < |tables.messages| && IndexOf(tables.messages, tables.messages[i].id) == i
      modifies this`tables, this`keys
      ensures var m := old(tables.messages)[i];
        && Reworded(m, updated, text, now)
        && tables.messages == old(tables.messages)[i := updated] && tables.counters == old(tables.counters)
        && WroteWell(old(tables), old(keys), tables, keys, m.chat, Change(m.id, text, now))
    {
      tables := Update(tables, tables.messages[i].id, text, now);
      updated := tables.messages[i];
      keys := EditKeys(keys, updated);
      EditWrites(old(tables), old(keys), i, text, now, tables, keys);
    }

    /** Joining a room: the chat it names, created with a counter when new. */
    method GetOrCreateChildChat(event: EventId, room: string, name: string, newChat: ChatId)
      returns (r: Result<Chat, DbError>)
      requires Valid()
      modifies this`tables
      ensures Valid()
      ensures match Join(old(tables), event, room, name, newChat)
        case Ok(p) => r == Ok(p.1) && tables == p.0
        case Err(e) => r == Err(e) && tables == old(tables)
      ensures var t := old(tables); var i := FindChild(t.chats, event, room);
        if forall c :: c in t.chats ==> c.child || c.event != event then r == Err(NoRows) && tables == t
        else if i < 0 && exists c :: c in t.chats && c.id == newChat then r == Err(DuplicateKey) && tables == t
        else (
          var id := if i >= 0 then t.chats[i].id else newChat;
          && r == Ok(Chat(id, event, true, room, if name == "" then None else Some(name)))
          && tables.messages == t.messages
          && tables.chats == (if i >= 0 then t.chats[i := r.value] else t.chats + [r.value])
          && tables.counters == (if id in t.counters then t.counters else t.counters[id := 0]))
    {
      if !HasParent(tables.chats, event) { return Err(NoRows); }
      var u := Upsert(tables, event, room, name, newChat);
      if u.Err? { return Err(u.error); }
      UpsertFinds(tables, event, room, name, newChat);
      JoinKeepsAll(tables, keys, event, room, name, newChat);
      tables := u.value;
      var child := tables.chats[FindChild(tables.chats, event, room)];
      var init := InitSeq(tables, child.id);
      if init.Ok? {
        tables := init.value;
      }
      r := Ok(child);
    }
  }
}

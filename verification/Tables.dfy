/** The message, chat and counter tables of all chats, and the statements that write them. */
module ChatTables {
  import opened Lists
  import opened Messages
  import opened Servers

  type EventId = nat

  datatype Chat = Chat(id: ChatId, event: EventId, child: bool, room: string, roomName: Option<string>)

  /** messages, chats and chat_seqs. */
  datatype Tables = Tables(messages: seq<Message>, chats: seq<Chat>, counters: map<ChatId, nat>)

  datatype DbError = NoRows | DuplicateKey

  function InChat(chat: ChatId): Message -> bool { (m: Message) => m.chat == chat }

  function ChatRows(messages: seq<Message>, chat: ChatId): (r: seq<Message>)
    ensures forall m :: m in r <==> m in messages && m.chat == chat
  {
    Filter(messages, InChat(chat))
  }

  /** The counter update and the insert are one statement: without a counter row nothing is inserted. */
  function Create(t: Tables, id: Id, chat: ChatId, user: UserId, text: Text, now: int): Result<Tables, DbError> {
    if chat !in t.counters then Err(NoRows)
    else if id in Ids(t.messages) then Err(DuplicateKey)
    else
      var num := t.counters[chat] + 1;
      Ok(t.(messages := t.messages + [Message(id, chat, user, num, text, now, None, false)],
            counters := t.counters[chat := num]))
  }

  function SetRow(t: Tables, i: int, m: Message): Tables {
    if 0 <= i < |t.messages| then t.(messages := t.messages[i := m]) else t
  }

  function Update(t: Tables, id: Id, text: Text, now: int): Tables {
    var i := IndexOf(t.messages, id);
    if i < 0 then t else SetRow(t, i, Retext(t.messages[i], text, now))
  }

  function SoftDelete(t: Tables, id: Id): Tables {
    var i := IndexOf(t.messages, id);
    if i < 0 then t else SetRow(t, i, t.messages[i].(deleted := true))
  }

  function FindChild(chats: seq<Chat>, event: EventId, room: string): (i: int)
    ensures -1 <= i < |chats|
    ensures i >= 0 ==> chats[i].child && chats[i].event == event && chats[i].room == room
    ensures i < 0 ==> forall c :: c in chats ==> !(c.child && c.event == event && c.room == room)
  {
    if chats == [] then -1
    else
      var last := chats[|chats| - 1];
      if last.child && last.event == event && last.room == room then |chats| - 1
      else FindChild(chats[..|chats| - 1], event, room)
  }

  predicate HasParent(chats: seq<Chat>, event: EventId) {
    exists c :: c in chats && !c.child && c.event == event
  }

  function NameArg(name: string): Option<string> { if name == "" then None else Some(name) }

  /** INSERT ... ON CONFLICT (event, room) DO UPDATE SET external_room_name. */
  function Upsert(t: Tables, event: EventId, room: string, name: string, id: ChatId): Result<Tables, DbError> {
    var i := FindChild(t.chats, event, room);
    if i >= 0 then Ok(t.(chats := t.chats[i := t.chats[i].(roomName := NameArg(name))]))
    else if exists c :: c in t.chats && c.id == id then Err(DuplicateKey)
    else Ok(t.(chats := t.chats + [Chat(id, event, true, room, NameArg(name))]))
  }

  function InitSeq(t: Tables, chat: ChatId): Result<Tables, DbError> {
    if chat in t.counters then Err(DuplicateKey) else Ok(t.(counters := t.counters[chat := 0]))
  }

  /** Joining a room: the upsert, then the counter row, whose failure is ignored. */
  function Join(t: Tables, event: EventId, room: string, name: string, id: ChatId): Result<(Tables, Chat), DbError> {
    if !HasParent(t.chats, event) then Err(NoRows)
    else match Upsert(t, event, room, name, id)
      case Err(e) => Err(e)
      case Ok(u) =>
        var i := FindChild(u.chats, event, room);
        if i < 0 then Err(NoRows) else
          var child := u.chats[i];
          match InitSeq(u, child.id)
          case Ok(v) => Ok((v, child))
          case Err(_) => Ok((u, child))
  }

  datatype Statement =
    | DoCreate(id: Id, chat: ChatId, user: UserId, text: Text, now: int)
    | DoUpdate(target: Id, newText: Text, at: int)
    | DoDelete(victim: Id)
    | DoJoin(event: EventId, room: string, name: string, newChat: ChatId)

  function Execute(t: Tables, s: Statement): Tables {
    match s
    case DoCreate(id, chat, user, text, now) =>
      (match Create(t, id, chat, user, text, now) case Ok(u) => u case Err(_) => t)
    case DoUpdate(target, newText, at) => Update(t, target, newText, at)
    case DoDelete(victim) => SoftDelete(t, victim)
    case DoJoin(event, room, name, newChat) =>
      (match Join(t, event, room, name, newChat) case Ok(r) => r.0 case Err(_) => t)
  }

  function ExecuteAll(t: Tables, ss: seq<Statement>): Tables
    decreases |ss|
  {
    if ss == [] then t else ExecuteAll(Execute(t, ss[0]), ss[1..])
  }

  // --- invariants --------------------------------------------------------------------------------

  /** The numbers of a chat's messages, in insertion order, are exactly 1 to its counter. */
  ghost predicate ChatNumbered(t: Tables, chat: ChatId)
    requires chat in t.counters
  {
    var rows := ChatRows(t.messages, chat);
    |rows| == t.counters[chat] && forall i :: 0 <= i < |rows| ==> rows[i].num == i + 1
  }

  ghost predicate DistinctMessages(ms: seq<Message>) {
    forall i, j {:trigger ms[i].id, ms[j].id} :: 0 <= i < j < |ms| ==> ms[i].id != ms[j].id
  }

  ghost predicate OneChildPerRoom(chats: seq<Chat>) {
    && (forall i, j {:trigger chats[i].id, chats[j].id} :: 0 <= i < j < |chats| ==> chats[i].id != chats[j].id)
    && (forall i, j {:trigger chats[i].room, chats[j].room} ::
          0 <= i < j < |chats| && chats[i].child && chats[j].child ==>
          chats[i].event != chats[j].event || chats[i].room != chats[j].room)
  }

  ghost predicate Sound(t: Tables) {
    && (forall chat :: chat in t.counters ==> ChatNumbered(t, chat))
    && (forall m :: m in t.messages ==> m.chat in t.counters)
    && DistinctMessages(t.messages)
    && OneChildPerRoom(t.chats)
  }

  /** The rows of a chat, around the place of one message. */
  lemma RowsAround(ms: seq<Message>, i: nat, m: Message, chat: ChatId)
    requires i < |ms|
    ensures ChatRows(ms[i := m], chat) ==
      ChatRows(ms[..i], chat) + (if m.chat == chat then [m] else []) + ChatRows(ms[i + 1..], chat)
  {
    assert ms[i := m] == ms[..i] + [m] + ms[i + 1..];
    RowsOfAppend(ms[..i], m, chat);
    FilterConcat(ms[..i] + [m], ms[i + 1..], InChat(chat));
  }

  lemma SetBetween(a: seq<Message>, x: Message, y: Message, b: seq<Message>)
    ensures (a + [x] + b)[|a|] == x && (a + [x] + b)[|a| := y] == a + [y] + b
  {
  }

  lemma RowsOfSet(ms: seq<Message>, i: nat, m: Message, chat: ChatId)
    requires i < |ms| && m.chat == ms[i].chat
    ensures m.chat != chat ==> ChatRows(ms[i := m], chat) == ChatRows(ms, chat)
    ensures m.chat == chat ==>
      exists j :: 0 <= j < |ChatRows(ms, chat)| && ChatRows(ms, chat)[j] == ms[i]
               && ChatRows(ms[i := m], chat) == ChatRows(ms, chat)[j := m]
  {
    RowsAround(ms, i, m, chat);
    RowsAround(ms, i, ms[i], chat);
    assert ms[i := ms[i]] == ms;
    SetBetween(ChatRows(ms[..i], chat), ms[i], m, ChatRows(ms[i + 1..], chat));
  }

  lemma RowsOfAppend(ms: seq<Message>, m: Message, chat: ChatId)
    ensures ChatRows(ms + [m], chat) == if m.chat == chat then ChatRows(ms, chat) + [m] else ChatRows(ms, chat)
  {
    FilterConcat(ms, [m], InChat(chat));
    assert [m][1..] == [];
  }

  lemma {:induction false} RowsDistinct(ms: seq<Message>, chat: ChatId)
    requires DistinctMessages(ms)
    ensures DistinctMessages(ChatRows(ms, chat))
  {
    if ms != [] {
      var rest := ChatRows(ms[1..], chat);
      assert DistinctMessages(ms[1..]) by {
        forall i, j | 0 <= i < j < |ms[1..]| ensures ms[1..][i].id != ms[1..][j].id {
          assert ms[i + 1].id != ms[j + 1].id;
        }
      }
      RowsDistinct(ms[1..], chat);
      forall j | 0 <= j < |rest| ensures rest[j].id != ms[0].id {
        assert rest[j] in ms[1..];
        var k :| 0 <= k < |ms[1..]| && ms[1..][k] == rest[j];
        assert ms[k + 1].id != ms[0].id;
      }
      assert ChatRows(ms, chat) == (if ms[0].chat == chat then [ms[0]] else []) + rest;
    }
  }

  lemma SetRowKeepsSound(t: Tables, i: nat, m: Message)
    requires Sound(t) && i < |t.messages| && SameOrigin(m, t.messages[i])
    ensures Sound(SetRow(t, i, m))
  {
    var u := SetRow(t, i, m);
    forall chat | chat in u.counters ensures ChatNumbered(u, chat) {
      assert ChatNumbered(t, chat);
      RowsOfSet(t.messages, i, m, chat);
    }
    forall x | x in u.messages ensures x.chat in u.counters {
      assert x != m ==> x in t.messages;
      assert t.messages[i] in t.messages;
    }
  }

  lemma CreateKeepsSound(t: Tables, id: Id, chat: ChatId, user: UserId, text: Text, now: int)
    requires Sound(t)
    ensures match Create(t, id, chat, user, text, now) case Ok(u) => Sound(u) case Err(_) => true
  {
    match Create(t, id, chat, user, text, now)
    case Err(_) =>
    case Ok(u) =>
      var m := u.messages[|t.messages|];
      assert u.messages == t.messages + [m];
      forall c | c in u.counters ensures ChatNumbered(u, c) {
        assert ChatNumbered(t, c);
        RowsOfAppend(t.messages, m, c);
      }
      AppendedMessage(t.messages, m);
  }

  lemma AppendedMessage(ms: seq<Message>, m: Message)
    requires DistinctMessages(ms) && m.id !in Ids(ms)
    ensures DistinctMessages(ms + [m])
  {
    forall i | 0 <= i < |ms| ensures ms[i].id != m.id {
      assert ms[i] in ms;
    }
  }

  lemma NoRowsYet(t: Tables, chat: ChatId)
    requires Sound(t) && chat !in t.counters
    ensures ChatRows(t.messages, chat) == []
  {
    HeadIsMember(ChatRows(t.messages, chat));
  }

  lemma InitKeepsSound(t: Tables, chat: ChatId)
    requires Sound(t) && InitSeq(t, chat).Ok?
    ensures Sound(InitSeq(t, chat).value)
  {
    var u := InitSeq(t, chat).value;
    NoRowsYet(t, chat);
    forall c | c in u.counters ensures ChatNumbered(u, c) {
      assert c != chat ==> ChatNumbered(t, c);
    }
  }

  lemma UpsertKeepsSound(t: Tables, event: EventId, room: string, name: string, id: ChatId)
    requires Sound(t) && Upsert(t, event, room, name, id).Ok?
    ensures Sound(Upsert(t, event, room, name, id).value)
  {
    var u := Upsert(t, event, room, name, id).value;
    forall chat | chat in u.counters ensures ChatNumbered(u, chat) {
      assert ChatNumbered(t, chat);
    }
    assert forall i :: 0 <= i < |t.chats| ==> t.chats[i] in t.chats;
  }

  lemma ExecuteKeepsSound(t: Tables, s: Statement)
    requires Sound(t)
    ensures Sound(Execute(t, s))
  {
    match s
    case DoCreate(id, chat, user, text, now) => CreateKeepsSound(t, id, chat, user, text, now);
    case DoUpdate(target, newText, at) =>
      var i := IndexOf(t.messages, target);
      if i >= 0 { SetRowKeepsSound(t, i, Retext(t.messages[i], newText, at)); }
    case DoDelete(victim) =>
      var i := IndexOf(t.messages, victim);
      if i >= 0 { SetRowKeepsSound(t, i, t.messages[i].(deleted := true)); }
    case DoJoin(event, room, name, newChat) =>
      if HasParent(t.chats, event) && Upsert(t, event, room, name, newChat).Ok? {
        var u := Upsert(t, event, room, name, newChat).value;
        UpsertKeepsSound(t, event, room, name, newChat);
        var i := FindChild(u.chats, event, room);
        if i >= 0 && InitSeq(u, u.chats[i].id).Ok? {
          InitKeepsSound(u, u.chats[i].id);
        }
      }
  }

  /** In every run the numbers of every chat are exactly 1 to its counter, each once. */
  lemma {:induction false} NumberingHolds(t: Tables, ss: seq<Statement>)
    requires Sound(t)
    ensures Sound(ExecuteAll(t, ss))
    ensures forall chat :: chat in ExecuteAll(t, ss).counters ==>
      Numbered(ChatRows(ExecuteAll(t, ss).messages, chat))
    decreases |ss|
  {
    if ss == [] {
      forall chat | chat in t.counters ensures Numbered(ChatRows(t.messages, chat)) {
        assert ChatNumbered(t, chat);
        RowsDistinct(t.messages, chat);
      }
    } else {
      ExecuteKeepsSound(t, ss[0]);
      NumberingHolds(Execute(t, ss[0]), ss[1..]);
    }
  }

  /** Rows stay where they are and keep their origin, deletions stay, and no counter falls. */
  ghost predicate Grown(t: Tables, u: Tables) {
    && |t.messages| <= |u.messages|
    && (forall i {:trigger u.messages[i]} :: 0 <= i < |t.messages| ==>
          SameOrigin(t.messages[i], u.messages[i]) && (t.messages[i].deleted ==> u.messages[i].deleted))
    && (forall chat :: chat in t.counters ==> chat in u.counters && t.counters[chat] <= u.counters[chat])
  }

  lemma {:induction false} RunGrows(t: Tables, ss: seq<Statement>)
    ensures Grown(t, ExecuteAll(t, ss))
    decreases |ss|
  {
    if ss != [] {
      var next := Execute(t, ss[0]);
      assert Grown(t, next);
      RunGrows(next, ss[1..]);
    }
  }

  lemma SameNumberSameRow(t: Tables, m: Message, n: Message)
    requires Sound(t) && m in t.messages && n in t.messages && m.chat == n.chat && m.num == n.num
    ensures m == n
  {
    var rows := ChatRows(t.messages, m.chat);
    assert ChatNumbered(t, m.chat);
    var i :| 0 <= i < |rows| && rows[i] == m;
    var j :| 0 <= j < |rows| && rows[j] == n;
    assert i + 1 == m.num == j + 1;
  }

  lemma SameIdSameRow(t: Tables, m: Message, n: Message)
    requires DistinctMessages(t.messages) && m in t.messages && n in t.messages && m.id == n.id
    ensures m == n
  {
    var i :| 0 <= i < |t.messages| && t.messages[i] == m;
    var j :| 0 <= j < |t.messages| && t.messages[j] == n;
    assert t.messages[i].id == t.messages[j].id;
  }

  /** Where `m` of the earlier tables has gone in the later ones. */
  lemma LaterSelf(t: Tables, u: Tables, m: Message) returns (same: Message)
    requires Grown(t, u) && m in t.messages
    ensures same in u.messages && SameOrigin(m, same) && (m.deleted ==> same.deleted)
  {
    var k :| 0 <= k < |t.messages| && t.messages[k] == m;
    same := u.messages[k];
  }

  /** A number once taken belongs to its message for good, deleted or not, whatever runs afterwards. */
  lemma NumbersNeverReused(t: Tables, ss: seq<Statement>, m: Message, n: Message)
    requires Sound(t) && m in t.messages && n in ExecuteAll(t, ss).messages
    ensures m.chat == n.chat && m.num == n.num <==> m.id == n.id
    ensures m.id == n.id && m.deleted ==> n.deleted
  {
    NumberingHolds(t, ss);
    RunGrows(t, ss);
    NumberStaysTaken(t, ExecuteAll(t, ss), m, n);
  }

  lemma NumberStaysTaken(t: Tables, u: Tables, m: Message, n: Message)
    requires Sound(u) && Grown(t, u) && m in t.messages && n in u.messages
    ensures m.chat == n.chat && m.num == n.num <==> m.id == n.id
    ensures m.id == n.id && m.deleted ==> n.deleted
  {
    var same := LaterSelf(t, u, m);
    if m.chat == n.chat && m.num == n.num { SameNumberSameRow(u, same, n); }
    if m.id == n.id { SameIdSameRow(u, same, n); }
  }

  lemma ParentStays(t: Tables, event: EventId, room: string, name: string, id: ChatId)
    requires HasParent(t.chats, event) && Upsert(t, event, room, name, id).Ok?
    ensures HasParent(Upsert(t, event, room, name, id).value.chats, event)
  {
    var chats := Upsert(t, event, room, name, id).value.chats;
    var c :| c in t.chats && !c.child && c.event == event;
    var k :| 0 <= k < |t.chats| && t.chats[k] == c;
    assert chats[k] in chats;
  }

  /** The room's only child chat is where the search finds it. */
  lemma FoundChild(chats: seq<Chat>, event: EventId, room: string, k: nat)
    requires OneChildPerRoom(chats) && k < |chats|
    requires chats[k].child && chats[k].event == event && chats[k].room == room
    ensures FindChild(chats, event, room) == k
  {
    var f := FindChild(chats, event, room);
    assert chats[k] in chats;
    assert chats[f].room == chats[k].room;
  }

  lemma AppendedChat(chats: seq<Chat>, c: Chat)
    requires OneChildPerRoom(chats)
    requires forall d :: d in chats ==> d.id != c.id && !(d.child && d.event == c.event && d.room == c.room)
    ensures OneChildPerRoom(chats + [c])
  {
    assert forall k :: 0 <= k < |chats| ==> chats[k] in chats;
  }

  /** The select after the upsert finds the row it wrote. */
  lemma UpsertFinds(t: Tables, event: EventId, room: string, name: string, id: ChatId)
    requires OneChildPerRoom(t.chats) && Upsert(t, event, room, name, id).Ok?
    ensures var u, i := Upsert(t, event, room, name, id).value, FindChild(t.chats, event, room);
      && FindChild(u.chats, event, room) == (if i >= 0 then i else |t.chats|)
      && OneChildPerRoom(u.chats)
  {
    var u, i := Upsert(t, event, room, name, id).value, FindChild(t.chats, event, room);
    if i < 0 {
      AppendedChat(t.chats, Chat(id, event, true, room, NameArg(name)));
    }
    FoundChild(u.chats, event, room, if i >= 0 then i else |t.chats|);
  }

  /** A join ends with the room's chat, under the new name and with a counter; no message changes. */
  lemma Joined(t: Tables, event: EventId, room: string, name: string, id: ChatId)
    requires OneChildPerRoom(t.chats) && Join(t, event, room, name, id).Ok?
    ensures var (u, c) := Join(t, event, room, name, id).value; var k := FindChild(u.chats, event, room);
      && k >= 0 && u.chats[k] == c && c.roomName == NameArg(name) && c.id in u.counters
      && u.messages == t.messages && OneChildPerRoom(u.chats) && HasParent(u.chats, event)
  {
    UpsertFinds(t, event, room, name, id);
    ParentStays(t, event, room, name, id);
  }

  /**
   * Joining with a parent chat and an unused id succeeds; joining the same room again returns the
   * same chat under its new name, creates no second child, and leaves messages and counters alone.
   */
  lemma RejoinKeepsCounter(
    t: Tables, event: EventId, room: string, name: string, name2: string, id: ChatId, id2: ChatId)
    requires Sound(t) && Join(t, event, room, name, id).Ok?
    ensures var (u, child) := Join(t, event, room, name, id).value;
      && child.id in u.counters && child.roomName == NameArg(name) && u.messages == t.messages
      && Join(u, event, room, name2, id2).Ok?
      && var (v, again) := Join(u, event, room, name2, id2).value;
        again == child.(roomName := NameArg(name2))
        && v.counters == u.counters && v.messages == u.messages && |v.chats| == |u.chats|
  {
    Joined(t, event, room, name, id);
    JoinAgain(Join(t, event, room, name, id).value.0, event, room, name2, id2);
  }

  lemma JoinAgain(u: Tables, event: EventId, room: string, name: string, id: ChatId)
    requires OneChildPerRoom(u.chats) && HasParent(u.chats, event) && FindChild(u.chats, event, room) >= 0
    requires u.chats[FindChild(u.chats, event, room)].id in u.counters
    ensures Join(u, event, room, name, id).Ok?
    ensures var (v, again) := Join(u, event, room, name, id).value;
      && again == u.chats[FindChild(u.chats, event, room)].(roomName := NameArg(name))
      && v.counters == u.counters && v.messages == u.messages && |v.chats| == |u.chats|
  {
    UpsertFinds(u, event, room, name, id);
  }
}

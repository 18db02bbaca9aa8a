/** The Redis broker: one subscription per chat with local clients, fanned out in the process. */
module RedisBrokers {
  import opened Lists
  import opened Messages
  import opened Channels
  import opened Subscribers

  /** A Redis subscription, its reader, and the channels it feeds. */
  class Fanout {
    const chat: ChatId
    var subscribed: bool
    var cancelled: bool
    var clients: seq<Channel>

    constructor (chat: ChatId)
      ensures this.chat == chat && clients == [] && Open()
    {
      this.chat, clients, subscribed, cancelled := chat, [], true, false;
    }

    predicate Open() reads this { subscribed && !cancelled }

    predicate Shut() reads this { !subscribed && cancelled }
  }

  class RedisBroker {
    var fans: map<ChatId, Fanout>
    /** Every fan-out ever started. */
    ghost var made: set<Fanout>

    constructor ()
      ensures Valid() && ViewOf() == map[] && made == {}
    {
      fans, made := map[], {};
    }

    /** A fan-out is open while it is the one of its chat, and shut from then on. */
    ghost predicate Owned() reads this, made {
      && (forall chat :: chat in fans ==> fans[chat] in made && fans[chat].chat == chat)
      && (forall f :: f in made ==> if Current(f) then f.Open() else f.Shut())
    }

    predicate Current(f: Fanout) reads this { f.chat in fans && fans[f.chat] == f }

    ghost function ViewOf(): View<Channel>
      requires Owned()
      reads this, made
    {
      map chat | chat in fans :: fans[chat].clients
    }

    ghost predicate Valid() reads this, made {
      Owned() && WellKept(ViewOf())
    }

    /** A chat has an open subscription exactly when it has a local client, and then just one. */
    lemma OneSubscriptionExactly(chat: ChatId)
      requires Valid()
      ensures (exists f :: f in made && f.chat == chat && f.Open()) <==> ListOf(ViewOf(), chat) != []
      ensures forall f, g :: f in made && g in made && f.chat == chat == g.chat && f.Open() && g.Open() ==> f == g
    {
      if chat in fans {
        assert ViewOf()[chat] != [] && fans[chat] in made;
      }
    }

    method Subscribe(chat: ChatId) returns (ch: Channel)
      requires Valid()
      modifies this, made
      ensures Valid() && fresh(ch) && ch.slot == None
      ensures ViewOf() == Joined(old(ViewOf()), chat, ch)
      ensures old(made) <= made && fresh(made - old(made))
      ensures chat in old(fans) ==> made == old(made) && fans == old(fans)
    {
      ghost var v := ViewOf();
      ch := NewChannel(v);
      JoinedKeeps(v, chat, ch);
      Enlist(chat, ch);
    }

    /** The chat's subscription, started for its first client, and one client more. */
    method Enlist(chat: ChatId, ch: Channel)
      requires Owned()
      modifies this, made
      ensures Owned() && ViewOf() == Joined(old(ViewOf()), chat, ch)
      ensures old(made) <= made && fresh(made - old(made))
      ensures chat in old(fans) ==> made == old(made) && fans == old(fans)
    {
      ghost var v := ViewOf();
      if chat !in fans {
        Start(chat);
      }
      Attach(chat, ch);
      assert ViewOf() == Joined(v, chat, ch);
    }

    /** A new subscription with no clients yet. */
    method Start(chat: ChatId)
      requires Owned() && chat !in fans
      modifies this
      ensures Owned() && chat in fans && ViewOf() == old(ViewOf())[chat := []]
      ensures fresh(fans[chat]) && made == old(made) + {fans[chat]}
    {
      ghost var v := ViewOf();
      var started := new Fanout(chat);
      fans := fans[chat := started];
      made := made + {started};
      assert ViewOf() == v[chat := []];
    }

    method Attach(chat: ChatId, ch: Channel)
      requires Owned() && chat in fans
      modifies fans[chat]
      ensures Owned() && ViewOf() == old(ViewOf())[chat := old(ViewOf()[chat]) + [ch]]
    {
      ghost var v := ViewOf();
      var f := fans[chat];
      f.clients := f.clients + [ch];
      assert ViewOf() == v[chat := v[chat] + [ch]];
    }

    method Unsubscribe(chat: ChatId, ch: Channel)
      requires Valid()
      modifies this`fans, made
      ensures Valid() && ViewOf() == Left(old(ViewOf()), chat, ch)
      ensures fans == old(fans) || (chat in old(fans) && fans == old(fans) - {chat} && old(fans)[chat].Shut())
    {
      LeftKeeps(ViewOf(), chat, ch);
      if chat in fans {
        Detach(chat, ch);
      }
    }

    /** One client less; the last one takes the subscription with it. */
    method Detach(chat: ChatId, ch: Channel)
      requires Owned() && chat in fans
      modifies this`fans, fans[chat]
      ensures Owned() && ViewOf() == Left(old(ViewOf()), chat, ch)
      ensures fans == old(fans) || (fans == old(fans) - {chat} && old(fans)[chat].Shut())
    {
      ghost var v := ViewOf();
      var rest := Remove(fans[chat].clients, ch);
      fans[chat].clients := rest;
      assert ViewOf() == v[chat := rest];
      if |rest| == 0 {
        Close(chat);
        assert ViewOf() == v - {chat};
      }
    }

    /** The subscription is closed and its reader cancelled. */
    method Close(chat: ChatId)
      requires Owned() && chat in fans
      modifies this`fans, fans[chat]
      ensures Owned() && ViewOf() == old(ViewOf()) - {chat}
      ensures fans == old(fans) - {chat} && old(fans)[chat].Shut()
    {
      ghost var v := ViewOf();
      var f := fans[chat];
      f.cancelled := true;
      f.subscribed := false;
      fans := fans - {chat};
      assert ViewOf() == v - {chat};
    }

    /** The search and the cut of one client. */
    method Remove(clients: seq<Channel>, ch: Channel) returns (rest: seq<Channel>)
      ensures rest == Dropped(clients, ch)
    {
      var i := 0;
      while i < |clients| && clients[i] != ch
        invariant 0 <= i <= |clients| && ch !in clients[..i]
      {
        assert clients[..i + 1] == clients[..i] + [clients[i]];
        i := i + 1;
      }
      if i == |clients| {
        assert clients[..i] == clients;
        return clients;
      }
      DroppedAt(clients, ch, i);
      rest := clients[..i] + clients[i + 1..];
    }

    /** A message from Redis, to whoever is in the chat's list when it is handled. */
    method FanOut(chat: ChatId, data: Payload)
      requires Valid()
      modifies set ch | ch in ListOf(ViewOf(), chat)
      ensures Valid() && ViewOf() == old(ViewOf())
      ensures forall ch :: ch in ListOf(ViewOf(), chat) ==>
                ch.slot == if old(ch.slot).None? then Some(data) else old(ch.slot)
    {
      if chat !in fans { return; }
      ghost var v := ViewOf();
      var targets := fans[chat].clients;
      var list := new Channel[|targets|](i requires 0 <= i < |targets| => targets[i]);
      assert list[..] == targets == ListOf(v, chat);
      OfferAll(list, data);
      assert ViewOf() == v;
    }
  }
}

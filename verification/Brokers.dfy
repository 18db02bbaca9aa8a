/** The in-process broker: a map from chats to slices of channels. */
module Brokers {
  import opened Lists
  import opened Messages
  import opened Channels
  import opened Subscribers

  class InMemoryBroker {
    var subs: map<ChatId, Slice>
    /** The copies publishes have taken. */
    ghost var snapshots: set<array<Channel>>

    constructor ()
      ensures Valid() && ViewOf() == map[] && snapshots == {} && Backing() == {}
    {
      subs, snapshots := map[], {};
    }

    ghost function Backing(): set<array<Channel>> reads this {
      set chat | chat in subs :: subs[chat].data
    }

    /** Every list has an array of its own, and no copy shares one. */
    ghost predicate Owned() reads this {
      && (forall chat :: chat in subs ==> Fits(subs[chat]) && subs[chat].data !in snapshots)
      && (forall a, b :: a in subs && b in subs && a != b ==> subs[a].data != subs[b].data)
    }

    ghost function ViewOf(): View<Channel>
      requires Owned()
      reads this, Backing()
    {
      map chat | chat in subs :: Items(subs[chat])
    }

    ghost predicate Valid() reads this, Backing() {
      Owned() && WellKept(ViewOf())
    }

    lemma ViewIs(v: View<Channel>)
      requires Owned() && subs.Keys == v.Keys
      requires forall chat :: chat in subs ==> Items(subs[chat]) == v[chat]
      ensures ViewOf() == v
    {
    }

    /** The copies are what they were. */
    twostate predicate SnapshotsIntact()
      requires old(snapshots) <= snapshots
      reads this, snapshots
    {
      forall list :: list in old(snapshots) ==> list[..] == old(list[..])
    }

    /** A fresh channel at the end of the chat's list. */
    method Subscribe(chat: ChatId) returns (ch: Channel)
      requires Valid()
      modifies this`subs, Backing()
      ensures Valid() && fresh(ch) && ch.slot == None
      ensures ViewOf() == Joined(old(ViewOf()), chat, ch)
      ensures SnapshotsIntact() && fresh(Backing() - old(Backing()))
    {
      ghost var v := ViewOf();
      ch := NewChannel(v);
      JoinedKeeps(v, chat, ch);
      Enlist(chat, ch);
    }

    method Enlist(chat: ChatId, ch: Channel)
      requires Owned()
      modifies this`subs, Backing()
      ensures Owned() && ViewOf() == Joined(old(ViewOf()), chat, ch)
      ensures SnapshotsIntact() && fresh(Backing() - old(Backing()))
    {
      ghost var v := ViewOf();
      var list: Slice;
      if chat in subs {
        list := subs[chat];
      } else {
        list := NewSlice();
      }
      assert Items(list) == ListOf(v, chat);
      list := Append(list, ch);
      subs := subs[chat := list];
      ViewIs(Joined(v, chat, ch));
    }

    method Unsubscribe(chat: ChatId, ch: Channel)
      requires Valid()
      modifies this`subs, Backing()
      ensures Valid()
      ensures ViewOf() == Left(old(ViewOf()), chat, ch)
      ensures SnapshotsIntact() && Backing() <= old(Backing())
    {
      LeftKeeps(ViewOf(), chat, ch);
      Delist(chat, ch);
    }

    method Delist(chat: ChatId, ch: Channel)
      requires Owned()
      modifies this`subs, Backing()
      ensures Owned() && ViewOf() == Left(old(ViewOf()), chat, ch)
      ensures SnapshotsIntact() && Backing() <= old(Backing())
    {
      ghost var v := ViewOf();
      if chat in subs {
        var list := Cut(subs[chat], ch);
        subs := subs[chat := list];
        if list.len == 0 {
          subs := subs - {chat};
        }
      }
      ViewIs(Left(v, chat, ch));
    }

    /** The search and the cut of one channel. */
    static method Cut(list: Slice, ch: Channel) returns (rest: Slice)
      requires Fits(list)
      modifies list.data
      ensures Fits(rest) && rest.data == list.data && Items(rest) == Dropped(old(Items(list)), ch)
    {
      rest := list;
      var i := Find(list, ch);
      if i < list.len {
        DroppedAt(Items(list), ch, i);
        rest := RemoveAt(list, i);
      }
    }

    /** The copy a publish takes under the lock. */
    method Snapshot(chat: ChatId) returns (list: array<Channel>)
      requires Owned()
      modifies this`snapshots
      ensures Owned() && ViewOf() == old(ViewOf()) && fresh(list)
      ensures list[..] == ListOf(ViewOf(), chat) && snapshots == old(snapshots) + {list}
    {
      if chat in subs {
        list := CopyOf(subs[chat]);
      } else {
        list := new Channel[0];
      }
      snapshots := snapshots + {list};
    }

    method Publish(chat: ChatId, data: Payload)
      requires Valid()
      modifies this`snapshots, set ch | ch in ListOf(ViewOf(), chat)
      ensures Valid() && ViewOf() == old(ViewOf())
      ensures forall ch :: ch in ListOf(ViewOf(), chat) ==>
                ch.slot == if old(ch.slot).None? then Some(data) else old(ch.slot)
    {
      ghost var v := ViewOf();
      var list := Snapshot(chat);
      OfferAll(list, data);
      ViewIs(v);
    }
  }
}

/** The subscriber lists of a broker as values, and what they are after any run of calls. */
module Subscribers {
  import opened Lists
  import opened Messages

  type View<C> = map<ChatId, seq<C>>

  function ListOf<C>(v: View<C>, chat: ChatId): seq<C> {
    if chat in v then v[chat] else []
  }

  function Joined<C>(v: View<C>, chat: ChatId, c: C): View<C> {
    v[chat := ListOf(v, chat) + [c]]
  }

  /** The list without its first `c`. */
  function Dropped<C(==)>(list: seq<C>, c: C): (r: seq<C>)
    ensures c !in list ==> r == list
    ensures forall x :: x in r ==> x in list
  {
    if list == [] then [] else if list[0] == c then list[1..] else [list[0]] + Dropped(list[1..], c)
  }

  function Left<C(==)>(v: View<C>, chat: ChatId, c: C): View<C> {
    var rest := Dropped(ListOf(v, chat), c);
    if rest == [] then v - {chat} else v[chat := rest]
  }

  ghost predicate NoRepeats<C>(list: seq<C>) {
    forall i, j {:trigger list[i], list[j]} :: 0 <= i < j < |list| ==> list[i] != list[j]
  }

  /** No empty list is kept, and each channel is once in one chat's list. */
  ghost predicate WellKept<C>(v: View<C>) {
    && (forall chat :: chat in v ==> v[chat] != [] && NoRepeats(v[chat]))
    && (forall a, b, i, j {:trigger v[a][i], v[b][j]} ::
          a in v && b in v && a != b && 0 <= i < |v[a]| && 0 <= j < |v[b]| ==> v[a][i] != v[b][j])
  }

  lemma JoinedKeeps<C>(v: View<C>, chat: ChatId, c: C)
    requires WellKept(v) && forall a :: a in v ==> c !in v[a]
    ensures WellKept(Joined(v, chat, c))
  {
    forall a | a in v ensures forall i :: 0 <= i < |v[a]| ==> v[a][i] != c {
      assert c !in v[a];
    }
  }

  /** Where the dropped channel was: everything before and after stays in place and in order. */
  lemma {:induction false} DroppedAt<C>(list: seq<C>, c: C, i: nat)
    requires i < |list| && list[i] == c && c !in list[..i]
    ensures Dropped(list, c) == list[..i] + list[i + 1..]
  {
    if i > 0 {
      assert list[0] in list[..i];
      assert list[1..][..i - 1] == list[..i][1..];
      DroppedAt(list[1..], c, i - 1);
      assert list[1..][i..] == list[i + 1..];
    }
  }

  lemma FirstPlace<C>(list: seq<C>, c: C) returns (i: nat)
    requires c in list
    ensures i < |list| && list[i] == c && c !in list[..i]
  {
    if list[0] == c {
      i := 0;
    } else {
      i := FirstPlace(list[1..], c);
      i := i + 1;
      assert list[..i] == [list[0]] + list[1..][..i - 1];
    }
  }

  lemma DroppedNoRepeats<C>(list: seq<C>, c: C)
    requires NoRepeats(list)
    ensures NoRepeats(Dropped(list, c)) && c !in Dropped(list, c)
  {
    if c in list {
      var i := FirstPlace(list, c);
      DroppedAt(list, c, i);
    }
  }

  lemma LeftKeeps<C>(v: View<C>, chat: ChatId, c: C)
    requires WellKept(v)
    ensures WellKept(Left(v, chat, c))
    ensures forall other :: other != chat ==> ListOf(Left(v, chat, c), other) == ListOf(v, other)
  {
    var rest := Dropped(ListOf(v, chat), c);
    DroppedNoRepeats(ListOf(v, chat), c);
    forall a, i, j | a in v && a != chat && chat in v && 0 <= i < |v[a]| && 0 <= j < |rest|
      ensures v[a][i] != rest[j]
    {
      assert rest[j] in v[chat];
    }
  }

  // --- runs --------------------------------------------------------------------------------------------

  datatype Call = Subscribe(chat: ChatId, channel: nat) | Unsubscribe(chat: ChatId, channel: nat)

  function After(calls: seq<Call>): View<nat> {
    if calls == [] then map[] else
      var v, last := After(calls[..|calls| - 1]), calls[|calls| - 1];
      match last
      case Subscribe(chat, c) => Joined(v, chat, c)
      case Unsubscribe(chat, c) => Left(v, chat, c)
  }

  /** Every subscription makes a channel nobody has named before. */
  ghost predicate FreshChannels(calls: seq<Call>) {
    forall i, j {:trigger calls[i], calls[j]} ::
      0 <= i < j < |calls| && calls[j].Subscribe? ==> calls[i].channel != calls[j].channel
  }

  /** The channels a chat's subscriptions made, in order. */
  function Opened(calls: seq<Call>, chat: ChatId): seq<nat> {
    if calls == [] then [] else
      var before, last := Opened(calls[..|calls| - 1], chat), calls[|calls| - 1];
      if last.Subscribe? && last.chat == chat then before + [last.channel] else before
  }

  function StillIn(calls: seq<Call>, chat: ChatId): nat -> bool {
    (c: nat) => Unsubscribe(chat, c) !in calls
  }

  /** What a chat's list should be: the channels opened for it and not handed back, oldest first. */
  function Remaining(calls: seq<Call>, chat: ChatId): seq<nat> {
    Filter(Opened(calls, chat), StillIn(calls, chat))
  }

  lemma {:induction false} FilterAgrees<T(!new)>(s: seq<T>, p: T -> bool, q: T -> bool)
    requires forall x :: x in s ==> p(x) == q(x)
    ensures Filter(s, p) == Filter(s, q)
  {
    if s != [] {
      FilterAgrees(s[1..], p, q);
    }
  }

  lemma DroppedCons(head: nat, list: seq<nat>, c: nat)
    ensures Dropped([head] + list, c) == if head == c then list else [head] + Dropped(list, c)
  {
    assert ([head] + list)[1..] == list;
  }

  lemma FilterHead(s: seq<nat>, p: nat -> bool)
    requires s != []
    ensures Filter(s, p) == if p(s[0]) then [s[0]] + Filter(s[1..], p) else Filter(s[1..], p)
  {
  }

  /** Dropping a channel is filtering it out. */
  lemma {:induction false} FilterDrops(s: seq<nat>, p: nat -> bool, q: nat -> bool, c: nat)
    requires NoRepeats(s) && forall x :: x in s ==> (q(x) <==> p(x) && x != c)
    ensures Filter(s, q) == Dropped(Filter(s, p), c)
  {
    if s != [] {
      var head, tail := s[0], s[1..];
      assert head in s && head !in tail;
      FilterDrops(tail, p, q, c);
      DroppedCons(head, Filter(tail, p), c);
      FilterHead(s, p);
      FilterHead(s, q);
    }
  }

  lemma {:induction false} OpenedFacts(calls: seq<Call>, chat: ChatId)
    requires FreshChannels(calls)
    ensures NoRepeats(Opened(calls, chat))
    ensures forall c :: c in Opened(calls, chat) ==> exists k :: 0 <= k < |calls| && calls[k] == Subscribe(chat, c)
  {
    if calls != [] {
      var pre := calls[..|calls| - 1];
      OpenedFacts(pre, chat);
      forall c | c in Opened(calls, chat) ensures exists k :: 0 <= k < |calls| && calls[k] == Subscribe(chat, c) {
        if c in Opened(pre, chat) {
          var k :| 0 <= k < |pre| && pre[k] == Subscribe(chat, c);
          assert calls[k] == Subscribe(chat, c);
        } else {
          assert calls[|calls| - 1] == Subscribe(chat, c);
        }
      }
      forall i | 0 <= i < |Opened(pre, chat)| && calls[|pre|].Subscribe?
        ensures Opened(pre, chat)[i] != calls[|pre|].channel
      {
        assert Opened(pre, chat)[i] in Opened(pre, chat);
        var k :| 0 <= k < |pre| && pre[k] == Subscribe(chat, Opened(pre, chat)[i]);
        assert calls[k] == pre[k];
      }
    }
  }

  lemma RemainingStep(calls: seq<Call>, chat: ChatId)
    requires FreshChannels(calls) && calls != []
    ensures var pre, last := calls[..|calls| - 1], calls[|calls| - 1];
      Remaining(calls, chat) ==
        if last.chat != chat then Remaining(pre, chat)
        else if last.Subscribe? then Remaining(pre, chat) + [last.channel]
        else Dropped(Remaining(pre, chat), last.channel)
  {
    var pre, last := calls[..|calls| - 1], calls[|calls| - 1];
    var made := Opened(pre, chat);
    OpenedFacts(pre, chat);
    assert calls == pre + [last];
    if last == Subscribe(chat, last.channel) {
      assert Unsubscribe(chat, last.channel) !in calls;
      FilterAgrees(made, StillIn(pre, chat), StillIn(calls, chat));
      FilterConcat(made, [last.channel], StillIn(calls, chat));
      assert [last.channel][1..] == [];
    } else if last == Unsubscribe(chat, last.channel) {
      FilterDrops(made, StillIn(pre, chat), StillIn(calls, chat), last.channel);
    } else {
      FilterAgrees(made, StillIn(pre, chat), StillIn(calls, chat));
    }
  }

  /**
   * After any run of subscriptions and unsubscriptions: each chat's list is exactly the channels
   * opened for it and not handed back, in order; a chat without any has no list.
   */
  lemma {:induction false} ListsAreRemaining(calls: seq<Call>)
    requires FreshChannels(calls)
    ensures WellKept(After(calls))
    ensures forall chat :: ListOf(After(calls), chat) == Remaining(calls, chat)
    ensures forall chat :: chat in After(calls) <==> Remaining(calls, chat) != []
    decreases |calls|
  {
    if calls == [] {
      forall chat ensures Remaining(calls, chat) == [] {
      }
    } else {
      var pre, last := calls[..|calls| - 1], calls[|calls| - 1];
      var v := After(pre);
      ListsAreRemaining(pre);
      forall chat ensures ListOf(After(calls), chat) == Remaining(calls, chat) {
        RemainingStep(calls, chat);
        assert ListOf(v, chat) == Remaining(pre, chat);
      }
      if last.Subscribe? {
        forall a | a in v ensures last.channel !in v[a] {
          OpenedFacts(pre, a);
          assert v[a] == Remaining(pre, a);
          assert forall k :: 0 <= k < |pre| ==> calls[k] == pre[k];
        }
        JoinedKeeps(v, last.chat, last.channel);
      } else {
        LeftKeeps(v, last.chat, last.channel);
      }
    }
  }
}

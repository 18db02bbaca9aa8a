/** The presence set of a chat against the history of heartbeats and leaves. */
module Presence {
  import opened Lists
  import opened Messages
  import opened ZSets

  // Times are whole seconds.
  const ONLINE_TTL := 60
  const KEY_TTL := 70

  datatype Event = Beat(user: UserId, at: int) | Leave(user: UserId, at: int)

  /** The user's last heartbeat, unless a leave came after it. */
  function LastSeen(events: seq<Event>, user: UserId): Option<int> {
    if events == [] then None else
      var last := events[|events| - 1];
      if last.user != user then LastSeen(events[..|events| - 1], user)
      else if last.Beat? then Some(last.at)
      else None
  }

  function Users(events: seq<Event>): set<UserId> { set e | e in events :: e.user }

  /** Who was last seen after `since`. */
  function SeenAfter(events: seq<Event>, since: int): set<UserId> {
    set u | u in Users(events) && LastSeen(events, u).Some? && LastSeen(events, u).value > since
  }

  predicate Clock(events: seq<Event>) {
    events == [] ||
      var pre, last := events[..|events| - 1], events[|events| - 1];
      Clock(pre) && (pre != [] ==> pre[|pre| - 1].at <= last.at)
  }

  predicate BeatAt(events: seq<Event>, now: int) {
    exists e :: e in events && e.Beat? && e.at == now
  }

  /** The last second from which nothing within a minute has been cut off: a heartbeat at `now` has cut the set then. */
  function Moment(events: seq<Event>, now: int): int {
    if BeatAt(events, now) then now else now - 1
  }

  lemma {:induction false} NoLaterEvent(events: seq<Event>, now: int)
    requires Clock(events) && (events != [] ==> events[|events| - 1].at <= now)
    ensures forall e :: e in events ==> e.at <= now
  {
    if events != [] {
      var pre, last := events[..|events| - 1], events[|events| - 1];
      NoLaterEvent(pre, now);
      assert events == pre + [last];
    }
  }

  datatype Key = Key(entries: ZSet<UserId>, deadline: int)

  /** What a command finds at `now`; `expiring` says whether the key's lifetime is enforced. */
  function Stored(key: Option<Key>, now: int, expiring: bool): ZSet<UserId> {
    if key.None? || (expiring && key.value.deadline <= now) then [] else key.value.entries
  }

  /** ZADD, ZREMRANGEBYSCORE and EXPIRE of a heartbeat. */
  function Beaten(key: Option<Key>, user: UserId, now: int, expiring: bool): Key {
    Key(ZRemUpTo(ZAdd(Stored(key, now, expiring), now, user), now - ONLINE_TTL), now + KEY_TTL)
  }

  function Gone(key: Option<Key>, user: UserId, now: int, expiring: bool): Option<Key> {
    if key.None? then None else Some(Key(ZRem(Stored(key, now, expiring), user), key.value.deadline))
  }

  function Step(key: Option<Key>, e: Event, expiring: bool): Option<Key> {
    if e.Beat? then Some(Beaten(key, e.user, e.at, expiring)) else Gone(key, e.user, e.at, expiring)
  }

  function After(events: seq<Event>, expiring: bool): Option<Key> {
    if events == [] then None else Step(After(events[..|events| - 1], expiring), events[|events| - 1], expiring)
  }

  lemma {:induction false} SeenInOrder(events: seq<Event>, user: UserId)
    requires Clock(events)
    ensures LastSeen(events, user).Some? ==>
      events != [] && LastSeen(events, user).value <= events[|events| - 1].at && user in Users(events)
  {
    if events != [] {
      SeenInOrder(events[..|events| - 1], user);
    }
  }

  /** Entries are last heartbeats, and none of the last minute before `now` is missing. */
  ghost predicate Tracks(z: ZSet<UserId>, events: seq<Event>, now: int) {
    && Valid(z)
    && (forall e :: e in z ==> LastSeen(events, e.member) == Some(e.score))
    && forall u: UserId {:trigger LastSeen(events, u)} ::
         LastSeen(events, u).Some? && LastSeen(events, u).value > now - ONLINE_TTL ==>
           Scored(LastSeen(events, u).value, u) in z
  }

  /** An entry's deadline is seventy seconds after a heartbeat no earlier than it. */
  ghost predicate Deadline(key: Option<Key>) {
    key.Some? ==> forall e :: e in key.value.entries ==> e.score + KEY_TTL <= key.value.deadline
  }

  lemma SeenNext(events: seq<Event>, e: Event, u: UserId)
    ensures LastSeen(events + [e], u) ==
      if u != e.user then LastSeen(events, u) else if e.Beat? then Some(e.at) else None
  {
    assert (events + [e])[..|events|] == events;
  }

  /** The entries a heartbeat leaves: its own and the others' of the last minute. */
  ghost predicate BeatLeaves(z: ZSet<UserId>, user: UserId, now: int, after: ZSet<UserId>) {
    Valid(after) && forall e: Scored<UserId> ::
      e in after <==> (e == Scored(now, user) || (e in z && e.member != user)) && e.score > now - ONLINE_TTL
  }

  lemma BeatEntries(z: ZSet<UserId>, user: UserId, now: int)
    requires Valid(z)
    ensures BeatLeaves(z, user, now, ZRemUpTo(ZAdd(z, now, user), now - ONLINE_TTL))
  {
    ZAddValid(z, now, user);
    RemovalsValid(ZAdd(z, now, user), user, now - ONLINE_TTL);
  }

  lemma BeatTracks(z: ZSet<UserId>, after: ZSet<UserId>, events: seq<Event>, user: UserId, now: int)
    requires Tracks(z, events, now) && Clock(events) && (events != [] ==> events[|events| - 1].at <= now)
    requires BeatLeaves(z, user, now, after)
    ensures Tracks(after, events + [Beat(user, now)], now)
    ensures forall e :: e in after ==> now - ONLINE_TTL < e.score <= now
  {
    forall u: UserId
      ensures LastSeen(events + [Beat(user, now)], u) == if u == user then Some(now) else LastSeen(events, u)
    {
      SeenNext(events, Beat(user, now), u);
    }
    forall e | e in after ensures e.score <= now {
      SeenInOrder(events, e.member);
    }
  }

  lemma LeaveTracks(z: ZSet<UserId>, events: seq<Event>, user: UserId, now: int, moment: int)
    requires Tracks(z, events, moment)
    ensures Tracks(ZRem(z, user), events + [Leave(user, now)], moment)
  {
    RemovalsValid(z, user, now);
    forall u: UserId
      ensures LastSeen(events + [Leave(user, now)], u) == if u == user then None else LastSeen(events, u)
    {
      SeenNext(events, Leave(user, now), u);
    }
  }

  function Entries(key: Option<Key>): ZSet<UserId> { if key.Some? then key.value.entries else [] }

  /** What a command finds at `now`: a heartbeat in the same second has also cut what is a minute old. */
  ghost predicate Found(z: ZSet<UserId>, events: seq<Event>, now: int) {
    && Tracks(z, events, Moment(events, now))
    && (BeatAt(events, now) ==> forall e :: e in z ==> e.score > now - ONLINE_TTL)
  }

  /** The key as the history left it. */
  ghost predicate Kept(key: Option<Key>, events: seq<Event>) {
    && Deadline(key)
    && if events == [] then key.None? else Found(Entries(key), events, events[|events| - 1].at)
  }

  lemma KeptFound(key: Option<Key>, events: seq<Event>, now: int, expiring: bool)
    requires Kept(key, events) && Clock(events) && (events != [] ==> events[|events| - 1].at <= now)
    ensures Found(Stored(key, now, expiring), events, now)
  {
    if events != [] {
      var last := events[|events| - 1].at;
      NoLaterEvent(events, last);
      assert Tracks(Entries(key), events, Moment(events, now));
    }
  }

  lemma BeatKept(key: Option<Key>, next: Key, events: seq<Event>, user: UserId, now: int, expiring: bool)
    requires Kept(key, events) && Clock(events) && (events != [] ==> events[|events| - 1].at <= now)
    requires next.deadline == now + KEY_TTL && BeatLeaves(Stored(key, now, expiring), user, now, next.entries)
    ensures Kept(Some(next), events + [Beat(user, now)])
  {
    KeptFound(key, events, now, expiring);
    BeatTracks(Stored(key, now, expiring), next.entries, events, user, now);
    assert BeatAt(events + [Beat(user, now)], now) by {
      assert Beat(user, now) in events + [Beat(user, now)];
    }
  }

  lemma LeaveKept(key: Option<Key>, events: seq<Event>, user: UserId, now: int, expiring: bool)
    requires Kept(key, events) && Clock(events) && (events != [] ==> events[|events| - 1].at <= now)
    ensures Kept(Gone(key, user, now, expiring), events + [Leave(user, now)])
  {
    var after := events + [Leave(user, now)];
    KeptFound(key, events, now, expiring);
    LeaveTracks(Stored(key, now, expiring), events, user, now, Moment(events, now));
    assert BeatAt(after, now) <==> BeatAt(events, now) by {
      assert forall e :: e in after && e.Beat? ==> e in events;
    }
  }

  lemma BeatenKept(key: Option<Key>, events: seq<Event>, user: UserId, now: int, expiring: bool)
    requires Kept(key, events) && Clock(events) && (events != [] ==> events[|events| - 1].at <= now)
    ensures Kept(Some(Beaten(key, user, now, expiring)), events + [Beat(user, now)])
  {
    assert Valid(Stored(key, now, expiring)) by { KeptFound(key, events, now, expiring); }
    BeatEntries(Stored(key, now, expiring), user, now);
    BeatKept(key, Beaten(key, user, now, expiring), events, user, now, expiring);
  }

  lemma StepKept(key: Option<Key>, events: seq<Event>, e: Event, expiring: bool)
    requires Kept(key, events) && Clock(events) && (events != [] ==> events[|events| - 1].at <= e.at)
    ensures Kept(Step(key, e, expiring), events + [e])
  {
    match e
    case Beat(user, at) => BeatenKept(key, events, user, at, expiring);
    case Leave(user, at) => LeaveKept(key, events, user, at, expiring);
  }

  lemma {:induction false} AfterKept(events: seq<Event>, expiring: bool)
    requires Clock(events)
    ensures Kept(After(events, expiring), events)
    decreases |events|
  {
    if events != [] {
      var pre, last := events[..|events| - 1], events[|events| - 1];
      var key := After(pre, expiring);
      assert events == pre + [last];
      assert After(events, expiring) == Step(key, last, expiring);
      AfterKept(pre, expiring);
      StepKept(key, pre, last, expiring);
    }
  }

  /** The entries of the last minute are the users last seen in it. */
  lemma TrackedCount(z: ZSet<UserId>, events: seq<Event>, now: int, since: int)
    requires Tracks(z, events, now) && Clock(events) && since >= now - ONLINE_TTL
    requires forall e :: e in z ==> e.score > since
    ensures |z| == |SeenAfter(events, since)|
  {
    CountMembers(z);
    forall u: UserId ensures u in Members(z) <==> u in SeenAfter(events, since) {
      SeenInOrder(events, u);
      if u in SeenAfter(events, since) {
        assert Scored(LastSeen(events, u).value, u) in z;
      }
    }
    assert Members(z) == SeenAfter(events, since);
  }

  /**
   * The count a heartbeat returns is the number of distinct users whose last heartbeat lies in the
   * last sixty seconds with no later leave, whether or not the key's expiry is enforced.
   */
  lemma HeartbeatCounts(events: seq<Event>, user: UserId, now: int, expiring: bool)
    requires Clock(events + [Beat(user, now)])
    ensures var key := Beaten(After(events, expiring), user, now, expiring);
      ZCount(key.entries, now - ONLINE_TTL) == |SeenAfter(events + [Beat(user, now)], now - 60)|
  {
    assert (events + [Beat(user, now)])[..|events|] == events;
    AfterKept(events, expiring);
    var key := After(events, expiring);
    var z, after := Stored(key, now, expiring), Beaten(key, user, now, expiring).entries;
    KeptFound(key, events, now, expiring);
    BeatEntries(z, user, now);
    BeatCounts(z, after, events, user, now);
  }

  lemma BeatCounts(z: ZSet<UserId>, after: ZSet<UserId>, events: seq<Event>, user: UserId, now: int)
    requires Tracks(z, events, now) && BeatLeaves(z, user, now, after) && Clock(events + [Beat(user, now)])
    ensures ZCount(after, now - ONLINE_TTL) == |SeenAfter(events + [Beat(user, now)], now - ONLINE_TTL)|
  {
    assert (events + [Beat(user, now)])[..|events|] == events;
    BeatTracks(z, after, events, user, now);
    CountAll(after, now - ONLINE_TTL);
    TrackedCount(after, events + [Beat(user, now)], now, now - ONLINE_TTL);
  }

  /**
   * The count endpoint also counts a user seen exactly sixty seconds ago, unless a heartbeat came in
   * the very second of the question: that one has cut off what was a minute old.
   */
  lemma OnlineCounts(events: seq<Event>, now: int, expiring: bool)
    requires Clock(events) && (events != [] ==> events[|events| - 1].at <= now)
    ensures ZCount(Stored(After(events, expiring), now, expiring), now - ONLINE_TTL)
      == |SeenAfter(events, if BeatAt(events, now) then now - 60 else now - 61)|
  {
    AfterKept(events, expiring);
    KeptFound(After(events, expiring), events, now, expiring);
    FoundCounts(Stored(After(events, expiring), now, expiring), events, now);
  }

  lemma FoundCounts(z: ZSet<UserId>, events: seq<Event>, now: int)
    requires Found(z, events, now) && Clock(events)
    ensures ZCount(z, now - ONLINE_TTL) == |SeenAfter(events, Moment(events, now) - ONLINE_TTL)|
  {
    CountFrom(z, now - ONLINE_TTL);
    RemovalsValid(z, 0, now - ONLINE_TTL - 1);
    RestCounts(z, ZRemUpTo(z, now - ONLINE_TTL - 1), events, now);
  }

  lemma RestCounts(z: ZSet<UserId>, rest: ZSet<UserId>, events: seq<Event>, now: int)
    requires Found(z, events, now) && Clock(events) && Valid(rest)
    requires forall e :: e in rest <==> e in z && e.score > now - ONLINE_TTL - 1
    ensures |rest| == |SeenAfter(events, Moment(events, now) - ONLINE_TTL)|
  {
    assert Tracks(rest, events, Moment(events, now));
    TrackedCount(rest, events, Moment(events, now), Moment(events, now) - ONLINE_TTL);
  }

  /** Leaving takes the user out of every count. */
  lemma LeaveForgets(events: seq<Event>, user: UserId, now: int, since: int)
    ensures SeenAfter(events + [Leave(user, now)], since) == SeenAfter(events, since) - {user}
  {
    var after := events + [Leave(user, now)];
    assert Users(after) == Users(events) + {user};
    forall u ensures u in SeenAfter(after, since) <==> u in SeenAfter(events, since) && u != user {
      SeenNext(events, Leave(user, now), u);
    }
  }

  class OnlineHandler {
    var key: Option<Key>
    ghost var events: seq<Event>

    constructor ()
      ensures Valid() && events == []
    {
      key, events := None, [];
    }

    ghost predicate Valid() reads this {
      Clock(events) && key == After(events, true)
    }

    method Heartbeat(user: UserId, now: int) returns (count: nat)
      requires Valid() && (events != [] ==> events[|events| - 1].at <= now)
      modifies this
      ensures Valid() && events == old(events) + [Beat(user, now)]
      ensures count == |SeenAfter(events, now - 60)|
    {
      Extended(events, Beat(user, now));
      HeartbeatCounts(events, user, now, true);
      var entries := ZAdd(Stored(key, now, true), now, user);
      entries := ZRemUpTo(entries, now - ONLINE_TTL);
      key := Some(Key(entries, now + KEY_TTL));
      count := ZCount(entries, now - ONLINE_TTL);
      events := events + [Beat(user, now)];
    }

    method Leave(user: UserId, now: int)
      requires Valid() && (events != [] ==> events[|events| - 1].at <= now)
      modifies this
      ensures Valid() && events == old(events) + [Event.Leave(user, now)]
      ensures forall since :: SeenAfter(events, since) == SeenAfter(old(events), since) - {user}
    {
      forall since ensures SeenAfter(events + [Event.Leave(user, now)], since) == SeenAfter(events, since) - {user} {
        LeaveForgets(events, user, now, since);
      }
      Extended(events, Event.Leave(user, now));
      if key.Some? {
        key := Some(Key(ZRem(Stored(key, now, true), user), key.value.deadline));
      }
      events := events + [Event.Leave(user, now)];
    }

    method OnlineCount(now: int) returns (count: nat)
      requires Valid() && (events != [] ==> events[|events| - 1].at <= now)
      ensures count == |SeenAfter(events, if BeatAt(events, now) then now - 60 else now - 61)|
    {
      OnlineCounts(events, now, true);
      count := ZCount(Stored(key, now, true), now - ONLINE_TTL);
    }
  }

  lemma Extended(events: seq<Event>, e: Event)
    requires Clock(events) && (events != [] ==> events[|events| - 1].at <= e.at)
    ensures Clock(events + [e]) && (events + [e])[..|events|] == events
    ensures After(events + [e], true) == Step(After(events, true), e, true)
  {
    assert (events + [e])[..|events|] == events;
  }
}

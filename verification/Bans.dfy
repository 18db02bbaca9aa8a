/** The ban table and its Redis key: when the fast check and the table give the same answer. */
module Bans {
  import opened Lists
  import opened Messages

  // Times are milliseconds.
  const DAY := 86_400_000
  const SECOND := 1_000

  type BanId = nat

  datatype Person = Person(event: nat, user: UserId)

  datatype Ban = Ban(id: BanId, who: Person, expiresAt: Option<int>)

  /** How long something holds: not at all, up to a moment, or for good. */
  datatype Until = Never | At(time: int) | Forever

  predicate Lasts(u: Until, now: int) {
    u.Forever? || (u.At? && now < u.time)
  }

  function Later(a: Until, b: Until): Until {
    if a.Forever? || b.Forever? then Forever
    else if a.Never? then b
    else if b.Never? then a
    else At(Max(a.time, b.time))
  }

  function ExpiryOf(e: Option<int>): Until { if e.None? then Forever else At(e.value) }

  /** The bans table and the ban keys. */
  datatype Store = Store(rows: seq<Ban>, keys: map<Person, Until>)

  function KeyOf(s: Store, who: Person): Until {
    if who in s.keys then s.keys[who] else Never
  }

  predicate Bites(b: Ban, who: Person, now: int) {
    b.who == who && (b.expiresAt.None? || b.expiresAt.value > now)
  }

  /** SELECT COUNT(*) of the unexpired bans. */
  function CountActive(rows: seq<Ban>, who: Person, now: int): nat {
    if rows == [] then 0 else (if Bites(rows[0], who, now) then 1 else 0) + CountActive(rows[1..], who, now)
  }

  predicate IsUserBanned(rows: seq<Ban>, who: Person, now: int) {
    CountActive(rows, who, now) > 0
  }

  function IndexOfBan(rows: seq<Ban>, id: BanId): (i: int)
    ensures -1 <= i < |rows|
    ensures i >= 0 ==> rows[i].id == id
    ensures i < 0 ==> forall b :: b in rows ==> b.id != id
  {
    if rows == [] then -1
    else if rows[|rows| - 1].id == id then |rows| - 1
    else IndexOfBan(rows[..|rows| - 1], id)
  }

  /** The lifetime given to the key of a new ban. */
  function TimeToLive(expiresAt: Option<int>, now: int): int {
    if expiresAt.None? then DAY
    else if expiresAt.value - now <= 0 then SECOND
    else expiresAt.value - now
  }

  function Create(s: Store, id: BanId, who: Person, expiresAt: Option<int>, now: int): Store {
    Store(s.rows + [Ban(id, who, expiresAt)], s.keys[who := At(now + TimeToLive(expiresAt, now))])
  }

  function Unban(s: Store, id: BanId): Store {
    var i := IndexOfBan(s.rows, id);
    if i < 0 then s else Store(s.rows[..i] + s.rows[i + 1..], s.keys - {s.rows[i].who})
  }

  /** The answer of the check. */
  predicate Check(s: Store, who: Person, now: int) {
    Lasts(KeyOf(s, who), now) || IsUserBanned(s.rows, who, now)
  }

  /** The check's trace: a miss that the table overrules leaves a key without expiry. */
  function Checked(s: Store, who: Person, now: int): Store {
    if Lasts(KeyOf(s, who), now) || !IsUserBanned(s.rows, who, now) then s
    else s.(keys := s.keys[who := Forever])
  }

  // --- the table over time -----------------------------------------------------------------------------

  /** When the last of a person's bans runs out. */
  function Sentence(rows: seq<Ban>, who: Person): Until {
    if rows == [] then Never
    else if rows[0].who == who then Later(ExpiryOf(rows[0].expiresAt), Sentence(rows[1..], who))
    else Sentence(rows[1..], who)
  }

  /** The table says banned exactly until the last ban runs out. */
  lemma {:induction false} BannedUntil(rows: seq<Ban>, who: Person, now: int)
    ensures IsUserBanned(rows, who, now) <==> Lasts(Sentence(rows, who), now)
    ensures IsUserBanned(rows, who, now) <==> exists b :: b in rows && Bites(b, who, now)
  {
    if rows != [] {
      BannedUntil(rows[1..], who, now);
      assert rows == [rows[0]] + rows[1..];
    }
  }

  lemma {:induction false} SentenceConcat(a: seq<Ban>, b: seq<Ban>, who: Person)
    ensures Sentence(a + b, who) == Later(Sentence(a, who), Sentence(b, who))
  {
    if a == [] {
      assert a + b == b;
    } else {
      assert (a + b)[1..] == a[1..] + b;
      SentenceConcat(a[1..], b, who);
    }
  }

  /** With no limit on rows: an unexpired ban is never let through. */
  lemma NeverLetThrough(s: Store, b: Ban, now: int)
    requires b in s.rows && Bites(b, b.who, now)
    ensures Check(s, b.who, now)
  {
    BannedUntil(s.rows, b.who, now);
  }

  // --- agreement -----------------------------------------------------------------------------------------

  /**
   * The key runs out with the last ban; it may do anything under a ban without end, and is gone when
   * no ban is in force.
   */
  predicate Tight(s: Store, who: Person, now: int) {
    var sentence, key := Sentence(s.rows, who), KeyOf(s, who);
    if sentence.Forever? then true
    else if Lasts(sentence, now) then key == sentence
    else !Lasts(key, now)
  }

  predicate InOrder(times: seq<int>, now: int) {
    times == [] || (now <= times[0] && InOrder(times[1..], times[0]))
  }

  /** Every check of `who` at these times answers what the table says. */
  predicate AllAgree(s: Store, who: Person, times: seq<int>)
    decreases |times|
  {
    times == [] ||
      (Check(s, who, times[0]) == IsUserBanned(s.rows, who, times[0])
       && AllAgree(Checked(s, who, times[0]), who, times[1..]))
  }

  lemma TimePasses(s: Store, who: Person, now: int, later: int)
    requires Tight(s, who, now) && now <= later
    ensures Tight(s, who, later)
  {
  }

  lemma TightAgrees(s: Store, who: Person, other: Person, now: int)
    requires Tight(s, who, now)
    ensures Check(s, who, now) == IsUserBanned(s.rows, who, now)
    ensures Tight(Checked(s, other, now), who, now)
  {
    BannedUntil(s.rows, who, now);
    BannedUntil(s.rows, other, now);
  }

  lemma {:induction false} TightAgreesLater(s: Store, who: Person, now: int, times: seq<int>)
    requires Tight(s, who, now) && InOrder(times, now)
    ensures AllAgree(s, who, times)
    decreases |times|
  {
    if times != [] {
      TimePasses(s, who, now, times[0]);
      TightAgrees(s, who, who, times[0]);
      TightAgreesLater(Checked(s, who, times[0]), who, times[0], times[1..]);
    }
  }

  /** Checks that catch a loose key. */
  function Witness(s: Store, who: Person, now: int): seq<int> {
    var sentence, key := Sentence(s.rows, who), KeyOf(s, who);
    if !sentence.At? || sentence.time <= now then [now]
    else if Lasts(key, sentence.time) then [sentence.time]
    else [if key.At? && key.time > now then key.time else now, sentence.time]
  }

  lemma LooseDisagrees(s: Store, who: Person, now: int)
    requires !Tight(s, who, now)
    ensures InOrder(Witness(s, who, now), now) && !AllAgree(s, who, Witness(s, who, now))
  {
    var times := Witness(s, who, now);
    BannedUntil(s.rows, who, times[0]);
    if |times| == 2 {
      BannedUntil(s.rows, who, times[1]);
      assert times[1..] == [times[1]];
      assert Checked(s, who, times[0]).rows == s.rows;
      assert InOrder(times[1..], times[0]);
      assert !AllAgree(Checked(s, who, times[0]), who, times[1..]);
    }
  }

  /**
   * However often and whenever it is asked from now on, the check answers what the table says:
   * exactly when the key is tight.
   */
  lemma AgreesForeverExactly(s: Store, who: Person, now: int)
    ensures (forall times :: InOrder(times, now) ==> AllAgree(s, who, times)) <==> Tight(s, who, now)
  {
    if Tight(s, who, now) {
      forall times | InOrder(times, now) ensures AllAgree(s, who, times) {
        TightAgreesLater(s, who, now, times);
      }
    } else {
      LooseDisagrees(s, who, now);
    }
  }

  /** Creating a ban keeps the key tight exactly when the new ban outlasts the others, or some ban has no end. */
  lemma CreateKeepsTightExactly(s: Store, id: BanId, who: Person, expiresAt: Option<int>, now: int)
    requires Tight(s, who, now)
    ensures Tight(Create(s, id, who, expiresAt, now), who, now) <==>
      var before := Sentence(s.rows, who);
      || expiresAt.None? || before.Forever?
      || (expiresAt.value > now && !Lasts(before, expiresAt.value))
      || (expiresAt.value <= now && before == At(now + SECOND))
  {
    SentenceConcat(s.rows, [Ban(id, who, expiresAt)], who);
    assert Sentence([Ban(id, who, expiresAt)], who) == ExpiryOf(expiresAt);
  }

  /** Lifting a ban keeps the key tight exactly when no ban with an end is left as the last in force. */
  lemma UnbanKeepsTightExactly(s: Store, id: BanId, now: int)
    requires IndexOfBan(s.rows, id) >= 0
    ensures var who := s.rows[IndexOfBan(s.rows, id)].who; var left := Sentence(Unban(s, id).rows, who);
      Tight(Unban(s, id), who, now) <==> left.Forever? || !Lasts(left, now)
  {
  }

  lemma OthersKeepTight(s: Store, id: BanId, who: Person, expiresAt: Option<int>, other: Person, now: int)
    requires Tight(s, other, now) && other != who
    ensures Tight(Create(s, id, who, expiresAt, now), other, now)
  {
    SentenceConcat(s.rows, [Ban(id, who, expiresAt)], other);
    assert Sentence([Ban(id, who, expiresAt)], other) == Never;
  }

  lemma UnbanOthersKeepTight(s: Store, id: BanId, other: Person, now: int)
    requires Tight(s, other, now) && IndexOfBan(s.rows, id) >= 0 && s.rows[IndexOfBan(s.rows, id)].who != other
    ensures Tight(Unban(s, id), other, now)
  {
    SentenceWithout(s.rows, IndexOfBan(s.rows, id), other);
  }

  lemma SentenceWithout(rows: seq<Ban>, i: nat, who: Person)
    requires i < |rows|
    ensures Sentence(rows, who) == Later(Sentence(rows[..i] + rows[i + 1..], who), Sentence([rows[i]], who))
  {
    assert rows == rows[..i] + ([rows[i]] + rows[i + 1..]);
    SentenceConcat(rows[..i], [rows[i]] + rows[i + 1..], who);
    SentenceConcat([rows[i]], rows[i + 1..], who);
    SentenceConcat(rows[..i], rows[i + 1..], who);
  }

  // --- whom a ban concerns -----------------------------------------------------------------------------

  /** A new ban adds to its own person's bans, until it runs out, and to nobody else's. */
  lemma CreateConcerns(s: Store, id: BanId, who: Person, expiresAt: Option<int>, now: int, other: Person, t: int)
    ensures var after := Create(s, id, who, expiresAt, now);
      && (IsUserBanned(after.rows, other, t) <==>
            IsUserBanned(s.rows, other, t) || (other == who && (expiresAt.None? || t < expiresAt.value)))
      && (other != who ==> Check(after, other, t) == Check(s, other, t))
  {
    var b := Ban(id, who, expiresAt);
    BannedUntil(s.rows, other, t);
    BannedUntil(s.rows + [b], other, t);
    assert b in s.rows + [b];
  }

  /**
   * Lifting a ban: everyone else is as banned as before, at every moment, by table and by check; the
   * person stays banned exactly under another ban, and the check says so at once.
   */
  lemma UnbanConcerns(s: Store, i: nat, other: Person, t: int)
    requires i < |s.rows| && IndexOfBan(s.rows, s.rows[i].id) == i
    ensures var after := Unban(s, s.rows[i].id);
      && (other != s.rows[i].who ==>
            && IsUserBanned(after.rows, other, t) == IsUserBanned(s.rows, other, t)
            && Check(after, other, t) == Check(s, other, t))
      && (other == s.rows[i].who ==>
            (Check(after, other, t) <==>
             exists k :: 0 <= k < |s.rows| && k != i && s.rows[k].who == other
                      && (s.rows[k].expiresAt.None? || t < s.rows[k].expiresAt.value)))
  {
    var after := Unban(s, s.rows[i].id);
    BannedUntil(s.rows, other, t);
    BannedUntil(after.rows, other, t);
    LeftBites(s.rows, i, other, t);
  }

  /** Who is still banned by the rows around row `i`. */
  lemma LeftBites(rows: seq<Ban>, i: nat, who: Person, t: int)
    requires i < |rows|
    ensures (exists b :: b in rows[..i] + rows[i + 1..] && Bites(b, who, t)) <==>
              exists k :: 0 <= k < |rows| && k != i && Bites(rows[k], who, t)
  {
    var left := rows[..i] + rows[i + 1..];
    if b :| b in left && Bites(b, who, t) {
      var j :| 0 <= j < |left| && left[j] == b;
      assert left[j] == rows[if j < i then j else j + 1];
    }
    if k :| 0 <= k < |rows| && k != i && Bites(rows[k], who, t) {
      assert left[if k < i then k else k - 1] == rows[k];
    }
  }

  // --- runs ------------------------------------------------------------------------------------------------

  datatype Op =
    | DoCreate(id: BanId, who: Person, expiresAt: Option<int>, at: int)
    | DoUnban(id: BanId, at: int)
    | DoCheck(who: Person, at: int)

  function Do(s: Store, op: Op): Store {
    match op
    case DoCreate(id, who, expiresAt, at) => Create(s, id, who, expiresAt, at)
    case DoUnban(id, _) => Unban(s, id)
    case DoCheck(who, at) => Checked(s, who, at)
  }

  /** One ban row per person at a time, with an expiry in the future when it has one. */
  predicate Allowed(s: Store, op: Op) {
    op.DoCreate? ==>
      && (forall b :: b in s.rows ==> b.who != op.who)
      && (op.expiresAt.Some? ==> op.expiresAt.value > op.at)
  }

  predicate AllAllowed(s: Store, ops: seq<Op>, now: int)
    decreases |ops|
  {
    ops == [] || (now <= ops[0].at && Allowed(s, ops[0]) && AllAllowed(Do(s, ops[0]), ops[1..], ops[0].at))
  }

  /** Every check of the run answers what the table says at its time. */
  predicate AllCorrect(s: Store, ops: seq<Op>)
    decreases |ops|
  {
    ops == [] ||
      ((ops[0].DoCheck? ==> Check(s, ops[0].who, ops[0].at) == IsUserBanned(s.rows, ops[0].who, ops[0].at))
       && AllCorrect(Do(s, ops[0]), ops[1..]))
  }

  ghost predicate OneRowEach(rows: seq<Ban>) {
    forall i, j {:trigger rows[i].who, rows[j].who} :: 0 <= i < j < |rows| ==> rows[i].who != rows[j].who
  }

  ghost predicate AllTight(s: Store, now: int) {
    OneRowEach(s.rows) && forall who :: Tight(s, who, now)
  }

  lemma {:induction false} NoRowNoSentence(rows: seq<Ban>, who: Person)
    requires forall b :: b in rows ==> b.who != who
    ensures Sentence(rows, who) == Never
  {
    if rows != [] {
      assert rows[0] in rows;
      NoRowNoSentence(rows[1..], who);
    }
  }

  lemma UnbanTight(s: Store, id: BanId, now: int)
    requires AllTight(s, now)
    ensures AllTight(Unban(s, id), now)
  {
    var i := IndexOfBan(s.rows, id);
    if i >= 0 {
      var left := s.rows[..i] + s.rows[i + 1..];
      forall b | b in left ensures b.who != s.rows[i].who {
        var k :| 0 <= k < |left| && left[k] == b;
        assert left[k] == if k < i then s.rows[k] else s.rows[k + 1];
      }
      NoRowNoSentence(left, s.rows[i].who);
      UnbanKeepsTightExactly(s, id, now);
      forall who ensures Tight(Unban(s, id), who, now) {
        if who != s.rows[i].who {
          UnbanOthersKeepTight(s, id, who, now);
        }
      }
    }
  }

  lemma CreateTight(s: Store, id: BanId, who: Person, expiresAt: Option<int>, now: int)
    requires AllTight(s, now) && Allowed(s, DoCreate(id, who, expiresAt, now))
    ensures AllTight(Create(s, id, who, expiresAt, now), now)
  {
    NoRowNoSentence(s.rows, who);
    CreateKeepsTightExactly(s, id, who, expiresAt, now);
    forall other ensures Tight(Create(s, id, who, expiresAt, now), other, now) {
      if other != who {
        OthersKeepTight(s, id, who, expiresAt, other, now);
      }
    }
    assert forall k :: 0 <= k < |s.rows| ==> s.rows[k] in s.rows;
  }

  lemma {:induction false} AgreesFrom(s: Store, ops: seq<Op>, now: int)
    requires AllTight(s, now) && AllAllowed(s, ops, now)
    ensures AllCorrect(s, ops)
    decreases |ops|
  {
    if ops != [] {
      var op := ops[0];
      forall who ensures Tight(s, who, op.at) {
        TimePasses(s, who, now, op.at);
      }
      match op {
        case DoCreate(id, who, expiresAt, at) => CreateTight(s, id, who, expiresAt, at);
        case DoUnban(id, at) => UnbanTight(s, id, at);
        case DoCheck(who, at) =>
          forall other ensures Tight(Checked(s, who, at), other, at) {
            TightAgrees(s, other, who, at);
          }
          TightAgrees(s, who, who, at);
      }
      AgreesFrom(Do(s, op), ops[1..], op.at);
    }
  }

  /** In every run with one ban row per person at a time, the check agrees with the table at every moment. */
  lemma CacheAgrees(ops: seq<Op>, now: int)
    requires AllAllowed(Store([], map[]), ops, now)
    ensures AllCorrect(Store([], map[]), ops)
  {
    AgreesFrom(Store([], map[]), ops, now);
  }

  /** Two rows break it: after one is lifted, a check under the other leaves a key that outlives every ban. */
  lemma TwoRowsGoStale(who: Person, now: int)
    requires now >= 1_000
    ensures var s0 := Store([], map[]);
      var s1 := Create(s0, 1, who, Some(1_000), 0);
      var s2 := Create(s1, 2, who, Some(2_000), 1);
      var s3 := Unban(s2, 2);
      var s4 := Checked(s3, who, 3);
      Check(s4, who, now) && !IsUserBanned(s4.rows, who, now)
  {
    var s3 := Unban(Create(Create(Store([], map[]), 1, who, Some(1_000), 0), 2, who, Some(2_000), 1), 2);
    assert s3.rows == [Ban(1, who, Some(1_000))];
    BannedUntil(s3.rows, who, 3);
    BannedUntil(s3.rows, who, now);
    assert Sentence(s3.rows, who) == At(1_000);
    assert KeyOf(s3, who) == Never;
  }

  // --- the services ------------------------------------------------------------------------------------------

  class BanServices {
    var rows: seq<Ban>
    var keys: map<Person, Until>

    constructor ()
      ensures StoreOf() == Store([], map[])
    {
      rows, keys := [], map[];
    }

    function StoreOf(): Store reads this { Store(rows, keys) }

    /** The keys of everyone but `who` are what they were. */
    twostate predicate OtherKeysStay(who: Person) reads this {
      forall p :: p != who ==> (p in keys <==> p in old(keys)) && (p in keys ==> keys[p] == old(keys)[p])
    }

    /** The row, then the key with the ban's own lifetime. */
    method CreateBan(id: BanId, who: Person, expiresAt: Option<int>, now: int)
      modifies this
      ensures StoreOf() == Create(old(StoreOf()), id, who, expiresAt, now)
      ensures rows == old(rows) + [Ban(id, who, expiresAt)] && OtherKeysStay(who)
      ensures who in keys && keys[who] == At(
        if expiresAt.None? then now + 86_400_000
        else if expiresAt.value <= now then now + 1_000
        else expiresAt.value)
    {
      rows := rows + [Ban(id, who, expiresAt)];
      var ttl := DAY;
      if expiresAt.Some? {
        ttl := expiresAt.value - now;
        if ttl <= 0 {
          ttl := SECOND;
        }
      }
      keys := keys[who := At(now + ttl)];
    }

    /** The row goes, and the key with it. */
    method UnbanUser(id: BanId) returns (found: bool)
      modifies this
      ensures StoreOf() == Unban(old(StoreOf()), id)
      ensures found <==> exists b :: b in old(rows) && b.id == id
      ensures !found ==> rows == old(rows) && keys == old(keys)
      ensures found ==> exists before, b, after ::
        && old(rows) == before + [b] + after && b.id == id && rows == before + after
        && b.who !in keys && OtherKeysStay(b.who)
    {
      var i := IndexOfBan(rows, id);
      if i < 0 { return false; }
      assert rows[i] in rows;
      var ban := rows[i];
      assert rows == rows[..i] + [ban] + rows[i + 1..];
      rows := rows[..i] + rows[i + 1..];
      keys := keys - {ban.who};
      found := true;
    }

    /** Key first, table second; a banned miss is written back without expiry. */
    method IsBanned(who: Person, now: int) returns (banned: bool)
      modifies this`keys
      ensures banned == Check(old(StoreOf()), who, now)
      ensures StoreOf() == Checked(old(StoreOf()), who, now)
      ensures var key := KeyOf(old(StoreOf()), who); var fast := key.Forever? || (key.At? && now < key.time);
        && (banned <==> fast || exists b :: b in rows && b.who == who && (b.expiresAt.None? || now < b.expiresAt.value))
        && OtherKeysStay(who) && KeyOf(StoreOf(), who) == (if banned && !fast then Forever else key)
    {
      BannedUntil(rows, who, now);
      if who in keys && Lasts(keys[who], now) { return true; }
      banned := IsUserBanned(rows, who, now);
      if banned {
        keys := keys[who := Forever];
      }
    }
  }
}

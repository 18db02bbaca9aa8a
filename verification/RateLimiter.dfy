/** The sliding-window rate limiter against a plain count over the history of calls. */
module RateLimiters {
  import opened Lists
  import opened ZSets

  /** A limiter's constants: the limit, the window in milliseconds, and the advertised Retry-After in seconds. */
  datatype Limits = Limits(limit: nat, window: int, retryAfter: int)

  const IP_LIMITS := Limits(100, 60_000, 60)
  const POLL_LIMITS := Limits(60, 60_000, 60)
  const MESSAGE_LIMITS := Limits(2, 10_000, 10)
  const MODERATOR_MULTIPLIER := 3

  datatype Caller = NoClaims | User | Moderator | Admin

  /** Admins, and requests another layer will refuse, are not counted. */
  function MessageLimits(caller: Caller): Option<Limits> {
    match caller
    case NoClaims => None
    case Admin => None
    case Moderator => Some(MESSAGE_LIMITS.(limit := MESSAGE_LIMITS.limit * MODERATOR_MULTIPLIER))
    case User => Some(MESSAGE_LIMITS)
  }

  // --- the script, and the history it should count -------------------------------------------------------

  /** One run of the script on a stored set: trim, add, and the new set's size is the answer. */
  function Hit(z: ZSet<int>, now: int, window: int): ZSet<int> {
    ZAdd(ZRemRange(z, 0, now - window), now, now)
  }

  /** The stored set after a history of calls, the key never expiring. */
  function After(calls: seq<int>, window: int): ZSet<int> {
    if calls == [] then [] else Hit(After(calls[..|calls| - 1], window), calls[|calls| - 1], window)
  }

  /** The distinct stamps of the calls in the window that ends at `now`. */
  function Recent(calls: seq<int>, now: int, window: int): set<int> {
    set t | t in calls && now - window < t <= now
  }

  /** Milliseconds since the epoch, from a clock that does not run backwards. */
  predicate Clock(calls: seq<int>) {
    calls == [] ||
      var pre, last := calls[..|calls| - 1], calls[|calls| - 1];
      Clock(pre) && 0 <= last && (pre != [] ==> pre[|pre| - 1] <= last)
  }

  lemma {:induction false} ClockAt(calls: seq<int>, i: nat, j: nat)
    requires Clock(calls) && i <= j < |calls|
    ensures 0 <= calls[i] <= calls[j]
  {
    var pre := calls[..|calls| - 1];
    if j < |pre| {
      ClockAt(pre, i, j);
    } else if i < |pre| {
      ClockAt(pre, i, |pre| - 1);
    }
  }

  lemma {:induction false} ClockPrefix(calls: seq<int>, n: nat)
    requires Clock(calls) && n <= |calls|
    ensures Clock(calls[..n])
  {
    if n < |calls| {
      var pre := calls[..|calls| - 1];
      ClockPrefix(pre, n);
      assert pre[..n] == calls[..n];
    } else {
      assert calls[..n] == calls;
    }
  }

  lemma ClockSnoc(calls: seq<int>, now: int)
    requires Clock(calls) && now >= 0 && (calls != [] ==> calls[|calls| - 1] <= now)
    ensures Clock(calls + [now])
  {
    assert (calls + [now])[..|calls|] == calls;
  }

  /** No call comes after a later one. */
  lemma UpTo(calls: seq<int>, i: nat, t: int)
    requires Clock(calls) && i < |calls| && t in calls[..i + 1]
    ensures 0 <= t <= calls[i]
  {
    var k :| 0 <= k <= i && calls[k] == t;
    ClockAt(calls, k, i);
  }

  /** Each entry is a stamp, scored by itself. */
  ghost predicate Stamps(z: ZSet<int>) {
    Valid(z) && forall e :: e in z ==> e.score == e.member
  }

  function Newer(s: set<int>, low: int): set<int> { set t | t in s && low < t }

  lemma HitStamps(z: ZSet<int>, now: int, window: int)
    requires Stamps(z) && now >= 0 && window > 0
    requires forall e :: e in z ==> 0 <= e.score <= now
    ensures Stamps(Hit(z, now, window))
    ensures Members(Hit(z, now, window)) == Newer(Members(z), now - window) + {now}
  {
    var kept := ZRemRange(z, 0, now - window);
    FilterValid(z, (e: Scored<int>) => !(0 <= e.score <= now - window));
    ZAddValid(kept, now, now);
    var after := Hit(z, now, window);
    forall t ensures t in Members(after) <==> (t in Members(z) && now - window < t) || t == now {
      if t in Members(z) && now - window < t && t != now {
        var e :| e in z && e.member == t;
        assert e in after;
      }
      assert Scored(now, now) in after;
    }
  }

  /** The set holds the history's window. */
  ghost predicate Holds(z: ZSet<int>, calls: seq<int>, window: int) {
    Stamps(z) && if calls == [] then z == [] else Members(z) == Recent(calls, calls[|calls| - 1], window)
  }

  lemma HeldInRange(z: ZSet<int>, calls: seq<int>, window: int)
    requires Holds(z, calls, window)
    ensures forall e :: e in z ==> calls != [] && e.score <= calls[|calls| - 1] && e.score in calls
  {
    forall e | e in z ensures calls != [] && e.score <= calls[|calls| - 1] && e.score in calls {
      assert e.member in Members(z);
    }
  }

  lemma RecentStep(calls: seq<int>, now: int, window: int)
    requires Clock(calls) && window > 0 && (calls != [] ==> calls[|calls| - 1] <= now)
    ensures Recent(calls + [now], now, window) ==
      (if calls == [] then {} else Newer(Recent(calls, calls[|calls| - 1], window), now - window)) + {now}
  {
    var all := calls + [now];
    assert all[|calls|] == now;
    forall t | t in calls ensures t <= calls[|calls| - 1] {
      var k :| 0 <= k < |calls| && calls[k] == t;
      ClockAt(calls, k, |calls| - 1);
    }
  }

  lemma HitHolds(z: ZSet<int>, calls: seq<int>, now: int, window: int)
    requires Holds(z, calls, window) && Clock(calls) && window > 0 && now >= 0
    requires calls != [] ==> calls[|calls| - 1] <= now
    ensures Holds(Hit(z, now, window), calls + [now], window)
  {
    HeldInRange(z, calls, window);
    forall e | e in z ensures 0 <= e.score <= now {
      var k :| 0 <= k < |calls| && calls[k] == e.score;
      ClockAt(calls, k, k);
    }
    HitStamps(z, now, window);
    RecentStep(calls, now, window);
    assert (calls + [now])[|calls|] == now;
  }

  lemma {:induction false} AfterHolds(calls: seq<int>, window: int)
    requires Clock(calls) && window > 0
    ensures Holds(After(calls, window), calls, window)
  {
    if calls != [] {
      var pre, now := calls[..|calls| - 1], calls[|calls| - 1];
      AfterHolds(pre, window);
      assert calls == pre + [now];
      HitHolds(After(pre, window), pre, now, window);
    }
  }

  /** After every call the set holds exactly the distinct stamps of all calls, rejected ones too, in the window. */
  lemma SetIsHistory(calls: seq<int>, window: int)
    requires Clock(calls) && window > 0 && calls != []
    ensures var z, now := After(calls, window), calls[|calls| - 1];
      Stamps(z) && Members(z) == Recent(calls, now, window) && |z| == |Recent(calls, now, window)|
  {
    AfterHolds(calls, window);
    CountMembers(After(calls, window));
  }

  /** Call `i` was let through. */
  predicate Admitted(calls: seq<int>, i: nat, l: Limits)
    requires i < |calls|
  {
    |After(calls[..i + 1], l.window)| <= l.limit
  }

  /** A call is let through exactly when its window holds at most `limit` distinct stamps, its own included. */
  lemma AdmittedExactly(calls: seq<int>, i: nat, l: Limits)
    requires Clock(calls) && i < |calls| && l.window > 0
    ensures Admitted(calls, i, l) <==> |Recent(calls[..i + 1], calls[i], l.window)| <= l.limit
  {
    ClockPrefix(calls, i + 1);
    SetIsHistory(calls[..i + 1], l.window);
  }

  /** The distinct stamps of the calls let through in (from, to]. */
  function AdmittedStamps(calls: seq<int>, from: int, to: int, l: Limits): set<int> {
    set i | 0 <= i < |calls| && Admitted(calls, i, l) && from < calls[i] <= to :: calls[i]
  }

  lemma {:induction false} LastWhere(n: nat, p: int -> bool) returns (i: int)
    ensures -1 <= i < n && (i >= 0 ==> p(i))
    ensures forall j :: i < j < n ==> !p(j)
  {
    if n == 0 {
      i := -1;
    } else if p(n - 1) {
      i := n - 1;
    } else {
      i := LastWhere(n - 1, p);
    }
  }

  lemma SubsetSize(a: set<int>, b: set<int>)
    requires a <= b
    ensures |a| <= |b|
  {
    assert b == a + (b - a);
  }

  /** Stamps of calls up to `i`, after `from`, lie in the window that ends at call `i`. */
  lemma WithinWindow(calls: seq<int>, stamps: set<int>, from: int, i: nat, window: int)
    requires Clock(calls) && i < |calls| && from < calls[i] <= from + window
    requires forall t :: t in stamps ==> from < t && t in calls[..i + 1]
    ensures |stamps| <= |Recent(calls[..i + 1], calls[i], window)|
  {
    forall t | t in stamps ensures t in Recent(calls[..i + 1], calls[i], window) {
      UpTo(calls, i, t);
    }
    SubsetSize(stamps, Recent(calls[..i + 1], calls[i], window));
  }

  lemma UpToLast(calls: seq<int>, through: int -> bool, i: int, t: int)
    requires exists j :: 0 <= j < |calls| && through(j) && t == calls[j]
    requires i < |calls| && forall j :: 0 <= j < |calls| && through(j) ==> j <= i
    ensures i >= 0 && t in calls[..i + 1]
  {
    var j :| 0 <= j < |calls| && through(j) && t == calls[j];
    assert calls[..i + 1][j] == t;
  }

  /** Any interval one window long lets calls through at no more than `limit` distinct milliseconds. */
  lemma WindowBound(calls: seq<int>, from: int, l: Limits)
    requires Clock(calls) && l.window > 0
    ensures |AdmittedStamps(calls, from, from + l.window, l)| <= l.limit
  {
    var to := from + l.window;
    var through := (j: int) => 0 <= j < |calls| && Admitted(calls, j, l) && from < calls[j] <= to;
    var i := LastWhere(|calls|, through);
    var stamps := AdmittedStamps(calls, from, to, l);
    forall t | t in stamps ensures i >= 0 && from < t && t in calls[..i + 1] {
      UpToLast(calls, through, i, t);
    }
    if i >= 0 {
      AdmittedExactly(calls, i, l);
      WithinWindow(calls, stamps, from, i, l.window);
    } else {
      assert stamps == {};
    }
  }

  lemma {:induction false} ClockStill(n: nat, now: int)
    requires now >= 0
    ensures Clock(seq(n, k => now))
  {
    if n > 0 {
      ClockStill(n - 1, now);
      assert seq(n, k => now)[..n - 1] == seq(n - 1, k => now);
    }
  }

  /** The bound is on milliseconds, not on calls: any number of calls in one millisecond all get through. */
  lemma SameMillisecondBurst(n: nat, now: int, l: Limits, i: nat)
    requires now >= 0 && l.window > 0 && l.limit >= 1 && i < n
    ensures Admitted(seq(n, k => now), i, l)
  {
    var calls := seq(n, k => now);
    ClockStill(n, now);
    AdmittedExactly(calls, i, l);
    assert calls[..i + 1][i] == now;
    assert Recent(calls[..i + 1], calls[i], l.window) == {now};
  }

  // --- callers who never call twice in one millisecond ----------------------------------------------------

  ghost predicate Increasing(s: seq<int>) {
    forall i, j {:trigger s[i], s[j]} :: 0 <= i < j < |s| ==> s[i] < s[j]
  }

  function SetOf(s: seq<int>): set<int> { set x | x in s }

  lemma {:induction false} IncreasingSize(s: seq<int>)
    requires Increasing(s)
    ensures |SetOf(s)| == |s|
  {
    if s != [] {
      var pre, last := s[..|s| - 1], s[|s| - 1];
      IncreasingSize(pre);
      assert s == pre + [last];
      assert SetOf(s) == SetOf(pre) + {last};
      assert last !in pre;
    }
  }

  lemma {:induction false} IncreasingClock(calls: seq<int>)
    requires Increasing(calls) && (calls != [] ==> calls[0] >= 0)
    ensures Clock(calls)
  {
    if calls != [] {
      IncreasingClock(calls[..|calls| - 1]);
    }
  }

  lemma IncreasingSlice(calls: seq<int>, from: nat, to: nat)
    requires Increasing(calls) && from <= to <= |calls|
    ensures |SetOf(calls[from..to])| == to - from
    ensures forall t :: t in SetOf(calls[from..to]) <==> exists j :: from <= j < to && calls[j] == t
  {
    var tail := calls[from..to];
    assert forall k :: 0 <= k < |tail| ==> tail[k] == calls[from + k];
    IncreasingSize(tail);
    forall j | from <= j < to ensures calls[j] in tail {
      assert tail[j - from] == calls[j];
    }
  }

  /** The calls from `first` on are the window when the one before them is out of it. */
  lemma WindowIs(calls: seq<int>, i: nat, window: int, first: nat)
    requires Increasing(calls) && i < |calls| && first <= i && window > 0
    requires first > 0 ==> calls[i] - calls[first - 1] >= window
    ensures Recent(calls[..i + 1], calls[i], window) <= SetOf(calls[first..i + 1])
  {
    var recent, tail := Recent(calls[..i + 1], calls[i], window), SetOf(calls[first..i + 1]);
    IncreasingSlice(calls, first, i + 1);
    forall t | t in recent ensures t in tail {
      var j :| 0 <= j < i + 1 && calls[j] == t;
      assert first > 0 ==> j != first - 1;
      assert j >= first;
    }
  }

  lemma WindowHas(calls: seq<int>, i: nat, window: int, first: nat)
    requires Increasing(calls) && i < |calls| && first <= i && calls[i] - calls[first] < window
    ensures SetOf(calls[first..i + 1]) <= Recent(calls[..i + 1], calls[i], window)
  {
    var recent, tail := Recent(calls[..i + 1], calls[i], window), SetOf(calls[first..i + 1]);
    IncreasingSlice(calls, first, i + 1);
    forall t | t in tail ensures t in recent {
      var j :| first <= j < i + 1 && calls[j] == t;
      assert calls[..i + 1][j] == t;
    }
  }

  /** With distinct stamps a window that ends at call `i` holds at most `n` when call `i - n` is out of it. */
  lemma RecentSize(calls: seq<int>, i: nat, window: int, n: nat)
    requires Increasing(calls) && i < |calls| && window > 0
    ensures |Recent(calls[..i + 1], calls[i], window)| <= n <==> i < n || calls[i] - calls[i - n] >= window
  {
    var recent := Recent(calls[..i + 1], calls[i], window);
    if i < n || (n > 0 && calls[i] - calls[i - n] >= window) {
      var first := if i < n then 0 else i - n + 1;
      WindowIs(calls, i, window, first);
      IncreasingSlice(calls, first, i + 1);
      SubsetSize(recent, SetOf(calls[first..i + 1]));
    } else {
      WindowHas(calls, i, window, i - n);
      IncreasingSlice(calls, i - n, i + 1);
      SubsetSize(SetOf(calls[i - n..i + 1]), recent);
    }
  }

  /**
   * Rejected calls count as well: with distinct stamps, call `i` is let through exactly when it is
   * among the first `limit` or the call `limit` places before it is a whole window old.
   */
  lemma DistinctCallsExactly(calls: seq<int>, i: nat, l: Limits)
    requires Increasing(calls) && (calls != [] ==> calls[0] >= 0) && i < |calls| && l.window > 0
    ensures Admitted(calls, i, l) <==> i < l.limit || calls[i] - calls[i - l.limit] >= l.window
  {
    IncreasingClock(calls);
    AdmittedExactly(calls, i, l);
    RecentSize(calls, i, l.window, l.limit);
  }

  // --- expiry and Retry-After ------------------------------------------------------------------------------

  /** The stored key: the set, and the moment it expires. */
  datatype Key = Key(entries: ZSet<int>, deadline: int)

  function Present(key: Option<Key>, now: int): ZSet<int> {
    if key.Some? && now < key.value.deadline then key.value.entries else []
  }

  function HitKey(key: Option<Key>, now: int, window: int): Option<Key> {
    Some(Key(Hit(Present(key, now), now, window), now + window))
  }

  function KeyAfter(calls: seq<int>, window: int): Option<Key> {
    if calls == [] then None else HitKey(KeyAfter(calls[..|calls| - 1], window), calls[|calls| - 1], window)
  }

  lemma {:induction false} FilterNone<T(!new)>(s: seq<T>, p: T -> bool)
    requires forall x :: x in s ==> !p(x)
    ensures Filter(s, p) == []
  {
    if s != [] {
      FilterNone(s[1..], p);
    }
  }

  /** Dropping the key at its deadline never changes a later answer. */
  lemma {:induction false} ExpiryInvisible(calls: seq<int>, window: int)
    requires Clock(calls) && window > 0 && calls != []
    ensures KeyAfter(calls, window) == Some(Key(After(calls, window), calls[|calls| - 1] + window))
    decreases |calls|
  {
    var pre, now := calls[..|calls| - 1], calls[|calls| - 1];
    if pre != [] {
      ExpiryInvisible(pre, window);
      if now >= pre[|pre| - 1] + window {
        AfterHolds(pre, window);
        AllTrimmed(After(pre, window), pre, now, window);
      }
    }
  }

  /** After a silent window the trim leaves nothing, as the expiry would have. */
  lemma AllTrimmed(z: ZSet<int>, calls: seq<int>, now: int, window: int)
    requires Holds(z, calls, window) && Clock(calls) && calls != [] && now >= calls[|calls| - 1] + window
    ensures Hit(z, now, window) == Hit([], now, window)
  {
    HeldInRange(z, calls, window);
    forall e | e in z ensures 0 <= e.score <= now - window {
      var k :| 0 <= k < |calls| && calls[k] == e.score;
      ClockAt(calls, k, k);
    }
    FilterNone(z, (e: Scored<int>) => !(0 <= e.score <= now - window));
  }

  predicate InUse(l: Limits) {
    l == IP_LIMITS || l == POLL_LIMITS || Some(l) == MessageLimits(User) || Some(l) == MessageLimits(Moderator)
  }

  /**
   * Who may send how often, for calls in distinct milliseconds: a user twice and a moderator six times
   * in ten seconds; admins, and requests refused elsewhere, are not counted.
   */
  lemma SendersLimits(calls: seq<int>, i: nat, caller: Caller)
    requires Increasing(calls) && (calls != [] ==> calls[0] >= 0) && i < |calls|
    ensures match MessageLimits(caller)
      case None => caller.NoClaims? || caller.Admin?
      case Some(l) =>
        && (caller.User? || caller.Moderator?) && l.retryAfter == 10
        && var n := if caller.Moderator? then 6 else 2;
          Admitted(calls, i, l) <==> i < n || calls[i] - calls[i - n] >= 10_000
  {
    match MessageLimits(caller)
    case None =>
    case Some(l) => DistinctCallsExactly(calls, i, l);
  }

  /** The two limiters by address: a hundred requests, and sixty polls, in sixty seconds. */
  lemma AddressLimits(calls: seq<int>, i: nat)
    requires Increasing(calls) && (calls != [] ==> calls[0] >= 0) && i < |calls|
    ensures Admitted(calls, i, IP_LIMITS) <==> i < 100 || calls[i] - calls[i - 100] >= 60_000
    ensures Admitted(calls, i, POLL_LIMITS) <==> i < 60 || calls[i] - calls[i - 60] >= 60_000
    ensures IP_LIMITS.retryAfter == 60 == POLL_LIMITS.retryAfter
  {
    DistinctCallsExactly(calls, i, IP_LIMITS);
    DistinctCallsExactly(calls, i, POLL_LIMITS);
  }

  /** Whoever stays silent for the advertised time is let through, in every limiter. */
  lemma RetryAfterSound(calls: seq<int>, l: Limits)
    requires Clock(calls) && calls != [] && InUse(l)
    requires |calls| > 1 ==> calls[|calls| - 1] - calls[|calls| - 2] >= 1000 * l.retryAfter
    ensures Admitted(calls, |calls| - 1, l)
  {
    NewestAdmitted(calls, l);
    LastAlone(calls, l.window);
    assert |{calls[|calls| - 1]}| == 1;
  }

  lemma NewestAdmitted(calls: seq<int>, l: Limits)
    requires Clock(calls) && calls != [] && l.window > 0
    ensures Admitted(calls, |calls| - 1, l) <==> |Recent(calls, calls[|calls| - 1], l.window)| <= l.limit
  {
    assert calls[..|calls| - 1 + 1] == calls;
    AdmittedExactly(calls, |calls| - 1, l);
  }

  lemma LastAlone(calls: seq<int>, window: int)
    requires Clock(calls) && calls != [] && window > 0
    requires |calls| > 1 ==> calls[|calls| - 1] - calls[|calls| - 2] >= window
    ensures Recent(calls, calls[|calls| - 1], window) == {calls[|calls| - 1]}
  {
    var pre, now := calls[..|calls| - 1], calls[|calls| - 1];
    AloneInWindow(pre, now, window);
    assert calls == pre + [now];
  }

  lemma AloneInWindow(calls: seq<int>, now: int, window: int)
    requires Clock(calls) && window > 0 && (calls != [] ==> now >= calls[|calls| - 1] + window)
    ensures Recent(calls + [now], now, window) == {now}
  {
    forall t | t in calls ensures t <= now - window {
      var k :| 0 <= k < |calls| && calls[k] == t;
      ClockAt(calls, k, |calls| - 1);
    }
    assert (calls + [now])[|calls|] == now;
  }

  /** The key after a history: the window's stamps, kept for one window after the last call. */
  ghost predicate KeyHolds(key: Option<Key>, calls: seq<int>, window: int) {
    match key
    case None => calls == []
    case Some(k) => calls != [] && k.deadline == calls[|calls| - 1] + window && Holds(k.entries, calls, window)
  }

  /** One more call, on what is left of the key. */
  lemma KeyStep(key: Option<Key>, calls: seq<int>, now: int, window: int)
    requires KeyHolds(key, calls, window) && Clock(calls) && window > 0 && now >= 0
    requires calls != [] ==> calls[|calls| - 1] <= now
    ensures Clock(calls + [now])
    ensures Holds(Hit(Present(key, now), now, window), calls + [now], window)
    ensures |Hit(Present(key, now), now, window)| == |Recent(calls + [now], now, window)|
  {
    ClockSnoc(calls, now);
    if key.Some? && now >= key.value.deadline {
      HitHolds([], [], now, window);
      AloneInWindow([], now, window);
      AloneInWindow(calls, now, window);
      assert [] + [now] == [now];
    } else {
      HitHolds(Present(key, now), calls, now, window);
    }
    CountMembers(Hit(Present(key, now), now, window));
  }

  // --- the limiter -------------------------------------------------------------------------------------------

  class RateLimiter {
    const limits: Limits
    var key: Option<Key>
    ghost var calls: seq<int>

    constructor (limits: Limits)
      requires limits.window > 0
      ensures Valid() && this.limits == limits && calls == []
    {
      this.limits, key, calls := limits, None, [];
    }

    ghost predicate Valid() reads this {
      limits.window > 0 && Clock(calls) && KeyHolds(key, calls, limits.window)
    }

    /** Counts the call, and lets it through unless its window is over the limit. */
    method Allow(now: int) returns (ok: bool)
      requires Valid() && now >= 0 && (calls != [] ==> calls[|calls| - 1] <= now)
      modifies this
      ensures Valid() && calls == old(calls) + [now]
      ensures ok <==> |Recent(calls, now, limits.window)| <= limits.limit
    {
      var entries := RunScript(key, now, limits.window, calls);
      key := Some(Key(entries, now + limits.window));
      calls := calls + [now];
      ok := |entries| <= limits.limit;
    }

    /** The commands of the script on what is left of the key. */
    static method RunScript(key: Option<Key>, now: int, window: int, ghost calls: seq<int>) returns (entries: ZSet<int>)
      requires KeyHolds(key, calls, window) && Clock(calls) && window > 0 && now >= 0
      requires calls != [] ==> calls[|calls| - 1] <= now
      ensures Clock(calls + [now]) && Holds(entries, calls + [now], window)
      ensures |entries| == |Recent(calls + [now], now, window)|
    {
      entries := if key.Some? && now < key.value.deadline then key.value.entries else [];
      entries := ZRemRange(entries, 0, now - window);
      entries := ZAdd(entries, now, now);
      KeyStep(key, calls, now, window);
    }
  }
}

/**
 * The widget's API client: concurrent requests share one token refresh and retry once. Between two
 * awaits a request runs alone, so each step is one such stretch.
 */
module TokenRefreshes {
  import opened Lists

  type RequestId = nat
  type RefreshId = nat
  type Token = nat

  const UNAUTHORIZED := 401

  datatype Refresh = Pending | Resolved(token: Token) | Rejected

  datatype Stage =
    | Fetching(retry: bool)
    | Joined(refresh: RefreshId)
    | Returned
    | Failed

  /** `sent` lists the tokens its fetches carried; `joined` is the refresh it waited for. */
  datatype Request = Request(stage: Stage, sent: seq<Token>, joined: Option<RefreshId>)

  /** `current` is the refresh in flight, if any. */
  datatype State = State(
    token: Token, current: Option<RefreshId>, refreshes: seq<Refresh>,
    requests: map<RequestId, Request>, canRefresh: bool)

  datatype Step =
    | Begin(request: RequestId)
    | Response(request: RequestId, status: nat)
    | NetworkError(request: RequestId)
    | Settle(outcome: Refresh)
    | Resume(request: RequestId)

  function Opened(token: Token, canRefresh: bool): State {
    State(token, None, [], map[], canRefresh)
  }

  predicate IsFetching(x: State, r: RequestId) {
    r in x.requests && x.requests[r].stage.Fetching?
  }

  function Put(x: State, r: RequestId, q: Request): State { x.(requests := x.requests[r := q]) }

  /** A refused first try joins the refresh in flight, or starts one. */
  function Join(x: State, r: RequestId): State
    requires r in x.requests
  {
    var k := if x.current.Some? then x.current.value else |x.refreshes|;
    var y := if x.current.Some? then x else x.(current := Some(k), refreshes := x.refreshes + [Pending]);
    Put(y, r, y.requests[r].(stage := Joined(k), joined := Some(k)))
  }

  /** A step that is not enabled changes nothing. */
  function Next(x: State, s: Step): State {
    match s
    case Begin(r) =>
      if r in x.requests then x else Put(x, r, Request(Fetching(true), [x.token], None))
    case Response(r, status) =>
      if !IsFetching(x, r) then x
      else if status == UNAUTHORIZED && x.requests[r].stage.retry && x.canRefresh then Join(x, r)
      else Put(x, r, x.requests[r].(stage := if 200 <= status < 300 then Returned else Failed))
    case NetworkError(r) =>
      if !IsFetching(x, r) then x else Put(x, r, x.requests[r].(stage := Failed))
    case Settle(outcome) =>
      if x.current.None? || outcome.Pending? || x.current.value >= |x.refreshes| then x
      else x.(refreshes := x.refreshes[x.current.value := outcome], current := None)
    case Resume(r) =>
      if r !in x.requests || !x.requests[r].stage.Joined? || x.requests[r].stage.refresh >= |x.refreshes| then x
      else match x.refreshes[x.requests[r].stage.refresh]
        case Pending => x
        case Rejected => Put(x, r, x.requests[r].(stage := Failed))
        case Resolved(token) =>
          Put(x.(token := token), r, x.requests[r].(stage := Fetching(false), sent := x.requests[r].sent + [token]))
  }

  function Run(x: State, steps: seq<Step>): State
    decreases |steps|
  {
    if steps == [] then x else Run(Next(x, steps[0]), steps[1..])
  }

  // --- what every run keeps ------------------------------------------------------------------------------

  /** The only refresh that can be unsettled is the one in flight, and it is. */
  ghost predicate SingleFlight(x: State) {
    && (x.current.Some? ==> x.current.value < |x.refreshes| && x.refreshes[x.current.value].Pending?)
    && (forall k :: 0 <= k < |x.refreshes| && x.refreshes[k].Pending? ==> x.current == Some(k))
  }

  /** At most two fetches; the second only after the joined refresh succeeded, with its token. */
  ghost predicate Disciplined(x: State, q: Request) {
    && 1 <= |q.sent| <= 2
    && (q.joined.Some? ==> q.joined.value < |x.refreshes|)
    && (|q.sent| == 2 ==> q.joined.Some? && x.refreshes[q.joined.value] == Resolved(q.sent[1]))
    && (q.joined.Some? && |q.sent| == 1 ==>
          q.stage == Joined(q.joined.value) || (q.stage.Failed? && x.refreshes[q.joined.value].Rejected?))
    && (q.stage.Joined? ==> q.joined == Some(q.stage.refresh) && |q.sent| == 1)
    && (q.stage.Fetching? ==> q.stage.retry == (|q.sent| == 1) && (q.stage.retry ==> q.joined.None?))
  }

  ghost predicate Inv(x: State) {
    SingleFlight(x) && forall r :: r in x.requests ==> Disciplined(x, x.requests[r])
  }

  lemma StepFlight(x: State, s: Step)
    requires SingleFlight(x)
    ensures SingleFlight(Next(x, s))
  {
  }

  lemma StepDisciplined(x: State, s: Step, r: RequestId)
    requires Inv(x) && r in Next(x, s).requests
    ensures Disciplined(Next(x, s), Next(x, s).requests[r])
  {
    if r in x.requests {
      assert Disciplined(x, x.requests[r]);
      if Next(x, s).requests[r] == x.requests[r] { SettledStay(x, s, x.requests[r]); }
    }
  }

  /** What a request knows of its refresh no step takes back, unless it is the request's own. */
  lemma SettledStay(x: State, s: Step, q: Request)
    requires SingleFlight(x) && Disciplined(x, q)
    ensures Disciplined(Next(x, s), q)
  {
  }

  lemma StepInv(x: State, s: Step)
    requires Inv(x)
    ensures Inv(Next(x, s))
  {
    StepFlight(x, s);
    forall r | r in Next(x, s).requests ensures Disciplined(Next(x, s), Next(x, s).requests[r]) {
      StepDisciplined(x, s, r);
    }
  }

  lemma {:induction false} RunInv(x: State, steps: seq<Step>)
    requires Inv(x)
    ensures Inv(Run(x, steps))
    decreases |steps|
  {
    if steps != [] {
      StepInv(x, steps[0]);
      RunInv(Next(x, steps[0]), steps[1..]);
    }
  }

  /**
   * In every run: at most one refresh is unsettled; a request fetches at most twice, and a retry
   * carries the token of the refresh it joined; who joined a failed refresh never fetches again.
   */
  lemma OneRefreshTwoFetches(token: Token, canRefresh: bool, steps: seq<Step>)
    ensures var x := Run(Opened(token, canRefresh), steps);
      && (forall j, k {:trigger x.refreshes[j], x.refreshes[k]} ::
            0 <= j < |x.refreshes| && 0 <= k < |x.refreshes| && x.refreshes[j].Pending? && x.refreshes[k].Pending? ==>
              j == k)
      && (forall r :: r in x.requests ==>
            var q := x.requests[r];
            && 1 <= |q.sent| <= 2
            && (|q.sent| == 2 ==>
                  && q.joined.Some? && q.joined.value < |x.refreshes|
                  && x.refreshes[q.joined.value] == Resolved(q.sent[1]))
            && (q.joined.Some? && q.joined.value < |x.refreshes| && x.refreshes[q.joined.value].Rejected? ==>
                  |q.sent| == 1 && (q.stage.Failed? || q.stage.Joined?)))
  {
    RunInv(Opened(token, canRefresh), steps);
    var x := Run(Opened(token, canRefresh), steps);
    forall r | r in x.requests ensures Disciplined(x, x.requests[r]) {
    }
  }

  // --- nobody is left waiting ----------------------------------------------------------------------------

  lemma StaysJoined(x: State, s: Step, r: RequestId, k: RefreshId)
    requires Inv(x) && r in x.requests && x.requests[r].joined == Some(k) && !x.refreshes[k].Pending?
    ensures var y := Next(x, s);
      && r in y.requests && y.requests[r].joined == Some(k)
      && k < |y.refreshes| && y.refreshes[k] == x.refreshes[k]
      && (y.requests[r].stage.Joined? ==> x.requests[r].stage.Joined? && s != Resume(r))
  {
    assert Disciplined(x, x.requests[r]);
  }

  /**
   * Once a refresh has settled, whoever joined it leaves the wait when resumed, whatever else runs
   * in between: a failure rejects it without another fetch, a success sends it out once more, with
   * the token of that refresh.
   */
  lemma {:induction false} SettledLeavesNoneWaiting(x: State, steps: seq<Step>, r: RequestId, k: RefreshId)
    requires Inv(x) && r in x.requests && x.requests[r].joined == Some(k) && !x.refreshes[k].Pending?
    requires x.requests[r].stage.Joined? ==> Resume(r) in steps
    ensures var y := Run(x, steps);
      && r in y.requests && k < |y.refreshes| && y.refreshes[k] == x.refreshes[k]
      && !y.requests[r].stage.Joined?
      && (x.refreshes[k].Rejected? ==> y.requests[r].stage.Failed? && |y.requests[r].sent| == 1)
      && (x.refreshes[k].Resolved? ==> |y.requests[r].sent| == 2 && y.requests[r].sent[1] == x.refreshes[k].token)
    decreases |steps|
  {
    if steps == [] {
      assert Disciplined(x, x.requests[r]);
    } else {
      StepInv(x, steps[0]);
      StaysJoined(x, steps[0], r, k);
      SettledLeavesNoneWaiting(Next(x, steps[0]), steps[1..], r, k);
    }
  }

  /** Every waiting request waits for the refresh in flight or for one that has settled. */
  lemma NobodyWaitsForNothing(token: Token, canRefresh: bool, steps: seq<Step>, r: RequestId)
    requires var x := Run(Opened(token, canRefresh), steps); r in x.requests && x.requests[r].stage.Joined?
    ensures var x := Run(Opened(token, canRefresh), steps); var k := x.requests[r].stage.refresh;
      k < |x.refreshes| && (x.refreshes[k].Pending? ==> x.current == Some(k))
  {
    RunInv(Opened(token, canRefresh), steps);
    var x := Run(Opened(token, canRefresh), steps);
    assert Disciplined(x, x.requests[r]);
  }

  // --- what a request comes to ---------------------------------------------------------------------------

  function Answer(x: State, s: Step, r: RequestId): seq<nat> {
    if s.Response? && s.request == r && IsFetching(x, r) then [s.status] else []
  }

  /** The statuses a request gets back in a run: those that arrive while it has a fetch out. */
  function Answers(x: State, steps: seq<Step>, r: RequestId): seq<nat>
    decreases |steps|
  {
    if steps == [] then [] else Answer(x, steps[0], r) + Answers(Next(x, steps[0]), steps[1..], r)
  }

  predicate Good(status: nat) { 200 <= status <= 299 }

  /** Where `got`, the answers so far, leave a request: a first 401 may be retried, and only a 2xx ends well. */
  ghost predicate Accounts(x: State, r: RequestId, got: seq<nat>) {
    if r !in x.requests then got == [] else
      var q := x.requests[r];
      && |got| <= 2
      && (q.stage.Returned? <==> got != [] && Good(got[|got| - 1]))
      && (q.joined.Some? <==> got != [] && got[0] == 401 && x.canRefresh)
      && (|got| == 2 ==> got[0] == 401 && x.canRefresh && |q.sent| == 2)
      && (q.stage.Fetching? ==> |got| == |q.sent| - 1)
      && (q.stage.Joined? ==> got == [401])
      && (got != [] && !Good(got[|got| - 1]) && (|got| == 2 || got[0] != 401 || !x.canRefresh) ==> q.stage.Failed?)
  }

  lemma StepAccounts(x: State, s: Step, r: RequestId, got: seq<nat>)
    requires Inv(x) && Accounts(x, r, got)
    ensures Accounts(Next(x, s), r, got + Answer(x, s, r))
  {
    assert r in x.requests ==> Disciplined(x, x.requests[r]);
    assert got + [] == got;
  }

  lemma Reassociate(a: seq<nat>, b: seq<nat>, c: seq<nat>)
    ensures a + b + c == a + (b + c)
  {
  }

  lemma {:induction false} RunAccounts(x: State, steps: seq<Step>, r: RequestId, got: seq<nat>)
    requires Inv(x) && Accounts(x, r, got)
    ensures Accounts(Run(x, steps), r, got + Answers(x, steps, r))
    decreases |steps|
  {
    if steps == [] {
      assert got + [] == got;
    } else {
      var y := Next(x, steps[0]);
      StepInv(x, steps[0]);
      StepAccounts(x, steps[0], r, got);
      RunAccounts(y, steps[1..], r, got + Answer(x, steps[0], r));
      Reassociate(got, Answer(x, steps[0], r), Answers(y, steps[1..], r));
    }
  }

  /**
   * In every run a request is returned exactly when the last answer it got was a 2xx. It gets at most
   * two, the second only after a 401 and with a refresh to be had, and a second 401, or any other
   * answer but a 2xx on its last try, fails it.
   */
  lemma ReturnedExactly(token: Token, canRefresh: bool, steps: seq<Step>, r: RequestId)
    requires r in Run(Opened(token, canRefresh), steps).requests
    ensures var q := Run(Opened(token, canRefresh), steps).requests[r];
      var got := Answers(Opened(token, canRefresh), steps, r); var last := if got == [] then 0 else got[|got| - 1];
      && |got| <= 2 && (|got| == 2 ==> got[0] == 401 && canRefresh)
      && (q.stage.Returned? <==> 200 <= last <= 299)
      && (got != [] && !(200 <= last <= 299) && (|got| == 2 || last != 401 || !canRefresh) ==> q.stage.Failed?)
  {
    AllAccounted(Opened(token, canRefresh), steps, r);
    RefreshStays(Opened(token, canRefresh), steps);
  }

  lemma AllAccounted(x: State, steps: seq<Step>, r: RequestId)
    requires Inv(x) && r !in x.requests
    ensures Accounts(Run(x, steps), r, Answers(x, steps, r))
  {
    RunAccounts(x, steps, r, []);
    assert [] + Answers(x, steps, r) == Answers(x, steps, r);
  }

  lemma {:induction false} RefreshStays(x: State, steps: seq<Step>)
    ensures Run(x, steps).canRefresh == x.canRefresh
    decreases |steps|
  {
    if steps != [] {
      RefreshStays(Next(x, steps[0]), steps[1..]);
    }
  }

  // --- the client ------------------------------------------------------------------------------------------

  class ApiClient {
    var getToken: Token
    var refreshPromise: Option<RefreshId>
    const onTokenExpired: bool
    /** The promises handed out, and the requests holding them. */
    var refreshes: seq<Refresh>
    var requests: map<RequestId, Request>

    constructor (token: Token, onTokenExpired: bool)
      ensures Valid() && StateOf() == Opened(token, onTokenExpired)
    {
      getToken, refreshPromise, this.onTokenExpired := token, None, onTokenExpired;
      refreshes, requests := [], map[];
    }

    function StateOf(): State reads this {
      State(getToken, refreshPromise, refreshes, requests, onTokenExpired)
    }

    ghost predicate Valid() reads this { Inv(StateOf()) }

    /** The requests other than `r` are where they were. */
    twostate predicate OthersStay(r: RequestId) reads this {
      forall q :: q in requests && q != r ==> q in old(requests) && requests[q] == old(requests)[q]
    }

    /** The stretch up to the first await: the fetch goes out with the current token. */
    method Send(r: RequestId, sent: seq<Token>, joined: Option<RefreshId>, retry: bool)
      modifies this`requests
      ensures requests == old(requests)[r := Request(Fetching(retry), sent + [getToken], joined)]
    {
      requests := requests[r := Request(Fetching(retry), sent + [getToken], joined)];
    }

    method Start(r: RequestId)
      requires Valid() && r !in requests
      modifies this`requests
      ensures Valid() && StateOf() == Next(old(StateOf()), Begin(r))
      ensures requests == old(requests)[r := Request(Fetching(true), [getToken], None)]
    {
      StepInv(StateOf(), Begin(r));
      assert [] + [getToken] == [getToken];
      Send(r, [], None, true);
    }

    /** After the fetch: a refusal joins a refresh, anything else settles the request. */
    method OnResponse(r: RequestId, status: nat)
      requires Valid() && r in requests && requests[r].stage.Fetching?
      modifies this
      ensures Valid() && StateOf() == Next(old(StateOf()), Response(r, status))
      ensures getToken == old(getToken) && requests.Keys == old(requests).Keys && OthersStay(r)
      ensures requests[r].sent == old(requests)[r].sent
      ensures if status == 401 && old(requests)[r].stage.retry && onTokenExpired then
          && refreshPromise.Some? && requests[r].stage == Joined(refreshPromise.value)
          && (if old(refreshPromise).Some? then refreshPromise == old(refreshPromise) && refreshes == old(refreshes)
              else refreshPromise.value == |old(refreshes)| && refreshes == old(refreshes) + [Pending])
        else
          && refreshPromise == old(refreshPromise) && refreshes == old(refreshes)
          && requests[r].stage == (if 200 <= status <= 299 then Returned else Failed)
    {
      StepInv(StateOf(), Response(r, status));
      var q := requests[r];
      if status == 401 && q.stage.retry && onTokenExpired {
        if refreshPromise.None? {
          refreshPromise := Some(|refreshes|);
          refreshes := refreshes + [Pending];
        }
        requests := requests[r := q.(stage := Joined(refreshPromise.value), joined := refreshPromise)];
      } else {
        requests := requests[r := q.(stage := if 200 <= status < 300 then Returned else Failed)];
      }
    }

    /** The fetch does not come through: the request fails, and nothing else changes. */
    method OnNetworkError(r: RequestId)
      requires Valid() && r in requests && requests[r].stage.Fetching?
      modifies this`requests
      ensures Valid() && StateOf() == Next(old(StateOf()), NetworkError(r))
      ensures requests == old(requests)[r := old(requests)[r].(stage := Failed)]
    {
      StepInv(StateOf(), NetworkError(r));
      requests := requests[r := requests[r].(stage := Failed)];
    }

    /** The refresh settles, and first of all clears the field. */
    method OnRefreshSettled(outcome: Refresh)
      requires Valid() && refreshPromise.Some? && !outcome.Pending?
      modifies this
      ensures Valid() && StateOf() == Next(old(StateOf()), Settle(outcome))
      ensures refreshPromise.None? && refreshes == old(refreshes)[old(refreshPromise).value := outcome]
      ensures getToken == old(getToken) && requests == old(requests)
    {
      StepInv(StateOf(), Settle(outcome));
      refreshes := refreshes[refreshPromise.value := outcome];
      refreshPromise := None;
    }

    /** A waiter wakes up: with a token it goes out once more, without one it fails. */
    method OnResumed(r: RequestId)
      requires Valid() && r in requests && requests[r].stage.Joined?
      requires requests[r].stage.refresh < |refreshes| && !refreshes[requests[r].stage.refresh].Pending?
      modifies this
      ensures Valid() && StateOf() == Next(old(StateOf()), Resume(r))
      ensures refreshPromise == old(refreshPromise) && refreshes == old(refreshes)
      ensures requests.Keys == old(requests).Keys && OthersStay(r)
      ensures var q := old(requests)[r]; var outcome := refreshes[q.stage.refresh];
        if outcome.Resolved? then
          && getToken == outcome.token
          && requests[r].stage == Fetching(false) && requests[r].sent == q.sent + [outcome.token]
        else getToken == old(getToken) && requests[r].stage.Failed? && requests[r].sent == q.sent
    {
      StepInv(StateOf(), Resume(r));
      var q := requests[r];
      match refreshes[q.stage.refresh] {
        case Resolved(newToken) =>
          getToken := newToken;
          Send(r, q.sent, q.joined, false);
        case Rejected =>
          requests := requests[r := q.(stage := Failed)];
      }
    }
  }
}

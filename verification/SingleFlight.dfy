/**
 * Single-flight recovery from 401 answers (the `request` closure of createApiClient in
 * packages/api-client/src/index.ts).  JavaScript runs one step at a time between
 * awaits, so the client is a state machine whose moves are those steps; a run is any
 * sequence of moves.  A promise is known by its number.
 */
module SingleFlight {
  import opened Wrappers

  /** How recoverUnauthorized() ends. */
  datatype Verdict = Recovered | NotRecovered | Rejected

  /** Pending; settled, its `finally` callback not yet run; settled and handed to its waiters. */
  datatype Recovery = Pending | Settled(verdict: Verdict) | Released(verdict: Verdict)

  datatype Outcome = Answered(status: nat) | NetworkError | RecoveryFailed

  datatype Pc = Fetching(retried: bool) | Waiting(recovery: nat) | Ended(outcome: Outcome)

  /** What getAccessToken answers: a token or none. */
  type Token = Option<string>

  /** A request may bring an Authorization header of its own. */
  datatype Request = Request(path: string, own: Token, pc: Pc)

  datatype Event =
    | Fetch(r: nat, retry: bool, sent: Token)
    | TokenSet(token: Token)
    | Started(i: nat, r: nat)
    | Joined(r: nat, i: nat)
    | Finished(i: nat, verdict: Verdict)
    | Resumed(r: nat, i: nat, verdict: Verdict)

  datatype State = State(requests: seq<Request>, recoveries: seq<Recovery>, shared: Option<nat>, token: Token,
                         trace: seq<Event>)

  datatype Move =
    | New(path: string, own: Token)
    | SetToken(token: Token)
    | NetworkFails(r: nat)
    | Response(r: nat, status: nat, startThrows: bool)
    | Settle(i: nat, verdict: Verdict)
    | RunFinally(i: nat)
    | Resume(r: nat)

  /** The paths whose 401 answers are never recovered. */
  predicate Exempt(path: string) {
    "/auth/refresh" <= path || "/auth/login" <= path || "/auth/register" <= path
  }

  /** Neither missing nor empty, as JavaScript tests it. */
  predicate Truthy(t: Token) {
    t.Some? && t.value != ""
  }

  /** The Authorization header of a fetch: the request's own one, or else the token. */
  function Header(own: Token, token: Token): Token {
    if Truthy(token) && !Truthy(own) then Some("Bearer " + token.value) else own
  }

  function SetPc(s: State, r: nat, pc: Pc): State
    requires r < |s.requests|
  {
    s.(requests := s.requests[r := s.requests[r].(pc := pc)])
  }

  /** A 401 answer that may be recovered: join the outstanding recovery, or start one. */
  function Recover(s: State, r: nat, startThrows: bool): State
    requires r < |s.requests|
  {
    if s.shared.Some? then SetPc(s, r, Waiting(s.shared.value))
    else if startThrows then SetPc(s, r, Ended(RecoveryFailed))
    else
      var i := |s.recoveries|;
      SetPc(s, r, Waiting(i)).(recoveries := s.recoveries + [Pending], shared := Some(i))
  }

  function Continue(s: State, r: nat, verdict: Verdict): State
    requires r < |s.requests|
  {
    match verdict
    case Recovered => SetPc(s, r, Fetching(true))
    case NotRecovered => SetPc(s, r, Ended(Answered(401)))
    case Rejected => SetPc(s, r, Ended(RecoveryFailed))
  }

  predicate Enabled(s: State, m: Move) {
    match m
    case New(_, _) => true
    case SetToken(_) => true
    case NetworkFails(r) => r < |s.requests| && s.requests[r].pc.Fetching?
    case Response(r, _, _) => r < |s.requests| && s.requests[r].pc.Fetching?
    case Settle(i, _) => i < |s.recoveries| && s.recoveries[i].Pending?
    case RunFinally(i) => i < |s.recoveries| && s.recoveries[i].Settled?
    case Resume(r) =>
      && r < |s.requests| && s.requests[r].pc.Waiting? && s.requests[r].pc.recovery < |s.recoveries|
      && s.recoveries[s.requests[r].pc.recovery].Released?
  }

  predicate MayRecover(canRecover: bool, q: Request, status: nat) {
    status == 401 && q.pc == Fetching(false) && canRecover && !Exempt(q.path)
  }

  /** What a move adds to the history. */
  function Emits(canRecover: bool, s: State, m: Move): seq<Event>
    requires Enabled(s, m)
  {
    match m
    case New(_, own) => [Fetch(|s.requests|, false, Header(own, s.token))]
    case SetToken(t) => [TokenSet(t)]
    case NetworkFails(_) => []
    case Response(r, status, startThrows) =>
      if !MayRecover(canRecover, s.requests[r], status) then []
      else if s.shared.Some? then [Joined(r, s.shared.value)]
      else if startThrows then []
      else [Started(|s.recoveries|, r), Joined(r, |s.recoveries|)]
    case Settle(i, v) => [Finished(i, v)]
    case RunFinally(_) => []
    case Resume(r) =>
      var i := s.requests[r].pc.recovery;
      var v := s.recoveries[i].verdict;
      [Resumed(r, i, v)] + if v.Recovered? then [Fetch(r, true, Header(s.requests[r].own, s.token))] else []
  }

  function Change(canRecover: bool, s: State, m: Move): State
    requires Enabled(s, m)
  {
    match m
    case New(path, own) => s.(requests := s.requests + [Request(path, own, Fetching(false))])
    case SetToken(t) => s.(token := t)
    case NetworkFails(r) => SetPc(s, r, Ended(NetworkError))
    case Response(r, status, startThrows) =>
      if MayRecover(canRecover, s.requests[r], status) then Recover(s, r, startThrows)
      else SetPc(s, r, Ended(Answered(status)))
    case Settle(i, v) => s.(recoveries := s.recoveries[i := Settled(v)])
    case RunFinally(i) => s.(recoveries := s.recoveries[i := Released(s.recoveries[i].verdict)], shared := None)
    case Resume(r) => Continue(s, r, s.recoveries[s.requests[r].pc.recovery].verdict)
  }

  /** One move; one that is not possible does nothing. */
  function Step(canRecover: bool, s: State, m: Move): State {
    if Enabled(s, m) then Change(canRecover, s, m).(trace := s.trace + Emits(canRecover, s, m)) else s
  }

  function Start(token: Token): State {
    State([], [], None, token, [TokenSet(token)])
  }

  function Run(canRecover: bool, token: Token, moves: seq<Move>): State {
    if moves == [] then Start(token)
    else Step(canRecover, Run(canRecover, token, moves[..|moves| - 1]), moves[|moves| - 1])
  }

  // The shared variable.

  /** The shared variable holds the one recovery that has not been handed out yet. */
  ghost predicate SharedIsOutstanding(s: State) {
    && (s.shared.Some? ==> s.shared.value < |s.recoveries|)
    && (forall i :: 0 <= i < |s.recoveries| ==> (!s.recoveries[i].Released? <==> s.shared == Some(i)))
  }

  ghost predicate WaitersHaveRecovery(s: State) {
    forall q <- s.requests :: q.pc.Waiting? ==> q.pc.recovery < |s.recoveries|
  }

  lemma SharedStep(canRecover: bool, s: State, m: Move)
    requires SharedIsOutstanding(s) && WaitersHaveRecovery(s)
    ensures SharedIsOutstanding(Step(canRecover, s, m)) && WaitersHaveRecovery(Step(canRecover, s, m))
  {
  }

  lemma {:induction false} SharedRun(canRecover: bool, token: Token, moves: seq<Move>)
    ensures SharedIsOutstanding(Run(canRecover, token, moves)) && WaitersHaveRecovery(Run(canRecover, token, moves))
  {
    if moves != [] {
      SharedRun(canRecover, token, moves[..|moves| - 1]);
      SharedStep(canRecover, Run(canRecover, token, moves[..|moves| - 1]), moves[|moves| - 1]);
    }
  }

  /** In every interleaving at most one recovery is outstanding. */
  lemma AtMostOneOutstanding(canRecover: bool, token: Token, moves: seq<Move>, i: nat, j: nat)
    requires var s := Run(canRecover, token, moves);
      i < |s.recoveries| && j < |s.recoveries| && !s.recoveries[i].Released? && !s.recoveries[j].Released?
    ensures i == j
  {
    SharedRun(canRecover, token, moves);
  }

  /**
   * No waiter is forgotten: a request that waits either waits for the outstanding
   * recovery, which then can settle or be released, or it can go on.
   */
  lemma WaitersGoOn(canRecover: bool, token: Token, moves: seq<Move>, r: nat)
    requires var s := Run(canRecover, token, moves); r < |s.requests| && s.requests[r].pc.Waiting?
    ensures var s := Run(canRecover, token, moves); var i := s.requests[r].pc.recovery;
      || Enabled(s, Resume(r))
      || (s.shared == Some(i) && (Enabled(s, RunFinally(i)) || forall v: Verdict :: Enabled(s, Settle(i, v))))
  {
    SharedRun(canRecover, token, moves);
    var s := Run(canRecover, token, moves);
    assert s.requests[r] in s.requests;
  }

  // Fetches.

  function Fetches(trace: seq<Event>, r: nat): nat {
    if trace == [] then 0
    else Fetches(trace[..|trace| - 1], r)
         + if trace[|trace| - 1].Fetch? && trace[|trace| - 1].r == r then 1 else 0
  }

  lemma {:induction false} FetchesAppend(trace: seq<Event>, more: seq<Event>, r: nat)
    requires |more| <= 2
    ensures Fetches(trace + more, r) == Fetches(trace, r)
      + (if |more| > 0 && more[0].Fetch? && more[0].r == r then 1 else 0)
      + (if |more| > 1 && more[1].Fetch? && more[1].r == r then 1 else 0)
  {
    if more == [] {
      assert trace + more == trace;
    } else {
      FetchesAppend(trace, more[..|more| - 1], r);
      assert (trace + more)[..|trace| + |more| - 1] == trace + more[..|more| - 1];
    }
  }

  predicate FetchesFit(pc: Pc, fetches: nat) {
    match pc
    case Fetching(retried) => fetches == if retried then 2 else 1
    case Waiting(_) => fetches == 1
    case Ended(_) => 1 <= fetches <= 2
  }

  ghost predicate FetchesCounted(s: State) {
    && (forall r :: 0 <= r < |s.requests| ==> FetchesFit(s.requests[r].pc, Fetches(s.trace, r)))
    && (forall r :: r >= |s.requests| ==> Fetches(s.trace, r) == 0)
  }

  lemma FetchesStep(canRecover: bool, s: State, m: Move)
    requires FetchesCounted(s)
    ensures FetchesCounted(Step(canRecover, s, m))
  {
    if Enabled(s, m) {
      var t := Step(canRecover, s, m);
      forall r: nat
        ensures r < |t.requests| ==> FetchesFit(t.requests[r].pc, Fetches(t.trace, r))
        ensures r >= |t.requests| ==> Fetches(t.trace, r) == 0
      {
        FetchesOf(canRecover, s, m, r);
      }
    }
  }

  /** The move fetches for request `r`. */
  predicate FetchesFor(s: State, m: Move, r: nat)
    requires Enabled(s, m)
  {
    || (m.New? && r == |s.requests|)
    || (m.Resume? && m.r == r && s.recoveries[s.requests[r].pc.recovery].verdict.Recovered?)
  }

  /** The event fetches for request `r`. */
  predicate IsFetch(e: Event, r: nat) {
    e.Fetch? && e.r == r
  }

  lemma EmittedFetches(canRecover: bool, s: State, m: Move, r: nat)
    requires Enabled(s, m)
    ensures var more := Emits(canRecover, s, m);
      && |more| <= 2
      && (FetchesFor(s, m, r) <==> (|more| > 0 && IsFetch(more[0], r)) || (|more| > 1 && IsFetch(more[1], r)))
      && !(|more| > 1 && IsFetch(more[0], r) && IsFetch(more[1], r))
  {
  }

  lemma FetchesEmitted(canRecover: bool, s: State, m: Move, r: nat)
    requires Enabled(s, m)
    ensures Fetches(s.trace + Emits(canRecover, s, m), r) == Fetches(s.trace, r) + if FetchesFor(s, m, r) then 1 else 0
  {
    EmittedFetches(canRecover, s, m, r);
    FetchesAppend(s.trace, Emits(canRecover, s, m), r);
  }

  /** After a move each request has fetched as often as its program point says. */
  lemma StillFits(canRecover: bool, s: State, m: Move, r: nat, fetches: nat)
    requires Enabled(s, m)
    requires if r < |s.requests| then FetchesFit(s.requests[r].pc, fetches) else fetches == 0
    ensures var after := Change(canRecover, s, m).requests;
      var more := fetches + if FetchesFor(s, m, r) then 1 else 0;
      if r < |after| then FetchesFit(after[r].pc, more) else more == 0
  {
  }

  lemma FetchesOf(canRecover: bool, s: State, m: Move, r: nat)
    requires Enabled(s, m)
    requires if r < |s.requests| then FetchesFit(s.requests[r].pc, Fetches(s.trace, r)) else Fetches(s.trace, r) == 0
    ensures var t := Step(canRecover, s, m);
      if r < |t.requests| then FetchesFit(t.requests[r].pc, Fetches(t.trace, r)) else Fetches(t.trace, r) == 0
  {
    FetchesEmitted(canRecover, s, m, r);
    StillFits(canRecover, s, m, r, Fetches(s.trace, r));
  }

  /** In every interleaving a request fetches once or twice. */
  lemma {:induction false} AtMostTwoFetches(canRecover: bool, token: Token, moves: seq<Move>)
    ensures var s := Run(canRecover, token, moves);
      FetchesCounted(s) && forall r :: 0 <= r < |s.requests| ==> 1 <= Fetches(s.trace, r) <= 2
  {
    if moves == [] {
      assert [TokenSet(token)][..0] == [];
    } else {
      AtMostTwoFetches(canRecover, token, moves[..|moves| - 1]);
      FetchesStep(canRecover, Run(canRecover, token, moves[..|moves| - 1]), moves[|moves| - 1]);
    }
  }

  // Who waited for what.

  ghost predicate VerdictOf(recovery: Recovery, v: Verdict) {
    (recovery.Settled? || recovery.Released?) && recovery.verdict == v
  }

  /** Only requests on recoverable paths join a recovery, and none before its first answer. */
  ghost predicate JoinersAreRecoverable(canRecover: bool, s: State) {
    forall r: nat, i: nat :: Joined(r, i) in s.trace ==>
      r < |s.requests| && i < |s.recoveries| && canRecover && !Exempt(s.requests[r].path)
      && s.requests[r].pc != Fetching(false)
  }

  ghost predicate OneRecoveryEach(s: State) {
    forall r: nat, i: nat, j: nat :: Joined(r, i) in s.trace && Joined(r, j) in s.trace ==> i == j
  }

  ghost predicate WaitersAndStartersJoined(s: State) {
    && (forall r :: 0 <= r < |s.requests| && s.requests[r].pc.Waiting? ==>
          Joined(r, s.requests[r].pc.recovery) in s.trace)
    && (forall i: nat, r: nat :: Started(i, r) in s.trace ==> Joined(r, i) in s.trace)
  }

  ghost predicate Joins(canRecover: bool, s: State) {
    JoinersAreRecoverable(canRecover, s) && OneRecoveryEach(s) && WaitersAndStartersJoined(s)
  }

  /** A recovery finishes once, and its waiters resume with what it finished with. */
  ghost predicate Verdicts(s: State) {
    && (forall i: nat, v :: Finished(i, v) in s.trace <==> i < |s.recoveries| && VerdictOf(s.recoveries[i], v))
    && (forall r: nat, i: nat, v :: Resumed(r, i, v) in s.trace ==>
          Joined(r, i) in s.trace && i < |s.recoveries| && s.recoveries[i] == Released(v))
  }

  /** The history after a move. */
  lemma TraceStep(canRecover: bool, s: State, m: Move)
    requires Enabled(s, m)
    ensures forall e: Event :: e in Step(canRecover, s, m).trace <==> e in s.trace || e in Emits(canRecover, s, m)
  {
  }

  lemma JoinersStep(canRecover: bool, s: State, m: Move)
    requires JoinersAreRecoverable(canRecover, s) && SharedIsOutstanding(s)
    ensures JoinersAreRecoverable(canRecover, Step(canRecover, s, m))
  {
    if Enabled(s, m) {
      TraceStep(canRecover, s, m);
    }
  }

  lemma OneRecoveryStep(canRecover: bool, s: State, m: Move)
    requires JoinersAreRecoverable(canRecover, s) && OneRecoveryEach(s)
    ensures OneRecoveryEach(Step(canRecover, s, m))
  {
    if Enabled(s, m) {
      TraceStep(canRecover, s, m);
    }
  }

  lemma WaitersStep(canRecover: bool, s: State, m: Move)
    requires WaitersAndStartersJoined(s)
    ensures WaitersAndStartersJoined(Step(canRecover, s, m))
  {
    if Enabled(s, m) {
      TraceStep(canRecover, s, m);
    }
  }

  lemma JoinsStep(canRecover: bool, s: State, m: Move)
    requires Joins(canRecover, s) && SharedIsOutstanding(s)
    ensures Joins(canRecover, Step(canRecover, s, m))
  {
    JoinersStep(canRecover, s, m);
    OneRecoveryStep(canRecover, s, m);
    WaitersStep(canRecover, s, m);
  }

  lemma VerdictsStep(canRecover: bool, s: State, m: Move)
    requires Joins(canRecover, s) && Verdicts(s)
    ensures Verdicts(Step(canRecover, s, m))
  {
    if Enabled(s, m) {
      TraceStep(canRecover, s, m);
    }
  }

  lemma {:induction false} HistoryRun(canRecover: bool, token: Token, moves: seq<Move>)
    ensures var s := Run(canRecover, token, moves); Joins(canRecover, s) && Verdicts(s)
  {
    if moves != [] {
      var s := Run(canRecover, token, moves[..|moves| - 1]);
      HistoryRun(canRecover, token, moves[..|moves| - 1]);
      SharedRun(canRecover, token, moves[..|moves| - 1]);
      JoinsStep(canRecover, s, moves[|moves| - 1]);
      VerdictsStep(canRecover, s, moves[|moves| - 1]);
    }
  }

  /** All requests that waited for one recovery go on with the same verdict, the one it finished with. */
  lemma WaitersSeeOneVerdict(canRecover: bool, token: Token, moves: seq<Move>, r: nat, q: nat, i: nat,
                             v: Verdict, w: Verdict)
    requires var trace := Run(canRecover, token, moves).trace;
      Resumed(r, i, v) in trace && Resumed(q, i, w) in trace
    ensures v == w && Finished(i, v) in Run(canRecover, token, moves).trace
  {
    HistoryRun(canRecover, token, moves);
  }

  /** Refresh, login and register requests neither start a recovery nor wait for one, so a recovery may use them. */
  lemma ExemptPathsNeverRecover(canRecover: bool, token: Token, moves: seq<Move>, r: nat, i: nat)
    requires var s := Run(canRecover, token, moves); r < |s.requests| && (Exempt(s.requests[r].path) || !canRecover)
    ensures var s := Run(canRecover, token, moves);
      Joined(r, i) !in s.trace && Started(i, r) !in s.trace && s.requests[r].pc != Waiting(i)
  {
    HistoryRun(canRecover, token, moves);
  }

  // How requests end.

  /** A 401 answer to this request may be recovered. */
  ghost predicate Recoverable(canRecover: bool, q: Request, status: nat) {
    && status == 401 && q.pc == Fetching(false) && canRecover
    && !("/auth/refresh" <= q.path) && !("/auth/login" <= q.path) && !("/auth/register" <= q.path)
  }

  /** What each move does to a request that is there: it ends, waits, fetches again, or nothing happens to it. */
  lemma MoveDecides(canRecover: bool, s: State, m: Move, r: nat)
    requires Enabled(s, m) && r < |s.requests|
    ensures var t := Step(canRecover, s, m); var q := s.requests[r];
      r < |t.requests| && t.requests[r].path == q.path && t.requests[r].own == q.own
      && t.requests[r].pc ==
         if m == NetworkFails(r) then Ended(NetworkError)
         else if m.Response? && m.r == r then
           if !Recoverable(canRecover, q, m.status) then Ended(Answered(m.status))
           else if s.shared.Some? then Waiting(s.shared.value)
           else if m.startThrows then Ended(RecoveryFailed)
           else Waiting(|s.recoveries|)
         else if m == Resume(r) then
           match s.recoveries[q.pc.recovery].verdict
           case Recovered => Fetching(true)
           case NotRecovered => Ended(Answered(401))
           case Rejected => Ended(RecoveryFailed)
         else q.pc
  {
  }

  /** What a request that has resumed from its recovery with `v` can be doing. */
  ghost predicate GoesOnAs(pc: Pc, v: Verdict) {
    match v
    case Recovered => pc == Fetching(true) || pc == Ended(NetworkError) || (pc.Ended? && pc.outcome.Answered?)
    case NotRecovered => pc == Ended(Answered(401))
    case Rejected => pc == Ended(RecoveryFailed)
  }

  ghost predicate ResumedGoOn(s: State) {
    forall r: nat, i: nat, v :: Resumed(r, i, v) in s.trace ==> r < |s.requests| && GoesOnAs(s.requests[r].pc, v)
  }

  lemma ResumedStep(canRecover: bool, s: State, m: Move)
    requires ResumedGoOn(s)
    ensures ResumedGoOn(Step(canRecover, s, m))
  {
    if Enabled(s, m) {
      var t := Step(canRecover, s, m);
      TraceStep(canRecover, s, m);
      forall r: nat, i: nat, v | Resumed(r, i, v) in t.trace
        ensures r < |t.requests| && GoesOnAs(t.requests[r].pc, v)
      {
        assert r < |s.requests|;
        MoveDecides(canRecover, s, m, r);
      }
    }
  }

  /**
   * Over every run: a request whose recovery failed ends with its 401, one whose recovery
   * was rejected ends with that, and one whose recovery succeeded fetches again and ends with
   * what this fetch brings.
   */
  lemma {:induction false} VerdictDecides(canRecover: bool, token: Token, moves: seq<Move>, r: nat, i: nat, v: Verdict)
    requires Resumed(r, i, v) in Run(canRecover, token, moves).trace
    ensures var s := Run(canRecover, token, moves); r < |s.requests| && GoesOnAs(s.requests[r].pc, v)
  {
    ResumedRun(canRecover, token, moves);
  }

  lemma {:induction false} ResumedRun(canRecover: bool, token: Token, moves: seq<Move>)
    ensures ResumedGoOn(Run(canRecover, token, moves))
  {
    if moves != [] {
      ResumedRun(canRecover, token, moves[..|moves| - 1]);
      ResumedStep(canRecover, Run(canRecover, token, moves[..|moves| - 1]), moves[|moves| - 1]);
    }
  }

  // Retries.

  /** The token installed by the latest TokenSet. */
  function Latest(trace: seq<Event>): Token {
    if trace == [] then None
    else if trace[|trace| - 1].TokenSet? then trace[|trace| - 1].token
    else Latest(trace[..|trace| - 1])
  }

  ghost predicate WaitedForSuccess(before: seq<Event>, r: nat) {
    exists i: nat :: Joined(r, i) in before && Finished(i, Recovered) in before
  }

  /** A fetch carries its request's own header or the latest token; a retry has waited for a success. */
  ghost predicate FetchIsRight(requests: seq<Request>, before: seq<Event>, e: Event) {
    e.Fetch? ==>
      && e.r < |requests| && Carries(e.sent, requests[e.r].own, Latest(before))
      && (e.retry ==> WaitedForSuccess(before, e.r))
  }

  /** A non-empty header of the request's own goes first, then a non-empty token, as a bearer token. */
  ghost predicate Carries(sent: Token, own: Token, token: Token) {
    if own !in {None, Some("")} then sent == own
    else if token !in {None, Some("")} then sent == Some("Bearer " + token.value)
    else sent == own
  }

  ghost predicate FetchesAreRight(requests: seq<Request>, trace: seq<Event>) {
    forall p :: 0 <= p < |trace| ==> FetchIsRight(requests, trace[..p], trace[p])
  }

  /** A move adds requests at most, and changes no header. */
  lemma HeadersStay(canRecover: bool, s: State, m: Move)
    requires FetchesAreRight(s.requests, s.trace) && Enabled(s, m)
    ensures FetchesAreRight(Step(canRecover, s, m).requests, s.trace)
  {
    var after := Step(canRecover, s, m).requests;
    assert |s.requests| <= |after| && forall r :: 0 <= r < |s.requests| ==> after[r].own == s.requests[r].own;
    forall p | 0 <= p < |s.trace| ensures FetchIsRight(after, s.trace[..p], s.trace[p]) {
      assert FetchIsRight(s.requests, s.trace[..p], s.trace[p]);
    }
  }

  lemma LatestAppend(trace: seq<Event>, e: Event)
    ensures Latest(trace + [e]) == if e.TokenSet? then e.token else Latest(trace)
  {
    assert (trace + [e])[..|trace|] == trace;
  }

  lemma RightAppend(requests: seq<Request>, trace: seq<Event>, e: Event)
    requires FetchesAreRight(requests, trace) && FetchIsRight(requests, trace, e)
    ensures FetchesAreRight(requests, trace + [e])
  {
    forall p | 0 <= p <= |trace| ensures FetchIsRight(requests, (trace + [e])[..p], (trace + [e])[p]) {
      assert (trace + [e])[..p] == trace[..p];
      assert trace[..|trace|] == trace;
    }
  }

  lemma RightTwice(requests: seq<Request>, trace: seq<Event>, more: seq<Event>)
    requires FetchesAreRight(requests, trace) && |more| <= 2
    requires |more| > 0 ==> FetchIsRight(requests, trace, more[0])
    requires |more| > 1 ==> FetchIsRight(requests, trace + [more[0]], more[1])
    ensures FetchesAreRight(requests, trace + more)
    ensures |more| == 1 ==> trace + more == trace + [more[0]]
    ensures (forall e <- more :: !e.TokenSet?) ==> Latest(trace + more) == Latest(trace)
  {
    if |more| == 0 {
      assert trace + more == trace;
    } else {
      RightAppend(requests, trace, more[0]);
      LatestAppend(trace, more[0]);
      if |more| == 1 {
        assert trace + more == trace + [more[0]];
      } else {
        assert trace + more == (trace + [more[0]]) + [more[1]];
        RightAppend(requests, trace + [more[0]], more[1]);
        LatestAppend(trace + [more[0]], more[1]);
      }
    }
  }

  /** The fetches a move emits are right. */
  lemma EmitsAreRight(canRecover: bool, s: State, m: Move)
    requires Joins(canRecover, s) && Verdicts(s) && s.token == Latest(s.trace) && Enabled(s, m)
    ensures var more, after := Emits(canRecover, s, m), Step(canRecover, s, m).requests;
      && |more| <= 2 && (|more| > 0 ==> FetchIsRight(after, s.trace, more[0]))
      && (|more| > 1 ==> FetchIsRight(after, s.trace + [more[0]], more[1]))
  {
    if m.Resume? {
      var first := Emits(canRecover, s, m)[0];
      RetryIsRight(canRecover, s, m.r, first);
      LatestAppend(s.trace, first);
    }
  }

  /** Only SetToken changes the token, and only it is recorded as doing so. */
  lemma TokenAfter(canRecover: bool, s: State, m: Move)
    requires Enabled(s, m)
    ensures Step(canRecover, s, m).trace == s.trace + Emits(canRecover, s, m)
    ensures m.SetToken? ==> Step(canRecover, s, m).token == m.token && Emits(canRecover, s, m) == [TokenSet(m.token)]
    ensures !m.SetToken? ==>
      Step(canRecover, s, m).token == s.token && forall e <- Emits(canRecover, s, m) :: !e.TokenSet?
  {
  }

  lemma RightStep(canRecover: bool, s: State, m: Move)
    requires Joins(canRecover, s) && Verdicts(s)
    requires FetchesAreRight(s.requests, s.trace) && s.token == Latest(s.trace)
    ensures var t := Step(canRecover, s, m); FetchesAreRight(t.requests, t.trace) && t.token == Latest(t.trace)
  {
    if Enabled(s, m) {
      HeadersStay(canRecover, s, m);
      EmitsAreRight(canRecover, s, m);
      TokenAfter(canRecover, s, m);
      RightTwice(Step(canRecover, s, m).requests, s.trace, Emits(canRecover, s, m));
      if m.SetToken? {
        LatestAppend(s.trace, TokenSet(m.token));
      }
    }
  }

  lemma RetryIsRight(canRecover: bool, s: State, r: nat, e: Event)
    requires Joins(canRecover, s) && Verdicts(s) && Enabled(s, Resume(r))
    ensures s.recoveries[s.requests[r].pc.recovery].verdict.Recovered? ==> WaitedForSuccess(s.trace + [e], r)
  {
    var i := s.requests[r].pc.recovery;
    if s.recoveries[i].verdict.Recovered? {
      assert VerdictOf(s.recoveries[i], Recovered);
      assert Joined(r, i) in s.trace + [e] && Finished(i, Recovered) in s.trace + [e];
    }
  }

  /**
   * In every interleaving a retry comes after a recovery its request waited for has
   * succeeded, and every fetch carries the token that is the latest at that moment,
   * unless its request has an Authorization header of its own, which it then carries.
   */
  lemma {:induction false} RetryReadsTheTokenAfterRecovery(canRecover: bool, token: Token, moves: seq<Move>)
    ensures var s := Run(canRecover, token, moves); FetchesAreRight(s.requests, s.trace) && s.token == Latest(s.trace)
  {
    if moves == [] {
      assert [TokenSet(token)][..0] == [];
    } else {
      RetryReadsTheTokenAfterRecovery(canRecover, token, moves[..|moves| - 1]);
      HistoryRun(canRecover, token, moves[..|moves| - 1]);
      RightStep(canRecover, Run(canRecover, token, moves[..|moves| - 1]), moves[|moves| - 1]);
    }
  }

  // How many recoveries.

  /** The requests that have had an answer. */
  function Answers(requests: seq<Request>): nat {
    if requests == [] then 0
    else Answers(requests[..|requests| - 1]) + if requests[|requests| - 1].pc == Fetching(false) then 0 else 1
  }

  lemma {:induction false} AnswersUpdate(requests: seq<Request>, r: nat, q: Request)
    requires r < |requests|
    ensures Answers(requests[r := q]) == Answers(requests)
      - (if requests[r].pc == Fetching(false) then 0 else 1) + (if q.pc == Fetching(false) then 0 else 1)
  {
    var front := requests[..|requests| - 1];
    if r < |front| {
      AnswersUpdate(front, r, q);
      assert requests[r := q][..|front|] == front[r := q];
    } else {
      assert requests[r := q][..|front|] == front;
    }
  }

  lemma AnswersAppend(requests: seq<Request>, q: Request)
    ensures Answers(requests + [q]) == Answers(requests) + if q.pc == Fetching(false) then 0 else 1
  {
    assert (requests + [q])[..|requests|] == requests;
  }

  lemma RecoveriesStep(canRecover: bool, s: State, m: Move)
    requires |s.recoveries| <= Answers(s.requests)
    ensures var t := Step(canRecover, s, m); |t.recoveries| <= Answers(t.requests)
  {
    var t := Step(canRecover, s, m);
    if Enabled(s, m) {
      match m
      case New(path, own) => AnswersAppend(s.requests, Request(path, own, Fetching(false)));
      case NetworkFails(r) => AnswersUpdate(s.requests, r, t.requests[r]);
      case Response(r, _, _) => AnswersUpdate(s.requests, r, t.requests[r]);
      case Resume(r) => AnswersUpdate(s.requests, r, t.requests[r]);
      case _ =>
    }
  }

  /** There are never more recoveries than requests that have been answered. */
  lemma {:induction false} RecoveriesAreBounded(canRecover: bool, token: Token, moves: seq<Move>)
    ensures var s := Run(canRecover, token, moves); |s.recoveries| <= Answers(s.requests)
  {
    if moves != [] {
      RecoveriesAreBounded(canRecover, token, moves[..|moves| - 1]);
      RecoveriesStep(canRecover, Run(canRecover, token, moves[..|moves| - 1]), moves[|moves| - 1]);
    }
  }

  /** A recoverable 401 starts a recovery exactly when none is outstanding, whatever token was sent. */
  lemma StartsRecoveryIff(canRecover: bool, token: Token, moves: seq<Move>, r: nat)
    requires var s := Run(canRecover, token, moves);
      Enabled(s, Response(r, 401, false)) && MayRecover(canRecover, s.requests[r], 401)
    ensures var s := Run(canRecover, token, moves); var t := Step(canRecover, s, Response(r, 401, false));
      && (|t.recoveries| == |s.recoveries| + 1
          <==> forall i :: 0 <= i < |s.recoveries| ==> s.recoveries[i].Released?)
      && (|t.recoveries| == |s.recoveries| || |t.recoveries| == |s.recoveries| + 1)
  {
    SharedRun(canRecover, token, moves);
  }

  /** Six moves: two requests, the first rejected, its recovery done, and only then the second rejected. */
  function LateAnswer(first: string, second: string, verdict: Verdict): seq<Move> {
    [New(first, None), New(second, None), Response(0, 401, false), Settle(0, verdict), RunFinally(0),
     Response(1, 401, false)]
  }

  /** So one stale token can cost two recoveries: the bound by requests is reached, a bound by tokens is not kept. */
  lemma LateAnswerRecoversAgain(token: Token, first: string, second: string, verdict: Verdict)
    requires !Exempt(first) && !Exempt(second)
    ensures var s := Run(true, token, LateAnswer(first, second, verdict));
      && |s.recoveries| == 2 && Answers(s.requests) == 2
      && Fetch(0, false, Header(None, token)) in s.trace && Fetch(1, false, Header(None, token)) in s.trace
  {
    FirstRejected(token, first, second, verdict);
    SecondRejected(token, first, second, verdict);
    var s := Run(true, token, LateAnswer(first, second, verdict));
    assert s.trace[1] == Fetch(0, false, Header(None, token)) && s.trace[2] == Fetch(1, false, Header(None, token));
    AnswersAppend([], s.requests[0]);
    AnswersAppend([s.requests[0]], s.requests[1]);
    assert [] + [s.requests[0]] == [s.requests[0]] && [s.requests[0]] + [s.requests[1]] == s.requests;
  }

  /** After three of the moves. */
  function OneWaits(token: Token, first: string, second: string): State {
    State([Request(first, None, Waiting(0)), Request(second, None, Fetching(false))], [Pending], Some(0), token,
          [TokenSet(token), Fetch(0, false, Header(None, token)), Fetch(1, false, Header(None, token)),
           Started(0, 0), Joined(0, 0)])
  }

  lemma FirstRejected(token: Token, first: string, second: string, verdict: Verdict)
    requires !Exempt(first)
    ensures Run(true, token, LateAnswer(first, second, verdict)[..3]) == OneWaits(token, first, second)
  {
    var moves := LateAnswer(first, second, verdict);
    assert moves[..0] == [];
    RunOneMore(true, token, moves, 0);
    RunOneMore(true, token, moves, 1);
    RunOneMore(true, token, moves, 2);
  }

  lemma SecondRejected(token: Token, first: string, second: string, verdict: Verdict)
    requires !Exempt(second)
    requires Run(true, token, LateAnswer(first, second, verdict)[..3]) == OneWaits(token, first, second)
    ensures var s := Run(true, token, LateAnswer(first, second, verdict));
      && s.requests == [Request(first, None, Waiting(0)), Request(second, None, Waiting(1))]
      && s.recoveries == [Released(verdict), Pending]
      && s.trace == OneWaits(token, first, second).trace + [Finished(0, verdict)] + [Started(1, 1), Joined(1, 1)]
  {
    var moves := LateAnswer(first, second, verdict);
    assert moves[..6] == moves;
    RunOneMore(true, token, moves, 3);
    RunOneMore(true, token, moves, 4);
    RunOneMore(true, token, moves, 5);
  }

  lemma RunOneMore(canRecover: bool, token: Token, moves: seq<Move>, n: nat)
    requires n < |moves|
    ensures Run(canRecover, token, moves[..n + 1]) == Step(canRecover, Run(canRecover, token, moves[..n]), moves[n])
  {
    assert moves[..n + 1][..n] == moves[..n];
  }

  // The closure.

  /** One client; each method is the code between two awaits. */
  class Client {
    const canRecover: bool
    var unauthorizedRecovery: Option<nat>
    var requests: seq<Request>
    var recoveries: seq<Recovery>
    var token: Token
    ghost var trace: seq<Event>

    ghost function View(): State
      reads this
    {
      State(requests, recoveries, unauthorizedRecovery, token, trace)
    }

    constructor (canRecover: bool, token: Token)
      ensures this.canRecover == canRecover && View() == Start(token)
    {
      this.canRecover, this.token := canRecover, token;
      unauthorizedRecovery, requests, recoveries := None, [], [];
      trace := [TokenSet(token)];
    }

    method SetAccessToken(token: Token)
      modifies this
      ensures View() == Step(canRecover, old(View()), SetToken(token))
    {
      this.token := token;
      trace := trace + [TokenSet(token)];
    }

    /** A new request up to its first fetch. */
    method Send(path: string, own: Token) returns (r: nat)
      modifies this
      ensures r == |old(requests)| && View() == Step(canRecover, old(View()), New(path, own))
    {
      r := |requests|;
      trace := trace + [Fetch(r, false, Header(own, token))];
      requests := requests + [Request(path, own, Fetching(false))];
    }

    /** After the answer to a fetch. */
    method AfterResponse(r: nat, status: nat, startThrows: bool)
      requires Enabled(View(), Response(r, status, startThrows))
      modifies this
      ensures View() == Step(canRecover, old(View()), Response(r, status, startThrows))
    {
      var q := requests[r];
      var mayRecover := status == 401 && !q.pc.retried && canRecover && !Exempt(q.path);
      if !mayRecover {
        requests := requests[r := q.(pc := Ended(Answered(status)))];
        assert trace + [] == trace;
        return;
      }
      if unauthorizedRecovery.None? {
        if startThrows {
          requests := requests[r := q.(pc := Ended(RecoveryFailed))];
          assert trace + [] == trace;
          return;
        }
        unauthorizedRecovery := Some(|recoveries|);
        trace := trace + [Started(|recoveries|, r), Joined(r, |recoveries|)];
        recoveries := recoveries + [Pending];
      } else {
        trace := trace + [Joined(r, unauthorizedRecovery.value)];
      }
      requests := requests[r := q.(pc := Waiting(unauthorizedRecovery.value))];
    }

    method AfterNetworkError(r: nat)
      requires Enabled(View(), NetworkFails(r))
      modifies this
      ensures View() == Step(canRecover, old(View()), NetworkFails(r))
    {
      requests := requests[r := requests[r].(pc := Ended(NetworkError))];
      assert trace + [] == trace;
    }

    /** The `finally` callback. */
    method ClearRecovery(i: nat)
      requires Enabled(View(), RunFinally(i))
      modifies this
      ensures View() == Step(canRecover, old(View()), RunFinally(i))
    {
      unauthorizedRecovery := None;
      recoveries := recoveries[i := Released(recoveries[i].verdict)];
      assert trace + [] == trace;
    }

    /** After the await on the shared recovery. */
    method AfterRecovery(r: nat)
      requires Enabled(View(), Resume(r))
      modifies this
      ensures View() == Step(canRecover, old(View()), Resume(r))
    {
      var q := requests[r];
      var i := q.pc.recovery;
      match recoveries[i].verdict {
        case Recovered =>
          trace := trace + [Resumed(r, i, Recovered), Fetch(r, true, Header(q.own, token))];
          requests := requests[r := q.(pc := Fetching(true))];
        case NotRecovered =>
          trace := trace + [Resumed(r, i, NotRecovered)];
          requests := requests[r := q.(pc := Ended(Answered(401)))];
        case Rejected =>
          trace := trace + [Resumed(r, i, Rejected)];
          requests := requests[r := q.(pc := Ended(RecoveryFailed))];
      }
    }
  }
}

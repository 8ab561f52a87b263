/** The request loop of the HTTP client: it executes, refreshes the session at
    most once on a 401, and retries with a growing delay. What one execution
    brings back, and what the refresh yields, are inputs. */
module Executor {
  import opened Basics
  import SingleFlight

  /** A valid HTTP status. */
  type Status = x: int | 100 <= x < 1000 witness 200

  datatype ApiError =
    | TransportFailure(again: bool)
    | Unauthorized(status: Status)
    | Forbidden(status: Status)
    | TooManyRequests(status: Status)
    | BadRequest(status: Status)
    | Server(status: Status)
    | DecodeFailure
    | TokenStoreFailure
    | MissingToken
    | Internal
  {
    predicate IsRetryable() {
      match this
      case TransportFailure(again) => again
      case Server(_) => true
      case _ => false
    }
  }

  /** What the transport brings back: no answer (a timeout, connection or
      request failure is worth retrying), or a status and a body that may decode. */
  datatype Answer<+R> = NoAnswer(again: bool) | Answered(status: Status, body: Option<R>)

  function MapStatusError(status: Status): ApiError {
    if status == 401 then Unauthorized(status)
    else if status == 403 then Forbidden(status)
    else if status == 429 then TooManyRequests(status)
    else if 500 <= status < 600 then Server(status)
    else BadRequest(status)
  }

  function ExecuteOnce<R>(answer: Answer<R>): Result<R, ApiError> {
    match answer
    case NoAnswer(again) => Err(TransportFailure(again))
    case Answered(status, body) =>
      if 200 <= status < 300 then (match body case Some(value) => Ok(value) case None => Err(DecodeFailure))
      else Err(MapStatusError(status))
  }

  datatype Config = Config(maxRetries: nat, baseDelay: nat)

  function BackoffDelay(config: Config, attempt: nat): nat {
    config.baseDelay * Power(Min(attempt, 6))
  }

  datatype Act = Executed(bearer: Option<Token>) | Refreshed(used: Option<Token>) | Slept(delay: nat)

  /** What surrounds one request: the answers to its executions, in order, and
      what refreshing the session yields if it comes to that. */
  datatype World<!R> = World(answers: nat -> Answer<R>, refresh: Result<Option<Token>, ApiError>)

  /** Where the loop stands. */
  datatype Loop = Loop(executions: nat, bearer: Option<Token>, refreshed: bool, attempt: nat) {
    function Renewed(token: Option<Token>): Loop {
      Loop(executions + 1, token, true, attempt)
    }

    function Retried(): Loop {
      Loop(executions + 1, bearer, refreshed, attempt + 1)
    }
  }

  datatype Played<+R> = Played(result: Result<R, ApiError>, acts: seq<Act>) {
    function Behind(a: Act, b: Act): Played<R> {
      Played(result, [a, b] + acts)
    }
  }

  function Attempts<R>(config: Config, auth: bool, world: World<R>, at: Loop): Played<R>
    decreases !at.refreshed, config.maxRetries - at.attempt
  {
    match ExecuteOnce(world.answers(at.executions))
    case Ok(value) => Played(Ok(value), [Executed(at.bearer)])
    case Err(err) =>
      if auth && !at.refreshed && err.Unauthorized? then
        match world.refresh {
          case Err(fault) => Played(Err(fault), [Executed(at.bearer), Refreshed(at.bearer)])
          case Ok(None) => Played(Err(err), [Executed(at.bearer), Refreshed(at.bearer)])
          case Ok(renewed) =>
            Attempts(config, auth, world, at.Renewed(renewed)).Behind(Executed(at.bearer), Refreshed(at.bearer))
        }
      else if err.IsRetryable() && at.attempt < config.maxRetries then
        Attempts(config, auth, world, at.Retried())
          .Behind(Executed(at.bearer), Slept(BackoffDelay(config, at.attempt)))
      else
        Played(Err(err), [Executed(at.bearer)])
  }

  method Request<R>(
      config: Config, auth: bool, stored: Result<Option<Token>, ApiError>, serializable: bool, world: World<R>)
    returns (r: Result<R, ApiError>, acts: seq<Act>)
    ensures auth && stored.Err? ==> r == Err(stored.error) && acts == []
    ensures auth && stored == Ok(None) ==> r == Err(MissingToken) && acts == []
    ensures (auth ==> stored.Ok? && stored.value.Some?) && !serializable ==> r == Err(Internal) && acts == []
    ensures (auth ==> stored.Ok? && stored.value.Some?) && serializable ==>
              Played(r, acts) == Attempts(config, auth, world, Loop(0, if auth then stored.value else None, false, 0))
  {
    acts := [];
    var bearer: Option<Token> := None;
    if auth {
      match stored {
        case Err(error) => return Err(error), acts;
        case Ok(None) => return Err(MissingToken), acts;
        case Ok(Some(token)) => bearer := Some(token);
      }
    }
    if !serializable {
      return Err(Internal), acts;
    }
    r, acts := ExecuteWithRetries(config, auth, bearer, world);
  }

  method ExecuteWithRetries<R>(config: Config, auth: bool, initial: Option<Token>, world: World<R>)
    returns (r: Result<R, ApiError>, acts: seq<Act>)
    ensures Played(r, acts) == Attempts(config, auth, world, Loop(0, initial, false, 0))
  {
    hide BackoffDelay, ExecuteOnce;
    acts := [];
    var bearer, executions, alreadyRefreshed, attempt := initial, 0, false, 0;
    ghost var whole := Attempts(config, auth, world, Loop(0, initial, false, 0));
    while true
      invariant var now := Attempts(config, auth, world, Loop(executions, bearer, alreadyRefreshed, attempt));
                whole.result == now.result && whole.acts == acts + now.acts
      decreases !alreadyRefreshed, config.maxRetries - attempt
    {
      ghost var before := acts;
      ghost var at := Loop(executions, bearer, alreadyRefreshed, attempt);
      ghost var now := Attempts(config, auth, world, at);
      var result := ExecuteOnce(world.answers(executions));
      executions := executions + 1;
      acts := acts + [Executed(bearer)];
      if result.Ok? {
        return Ok(result.value), acts;
      }
      var err := result.error;
      if auth && !alreadyRefreshed && err.Unauthorized? {
        alreadyRefreshed := true;
        acts := acts + [Refreshed(bearer)];
        assert acts == before + [Executed(bearer), Refreshed(bearer)];
        if world.refresh.Err? {
          return Err(world.refresh.error), acts;
        }
        if world.refresh.value.None? {
          return Err(err), acts;
        }
        bearer := world.refresh.value;
        AppendBoth(before, at, now.acts, Attempts(config, auth, world, at.Renewed(bearer)).acts, Refreshed(at.bearer));
        continue;
      }
      if err.IsRetryable() && attempt < config.maxRetries {
        var delay := BackoffDelay(config, attempt);
        acts := acts + [Slept(delay)];
        attempt := attempt + 1;
        AppendBoth(before, at, now.acts, Attempts(config, auth, world, at.Retried()).acts, Slept(delay));
        continue;
      }
      return Err(err), acts;
    }
  }

  lemma AppendBoth(before: seq<Act>, at: Loop, all: seq<Act>, later: seq<Act>, b: Act)
    requires all == [Executed(at.bearer), b] + later
    ensures before + all == (before + [Executed(at.bearer)] + [b]) + later
  {
  }

  /** What each answer means: the error says the status, and 401, 403, 429 and
      5xx are told apart from every other failure. */
  lemma AnswerTellsTheResult<R>(answer: Answer<R>)
    ensures var r := ExecuteOnce(answer);
            && (r.Ok? <==> answer.Answered? && 200 <= answer.status < 300 && answer.body.Some?)
            && (r.Ok? ==> answer.body == Some(r.value))
            && (r == Err(DecodeFailure) <==> answer.Answered? && 200 <= answer.status < 300 && answer.body.None?)
            && (forall again :: r == Err(TransportFailure(again)) <==> answer == NoAnswer(again))
            && (forall status :: r == Err(Unauthorized(status)) <==> answer.Answered? && answer.status == status == 401)
            && (forall status :: r == Err(Forbidden(status)) <==> answer.Answered? && answer.status == status == 403)
            && (forall status :: r == Err(TooManyRequests(status)) <==> answer.Answered? && answer.status == status == 429)
            && (forall status :: r == Err(Server(status)) <==> answer.Answered? && answer.status == status && 500 <= status < 600)
            && (forall status :: r == Err(BadRequest(status)) <==>
                  answer.Answered? && answer.status == status && !(200 <= status < 300) && !(500 <= status < 600) &&
                  status != 401 && status != 403 && status != 429)
  {
  }

  // The budget.

  function Executions(acts: seq<Act>): nat {
    if acts == [] then 0 else (if acts[0].Executed? then 1 else 0) + Executions(acts[1..])
  }

  function Refreshes(acts: seq<Act>): nat {
    if acts == [] then 0 else (if acts[0].Refreshed? then 1 else 0) + Refreshes(acts[1..])
  }

  function Sleeps(acts: seq<Act>): seq<nat> {
    if acts == [] then [] else (if acts[0].Slept? then [acts[0].delay] else []) + Sleeps(acts[1..])
  }

  lemma CountsUnfold(a: Act, rest: seq<Act>)
    ensures Executions([a] + rest) == (if a.Executed? then 1 else 0) + Executions(rest)
    ensures Refreshes([a] + rest) == (if a.Refreshed? then 1 else 0) + Refreshes(rest)
    ensures Sleeps([a] + rest) == (if a.Slept? then [a.delay] else []) + Sleeps(rest)
  {
    assert ([a] + rest)[1..] == rest;
  }

  lemma CountsOfOne(a: Act)
    ensures Executions([]) == 0 && Refreshes([]) == 0 && Sleeps([]) == []
    ensures Executions([a]) == (if a.Executed? then 1 else 0) && Refreshes([a]) == (if a.Refreshed? then 1 else 0)
    ensures Sleeps([a]) == (if a.Slept? then [a.delay] else [])
  {
    assert [a][1..] == [];
  }

  lemma CountsBehind(a: Act, b: Act, later: seq<Act>)
    requires a.Executed? && !b.Executed?
    ensures Executions([a, b] + later) == 1 + Executions(later)
    ensures Refreshes([a, b] + later) == (if b.Refreshed? then 1 else 0) + Refreshes(later)
    ensures Sleeps([a, b] + later) == (if b.Slept? then [b.delay] else []) + Sleeps(later)
  {
    hide Executions, Refreshes, Sleeps;
    assert [a, b] + later == [a] + ([b] + later);
    CountsUnfold(a, [b] + later);
    CountsUnfold(b, later);
  }

  /** The delays of `n` retries, the first being retry number `from`. */
  function Delays(config: Config, from: nat, n: nat): seq<nat>
    decreases n
  {
    if n == 0 then [] else [BackoffDelay(config, from)] + Delays(config, from + 1, n - 1)
  }

  /** From wherever the loop stands: at most the retries left, one execution
      more, and another for a refresh; the delays follow the schedule. */
  lemma {:induction false} LoopBudget<R>(config: Config, auth: bool, world: World<R>, at: Loop)
    requires at.attempt <= config.maxRetries
    ensures var acts := Attempts(config, auth, world, at).acts;
            var refreshLeft := if auth && !at.refreshed then 1 else 0;
            && 1 <= Executions(acts) <= config.maxRetries - at.attempt + 1 + refreshLeft
            && Refreshes(acts) <= refreshLeft
            && |Sleeps(acts)| <= config.maxRetries - at.attempt
            && Sleeps(acts) == Delays(config, at.attempt, |Sleeps(acts)|)
    decreases !at.refreshed, config.maxRetries - at.attempt
  {
    hide BackoffDelay, MapStatusError, Executions, Refreshes, Sleeps;
    CountsOfOne(Executed(at.bearer));
    CountsBehind(Executed(at.bearer), Refreshed(at.bearer), []);
    assert [Executed(at.bearer), Refreshed(at.bearer)] + [] == [Executed(at.bearer), Refreshed(at.bearer)];
    match ExecuteOnce(world.answers(at.executions))
    case Ok(_) =>
    case Err(err) =>
      if auth && !at.refreshed && err.Unauthorized? {
        if world.refresh.Ok? && world.refresh.value.Some? {
          var next := at.Renewed(world.refresh.value);
          LoopBudget(config, auth, world, next);
          CountsBehind(Executed(at.bearer), Refreshed(at.bearer), Attempts(config, auth, world, next).acts);
        }
      } else if err.IsRetryable() && at.attempt < config.maxRetries {
        var next := at.Retried();
        LoopBudget(config, auth, world, next);
        CountsBehind(Executed(at.bearer), Slept(BackoffDelay(config, at.attempt)), Attempts(config, auth, world, next).acts);
      }
  }

  function Start(auth: bool, token: Token): Loop {
    Loop(0, if auth then Some(token) else None, false, 0)
  }

  lemma RequestBudget<R>(config: Config, auth: bool, world: World<R>, token: Token)
    ensures var acts := Attempts(config, auth, world, Start(auth, token)).acts;
            && 1 <= Executions(acts) <= config.maxRetries + (if auth then 2 else 1)
            && Refreshes(acts) <= (if auth then 1 else 0)
            && |Sleeps(acts)| <= config.maxRetries
            && Sum(Sleeps(acts)) == TotalDelay(config, |Sleeps(acts)|)
  {
    LoopBudget(config, auth, world, Start(auth, token));
    DelaysAddUp(config, |Sleeps(Attempts(config, auth, world, Start(auth, token)).acts)|);
  }

  /** The budget is reached: one 401, then failures worth retrying. */
  function Unlucky<R>(token: Token): World<R> {
    World(n => if n == 0 then Answered(401, None) else NoAnswer(true), Ok(Some(token)))
  }

  lemma {:induction false} RetriesExhausted<R>(config: Config, token: Token, at: Loop)
    requires at.refreshed && at.executions > 0 && at.attempt <= config.maxRetries
    ensures Executions(Attempts<R>(config, true, Unlucky(token), at).acts) == config.maxRetries - at.attempt + 1
    decreases config.maxRetries - at.attempt
  {
    hide BackoffDelay, Executions;
    CountsOfOne(Executed(at.bearer));
    if at.attempt < config.maxRetries {
      RetriesExhausted<R>(config, token, at.Retried());
      CountsBehind(Executed(at.bearer), Slept(BackoffDelay(config, at.attempt)),
                   Attempts<R>(config, true, Unlucky(token), at.Retried()).acts);
    }
  }

  lemma BudgetIsReached<R>(config: Config, token: Token, renewed: Token)
    ensures Executions(Attempts<R>(config, true, Unlucky(renewed), Start(true, token)).acts) == config.maxRetries + 2
  {
    var next := Loop(1, Some(renewed), true, 0);
    RetriesExhausted<R>(config, renewed, next);
    CountsBehind(Executed(Some(token)), Refreshed(Some(token)), Attempts<R>(config, true, Unlucky(renewed), next).acts);
  }

  // The delays.

  /** How many times the base delay `n` retries sleep in all. */
  function TotalFactor(n: nat): nat {
    Power(Min(n, 7)) - 1 + 64 * Max(0, n - 7)
  }

  function TotalDelay(config: Config, n: nat): int {
    config.baseDelay * TotalFactor(n)
  }

  lemma {:induction false} LastDelay(config: Config, from: nat, n: nat)
    ensures Delays(config, from, n + 1) == Delays(config, from, n) + [BackoffDelay(config, from + n)]
    decreases n
  {
    if n > 0 {
      LastDelay(config, from + 1, n - 1);
    }
  }

  lemma SmallPowers()
    ensures Power(6) == 64 && Power(7) == 128
  {
    assert Power(3) == 8;
    assert Power(5) == 32;
  }

  lemma FactorGrows(n: nat)
    ensures TotalFactor(n + 1) == TotalFactor(n) + Power(Min(n, 6))
  {
    SmallPowers();
  }

  lemma {:induction false} DelaysAddUp(config: Config, n: nat)
    ensures Sum(Delays(config, 0, n)) == TotalDelay(config, n)
  {
    hide Power, TotalFactor, Sum;
    if n == 0 {
      NothingSlept();
    } else {
      DelaysAddUp(config, n - 1);
      LastDelay(config, 0, n - 1);
      SumAppend(Delays(config, 0, n - 1), [BackoffDelay(config, n - 1)]);
      SumOfOne(BackoffDelay(config, n - 1));
      FactorGrows(n - 1);
      Distributes(TotalFactor(n - 1), Power(Min(n - 1, 6)), config.baseDelay);
    }
  }

  lemma SumOfOne(n: nat)
    ensures Sum([n]) == n
  {
    assert [n][1..] == [];
  }

  lemma NothingSlept()
    ensures TotalFactor(0) == 0 && Sum([]) == 0
  {
  }

  // What each execution carries, and what the request answers.

  /** Walking the log with the token in hand: every execution carries it, and a
      refresh is told of it and, if anything follows, replaces it. */
  predicate CarriesTheLatest(acts: seq<Act>, bearer: Option<Token>, renewed: Option<Token>) {
    acts == [] ||
    match acts[0]
    case Executed(b) => b == bearer && CarriesTheLatest(acts[1..], bearer, renewed)
    case Slept(_) => CarriesTheLatest(acts[1..], bearer, renewed)
    case Refreshed(used) =>
      used == bearer && (acts[1..] == [] || (renewed.Some? && CarriesTheLatest(acts[1..], renewed, None)))
  }

  lemma {:induction false} BearersFollowTheRefresh<R>(config: Config, auth: bool, world: World<R>, at: Loop)
    ensures CarriesTheLatest(Attempts(config, auth, world, at).acts, at.bearer,
                             if !at.refreshed && world.refresh.Ok? then world.refresh.value else None)
    decreases !at.refreshed, config.maxRetries - at.attempt
  {
    hide BackoffDelay, MapStatusError;
    var acts := Attempts(config, auth, world, at).acts;
    match ExecuteOnce(world.answers(at.executions))
    case Ok(_) =>
      assert acts[1..] == [];
    case Err(err) =>
      if auth && !at.refreshed && err.Unauthorized? {
        if world.refresh.Ok? && world.refresh.value.Some? {
          BearersFollowTheRefresh(config, auth, world, at.Renewed(world.refresh.value));
          assert acts[1..][1..] == Attempts(config, auth, world, at.Renewed(world.refresh.value)).acts;
        } else {
          assert acts[1..][1..] == [];
        }
      } else if err.IsRetryable() && at.attempt < config.maxRetries {
        BearersFollowTheRefresh(config, auth, world, at.Retried());
        assert acts[1..][1..] == Attempts(config, auth, world, at.Retried()).acts;
      } else {
        assert acts[1..] == [];
      }
  }

  /** So every execution carries the first token or the renewed one. */
  lemma {:induction false} CarriesOneOfTwoTokens(acts: seq<Act>, bearer: Option<Token>, renewed: Option<Token>, a: Act)
    requires CarriesTheLatest(acts, bearer, renewed) && (renewed.Some? ==> bearer.Some?)
    requires a in acts && a.Executed?
    ensures a.bearer == bearer || (renewed.Some? && a.bearer == renewed)
    decreases acts
  {
    if a != acts[0] {
      assert a in acts[1..];
      match acts[0]
      case Refreshed(_) => CarriesOneOfTwoTokens(acts[1..], renewed, None, a);
      case _ => CarriesOneOfTwoTokens(acts[1..], bearer, renewed, a);
    }
  }

  /** In terms of the answers alone: a 401 to an authenticated request that has
      not refreshed yet is followed by a refresh, a failed transport worth another
      try and a 5xx by a sleep while retries are left, and anything else ends it. */
  lemma WhatFollowsAnAnswer<R>(config: Config, auth: bool, world: World<R>, at: Loop)
    ensures var played := Attempts(config, auth, world, at);
            var answer := world.answers(at.executions);
            var refused := answer.Answered? && answer.status == 401;
            var unwell := answer == NoAnswer(true) || (answer.Answered? && 500 <= answer.status < 600);
            var ended := |played.acts| == 1;
            && played.acts != [] && played.acts[0] == Executed(at.bearer)
            && (!ended && played.acts[1].Refreshed? <==> auth && !at.refreshed && refused)
            && (!ended && played.acts[1].Slept? <==> at.attempt < config.maxRetries && unwell)
            && (ended <==> !(auth && !at.refreshed && refused) && !(at.attempt < config.maxRetries && unwell))
            && (ended && played.result.Ok? <==> answer.Answered? && 200 <= answer.status < 300 && answer.body.Some?)
  {
    hide BackoffDelay;
  }

  ghost predicate EveryExecutionCarries(acts: seq<Act>, some: bool) {
    forall a :: a in acts && a.Executed? ==> (a.bearer.Some? <==> some)
  }

  lemma {:induction false} BearerKept<R>(config: Config, auth: bool, world: World<R>, at: Loop)
    requires at.bearer.Some? <==> auth
    ensures EveryExecutionCarries(Attempts(config, auth, world, at).acts, auth)
    decreases !at.refreshed, config.maxRetries - at.attempt
  {
    hide BackoffDelay, MapStatusError;
    match ExecuteOnce(world.answers(at.executions))
    case Ok(_) =>
    case Err(err) =>
      if auth && !at.refreshed && err.Unauthorized? {
        if world.refresh.Ok? && world.refresh.value.Some? {
          BearerKept(config, auth, world, at.Renewed(world.refresh.value));
        }
      } else if err.IsRetryable() && at.attempt < config.maxRetries {
        BearerKept(config, auth, world, at.Retried());
      }
  }

  /** Whatever is answered, refreshed and retried, an execution carries a token
      exactly when the request is authenticated. */
  lemma BearerIffAuthenticated<R>(config: Config, auth: bool, world: World<R>, token: Token)
    ensures EveryExecutionCarries(Attempts(config, auth, world, Start(auth, token)).acts, auth)
  {
    BearerKept(config, auth, world, Start(auth, token));
  }

  // The refresh is the shared one.

  /** What a request gets from the shared refresh, as its loop sees it. */
  function FromShared(outcome: SingleFlight.Outcome, fault: ApiError): Result<Option<Token>, ApiError> {
    match outcome
    case Got(token) => Ok(token)
    case Fault => Err(fault)
  }

  lemma {:induction false} RenewedFromTheRefreshOn(
      acts: seq<Act>, bearer: Option<Token>, renewed: Option<Token>, r: nat, n: nat)
    requires CarriesTheLatest(acts, bearer, renewed)
    requires r < n < |acts| && acts[r].Refreshed? && acts[n].Executed?
    ensures renewed.Some? && acts[n].bearer == renewed
    decreases acts
  {
    var rest := acts[1..];
    assert acts[n] == rest[n - 1];
    if r == 0 {
      assert rest != [];
      assert rest[n - 1] in rest;
      CarriesOneOfTwoTokens(rest, renewed, None, rest[n - 1]);
    } else {
      assert acts[r] == rest[r - 1];
      if acts[0].Refreshed? {
        RenewedFromTheRefreshOn(rest, renewed, None, r - 1, n - 1);
        assert false;
      } else {
        RenewedFromTheRefreshOn(rest, bearer, renewed, r - 1, n - 1);
      }
    }
  }

  /** A request whose refresh is a task of the shared machine, in any
      interleaving: whatever it executes after the refresh carries the token that
      the task was given, and never the one that was refused. */
  lemma RefusedTokenIsNotSentAgain<R>(
      config: Config, world: World<R>, token: Token, first: Token, s: SingleFlight.State, i: nat,
      outcome: SingleFlight.Outcome, fault: ApiError, r: nat, n: nat)
    requires SingleFlight.Reachable(first, s) && i < |s.tasks|
    requires s.tasks[i] == SingleFlight.Finished(token, Some(outcome)) && world.refresh == FromShared(outcome, fault)
    requires var acts := Attempts(config, true, world, Start(true, token)).acts;
             r < n < |acts| && acts[r].Refreshed? && acts[n].Executed?
    ensures var acts := Attempts(config, true, world, Start(true, token)).acts;
            && acts[n].bearer.Some? && outcome == SingleFlight.Got(acts[n].bearer)
            && acts[n].bearer != Some(token)
  {
    hide Attempts, CarriesTheLatest;
    var acts := Attempts(config, true, world, Start(true, token)).acts;
    BearersFollowTheRefresh(config, true, world, Start(true, token));
    RenewedFromTheRefreshOn(acts, Some(token), if world.refresh.Ok? then world.refresh.value else None, r, n);
    SingleFlight.RefreshIsSingleFlight(first, s);
  }

  /** A request whose first answer is a 401, and whose refresh is the shared one,
      undisturbed: a session that cannot be renewed leaves it with that 401, a
      failure of the refresh or of the store with the failure, and a renewed one
      has it executed again with the new token. */
  lemma RefreshDecidesTheAnswer<R>(
      config: Config, world: World<R>, token: Token, with: SingleFlight.Circumstances, fault: ApiError)
    requires world.answers(0).Answered? && world.answers(0).status == 401
    requires world.refresh == FromShared(SingleFlight.RefreshOutcome(Some(token), Some(token), with), fault)
    ensures var played := Attempts(config, true, world, Start(true, token));
            && |played.acts| >= 2 && played.acts[0] == Executed(Some(token)) && played.acts[1] == Refreshed(Some(token))
            && (with.readable && with.attempt.Denied? ==>
                  played.result == Err(Unauthorized(401)) && |played.acts| == 2)
            && (!with.readable || with.attempt.Broken? || (with.attempt.Renewed? && !with.rereadable) ==>
                  played.result == Err(fault) && |played.acts| == 2)
            && (with.readable && with.attempt.Renewed? && with.rereadable ==>
                  |played.acts| > 2 && played.acts[2] == Executed(Some(with.attempt.token)))
  {
    var start := Start(true, token);
    if world.refresh.Ok? && world.refresh.value.Some? {
      var later := Attempts(config, true, world, start.Renewed(world.refresh.value));
      WhatFollowsAnAnswer(config, true, world, start.Renewed(world.refresh.value));
    }
  }

  /** The request answers what its last execution brought back, unless the
      refresh that followed it failed; every execution before the last failed. */
  lemma {:induction false} AnswersTheLastExecution<R>(config: Config, auth: bool, world: World<R>, at: Loop)
    ensures var played := Attempts(config, auth, world, at);
            var last := at.executions + Executions(played.acts) - 1;
            && played.acts != [] && last >= at.executions
            && (forall n :: at.executions <= n < last ==> ExecuteOnce(world.answers(n)).Err?)
            && played.result ==
               (if played.acts[|played.acts| - 1].Refreshed? && world.refresh.Err? then Err(world.refresh.error)
                else ExecuteOnce(world.answers(last)))
    decreases !at.refreshed, config.maxRetries - at.attempt
  {
    hide BackoffDelay, MapStatusError, Executions, Refreshes, Sleeps;
    CountsOfOne(Executed(at.bearer));
    CountsBehind(Executed(at.bearer), Refreshed(at.bearer), []);
    assert [Executed(at.bearer), Refreshed(at.bearer)] + [] == [Executed(at.bearer), Refreshed(at.bearer)];
    match ExecuteOnce(world.answers(at.executions))
    case Ok(_) =>
    case Err(err) =>
      if auth && !at.refreshed && err.Unauthorized? {
        if world.refresh.Ok? && world.refresh.value.Some? {
          var next := at.Renewed(world.refresh.value);
          AnswersTheLastExecution(config, auth, world, next);
          CountsBehind(Executed(at.bearer), Refreshed(at.bearer), Attempts(config, auth, world, next).acts);
        }
      } else if err.IsRetryable() && at.attempt < config.maxRetries {
        var next := at.Retried();
        AnswersTheLastExecution(config, auth, world, next);
        CountsBehind(Executed(at.bearer), Slept(BackoffDelay(config, at.attempt)),
                     Attempts(config, auth, world, next).acts);
      }
  }
}

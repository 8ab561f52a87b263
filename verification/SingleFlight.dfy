/** The session refresh shared by many requests: one token store, one lock. The
    body of the critical section is a method over the store; the interleaving of
    any number of requests is a machine whose steps are the points between which
    a task can be suspended or dropped. */
module SingleFlight {
  import opened Basics

  /** What the refresher reports: a new session stored under `token`, a session
      that cannot be renewed, or a failure. */
  datatype Attempt = Renewed(token: Token) | Denied | Broken

  /** What a request gets from the refresh. */
  datatype Outcome = Got(token: Option<Token>) | Fault

  // One refresh, undisturbed.

  class TokenStore {
    var token: Option<Token>

    constructor (token: Option<Token>)
      ensures this.token == token
    {
      this.token := token;
    }
  }

  /** What a refresh depends on besides the store: the refresher's answer, and
      whether the store answers the read before it and the read after it. */
  datatype Circumstances = Circumstances(attempt: Attempt, readable: bool, rereadable: bool)

  /** Another request has renewed the session already. */
  predicate Superseded(stored: Option<Token>, used: Option<Token>) {
    stored.Some? && used.Some? && stored != used
  }

  function RefreshedStore(stored: Option<Token>, used: Option<Token>, with: Circumstances): Option<Token> {
    if with.readable && !Superseded(stored, used) && with.attempt.Renewed? then Some(with.attempt.token) else stored
  }

  function RefreshOutcome(stored: Option<Token>, used: Option<Token>, with: Circumstances): Outcome {
    if !with.readable then Fault
    else if Superseded(stored, used) then Got(stored)
    else match with.attempt
      case Renewed(token) => if with.rereadable then Got(Some(token)) else Fault
      case Denied => Got(None)
      case Broken => Fault
  }

  method RefreshSession(
      store: TokenStore, hasRefresher: bool, used: Option<Token>, with: Circumstances)
    returns (outcome: Outcome, refreshed: bool)
    modifies store
    ensures !hasRefresher ==> outcome == Got(None) && store.token == old(store.token)
    ensures hasRefresher ==> store.token == RefreshedStore(old(store.token), used, with)
    ensures hasRefresher ==> outcome == RefreshOutcome(old(store.token), used, with)
    ensures refreshed <==> hasRefresher && with.readable &&
                           (old(store.token).None? || used.None? || old(store.token) == used)
    ensures store.token == if refreshed && with.attempt.Renewed? then Some(with.attempt.token) else old(store.token)
    ensures hasRefresher && with.readable && !refreshed ==> outcome == Got(old(store.token))
    ensures refreshed && with.attempt.Denied? ==> outcome == Got(None)
    ensures refreshed && with.attempt.Renewed? && with.rereadable ==> outcome == Got(Some(with.attempt.token))
    ensures outcome == Fault <==> hasRefresher &&
                                  (!with.readable ||
                                   (refreshed && (with.attempt.Broken? || (with.attempt.Renewed? && !with.rereadable))))
  {
    if !hasRefresher {
      return Got(None), false;
    }
    if !with.readable {
      return Fault, false;
    }
    var stored := store.token;
    if stored.Some? && used.Some? {
      if stored.value != used.value {
        return Got(stored), false;
      }
    }
    match with.attempt {
      case Renewed(token) =>
        store.token := Some(token);
        if !with.rereadable {
          return Fault, true;
        }
        return Got(store.token), true;
      case Denied =>
        return Got(None), true;
      case Broken =>
        return Fault, true;
    }
  }

  // Many requests.

  /** Where a request is: executing with a token, waiting for the lock after a
      401, holding it, inside the refresher, back from it, or done with the
      refresh. A dropped request is done with nothing. */
  datatype Task =
    | Executing(used: Token)
    | Waiting(used: Token)
    | Holding(used: Token)
    | Refreshing(used: Token)
    | Renewing(used: Token)
    | Finished(used: Token, outcome: Option<Outcome>)
  {
    predicate Critical() {
      Holding? || Refreshing? || Renewing?
    }
  }

  /** A refresher run that stored a token. */
  datatype Success = Success(used: Token, token: Token)

  /** `history` is every token the store has held, in order. */
  datatype State = State(
    store: Option<Token>, lock: Option<nat>, tasks: seq<Task>, history: seq<Token>, successes: seq<Success>)

  datatype Step =
    | Start
    | Unauthorized(task: nat)
    | Lock(task: nat)
    | ReadStore(task: nat, readable: bool)
    | Succeed(task: nat, token: Token)
    | Fail(task: nat, attempt: Attempt)
    | Reread(task: nat, readable: bool)
    | Drop(task: nat)

  function Initial(token: Token): State {
    State(Some(token), None, [], [token], [])
  }

  /** A successful refresh stores a token never seen before; nothing else writes
      the store. */
  predicate Enabled(s: State, step: Step) {
    match step
    case Start => s.store.Some?
    case Unauthorized(i) => i < |s.tasks| && s.tasks[i].Executing?
    case Lock(i) => i < |s.tasks| && s.tasks[i].Waiting? && s.lock == None
    case ReadStore(i, _) => i < |s.tasks| && s.tasks[i].Holding?
    case Succeed(i, token) => i < |s.tasks| && s.tasks[i].Refreshing? && token !in s.history
    case Fail(i, attempt) => i < |s.tasks| && s.tasks[i].Refreshing? && !attempt.Renewed?
    case Reread(i, _) => i < |s.tasks| && s.tasks[i].Renewing?
    case Drop(i) => i < |s.tasks| && !s.tasks[i].Finished?
  }

  function Leave(s: State, i: nat, outcome: Option<Outcome>): State
    requires i < |s.tasks|
  {
    s.(tasks := s.tasks[i := Finished(s.tasks[i].used, outcome)],
       lock := if s.tasks[i].Critical() then None else s.lock)
  }

  function Apply(s: State, step: Step): State
    requires Enabled(s, step)
  {
    match step
    case Start => s.(tasks := s.tasks + [Executing(s.store.value)])
    case Unauthorized(i) => s.(tasks := s.tasks[i := Waiting(s.tasks[i].used)])
    case Lock(i) => s.(tasks := s.tasks[i := Holding(s.tasks[i].used)], lock := Some(i))
    case ReadStore(i, readable) =>
      if !readable then Leave(s, i, Some(Fault))
      else if s.store.Some? && s.store.value != s.tasks[i].used then Leave(s, i, Some(Got(s.store)))
      else s.(tasks := s.tasks[i := Refreshing(s.tasks[i].used)])
    case Succeed(i, token) =>
      s.(tasks := s.tasks[i := Renewing(s.tasks[i].used)], store := Some(token),
         history := s.history + [token], successes := s.successes + [Success(s.tasks[i].used, token)])
    case Fail(i, attempt) => Leave(s, i, Some(if attempt.Denied? then Got(None) else Fault))
    case Reread(i, readable) => Leave(s, i, Some(if readable then Got(s.store) else Fault))
    case Drop(i) => Leave(s, i, None)
  }

  ghost predicate Run(s: State, steps: seq<Step>, end: State)
    decreases steps
  {
    if steps == [] then s == end else Enabled(s, steps[0]) && Run(Apply(s, steps[0]), steps[1..], end)
  }

  // The invariant.

  ghost predicate Distinct(history: seq<Token>) {
    forall j, k :: 0 <= j < k < |history| ==> history[j] != history[k]
  }

  /** The store holds the last token of a history of distinct tokens, and the
      n-th success replaced the n-th token by the next. */
  ghost predicate Chained(s: State) {
    && |s.history| == |s.successes| + 1 && Distinct(s.history)
    && s.store == Some(s.history[|s.history| - 1])
    && (forall k :: 0 <= k < |s.successes| ==> s.successes[k].used == s.history[k])
    && forall k :: 0 <= k < |s.successes| ==> Replaced(s.history, s.successes, k)
  }

  ghost predicate Replaced(history: seq<Token>, successes: seq<Success>, k: nat)
    requires k < |successes| && |history| == |successes| + 1
  {
    successes[k].token == history[k + 1]
  }

  /** A token the store has held since `used` left it. */
  ghost predicate Newer(s: State, used: Token, token: Token) {
    exists j, k :: 0 <= j < k < |s.history| && s.history[j] == used && s.history[k] == token
  }

  ghost predicate Consistent(s: State, i: nat, t: Task) {
    && t.used in s.history
    && (t.Critical() <==> s.lock == Some(i))
    && (t.Refreshing? ==> s.store == Some(t.used))
    && (t.Renewing? ==> s.successes != [] && s.successes[|s.successes| - 1].used == t.used)
    && (t.Finished? && t.outcome.Some? && t.outcome.value.Got? && t.outcome.value.token.Some? ==>
          Newer(s, t.used, t.outcome.value.token.value))
  }

  ghost predicate Invariant(s: State) {
    && Chained(s)
    && (s.lock.Some? ==> s.lock.value < |s.tasks|)
    && forall i :: 0 <= i < |s.tasks| ==> Consistent(s, i, s.tasks[i])
  }

  lemma OlderTokenIsNewerThanUsed(s: State, used: Token)
    requires Chained(s) && used in s.history && s.store != Some(used)
    ensures Newer(s, used, s.store.value)
  {
    var j :| 0 <= j < |s.history| && s.history[j] == used;
    assert s.history[|s.history| - 1] == s.store.value;
  }

  /** A longer history keeps every token that was newer newer. */
  lemma NewerStays(s: State, t: State)
    requires s.history <= t.history
    ensures forall used, token :: Newer(s, used, token) ==> Newer(t, used, token)
  {
    forall used, token | Newer(s, used, token)
      ensures Newer(t, used, token)
    {
      var j, k :| 0 <= j < k < |s.history| && s.history[j] == used && s.history[k] == token;
      assert t.history[j] == used && t.history[k] == token;
    }
  }

  lemma SuccessKeepsInvariant(s: State, i: nat, token: Token)
    requires Invariant(s) && Enabled(s, Succeed(i, token))
    ensures Invariant(Apply(s, Succeed(i, token)))
  {
    var t := Apply(s, Succeed(i, token));
    NewerStays(s, t);
    forall k | 0 <= k < |t.successes|
      ensures Replaced(t.history, t.successes, k)
    {
      assert k < |s.successes| ==> Replaced(s.history, s.successes, k);
    }
  }

  lemma LeavingKeepsInvariant(s: State, i: nat, outcome: Option<Outcome>)
    requires Invariant(s) && i < |s.tasks|
    requires outcome.Some? && outcome.value.Got? && outcome.value.token.Some? ==>
               Newer(s, s.tasks[i].used, outcome.value.token.value)
    ensures Invariant(Leave(s, i, outcome))
  {
    hide Newer;
    NewerStays(s, Leave(s, i, outcome));
    assert Consistent(s, i, s.tasks[i]);
  }

  lemma StepKeepsInvariant(s: State, step: Step)
    requires Invariant(s) && Enabled(s, step)
    ensures Invariant(Apply(s, step))
  {
    hide Newer, Leave;
    var t := Apply(s, step);
    match step {
      case Succeed(i, token) =>
        SuccessKeepsInvariant(s, i, token);
      case ReadStore(i, readable) =>
        if !readable {
          LeavingKeepsInvariant(s, i, Some(Fault));
        } else if s.store != Some(s.tasks[i].used) {
          OlderTokenIsNewerThanUsed(s, s.tasks[i].used);
          LeavingKeepsInvariant(s, i, Some(Got(s.store)));
        } else {
          NewerStays(s, t);
        }
      case Reread(i, readable) =>
        if readable {
          ReplacedTokenIsOlder(s, s.tasks[i].used);
          LeavingKeepsInvariant(s, i, Some(Got(s.store)));
        } else {
          LeavingKeepsInvariant(s, i, Some(Fault));
        }
      case Fail(i, attempt) =>
        LeavingKeepsInvariant(s, i, Some(if attempt.Denied? then Got(None) else Fault));
      case Drop(i) =>
        LeavingKeepsInvariant(s, i, None);
      case _ =>
        NewerStays(s, t);
    }
  }

  lemma ReplacedTokenIsOlder(s: State, used: Token)
    requires Chained(s) && s.successes != [] && s.successes[|s.successes| - 1].used == used
    ensures Newer(s, used, s.store.value)
  {
    var last := |s.successes| - 1;
    assert Replaced(s.history, s.successes, last);
    assert s.history[last] == used && s.history[last + 1] == s.store.value;
  }

  lemma {:induction false} RunKeepsInvariant(s: State, steps: seq<Step>, end: State)
    requires Invariant(s) && Run(s, steps, end)
    ensures Invariant(end)
    decreases steps
  {
    if steps != [] {
      StepKeepsInvariant(s, steps[0]);
      RunKeepsInvariant(Apply(s, steps[0]), steps[1..], end);
    }
  }

  // Single flight.

  ghost predicate Reachable(token: Token, s: State) {
    exists steps :: Run(Initial(token), steps, s)
  }

  lemma ReachableIsInvariant(token: Token, s: State)
    requires Reachable(token, s)
    ensures Invariant(s)
  {
    var steps :| Run(Initial(token), steps, s);
    RunKeepsInvariant(Initial(token), steps, s);
  }

  /** However the requests interleave, at most one refresh ever succeeds for the
      requests that hold any one token, at most one refresher runs at a time, and
      a refreshed request is never given the token it came with. */
  lemma RefreshIsSingleFlight(token: Token, s: State)
    requires Reachable(token, s)
    ensures forall j, k :: 0 <= j < k < |s.successes| ==> s.successes[j].used != s.successes[k].used
    ensures forall i, k :: 0 <= i < |s.tasks| && 0 <= k < |s.tasks| && s.tasks[i].Critical() && s.tasks[k].Critical() ==>
              i == k
    ensures forall i :: 0 <= i < |s.tasks| && s.tasks[i].Finished? && s.tasks[i].outcome.Some? ==>
              s.tasks[i].outcome != Some(Got(Some(s.tasks[i].used)))
  {
    ReachableIsInvariant(token, s);
    forall j, k | 0 <= j < k < |s.successes|
      ensures s.successes[j].used != s.successes[k].used
    {
      assert s.successes[j].used == s.history[j] && s.successes[k].used == s.history[k];
    }
    forall i | 0 <= i < |s.tasks|
      ensures s.tasks[i].Critical() ==> s.lock == Some(i)
      ensures s.tasks[i].Finished? ==> s.tasks[i].outcome != Some(Got(Some(s.tasks[i].used)))
    {
      assert Consistent(s, i, s.tasks[i]);
    }
  }

  /** Once a refresh has succeeded for a token, a request that holds that token
      and gets the lock returns the stored token without refreshing. */
  lemma LaterHoldersDoNotRefresh(token: Token, s: State, k: nat, i: nat)
    requires Reachable(token, s) && k < |s.successes|
    requires i < |s.tasks| && s.tasks[i] == Holding(s.successes[k].used)
    ensures s.store.Some? && s.store.value != s.successes[k].used
    ensures Apply(s, ReadStore(i, true)) ==
            s.(tasks := s.tasks[i := Finished(s.successes[k].used, Some(Got(s.store)))], lock := None)
  {
    ReachableIsInvariant(token, s);
    assert s.successes[k].used == s.history[k] && s.store.value == s.history[|s.history| - 1];
  }

  /** Undisturbed, the steps of one refresh do what the method does, whatever the
      refresher answers and whichever reads of the store fail. */
  lemma StepsRefineTheMethod(s: State, i: nat, with: Circumstances) returns (steps: seq<Step>, end: State)
    requires i < |s.tasks| && s.tasks[i].Waiting? && s.lock == None && s.store.Some?
    requires with.attempt.Renewed? ==> with.attempt.token !in s.history
    ensures Run(s, steps, end) && end.lock == None
    ensures end.store == RefreshedStore(s.store, Some(s.tasks[i].used), with)
    ensures end.tasks == s.tasks[i := Finished(s.tasks[i].used,
                                               Some(RefreshOutcome(s.store, Some(s.tasks[i].used), with)))]
  {
    hide Run;
    var used := s.tasks[i].used;
    var locked := Apply(s, Lock(i));
    var found := Apply(locked, ReadStore(i, with.readable));
    var rest := [];
    end := found;
    if with.readable && s.store.value == used {
      rest, end := AttemptRuns(found, i, with);
    } else {
      EmptyRun(found);
    }
    steps := [Lock(i)] + ([ReadStore(i, with.readable)] + rest);
    StepFirst(locked, ReadStore(i, with.readable), rest, end);
    StepFirst(s, Lock(i), [ReadStore(i, with.readable)] + rest, end);
  }

  /** Inside the refresher: one attempt, and what follows it. */
  lemma AttemptRuns(s: State, i: nat, with: Circumstances) returns (steps: seq<Step>, end: State)
    requires i < |s.tasks| && s.tasks[i].Refreshing? && s.store == Some(s.tasks[i].used) && with.readable
    requires with.attempt.Renewed? ==> with.attempt.token !in s.history
    ensures Run(s, steps, end) && end.lock == None
    ensures end.store == RefreshedStore(s.store, Some(s.tasks[i].used), with)
    ensures end.tasks == s.tasks[i := Finished(s.tasks[i].used,
                                               Some(RefreshOutcome(s.store, Some(s.tasks[i].used), with)))]
  {
    hide Run;
    if with.attempt.Renewed? {
      var stored := Apply(s, Succeed(i, with.attempt.token));
      end := Apply(stored, Reread(i, with.rereadable));
      EmptyRun(end);
      StepFirst(stored, Reread(i, with.rereadable), [], end);
      steps := [Succeed(i, with.attempt.token)] + ([Reread(i, with.rereadable)] + []);
      StepFirst(s, Succeed(i, with.attempt.token), [Reread(i, with.rereadable)] + [], end);
    } else {
      end := Apply(s, Fail(i, with.attempt));
      EmptyRun(end);
      steps := [Fail(i, with.attempt)] + [];
      StepFirst(s, Fail(i, with.attempt), [], end);
    }
  }

  lemma EmptyRun(s: State)
    ensures Run(s, [], s)
  {
  }

  lemma StepFirst(s: State, step: Step, rest: seq<Step>, end: State)
    requires Enabled(s, step) && Run(Apply(s, step), rest, end)
    ensures Run(s, [step] + rest, end)
  {
    assert ([step] + rest)[1..] == rest;
  }
}

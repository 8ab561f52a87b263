/** The Windows single-instance guard. A process's own side of a claim is a
    class; any number of processes racing for named mutexes are a machine whose
    steps are the system calls between which they interleave. */
module SingleInstance {
  import opened Basics

  type Key = string

  datatype Verdict = AsPrimary | AsSecondary | Unavailable

  const FORWARD_ATTEMPTS: nat := 40
  const FORWARD_WAIT_MS: nat := 50

  // One process.

  /** The first attempt that finds the primary's window. */
  ghost predicate FirstFound(finds: nat -> bool, attempt: nat) {
    finds(attempt) && forall a: nat :: a < attempt ==> !finds(a)
  }

  /** Looks for the primary's window a bounded number of times and delivers to
      the first one found, once. */
  method ForwardToPrimary(finds: nat -> bool, answers: bool) returns (forwarded: bool, deliveries: nat, waitedMs: nat)
    ensures forwarded <==> answers && exists a: nat :: a < FORWARD_ATTEMPTS && finds(a)
    ensures deliveries == if exists a: nat :: a < FORWARD_ATTEMPTS && finds(a) then 1 else 0
    ensures deliveries == 0 ==> waitedMs == FORWARD_ATTEMPTS * FORWARD_WAIT_MS
    ensures deliveries == 1 ==>
              exists a: nat :: a < FORWARD_ATTEMPTS && FirstFound(finds, a) && waitedMs == a * FORWARD_WAIT_MS
  {
    waitedMs := 0;
    var attempt := 0;
    while attempt < FORWARD_ATTEMPTS
      invariant 0 <= attempt <= FORWARD_ATTEMPTS && waitedMs == attempt * FORWARD_WAIT_MS
      invariant forall a: nat :: a < attempt ==> !finds(a)
    {
      if finds(attempt) {
        assert FirstFound(finds, attempt);
        return answers, 1, waitedMs;
      }
      waitedMs := waitedMs + FORWARD_WAIT_MS;
      attempt := attempt + 1;
    }
    return false, 0, waitedMs;
  }

  /** What the system answers during one claim: whether the mutex could be
      created, whether it existed, whether the window opens, and what looking for
      the primary gives. */
  datatype System = System(created: bool, existed: bool, opens: bool, finds: nat -> bool, answers: bool)

  ghost predicate Forwards(system: System) {
    system.answers && exists a: nat :: a < FORWARD_ATTEMPTS && system.finds(a)
  }

  /** The verdict on a claim of a key, by the key held already and the system's
      answers. */
  ghost function VerdictOf(held: Option<Key>, system: System): Verdict {
    if held.Some? then AsPrimary
    else if !system.created then Unavailable
    else if system.existed then (if Forwards(system) then AsSecondary else Unavailable)
    else if system.opens then AsPrimary
    else Unavailable
  }

  class Guard {
    /** The key whose mutex this process holds. */
    var mutex: Option<Key>
    /** The key of its open window. */
    var window: Option<Key>

    ghost predicate Valid()
      reads this
    {
      window.Some? ==> mutex == window
    }

    constructor ()
      ensures Valid() && mutex == None && window == None
    {
      mutex, window := None, None;
    }

    method Claim(key: Option<Key>, system: System) returns (verdict: Verdict)
      requires Valid()
      modifies this
      ensures Valid()
      ensures verdict == if key.None? then Unavailable else VerdictOf(old(mutex), system)
      ensures key.Some? && old(mutex).None? ==>
                && (verdict == AsPrimary <==> system.created && !system.existed && system.opens)
                && (verdict == AsSecondary <==> system.created && system.existed && Forwards(system))
      ensures if key.None? || old(mutex).Some? then mutex == old(mutex) && window == old(window)
              else mutex == window == if verdict == AsPrimary then key else None
    {
      if key.None? {
        return Unavailable;
      }
      if mutex.Some? {
        return AsPrimary;
      }
      if !system.created {
        return Unavailable;
      }
      if system.existed {
        var forwarded, _, _ := ForwardToPrimary(system.finds, system.answers);
        return if forwarded then AsSecondary else Unavailable;
      }
      if !system.opens {
        return Unavailable;
      }
      window := key;
      mutex := key;
      return AsPrimary;
    }

    method Release()
      requires Valid()
      modifies this
      ensures Valid() && mutex == None && window == None
    {
      window := None;
      mutex := None;
    }
  }

  // Many processes.

  /** Where a process is. A claim is identified by its number.
      `Probing` still has open the handle that told it the mutex existed;
      `Closing` has shut its window and still has its handle. */
  datatype Stage =
    | Idle
    | Probing(key: Key, claim: nat)
    | Forwarding(key: Key, claim: nat, left: nat)
    | Opening(key: Key, claim: nat)
    | Primary(key: Key)
    | Closing(key: Key, failed: Option<nat>)
    | Exited
  {
    predicate HoldsHandle(k: Key) {
      (Probing? || Opening? || Primary? || Closing?) && key == k
    }

    /** It created the mutex and has not closed that handle yet. */
    predicate Owns(k: Key) {
      (Opening? || Primary? || Closing?) && key == k
    }

    function Pending(): Option<nat> {
      match this
      case Probing(_, claim) => Some(claim)
      case Forwarding(_, claim, _) => Some(claim)
      case Opening(_, claim) => Some(claim)
      case Closing(_, failed) => failed
      case _ => None
    }
  }

  /** `told` are the keys for which the process has been answered primary since
      it took its mutex. */
  datatype Process = Process(stage: Stage, window: Option<Key>, queue: seq<nat>, told: set<Key>)

  datatype Answer = Answer(claim: nat, verdict: Verdict)

  /** `claimed` is the key of each claim, by its number. The claims whose payload
      reached a window are `enqueued`; those an application took from its queue
      are `taken`, and those that went with a queue that was cleared are `dropped`;
      each in order. */
  datatype State = State(
    processes: seq<Process>, claimed: seq<Key>, answers: seq<Answer>,
    enqueued: seq<nat>, taken: seq<nat>, dropped: seq<nat>)

  datatype Step =
    | Claim(p: nat, key: Key, created: bool)
    | CloseProbe(p: nat)
    | Look(p: nat, found: Option<nat>, delivered: bool)
    | ShowWindow(p: nat)
    | FinishOpening(p: nat)
    | FailOpening(p: nat)
    | CloseWindow(p: nat)
    | CloseMutex(p: nat)
    | TakeLaunch(p: nat)
    | Exit(p: nat)

  const NEWCOMER: Process := Process(Idle, None, [], {})

  ghost predicate IsInitial(s: State) {
    && (forall i :: 0 <= i < |s.processes| ==> s.processes[i] == NEWCOMER)
    && s.claimed == [] && s.answers == [] && s.enqueued == [] && s.taken == [] && s.dropped == []
  }

  predicate MutexExists(s: State, k: Key) {
    exists i :: 0 <= i < |s.processes| && s.processes[i].stage.HoldsHandle(k)
  }

  predicate Enabled(s: State, step: Step) {
    step.p < |s.processes| &&
    var q := s.processes[step.p];
    match step
    case Claim(_, _, _) => q.stage.Idle? || q.stage.Primary?
    case CloseProbe(_) => q.stage.Probing?
    case Look(_, found, _) =>
      && q.stage.Forwarding? && q.stage.left > 0
      && (found.Some? ==> found.value < |s.processes| && s.processes[found.value].window == Some(q.stage.key))
    case ShowWindow(_) => q.stage.Opening?
    case FinishOpening(_) => q.stage.Opening? && q.window == Some(q.stage.key)
    case FailOpening(_) => q.stage.Opening?
    case CloseWindow(_) => q.stage.Primary?
    case CloseMutex(_) => q.stage.Closing?
    case TakeLaunch(_) => q.queue != []
    case Exit(_) => !q.stage.Exited?
  }

  function With(s: State, p: nat, q: Process): State
    requires p < |s.processes|
  {
    s.(processes := s.processes[p := q])
  }

  function Answered(s: State, claim: nat, verdict: Verdict): State {
    s.(answers := s.answers + [Answer(claim, verdict)])
  }

  function Apply(s: State, step: Step): State
    requires Enabled(s, step)
  {
    var p := step.p;
    var q := s.processes[p];
    match step
    case Claim(_, key, created) =>
      var claim := |s.claimed|;
      var t := s.(claimed := s.claimed + [key]);
      if q.stage.Primary? then
        Answered(With(t, p, q.(told := q.told + {key})), claim, AsPrimary)
      else if !created then
        Answered(t, claim, Unavailable)
      else if MutexExists(s, key) then
        With(t, p, q.(stage := Probing(key, claim)))
      else
        With(t, p, q.(stage := Opening(key, claim)))
    case CloseProbe(_) =>
      With(s, p, q.(stage := Forwarding(q.stage.key, q.stage.claim, FORWARD_ATTEMPTS)))
    case Look(_, found, delivered) =>
      var claim := q.stage.claim;
      if found.None? then
        if q.stage.left == 1 then Answered(With(s, p, q.(stage := Idle)), claim, Unavailable)
        else With(s, p, q.(stage := Forwarding(q.stage.key, claim, q.stage.left - 1)))
      else
        var t := With(s, p, q.(stage := Idle));
        if !delivered then
          Answered(t, claim, Unavailable)
        else
          var w := t.processes[found.value];
          Answered(With(t, found.value, w.(queue := w.queue + [claim])), claim, AsSecondary)
          .(enqueued := s.enqueued + [claim])
    case ShowWindow(_) => With(s, p, q.(window := Some(q.stage.key)))
    case FinishOpening(_) =>
      Answered(With(s, p, q.(stage := Primary(q.stage.key), told := {q.stage.key})), q.stage.claim, AsPrimary)
    case FailOpening(_) =>
      With(s, p, q.(stage := Closing(q.stage.key, Some(q.stage.claim)), window := None, queue := []))
      .(dropped := s.dropped + q.queue)
    case CloseWindow(_) =>
      With(s, p, q.(stage := Closing(q.stage.key, None), window := None, queue := [], told := {}))
      .(dropped := s.dropped + q.queue)
    case CloseMutex(_) =>
      var t := With(s, p, q.(stage := Idle));
      if q.stage.failed.Some? then Answered(t, q.stage.failed.value, Unavailable) else t
    case TakeLaunch(_) => With(s, p, q.(queue := q.queue[1..])).(taken := s.taken + [q.queue[0]])
    case Exit(_) => With(s, p, Process(Exited, None, [], {})).(dropped := s.dropped + q.queue)
  }

  ghost predicate Run(s: State, steps: seq<Step>, end: State)
    decreases steps
  {
    if steps == [] then s == end else Enabled(s, steps[0]) && Run(Apply(s, steps[0]), steps[1..], end)
  }

  ghost predicate Reachable(s: State) {
    exists start, steps :: IsInitial(start) && Run(start, steps, s)
  }

  // At most one primary.

  ghost predicate OneOwner(s: State) {
    forall i, j, k | 0 <= i < |s.processes| && 0 <= j < |s.processes| ::
      s.processes[i].stage.Owns(k) && s.processes[j].stage.Owns(k) ==> i == j
  }

  /** A window or an answer of primary belongs to a process that owns a mutex,
      and the window is that mutex's; only a window has a queue. */
  ghost predicate Settled(q: Process) {
    && (q.window.Some? ==> (q.stage.Opening? || q.stage.Primary?) && q.window.value == q.stage.key)
    && (q.queue != [] ==> q.window.Some?)
    && (q.stage.Forwarding? ==> q.stage.left > 0)
    && (q.told != {} ==> q.stage.Primary?)
    && (q.stage.Primary? ==> q.window == Some(q.stage.key) && q.stage.key in q.told)
  }

  ghost predicate Guarded(s: State) {
    OneOwner(s) && forall i :: 0 <= i < |s.processes| ==> Settled(s.processes[i])
  }

  /** Only a claim that finds no handle open on a key makes a process its owner. */
  lemma BecomingOwner(s: State, step: Step, i: nat, k: Key)
    requires Enabled(s, step) && i < |s.processes|
    requires Apply(s, step).processes[i].stage.Owns(k) && !s.processes[i].stage.Owns(k)
    ensures step.Claim? && i == step.p && !MutexExists(s, k)
  {
  }

  lemma OwnerKeepsTheMutex(s: State, i: nat, k: Key)
    requires i < |s.processes| && s.processes[i].stage.Owns(k)
    ensures MutexExists(s, k)
  {
    assert s.processes[i].stage.HoldsHandle(k);
  }

  lemma StepKeepsOneOwner(s: State, step: Step)
    requires OneOwner(s) && Enabled(s, step)
    ensures OneOwner(Apply(s, step))
  {
    var t := Apply(s, step);
    assert |t.processes| == |s.processes|;
    hide Apply, MutexExists;
    forall i, j, k | 0 <= i < |t.processes| && 0 <= j < |t.processes| &&
                     t.processes[i].stage.Owns(k) && t.processes[j].stage.Owns(k)
      ensures i == j
    {
      if s.processes[i].stage.Owns(k) {
        OwnerKeepsTheMutex(s, i, k);
      } else {
        BecomingOwner(s, step, i, k);
      }
      if s.processes[j].stage.Owns(k) {
        OwnerKeepsTheMutex(s, j, k);
      } else {
        BecomingOwner(s, step, j, k);
      }
    }
  }

  lemma StepKeepsGuard(s: State, step: Step)
    requires Guarded(s) && Enabled(s, step)
    ensures Guarded(Apply(s, step))
  {
    StepKeepsOneOwner(s, step);
    assert Settled(s.processes[step.p]);
    if step.Look? && step.found.Some? {
      assert Settled(s.processes[step.found.value]);
    }
  }

  lemma {:induction false} RunKeepsGuard(s: State, steps: seq<Step>, end: State)
    requires Guarded(s) && Run(s, steps, end)
    ensures Guarded(end)
    decreases steps
  {
    if steps != [] {
      StepKeepsGuard(s, steps[0]);
      RunKeepsGuard(Apply(s, steps[0]), steps[1..], end);
    }
  }

  lemma ReachableIsGuarded(s: State)
    requires Reachable(s)
    ensures Guarded(s)
  {
    var start, steps :| IsInitial(start) && Run(start, steps, s);
    RunKeepsGuard(start, steps, s);
  }

  /** In every interleaving of claims, failed openings, releases and exits, at
      most one process is opening, holding or closing the mutex of a key, and
      only that process shows the key's window. */
  lemma AtMostOnePrimary(s: State, i: nat, j: nat, k: Key)
    requires Reachable(s) && i < |s.processes| && j < |s.processes|
    ensures s.processes[i].stage.Owns(k) && s.processes[j].stage.Owns(k) ==> i == j
    ensures s.processes[i].window == Some(k) && s.processes[j].window == Some(k) ==> i == j
  {
    ReachableIsGuarded(s);
    assert Settled(s.processes[i]) && Settled(s.processes[j]);
  }

  // Runs.

  lemma ReachableGoesOn(s: State, steps: seq<Step>, end: State)
    requires Reachable(s) && Run(s, steps, end)
    ensures Reachable(end)
  {
    var start, before :| IsInitial(start) && Run(start, before, s);
    RunsJoin(start, before, s, steps, end);
  }

  lemma {:induction false} RunsJoin(s: State, a: seq<Step>, middle: State, b: seq<Step>, end: State)
    requires Run(s, a, middle) && Run(middle, b, end)
    ensures Run(s, a + b, end)
    decreases a
  {
    if a == [] {
      assert a + b == b;
    } else {
      assert (a + b)[1..] == a[1..] + b;
      RunsJoin(Apply(s, a[0]), a[1..], middle, b, end);
    }
  }

  lemma RunOfThree(s: State, a: Step, b: Step, c: Step)
    requires Enabled(s, a) && Enabled(Apply(s, a), b) && Enabled(Apply(Apply(s, a), b), c)
    ensures Run(s, [a, b, c], Apply(Apply(Apply(s, a), b), c))
  {
    assert [a, b, c][1..] == [b, c] && [b, c][1..] == [c] && [c][1..] == [];
    assert Run(Apply(Apply(s, a), b), [c], Apply(Apply(Apply(s, a), b), c));
    assert Run(Apply(s, a), [b, c], Apply(Apply(Apply(s, a), b), c));
  }

  /** An idle process claims a free key, shows its window and is primary. */
  lemma BecomesPrimary(s: State, p: nat, k: Key) returns (t: State)
    requires p < |s.processes| && s.processes[p] == NEWCOMER && !MutexExists(s, k)
    ensures Run(s, [Claim(p, k, true), ShowWindow(p), FinishOpening(p)], t)
    ensures t == s.(processes := s.processes[p := Process(Primary(k), Some(k), [], {k})],
                    claimed := s.claimed + [k], answers := s.answers + [Answer(|s.claimed|, AsPrimary)])
  {
    hide MutexExists;
    RunOfThree(s, Claim(p, k, true), ShowWindow(p), FinishOpening(p));
    t := Apply(Apply(Apply(s, Claim(p, k, true)), ShowWindow(p)), FinishOpening(p));
    assert t.processes == s.processes[p := t.processes[p]];
  }
}

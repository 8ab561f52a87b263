/** What becomes of the launches that secondaries forward: each enqueued once,
    with the owner of its key, and from then on in exactly one place. */
module ForwardedLaunches {
  import opened Basics
  import opened SingleInstance

  // A claim is answered once.

  /** The claims answered secondary, in order. */
  function Secondaries(answers: seq<Answer>): seq<nat> {
    if answers == [] then [] else
    var before, last := answers[..|answers| - 1], answers[|answers| - 1];
    Secondaries(before) + if last.verdict == AsSecondary then [last.claim] else []
  }

  lemma OneMoreAnswer(answers: seq<Answer>, a: Answer)
    ensures Secondaries(answers + [a]) == Secondaries(answers) + if a.verdict == AsSecondary then [a.claim] else []
  {
    assert (answers + [a])[..|answers|] == answers;
  }

  /** A claim is pending in one process at most, and then not answered yet. */
  ghost predicate PendingApart(s: State) {
    && (forall i :: 0 <= i < |s.processes| && s.processes[i].stage.Pending().Some? ==>
          s.processes[i].stage.Pending().value < |s.claimed|)
    && (forall i, n :: 0 <= i < |s.processes| && 0 <= n < |s.answers| ==>
          s.processes[i].stage.Pending() != Some(s.answers[n].claim))
    && (forall i, j :: 0 <= i < j < |s.processes| && s.processes[i].stage.Pending().Some? ==>
          s.processes[i].stage.Pending() != s.processes[j].stage.Pending())
  }

  /** A claim is answered at most once. */
  ghost predicate AnsweredApart(s: State) {
    && (forall n :: 0 <= n < |s.answers| ==> s.answers[n].claim < |s.claimed|)
    && (forall m, n :: 0 <= m < n < |s.answers| ==> s.answers[m].claim != s.answers[n].claim)
  }

  lemma {:induction false} SecondaryIsAnAnswer(answers: seq<Answer>, claim: nat) returns (n: nat)
    requires claim in Secondaries(answers)
    ensures n < |answers| && answers[n] == Answer(claim, AsSecondary)
  {
    n := |answers| - 1;
    if answers[n] != Answer(claim, AsSecondary) {
      n := SecondaryIsAnAnswer(answers[..n], claim);
    }
  }

  lemma {:induction false} AnswerIsASecondary(answers: seq<Answer>, n: nat)
    requires n < |answers| && answers[n].verdict == AsSecondary
    ensures answers[n].claim in Secondaries(answers)
  {
    if n < |answers| - 1 {
      AnswerIsASecondary(answers[..|answers| - 1], n);
    }
  }

  lemma {:induction false} SecondariesAreDistinct(answers: seq<Answer>)
    requires forall m, n :: 0 <= m < n < |answers| ==> answers[m].claim != answers[n].claim
    ensures forall m, n :: 0 <= m < n < |Secondaries(answers)| ==> Secondaries(answers)[m] != Secondaries(answers)[n]
  {
    if answers != [] {
      var before, last := answers[..|answers| - 1], answers[|answers| - 1];
      SecondariesAreDistinct(before);
      if last.claim in Secondaries(before) {
        var n := SecondaryIsAnAnswer(before, last.claim);
      }
    }
  }

  ghost predicate AnswersAfter(s: State, t: State, p: nat)
    requires p < |s.processes| == |t.processes|
  {
    || t.answers == s.answers
    || (&& |t.answers| == |s.answers| + 1 && t.answers[..|s.answers|] == s.answers
        && var claim := t.answers[|s.answers|].claim;
           var before, after := s.processes[p].stage.Pending(), t.processes[p].stage.Pending();
           || (claim == |s.claimed| < |t.claimed| && before == after == None)
           || (Some(claim) == before && after == None))
  }

  /** A step changes what is pending only in its own process, where a claim can
      begin under a new number or end; it answers at most the claim that ended or
      the new one. */
  lemma WhatStepsAnswer(s: State, step: Step)
    requires Enabled(s, step)
    ensures var t := Apply(s, step);
            && |t.processes| == |s.processes| && |s.claimed| <= |t.claimed|
            && (forall i :: 0 <= i < |s.processes| && i != step.p ==>
                  t.processes[i].stage.Pending() == s.processes[i].stage.Pending())
            && (var before, after := s.processes[step.p].stage.Pending(), t.processes[step.p].stage.Pending();
                || after == before || after == None
                || (after == Some(|s.claimed|) && |s.claimed| < |t.claimed| && t.answers == s.answers))
            && AnswersAfter(s, t, step.p)
  {
    match step
    case Claim(_, _, _) =>
    case Look(_, _, _) =>
    case CloseMutex(_) =>
    case FinishOpening(_) =>
    case _ =>
  }

  lemma PendingStaysApart(s: State, step: Step)
    requires PendingApart(s) && AnsweredApart(s) && Enabled(s, step)
    ensures PendingApart(Apply(s, step)) && AnsweredApart(Apply(s, step))
  {
    hide Apply;
    WhatStepsAnswer(s, step);
    var t := Apply(s, step);
    forall n | 0 <= n < |s.answers|
      ensures t.answers[n] == s.answers[n]
    {
      if t.answers != s.answers {
        assert t.answers[..|s.answers|][n] == t.answers[n];
      }
    }
  }

  // Where an enqueued launch is.

  /** How often a claim stands in a list. */
  ghost function Times(claims: seq<nat>, claim: nat): nat {
    multiset(claims)[claim]
  }

  lemma TimesAppend(a: seq<nat>, b: seq<nat>, claim: nat)
    ensures Times(a + b, claim) == Times(a, claim) + Times(b, claim)
    ensures Times([], claim) == 0 && Times([claim], claim) == 1
    ensures a != [] ==> Times(a, claim) == Times([a[0]], claim) + Times(a[1..], claim)
  {
    if a != [] {
      assert a == [a[0]] + a[1..];
    }
  }

  /** How often it stands in the queues. */
  ghost function Standing(processes: seq<Process>, claim: nat): nat {
    if processes == [] then 0 else Times(processes[0].queue, claim) + Standing(processes[1..], claim)
  }

  /** An enqueued claim stands in a queue, was taken or was dropped. */
  ghost predicate Balanced(s: State, claim: nat) {
    Times(s.enqueued, claim) == Standing(s.processes, claim) + Times(s.taken, claim) + Times(s.dropped, claim)
  }

  lemma {:induction false} StandingAfter(processes: seq<Process>, p: nat, q: Process, claim: nat)
    requires p < |processes|
    ensures Standing(processes[p := q], claim) + Times(processes[p].queue, claim) ==
            Standing(processes, claim) + Times(q.queue, claim)
  {
    hide Times;
    var after := processes[p := q];
    if p == 0 {
      assert after[1..] == processes[1..];
    } else {
      assert after[1..] == processes[1..][p - 1 := q];
      StandingAfter(processes[1..], p - 1, q, claim);
    }
  }

  /** The steps that clear a queue: a failed opening, a release, an exit. */
  predicate Clears(step: Step) {
    step.FailOpening? || step.CloseWindow? || step.Exit?
  }

  lemma LookStaysBalanced(s: State, step: Step, claim: nat)
    requires Balanced(s, claim) && Enabled(s, step) && step.Look? && step.found.Some? && step.delivered
    ensures Balanced(Apply(s, step), claim)
  {
    hide Standing, Times;
    var t := Apply(s, step);
    var q, f := s.processes[step.p], step.found.value;
    var idle := With(s, step.p, q.(stage := Idle));
    StandingAfter(s.processes, step.p, q.(stage := Idle), claim);
    StandingAfter(idle.processes, f, t.processes[f], claim);
    TimesAppend(idle.processes[f].queue, [q.stage.claim], claim);
    TimesAppend(s.enqueued, [q.stage.claim], claim);
  }

  lemma StepStaysBalanced(s: State, step: Step, claim: nat)
    requires Balanced(s, claim) && Enabled(s, step)
    ensures Balanced(Apply(s, step), claim)
  {
    hide Standing, Times, MutexExists;
    var t := Apply(s, step);
    if step.Look? && step.found.Some? && step.delivered {
      LookStaysBalanced(s, step, claim);
    } else {
      var queue := s.processes[step.p].queue;
      assert t.processes == s.processes[step.p := t.processes[step.p]];
      StandingAfter(s.processes, step.p, t.processes[step.p], claim);
      TimesAppend(queue, [], claim);
      if step.TakeLaunch? {
        TimesAppend(s.taken, [queue[0]], claim);
      } else if Clears(step) {
        TimesAppend(s.dropped, queue, claim);
      }
    }
  }

  ghost predicate Conserved(s: State) {
    forall claim :: Balanced(s, claim)
  }

  ghost predicate Accounted(s: State) {
    PendingApart(s) && AnsweredApart(s) && Conserved(s) && s.enqueued == Secondaries(s.answers)
  }

  lemma EnqueuedIsAnswered(s: State, step: Step)
    requires Enabled(s, step)
    ensures var t := Apply(s, step);
            || (t.answers == s.answers && t.enqueued == s.enqueued)
            || (&& |t.answers| == |s.answers| + 1 && t.answers == s.answers + [t.answers[|s.answers|]]
                && var a := t.answers[|s.answers|];
                   t.enqueued == s.enqueued + if a.verdict == AsSecondary then [a.claim] else [])
  {
    hide MutexExists;
  }

  lemma StepKeepsAccounted(s: State, step: Step)
    requires Accounted(s) && Enabled(s, step)
    ensures Accounted(Apply(s, step))
  {
    hide PendingApart, AnsweredApart, Balanced, Apply;
    var t := Apply(s, step);
    PendingStaysApart(s, step);
    forall claim
      ensures Balanced(t, claim)
    {
      StepStaysBalanced(s, step, claim);
    }
    EnqueuedIsAnswered(s, step);
    if |t.answers| > |s.answers| {
      OneMoreAnswer(s.answers, t.answers[|s.answers|]);
    }
  }

  lemma {:induction false} RunKeepsAccounted(s: State, steps: seq<Step>, end: State)
    requires Accounted(s) && Run(s, steps, end)
    ensures Accounted(end)
    decreases steps
  {
    if steps != [] {
      StepKeepsAccounted(s, steps[0]);
      RunKeepsAccounted(Apply(s, steps[0]), steps[1..], end);
    }
  }

  lemma {:induction false} NewcomersHaveNoQueue(processes: seq<Process>, claim: nat)
    requires forall i :: 0 <= i < |processes| ==> processes[i] == NEWCOMER
    ensures Standing(processes, claim) == 0
  {
    if processes != [] {
      NewcomersHaveNoQueue(processes[1..], claim);
    }
  }

  lemma ReachableIsAccounted(s: State)
    requires Reachable(s)
    ensures Accounted(s)
  {
    var start, steps :| IsInitial(start) && Run(start, steps, s);
    forall claim
      ensures Balanced(start, claim)
    {
      NewcomersHaveNoQueue(start.processes, claim);
    }
    RunKeepsAccounted(start, steps, s);
  }

  lemma {:induction false} DistinctCountsOnce(claims: seq<nat>, claim: nat)
    requires forall m, n :: 0 <= m < n < |claims| ==> claims[m] != claims[n]
    ensures Times(claims, claim) == if claim in claims then 1 else 0
  {
    if claims != [] {
      assert claims == [claims[0]] + claims[1..];
      DistinctCountsOnce(claims[1..], claim);
    }
  }

  /** A claim is answered secondary exactly when its payload was enqueued, and no
      payload is enqueued twice. */
  lemma SecondaryIffEnqueuedOnce(s: State, n: nat)
    requires Reachable(s) && n < |s.answers|
    ensures s.answers[n].verdict == AsSecondary <==> s.answers[n].claim in s.enqueued
    ensures Times(s.enqueued, s.answers[n].claim) <= 1
  {
    ReachableIsAccounted(s);
    SecondariesAreDistinct(s.answers);
    DistinctCountsOnce(s.enqueued, s.answers[n].claim);
    if s.answers[n].verdict == AsSecondary {
      AnswerIsASecondary(s.answers, n);
    }
    if s.answers[n].claim in s.enqueued {
      var m := SecondaryIsAnAnswer(s.answers, s.answers[n].claim);
      assert m == n;
    }
  }

  /** A launch that was enqueued is, at any moment, in one place of one queue, or
      was taken, or was dropped, and it is one of the three exactly once; a launch
      that was not enqueued is nowhere. */
  lemma EveryLaunchIsInOnePlace(s: State, claim: nat)
    requires Reachable(s)
    ensures Standing(s.processes, claim) + Times(s.taken, claim) + Times(s.dropped, claim) ==
            if claim in s.enqueued then 1 else 0
  {
    ReachableIsAccounted(s);
    assert Balanced(s, claim);
    SecondariesAreDistinct(s.answers);
    DistinctCountsOnce(s.enqueued, claim);
  }

  lemma {:induction false} StandsInAQueue(processes: seq<Process>, claim: nat)
    ensures Standing(processes, claim) > 0 <==> exists i :: 0 <= i < |processes| && claim in processes[i].queue
  {
    if processes != [] {
      StandsInAQueue(processes[1..], claim);
      forall i | 0 <= i < |processes[1..]| && claim in processes[1..][i].queue
        ensures claim in processes[i + 1].queue
      {
      }
      forall i | 0 < i < |processes| && claim in processes[i].queue
        ensures claim in processes[1..][i - 1].queue
      {
      }
    }
  }

  lemma {:induction false} StandingCountsTwoQueues(processes: seq<Process>, i: nat, j: nat, claim: nat)
    requires i <= j < |processes|
    ensures Standing(processes, claim) >=
            Times(processes[j].queue, claim) + if i < j then Times(processes[i].queue, claim) else 0
  {
    hide Times;
    if i > 0 {
      StandingCountsTwoQueues(processes[1..], i - 1, j - 1, claim);
    } else if j > 0 {
      StandingCountsTwoQueues(processes[1..], j - 1, j - 1, claim);
    }
  }

  /** So an enqueued launch that was neither taken nor dropped stands in a queue,
      and no other does. */
  lemma StandsIffNotGone(s: State, claim: nat)
    requires Reachable(s)
    ensures (exists i :: 0 <= i < |s.processes| && claim in s.processes[i].queue) <==>
            claim in s.enqueued && claim !in s.taken && claim !in s.dropped
    ensures claim in s.taken ==> claim in s.enqueued && claim !in s.dropped
    ensures claim in s.dropped ==> claim in s.enqueued
  {
    hide Reachable;
    EveryLaunchIsInOnePlace(s, claim);
    StandsInAQueue(s.processes, claim);
  }

  /** And it stands there once. */
  lemma OneQueueAtMost(s: State, claim: nat, i: nat, j: nat)
    requires Reachable(s) && i <= j < |s.processes|
    requires claim in s.processes[i].queue && claim in s.processes[j].queue
    ensures i == j && Times(s.processes[i].queue, claim) == 1
  {
    hide Reachable;
    EveryLaunchIsInOnePlace(s, claim);
    StandingCountsTwoQueues(s.processes, i, j, claim);
  }

  // Whose queue it is.

  /** A claim pending or queued is for the key its process is busy with. */
  ghost predicate Addressed(s: State) {
    && (forall i :: 0 <= i < |s.processes| && s.processes[i].stage.Pending().Some? ==>
          IsFor(s, s.processes[i].stage.Pending().value, s.processes[i].stage.key))
    && (forall i, claim :: 0 <= i < |s.processes| && claim in s.processes[i].queue ==>
          s.processes[i].window.Some? && IsFor(s, claim, s.processes[i].window.value))
  }

  ghost predicate IsFor(s: State, claim: nat, key: Key) {
    claim < |s.claimed| && s.claimed[claim] == key
  }

  /** A step keeps what a process has pending, with its key, or ends it; only a
      claim begins something. */
  lemma PendingKeepsItsKey(s: State, step: Step, i: nat)
    requires Enabled(s, step) && i < |s.processes| && Apply(s, step).processes[i].stage.Pending().Some?
    ensures var before, after := s.processes[i].stage, Apply(s, step).processes[i].stage;
            || (after.Pending() == before.Pending() && after.key == before.key)
            || (step.Claim? && after.Pending() == Some(|s.claimed|) && after.key == step.key)
  {
    hide MutexExists;
  }

  lemma QueueKeepsItsWindow(s: State, step: Step, i: nat, claim: nat)
    requires Enabled(s, step) && Settled(s.processes[step.p])
    requires i < |s.processes| && claim in Apply(s, step).processes[i].queue
    ensures || (claim in s.processes[i].queue && Apply(s, step).processes[i].window == s.processes[i].window)
            || (&& s.processes[step.p].stage.Forwarding? && claim == s.processes[step.p].stage.claim
                && Apply(s, step).processes[i].window == Some(s.processes[step.p].stage.key))
  {
    hide MutexExists;
  }

  lemma StepKeepsAddressed(s: State, step: Step)
    requires Addressed(s) && Guarded(s) && Enabled(s, step)
    ensures Addressed(Apply(s, step))
  {
    hide Apply, OneOwner;
    var t := Apply(s, step);
    StepShape(s, step);
    forall i | 0 <= i < |t.processes| && t.processes[i].stage.Pending().Some?
      ensures IsFor(t, t.processes[i].stage.Pending().value, t.processes[i].stage.key)
    {
      PendingKeepsItsKey(s, step, i);
    }
    forall i, claim | 0 <= i < |t.processes| && claim in t.processes[i].queue
      ensures t.processes[i].window.Some? && IsFor(t, claim, t.processes[i].window.value)
    {
      QueueKeepsItsWindow(s, step, i, claim);
      assert s.processes[step.p].stage.Forwarding? ==>
          s.processes[step.p].stage.Pending() == Some(s.processes[step.p].stage.claim);
    }
  }

  lemma StepShape(s: State, step: Step)
    requires Enabled(s, step)
    ensures |Apply(s, step).processes| == |s.processes|
    ensures Apply(s, step).claimed == s.claimed + if step.Claim? then [step.key] else []
  {
    hide MutexExists;
  }

  lemma {:induction false} RunKeepsAddressed(s: State, steps: seq<Step>, end: State)
    requires Addressed(s) && Guarded(s) && Run(s, steps, end)
    ensures Addressed(end)
    decreases steps
  {
    if steps != [] {
      StepKeepsAddressed(s, steps[0]);
      StepKeepsGuard(s, steps[0]);
      RunKeepsAddressed(Apply(s, steps[0]), steps[1..], end);
    }
  }

  /** A launch stands in the queue of the process that owns the mutex of the key
      it was claimed for, and shows that key's window. */
  lemma LaunchesStandWithTheOwner(s: State, i: nat, claim: nat)
    requires Reachable(s) && i < |s.processes| && claim in s.processes[i].queue
    ensures claim < |s.claimed| && s.processes[i].stage.Owns(s.claimed[claim])
    ensures s.processes[i].window == Some(s.claimed[claim])
  {
    var start, steps :| IsInitial(start) && Run(start, steps, s);
    RunKeepsAddressed(start, steps, s);
    RunKeepsGuard(start, steps, s);
    assert Settled(s.processes[i]);
    assert IsFor(s, claim, s.processes[i].window.value);
  }

  // How a launch leaves its queue.

  datatype Fate = Taken | Dropped

  function Left(s: State, fate: Fate): seq<nat> {
    match fate
    case Taken => s.taken
    case Dropped => s.dropped
  }

  predicate Seals(s: State, step: Step, claim: nat, fate: Fate) {
    step.p < |s.processes| &&
    var queue := s.processes[step.p].queue;
    match fate
    case Taken => step.TakeLaunch? && queue != [] && queue[0] == claim
    case Dropped => Clears(step) && claim in queue
  }

  /** Step `k` of the run found the state `before` and sealed the claim's fate. */
  ghost predicate SealedAt(s: State, steps: seq<Step>, k: nat, before: State, claim: nat, fate: Fate) {
    k < |steps| && Run(s, steps[..k], before) && Seals(before, steps[k], claim, fate)
  }

  lemma StepSeals(s: State, step: Step, claim: nat, fate: Fate)
    requires Enabled(s, step)
    ensures claim in Left(Apply(s, step), fate) <==> claim in Left(s, fate) || Seals(s, step, claim, fate)
  {
    hide MutexExists;
  }

  lemma SealedLater(s: State, steps: seq<Step>, k: nat, before: State, claim: nat, fate: Fate)
    requires steps != [] && Enabled(s, steps[0])
    ensures SealedAt(Apply(s, steps[0]), steps[1..], k, before, claim, fate) <==>
            SealedAt(s, steps, k + 1, before, claim, fate)
  {
    hide Apply;
    if k < |steps[1..]| {
      assert steps[..k + 1][0] == steps[0] && steps[..k + 1][1..] == steps[1..][..k];
    }
  }

  lemma SealedInside(s: State, steps: seq<Step>, k: nat, before: State, claim: nat, fate: Fate)
    ensures SealedAt(s, steps, k, before, claim, fate) ==> k < |steps|
  {
  }

  lemma SealedNow(s: State, steps: seq<Step>, before: State, claim: nat, fate: Fate)
    ensures SealedAt(s, steps, 0, before, claim, fate) <==>
            steps != [] && before == s && Seals(s, steps[0], claim, fate)
  {
  }

  lemma {:induction false} FateSealedAlong(s: State, steps: seq<Step>, end: State, claim: nat, fate: Fate)
    requires Run(s, steps, end)
    ensures claim in Left(end, fate) <==>
            claim in Left(s, fate) || exists k: nat, before :: SealedAt(s, steps, k, before, claim, fate)
    decreases steps
  {
    hide Apply, Seals, SealedAt, Left;
    forall before
      ensures SealedAt(s, steps, 0, before, claim, fate) <==>
              steps != [] && before == s && Seals(s, steps[0], claim, fate)
    {
      SealedNow(s, steps, before, claim, fate);
    }
    forall k: nat, before
      ensures SealedAt(s, steps, k, before, claim, fate) ==> k < |steps|
    {
      SealedInside(s, steps, k, before, claim, fate);
    }
    if steps != [] {
      var next := Apply(s, steps[0]);
      StepSeals(s, steps[0], claim, fate);
      FateSealedAlong(next, steps[1..], end, claim, fate);
      assert Seals(s, steps[0], claim, fate) ==> SealedAt(s, steps, 0, s, claim, fate);
      if exists k: nat, before :: SealedAt(next, steps[1..], k, before, claim, fate) {
        var k: nat, before :| SealedAt(next, steps[1..], k, before, claim, fate);
        SealedLater(s, steps, k, before, claim, fate);
      }
      if exists k: nat, before :: SealedAt(s, steps, k, before, claim, fate) {
        var k: nat, before :| SealedAt(s, steps, k, before, claim, fate);
        if k > 0 {
          SealedLater(s, steps, k - 1, before, claim, fate);
        }
      }
    }
  }

  /** In every run, a launch is dropped exactly when the process whose queue held
      it failed to open, released its mutex or exited at that moment, and taken
      exactly when that process's application took it from the front. */
  lemma FateIsSealedByItsHolder(start: State, steps: seq<Step>, s: State, claim: nat, fate: Fate)
    requires IsInitial(start) && Run(start, steps, s)
    ensures claim in Left(s, fate) <==> exists k: nat, before :: SealedAt(start, steps, k, before, claim, fate)
  {
    FateSealedAlong(start, steps, s, claim, fate);
  }

  /** A primary opens and a second process forwards its launch to it. */
  lemma LaunchForwarded(key: Key) returns (s: State)
    ensures Reachable(s)
    ensures s == State([Process(Primary(key), Some(key), [1], {key}), NEWCOMER], [key, key],
                       [Answer(0, AsPrimary), Answer(1, AsSecondary)], [1], [], [])
  {
    var start := State([NEWCOMER, NEWCOMER], [], [], [], [], []);
    assert Run(start, [], start) && IsInitial(start);
    assert !MutexExists(start, key);
    var first := BecomesPrimary(start, 0, key);
    ReachableGoesOn(start, [Claim(0, key, true), ShowWindow(0), FinishOpening(0)], first);
    s := LaunchJoins(first, key);
  }

  lemma LaunchJoins(first: State, key: Key) returns (s: State)
    requires Reachable(first)
    requires first == State([Process(Primary(key), Some(key), [], {key}), NEWCOMER], [key],
                            [Answer(0, AsPrimary)], [], [], [])
    ensures Reachable(s)
    ensures s == State([Process(Primary(key), Some(key), [1], {key}), NEWCOMER], [key, key],
                       [Answer(0, AsPrimary), Answer(1, AsSecondary)], [1], [], [])
  {
    hide Reachable;
    assert first.processes[0].stage.HoldsHandle(key);
    var probing := Apply(first, Claim(1, key, true));
    assert probing == first.(processes := [first.processes[0], Process(Probing(key, 1), None, [], {})], claimed := [key, key]);
    var looking := Apply(probing, CloseProbe(1));
    RunOfThree(first, Claim(1, key, true), CloseProbe(1), Look(1, Some(0), true));
    assert looking == probing.(processes := [first.processes[0], Process(Forwarding(key, 1, FORWARD_ATTEMPTS), None, [], {})]);
    s := Apply(looking, Look(1, Some(0), true));
    assert s.processes[1] == NEWCOMER;
    assert s.processes[0].queue == [1];
    assert s.processes == [first.processes[0].(queue := [1]), NEWCOMER];
    assert s.enqueued == [1];
    assert s.answers == [Answer(0, AsPrimary), Answer(1, AsSecondary)];
    ReachableGoesOn(first, [Claim(1, key, true), CloseProbe(1), Look(1, Some(0), true)], s);
  }

  /** An answer of secondary does not mean that the launch is taken: here the
      primary exits first. */
  lemma SecondaryLaunchMayBeDropped(key: Key) returns (s: State)
    ensures Reachable(s) && Answer(1, AsSecondary) in s.answers
    ensures s.enqueued == [1] && s.dropped == [1] && s.taken == [] && |s.processes| == 2
    ensures s.processes[0].queue == s.processes[1].queue == []
  {
    hide Reachable;
    var sent := LaunchForwarded(key);
    s := Apply(sent, Exit(0));
    assert [Exit(0)][1..] == [];
    ReachableGoesOn(sent, [Exit(0)], s);
    assert s.answers[1] == Answer(1, AsSecondary);
  }
}

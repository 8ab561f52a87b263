/** What an answer of primary is worth. A process that holds one key is answered
    primary for any other, so two processes can both be told that they are the
    primary for one key. Here is exactly when; and, beside it, that the steps of
    one claim do what the claim of a single process does. */
module PrimaryVerdicts {
  import opened Basics
  import opened SingleInstance

  // Runs whose steps obey a rule.

  /** A primary claims no key but the one it holds; or only one process moves. */
  datatype Rule = HeldKeys | OnlyBy(p: nat)

  predicate Obeys(rule: Rule, s: State, step: Step)
    requires Enabled(s, step)
  {
    match rule
    case HeldKeys => step.Claim? && s.processes[step.p].stage.Primary? ==> step.key == s.processes[step.p].stage.key
    case OnlyBy(p) => step.p == p
  }

  ghost predicate RuledRun(rule: Rule, s: State, steps: seq<Step>, end: State)
    decreases steps
  {
    if steps == [] then s == end
    else Enabled(s, steps[0]) && Obeys(rule, s, steps[0]) && RuledRun(rule, Apply(s, steps[0]), steps[1..], end)
  }

  ghost predicate Leads(rule: Rule, s: State, end: State) {
    exists steps :: RuledRun(rule, s, steps, end)
  }

  lemma {:induction false} RuledRunIsRun(rule: Rule, s: State, steps: seq<Step>, end: State)
    requires RuledRun(rule, s, steps, end)
    ensures Run(s, steps, end)
    decreases steps
  {
    if steps != [] {
      RuledRunIsRun(rule, Apply(s, steps[0]), steps[1..], end);
    }
  }

  lemma {:induction false} RuledRunsJoin(
      rule: Rule, s: State, a: seq<Step>, middle: State, b: seq<Step>, end: State)
    requires RuledRun(rule, s, a, middle) && RuledRun(rule, middle, b, end)
    ensures RuledRun(rule, s, a + b, end)
    decreases a
  {
    hide Apply, Obeys, Enabled;
    if a == [] {
      assert a + b == b;
    } else {
      assert (a + b)[1..] == a[1..] + b;
      RuledRunsJoin(rule, Apply(s, a[0]), a[1..], middle, b, end);
    }
  }

  lemma LeadsOn(rule: Rule, s: State, middle: State, end: State)
    requires Leads(rule, s, middle) && Leads(rule, middle, end)
    ensures Leads(rule, s, end)
  {
    var a :| RuledRun(rule, s, a, middle);
    var b :| RuledRun(rule, middle, b, end);
    RuledRunsJoin(rule, s, a, middle, b, end);
  }

  lemma StepLeads(rule: Rule, s: State, step: Step)
    requires Enabled(s, step) && Obeys(rule, s, step)
    ensures Leads(rule, s, Apply(s, step))
  {
    hide Apply, Enabled, Obeys;
    assert [step][1..] == [];
    assert RuledRun(rule, s, [step], Apply(s, step));
  }

  lemma StayingLeads(rule: Rule, s: State)
    ensures Leads(rule, s, s)
  {
    assert RuledRun(rule, s, [], s);
  }

  /** A step, and whatever the state behind it leads to. */
  lemma StepThenLeads(rule: Rule, s: State, step: Step, end: State)
    requires Enabled(s, step) && Obeys(rule, s, step) && Leads(rule, Apply(s, step), end)
    ensures Leads(rule, s, end)
  {
    hide Apply, Enabled, Obeys, Leads;
    StepLeads(rule, s, step);
    LeadsOn(rule, s, Apply(s, step), end);
  }

  // No shared answer while primaries claim what they hold.

  /** Two processes stand answered primary for one key. */
  ghost predicate SharedAnswer(s: State) {
    exists i, j, k :: 0 <= i < j < |s.processes| && k in s.processes[i].told && k in s.processes[j].told
  }

  ghost predicate ToldWhatTheyHold(s: State) {
    forall i :: 0 <= i < |s.processes| ==>
      var stage := s.processes[i].stage; s.processes[i].told == if stage.Primary? then {stage.key} else {}
  }

  ghost predicate Exclusive(s: State) {
    Guarded(s) && ToldWhatTheyHold(s)
  }

  lemma ToldIsOwned(s: State, i: nat, k: Key)
    requires ToldWhatTheyHold(s) && i < |s.processes|
    ensures k in s.processes[i].told ==> s.processes[i].stage.Owns(k)
  {
  }

  lemma ExclusiveHasNoSharedAnswer(s: State)
    requires Exclusive(s)
    ensures !SharedAnswer(s)
  {
    forall i, k | 0 <= i < |s.processes| && k in s.processes[i].told
      ensures s.processes[i].stage.Owns(k)
    {
      ToldIsOwned(s, i, k);
    }
  }

  lemma StepKeepsExclusive(s: State, step: Step)
    requires Exclusive(s) && Enabled(s, step) && Obeys(HeldKeys, s, step)
    ensures Exclusive(Apply(s, step))
  {
    hide MutexExists, OneOwner;
    StepKeepsGuard(s, step);
    assert Settled(s.processes[step.p]);
  }

  lemma {:induction false} RunKeepsExclusive(s: State, steps: seq<Step>, end: State)
    requires Exclusive(s) && RuledRun(HeldKeys, s, steps, end)
    ensures Exclusive(end)
    decreases steps
  {
    hide Apply, Exclusive, Obeys, Enabled;
    if steps != [] {
      StepKeepsExclusive(s, steps[0]);
      RunKeepsExclusive(Apply(s, steps[0]), steps[1..], end);
    }
  }

  /** Reached by a run in which no primary ever claimed another key. */
  ghost predicate Proper(s: State) {
    exists start :: IsInitial(start) && Leads(HeldKeys, start, s)
  }

  /** As long as every claim by a primary names the key it holds, no two
      processes are ever told that they are the primary for one key. */
  lemma HeldKeysKeepAnswersApart(s: State)
    requires Proper(s)
    ensures !SharedAnswer(s) && Exclusive(s)
  {
    var start :| IsInitial(start) && Leads(HeldKeys, start, s);
    var steps :| RuledRun(HeldKeys, start, steps, s);
    assert Exclusive(start);
    RunKeepsExclusive(start, steps, s);
    ExclusiveHasNoSharedAnswer(s);
  }

  // One claim of another key undoes it.

  /** Every process from the first to the `n`-th exits, two excepted. */
  lemma {:induction false} OthersExit(s: State, p: nat, q: nat, n: nat) returns (t: State)
    requires n <= |s.processes| && p < |s.processes| && q < |s.processes|
    ensures Leads(HeldKeys, s, t) && |t.processes| == |s.processes|
    ensures forall i :: 0 <= i < |s.processes| && (i >= n || i == p || i == q) ==> t.processes[i] == s.processes[i]
    ensures forall i :: 0 <= i < n && i != p && i != q ==> t.processes[i].stage == Exited
  {
    hide Leads;
    t := s;
    StayingLeads(HeldKeys, s);
    if n > 0 {
      var u := OthersExit(s, p, q, n - 1);
      t := u;
      if n - 1 != p && n - 1 != q && u.processes[n - 1].stage != Exited {
        t := Apply(u, Exit(n - 1));
        StepLeads(HeldKeys, u, Exit(n - 1));
        LeadsOn(HeldKeys, s, u, t);
      }
    }
  }

  /** The steps a process needs at most to be idle again. */
  function Distance(stage: Stage): nat {
    match stage
    case Idle => 0
    case Closing(_, _) => 1
    case Opening(_, _) => 2
    case Primary(_) => 2
    case Forwarding(_, _, left) => left
    case Probing(_, _) => FORWARD_ATTEMPTS + 1
    case Exited => 0
  }

  /** The next of them. */
  function Backwards(s: State, q: nat): Step
    requires q < |s.processes|
  {
    match s.processes[q].stage
    case Probing(_, _) => CloseProbe(q)
    case Forwarding(_, _, _) => Look(q, None, false)
    case Opening(_, _) => FailOpening(q)
    case Primary(_) => CloseWindow(q)
    case Closing(_, _) => CloseMutex(q)
    case _ => Exit(q)
  }

  lemma StepsBack(s: State, q: nat)
    requires q < |s.processes| && Settled(s.processes[q])
    requires !s.processes[q].stage.Exited? && !s.processes[q].stage.Idle?
    ensures var step := Backwards(s, q);
            && Enabled(s, step) && Obeys(HeldKeys, s, step)
            && var t := Apply(s, step);
               && t.processes == s.processes[q := t.processes[q]] && Settled(t.processes[q])
               && !t.processes[q].stage.Exited? && Distance(t.processes[q].stage) < Distance(s.processes[q].stage)
  {
    hide MutexExists;
  }

  /** A process that has not exited can come back to where it began. */
  lemma {:induction false} ComesToIdle(s: State, q: nat) returns (t: State)
    requires q < |s.processes| && Settled(s.processes[q]) && !s.processes[q].stage.Exited?
    ensures Leads(HeldKeys, s, t) && t.processes == s.processes[q := NEWCOMER]
    decreases Distance(s.processes[q].stage)
  {
    hide Apply, Enabled, Obeys, Leads;
    if s.processes[q].stage.Idle? {
      t := s;
      StayingLeads(HeldKeys, s);
      assert s.processes[q] == NEWCOMER;
    } else {
      StepsBack(s, q);
      t := ComesToIdle(Apply(s, Backwards(s, q)), q);
      StepThenLeads(HeldKeys, s, Backwards(s, q), t);
    }
  }

  lemma IdleBecomesPrimary(s: State, q: nat, k: Key) returns (t: State)
    requires q < |s.processes| && s.processes[q] == NEWCOMER && !MutexExists(s, k)
    ensures Leads(HeldKeys, s, t) && t.processes == s.processes[q := Process(Primary(k), Some(k), [], {k})]
  {
    hide MutexExists, Leads;
    var claimed := Apply(s, Claim(q, k, true));
    var shown := Apply(claimed, ShowWindow(q));
    t := Apply(shown, FinishOpening(q));
    StepLeads(HeldKeys, shown, FinishOpening(q));
    StepThenLeads(HeldKeys, claimed, ShowWindow(q), t);
    StepThenLeads(HeldKeys, s, Claim(q, k, true), t);
  }

  /** A primary told another key than its own, and any process that has not
      exited: the two can come to share that answer. */
  lemma SharingIsWithinReach(s: State, p: nat, q: nat, key: Key) returns (t: State)
    requires Guarded(s) && p < |s.processes| && q < |s.processes| && p != q
    requires s.processes[p].stage.Primary? && key in s.processes[p].told && key != s.processes[p].stage.key
    requires !s.processes[q].stage.Exited?
    ensures Leads(HeldKeys, s, t) && SharedAnswer(t)
    ensures |t.processes| == |s.processes| && key in t.processes[p].told && key in t.processes[q].told
  {
    hide Leads, OneOwner;
    assert Settled(s.processes[q]);
    var alone := OthersExit(s, p, q, |s.processes|);
    var idle := ComesToIdle(alone, q);
    forall i | 0 <= i < |idle.processes|
      ensures !idle.processes[i].stage.HoldsHandle(key)
    {
    }
    t := IdleBecomesPrimary(idle, q, key);
    LeadsOn(HeldKeys, alone, idle, t);
    LeadsOn(HeldKeys, s, alone, t);
    assert key in t.processes[Min(p, q)].told && key in t.processes[Max(p, q)].told;
  }

  /** Nobody but `p` is left. */
  ghost predicate AloneAt(s: State, p: nat) {
    Guarded(s) && forall i :: 0 <= i < |s.processes| && i != p ==> s.processes[i].stage.Exited?
  }

  lemma {:induction false} AloneStaysAlone(s: State, p: nat, steps: seq<Step>, end: State)
    requires AloneAt(s, p) && RuledRun(HeldKeys, s, steps, end)
    ensures AloneAt(end, p)
    decreases steps
  {
    if steps != [] {
      AloneKeeps(s, p, steps[0]);
      AloneStaysAlone(Apply(s, steps[0]), p, steps[1..], end);
    }
  }

  lemma AloneKeeps(s: State, p: nat, step: Step)
    requires AloneAt(s, p) && Enabled(s, step)
    ensures AloneAt(Apply(s, step), p)
  {
    hide OneOwner, MutexExists;
    StepKeepsGuard(s, step);
    assert Settled(s.processes[step.p]);
  }

  lemma AloneSharesNothing(s: State, p: nat)
    requires AloneAt(s, p)
    ensures !SharedAnswer(s)
  {
    forall i | 0 <= i < |s.processes| && i != p
      ensures s.processes[i].told == {}
    {
      assert Settled(s.processes[i]);
    }
  }

  ghost predicate SharingAhead(s: State) {
    exists end :: Leads(HeldKeys, s, end) && SharedAnswer(end)
  }

  ghost predicate SomeoneElseIsLeft(s: State, p: nat) {
    exists q :: 0 <= q < |s.processes| && q != p && !s.processes[q].stage.Exited?
  }

  lemma AnsweringKeepsOthers(s: State, p: nat, key: Key, created: bool)
    requires p < |s.processes| && s.processes[p].stage.Primary?
    ensures var t := Apply(s, Claim(p, key, created));
            && t.processes == s.processes[p := s.processes[p].(told := s.processes[p].told + {key})]
            && t.answers == s.answers + [Answer(|s.claimed|, AsPrimary)]
  {
    hide MutexExists;
  }

  /** A process that holds a mutex is answered primary for whatever key it
      claims. If every claim before it was for a held key, then its answer can
      come to be shared, with every claim after it for a held key, exactly when
      the key is not the one it holds and some other process has not exited. */
  lemma SecondKeyBreaksTheGuard(s: State, p: nat, key: Key, created: bool)
    requires Proper(s) && p < |s.processes| && s.processes[p].stage.Primary?
    ensures var t := Apply(s, Claim(p, key, created));
            && t.answers == s.answers + [Answer(|s.claimed|, AsPrimary)] && key in t.processes[p].told
            && (t.processes[p].stage.Owns(key) <==> key == s.processes[p].stage.key)
            && (SharingAhead(t) <==> key != s.processes[p].stage.key && SomeoneElseIsLeft(s, p))
  {
    hide Leads, Apply, OneOwner, Exclusive;
    var step := Claim(p, key, created);
    var t := Apply(s, step);
    HeldKeysKeepAnswersApart(s);
    AnsweringKeepsOthers(s, p, key, created);
    ExclusiveIsGuarded(s);
    StepKeepsGuard(s, step);
    if key == s.processes[p].stage.key {
      forall end | Leads(HeldKeys, t, end)
        ensures !SharedAnswer(end)
      {
        ProperGoesOn(s, step, end);
        HeldKeysKeepAnswersApart(end);
      }
    } else if !SomeoneElseIsLeft(s, p) {
      assert AloneAt(t, p);
      forall end | Leads(HeldKeys, t, end)
        ensures !SharedAnswer(end)
      {
        AloneForGood(t, p, end);
      }
    } else {
      var q :| 0 <= q < |s.processes| && q != p && !s.processes[q].stage.Exited?;
      var end := SharingIsWithinReach(t, p, q, key);
    }
  }

  lemma ExclusiveIsGuarded(s: State)
    requires Exclusive(s)
    ensures Guarded(s)
  {
  }

  lemma ProperGoesOn(s: State, step: Step, end: State)
    requires Proper(s) && Enabled(s, step) && Obeys(HeldKeys, s, step) && Leads(HeldKeys, Apply(s, step), end)
    ensures Proper(end)
  {
    hide Leads, Apply, Enabled, Obeys;
    var start :| IsInitial(start) && Leads(HeldKeys, start, s);
    StepThenLeads(HeldKeys, s, step, end);
    LeadsOn(HeldKeys, start, s, end);
  }

  lemma AloneForGood(s: State, p: nat, end: State)
    requires AloneAt(s, p) && Leads(HeldKeys, s, end)
    ensures !SharedAnswer(end)
  {
    var steps :| RuledRun(HeldKeys, s, steps, end);
    AloneStaysAlone(s, p, steps, end);
    AloneSharesNothing(end, p);
  }

  /** And it does happen: two processes told that they are the primary for `b`. */
  lemma SecondKeyIsNotGuarded(a: Key, b: Key) returns (s: State)
    requires a != b
    ensures Reachable(s) && |s.processes| == 2 && SharedAnswer(s)
  {
    hide Leads;
    var start := State([NEWCOMER, NEWCOMER], [], [], [], [], []);
    var first := IdleBecomesPrimary(start, 0, a);
    assert IsInitial(start);
    assert Proper(first);
    SecondKeyBreaksTheGuard(first, 0, b, true);
    assert !first.processes[1].stage.Exited?;
    var told := Apply(first, Claim(0, b, true));
    s :| Leads(HeldKeys, told, s) && SharedAnswer(s);
    LedIsReachable(start, first, Claim(0, b, true), s);
  }

  lemma LedIsReachable(start: State, first: State, step: Step, s: State)
    requires IsInitial(start) && Leads(HeldKeys, start, first)
    requires Enabled(first, step) && Leads(HeldKeys, Apply(first, step), s)
    ensures Reachable(s) && |s.processes| == |start.processes|
  {
    var before :| RuledRun(HeldKeys, start, before, first);
    var after :| RuledRun(HeldKeys, Apply(first, step), after, s);
    RuledRunIsRun(HeldKeys, start, before, first);
    RuledRunIsRun(HeldKeys, Apply(first, step), after, s);
    assert [step] + after == [step] + after && ([step] + after)[1..] == after;
    RunsJoin(start, before, first, [step] + after, s);
    ProcessesStay(start, before + ([step] + after), s);
  }

  lemma {:induction false} ProcessesStay(s: State, steps: seq<Step>, end: State)
    requires Run(s, steps, end)
    ensures |end.processes| == |s.processes|
    decreases steps
  {
    if steps != [] {
      ProcessesStay(Apply(s, steps[0]), steps[1..], end);
    }
  }

  // The steps of one claim do what the method does.

  /** The key whose mutex a process holds for good, as its own guard records it. */
  function Held(q: Process): Option<Key> {
    if q.stage.Primary? then Some(q.stage.key) else None
  }

  ghost predicate FindsFrom(finds: nat -> bool, a: nat) {
    exists b: nat :: a <= b < FORWARD_ATTEMPTS && finds(b)
  }

  /** Looking for the window of `f`, from attempt `FORWARD_ATTEMPTS - left` on. */
  lemma {:induction false} LookingRefines(s: State, p: nat, system: System, f: nat) returns (end: State)
    requires p < |s.processes| && f < |s.processes| && s.processes[p].stage.Forwarding?
    requires 0 < s.processes[p].stage.left <= FORWARD_ATTEMPTS
    requires s.processes[p].window == None
    requires FindsFrom(system.finds, FORWARD_ATTEMPTS - s.processes[p].stage.left) ==>
               s.processes[f].window == Some(s.processes[p].stage.key)
    ensures var q := s.processes[p];
            var secondary := system.answers && FindsFrom(system.finds, FORWARD_ATTEMPTS - q.stage.left);
            && Leads(OnlyBy(p), s, end) && |end.processes| == |s.processes|
            && end.processes[p] == q.(stage := Idle) && end.claimed == s.claimed
            && end.answers == s.answers + [Answer(q.stage.claim, if secondary then AsSecondary else Unavailable)]
            && end.enqueued == s.enqueued + if secondary then [q.stage.claim] else []
    decreases s.processes[p].stage.left
  {
    hide Leads, MutexExists;
    var q := s.processes[p];
    var a := FORWARD_ATTEMPTS - q.stage.left;
    if system.finds(a) {
      assert FindsFrom(system.finds, a);
      end := Apply(s, Look(p, Some(f), system.answers));
      StepLeads(OnlyBy(p), s, Look(p, Some(f), system.answers));
    } else {
      var missed := Apply(s, Look(p, None, false));
      if q.stage.left == 1 {
        end := missed;
        StepLeads(OnlyBy(p), s, Look(p, None, false));
      } else {
        assert FindsFrom(system.finds, a) <==> FindsFrom(system.finds, a + 1);
        end := LookingRefines(missed, p, system, f);
        StepThenLeads(OnlyBy(p), s, Look(p, None, false), end);
      }
    }
  }

  /** A process that claims while the others stand still: whatever the system
      answers it, its steps give the verdict, the mutex and the window that the
      method gives, and enqueue a launch exactly on an answer of secondary. */
  lemma StepsRefineTheClaim(s: State, p: nat, key: Key, system: System, f: nat) returns (end: State)
    requires p < |s.processes| && f < |s.processes| && Settled(s.processes[p])
    requires s.processes[p].stage.Idle? || s.processes[p].stage.Primary?
    requires s.processes[p].stage.Idle? && system.created ==> (system.existed <==> MutexExists(s, key))
    requires s.processes[p].stage.Idle? && FindsFrom(system.finds, 0) ==> s.processes[f].window == Some(key)
    ensures var q, r := s.processes[p], VerdictOf(Held(s.processes[p]), system);
            && Leads(OnlyBy(p), s, end) && |end.processes| == |s.processes|
            && end.answers == s.answers + [Answer(|s.claimed|, r)]
            && Held(end.processes[p]) == (if Held(q).Some? then Held(q) else if r == AsPrimary then Some(key) else None)
            && end.processes[p].window == Held(end.processes[p])
            && end.enqueued == s.enqueued + if r == AsSecondary then [|s.claimed|] else []
  {
    hide Leads, MutexExists;
    var q := s.processes[p];
    var claim := Claim(p, key, system.created);
    var claimed := Apply(s, claim);
    StepLeads(OnlyBy(p), s, claim);
    if q.stage.Primary? || !system.created {
      end := claimed;
    } else if system.existed {
      var closed := Apply(claimed, CloseProbe(p));
      end := LookingRefines(closed, p, system, f);
      StepThenLeads(OnlyBy(p), claimed, CloseProbe(p), end);
      LeadsOn(OnlyBy(p), s, claimed, end);
    } else {
      end := OpeningRefines(claimed, p, system.opens);
      LeadsOn(OnlyBy(p), s, claimed, end);
    }
  }

  lemma OpeningRefines(s: State, p: nat, opens: bool) returns (end: State)
    requires p < |s.processes| && s.processes[p].stage.Opening? && s.processes[p].window == None
    requires s.processes[p].queue == []
    ensures var q := s.processes[p];
            && Leads(OnlyBy(p), s, end) && |end.processes| == |s.processes| && end.enqueued == s.enqueued
            && end.answers == s.answers + [Answer(q.stage.claim, if opens then AsPrimary else Unavailable)]
            && Held(end.processes[p]) == end.processes[p].window == if opens then Some(q.stage.key) else None
  {
    hide Leads, MutexExists;
    if opens {
      var shown := Apply(s, ShowWindow(p));
      end := Apply(shown, FinishOpening(p));
      StepLeads(OnlyBy(p), shown, FinishOpening(p));
      StepThenLeads(OnlyBy(p), s, ShowWindow(p), end);
    } else {
      var failed := Apply(s, FailOpening(p));
      end := Apply(failed, CloseMutex(p));
      StepLeads(OnlyBy(p), failed, CloseMutex(p));
      StepThenLeads(OnlyBy(p), s, FailOpening(p), end);
    }
  }
}

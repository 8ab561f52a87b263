/** The daemon's accept loop: it serves what it accepts, backs off on failures,
    and lets the refusal log decide which refusals get a line. */
module AcceptLoop {
  import opened Basics
  import opened RefusalLog

  const REFUSAL_LOG_WINDOW: nat := 60_000

  datatype Incoming<+C> =
    | Accepted(conn: C)
    | PeerRefused(reason: string, now: nat)
    | AcceptFailed

  /** What the loop does: serves a connection, writes a line (with the refusal
      that prompted it and when, or none for the closing line), or waits. */
  datatype Effect<+C> =
    | Served(conn: C)
    | Line(prompt: Option<(string, nat)>, silenced: nat)
    | Waited(ms: nat)

  datatype State = State(counts: Counts, failures: nat)

  const START: State := State(NOTHING_YET, 0)

  function Backoff(failures: nat): nat {
    Min(100 * failures, 2_000)
  }

  function Next<C>(s: State, window: nat, incoming: Incoming<C>): State {
    match incoming
    case Accepted(_) => s.(failures := 0)
    case PeerRefused(_, now) => s.(counts := Refused(s.counts, window, now).0)
    case AcceptFailed => s.(failures := s.failures + 1)
  }

  function EffectOf<C>(s: State, window: nat, incoming: Incoming<C>): Option<Effect<C>> {
    match incoming
    case Accepted(conn) => Some(Served(conn))
    case PeerRefused(reason, now) =>
      (match Refused(s.counts, window, now).1
       case Some(silenced) => Some(Line(Some((reason, now)), silenced))
       case None => None)
    case AcceptFailed => Some(Waited(Backoff(s.failures + 1)))
  }

  function Closing<C>(s: State): Option<Effect<C>> {
    if s.counts.silenced > 0 then Some(Line(None, s.counts.silenced)) else None
  }

  /** The effects of handling these outcomes in order and then stopping. */
  function Run<C>(s: State, window: nat, incoming: seq<Incoming<C>>): seq<Effect<C>>
    decreases incoming
  {
    if incoming == [] then OneOf(Closing(s))
    else OneOf(EffectOf(s, window, incoming[0])) + Run(Next(s, window, incoming[0]), window, incoming[1..])
  }

  /** The outcomes arrive in order; the shutdown comes when `stop` of them have
      been handled, or never if they run out first. */
  method Accept<C>(incoming: seq<Incoming<C>>, stop: nat) returns (effects: seq<Effect<C>>)
    ensures effects == Run(START, REFUSAL_LOG_WINDOW, incoming[..Min(stop, |incoming|)])
  {
    hide Run, Refused;
    effects := [];
    var consecutive := 0;
    var refusals := new Log(REFUSAL_LOG_WINDOW);
    ghost var handled := incoming[..Min(stop, |incoming|)];
    var i := 0;
    while true
      invariant 0 <= i <= |handled| && refusals.window == REFUSAL_LOG_WINDOW
      invariant Run(START, REFUSAL_LOG_WINDOW, handled) ==
                effects + Run(State(refusals.Now(), consecutive), REFUSAL_LOG_WINDOW, handled[i..])
      decreases |incoming| - i
    {
      if i == stop || i == |incoming| {
        break;
      }
      ghost var s := State(refusals.Now(), consecutive);
      ghost var before := effects;
      RunUnfolds(s, REFUSAL_LOG_WINDOW, handled, i);
      match incoming[i] {
        case Accepted(conn) =>
          consecutive := 0;
          effects := effects + [Served(conn)];
        case PeerRefused(reason, now) =>
          var line := refusals.Refuse(now);
          if line.Some? {
            effects := effects + [Line(Some((reason, now)), line.value)];
          }
        case AcceptFailed =>
          consecutive := consecutive + 1;
          effects := effects + [Waited(Min(100 * consecutive, 2_000))];
      }
      assert effects == before + OneOf(EffectOf(s, REFUSAL_LOG_WINDOW, incoming[i]));
      i := i + 1;
    }
    RunEnds<C>(State(refusals.Now(), consecutive), REFUSAL_LOG_WINDOW);
    assert handled[i..] == [];
    if refusals.silenced > 0 {
      effects := effects + [Line(None, refusals.silenced)];
    }
  }

  lemma RunUnfolds<C>(s: State, window: nat, incoming: seq<Incoming<C>>, i: nat)
    requires i < |incoming|
    ensures Run(s, window, incoming[i..]) ==
            OneOf(EffectOf(s, window, incoming[i])) + Run(Next(s, window, incoming[i]), window, incoming[i + 1..])
  {
    assert incoming[i..][1..] == incoming[i + 1..];
  }

  lemma RunEnds<C>(s: State, window: nat)
    ensures Run<C>(s, window, []) == OneOf(Closing(s))
  {
  }

  // What a projection sees of a run.

  function PickedFrom<E, T>(e: Option<E>, pick: E -> Option<T>): seq<T> {
    match e
    case None => []
    case Some(value) => OneOf(pick(value))
  }

  lemma PickedOfOneOf<E, T>(e: Option<E>, pick: E -> Option<T>)
    ensures Picked(OneOf(e), pick) == PickedFrom(e, pick)
  {
    if e.Some? {
      assert [e.value][1..] == [];
    }
  }

  lemma RunPicked<C, T>(s: State, window: nat, incoming: seq<Incoming<C>>, pick: Effect<C> -> Option<T>)
    ensures incoming == [] ==> Picked(Run(s, window, incoming), pick) == PickedFrom(Closing(s), pick)
    ensures incoming != [] ==>
              Picked(Run(s, window, incoming), pick) ==
              PickedFrom(EffectOf(s, window, incoming[0]), pick) +
              Picked(Run(Next(s, window, incoming[0]), window, incoming[1..]), pick)
  {
    hide Picked;
    if incoming == [] {
      PickedOfOneOf(Closing(s), pick);
    } else {
      var first := EffectOf(s, window, incoming[0]);
      PickedOfOneOf(first, pick);
      PickedAppend(OneOf(first), Run(Next(s, window, incoming[0]), window, incoming[1..]), pick);
    }
  }

  // Served in order, none skipped.

  function AcceptedIn<C>(i: Incoming<C>): Option<C> {
    if i.Accepted? then Some(i.conn) else None
  }

  function ServedIn<C>(e: Effect<C>): Option<C> {
    if e.Served? then Some(e.conn) else None
  }

  lemma {:induction false} ServedAsAccepted<C>(s: State, window: nat, incoming: seq<Incoming<C>>)
    ensures Picked(Run(s, window, incoming), ServedIn<C>) == Picked(incoming, AcceptedIn<C>)
    decreases incoming
  {
    hide Run, Refused;
    RunPicked(s, window, incoming, ServedIn<C>);
    if incoming != [] {
      ServedAsAccepted(Next(s, window, incoming[0]), window, incoming[1..]);
    }
  }

  // No refusal is lost or counted twice.

  function Refusals<C>(incoming: seq<Incoming<C>>): nat {
    if incoming == [] then 0 else (if incoming[0].PeerRefused? then 1 else 0) + Refusals(incoming[1..])
  }

  /** The refusals a log accounts for: one for each prompted line, and those
      that the lines count as silenced. */
  function Reported<C>(effects: seq<Effect<C>>): nat {
    if effects == [] then 0 else
    (if effects[0].Line? then effects[0].silenced + (if effects[0].prompt.Some? then 1 else 0) else 0) +
    Reported(effects[1..])
  }

  lemma ReportedBehind<C>(e: Option<Effect<C>>, later: seq<Effect<C>>)
    ensures Reported(OneOf(e) + later) == Reported(OneOf(e)) + Reported(later)
    ensures Reported<C>([]) == 0
  {
    if e.Some? {
      assert (OneOf(e) + later)[1..] == later && OneOf(e)[1..] == [];
    } else {
      assert OneOf(e) + later == later;
    }
  }

  lemma {:induction false} RefusalsAreConserved<C>(s: State, window: nat, incoming: seq<Incoming<C>>)
    ensures Reported(Run(s, window, incoming)) == s.counts.silenced + Refusals(incoming)
    decreases incoming
  {
    if incoming == [] {
      ReportedBehind<C>(Closing(s), []);
    } else {
      var next := Next(s, window, incoming[0]);
      RefusalsAreConserved(next, window, incoming[1..]);
      ReportedBehind(EffectOf(s, window, incoming[0]), Run(next, window, incoming[1..]));
    }
  }

  lemma EveryRefusalIsReportedOnce<C>(incoming: seq<Incoming<C>>)
    ensures Reported(Run(START, REFUSAL_LOG_WINDOW, incoming)) == Refusals(incoming)
  {
    RefusalsAreConserved(START, REFUSAL_LOG_WINDOW, incoming);
  }

  // Lines keep their distance.

  function PromptedAt<C>(e: Effect<C>): Option<nat> {
    if e.Line? && e.prompt.Some? then Some(e.prompt.value.1) else None
  }

  function LineTimes<C>(effects: seq<Effect<C>>): seq<nat> {
    Picked(effects, PromptedAt<C>)
  }

  predicate SpacedFrom(last: Option<nat>, times: seq<nat>, window: nat)
    decreases times
  {
    times == [] || ((last.Some? ==> last.value + window <= times[0]) && SpacedFrom(Some(times[0]), times[1..], window))
  }

  lemma {:induction false} LinesAreSpaced<C>(s: State, window: nat, incoming: seq<Incoming<C>>)
    requires window > 0
    ensures SpacedFrom(s.counts.lastLine, LineTimes(Run(s, window, incoming)), window)
    decreases incoming
  {
    hide Run, Picked;
    RunPicked(s, window, incoming, PromptedAt<C>);
    if incoming != [] {
      var next := Next(s, window, incoming[0]);
      LinesAreSpaced(next, window, incoming[1..]);
      var times := LineTimes(Run(s, window, incoming));
      var later := LineTimes(Run(next, window, incoming[1..]));
      assert times == later || times[1..] == later;
    }
  }

  ghost predicate WindowPast(times: seq<nat>, window: nat, now: nat) {
    forall t :: t in times ==> t + window <= now
  }

  lemma WindowPastBoth(t: nat, later: seq<nat>, window: nat, now: nat)
    ensures WindowPast([t] + later, window, now) <==> t + window <= now && WindowPast(later, window, now)
  {
    assert t in [t] + later;
    assert forall x :: x in later ==> x in [t] + later;
  }

  lemma {:induction false} LineWhenWindowPast<C>(s: State, window: nat, before: seq<Incoming<C>>, reason: string, now: nat)
    requires window > 0
    ensures var times := LineTimes(Run(s, window, before));
            LineTimes(Run(s, window, before + [PeerRefused(reason, now)])) ==
            times + if WindowPast(times, window, now) && (s.counts.lastLine.Some? ==> s.counts.lastLine.value + window <= now)
                    then [now] else []
    decreases before
  {
    hide Run, Picked;
    var all := before + [PeerRefused(reason, now)];
    RunPicked(s, window, before, PromptedAt<C>);
    RunPicked(s, window, all, PromptedAt<C>);
    if before == [] {
      assert all[0] == PeerRefused(reason, now) && all[1..] == [];
      RunPicked(Next(s, window, all[0]), window, all[1..], PromptedAt<C>);
    } else {
      var next := Next(s, window, before[0]);
      assert all[0] == before[0] && all[1..] == before[1..] + [PeerRefused(reason, now)];
      LineWhenWindowPast(next, window, before[1..], reason, now);
      var times, later := LineTimes(Run(s, window, before)), LineTimes(Run(next, window, before[1..]));
      var first := PickedFrom(EffectOf(s, window, before[0]), PromptedAt<C>);
      assert times == first + later;
      if first == [] {
        assert times == later && next.counts.lastLine == s.counts.lastLine;
      } else {
        var t := next.counts.lastLine.value;
        assert first == [t] && (s.counts.lastLine.Some? ==> s.counts.lastLine.value + window <= t);
        WindowPastBoth(t, later, window, now);
      }
    }
  }

  /** A refusal gets a line of its own exactly when every line so far is at
      least one window behind it. */
  lemma LineIffWindowPast<C>(before: seq<Incoming<C>>, window: nat, reason: string, now: nat)
    requires window > 0
    ensures var times := LineTimes(Run(START, window, before));
            LineTimes(Run(START, window, before + [PeerRefused(reason, now)])) ==
            times + if WindowPast(times, window, now) then [now] else []
  {
    LineWhenWindowPast(START, window, before, reason, now);
  }

  function RefusedAt<C>(i: Incoming<C>): Option<nat> {
    if i.PeerRefused? then Some(i.now) else None
  }

  /** With a window of zero every refusal gets a line of its own, whatever the
      clock says. */
  lemma {:induction false} NoWindowNoSilence<C>(s: State, incoming: seq<Incoming<C>>)
    ensures LineTimes(Run(s, 0, incoming)) == Picked(incoming, RefusedAt<C>)
    decreases incoming
  {
    hide Run, Picked;
    RunPicked(s, 0, incoming, PromptedAt<C>);
    PickedUnfolds(incoming, RefusedAt<C>);
    if incoming != [] {
      NoWindowNoSilence(Next(s, 0, incoming[0]), incoming[1..]);
    }
  }

  lemma PickedUnfolds<E, T>(log: seq<E>, pick: E -> Option<T>)
    ensures Picked(log, pick) == if log == [] then [] else OneOf(pick(log[0])) + Picked(log[1..], pick)
  {
  }

  /** The lines keep their distance for every sequence of outcomes exactly when
      the window is longer than zero. */
  lemma SpacingNeedsAWindow<C>(window: nat)
    ensures window > 0 <==>
            forall incoming: seq<Incoming<C>> :: SpacedFrom(None, LineTimes(Run(START, window, incoming)), window)
  {
    if window > 0 {
      forall incoming: seq<Incoming<C>>
        ensures SpacedFrom(None, LineTimes(Run(START, window, incoming)), window)
      {
        LinesAreSpaced(START, window, incoming);
      }
    } else {
      var backwards: seq<Incoming<C>> := [PeerRefused("", 1), PeerRefused("", 0)];
      NoWindowNoSilence(START, backwards);
      assert backwards[1..] == [PeerRefused("", 0)] && backwards[1..][1..] == [];
      assert LineTimes(Run(START, window, backwards)) == [1, 0] by {
        assert Picked(backwards[1..], RefusedAt<C>) == [0];
      }
      assert !SpacedFrom(None, LineTimes(Run(START, window, backwards)), window);
    }
  }

  lemma {:induction false} SpacedApart(last: Option<nat>, times: seq<nat>, window: nat, i: nat, j: nat)
    requires SpacedFrom(last, times, window) && i <= j < |times|
    ensures times[i] + (j - i) * window <= times[j]
    decreases times, j
  {
    if i > 0 {
      SpacedApart(Some(times[0]), times[1..], window, i - 1, j - 1);
    } else if j > 0 {
      SpacedApart(Some(times[0]), times[1..], window, 0, j - 1);
      assert times[0] + window <= times[1];
      Distributes(j - 1, 1, window);
    }
  }

  /** Whatever the clock does, the lines prompted between two instants `span`
      apart number at most `span / window + 1`. */
  lemma LinesInASpan<C>(incoming: seq<Incoming<C>>, window: nat, i: nat, j: nat, span: nat)
    requires window > 0
    requires var times := LineTimes(Run(START, window, incoming)); i <= j < |times| && times[j] <= times[i] + span
    ensures j - i + 1 <= span / window + 1
  {
    var times := LineTimes(Run(START, window, incoming));
    LinesAreSpaced(START, window, incoming);
    SpacedApart(None, times, window, i, j);
    Quotient(j - i, window, span);
  }

  lemma Quotient(n: nat, window: nat, span: nat)
    requires window > 0 && n * window <= span
    ensures n <= span / window
  {
    var q := span / window;
    Distributes(q, 1, window);
    assert span < q * window + window;
    Cancels(n, q + 1, window);
  }

  lemma Cancels(a: nat, b: nat, factor: nat)
    requires a * factor < b * factor
    ensures a < b
  {
  }

  // What the lines say.

  function PromptIn<C>(e: Effect<C>): Option<(string, nat)> {
    if e.Line? then e.prompt else None
  }

  function Prompts<C>(effects: seq<Effect<C>>): seq<(string, nat)> {
    Picked(effects, PromptIn<C>)
  }

  function ClosingIn<C>(e: Effect<C>): Option<nat> {
    if e.Line? && e.prompt.None? then Some(e.silenced) else None
  }

  /** The counts of the closing lines. */
  function Closings<C>(effects: seq<Effect<C>>): seq<nat> {
    Picked(effects, ClosingIn<C>)
  }

  lemma {:induction false} PromptsAreTimed<C>(effects: seq<Effect<C>>)
    ensures |Prompts(effects)| == |LineTimes(effects)|
    ensures forall i :: 0 <= i < |Prompts(effects)| ==> Prompts(effects)[i].1 == LineTimes(effects)[i]
  {
    if effects != [] {
      PromptsAreTimed(effects[1..]);
    }
  }

  lemma {:induction false} LastRefusal<C>(s: State, window: nat, before: seq<Incoming<C>>, reason: string, now: nat)
    ensures var run, more := Run(s, window, before), Run(s, window, before + [PeerRefused(reason, now)]);
            if |Prompts(more)| > |Prompts(run)|
            then Prompts(more) == Prompts(run) + [(reason, now)] && Closings(more) == []
            else Prompts(more) == Prompts(run) && |Closings(more)| == 1 && Closings(more)[0] > 0
    decreases before
  {
    hide Run, Picked;
    var all := before + [PeerRefused(reason, now)];
    RunPicked(s, window, before, PromptIn<C>);
    RunPicked(s, window, all, PromptIn<C>);
    RunPicked(s, window, all, ClosingIn<C>);
    if before == [] {
      assert all[0] == PeerRefused(reason, now) && all[1..] == [];
      RunPicked(Next(s, window, all[0]), window, all[1..], PromptIn<C>);
      RunPicked(Next(s, window, all[0]), window, all[1..], ClosingIn<C>);
    } else {
      assert all[0] == before[0] && all[1..] == before[1..] + [PeerRefused(reason, now)];
      LastRefusal(Next(s, window, before[0]), window, before[1..], reason, now);
    }
  }

  /** The line a refusal gets carries its own reason, and leaves nothing to be
      reported: with the lines before it, it accounts for every refusal so far. One
      that gets none is pending. */
  lemma LineReportsAllSoFar<C>(before: seq<Incoming<C>>, window: nat, reason: string, now: nat)
    requires window > 0
    ensures var run := Run(START, window, before);
            var more := Run(START, window, before + [PeerRefused(reason, now)]);
            && Reported(more) == Refusals(before + [PeerRefused(reason, now)])
            && if WindowPast(LineTimes(run), window, now)
               then Prompts(more) == Prompts(run) + [(reason, now)] && Closings(more) == []
               else Prompts(more) == Prompts(run) && |Closings(more)| == 1 && Closings(more)[0] > 0
  {
    hide Run, Picked;
    RefusalsAreConserved(START, window, before + [PeerRefused(reason, now)]);
    LastRefusal(START, window, before, reason, now);
    LineIffWindowPast(before, window, reason, now);
    PromptsAreTimed(Run(START, window, before));
    PromptsAreTimed(Run(START, window, before + [PeerRefused(reason, now)]));
  }

  /** A closing line counts at least one refusal. */
  lemma {:induction false} ClosingLineCounts<C>(s: State, window: nat, incoming: seq<Incoming<C>>)
    ensures |Closings(Run(s, window, incoming))| <= 1
    ensures forall n :: n in Closings(Run(s, window, incoming)) ==> n > 0
    decreases incoming
  {
    hide Run, Picked;
    RunPicked(s, window, incoming, ClosingIn<C>);
    if incoming != [] {
      ClosingLineCounts(Next(s, window, incoming[0]), window, incoming[1..]);
    }
  }

  // Backoff.

  function WaitIn<C>(e: Effect<C>): Option<nat> {
    if e.Waited? then Some(e.ms) else None
  }

  function Waits<C>(effects: seq<Effect<C>>): seq<nat> {
    Picked(effects, WaitIn<C>)
  }

  function Failures<C>(incoming: seq<Incoming<C>>): nat {
    if incoming == [] then 0 else (if incoming[0].AcceptFailed? then 1 else 0) + Failures(incoming[1..])
  }

  /** What `k` failures in a row wait in all. */
  function TotalBackoff(k: nat): nat {
    if k <= 20 then 50 * k * (k + 1) else 21_000 + 2_000 * (k - 20)
  }

  lemma BackoffAddsUp(k: nat)
    ensures TotalBackoff(k + 1) == TotalBackoff(k) + Backoff(k + 1)
  {
    if k < 20 {
      assert 50 * (k + 1) * (k + 2) == 50 * k * (k + 1) + 100 * (k + 1);
    }
  }

  /** Failures with no success between them, however many refusals fall among
      them, wait in all what their number alone decides. */
  lemma {:induction false} FailuresWait<C>(s: State, window: nat, incoming: seq<Incoming<C>>)
    requires forall i :: i in incoming ==> !i.Accepted?
    ensures TotalBackoff(s.failures) + Sum(Waits(Run(s, window, incoming))) ==
            TotalBackoff(s.failures + Failures(incoming))
    decreases incoming
  {
    hide Run, Picked, Refused, TotalBackoff, Backoff;
    RunPicked(s, window, incoming, WaitIn<C>);
    if incoming != [] {
      var next := Next(s, window, incoming[0]);
      var first := PickedFrom(EffectOf(s, window, incoming[0]), WaitIn<C>);
      assert incoming[0] in incoming;
      FailuresWait(next, window, incoming[1..]);
      SumAppend(first, Waits(Run(next, window, incoming[1..])));
      BackoffAddsUp(s.failures);
      assert first != [] ==> first[1..] == [];
    }
  }

  /** An accepted connection starts the count again: what comes before it and
      what comes after it wait independently. */
  lemma {:induction false} AcceptingResets<C>(
      s: State, window: nat, before: seq<Incoming<C>>, conn: C, after: seq<Incoming<C>>)
    ensures Waits(Run(s, window, before + [Accepted(conn)] + after)) ==
            Waits(Run(s, window, before)) + Waits(Run(START, window, after))
    decreases before
  {
    hide Run, Picked, Refused;
    var all := before + [Accepted(conn)] + after;
    RunPicked(s, window, before, WaitIn<C>);
    RunPicked(s, window, all, WaitIn<C>);
    if before == [] {
      assert all[0] == Accepted(conn) && all[1..] == after;
      WaitsIgnoreCounts(s.(failures := 0), START, window, after);
    } else {
      assert all[0] == before[0] && all[1..] == before[1..] + [Accepted(conn)] + after;
      AcceptingResets(Next(s, window, before[0]), window, before[1..], conn, after);
    }
  }

  lemma {:induction false} WaitsIgnoreCounts<C>(s: State, t: State, window: nat, incoming: seq<Incoming<C>>)
    requires s.failures == t.failures
    ensures Waits(Run(s, window, incoming)) == Waits(Run(t, window, incoming))
    decreases incoming
  {
    hide Run, Picked, Refused;
    RunPicked(s, window, incoming, WaitIn<C>);
    RunPicked(t, window, incoming, WaitIn<C>);
    if incoming != [] {
      WaitsIgnoreCounts(Next(s, window, incoming[0]), Next(t, window, incoming[0]), window, incoming[1..]);
    }
  }
}

/** The log of refused peers: a line for the first refusal of a window, and a
    count of the refusals that got none. Instants are milliseconds. */
module RefusalLog {
  import opened Basics

  datatype Counts = Counts(lastLine: Option<nat>, silenced: nat)

  const NOTHING_YET: Counts := Counts(None, 0)

  /** A clock that went back counts as no time passed. */
  function SaturatingSince(now: nat, since: nat): nat {
    if now >= since then now - since else 0
  }

  /** `Some(n)` is a line that reports `n` refusals silenced before it. */
  function Refused(c: Counts, window: nat, now: nat): (Counts, Option<nat>) {
    if c.lastLine.Some? && SaturatingSince(now, c.lastLine.value) < window then
      (c.(silenced := c.silenced + 1), None)
    else
      (Counts(Some(now), 0), Some(c.silenced))
  }

  class Log {
    const window: nat
    var lastLine: Option<nat>
    var silenced: nat

    function Now(): Counts
      reads this
    {
      Counts(lastLine, silenced)
    }

    constructor (window: nat)
      ensures this.window == window && Now() == NOTHING_YET
    {
      this.window := window;
      lastLine, silenced := None, 0;
    }

    method Refuse(now: nat) returns (line: Option<nat>)
      modifies this`lastLine, this`silenced
      ensures (Now(), line) == Refused(old(Now()), window, now)
    {
      if lastLine.Some? {
        if SaturatingSince(now, lastLine.value) < window {
          silenced := silenced + 1;
          return None;
        }
      }
      lastLine := Some(now);
      line := Some(silenced);
      silenced := 0;
    }
  }
}

/** Sending one report: the cooldown after failures, and the settling of one log line. */
module Sending {
  import opened Options
  import opened Suppression

  const BACKOFF_BASE: real := 5.0
  const BACKOFF_MAX: real := 300.0
  const RETRY_AFTER_MAX: real := 3600.0

  datatype Outcome = Sent | Retry | Drop

  /** What the remote side did: 2xx, 429, 5xx, any other status, or nothing at all. */
  datatype Reply = Accepted | TooMany(retryAfter: Option<real>) | ServerError | Refused | Unreachable

  datatype Cooldown = Cooldown(until: real, streak: nat)

  function Min(a: real, b: real): real {
    if a <= b then a else b
  }

  function Pow2(n: nat): (r: nat)
    ensures r >= 1
  {
    if n == 0 then 1 else 2 * Pow2(n - 1)
  }

  /** How long the `streak`-th failure in a row silences the reporter. */
  function Delay(streak: nat, retryAfter: Option<real>): real
    requires streak >= 1
  {
    if retryAfter.Some? then
      var d := Min(retryAfter.value, RETRY_AFTER_MAX);
      if d < 0.0 then 0.0 else d
    else
      var exp := if streak - 1 <= 32 then streak - 1 else 32;
      Min(BACKOFF_MAX, BACKOFF_BASE * Pow2(exp) as real)
  }

  function Failed(c: Cooldown, now: real, retryAfter: Option<real>): Cooldown {
    Cooldown(now + Delay(c.streak + 1, retryAfter), c.streak + 1)
  }

  function OutcomeOf(r: Reply): Outcome {
    match r
    case Accepted => Sent
    case TooMany(_) => Retry
    case ServerError => Retry
    case Refused => Drop
    case Unreachable => Retry
  }

  function After(c: Cooldown, r: Reply, now: real): Cooldown {
    match r
    case Accepted => Cooldown(0.0, 0)
    case TooMany(retryAfter) => Failed(c, now, retryAfter)
    case ServerError => Failed(c, now, None)
    case Refused => c
    case Unreachable => Failed(c, now, None)
  }

  lemma {:induction false} Pow2Grows(m: nat, n: nat)
    requires m <= n
    ensures Pow2(m) <= Pow2(n)
  {
    if m < n {
      Pow2Grows(m, n - 1);
    }
  }

  /** A cooldown is never negative and never beyond an hour, whatever the remote side
      asks for; and the cap on the exponent is invisible: the delay doubles from five
      seconds until it stays at five minutes. */
  lemma DelayLaw(streak: nat, retryAfter: Option<real>)
    requires streak >= 1
    ensures 0.0 <= Delay(streak, retryAfter) <= 3600.0
    ensures retryAfter.Some? && 0.0 <= retryAfter.value <= 3600.0 ==> Delay(streak, retryAfter) == retryAfter.value
    ensures retryAfter.Some? && retryAfter.value < 0.0 ==> Delay(streak, retryAfter) == 0.0
    ensures retryAfter.Some? && retryAfter.value > 3600.0 ==> Delay(streak, retryAfter) == 3600.0
    ensures Delay(streak, None) == Min(300.0, 5.0 * Pow2(streak - 1) as real)
    ensures streak >= 7 ==> Delay(streak, None) == 300.0
  {
    if streak >= 7 {
      Pow2Grows(6, streak - 1);
      Pow2Grows(6, 32);
      assert Pow2(6) == 64;
    }
  }

  class Reporter {
    var cooldownUntil: real
    var failStreak: nat

    function Value(): Cooldown
      reads this
    {
      Cooldown(cooldownUntil, failStreak)
    }

    constructor ()
      ensures Value() == Cooldown(0.0, 0)
    {
      cooldownUntil, failStreak := 0.0, 0;
    }

    function InCooldown(now: real): (wait: real)
      reads this
      ensures wait > 0.0 <==> now < cooldownUntil
    {
      if cooldownUntil - now > 0.0 then cooldownUntil - now else 0.0
    }

    method NoteSuccess()
      modifies this
      ensures Value() == Cooldown(0.0, 0)
    {
      failStreak := 0;
      cooldownUntil := 0.0;
    }

    method NoteFailure(now: real, retryAfter: Option<real>)
      modifies this
      ensures Value() == Failed(old(Value()), now, retryAfter)
    {
      failStreak := failStreak + 1;
      cooldownUntil := now + Delay(failStreak, retryAfter);
    }

    method Report(reply: Reply, now: real) returns (outcome: Outcome)
      modifies this
      ensures outcome == OutcomeOf(reply) && Value() == After(old(Value()), reply, now)
    {
      match reply {
        case Accepted =>
          NoteSuccess();
          outcome := Sent;
        case TooMany(retryAfter) =>
          NoteFailure(now, retryAfter);
          outcome := Retry;
        case ServerError =>
          NoteFailure(now, None);
          outcome := Retry;
        case Refused =>
          outcome := Drop;
        case Unreachable =>
          NoteFailure(now, None);
          outcome := Retry;
      }
    }
  }

  // ---- one log line -------------------------------------------------------

  /** What the daemon knows apart from its place in the log. */
  datatype Desk = Desk(sup: Daemon, cool: Cooldown)

  /** What is left of a log line: the address to report, or nothing when the line is
      blank, malformed or names no reportable address. */
  type Line = Option<Ip>

  predicate Sends(k: Desk, line: Line, now: real, limits: Limits) {
    line.Some? && Ask(k.sup.memory, line.value, now, limits) == Allowed
  }

  /** The line needs no further attempt. */
  predicate Settles(k: Desk, line: Line, now: real, reply: Reply, limits: Limits) {
    Sends(k, line, now, limits) ==> OutcomeOf(reply) != Retry
  }

  /** The suppressor calls that one line makes. */
  function Calls(k: Desk, line: Line, now: real, reply: Reply, saves: bool, limits: Limits): seq<Op> {
    if line.None? then []
    else
      [Asked(line.value, now)]
      + if Sends(k, line, now, limits) && reply.Accepted? then [Noted(line.value, now, saves)] else []
  }

  function AfterLine(k: Desk, line: Line, now: real, reply: Reply, saves: bool, limits: Limits): Desk {
    if line.None? then k
    else
      var asked := k.sup.(memory := Rolled(k.sup.memory, now));
      if !Sends(k, line, now, limits) then k.(sup := asked)
      else
        var m := Note(asked.memory, line.value, now, limits);
        Desk(if reply.Accepted? then Daemon(m, if saves then Some(m) else asked.file) else asked, After(k.cool, reply, now))
  }

  /** Processes one log line; says whether the caller may step past it. */
  method ProcessLine(line: Line, sup: Suppressor, reporter: Reporter, now: real, reply: Reply, saves: bool)
    returns (done: bool)
    modifies sup, reporter
    ensures done == Settles(old(Desk(Daemon(sup.Value(), sup.file), reporter.Value())), line, now, reply, sup.limits)
    ensures Desk(Daemon(sup.Value(), sup.file), reporter.Value())
         == AfterLine(old(Desk(Daemon(sup.Value(), sup.file), reporter.Value())), line, now, reply, saves, sup.limits)
  {
    if line.None? {
      return true;
    }
    var why := sup.Allow(line.value, now);
    if why != Allowed {
      return true;
    }
    var outcome := reporter.Report(reply, now);
    if outcome == Sent {
      sup.Record(line.value, now, saves);
      return true;
    }
    return outcome == Drop;
  }
}

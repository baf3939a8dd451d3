/** The Slack circuit breaker (slack/circuit_breaker.go). Every method is a sequence of
    steps under the lock; Allow gives the read lock up and takes the write lock in between,
    so its two halves are separate steps. Time is a real number. */
module SlackBreaker {

  datatype Mode = Closed | Open | HalfOpen

  datatype Limits = Limits(maxFailures: int, timeout: real, maxRequests: int)

  datatype State = State(mode: Mode, failures: int, successCount: int, lastFailTime: real)

  const FRESH: State := State(Closed, 0, 0, 0.0)

  // ---- the steps, as functions of the state ----

  datatype Verdict = Allowed | Refused | MustUpgrade

  // The first half of Allow, under the read lock.
  function Look(l: Limits, s: State, now: real): Verdict {
    match s.mode
    case Open => if now - s.lastFailTime > l.timeout then MustUpgrade else Refused
    case HalfOpen => if s.successCount >= l.maxRequests then Refused else Allowed
    case Closed => Allowed
  }

  // The second half, under the write lock: the state is looked at again.
  function Upgraded(s: State): State {
    if s.mode == Open then s.(mode := HalfOpen, successCount := 0) else s
  }

  function Succeeded(l: Limits, s: State): State {
    match s.mode
    case HalfOpen =>
      var n := s.successCount + 1;
      if n >= l.maxRequests then s.(mode := Closed, failures := 0, successCount := n) else s.(successCount := n)
    case Closed => s.(failures := 0)
    case Open => s
  }

  function Failed(l: Limits, s: State, now: real): State {
    var t := s.(failures := s.failures + 1, lastFailTime := now);
    match t.mode
    case Closed => if t.failures >= l.maxFailures then t.(mode := Open) else t
    case HalfOpen => t.(mode := Open)
    case Open => t
  }

  function Restarted(s: State): State {
    s.(mode := Closed, failures := 0, successCount := 0)
  }

  class CircuitBreaker {
    const limits: Limits
    var state: Mode
    var failures: int
    var successCount: int
    var lastFailTime: real

    ghost function Value(): State
      reads this
    {
      State(state, failures, successCount, lastFailTime)
    }

    constructor (limits: Limits)
      ensures this.limits == limits && Value() == FRESH
    {
      this.limits := limits;
      state := Closed;
      failures, successCount, lastFailTime := 0, 0, 0.0;
    }

    method AllowLook(now: real) returns (v: Verdict)
      ensures v == Look(limits, Value(), now)
    {
      match state {
        case Open =>
          if now - lastFailTime > limits.timeout {
            return MustUpgrade;
          }
          return Refused;
        case HalfOpen =>
          if successCount >= limits.maxRequests {
            return Refused;
          }
        case Closed =>
      }
      return Allowed;
    }

    method AllowUpgrade()
      modifies this
      ensures Value() == Upgraded(old(Value()))
    {
      if state == Open {
        state := HalfOpen;
        successCount := 0;
      }
    }

    // Both halves with nobody in between.
    method Allow(now: real) returns (ok: bool)
      modifies this
      ensures var v := Look(limits, old(Value()), now);
              && ok == (v != Refused)
              && Value() == if v == MustUpgrade then Upgraded(old(Value())) else old(Value())
    {
      var v := AllowLook(now);
      if v == MustUpgrade {
        AllowUpgrade();
      }
      return v != Refused;
    }

    method RecordSuccess()
      modifies this
      ensures Value() == Succeeded(limits, old(Value()))
    {
      match state {
        case HalfOpen =>
          successCount := successCount + 1;
          if successCount >= limits.maxRequests {
            state := Closed;
            failures := 0;
          }
        case Closed =>
          failures := 0;
        case Open =>
      }
    }

    method RecordFailure(now: real)
      modifies this
      ensures Value() == Failed(limits, old(Value()), now)
    {
      failures := failures + 1;
      lastFailTime := now;
      match state {
        case Closed =>
          if failures >= limits.maxFailures {
            state := Open;
          }
        case HalfOpen =>
          state := Open;
        case Open =>
      }
    }

    method Reset()
      modifies this
      ensures Value() == Restarted(old(Value()))
    {
      state := Closed;
      failures := 0;
      successCount := 0;
    }
  }

  // ---- every interleaving ----

  // One locked step of any goroutine. An upgrade may come arbitrarily late after the look
  // that asked for it, so it may come at any time.
  datatype Step = LookAt(now: real) | Upgrade | Success | Failure(now: real) | Restart

  function After(l: Limits, s: State, e: Step): State {
    match e
    case LookAt(_) => s
    case Upgrade => Upgraded(s)
    case Success => Succeeded(l, s)
    case Failure(now) => Failed(l, s, now)
    case Restart => Restarted(s)
  }

  function Run(l: Limits, s: State, es: seq<Step>): State {
    if es == [] then s else After(l, Run(l, s, es[..|es| - 1]), es[|es| - 1])
  }

  predicate Inv(l: Limits, s: State) {
    && (s.mode == Closed ==> s.failures < l.maxFailures)
    && (s.mode == HalfOpen ==> s.successCount < l.maxRequests)
  }

  /** Under every interleaving: closed implies fewer than maxFailures failures, and half-open
      fewer than maxRequests successes. */
  lemma {:induction false} RunKeepsInv(l: Limits, es: seq<Step>)
    requires l.maxFailures >= 1 && l.maxRequests >= 1
    ensures Inv(l, Run(l, FRESH, es))
  {
    if es != [] {
      RunKeepsInv(l, es[..|es| - 1]);
    }
  }

  // The looks that asked for an upgrade and have not had it yet.
  function Owed(l: Limits, es: seq<Step>): int {
    if es == [] then 0
    else
      var front, e := es[..|es| - 1], es[|es| - 1];
      Owed(l, front)
      + if e.Upgrade? then -1
        else if e.LookAt? && Look(l, Run(l, FRESH, front), e.now) == MustUpgrade then 1 else 0
  }

  // The runs of the code: every upgrade belongs to an earlier look that asked for it.
  ghost predicate Genuine(l: Limits, es: seq<Step>) {
    Owed(l, es) >= 0 && (es == [] || Genuine(l, es[..|es| - 1]))
  }

  // Every look at a half-open breaker lets the caller through.
  ghost predicate NeverRefusedHalfOpen(l: Limits, es: seq<Step>, now: real) {
    var s := Run(l, FRESH, es);
    s.mode == HalfOpen ==> Look(l, s, now) == Allowed
  }

  lemma {:induction false} FailuresCount(l: Limits, n: nat)
    requires l.maxFailures >= 1 && n <= l.maxFailures
    ensures var es := seq(n, i => Failure(0.0));
            && Run(l, FRESH, es) == State(if n == l.maxFailures then Open else Closed, n, 0, 0.0)
            && Owed(l, es) == 0 && Genuine(l, es)
  {
    var es: seq<Step> := seq(n, i => Failure(0.0));
    if n > 0 {
      FailuresCount(l, n - 1);
      assert es[..n - 1] == seq(n - 1, i => Failure(0.0));
    }
  }

  // Failures open the breaker, and after the timeout a look asks for the upgrade.
  lemma {:induction false} Upgrades(l: Limits) returns (es: seq<Step>)
    requires l.maxFailures >= 1
    ensures Genuine(l, es)
    ensures Run(l, FRESH, es).mode == HalfOpen && Run(l, FRESH, es).successCount == 0
  {
    var failures: seq<Step> := seq(l.maxFailures, i => Failure(0.0));
    FailuresCount(l, l.maxFailures);
    hide Failed, Succeeded;
    var looked := failures + [LookAt(l.timeout + 1.0)];
    es := looked + [Upgrade];
    assert looked[..|failures|] == failures && es[..|looked|] == looked;
    assert Owed(l, looked) == 1 && Genuine(l, looked);
    assert Owed(l, es) == 0;
  }

  /** The half-open refusal is dead code, in all runs of the code, exactly when maxRequests is
      positive. The configuration does not check that it is. */
  lemma {:induction false} HalfOpenRefusalDead(l: Limits)
    requires l.maxFailures >= 1
    ensures (forall es, now :: Genuine(l, es) ==> NeverRefusedHalfOpen(l, es, now)) <==> l.maxRequests >= 1
  {
    if l.maxRequests >= 1 {
      forall es, now | Genuine(l, es) ensures NeverRefusedHalfOpen(l, es, now) {
        RunKeepsInv(l, es);
      }
    } else {
      var es := Upgrades(l);
      assert !NeverRefusedHalfOpen(l, es, 0.0);
    }
  }
}

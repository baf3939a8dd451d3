/** The OAuth circuit breaker (oauth/circuit_breaker.go) when calls do not overlap: the
    class of the source refines a three-state automaton, about which the promises of the
    configuration are proved over whole runs. Time is a real number. */
module OauthBreaker {

  datatype Mode = Closed | Open | HalfOpen

  datatype Config = Config(failureThreshold: int, successThreshold: int, timeout: real, maxHalfOpenRequests: int)

  predicate ValidConfig(c: Config) {
    c.failureThreshold >= 1 && c.successThreshold >= 1 && c.timeout > 0.0 && c.maxHalfOpenRequests >= 1
  }

  function WithDefaults(c: Config): (r: Config)
    ensures ValidConfig(r)
    ensures ValidConfig(c) ==> r == c
  {
    Config(
      if c.failureThreshold <= 0 then 5 else c.failureThreshold,
      if c.successThreshold <= 0 then 2 else c.successThreshold,
      if c.timeout <= 0.0 then 30.0 else c.timeout,
      if c.maxHalfOpenRequests <= 0 then 1 else c.maxHalfOpenRequests)
  }

  /** A setting that is not positive is given its default, and no other is touched. */
  lemma {:induction false} DefaultsExactly(c: Config)
    ensures var r := WithDefaults(c);
            && (if c.failureThreshold > 0 then r.failureThreshold == c.failureThreshold else r.failureThreshold == 5)
            && (if c.successThreshold > 0 then r.successThreshold == c.successThreshold else r.successThreshold == 2)
            && (if c.timeout > 0.0 then r.timeout == c.timeout else r.timeout == 30.0)
            && (if c.maxHalfOpenRequests > 0 then r.maxHalfOpenRequests == c.maxHalfOpenRequests
                else r.maxHalfOpenRequests == 1)
  {
  }

  // What a call returns: the verdict of fn, or a refusal without running it.
  datatype Outcome = Ran(ok: bool) | CircuitOpen | TooManyRequests

  // One call: what fn would return, the time of the retry check and the time fn is done.
  datatype Call = Call(ok: bool, start: real, done: real)

  // ---- the automaton ----

  datatype Automaton = AClosed(failures: int) | AOpen(until: real) | AHalfOpen(successes: int)

  function Probe(c: Config, successes: int, call: Call): Automaton {
    if !call.ok then AOpen(call.done + c.timeout)
    else if successes + 1 >= c.successThreshold then AClosed(0)
    else AHalfOpen(successes + 1)
  }

  function Next(c: Config, a: Automaton, call: Call): (Automaton, Outcome) {
    match a
    case AClosed(failures) =>
      (if call.ok then AClosed(0)
       else if failures + 1 >= c.failureThreshold then AOpen(call.done + c.timeout)
       else AClosed(failures + 1), Ran(call.ok))
    case AOpen(until) => if call.start > until then (Probe(c, 0, call), Ran(call.ok)) else (a, CircuitOpen)
    case AHalfOpen(successes) => (Probe(c, successes, call), Ran(call.ok))
  }

  // ---- state-change reports ----

  datatype Change = Change(before: Mode, after: Mode)

  // The reports form one path of real changes.
  ghost predicate Path(from: Mode, changes: seq<Change>, to: Mode) {
    if changes == [] then from == to
    else changes[|changes| - 1].after == to && changes[|changes| - 1].before != to
         && Path(from, changes[..|changes| - 1], changes[|changes| - 1].before)
  }

  lemma {:induction false} PathExtends(from: Mode, changes: seq<Change>, mid: Mode, to: Mode)
    requires Path(from, changes, mid) && mid != to
    ensures Path(from, changes + [Change(mid, to)], to)
  {
  }

  class DefaultCircuitBreaker {
    const config: Config
    var state: Mode
    var requests: int
    var totalSuccesses: int
    var totalFailures: int
    var consecutiveSuccesses: int
    var consecutiveFailures: int
    var lastFailureTime: real
    var lastSuccessTime: real
    var nextRetryTime: real
    var halfOpenRequests: int
    var changes: seq<Change>  // the calls of OnStateChange so far

    ghost function Abstract(): Automaton
      reads this
    {
      match state
      case Closed => AClosed(consecutiveFailures)
      case Open => AOpen(nextRetryTime)
      case HalfOpen => AHalfOpen(consecutiveSuccesses)
    }

    // What holds between calls.
    ghost predicate Valid()
      reads this
    {
      Consistent() && halfOpenRequests == 0
    }

    ghost predicate Consistent()
      reads this
    {
      && ValidConfig(config)
      && requests == totalSuccesses + totalFailures
      && (state == Closed ==> 0 <= consecutiveFailures < config.failureThreshold)
      && (state == Open ==> consecutiveSuccesses == 0)
      && (state == HalfOpen ==> 0 <= consecutiveSuccesses < config.successThreshold)
      && Path(Closed, changes, state)
    }

    constructor (c: Config)
      ensures Valid() && config == WithDefaults(c)
      ensures Abstract() == AClosed(0) && requests == totalSuccesses == totalFailures == 0 && changes == []
    {
      config := WithDefaults(c);
      state := Closed;
      requests, totalSuccesses, totalFailures := 0, 0, 0;
      consecutiveSuccesses, consecutiveFailures := 0, 0;
      lastFailureTime, lastSuccessTime, nextRetryTime := 0.0, 0.0, 0.0;
      halfOpenRequests := 0;
      changes := [];
    }

    method SetState(newState: Mode)
      requires Path(Closed, changes, state)
      modifies `state, `changes
      ensures state == newState && Path(Closed, changes, state)
      ensures changes == if old(state) == newState then old(changes) else old(changes) + [Change(old(state), newState)]
    {
      var oldState := state;
      state := newState;
      if oldState != newState {
        PathExtends(Closed, changes, oldState, newState);
        changes := changes + [Change(oldState, newState)];
      }
    }

    /** One call on the class is one step of the automaton; fn runs in exactly the cases the
        automaton says, and each run is counted once, as a success or as a failure. */
    method Call(call: Call) returns (r: Outcome)
      requires Valid()
      modifies this
      ensures Valid()
      ensures (Abstract(), r) == Next(config, old(Abstract()), call)
      ensures totalSuccesses == old(totalSuccesses) + (if r == Ran(true) then 1 else 0)
      ensures totalFailures == old(totalFailures) + (if r == Ran(false) then 1 else 0)
    {
      match state {
        case Closed => r := CallClosed(call);
        case Open => r := CallOpen(call);
        case HalfOpen => r := CallHalfOpen(call);
      }
    }

    method CallClosed(call: Call) returns (r: Outcome)
      requires Valid() && state == Closed
      modifies this
      ensures Valid()
      ensures (Abstract(), r) == Next(config, old(Abstract()), call)
      ensures totalSuccesses == old(totalSuccesses) + (if r == Ran(true) then 1 else 0)
      ensures totalFailures == old(totalFailures) + (if r == Ran(false) then 1 else 0)
    {
      requests := requests + 1;
      if !call.ok {
        totalFailures := totalFailures + 1;
        consecutiveFailures := consecutiveFailures + 1;
        consecutiveSuccesses := 0;
        lastFailureTime := call.done;
        if consecutiveFailures >= config.failureThreshold {
          SetState(Open);
          nextRetryTime := call.done + config.timeout;
        }
      } else {
        totalSuccesses := totalSuccesses + 1;
        consecutiveSuccesses := consecutiveSuccesses + 1;
        consecutiveFailures := 0;
        lastSuccessTime := call.done;
      }
      r := Ran(call.ok);
    }

    method CallOpen(call: Call) returns (r: Outcome)
      requires Valid() && state == Open
      modifies this
      ensures Valid()
      ensures (Abstract(), r) == Next(config, old(Abstract()), call)
      ensures totalSuccesses == old(totalSuccesses) + (if r == Ran(true) then 1 else 0)
      ensures totalFailures == old(totalFailures) + (if r == Ran(false) then 1 else 0)
    {
      var nextRetry := nextRetryTime;
      if call.start > nextRetry {
        if state == Open {
          PathExtends(Closed, changes, Open, HalfOpen);
          state := HalfOpen;
          halfOpenRequests := 0;
          changes := changes + [Change(Open, HalfOpen)];
          r := CallHalfOpen(call);
          return;
        }
      }
      r := CircuitOpen;
    }

    // However many probes are under way; the count is as before when the call returns.
    method CallHalfOpen(call: Call) returns (r: Outcome)
      requires Consistent() && state == HalfOpen
      modifies this
      ensures Consistent() && halfOpenRequests == old(halfOpenRequests)
      ensures r == if old(halfOpenRequests) < config.maxHalfOpenRequests then Ran(call.ok) else TooManyRequests
      ensures Abstract() == if r.Ran? then Probe(config, old(consecutiveSuccesses), call) else old(Abstract())
      ensures totalSuccesses == old(totalSuccesses) + (if r == Ran(true) then 1 else 0)
      ensures totalFailures == old(totalFailures) + (if r == Ran(false) then 1 else 0)
    {
      halfOpenRequests := halfOpenRequests + 1;
      var current := halfOpenRequests;
      if config.maxHalfOpenRequests > 0 && current > config.maxHalfOpenRequests {
        halfOpenRequests := halfOpenRequests - 1;
        return TooManyRequests;
      }
      requests := requests + 1;
      if !call.ok {
        totalFailures := totalFailures + 1;
        consecutiveSuccesses := 0;
        lastFailureTime := call.done;
        SetState(Open);
        nextRetryTime := call.done + config.timeout;
      } else {
        totalSuccesses := totalSuccesses + 1;
        consecutiveSuccesses := consecutiveSuccesses + 1;
        lastSuccessTime := call.done;
        if consecutiveSuccesses >= config.successThreshold {
          SetState(Closed);
          consecutiveFailures := 0;
        }
      }
      halfOpenRequests := halfOpenRequests - 1;
      r := Ran(call.ok);
    }

    method Reset()
      requires Valid()
      modifies this
      ensures Valid() && Abstract() == AClosed(0)
      ensures requests == totalSuccesses == totalFailures == 0
    {
      var oldState := state;
      state := Closed;
      requests, totalSuccesses, totalFailures := 0, 0, 0;
      consecutiveSuccesses, consecutiveFailures := 0, 0;
      halfOpenRequests := 0;
      lastFailureTime, lastSuccessTime, nextRetryTime := 0.0, 0.0, 0.0;
      if oldState != Closed {
        PathExtends(Closed, changes, oldState, Closed);
        changes := changes + [Change(oldState, Closed)];
      }
    }
  }

  // ---- runs of the automaton ----

  function Run(c: Config, a: Automaton, calls: seq<Call>): Automaton {
    if calls == [] then a
    else Next(c, Run(c, a, calls[..|calls| - 1]), calls[|calls| - 1]).0
  }

  function LastOutcome(c: Config, a: Automaton, calls: seq<Call>): Outcome
    requires calls != []
  {
    Next(c, Run(c, a, calls[..|calls| - 1]), calls[|calls| - 1]).1
  }

  // How many of the last calls failed in a row.
  function FailuresInARow(calls: seq<Call>): nat {
    if calls == [] || calls[|calls| - 1].ok then 0 else 1 + FailuresInARow(calls[..|calls| - 1])
  }

  // No stretch of calls reaches the threshold.
  ghost predicate NeverInARow(calls: seq<Call>, n: int) {
    forall k :: 0 <= k <= |calls| ==> FailuresInARow(calls[..k]) < n
  }

  lemma {:induction false} ClosedCounts(c: Config, calls: seq<Call>)
    requires ValidConfig(c) && NeverInARow(calls, c.failureThreshold)
    ensures Run(c, AClosed(0), calls) == AClosed(FailuresInARow(calls))
  {
    if calls != [] {
      var front := calls[..|calls| - 1];
      forall k | 0 <= k <= |front| ensures FailuresInARow(front[..k]) < c.failureThreshold {
        assert front[..k] == calls[..k];
      }
      ClosedCounts(c, front);
      assert calls[..|calls|] == calls;
    }
  }

  /** It opens exactly on FailureThreshold consecutive failures: a run from the start stays
      closed throughout if and only if no stretch of failures is that long. */
  lemma {:induction false} OpensExactly(c: Config, calls: seq<Call>)
    requires ValidConfig(c)
    ensures (forall k :: 0 <= k <= |calls| ==> Run(c, AClosed(0), calls[..k]).AClosed?)
            <==> NeverInARow(calls, c.failureThreshold)
  {
    if NeverInARow(calls, c.failureThreshold) {
      forall k | 0 <= k <= |calls| ensures Run(c, AClosed(0), calls[..k]).AClosed? {
        assert forall j :: 0 <= j <= k ==> calls[..k][..j] == calls[..j];
        ClosedCounts(c, calls[..k]);
      }
    } else {
      var k := FirstLongStretch(calls, c.failureThreshold);
      assert calls[..k][..k - 1] == calls[..k - 1];
      OpensHere(c, calls[..k]);
    }
  }

  lemma {:induction false} FirstLongStretch(calls: seq<Call>, n: int) returns (k: nat)
    requires n >= 1 && !NeverInARow(calls, n)
    ensures 1 <= k <= |calls| && FailuresInARow(calls[..k]) >= n
    ensures NeverInARow(calls[..k - 1], n)
  {
    var j :| 0 <= j <= |calls| && FailuresInARow(calls[..j]) >= n;
    assert j > 0;
    var front := calls[..j - 1];
    if NeverInARow(front, n) {
      k := j;
    } else {
      k := FirstLongStretch(front, n);
      assert front[..k] == calls[..k] && front[..k - 1] == calls[..k - 1];
    }
  }

  /** The call that completes the stretch opens the breaker until Timeout later. */
  lemma {:induction false} OpensHere(c: Config, calls: seq<Call>)
    requires ValidConfig(c) && calls != []
    requires NeverInARow(calls[..|calls| - 1], c.failureThreshold)
    requires FailuresInARow(calls) >= c.failureThreshold
    ensures Run(c, AClosed(0), calls) == AOpen(calls[|calls| - 1].done + c.timeout)
  {
    ClosedCounts(c, calls[..|calls| - 1]);
  }

  /** While open, no call made until nextRetryTime runs fn or changes anything. */
  lemma {:induction false} OpenRefuses(c: Config, until: real, calls: seq<Call>)
    requires forall k :: 0 <= k < |calls| ==> calls[k].start <= until
    ensures Run(c, AOpen(until), calls) == AOpen(until)
    ensures calls != [] ==> LastOutcome(c, AOpen(until), calls) == CircuitOpen
  {
    if calls != [] {
      OpenRefuses(c, until, calls[..|calls| - 1]);
    }
  }

  ghost predicate AllOk(calls: seq<Call>) {
    forall k :: 0 <= k < |calls| ==> calls[k].ok
  }

  lemma {:induction false} ProbesCount(c: Config, until: real, calls: seq<Call>)
    requires ValidConfig(c) && calls != [] && calls[0].start > until
    requires |calls| <= c.successThreshold && AllOk(calls)
    ensures Run(c, AOpen(until), calls)
         == if |calls| == c.successThreshold then AClosed(0) else AHalfOpen(|calls|)
  {
    var front := calls[..|calls| - 1];
    if front != [] {
      ProbesCount(c, until, front);
    }
  }

  function FirstFailure(calls: seq<Call>): (k: nat)
    requires !AllOk(calls)
    ensures k < |calls| && !calls[k].ok && AllOk(calls[..k])
  {
    if !calls[0].ok then 0
    else
      assert calls == [calls[0]] + calls[1..];
      var k := FirstFailure(calls[1..]);
      assert calls[..k + 1] == [calls[0]] + calls[1..][..k];
      1 + k
  }

  // The calls a breaker that opened until then sees as one trial: all after the wait, and
  // none after the wait that a failed one among them starts.
  ghost predicate Trial(c: Config, until: real, calls: seq<Call>) {
    (forall k :: 0 <= k < |calls| ==> calls[k].start > until)
    && forall j, k :: 0 <= j < k < |calls| && !calls[j].ok ==> calls[k].start <= calls[j].done + c.timeout
  }

  // The probe that fails, after n that succeed.
  lemma {:induction false} ProbeFails(c: Config, until: real, calls: seq<Call>, n: nat)
    requires ValidConfig(c) && n < |calls| <= c.successThreshold && Trial(c, until, calls)
    requires AllOk(calls[..n]) && !calls[n].ok
    ensures Run(c, AOpen(until), calls[..n + 1]) == AOpen(calls[n].done + c.timeout)
  {
    var p := calls[..n + 1];
    assert p[..n] == calls[..n] && p[n] == calls[n];
    if n > 0 {
      ProbesCount(c, until, calls[..n]);
    }
  }

  lemma {:induction false} FailedProbe(c: Config, until: real, calls: seq<Call>)
    requires ValidConfig(c) && 1 <= |calls| <= c.successThreshold && Trial(c, until, calls)
    requires !AllOk(calls)
    ensures Run(c, AOpen(until), calls) == AOpen(calls[FirstFailure(calls)].done + c.timeout)
  {
    hide Run, Next, FirstFailure, AllOk;
    var f := FirstFailure(calls);
    var later := calls[f].done + c.timeout;
    ProbeFails(c, until, calls, f);
    var tail := calls[f + 1..];
    forall k | 0 <= k < |tail| ensures tail[k].start <= later {
      assert tail[k] == calls[f + 1 + k];
    }
    OpenRefuses(c, later, tail);
    RunConcat(c, AOpen(until), calls[..f + 1], tail);
    assert calls == calls[..f + 1] + tail;
  }

  lemma {:induction false} RunConcat(c: Config, a: Automaton, xs: seq<Call>, ys: seq<Call>)
    ensures Run(c, a, xs + ys) == Run(c, Run(c, a, xs), ys)
  {
    if ys == [] {
      assert xs + ys == xs;
    } else {
      assert (xs + ys)[..|xs + ys| - 1] == xs + ys[..|ys| - 1];
      RunConcat(c, a, xs, ys[..|ys| - 1]);
    }
  }

  /** After the wait, it closes exactly on SuccessThreshold consecutive successes: a trial of
      up to that many calls leaves the breaker closed if and only if there were that many and
      all succeeded; otherwise the first failure has opened it again until Timeout later. */
  lemma {:induction false} ClosesExactly(c: Config, until: real, calls: seq<Call>)
    requires ValidConfig(c) && 1 <= |calls| <= c.successThreshold && Trial(c, until, calls)
    ensures Run(c, AOpen(until), calls).AClosed? <==> AllOk(calls) && |calls| == c.successThreshold
    ensures !AllOk(calls) ==> Run(c, AOpen(until), calls) == AOpen(calls[FirstFailure(calls)].done + c.timeout)
  {
    if AllOk(calls) {
      ProbesCount(c, until, calls);
    } else {
      FailedProbe(c, until, calls);
    }
  }
}

/** A call of the OAuth circuit breaker that nobody interrupts is one step of the automaton
    (oauth/circuit_breaker.go:105-267): the steps of the interleaved model, taken one after the
    other by a single goroutine. */
module OauthBreakerAlone {
  import opened Options
  import opened OauthBreaker
  import opened OauthBreakerSteps

  function Shown(k: Core): Automaton {
    match k.mode
    case Closed => AClosed(k.consecutiveFailures)
    case Open => AOpen(k.nextRetry)
    case HalfOpen => AHalfOpen(k.consecutiveSuccesses)
  }

  // The goroutine is idle, the lock is free, nobody probes, and an open breaker counts no successes.
  ghost predicate AtRest(w: World, id: nat) {
    && w.holder.None? && w.probes == 0 && At(w, id) == Idle
    && (w.core.mode == Open ==> w.core.consecutiveSuccesses == 0)
  }

  ghost predicate OnlyBy(ms: seq<Move>, id: nat) {
    forall i :: 0 <= i < |ms| ==> ms[i].id == id
  }

  // Reached by steps of one goroutine alone.
  ghost predicate Alone(c: Config, w: World, id: nat, v: World) {
    exists ms :: OnlyBy(ms, id) && Reached(c, w, ms) == v
  }

  lemma {:induction false} AloneAtFirst(c: Config, w: World, id: nat)
    ensures Alone(c, w, id, w)
  {
    assert OnlyBy([], id) && Reached(c, w, []) == w;
  }

  lemma {:induction false} AloneStep(c: Config, w: World, id: nat, v: World, m: Move)
    requires Alone(c, w, id, v) && m.id == id
    ensures Alone(c, w, id, Step(c, v, m))
  {
    hide Step;
    var ms :| OnlyBy(ms, id) && Reached(c, w, ms) == v;
    RunSnoc(c, w, ms, m);
    assert OnlyBy(ms + [m], id);
  }

  // A locked section runs to its end.
  lemma {:induction false} Section(c: Config, w: World, id: nat, v: World, ops: seq<Op>, probe: bool) returns (u: World)
    requires Alone(c, w, id, v) && v.holder == Some(id) && At(v, id) == Locked(ops, probe)
    requires ClearProbes !in ops || v.probes == 0
    ensures Alone(c, w, id, u) && u.holder.None? && u.probes == v.probes && u.core == Finish(c, v.core, ops)
    ensures At(u, id) == if probe then Leave else Idle
    decreases Weight(ops)
  {
    hide Alone, Effect;
    var m := Move(id, false, 0.0, false);
    AloneStep(c, w, id, v, m);
    u := Step(c, v, m);
    if ops != [] {
      RestWeighsLess(c, v.core, ops);
      u := Section(c, w, id, u, Rest(c, v.core, ops[0]) + ops[1..], probe);
    }
  }

  // ---- what the sections do ----

  function Counted(k: Core, ok: bool): Core {
    if ok then k.(requests := k.requests + 1, totalSuccesses := k.totalSuccesses + 1,
                  consecutiveSuccesses := k.consecutiveSuccesses + 1)
    else k.(requests := k.requests + 1, totalFailures := k.totalFailures + 1)
  }

  lemma {:induction false} FinishNone(c: Config, k: Core)
    ensures Finish(c, k, []) == k
  {
  }

  lemma {:induction false} FinishPlain(c: Config, k: Core, op: Op, ops: seq<Op>)
    requires !op.OpenIfReached? && !op.CloseIfReached?
    ensures Finish(c, k, [op] + ops) == Finish(c, Effect(op, k), ops)
  {
    hide Effect, Finish;
    FinishStep(c, k, op, ops);
  }

  // A condition is read, and what it guards is done.
  lemma {:induction false} FinishGuard(c: Config, k: Core, op: Op)
    requires op.OpenIfReached? || op.CloseIfReached?
    ensures Finish(c, k, [op])
         == match op
            case OpenIfReached(now) =>
              if k.consecutiveFailures >= c.failureThreshold then k.(mode := Open, nextRetry := now + c.timeout) else k
            case _ =>
              if k.consecutiveSuccesses >= c.successThreshold then k.(mode := Closed, consecutiveFailures := 0) else k
  {
    hide Finish;
    FinishOne(c, k, [op]);
    assert [op][1..] == [] && Rest(c, k, op) + [] == Rest(c, k, op);
    assert Effect(op, k) == k;
    FinishNone(c, k);
    match op
    case OpenIfReached(now) => FinishTwo(c, k, Swap(Open), SetRetry(now + c.timeout));
    case CloseIfReached => FinishTwo(c, k, Swap(Closed), ClearConsecutiveFailures);
  }

  lemma {:induction false} ClosedSectionIs(c: Config, k: Core, ok: bool, now: real)
    ensures var f, n := Finish(c, k, ClosedOps(ok, now)), Counted(k, ok);
            if ok then f == n.(consecutiveFailures := 0)
            else
              var t := n.(consecutiveFailures := k.consecutiveFailures + 1, consecutiveSuccesses := 0);
              f == if t.consecutiveFailures >= c.failureThreshold then t.(mode := Open, nextRetry := now + c.timeout)
                   else t
  {
    hide Finish;
    if ok {
      var k2 := Effect(AddConsecutiveSuccess, Effect(AddSuccess, Effect(AddRequest, k)));
      assert ClosedOps(ok, now) == [AddRequest, AddSuccess, AddConsecutiveSuccess] + [ClearConsecutiveFailures];
      FinishThree(c, k, AddRequest, AddSuccess, AddConsecutiveSuccess, [ClearConsecutiveFailures]);
      assert [ClearConsecutiveFailures] + [] == [ClearConsecutiveFailures];
      FinishPlain(c, k2, ClearConsecutiveFailures, []);
      FinishNone(c, Effect(ClearConsecutiveFailures, k2));
    } else {
      var last := OpenIfReached(now);
      var k3 := Effect(AddConsecutiveFailure, Effect(AddFailure, Effect(AddRequest, k)));
      assert ClosedOps(ok, now)
          == [AddRequest, AddFailure, AddConsecutiveFailure] + ([ClearConsecutiveSuccesses] + [last]);
      FinishThree(c, k, AddRequest, AddFailure, AddConsecutiveFailure, [ClearConsecutiveSuccesses] + [last]);
      FinishPlain(c, k3, ClearConsecutiveSuccesses, [last]);
      FinishGuard(c, Effect(ClearConsecutiveSuccesses, k3), last);
    }
  }

  lemma {:induction false} HalfOpenSectionIs(c: Config, k: Core, ok: bool, now: real)
    ensures var f, n := Finish(c, k, HalfOpenOps(c, ok, now)), Counted(k, ok);
            if ok then
              f == if n.consecutiveSuccesses >= c.successThreshold then n.(mode := Closed, consecutiveFailures := 0)
                   else n
            else f == n.(consecutiveSuccesses := 0, mode := Open, nextRetry := now + c.timeout)
  {
    hide Finish;
    if ok {
      assert HalfOpenOps(c, ok, now) == [AddRequest, AddSuccess, AddConsecutiveSuccess] + [CloseIfReached];
      FinishThree(c, k, AddRequest, AddSuccess, AddConsecutiveSuccess, [CloseIfReached]);
      FinishGuard(c, Effect(AddConsecutiveSuccess, Effect(AddSuccess, Effect(AddRequest, k))), CloseIfReached);
    } else {
      var k3 := Effect(ClearConsecutiveSuccesses, Effect(AddFailure, Effect(AddRequest, k)));
      assert HalfOpenOps(c, ok, now)
          == [AddRequest, AddFailure, ClearConsecutiveSuccesses] + [Swap(Open), SetRetry(now + c.timeout)];
      FinishThree(c, k, AddRequest, AddFailure, ClearConsecutiveSuccesses, [Swap(Open), SetRetry(now + c.timeout)]);
      FinishTwo(c, k3, Swap(Open), SetRetry(now + c.timeout));
    }
  }

  // ---- whole calls ----

  // The totals after a call with the given outcome.
  ghost predicate Totals(k: Core, f: Core, r: Outcome) {
    && f.requests == k.requests + (if r.Ran? then 1 else 0)
    && f.totalSuccesses == k.totalSuccesses + (if r == Ran(true) then 1 else 0)
    && f.totalFailures == k.totalFailures + (if r == Ran(false) then 1 else 0)
  }

  lemma {:induction false} AloneClosed(c: Config, w: World, id: nat, call: Call) returns (u: World)
    requires ValidConfig(c) && AtRest(w, id) && w.core.mode == Closed
    ensures Alone(c, w, id, u) && AtRest(u, id)
    ensures u.core == Finish(c, w.core, ClosedOps(call.ok, call.done))
  {
    hide Alone, Finish, ClosedOps;
    var m := Move(id, call.ok, call.done, false);
    AloneAtFirst(c, w, id);
    AloneStep(c, w, id, w, m);
    var w1 := Step(c, w, m);
    AloneStep(c, w, id, w1, m);
    var w2 := Step(c, w1, m);
    AloneStep(c, w, id, w2, m);
    var w3 := Step(c, w2, m);
    assert ClearProbes !in ClosedOps(call.ok, call.done) by { NoClears(c, call.ok, call.done); }
    u := Section(c, w, id, w3, ClosedOps(call.ok, call.done), false);
    ClosedSectionIs(c, w.core, call.ok, call.done);
  }

  lemma {:induction false} NoClears(c: Config, ok: bool, now: real)
    ensures ClearProbes !in ClosedOps(ok, now) && ClearProbes !in HalfOpenOps(c, ok, now)
  {
  }

  // From the door of the half-open mode on.
  lemma {:induction false} AloneProbe(c: Config, w: World, id: nat, v: World, call: Call) returns (u: World)
    requires ValidConfig(c) && Alone(c, w, id, v) && v.holder.None? && v.probes == 0 && At(v, id) == Enter
    requires v.core.mode == HalfOpen
    ensures Alone(c, w, id, u) && AtRest(u, id)
    ensures u.core == Finish(c, v.core, HalfOpenOps(c, call.ok, call.done))
  {
    hide Alone, Finish, HalfOpenOps;
    var m := Move(id, call.ok, call.done, false);
    AloneStep(c, w, id, v, m);
    var w1 := Step(c, v, m);
    AloneStep(c, w, id, w1, m);
    var w2 := Step(c, w1, m);
    AloneStep(c, w, id, w2, m);
    var w3 := Step(c, w2, m);
    assert ClearProbes !in HalfOpenOps(c, call.ok, call.done) by { NoClears(c, call.ok, call.done); }
    var w4 := Section(c, w, id, w3, HalfOpenOps(c, call.ok, call.done), true);
    AloneStep(c, w, id, w4, m);
    u := Step(c, w4, m);
    HalfOpenSectionIs(c, v.core, call.ok, call.done);
  }

  // A look at the retry time, and after it the swap to half-open.
  lemma {:induction false} AloneLook(c: Config, w: World, id: nat, call: Call) returns (u: World)
    requires AtRest(w, id) && w.core.mode == Open
    ensures Alone(c, w, id, u) && u.holder.None? && u.probes == 0
    ensures if call.start > w.core.nextRetry then At(u, id) == Enter && u.core == w.core.(mode := HalfOpen)
            else At(u, id) == Idle && u.core == w.core
  {
    hide Alone;
    var m := Move(id, call.ok, call.start, false);
    AloneAtFirst(c, w, id);
    AloneStep(c, w, id, w, m);
    var w1 := Step(c, w, m);
    AloneStep(c, w, id, w1, m);
    var w2 := Step(c, w1, m);
    AloneStep(c, w, id, w2, m);
    u := Step(c, w2, m);
    if call.start > w.core.nextRetry {
      AloneStep(c, w, id, u, m);
      u := Step(c, u, m);
      AloneStep(c, w, id, u, m);
      u := Step(c, u, m);
    }
  }

  /** A call that nobody interrupts is one step of the automaton, with the same totals. */
  lemma {:induction false} UninterruptedCall(c: Config, w: World, id: nat, call: Call) returns (u: World)
    requires ValidConfig(c) && AtRest(w, id)
    ensures Alone(c, w, id, u) && AtRest(u, id)
    ensures var (a, r) := Next(c, Shown(w.core), call); Shown(u.core) == a && Totals(w.core, u.core, r)
  {
    hide Alone, Finish, ClosedOps, HalfOpenOps, Step;
    match w.core.mode
    case Closed =>
      u := AloneClosed(c, w, id, call);
      ClosedSectionIs(c, w.core, call.ok, call.done);
    case Open =>
      u := AloneLook(c, w, id, call);
      if call.start > w.core.nextRetry {
        var k := u.core;
        u := AloneProbe(c, w, id, u, call);
        HalfOpenSectionIs(c, k, call.ok, call.done);
      }
    case HalfOpen =>
      var m := Move(id, call.ok, call.start, false);
      AloneAtFirst(c, w, id);
      AloneStep(c, w, id, w, m);
      u := Step(c, w, m);
      assert At(u, id) == Enter && u.core == w.core && u.holder.None? && u.probes == 0 by { EntersHalfOpen(c, w, m); }
      u := AloneProbe(c, w, id, u, call);
      HalfOpenSectionIs(c, w.core, call.ok, call.done);
  }

  lemma {:induction false} EntersHalfOpen(c: Config, w: World, m: Move)
    requires AtRest(w, m.id) && w.core.mode == HalfOpen && !m.reset
    ensures var u := Step(c, w, m); At(u, m.id) == Enter && u == w.(places := u.places)
  {
  }

  /** A reset that nobody interrupts closes the breaker and clears all it has counted. */
  lemma {:induction false} UninterruptedReset(c: Config, w: World, id: nat) returns (u: World)
    requires AtRest(w, id)
    ensures Alone(c, w, id, u) && AtRest(u, id) && u.core == START.core
  {
    hide Alone, Finish;
    var m := Move(id, false, 0.0, true);
    AloneAtFirst(c, w, id);
    AloneStep(c, w, id, w, m);
    var w1 := Step(c, w, m);
    AloneStep(c, w, id, w1, m);
    var w2 := Step(c, w1, m);
    u := Section(c, w, id, w2, RESET_OPS, false);
    ResetSectionIs(c, w.core);
  }

  lemma {:induction false} ResetSectionIs(c: Config, k: Core)
    ensures Finish(c, k, RESET_OPS) == START.core
  {
    hide Finish;
    var mid := [ClearFailures, ClearConsecutiveSuccesses, ClearConsecutiveFailures];
    var last := [ClearProbes, SetRetry(0.0)];
    assert RESET_OPS == [Swap(Closed), ClearRequests, ClearSuccesses] + (mid + last);
    FinishThree(c, k, Swap(Closed), ClearRequests, ClearSuccesses, mid + last);
    var k3 := Effect(ClearSuccesses, Effect(ClearRequests, Effect(Swap(Closed), k)));
    FinishThree(c, k3, ClearFailures, ClearConsecutiveSuccesses, ClearConsecutiveFailures, last);
    var k6 := Effect(ClearConsecutiveFailures, Effect(ClearConsecutiveSuccesses, Effect(ClearFailures, k3)));
    FinishTwo(c, k6, ClearProbes, SetRetry(0.0));
  }
}

/** Runs of the Slack circuit breaker (slack/circuit_breaker.go:43-119): when it opens, how long
    it stays open, and how a half-open trial ends, said of the steps alone. */
module SlackBreakerRuns {
  import opened Numbers
  import opened SlackBreaker

  predicate Clears(e: Step) {
    e.Success? || e.Restart?
  }

  // The failures at the end of a run with no success or reset among them, after f earlier ones.
  function InARow(es: seq<Step>, f: int): int {
    if es == [] then f
    else
      var front, last := es[..|es| - 1], es[|es| - 1];
      if Clears(last) then 0 else InARow(front, f) + if last.Failure? then 1 else 0
  }

  // No stretch reaches the limit.
  ghost predicate NeverInARow(es: seq<Step>, f: int, limit: int) {
    forall n :: 0 <= n <= |es| ==> InARow(es[..n], f) < limit
  }

  // When the last failure was.
  function LastFailure(es: seq<Step>, before: real): real {
    if es == [] then before
    else if es[|es| - 1].Failure? then es[|es| - 1].now
    else LastFailure(es[..|es| - 1], before)
  }

  lemma {:induction false} RunSnoc(l: Limits, s: State, es: seq<Step>, e: Step)
    ensures Run(l, s, es + [e]) == After(l, Run(l, s, es), e)
  {
    assert (es + [e])[..|es|] == es;
  }

  lemma {:induction false} NeverBefore(es: seq<Step>, f: int, limit: int)
    requires es != [] && NeverInARow(es, f, limit)
    ensures NeverInARow(es[..|es| - 1], f, limit) && InARow(es, f) < limit
  {
    hide InARow;
    var front := es[..|es| - 1];
    assert forall n :: 0 <= n <= |front| ==> front[..n] == es[..n];
    assert es[..|es|] == es;
  }

  lemma {:induction false} ClosedCounts(l: Limits, s: State, es: seq<Step>)
    requires s.mode == Closed && NeverInARow(es, s.failures, l.maxFailures)
    ensures var t := Run(l, s, es);
            && t.mode == Closed && t.failures == InARow(es, s.failures)
            && t.lastFailTime == LastFailure(es, s.lastFailTime)
  {
    if es != [] {
      NeverBefore(es, s.failures, l.maxFailures);
      ClosedCounts(l, s, es[..|es| - 1]);
    }
  }

  /** A closed breaker stays closed throughout a run, whatever the steps of its callers, if and
      only if no stretch of failures without a success or a reset between them reaches
      maxFailures. */
  lemma {:induction false} StaysClosedExactly(l: Limits, s: State, es: seq<Step>)
    requires s.mode == Closed && l.maxFailures >= 1 && s.failures < l.maxFailures
    ensures (forall n :: 0 <= n <= |es| ==> Run(l, s, es[..n]).mode == Closed)
       <==> NeverInARow(es, s.failures, l.maxFailures)
  {
    hide Run, InARow;
    if NeverInARow(es, s.failures, l.maxFailures) {
      forall n | 0 <= n <= |es| ensures Run(l, s, es[..n]).mode == Closed {
        assert forall i :: 0 <= i <= n ==> es[..n][..i] == es[..i];
        ClosedCounts(l, s, es[..n]);
      }
    } else {
      var n := FirstReached(es, s.failures, l.maxFailures);
      assert es[..n] == es[..n - 1] + [es[n - 1]];
      OpensHere(l, s, es[..n - 1], es[n - 1]);
    }
  }

  lemma {:induction false} FirstReached(es: seq<Step>, f: int, limit: int) returns (n: nat)
    requires f < limit && !NeverInARow(es, f, limit)
    ensures 1 <= n <= |es| && InARow(es[..n], f) >= limit && NeverInARow(es[..n - 1], f, limit)
  {
    hide InARow;
    var j :| 0 <= j <= |es| && InARow(es[..j], f) >= limit;
    assert InARow([], f) == f by { NoSteps(f); }
    assert j > 0;
    var front := es[..j - 1];
    if NeverInARow(front, f, limit) {
      n := j;
    } else {
      n := FirstReached(front, f, limit);
      assert front[..n] == es[..n] && front[..n - 1] == es[..n - 1];
    }
  }

  lemma {:induction false} NoSteps(f: int)
    ensures InARow([], f) == f
  {
  }

  /** The step that completes the stretch is a failure, and opens the breaker at its time. */
  lemma {:induction false} OpensHere(l: Limits, s: State, es: seq<Step>, e: Step)
    requires s.mode == Closed && l.maxFailures >= 1
    requires NeverInARow(es, s.failures, l.maxFailures) && InARow(es + [e], s.failures) >= l.maxFailures
    ensures e.Failure?
    ensures var t := Run(l, s, es + [e]); t.mode == Open && t.lastFailTime == e.now
  {
    ClosedCounts(l, s, es);
    RunSnoc(l, s, es, e);
    assert (es + [e])[..|es|] == es && es[..|es|] == es;
    assert InARow(es, s.failures) < l.maxFailures;
  }

  /** An open breaker lets nobody through, whatever is recorded, until timeout after the last
      failure; later than that it asks for the upgrade, and stays open until somebody makes it. */
  lemma {:induction false} OpenUntil(l: Limits, s: State, es: seq<Step>, now: real)
    requires s.mode == Open
    requires forall i :: 0 <= i < |es| ==> !es[i].Upgrade? && !es[i].Restart?
    ensures var t, last := Run(l, s, es), LastFailure(es, s.lastFailTime);
            && t.mode == Open && t.lastFailTime == last
            && (Look(l, t, now) == if now > last + l.timeout then MustUpgrade else Refused)
  {
    if es != [] {
      OpenUntil(l, s, es[..|es| - 1], now);
    }
  }

  // ---- the half-open trial ----

  function Successes(es: seq<Step>): nat {
    if es == [] then 0 else Successes(es[..|es| - 1]) + if es[|es| - 1].Success? then 1 else 0
  }

  // The successes a trial takes; one will do if the limit asks for none.
  function Needed(l: Limits): int {
    Max(1, l.maxRequests)
  }

  // A trial that no failure and no reset has ended, and not enough successes either.
  ghost predicate Undecided(l: Limits, es: seq<Step>) {
    && (forall i :: 0 <= i < |es| ==> !es[i].Failure? && !es[i].Restart?)
    && Successes(es) < Needed(l)
  }

  lemma {:induction false} UndecidedBefore(l: Limits, es: seq<Step>)
    requires es != [] && Undecided(l, es)
    ensures Undecided(l, es[..|es| - 1])
  {
  }

  lemma {:induction false} TrialCounts(l: Limits, s: State, es: seq<Step>)
    requires s.mode == Open && Undecided(l, es)
    ensures var t := Run(l, s, [Upgrade] + es);
            && t.mode == HalfOpen && t.successCount == Successes(es)
            && t.failures == s.failures && t.lastFailTime == s.lastFailTime
  {
    if es == [] {
      assert [Upgrade] + es == [] + [Upgrade];
      RunSnoc(l, s, [], Upgrade);
    } else {
      var front, e := es[..|es| - 1], es[|es| - 1];
      UndecidedBefore(l, es);
      TrialCounts(l, s, front);
      assert [Upgrade] + es == ([Upgrade] + front) + [e];
      RunSnoc(l, s, [Upgrade] + front, e);
    }
  }

  // What the next step does to an undecided trial.
  lemma {:induction false} TrialNext(l: Limits, s: State, es: seq<Step>, e: Step)
    requires s.mode == Open && Undecided(l, es)
    ensures var t := Run(l, s, [Upgrade] + es + [e]);
            match e
            case Failure(now) => t.mode == Open && t.lastFailTime == now
            case Success =>
              if Successes(es) + 1 >= Needed(l) then t.mode == Closed && t.failures == 0 else t.mode == HalfOpen
            case Restart => t.mode == Closed && t.failures == 0
            case _ => t.mode == HalfOpen
  {
    TrialCounts(l, s, es);
    RunSnoc(l, s, [Upgrade] + es, e);
  }

  /** After the upgrade of an open breaker a run leaves it half-open throughout if and only if it
      holds no failure, no reset, and fewer successes than needed; and as soon as one of these
      comes, a failure opens the breaker again, at its time, and the last success needed, as a
      reset does, closes it with no failures counted. */
  lemma {:induction false} TrialExactly(l: Limits, s: State, es: seq<Step>)
    requires s.mode == Open
    ensures (forall n :: 0 <= n <= |es| ==> Run(l, s, [Upgrade] + es[..n]).mode == HalfOpen) <==> Undecided(l, es)
    ensures es != [] && Undecided(l, es[..|es| - 1]) && !Undecided(l, es) ==>
              var t, e := Run(l, s, [Upgrade] + es), es[|es| - 1];
              if e.Failure? then t.mode == Open && t.lastFailTime == e.now else t.mode == Closed && t.failures == 0
  {
    hide Run;
    if es == [] {
      TrialCounts(l, s, []);
    } else {
      var front, e := es[..|es| - 1], es[|es| - 1];
      TrialExactly(l, s, front);
      assert forall n :: 0 <= n <= |front| ==> front[..n] == es[..n];
      assert es[..|es|] == es && [Upgrade] + es == [Upgrade] + front + [e];
      if Undecided(l, front) {
        TrialNext(l, s, front, e);
      } else {
        assert !Undecided(l, es) by {
          if Undecided(l, es) {
            UndecidedBefore(l, es);
          }
        }
      }
    }
  }
}

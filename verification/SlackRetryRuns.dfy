/** Which attempt of the Slack client's retry loop is the last, and how the loop then ends
    (slack/service.go:797-949), with a breaker or without. */
module SlackRetryRuns {
  import opened Options
  import opened SlackBreaker
  import opened SlackRetry

  // ---- the errors that are worth another attempt ----

  const PHRASES: seq<string> :=
    ["timeout", "connection refused", "no such host", "temporary failure", "i/o timeout"]

  ghost predicate Mentions(text: string, phrase: string) {
    exists before, after :: text == before + phrase + after
  }

  ghost predicate Transient(e: Error) {
    || e == RateLimited || e == WebhookFailed
    || (e.Other? && exists i :: 0 <= i < |PHRASES| && Mentions(e.text, PHRASES[i]))
  }

  lemma {:induction false} ContainsMentions(text: string, phrase: string)
    ensures Contains(text, phrase) <==> Mentions(text, phrase)
  {
    if Contains(text, phrase) {
      var i :| 0 <= i <= |text| && OccursAt(text, phrase, i);
      assert text == text[..i] + phrase + text[i + |phrase|..];
    }
    if before, after :| text == before + phrase + after {
      assert OccursAt(text, phrase, |before|);
    }
  }

  /** Retried are the rate limit, the failed request, and an error whose text has one of the
      five phrases in it, and nothing else. */
  lemma {:induction false} RetryableExactly(e: Error)
    ensures Retryable(e) <==> Transient(e)
  {
    hide Contains, Mentions;
    if e.Other? {
      forall i | 0 <= i < |PHRASES| ensures Contains(e.text, PHRASES[i]) <==> Mentions(e.text, PHRASES[i]) {
        ContainsMentions(e.text, PHRASES[i]);
      }
      assert PHRASES[0] == "timeout" && PHRASES[1] == "connection refused" && PHRASES[2] == "no such host";
      assert PHRASES[3] == "temporary failure" && PHRASES[4] == "i/o timeout";
    }
  }

  // ---- the attempts, one after the other ----

  // What attempt k does to a breaker in state s.
  function BreakerSteps(l: Limits, s: State, w: World, k: nat): seq<Step> {
    var v := Look(l, s, w.allowedAt(k));
    [LookAt(w.allowedAt(k))]
    + (if v == MustUpgrade then [Upgrade] else [])
    + (if v == Refused then [] else if w.post(k).None? then [Success] else [Failure(w.doneAt(k))])
  }

  function AfterAttempt(l: Limits, s: Option<State>, w: World, k: nat): Option<State> {
    if s.None? then None else Some(Run(l, s.value, BreakerSteps(l, s.value, w, k)))
  }

  // The breaker when attempt k is due.
  function Before(l: Limits, s: Option<State>, w: World, k: nat): Option<State> {
    if k == 0 then s else AfterAttempt(l, Before(l, s, w, k - 1), w, k - 1)
  }

  predicate RefusedAt(l: Limits, s: Option<State>, w: World, k: nat) {
    s.Some? && Look(l, s.value, w.allowedAt(k)) == Refused
  }

  // How attempt k ends the loop, if it does, the breaker being in state s.
  ghost function Ending(l: Limits, s: Option<State>, w: World, k: nat): Option<Result> {
    if k > 0 && w.canceled(k) then Some(Canceled)
    else if RefusedAt(l, s, w, k) then Some(GaveUp(CircuitOpen))
    else if w.post(k).None? then Some(Sent)
    else if !Transient(w.post(k).value) then Some(GaveUp(w.post(k).value))
    else None
  }

  predicate Requested(l: Limits, s: Option<State>, w: World, k: nat) {
    !(k > 0 && w.canceled(k)) && !RefusedAt(l, s, w, k)
  }

  ghost predicate GoesOn(l: Limits, s: Option<State>, w: World, k: nat) {
    Ending(l, Before(l, s, w, k), w, k).None?
  }

  lemma {:induction false} RunSteps(l: Limits, s: State, es: seq<Step>, e: Step)
    ensures Run(l, s, es + [e]) == After(l, Run(l, s, es), e) && Run(l, s, []) == s
  {
    assert (es + [e])[..|es|] == es;
  }

  lemma {:induction false} TryIs(l: Limits, s: Option<State>, w: World, k: nat)
    ensures var t := Try(l, s, w, k);
            && t.state == AfterAttempt(l, s, w, k) && t.posted == !RefusedAt(l, s, w, k)
            && t.error == if RefusedAt(l, s, w, k) then Some(CircuitOpen) else w.post(k)
  {
    hide Run;
    if s.Some? {
      var v, look := Look(l, s.value, w.allowedAt(k)), LookAt(w.allowedAt(k));
      var done := if w.post(k).None? then Success else Failure(w.doneAt(k));
      RunSteps(l, s.value, [], look);
      RunSteps(l, s.value, [look], Upgrade);
      RunSteps(l, s.value, [look] + [Upgrade], done);
      RunSteps(l, s.value, [look], done);
      assert [] + [look] == [look] && [look] + [] == [look];
      hide Look;
      assert BreakerSteps(l, s.value, w, k) ==
        if v == Refused then [look] else if v == MustUpgrade then [look] + [Upgrade] + [done] else [look] + [done];
    }
  }

  // One round, said of the attempts.
  lemma {:induction false} RoundIs(c: Settings, l: Limits, s: Option<State>, w: World, k: nat, delay: int, last: Error)
    requires k <= c.maxRetries
    ensures var o := Sending(c, l, s, w, k, delay, last);
            var waits := if k > 0 then [delay] else [];
            var n := if Requested(l, s, w, k) then 1 else 0;
            match Ending(l, s, w, k)
            case Some(r) =>
              o == Outcome(r, n, waits, if r == Canceled then s else AfterAttempt(l, s, w, k))
            case None =>
              w.post(k).Some? &&
              var next := Sending(c, l, AfterAttempt(l, s, w, k), w, k + 1,
                                  if k > 0 then NextDelay(c, delay) else delay, w.post(k).value);
              n == 1 && o == Outcome(next.result, 1 + next.posts, waits + next.waits, next.state)
  {
    hide Sending, Try, Retryable, Transient, AfterAttempt, NextDelay, RefusedAt;
    Round(c, l, s, w, k, delay, last);
    TryIs(l, s, w, k);
    RetryableExactly(CircuitOpen);
    NeverTransient();
    if w.post(k).Some? {
      RetryableExactly(w.post(k).value);
    }
  }

  lemma {:induction false} NeverTransient()
    ensures !Transient(CircuitOpen)
  {
  }

  // From attempt i on, when attempt k ends the loop.
  lemma {:induction false} EndsFrom(c: Settings, l: Limits, s: Option<State>, w: World, i: nat, k: nat, last: Error)
    requires 1 <= i <= k <= c.maxRetries && !GoesOn(l, s, w, k)
    requires forall j :: i <= j < k ==> GoesOn(l, s, w, j)
    ensures var o, b := Sending(c, l, Before(l, s, w, i), w, i, Delay(c, i), last), Before(l, s, w, k);
            var r := Ending(l, b, w, k).value;
            && o.result == r
            && o.posts == k - i + (if Requested(l, b, w, k) then 1 else 0)
            && o.waits == Waits(c, i, k - i + 1)
            && o.state == if r == Canceled then b else AfterAttempt(l, b, w, k)
    decreases k - i
  {
    hide Sending, Delay, Ending, Requested, AfterAttempt;
    RoundIs(c, l, Before(l, s, w, i), w, i, Delay(c, i), last);
    if i < k {
      assert GoesOn(l, s, w, i);
      NextWait(c, i);
      EndsFrom(c, l, s, w, i + 1, k, w.post(i).value);
    } else {
      NoWaits(c, i + 1);
      assert [Delay(c, i)] + [] == [Delay(c, i)];
    }
  }

  lemma {:induction false} NoWaits(c: Settings, i: nat)
    requires i >= 1
    ensures Waits(c, i, 0) == []
  {
  }

  /** The first attempt that ends the loop is the last one made. The loop ends with success,
      with an error that is not worth another attempt, with the refusal of the breaker, or
      with the end of the context; every attempt before it made its request, and the waits
      are the backoff delays in between. */
  lemma {:induction false} EndsAt(c: Settings, l: Limits, s: Option<State>, w: World, k: nat)
    requires k <= c.maxRetries && !GoesOn(l, s, w, k) && forall j :: 0 <= j < k ==> GoesOn(l, s, w, j)
    ensures var o, b := Sending(c, l, s, w, 0, c.retryDelay, CircuitOpen), Before(l, s, w, k);
            var r := Ending(l, b, w, k).value;
            && o.result == r
            && o.posts == k + (if Requested(l, b, w, k) then 1 else 0)
            && o.waits == Waits(c, 1, k)
            && o.state == if r == Canceled then b else AfterAttempt(l, b, w, k)
  {
    hide Sending, Ending, Requested, AfterAttempt;
    RoundIs(c, l, s, w, 0, c.retryDelay, CircuitOpen);
    assert Before(l, s, w, 0) == s;
    if k > 0 {
      assert Delay(c, 1) == c.retryDelay;
      assert GoesOn(l, s, w, 0);
      EndsFrom(c, l, s, w, 1, k, w.post(0).value);
      var o := Sending(c, l, Before(l, s, w, 1), w, 1, c.retryDelay, w.post(0).value);
      assert [] + o.waits == o.waits;
    } else {
      NoWaits(c, 1);
    }
  }

  lemma {:induction false} RunsOutFrom(c: Settings, l: Limits, s: Option<State>, w: World, i: nat, last: Error)
    requires 1 <= i <= c.maxRetries + 1 && w.post(i - 1) == Some(last)
    requires forall j :: i <= j <= c.maxRetries ==> GoesOn(l, s, w, j)
    ensures var o := Sending(c, l, Before(l, s, w, i), w, i, Delay(c, i), last);
            && w.post(c.maxRetries).Some?
            && o == Outcome(MaxRetriesExceeded(w.post(c.maxRetries).value), c.maxRetries + 1 - i,
                            Waits(c, i, c.maxRetries + 1 - i), Before(l, s, w, c.maxRetries + 1))
    decreases c.maxRetries + 1 - i
  {
    hide Sending, Delay, AfterAttempt, Transient, RefusedAt;
    if i > c.maxRetries {
      SendingEnds(c, l, Before(l, s, w, i), w, i, Delay(c, i), last);
      NoWaits(c, i);
    } else {
      RoundIs(c, l, Before(l, s, w, i), w, i, Delay(c, i), last);
      assert GoesOn(l, s, w, i);
      NextWait(c, i);
      RunsOutFrom(c, l, s, w, i + 1, w.post(i).value);
    }
  }

  /** If none of the attempts ends the loop, all of them make their request, and the last error
      is reported as that of the last attempt. */
  lemma {:induction false} RunsOut(c: Settings, l: Limits, s: Option<State>, w: World)
    requires c.maxRetries >= 0 && forall j :: 0 <= j <= c.maxRetries ==> GoesOn(l, s, w, j)
    ensures w.post(c.maxRetries).Some?
    ensures Sending(c, l, s, w, 0, c.retryDelay, CircuitOpen)
         == Outcome(MaxRetriesExceeded(w.post(c.maxRetries).value), c.maxRetries + 1, Waits(c, 1, c.maxRetries),
                    Before(l, s, w, c.maxRetries + 1))
  {
    hide Sending, AfterAttempt, Transient, RefusedAt;
    RoundIs(c, l, s, w, 0, c.retryDelay, CircuitOpen);
    assert GoesOn(l, s, w, 0);
    assert Delay(c, 1) == c.retryDelay;
    RunsOutFrom(c, l, s, w, 1, w.post(0).value);
    var o := Sending(c, l, Before(l, s, w, 1), w, 1, c.retryDelay, w.post(0).value);
    assert [] + o.waits == o.waits;
  }

  // ---- without a breaker ----

  // The attempt that decides: the context ends before it, or it succeeds, or it fails for good.
  ghost predicate Decides(w: World, k: nat) {
    || (k > 0 && w.canceled(k))
    || w.post(k).None? || !Transient(w.post(k).value)
  }

  lemma {:induction false} NoBreaker(l: Limits, w: World, k: nat)
    ensures Before(l, None, w, k) == None
  {
    if k > 0 {
      NoBreaker(l, w, k - 1);
    }
  }

  /** Without a breaker: the loop makes one request for each attempt up to the first that
      decides, that one included unless the context ends before it, and one for each of the
      maxRetries + 1 attempts if none decides. */
  lemma {:induction false} WithoutBreaker(c: Settings, l: Limits, w: World, k: nat)
    requires c.maxRetries >= 0 && k <= c.maxRetries + 1 && forall j :: 0 <= j < k ==> !Decides(w, j)
    requires k <= c.maxRetries ==> Decides(w, k)
    ensures var o := Sending(c, l, None, w, 0, c.retryDelay, CircuitOpen);
            if k > c.maxRetries then
              && w.post(c.maxRetries).Some?
              && o.result == MaxRetriesExceeded(w.post(c.maxRetries).value) && o.posts == c.maxRetries + 1
            else if k > 0 && w.canceled(k) then o.result == Canceled && o.posts == k
            else
              && o.result == (if w.post(k).None? then Sent else GaveUp(w.post(k).value))
              && o.posts == k + 1
  {
    hide Sending, Transient, Before;
    forall j: nat ensures GoesOn(l, None, w, j) <==> !Decides(w, j) {
      NoBreaker(l, w, j);
    }
    NoBreaker(l, w, k);
    if k > c.maxRetries {
      RunsOut(c, l, None, w);
    } else {
      EndsAt(c, l, None, w, k);
    }
  }
}

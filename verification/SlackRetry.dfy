/** The retry loop of the Slack client over its circuit breaker (slack/service.go:797-867,
    903-949). What the network, the clock, the context and the jitter do is given for each
    attempt; delays are whole numbers of nanoseconds. */
module SlackRetry {
  import opened Options
  import opened Numbers
  import opened SlackBreaker

  // The errors the loop tells apart; every other error is known by its text.
  datatype Error = CircuitOpen | RateLimited | WebhookFailed | Other(text: string)

  predicate OccursAt(s: string, t: string, i: nat) {
    i + |t| <= |s| && s[i..i + |t|] == t
  }

  // strings.Contains
  predicate Contains(s: string, t: string) {
    exists i :: 0 <= i <= |s| && OccursAt(s, t, i)
  }

  predicate Retryable(e: Error) {
    match e
    case CircuitOpen => false
    case RateLimited => true
    case WebhookFailed => true
    case Other(text) =>
      Contains(text, "timeout") || Contains(text, "connection refused") || Contains(text, "no such host")
      || Contains(text, "temporary failure") || Contains(text, "i/o timeout")
  }

  datatype Result = Sent | GaveUp(error: Error) | Canceled | MaxRetriesExceeded(last: Error)

  datatype Settings = Settings(maxRetries: int, retryDelay: int, retryMaxDelay: int)

  // Attempt k: the error of its request if it is made, when it is allowed and when it is
  // done, whether the context ends during the wait before it, and the jitter of that wait.
  datatype World = World(post: nat -> Option<Error>, allowedAt: nat -> real, doneAt: nat -> real,
                         canceled: nat -> bool, jitter: nat -> int)

  // ---- one attempt ----

  datatype Tried = Tried(state: Option<State>, posted: bool, error: Option<Error>)

  // executeWithCircuitBreaker, or the bare request without a breaker.
  function Try(l: Limits, s: Option<State>, w: World, k: nat): Tried {
    if s.None? then Tried(None, true, w.post(k))
    else
      var v := Look(l, s.value, w.allowedAt(k));
      if v == Refused then Tried(s, false, Some(CircuitOpen))
      else
        var t := if v == MustUpgrade then Upgraded(s.value) else s.value;
        match w.post(k)
        case None => Tried(Some(Succeeded(l, t)), true, None)
        case Some(e) => Tried(Some(Failed(l, t, w.doneAt(k))), true, Some(e))
  }

  // ---- the loop ----

  datatype Outcome = Outcome(result: Result, posts: nat, waits: seq<int>, state: Option<State>)

  function NextDelay(c: Settings, delay: int): int {
    Min(delay * 2, c.retryMaxDelay)
  }

  // From attempt k on, with the delay before it.
  function Sending(c: Settings, l: Limits, s: Option<State>, w: World, k: nat, delay: int, last: Error): Outcome
    decreases c.maxRetries + 1 - k
  {
    if k > c.maxRetries then Outcome(MaxRetriesExceeded(last), 0, [], s)
    else if k > 0 && w.canceled(k) then Outcome(Canceled, 0, [delay], s)
    else
      var waits := if k > 0 then [delay] else [];
      var t := Try(l, s, w, k);
      var n := if t.posted then 1 else 0;
      if t.error.None? then Outcome(Sent, n, waits, t.state)
      else if !Retryable(t.error.value) then Outcome(GaveUp(t.error.value), n, waits, t.state)
      else
        var o := Sending(c, l, t.state, w, k + 1, if k > 0 then NextDelay(c, delay) else delay, t.error.value);
        Outcome(o.result, n + o.posts, waits + o.waits, o.state)
  }

  // One round of the loop.
  lemma {:induction false} Round(c: Settings, l: Limits, s: Option<State>, w: World, k: nat, delay: int, last: Error)
    requires k <= c.maxRetries
    ensures var o, t := Sending(c, l, s, w, k, delay, last), Try(l, s, w, k);
            var n := if t.posted then 1 else 0;
            var waits := if k > 0 then [delay] else [];
            if k > 0 && w.canceled(k) then o == Outcome(Canceled, 0, waits, s)
            else if t.error.None? then o == Outcome(Sent, n, waits, t.state)
            else if !Retryable(t.error.value) then o == Outcome(GaveUp(t.error.value), n, waits, t.state)
            else
              var r := Sending(c, l, t.state, w, k + 1, if k > 0 then NextDelay(c, delay) else delay, t.error.value);
              o == Outcome(r.result, n + r.posts, waits + r.waits, r.state)
  {
  }

  ghost function ValueOf(b: CircuitBreaker?): Option<State>
    reads b
  {
    if b == null then None else Some(b.Value())
  }

  function LimitsOf(b: CircuitBreaker?): Limits {
    if b == null then Limits(0, 0.0, 0) else b.limits
  }

  method Execute(b: CircuitBreaker, w: World, k: nat) returns (posted: bool, error: Option<Error>)
    modifies b
    ensures Tried(Some(b.Value()), posted, error) == Try(b.limits, Some(old(b.Value())), w, k)
  {
    var ok := b.Allow(w.allowedAt(k));
    if !ok {
      return false, Some(CircuitOpen);
    }
    error := w.post(k);
    if error.Some? {
      b.RecordFailure(w.doneAt(k));
      return true, error;
    }
    b.RecordSuccess();
    return true, None;
  }

  // One attempt, through the breaker if there is one.
  method Attempt(b: CircuitBreaker?, w: World, k: nat) returns (posted: bool, error: Option<Error>)
    modifies b
    ensures Tried(ValueOf(b), posted, error) == Try(LimitsOf(b), old(ValueOf(b)), w, k)
  {
    if b != null {
      posted, error := Execute(b, w, k);
    } else {
      posted, error := true, w.post(k);
    }
  }

  method SendWithRetry(c: Settings, b: CircuitBreaker?, w: World)
    returns (result: Result, posts: nat, waits: seq<int>)
    requires c.maxRetries >= 0
    modifies b
    ensures Outcome(result, posts, waits, ValueOf(b))
         == Sending(c, LimitsOf(b), old(ValueOf(b)), w, 0, c.retryDelay, CircuitOpen)
  {
    hide Sending, Try, Retryable, ValueOf, NextDelay;
    var lastErr := CircuitOpen;
    var delay := c.retryDelay;
    posts, waits := 0, [];
    var attempt := 0;
    ghost var whole := Sending(c, LimitsOf(b), ValueOf(b), w, 0, c.retryDelay, CircuitOpen);
    assert [] + whole.waits == whole.waits;
    while attempt <= c.maxRetries
      invariant 0 <= attempt <= c.maxRetries + 1
      invariant var o := Sending(c, LimitsOf(b), ValueOf(b), w, attempt, delay, lastErr);
                whole == Outcome(o.result, posts + o.posts, waits + o.waits, o.state)
    {
      ghost var before := waits;
      Round(c, LimitsOf(b), ValueOf(b), w, attempt, delay, lastErr);
      if attempt > 0 {
        var actualDelay := delay + w.jitter(attempt);
        waits := waits + [delay];
        if w.canceled(attempt) {
          return Canceled, posts, waits;
        }
        delay := NextDelay(c, delay);
      } else {
        assert before + [] == waits;
      }
      var posted, error := Attempt(b, w, attempt);
      posts := posts + if posted then 1 else 0;
      if error.None? {
        return Sent, posts, waits;
      }
      lastErr := error.value;
      if !Retryable(lastErr) {
        return GaveUp(lastErr), posts, waits;
      }
      ghost var o := Sending(c, LimitsOf(b), ValueOf(b), w, attempt + 1, delay, lastErr);
      assert before + ((if attempt > 0 then waits[|before|..] else []) + o.waits) == waits + o.waits;
      attempt := attempt + 1;
    }
    SendingEnds(c, LimitsOf(b), ValueOf(b), w, attempt, delay, lastErr);
    assert waits + [] == waits;
    return MaxRetriesExceeded(lastErr), posts, waits;
  }

  lemma {:induction false} SendingEnds(c: Settings, l: Limits, s: Option<State>, w: World, k: nat, delay: int,
      last: Error)
    requires k > c.maxRetries
    ensures Sending(c, l, s, w, k, delay, last) == Outcome(MaxRetriesExceeded(last), 0, [], s)
  {
  }

  // ---- backoff ----

  // The base wait before retry k.
  function Delay(c: Settings, k: nat): int
    requires k >= 1
  {
    if k == 1 then c.retryDelay else NextDelay(c, Delay(c, k - 1))
  }

  function Backoff(c: Settings, k: nat): int
    requires k >= 1
  {
    if k == 1 then c.retryDelay else Min(c.retryDelay * Pow2(k - 1), c.retryMaxDelay)
  }

  lemma {:induction false} DelayIsBackoff(c: Settings, k: nat)
    requires k >= 1 && c.retryDelay > 0 && c.retryMaxDelay >= 0
    ensures Delay(c, k) == Backoff(c, k)
  {
    if k > 1 {
      DelayIsBackoff(c, k - 1);
      assert c.retryDelay * Pow2(k - 1) == 2 * (c.retryDelay * Pow2(k - 2));
    }
  }

  /** The wait before retry k is retryDelay at first and min(retryDelay * 2^(k-1),
      retryMaxDelay) from the second on, for all k, exactly when the maximum is not negative. */
  lemma {:induction false} BackoffFormula(c: Settings)
    requires c.retryDelay > 0
    ensures (forall k :: k >= 1 ==> Delay(c, k) == Backoff(c, k)) <==> c.retryMaxDelay >= 0
  {
    if c.retryMaxDelay >= 0 {
      forall k | k >= 1 ensures Delay(c, k) == Backoff(c, k) {
        DelayIsBackoff(c, k);
      }
    } else {
      assert Delay(c, 2) == Min(c.retryDelay * 2, c.retryMaxDelay) == c.retryMaxDelay;
      assert Delay(c, 3) == 2 * c.retryMaxDelay;
      assert c.retryDelay * Pow2(2) > 0 by {
        assert Pow2(2) == 4;
      }
      assert Backoff(c, 3) == c.retryMaxDelay;
    }
  }

  // ---- retry times breaker ----

  // Every request fails retryably, the context lives, and every look at the breaker comes
  // within its timeout of the last failure.
  ghost predicate Hopeless(l: Limits, w: World) {
    && (forall k: nat :: w.post(k).Some? && Retryable(w.post(k).value))
    && (forall k: nat :: !w.canceled(k))
    && (forall k: nat :: w.allowedAt(k + 1) - w.doneAt(k) <= l.timeout)
  }

  function Waits(c: Settings, from: nat, n: nat): seq<int>
    requires from >= 1
    decreases n
  {
    if n == 0 then [] else [Delay(c, from)] + Waits(c, from + 1, n - 1)
  }

  // Before attempt k of a hopeless run.
  ghost predicate Along(l: Limits, s: State, w: World, k: nat) {
    && (s.mode == Closed || s.mode == Open)
    && (s.mode == Closed <==> s.failures < l.maxFailures)
    && (s.mode == Open ==> k > 0 && s.lastFailTime == w.doneAt(k - 1))
  }

  lemma {:induction false} TryHopeless(l: Limits, s: State, w: World, k: nat)
    requires Hopeless(l, w) && Along(l, s, w, k)
    ensures var t := Try(l, Some(s), w, k);
            if s.mode == Closed
            then t.posted && t.error == w.post(k) && t.state.Some? && Along(l, t.state.value, w, k + 1)
                 && t.state.value.failures == s.failures + 1
            else t == Tried(Some(s), false, Some(CircuitOpen))
  {
  }

  // How many more requests the breaker lets through.
  function Room(l: Limits, s: State): int {
    if s.mode == Closed then l.maxFailures - s.failures else 0
  }

  lemma {:induction false} HopelessFrom(c: Settings, l: Limits, s: State, w: World, k: nat, last: Error)
    requires 1 <= k <= c.maxRetries + 1 && Hopeless(l, w) && Along(l, s, w, k)
    ensures var o := Sending(c, l, Some(s), w, k, Delay(c, k), last);
            var left, room := c.maxRetries + 1 - k, Room(l, s);
            && room >= 0
            && o.posts == Min(left, room)
            && o.result == (if left > room then GaveUp(CircuitOpen)
                            else MaxRetriesExceeded(if left == 0 then last else w.post(c.maxRetries).value))
            && o.waits == Waits(c, k, Min(left, room + 1))
    decreases c.maxRetries + 1 - k
  {
    hide Retryable, Hopeless, Along, Sending, Try, Delay;
    HopelessFacts(l, s, w, k);
    if k > c.maxRetries {
      SendingEnds(c, l, Some(s), w, k, Delay(c, k), last);
    } else {
      TryHopeless(l, s, w, k);
      Round(c, l, Some(s), w, k, Delay(c, k), last);
      if s.mode == Closed {
        var t := Try(l, Some(s), w, k).state.value;
        NextWait(c, k);
        HopelessFrom(c, l, t, w, k + 1, w.post(k).value);
        HopelessFacts(l, t, w, k + 1);
      } else {
        NotRetried();
        assert Waits(c, k + 1, 0) == [];
      }
    }
  }

  lemma {:induction false} NextWait(c: Settings, k: nat)
    requires k >= 1
    ensures NextDelay(c, Delay(c, k)) == Delay(c, k + 1)
  {
  }

  lemma {:induction false} NotRetried()
    ensures !Retryable(CircuitOpen)
  {
  }

  lemma {:induction false} HopelessFacts(l: Limits, s: State, w: World, k: nat)
    requires Hopeless(l, w) && Along(l, s, w, k)
    ensures w.post(k).Some? && Retryable(w.post(k).value) && !w.canceled(k)
    ensures s.mode == Closed || s.mode == Open
    ensures s.mode == Closed <==> s.failures < l.maxFailures
  {
  }

  /** Retry times breaker: from a closed breaker with f failures, when every request fails
      retryably and in time, exactly min(maxRetries + 1, CircuitThreshold - f) requests are
      made; the result is ErrCircuitOpen if and only if the breaker cut the retries short,
      and the waits are the backoff delays of the attempts in between. */
  lemma {:induction false} RetryTimesBreaker(c: Settings, l: Limits, s: State, w: World)
    requires c.maxRetries >= 0 && Hopeless(l, w)
    requires s.mode == Closed && s.failures < l.maxFailures
    ensures var o := Sending(c, l, Some(s), w, 0, c.retryDelay, CircuitOpen);
            var room := l.maxFailures - s.failures;
            && o.posts == Min(c.maxRetries + 1, room)
            && (o.result == GaveUp(CircuitOpen) <==> room < c.maxRetries + 1)
            && (room >= c.maxRetries + 1 ==> o.result == MaxRetriesExceeded(w.post(c.maxRetries).value))
            && o.waits == Waits(c, 1, Min(c.maxRetries, room))
  {
    hide Sending, Try, Retryable, Hopeless, Along;
    assert Along(l, s, w, 0) by {
      NothingYet(l, s, w);
    }
    HopelessFacts(l, s, w, 0);
    TryHopeless(l, s, w, 0);
    Round(c, l, Some(s), w, 0, c.retryDelay, CircuitOpen);
    var t := Try(l, Some(s), w, 0).state.value;
    HopelessFacts(l, t, w, 1);
    HopelessFrom(c, l, t, w, 1, w.post(0).value);
    var o := Sending(c, l, Some(t), w, 1, c.retryDelay, w.post(0).value);
    assert [] + o.waits == o.waits;
  }

  lemma {:induction false} NothingYet(l: Limits, s: State, w: World)
    requires s.mode == Closed && s.failures < l.maxFailures
    ensures Along(l, s, w, 0)
  {
  }
}

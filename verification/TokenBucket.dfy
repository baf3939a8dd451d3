/** The token-bucket limiter (oauth/rate_limiter.go:30-195, slack/rate_limiter.go:16-53).

    Everything the limiter answers depends on one number per key, its level: the tokens
    the bucket would hold after a refill, or a full bucket for a key that has none. */
module TokenBucket {
  import opened Sequences
  import opened Numbers
  import opened Sizes
  import opened RateLimiting

  datatype Bucket = Bucket(tokens: real, last: real)

  // What flows in over a stretch of time.
  function Inflow(elapsed: real, perSecond: real): real {
    elapsed * perSecond
  }

  lemma {:induction false} InflowLinear(a: real, b: real, r: real)
    requires r > 0.0
    ensures Inflow(a, r) + Inflow(b, r) == Inflow(a + b, r)
    ensures Inflow(0.0, r) == 0.0
    ensures a <= b <==> Inflow(a, r) <= Inflow(b, r)
  {
  }

  // The refill of line 118, for a bucket of the given capacity and rate in tokens per second.
  function Refilled(b: Bucket, capacity: real, perSecond: real, now: real): real {
    MinReal(b.tokens + Inflow(now - b.last, perSecond), capacity)
  }

  function PerSecond(c: Config): (r: real)
    requires Valid(c)
    ensures r > 0.0
    ensures Inflow(c.interval, r) == c.rate as real
  {
    c.rate as real / c.interval
  }

  type State = map<string, Bucket>

  ghost predicate Wf(c: Config, s: State, now: real) {
    Valid(c) && |s| <= c.maxEntries
    && forall k :: k in s ==> Sound(c, s[k], now)
  }

  predicate Sound(c: Config, b: Bucket, now: real) {
    0.0 <= b.tokens <= c.burst as real && b.last <= now
  }

  function Level(c: Config, s: State, key: string, now: real): real
    requires Valid(c)
  {
    if key in s then Refilled(s[key], c.burst as real, PerSecond(c), now) else c.burst as real
  }

  // ---- the operations ----

  function AskStep(c: Config, s: State, key: string, n: int, now: real): (State, Answer)
    requires Valid(c)
  {
    if n <= 0 then (s, BadCount)
    else if key !in s && |s| >= c.maxEntries then (s, AtCapacity)
    else
      var tokens := Level(c, s, key, now);
      if tokens >= n as real
      then (s[key := Bucket(tokens - n as real, now)], Granted)
      else (s[key := Bucket(tokens, now)], Denied)
  }

  predicate Idle(c: Config, b: Bucket, now: real) {
    now - b.last > c.interval * 2.0
  }

  function Swept(c: Config, s: State, now: real): State {
    map k | k in s && !Idle(c, s[k], now) :: s[k]
  }

  datatype Status = Status(limit: int, remaining: int, reset: real, retryAfter: real)

  function SecondsToToken(c: Config, tokens: real): real
    requires Valid(c)
  {
    (1.0 - tokens) * (c.interval / c.rate as real)
  }

  // The remaining wait is cut to whole seconds.
  function StatusOf(c: Config, s: State, key: string, now: real): Status
    requires Valid(c)
  {
    if key !in s then Status(c.rate, c.rate, now + c.interval, 0.0)
    else
      var tokens := Level(c, s, key, now);
      Status(c.rate, tokens.Floor, now + c.interval,
        if tokens < 1.0 then SecondsToToken(c, tokens).Floor as real else 0.0)
  }

  class TokenBucketLimiter {
    const config: Config
    var buckets: map<string, Bucket>

    constructor (c: Config)
      ensures config == WithDefaults(c) && buckets == map[]
    {
      config := WithDefaults(c);
      buckets := map[];
    }

    method AllowN(key: string, n: int, now: real) returns (r: Answer)
      requires Valid(config)
      modifies this
      ensures (buckets, r) == AskStep(config, old(buckets), key, n, now)
    {
      hide Inflow, PerSecond;
      if n <= 0 {
        return BadCount;
      }
      if key !in buckets {
        if |buckets| >= config.maxEntries {
          return AtCapacity;
        }
        buckets := buckets[key := Bucket(config.burst as real, now)];
      }
      InflowLinear(0.0, 0.0, PerSecond(config));
      var b := buckets[key];
      var elapsed := now - b.last;
      var tokensToAdd := Inflow(elapsed, PerSecond(config));
      var tokens := MinReal(b.tokens + tokensToAdd, config.burst as real);
      buckets := buckets[key := Bucket(tokens, now)];
      assert buckets == old(buckets)[key := Bucket(tokens, now)];
      if tokens >= n as real {
        buckets := buckets[key := Bucket(tokens - n as real, now)];
        assert buckets == old(buckets)[key := Bucket(tokens - n as real, now)];
        return Granted;
      }
      return Denied;
    }

    method Reset(key: string)
      modifies this
      ensures buckets == old(buckets) - {key}
    {
      buckets := buckets - {key};
    }

    method GetStatus(key: string, now: real) returns (r: Status)
      requires Valid(config)
      ensures r == StatusOf(config, buckets, key, now)
    {
      if key !in buckets {
        return Status(config.rate, config.rate, now + config.interval, 0.0);
      }
      var b := buckets[key];
      hide Inflow, SecondsToToken, PerSecond;
      var tokensToAdd := Inflow(now - b.last, PerSecond(config));
      var currentTokens := MinReal(b.tokens + tokensToAdd, config.burst as real);
      var retryAfter := 0.0;
      if currentTokens < 1.0 {
        retryAfter := SecondsToToken(config, currentTokens).Floor as real;
      }
      return Status(config.rate, currentTokens.Floor, now + config.interval, retryAfter);
    }

    // One tick of the background cleanup; the map is walked in any order.
    method Cleanup(now: real)
      modifies this
      ensures buckets == Swept(config, old(buckets), now)
    {
      var pending := buckets.Keys;
      while pending != {}
        invariant pending <= buckets.Keys
        invariant forall k :: k in buckets <==>
          k in old(buckets) && (k in pending || !Idle(config, old(buckets)[k], now))
        invariant forall k :: k in buckets ==> buckets[k] == old(buckets)[k]
        decreases |pending|
      {
        var key :| key in pending;
        pending := pending - {key};
        if now - buckets[key].last > config.interval * 2.0 {
          buckets := buckets - {key};
        }
      }
    }
  }

  // ---- runs ----

  function Step(c: Config, s: State, e: Event): (State, Answer)
    requires Valid(c)
  {
    match e
    case Ask(key, n, now) => AskStep(c, s, key, n, now)
    case Forget(key, now) => (s - {key}, Silent)
    case Sweep(now) => (Swept(c, s, now), Silent)
  }

  // The answers of a run, those of the silent sweeps left out.
  function Answers(c: Config, s: State, es: seq<Event>): seq<Answer>
    requires Valid(c)
    decreases |es|
  {
    if es == [] then []
    else
      var (s', a) := Step(c, s, es[0]);
      (if es[0].Sweep? then [] else [a]) + Answers(c, s', es[1..])
  }

  // The tokens a run grants to one key.
  function TokensGranted(c: Config, s: State, es: seq<Event>, key: string): int
    requires Valid(c)
    decreases |es|
  {
    if es == [] then 0
    else
      var (s', a) := Step(c, s, es[0]);
      (if es[0].Ask? && es[0].key == key && a == Granted then es[0].n else 0) + TokensGranted(c, s', es[1..], key)
  }

  // The level later on, when nothing but time passes.
  function Later(c: Config, level: real, elapsed: real): real
    requires Valid(c)
  {
    MinReal(level + Inflow(elapsed, PerSecond(c)), c.burst as real)
  }

  // A level grows with the clock, up to the burst.
  lemma {:induction false} LevelGrows(c: Config, s: State, key: string, now: real, t: real)
    requires Wf(c, s, now) && now <= t
    ensures Level(c, s, key, t) == Later(c, Level(c, s, key, now), t - now)
    ensures 0.0 <= Level(c, s, key, now) <= c.burst as real
  {
    hide Inflow, PerSecond;
    var r := PerSecond(c);
    InflowLinear(0.0, t - now, r);
    if key in s {
      InflowLinear(now - s[key].last, t - now, r);
      InflowLinear(0.0, now - s[key].last, r);
      assert (now - s[key].last) + (t - now) == t - s[key].last;
    }
  }

  lemma {:induction false} UpdateSize(s: State, key: string, b: Bucket)
    ensures |s[key := b]| == if key in s then |s| else |s| + 1
  {
  }

  lemma {:induction false} AskKeepsWf(c: Config, s: State, key: string, n: int, now: real)
    requires Wf(c, s, now)
    ensures Wf(c, AskStep(c, s, key, n, now).0, now)
  {
    var s' := AskStep(c, s, key, n, now).0;
    LevelGrows(c, s, key, now, now);
    if s' != s {
      UpdateSize(s, key, s'[key]);
      assert Sound(c, s'[key], now);
      hide Level, Sound;
    }
  }

  /** Levels stay between nothing and a full burst, and the map within its capacity. */
  lemma {:induction false} StepKeepsWf(c: Config, s: State, e: Event, from: real)
    requires Wf(c, s, from) && from <= e.at
    ensures Wf(c, Step(c, s, e).0, e.at)
  {
    match e
    case Ask(key, n, now) =>
      WfLater(c, s, from, now);
      AskKeepsWf(c, s, key, n, now);
      hide AskStep, Sound;
    case Forget(key, now) =>
      WfLater(c, s, from, now);
      hide Sound;
      SubmapSize(s - {key}, s);
    case Sweep(now) =>
      WfLater(c, s, from, now);
      hide Sound, Idle;
      SubmapSize(Swept(c, s, now), s);
  }

  /** AllowN decides by the level alone, lowers it by what it grants, and leaves the
      level of every other key as it was. */
  lemma {:induction false} AskByLevel(c: Config, s: State, key: string, n: int, now: real)
    requires Wf(c, s, now) && n > 0 && (key in s || |s| < c.maxEntries)
    ensures var (s', a) := AskStep(c, s, key, n, now);
            && (a == Granted <==> n as real <= Level(c, s, key, now))
            && (a == Granted || a == Denied)
            && (Level(c, s', key, now) == Level(c, s, key, now) - (if a == Granted then n as real else 0.0))
            && (forall k, t :: k != key ==> Level(c, s', k, t) == Level(c, s, k, t))
  {
    hide Inflow, PerSecond;
    InflowLinear(0.0, 0.0, PerSecond(c));
    LevelGrows(c, s, key, now, now);
  }

  /** What AllowN answers, case by case: a call is refused for its count, or for the room, or
      decided by the level; and a new key takes up room whether it is granted or not. */
  lemma {:induction false} AnswerExactly(c: Config, s: State, key: string, n: int, now: real)
    requires Wf(c, s, now)
    ensures var (s', a) := AskStep(c, s, key, n, now);
            && (a == BadCount <==> n <= 0)
            && (a == AtCapacity <==> n > 0 && key !in s && |s| == c.maxEntries)
            && (a == BadCount || a == AtCapacity ==> s' == s)
            && (a == Granted || a == Denied ==> s'.Keys == s.Keys + {key})
  {
  }

  /** The cleanup removes a key if and only if nobody has used it for more than two intervals,
      and leaves the other buckets as they are. */
  lemma {:induction false} SweptExactly(c: Config, s: State, now: real, key: string)
    requires key in s
    ensures key !in Swept(c, s, now) <==> s[key].last + c.interval + c.interval < now
    ensures forall k :: k in Swept(c, s, now) ==> k in s && Swept(c, s, now)[k] == s[k]
  {
  }

  /** With a burst of at most twice the rate, a bucket that is swept away was full. */
  lemma {:induction false} SweepKeepsLevels(c: Config, s: State, now: real, key: string, t: real)
    requires Wf(c, s, now) && now <= t && c.burst <= 2 * c.rate
    ensures Level(c, Swept(c, s, now), key, t) == Level(c, s, key, t)
  {
    hide Inflow, PerSecond;
    if key in s && Idle(c, s[key], now) {
      InflowLinear(c.interval, c.interval, PerSecond(c));
      InflowLinear(c.interval + c.interval, t - s[key].last, PerSecond(c));
    }
  }

  // ---- cleanup is unobservable ----

  // s is u with some buckets forgotten, all of them full from now on.
  ghost predicate Forgets(c: Config, s: State, u: State, now: real)
    requires Valid(c)
  {
    s.Keys <= u.Keys && forall k, t :: now <= t ==> Level(c, s, k, t) == Level(c, u, k, t)
  }

  predicate NeverAtCapacity(c: Config, s: State, es: seq<Event>)
    requires Valid(c)
  {
    AtCapacity !in Answers(c, s, es)
  }

  lemma {:induction false} AskForgets(c: Config, s: State, u: State, e: Event, from: real)
    requires Wf(c, s, from) && Wf(c, u, from) && Forgets(c, s, u, from) && from <= e.at && e.Ask?
    requires Step(c, u, e).1 != AtCapacity
    ensures Step(c, s, e).1 == Step(c, u, e).1
    ensures Forgets(c, Step(c, s, e).0, Step(c, u, e).0, e.at)
  {
    SubmapSize(s, u);
    if e.n > 0 {
      var (s', a) := Step(c, s, e);
      var (u', b) := Step(c, u, e);
      AskKeepsWf(c, s, e.key, e.n, e.at);
      AskKeepsWf(c, u, e.key, e.n, e.at);
      assert s'.Keys <= u'.Keys;
      AskByLevel(c, s, e.key, e.n, e.at);
      AskByLevel(c, u, e.key, e.n, e.at);
      hide AskStep, Level;
      assert Level(c, s, e.key, e.at) == Level(c, u, e.key, e.at);
      forall k, t | e.at <= t ensures Level(c, s', k, t) == Level(c, u', k, t) {
        if k != e.key {
          assert Level(c, s', k, t) == Level(c, s, k, t) == Level(c, u, k, t);
        } else {
          LevelGrows(c, s', k, e.at, t);
          LevelGrows(c, u', k, e.at, t);
        }
      }
    }
  }

  lemma {:induction false} SweepForgets(c: Config, s: State, u: State, now: real)
    requires Wf(c, s, now) && Forgets(c, s, u, now) && c.burst <= 2 * c.rate
    ensures Forgets(c, Swept(c, s, now), u, now)
  {
    forall k, t | now <= t ensures Level(c, Swept(c, s, now), k, t) == Level(c, u, k, t) {
      SweepKeepsLevels(c, s, now, k, t);
      hide Level, Swept;
    }
  }

  lemma {:induction false} WfLater(c: Config, s: State, from: real, now: real)
    requires Wf(c, s, from) && from <= now
    ensures Wf(c, s, now)
  {
  }

  lemma {:induction false} SweepsAreSilent(c: Config, s: State, u: State, es: seq<Event>, from: real)
    requires Wf(c, s, from) && Wf(c, u, from) && Forgets(c, s, u, from)
    requires Timely(es, from) && c.burst <= 2 * c.rate
    requires NeverAtCapacity(c, u, WithoutSweeps(es))
    ensures Answers(c, s, es) == Answers(c, u, WithoutSweeps(es))
    decreases |es|
  {
    hide Level, AskStep, Swept;
    if es != [] {
      var e, ws := es[0], WithoutSweeps(es[1..]);
      var s' := Step(c, s, e).0;
      StepKeepsWf(c, s, e, from);
      if e.Sweep? {
        assert WithoutSweeps(es) == ws;
        WfLater(c, s, from, e.at);
        WfLater(c, u, from, e.at);
        SweepForgets(c, s, u, e.at);
        SweepsAreSilent(c, s', u, es[1..], e.at);
      } else {
        var (u', a) := Step(c, u, e);
        assert WithoutSweeps(es) == [e] + ws && ([e] + ws)[1..] == ws;
        assert Answers(c, u, WithoutSweeps(es)) == [a] + Answers(c, u', ws);
        assert a in Answers(c, u, WithoutSweeps(es));
        StepKeepsWf(c, u, e, from);
        if e.Ask? {
          AskForgets(c, s, u, e, from);
        } else {
          ForgetForgets(c, s, u, e.key, e.at);
        }
        SweepsAreSilent(c, s', u', es[1..], e.at);
      }
    }
  }

  lemma {:induction false} ForgetForgets(c: Config, s: State, u: State, key: string, now: real)
    requires Valid(c) && Forgets(c, s, u, now)
    ensures Forgets(c, s - {key}, u - {key}, now)
  {
    forall k, t | now <= t ensures Level(c, s - {key}, k, t) == Level(c, u - {key}, k, t) {
      assert Level(c, s, k, t) == Level(c, u, k, t);
    }
  }

  // When a bucket emptied at 0 may be swept although it is not yet full.
  function TooEarly(c: Config): real
    requires Valid(c)
  {
    c.interval * 2.0 + c.interval * ((c.burst - 2 * c.rate) as real / (2 * c.rate) as real)
  }

  const DRAINED: Bucket := Bucket(0.0, 0.0)

  lemma {:induction false} NotYetFull(c: Config, key: string)
    requires Valid(c) && c.burst > 2 * c.rate
    ensures TooEarly(c) > c.interval * 2.0
    ensures Level(c, map[key := DRAINED], key, TooEarly(c)) < c.burst as real
  {
  }

  lemma {:induction false} DrainStep(c: Config, key: string, now: real)
    requires Valid(c)
    ensures AskStep(c, map[], key, c.burst, now) == (map[key := Bucket(0.0, now)], Granted)
  {
    hide Inflow, PerSecond;
  }

  lemma {:induction false} SweptEarly(c: Config, key: string)
    requires Valid(c) && c.burst > 2 * c.rate
    ensures Swept(c, map[key := DRAINED], TooEarly(c)) == map[]
    ensures AskStep(c, map[key := DRAINED], key, c.burst, TooEarly(c)).1 == Denied
  {
    hide Level, TooEarly;
    NotYetFull(c, key);
  }

  lemma {:induction false} AnswersOne(c: Config, s: State, e: Event)
    requires Valid(c) && !e.Sweep?
    ensures Answers(c, s, [e]) == [Step(c, s, e).1]
  {
    hide Step;
    assert [e][1..] == [];
  }

  lemma {:induction false} AnswersCons(c: Config, s: State, e: Event, es: seq<Event>)
    requires Valid(c)
    ensures var (t, a) := Step(c, s, e);
            Answers(c, s, [e] + es) == (if e.Sweep? then [] else [a]) + Answers(c, t, es)
  {
    hide Step;
    assert ([e] + es)[1..] == es;
  }

  lemma {:induction false} SweepsOfThree(a: Event, b: Event, d: Event)
    requires !a.Sweep? && b.Sweep? && !d.Sweep?
    ensures WithoutSweeps([a] + ([b] + [d])) == [a] + [d]
  {
    assert ([a] + ([b] + [d]))[1..] == [b] + [d] && ([b] + [d])[1..] == [d] && [d][1..] == [];
    assert WithoutSweeps([d]) == [d];
    assert WithoutSweeps([b] + [d]) == [d];
  }

  lemma {:induction false} TimelyThree(a: Event, b: Event, d: Event)
    requires 0.0 <= a.at <= b.at <= d.at
    ensures Timely([a] + ([b] + [d]), 0.0)
  {
    assert ([a] + ([b] + [d]))[1..] == [b] + [d] && ([b] + [d])[1..] == [d] && [d][1..] == [];
    assert Timely([d], b.at);
    assert Timely([b] + [d], a.at);
  }

  // Three events at which a swept limiter and one that never sweeps part ways.
  lemma {:induction false} PartWays(c: Config) returns (es: seq<Event>)
    requires Valid(c) && c.burst > 2 * c.rate
    ensures Timely(es, 0.0)
    ensures Answers(c, map[], es) == [Granted] + [Granted]
    ensures Answers(c, map[], WithoutSweeps(es)) == [Granted] + [Denied]
  {
    hide Timely, WithoutSweeps, Answers, AskStep, Swept, TooEarly;
    var t := TooEarly(c);
    var a, b, d := Ask("k", c.burst, 0.0), Sweep(t), Ask("k", c.burst, t);
    es := [a] + ([b] + [d]);
    NotYetFull(c, "k");
    SweptEarly(c, "k");
    DrainStep(c, "k", 0.0);
    DrainStep(c, "k", t);
    TimelyThree(a, b, d);
    SweepsOfThree(a, b, d);
    var s := map["k" := DRAINED];
    AnswersCons(c, map[], a, [b] + [d]);
    AnswersCons(c, s, b, [d]);
    AnswersOne(c, map[], d);
    AnswersCons(c, map[], a, [d]);
    AnswersOne(c, s, d);
    assert [] + Answers(c, map[], [d]) == Answers(c, map[], [d]);
  }

  /** Sweeps inserted anywhere leave every decision as it is, in all runs in which the
      limiter that never sweeps is not at capacity, exactly when the burst is at most
      twice the rate, which is the default. */
  lemma {:induction false} CleanupUnobservable(c: Config)
    requires Valid(c)
    ensures (forall es :: Timely(es, 0.0) && NeverAtCapacity(c, map[], WithoutSweeps(es)) ==>
             Answers(c, map[], es) == Answers(c, map[], WithoutSweeps(es)))
            <==> c.burst <= 2 * c.rate
  {
    hide Answers, Step;
    if c.burst <= 2 * c.rate {
      forall es | Timely(es, 0.0) && NeverAtCapacity(c, map[], WithoutSweeps(es))
        ensures Answers(c, map[], es) == Answers(c, map[], WithoutSweeps(es))
      {
        SweepsAreSilent(c, map[], map[], es, 0.0);
      }
    } else {
      var es := PartWays(c);
      assert [Granted] + [Granted] != [Granted] + [Denied] by {
        assert ([Granted] + [Granted])[1] != ([Granted] + [Denied])[1];
      }
    }
  }

  // ---- the admission bound ----

  // One event grants no more than it takes off the level.
  lemma {:induction false} StepSpendsLevel(c: Config, s: State, e: Event, key: string, from: real)
    requires Wf(c, s, from) && from <= e.at && !(e.Forget? && e.key == key)
    requires !e.Sweep? || c.burst <= 2 * c.rate
    ensures var (s', a) := Step(c, s, e);
            Level(c, s', key, e.at) + (if e.Ask? && e.key == key && a == Granted then e.n as real else 0.0)
            == Level(c, s, key, e.at)
  {
    WfLater(c, s, from, e.at);
    match e
    case Ask(k, n, now) =>
      if n > 0 && (k in s || |s| < c.maxEntries) {
        AskByLevel(c, s, k, n, now);
        hide AskStep, Level;
      }
    case Forget(k, now) =>
    case Sweep(now) =>
      SweepKeepsLevels(c, s, now, key, now);
      hide Level, Swept;
  }

  /** Tokens granted to a key in any stretch of a run, from any well-formed state: at most
      its level at the start and what flows in meanwhile, hence at most
      Burst + rate * time. The key is not reset meanwhile, and sweeps are either absent
      or harmless. */
  lemma {:induction false} GrantBound(c: Config, s: State, es: seq<Event>, key: string, from: real)
    requires Wf(c, s, from) && Timely(es, from) && NoForget(es, key)
    requires NoSweep(es) || c.burst <= 2 * c.rate
    ensures EndTime(es, from) >= from
    ensures TokensGranted(c, s, es, key) as real
         <= Level(c, s, key, from) + Inflow(EndTime(es, from) - from, PerSecond(c))
    ensures TokensGranted(c, s, es, key) as real <= c.burst as real + Inflow(EndTime(es, from) - from, PerSecond(c))
    decreases |es|
  {
    hide Level, Step, Inflow, PerSecond;
    LevelGrows(c, s, key, from, from);
    if es == [] {
      InflowLinear(0.0, 0.0, PerSecond(c));
    } else {
      var e, r := es[0], PerSecond(c);
      var s' := Step(c, s, e).0;
      assert e in es;
      StepKeepsWf(c, s, e, from);
      GrantBound(c, s', es[1..], key, e.at);
      LevelGrows(c, s, key, from, e.at);
      StepSpendsLevel(c, s, e, key, from);
      var last := EndTime(es[1..], e.at);
      InflowLinear(last - e.at, e.at - from, r);
      assert (last - e.at) + (e.at - from) == last - from;
    }
  }

  // What a run from the empty map grants a key is within the bound.
  ghost predicate WithinBound(c: Config, es: seq<Event>, key: string)
    requires Valid(c)
  {
    TokensGranted(c, map[], es, key) as real <= c.burst as real + Inflow(EndTime(es, 0.0), PerSecond(c))
  }

  lemma {:induction false} GrantedCons(c: Config, s: State, e: Event, es: seq<Event>, key: string)
    requires Valid(c)
    ensures var (t, a) := Step(c, s, e);
            TokensGranted(c, s, [e] + es, key)
            == (if e.Ask? && e.key == key && a == Granted then e.n else 0) + TokensGranted(c, t, es, key)
  {
    hide Step;
    assert ([e] + es)[1..] == es;
  }

  lemma {:induction false} ThreeEvents(a: Event, b: Event, d: Event, key: string)
    requires a.Ask? && b.Sweep? && d.Ask?
    ensures EndTime([a] + ([b] + [d]), 0.0) == d.at && NoForget([a] + ([b] + [d]), key)
  {
    assert ([a] + ([b] + [d]))[1..] == [b] + [d] && ([b] + [d])[1..] == [d] && [d][1..] == [];
    assert EndTime([d], b.at) == d.at;
    assert EndTime([b] + [d], a.at) == d.at;
  }

  lemma {:induction false} StillFilling(c: Config, key: string)
    requires Valid(c) && c.burst > 2 * c.rate
    ensures Inflow(TooEarly(c), PerSecond(c)) < c.burst as real
  {
    NotYetFull(c, key);
    hide Inflow, PerSecond, TooEarly;
    assert TooEarly(c) - 0.0 == TooEarly(c);
  }

  // A burst, a sweep before the bucket is full again, and another burst.
  lemma {:induction false} TwoBursts(c: Config) returns (es: seq<Event>)
    requires Valid(c) && c.burst > 2 * c.rate
    ensures Timely(es, 0.0) && NoForget(es, "k") && !WithinBound(c, es, "k")
  {
    hide Timely, AskStep, Swept, TooEarly, TokensGranted, EndTime, NoForget, Inflow;
    var t := TooEarly(c);
    var a, b, d := Ask("k", c.burst, 0.0), Sweep(t), Ask("k", c.burst, t);
    es := [a] + ([b] + [d]);
    NotYetFull(c, "k");
    StillFilling(c, "k");
    SweptEarly(c, "k");
    DrainStep(c, "k", 0.0);
    DrainStep(c, "k", t);
    TimelyThree(a, b, d);
    ThreeEvents(a, b, d, "k");
    GrantedCons(c, map[], a, [b] + [d], "k");
    GrantedCons(c, map["k" := DRAINED], b, [d], "k");
    assert [d] + [] == [d];
    GrantedCons(c, map[], d, [], "k");
    GrantedNone(c, Step(c, map[], d).0, "k");
  }

  lemma {:induction false} GrantedNone(c: Config, s: State, key: string)
    requires Valid(c)
    ensures TokensGranted(c, s, [], key) == 0
  {
  }

  lemma {:induction false} EmptyWf(c: Config)
    requires Valid(c)
    ensures Wf(c, map[], 0.0)
  {
  }

  /** The bound over all runs, exactly: every run of calls that do not overlap, with sweeps at any
      moments and without a reset of the key, grants it at most Burst + rate * time, if and only
      if the burst is at most twice the rate. */
  lemma {:induction false} GrantBoundExactly(c: Config)
    requires Valid(c)
    ensures (forall es, key :: Timely(es, 0.0) && NoForget(es, key) ==> WithinBound(c, es, key))
       <==> c.burst <= 2 * c.rate
  {
    hide Timely, NoForget, Inflow, PerSecond, TokensGranted, EndTime;
    if c.burst <= 2 * c.rate {
      forall es, key | Timely(es, 0.0) && NoForget(es, key) ensures WithinBound(c, es, key) {
        EmptyWf(c);
        GrantBound(c, map[], es, key, 0.0);
        assert EndTime(es, 0.0) - 0.0 == EndTime(es, 0.0);
      }
    } else {
      var es := TwoBursts(c);
    }
  }

  // ---- what GetStatus promises ----

  /** For a tracked key, AllowN(n) at the instant of GetStatus succeeds iff n <= Remaining. For
      a key without a bucket GetStatus reports the rate although a full burst is available, so
      there the same holds iff the burst equals the rate. */
  lemma {:induction false} StatusExact(c: Config, s: State, key: string, now: real)
    requires Wf(c, s, now) && (key in s || |s| < c.maxEntries)
    ensures (forall n :: n > 0 ==>
               (AskStep(c, s, key, n, now).1 == Granted <==> n <= StatusOf(c, s, key, now).remaining))
            <==> key in s || c.burst == c.rate
  {
    var rem := StatusOf(c, s, key, now).remaining;
    forall n | n > 0
      ensures AskStep(c, s, key, n, now).1 == Granted <==> n as real <= Level(c, s, key, now)
      ensures key in s ==> (n as real <= Level(c, s, key, now) <==> n <= rem)
    {
      AskByLevel(c, s, key, n, now);
    }
    if key !in s && c.burst != c.rate {
      var n := Max(c.burst, c.rate);
      assert AskStep(c, s, key, n, now).1 == Granted <==> n <= c.burst;
    }
  }

  /** What Limit and Reset are worth: as many requests as Limit says are granted at the time
      Reset, in one call and with no other before it, from every state, if and only if the rate
      is at most the burst; any other number, if it is within the burst and within what is there
      already and Limit together. */
  lemma {:induction false} LimitAtReset(c: Config, s: State, key: string, n: int, now: real)
    requires Wf(c, s, now) && n > 0 && (key in s || |s| < c.maxEntries)
    ensures var st := StatusOf(c, s, key, now);
            && st.limit == c.rate && st.reset == now + c.interval
            && (AskStep(c, s, key, n, st.reset).1 == Granted
                <==> n <= c.burst && n as real <= Level(c, s, key, now) + st.limit as real)
    ensures AskStep(c, s, key, c.rate, now + c.interval).1 == Granted <==> c.rate <= c.burst
  {
    hide Level, Inflow, PerSecond, AskStep, Wf;
    assert Valid(c) by { WfValid(c, s, now); }
    var later := now + c.interval;
    LevelGrows(c, s, key, now, later);
    assert later - now == c.interval;
    WfLater(c, s, now, later);
    AskByLevel(c, s, key, n, later);
    AskByLevel(c, s, key, c.rate, later);
  }

  lemma {:induction false} WfValid(c: Config, s: State, now: real)
    requires Wf(c, s, now)
    ensures Valid(c)
  {
  }

  /** A single request RetryAfter seconds later is granted exactly when the wait for the
      next token is a whole number of seconds; otherwise the cut is too short. */
  lemma {:induction false} RetryAfterExact(c: Config, s: State, key: string, now: real)
    requires Wf(c, s, now) && key in s && Level(c, s, key, now) < 1.0
    ensures var wait := SecondsToToken(c, Level(c, s, key, now));
            var later := now + StatusOf(c, s, key, now).retryAfter;
            AskStep(c, s, key, 1, later).1 == Granted <==> wait.Floor as real == wait
  {
    var level := Level(c, s, key, now);
    var wait := SecondsToToken(c, level);
    var d := StatusOf(c, s, key, now).retryAfter;
    LevelGrows(c, s, key, now, now);
    WaitFills(c, level);
    assert d == wait.Floor as real && d >= 0.0;
    hide SecondsToToken, Level, AskStep, Inflow, PerSecond;
    LevelGrows(c, s, key, now, now + d);
    WfLater(c, s, now, now + d);
    AskByLevel(c, s, key, 1, now + d);
    InflowLinear(wait, d, PerSecond(c));
  }

  lemma {:induction false} WaitFills(c: Config, level: real)
    requires Valid(c) && level < 1.0
    ensures var wait := SecondsToToken(c, level);
            wait > 0.0 && level + Inflow(wait, PerSecond(c)) == 1.0
  {
  }

  // The state after a run.
  function RunState(c: Config, s: State, es: seq<Event>): State
    requires Valid(c)
    decreases |es|
  {
    if es == [] then s else RunState(c, Step(c, s, es[0]).0, es[1..])
  }

  lemma {:induction false} RunTwo(c: Config, s: State, a: Event, b: Event)
    requires Valid(c)
    ensures RunState(c, s, [a] + [b]) == Step(c, Step(c, s, a).0, b).0
  {
    hide Step;
    assert ([a] + [b])[1..] == [b] && [b][1..] == [];
    assert RunState(c, Step(c, s, a).0, [b]) == RunState(c, Step(c, Step(c, s, a).0, b).0, []);
  }

  // A drained bucket, after the time for the given part of a token.
  lemma {:induction false} PartRefilled(c: Config, key: string, part: real)
    requires Valid(c) && 0.0 <= part < 1.0
    ensures var t := part / PerSecond(c);
            && t >= 0.0
            && Inflow(t, PerSecond(c)) == part
            && AskStep(c, map[key := DRAINED], key, 1, t) == (map[key := Bucket(part, t)], Denied)
            && Level(c, map[key := Bucket(part, t)], key, t) == part
  {
    hide PerSecond;
    var r, t := PerSecond(c), part / PerSecond(c);
    assert t * r == part;
    InflowLinear(0.0, t, r);
    InflowLinear(0.0, 0.0, r);
    hide Inflow;
    assert t - 0.0 == t;
    var s := map[key := DRAINED];
    assert Level(c, s, key, t) == part;
    assert s[key := Bucket(part, t)] == map[key := Bucket(part, t)];
  }

  /** In every configuration a run leads to such a state: the bucket is drained, a request comes
      too early and is denied, and RetryAfter later the next one is denied too. */
  lemma {:induction false} RetryTooSoon(c: Config, key: string) returns (es: seq<Event>, now: real)
    requires Valid(c)
    ensures Timely(es, 0.0) && EndTime(es, 0.0) == now
    ensures var s := RunState(c, map[], es);
            && Wf(c, s, now) && key in s && Level(c, s, key, now) < 1.0
            && AskStep(c, s, key, 1, now + StatusOf(c, s, key, now).retryAfter).1 == Denied
  {
    var part := HalfAWait(c);
    now := part / PerSecond(c);
    hide Inflow, PerSecond, AskStep, Level, Wf, StatusOf, SecondsToToken, Step, RunState;
    PartRefilled(c, key, part);
    DrainStep(c, key, 0.0);
    var a, b := Ask(key, c.burst, 0.0), Ask(key, 1, now);
    es := [a] + [b];
    TwoEvents(a, b);
    RunTwo(c, map[], a, b);
    AsksStep(c, map[], a);
    AsksStep(c, map[key := DRAINED], b);
    SmallWf(c, key, part, now);
    CutWait(c, map[key := Bucket(part, now)], key, now, part);
  }

  lemma {:induction false} TwoEvents(a: Event, b: Event)
    requires a.at <= b.at
    ensures Timely([a] + [b], a.at) && EndTime([a] + [b], a.at) == b.at
  {
    assert ([a] + [b])[1..] == [b] && [b][1..] == [];
    assert Timely([], b.at) && EndTime([], b.at) == b.at;
    assert Timely([b], a.at) && EndTime([b], a.at) == b.at;
  }

  lemma {:induction false} AsksStep(c: Config, s: State, e: Event)
    requires Valid(c) && e.Ask?
    ensures Step(c, s, e) == AskStep(c, s, e.key, e.n, e.at)
  {
    hide AskStep;
  }

  // A wait of less than a second is reported as none.
  lemma {:induction false} CutWait(c: Config, s: State, key: string, now: real, part: real)
    requires Wf(c, s, now) && key in s && Level(c, s, key, now) == part < 1.0
    requires 0.0 < SecondsToToken(c, part) < 1.0
    ensures AskStep(c, s, key, 1, now + StatusOf(c, s, key, now).retryAfter).1 == Denied
  {
    assert Valid(c);
    hide Level, SecondsToToken, AskStep, Wf;
    var wait := SecondsToToken(c, part);
    assert wait.Floor == 0;
    RetryAfterExact(c, s, key, now);
    assert StatusOf(c, s, key, now).retryAfter == 0.0;
    RetryDecided(c, s, key, now);
  }

  lemma {:induction false} SmallWf(c: Config, key: string, part: real, now: real)
    requires Valid(c) && 0.0 <= part < 1.0
    ensures Wf(c, map[key := Bucket(part, now)], now)
  {
  }

  lemma {:induction false} RetryDecided(c: Config, s: State, key: string, now: real)
    requires Wf(c, s, now) && key in s
    ensures AskStep(c, s, key, 1, now).1 == Granted || AskStep(c, s, key, 1, now).1 == Denied
  {
  }

  // With this part of a token there, the wait for the rest is less than a second.
  lemma {:induction false} HalfAWait(c: Config) returns (part: real)
    requires Valid(c)
    ensures 0.0 <= part < 1.0 && 0.0 < SecondsToToken(c, part) < 1.0
  {
    var perToken := c.interval / c.rate as real;
    var missing := if perToken < 1.0 then 0.5 else 0.5 / perToken;
    part := 1.0 - missing;
    MissingHalf(perToken, missing);
  }

  lemma {:induction false} MissingHalf(perToken: real, missing: real)
    requires perToken > 0.0 && missing == if perToken < 1.0 then 0.5 else 0.5 / perToken
    ensures 0.0 < missing <= 0.5 && 0.0 < missing * perToken < 1.0
  {
    if perToken >= 1.0 {
      assert missing * perToken == 0.5;
    }
  }

  lemma {:induction false} ShortWait(c: Config, level: real)
    requires Valid(c) && c.interval / c.rate as real < 1.0 && 0.0 <= level < 1.0
    ensures 0.0 <= SecondsToToken(c, level) < 1.0
  {
    var p := c.interval / c.rate as real;
    NotNegative(1.0 - level, p);
    NotNegative(level, p);
    assert (1.0 - level) * p == p - level * p;
  }

  lemma {:induction false} NotNegative(a: real, b: real)
    requires a >= 0.0 && b >= 0.0
    ensures a * b >= 0.0
  {
  }

  /** With more than one token a second, as by default, RetryAfter is always zero. */
  lemma {:induction false} RetryAlwaysZero(c: Config, s: State, key: string, now: real)
    requires Wf(c, s, now) && c.interval / c.rate as real < 1.0
    ensures StatusOf(c, s, key, now).retryAfter == 0.0
  {
    hide Inflow, PerSecond, SecondsToToken, Level;
    var level := Level(c, s, key, now);
    LevelGrows(c, s, key, now, now);
    if level < 1.0 {
      ShortWait(c, level);
    }
  }

  // ---- the slack limiter ----

  // One bucket, one token a call; the answer says whether the call was let through.
  function SlackStep(b: Bucket, capacity: real, perSecond: real, now: real): (Bucket, bool) {
    var tokens := Refilled(b, capacity, perSecond, now);
    if tokens < 1.0 then (Bucket(tokens, now), false) else (Bucket(tokens - 1.0, now), true)
  }

  class SlackTokenBucket {
    var tokens: real
    var lastCheck: real
    const capacity: real
    const rate: real

    constructor (rate: int, burst: int, now: real)
      ensures tokens == capacity == burst as real && this.rate == rate as real && lastCheck == now
    {
      this.tokens := burst as real;
      this.capacity := burst as real;
      this.rate := rate as real;
      this.lastCheck := now;
    }

    method Allow(now: real) returns (ok: bool)
      modifies this
      ensures (Bucket(tokens, lastCheck), ok) == SlackStep(old(Bucket(tokens, lastCheck)), capacity, rate, now)
    {
      var elapsed := now - lastCheck;
      lastCheck := now;
      tokens := MinReal(capacity, tokens + Inflow(elapsed, rate));
      if tokens < 1.0 {
        return false;
      }
      tokens := tokens - 1.0;
      return true;
    }
  }

  /** One step of a Slack bucket of rate r and burst b is that of the keyed limiter for one
      key with an interval of one second. */
  lemma {:induction false} SlackIsOneKey(c: Config, s: State, key: string, now: real)
    requires Wf(c, s, now) && key in s && c.interval == 1.0
    ensures var (s', a) := AskStep(c, s, key, 1, now);
            var (b', ok) := SlackStep(s[key], c.burst as real, c.rate as real, now);
            s'[key] == b' && (a == Granted <==> ok)
  {
  }

  // The bucket after calls at the given times, and how many were let through.
  function SlackRun(b: Bucket, capacity: real, perSecond: real, times: seq<real>): (Bucket, nat) {
    if times == [] then (b, 0)
    else
      var (b1, n) := SlackRun(b, capacity, perSecond, times[..|times| - 1]);
      var (b2, ok) := SlackStep(b1, capacity, perSecond, times[|times| - 1]);
      (b2, if ok then n + 1 else n)
  }

  lemma {:induction false} InflowAdds(a: real, b: real, r: real)
    ensures Inflow(a, r) + Inflow(b, r) == Inflow(a + b, r)
    ensures Inflow(0.0, r) == 0.0
    ensures r >= 0.0 && a <= b ==> Inflow(a, r) <= Inflow(b, r)
  {
  }

  // What a run lets through it takes out of what was there and what flowed in.
  lemma {:induction false} SlackSpends(b: Bucket, capacity: real, perSecond: real, times: seq<real>)
    requires times != []
    ensures var (b', n) := SlackRun(b, capacity, perSecond, times);
            var last := times[|times| - 1];
            && b'.last == last
            && b'.tokens + n as real <= b.tokens + Inflow(last - b.last, perSecond)
            && b'.tokens + n as real <= capacity + Inflow(last - times[0], perSecond)
  {
    hide Inflow;
    var front, last := times[..|times| - 1], times[|times| - 1];
    InflowAdds(0.0, 0.0, perSecond);
    if front == [] {
      assert SlackRun(b, capacity, perSecond, front) == (b, 0);
    } else {
      SlackSpends(b, capacity, perSecond, front);
      var before := front[|front| - 1];
      InflowAdds(before - b.last, last - before, perSecond);
      assert (before - b.last) + (last - before) == last - b.last;
      InflowAdds(before - times[0], last - before, perSecond);
      assert (before - times[0]) + (last - before) == last - times[0];
    }
  }

  // A stretch that ends with a call let through.
  ghost predicate EndsGranted(b: Bucket, capacity: real, perSecond: real, times: seq<real>) {
    && times != []
    && SlackStep(SlackRun(b, capacity, perSecond, times[..|times| - 1]).0, capacity, perSecond, times[|times| - 1]).1
  }

  /** The grant bound of the Slack bucket, for any capacity, any rate and any bucket to start
      from: a stretch of calls from s to t that ends with one let through lets through at most
      capacity + rate * (t - s). With a rate that is not negative so does any other stretch. */
  lemma {:induction false} SlackGrantBound(b: Bucket, capacity: real, perSecond: real, times: seq<real>)
    requires times != []
    ensures var n, last := SlackRun(b, capacity, perSecond, times).1, times[|times| - 1];
            && (EndsGranted(b, capacity, perSecond, times) ==>
                  n as real <= b.tokens + Inflow(last - b.last, perSecond)
                  && n as real <= capacity + Inflow(last - times[0], perSecond))
            && (perSecond >= 0.0 && Ascending(times) ==>
                  n == 0 || n as real <= capacity + Inflow(last - times[0], perSecond))
  {
    hide Inflow;
    SlackSpends(b, capacity, perSecond, times);
    var front, last := times[..|times| - 1], times[|times| - 1];
    if perSecond >= 0.0 && Ascending(times) && !EndsGranted(b, capacity, perSecond, times) && front != [] {
      SlackGrantBound(b, capacity, perSecond, front);
      InflowAdds(front[|front| - 1] - times[0], last - times[0], perSecond);
    }
  }
}

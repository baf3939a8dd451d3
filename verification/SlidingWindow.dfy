/** The sliding-window limiter (oauth/rate_limiter.go:197-374, slack/rate_limiter.go:71-111),
    against one that keeps every admission for ever. */
module SlidingWindow {
  import opened Sequences
  import opened Numbers
  import opened RateLimiting

  // The requests after start, in their order.
  function Recent(w: seq<real>, start: real): (r: seq<real>)
    ensures |r| <= |w|
  {
    if w == [] then []
    else (if w[0] > start then [w[0]] else []) + Recent(w[1..], start)
  }

  function Copies(at: real, n: nat): seq<real> {
    if n == 0 then [] else Copies(at, n - 1) + [at]
  }

  lemma {:induction false} RecentConcat(a: seq<real>, b: seq<real>, start: real)
    ensures Recent(a + b, start) == Recent(a, start) + Recent(b, start)
  {
    if a == [] {
      assert a + b == b;
    } else {
      RecentConcat(a[1..], b, start);
      assert (a + b)[1..] == a[1..] + b;
      Assoc(if a[0] > start then [a[0]] else [], Recent(a[1..], start), Recent(b, start));
    }
  }

  lemma {:induction false} RecentNone(start: real)
    ensures Recent([], start) == []
  {
  }

  lemma {:induction false} CopiesNext(at: real, n: nat)
    ensures Copies(at, 0) == [] && Copies(at, n + 1) == Copies(at, n) + [at]
  {
  }

  // One step of a loop that collects the recent requests.
  lemma {:induction false} RecentNext(w: seq<real>, i: nat, start: real)
    requires i < |w|
    ensures Recent(w[..i + 1], start) == Recent(w[..i], start) + (if w[i] > start then [w[i]] else [])
  {
    assert w[..i + 1] == w[..i] + [w[i]];
    RecentConcat(w[..i], [w[i]], start);
  }

  lemma {:induction false} RecentTwice(w: seq<real>, a: real, b: real)
    requires a <= b
    ensures Recent(Recent(w, a), b) == Recent(w, b)
  {
    if w != [] {
      RecentTwice(w[1..], a, b);
      RecentConcat(if w[0] > a then [w[0]] else [], Recent(w[1..], a), b);
    }
  }

  lemma {:induction false} RecentMembers(w: seq<real>, start: real)
    ensures forall x :: x in Recent(w, start) <==> x in w && x > start
  {
    if w == [] {
      assert Recent(w, start) == [];
    } else {
      RecentMembers(w[1..], start);
      assert forall x :: x in w <==> x == w[0] || x in w[1..];
    }
  }

  lemma {:induction false} RecentEmpty(w: seq<real>, start: real)
    ensures Recent(w, start) == [] <==> forall x :: x in w ==> x <= start
  {
    RecentMembers(w, start);
    if Recent(w, start) != [] {
      var x := Recent(w, start)[0];
      assert x in Recent(w, start);
    } else {
      forall x | x in w ensures x <= start {
        assert x in Recent(w, start) <==> x > start;
      }
    }
  }

  lemma {:induction false} RecentCopies(at: real, n: nat, start: real)
    ensures |Copies(at, n)| == n
    ensures Recent(Copies(at, n), start) == if at > start then Copies(at, n) else []
  {
    if n > 0 {
      RecentCopies(at, n - 1, start);
      RecentConcat(Copies(at, n - 1), [at], start);
    }
  }

  type State = map<string, seq<real>>

  function Get(s: State, key: string): seq<real> {
    if key in s then s[key] else []
  }

  // ---- the operations ----

  function AskStep(c: Config, s: State, key: string, n: int, now: real): (State, Answer) {
    if n <= 0 then (s, BadCount)
    else if key !in s && |s| >= c.maxEntries then (s, AtCapacity)
    else
      var v := Recent(Get(s, key), now - c.interval);
      if |v| + n > c.rate then (s[key := v], Denied) else (s[key := v + Copies(now, n)], Granted)
  }

  function Swept(c: Config, s: State, now: real): State {
    map k | k in s && Recent(s[k], now - c.interval * 2.0) != [] :: s[k]
  }

  datatype Status = Status(limit: int, remaining: int, reset: real, retryAfter: real)

  function Oldest(w: seq<real>): (r: real)
    requires w != []
    ensures r in w && forall x :: x in w ==> r <= x
  {
    if |w| == 1 then w[0]
    else
      assert forall x :: x in w ==> x == w[0] || x in w[1..];
      MinReal(w[0], Oldest(w[1..]))
  }

  function StatusOf(c: Config, s: State, key: string, now: real): Status {
    if key !in s then Status(c.rate, c.rate, now + c.interval, 0.0)
    else
      var v := Recent(s[key], now - c.interval);
      Status(c.rate, Max(0, c.rate - |v|), now + c.interval,
        if c.rate - |v| <= 0 && v != [] then c.interval - (now - Oldest(v)) else 0.0)
  }

  class SlidingWindowLimiter {
    const config: Config
    var windows: map<string, seq<real>>

    constructor (c: Config)
      ensures config == WithDefaults(c) && windows == map[]
    {
      config := WithDefaults(c);
      windows := map[];
    }

    method AllowN(key: string, n: int, now: real) returns (r: Answer)
      modifies this
      ensures (windows, r) == AskStep(config, old(windows), key, n, now)
    {
      hide Recent, Copies;
      if n <= 0 {
        return BadCount;
      }
      if key !in windows {
        if |windows| >= config.maxEntries {
          return AtCapacity;
        }
        windows := windows[key := []];
      }
      var windowStart := now - config.interval;
      var requests := windows[key];
      var validRequests: seq<real> := [];
      RecentNone(windowStart);
      for i := 0 to |requests|
        invariant validRequests == Recent(requests[..i], windowStart)
        invariant windows == old(windows)[key := requests]
      {
        RecentNext(requests, i, windowStart);
        if requests[i] > windowStart {
          validRequests := validRequests + [requests[i]];
        }
      }
      assert requests[..|requests|] == requests;
      windows := windows[key := validRequests];
      assert windows == old(windows)[key := validRequests];
      if |validRequests| + n > config.rate {
        return Denied;
      }
      CopiesNext(now, 0);
      assert validRequests + Copies(now, 0) == validRequests;
      for i := 0 to n
        invariant windows == old(windows)[key := validRequests + Copies(now, i)]
      {
        windows := windows[key := windows[key] + [now]];
        CopiesNext(now, i);
        assert validRequests + Copies(now, i) + [now] == validRequests + Copies(now, i + 1);
        assert windows == old(windows)[key := validRequests + Copies(now, i + 1)];
      }
      return Granted;
    }

    method Reset(key: string)
      modifies this
      ensures windows == old(windows) - {key}
    {
      windows := windows - {key};
    }

    method GetStatus(key: string, now: real) returns (r: Status)
      ensures r == StatusOf(config, windows, key, now)
    {
      if key !in windows {
        return Status(config.rate, config.rate, now + config.interval, 0.0);
      }
      var windowStart := now - config.interval;
      var requests := windows[key];
      var validCount := 0;
      var seen, oldestRequest := false, 0.0;
      for i := 0 to |requests|
        invariant validCount == |Recent(requests[..i], windowStart)|
        invariant seen <==> validCount > 0
        invariant seen ==> IsOldest(oldestRequest, Recent(requests[..i], windowStart))
      {
        RecentNext(requests, i, windowStart);
        if requests[i] > windowStart {
          validCount := validCount + 1;
          if !seen || requests[i] < oldestRequest {
            seen, oldestRequest := true, requests[i];
          }
        }
      }
      assert requests[..|requests|] == requests;
      var remaining := config.rate - validCount;
      var retryAfter := 0.0;
      if remaining <= 0 && seen {
        retryAfter := config.interval - (now - oldestRequest);
      }
      return Status(config.rate, Max(0, remaining), now + config.interval, retryAfter);
    }

    static method HasRecent(requests: seq<real>, windowStart: real) returns (found: bool)
      ensures found <==> Recent(requests, windowStart) != []
    {
      for i := 0 to |requests|
        invariant Recent(requests[..i], windowStart) == []
      {
        RecentNext(requests, i, windowStart);
        if requests[i] > windowStart {
          RecentConcat(requests[..i + 1], requests[i + 1..], windowStart);
          assert requests == requests[..i + 1] + requests[i + 1..];
          return true;
        }
      }
      assert requests[..|requests|] == requests;
      return false;
    }

    // One tick of the background cleanup; the map is walked in any order.
    method Cleanup(now: real)
      modifies this
      ensures windows == Swept(config, old(windows), now)
    {
      hide Recent;
      var windowStart := now - config.interval * 2.0;
      var pending := windows.Keys;
      while pending != {}
        invariant pending <= windows.Keys
        invariant forall k :: k in windows <==>
          k in old(windows) && (k in pending || Recent(old(windows)[k], windowStart) != [])
        invariant forall k :: k in windows ==> windows[k] == old(windows)[k]
        decreases |pending|
      {
        var key :| key in pending;
        pending := pending - {key};
        var hasRecentRequests := HasRecent(windows[key], windowStart);
        if !hasRecentRequests {
          windows := windows - {key};
        }
      }
    }
  }

  ghost predicate IsOldest(o: real, w: seq<real>) {
    o in w && forall x :: x in w ==> o <= x
  }

  // ---- runs, against a limiter that never forgets ----

  function Step(c: Config, s: State, e: Event): (State, Answer) {
    match e
    case Ask(key, n, now) => AskStep(c, s, key, n, now)
    case Forget(key, now) => (s - {key}, Silent)
    case Sweep(now) => (Swept(c, s, now), Silent)
  }

  // A reachable state: no list is longer than the rate.
  ghost predicate Wf(c: Config, s: State) {
    Valid(c) && forall k :: k in s ==> |s[k]| <= c.rate
  }

  lemma {:induction false} StepKeepsWf(c: Config, s: State, e: Event)
    requires Wf(c, s)
    ensures Wf(c, Step(c, s, e).0)
  {
    hide Recent, Copies;
    if e.Ask? && e.n > 0 {
      RecentCopies(e.at, e.n, e.at);
      assert |Recent(Get(s, e.key), e.at - c.interval)| <= |Get(s, e.key)|;
    }
  }

  function Answers(c: Config, s: State, es: seq<Event>): seq<Answer>
    decreases |es|
  {
    if es == [] then []
    else
      var (s', a) := Step(c, s, es[0]);
      (if es[0].Sweep? then [] else [a]) + Answers(c, s', es[1..])
  }

  // Keeps the whole history of every key, without a limit on the number of keys.
  function HistoryStep(c: Config, h: State, e: Event): (State, Answer) {
    match e
    case Ask(key, n, now) =>
      if n <= 0 then (h, BadCount)
      else if |Recent(Get(h, key), now - c.interval)| + n > c.rate then (h, Denied)
      else (h[key := Get(h, key) + Copies(now, n)], Granted)
    case Forget(key, now) => (h - {key}, Silent)
    case Sweep(now) => (h, Silent)
  }

  function HistoryAnswers(c: Config, h: State, es: seq<Event>): seq<Answer>
    decreases |es|
  {
    if es == [] then []
    else
      var (h', a) := HistoryStep(c, h, es[0]);
      (if es[0].Sweep? then [] else [a]) + HistoryAnswers(c, h', es[1..])
  }

  // Every window that starts at start or later shows the same requests.
  ghost predicate SameFrom(w: seq<real>, h: seq<real>, start: real) {
    forall a :: start <= a ==> Recent(w, a) == Recent(h, a)
  }

  ghost predicate Remembers(s: State, h: State, start: real) {
    forall k :: SameFrom(Get(s, k), Get(h, k), start)
  }

  lemma {:induction false} SamePruned(w: seq<real>, h: seq<real>, start: real)
    requires SameFrom(w, h, start)
    ensures SameFrom(Recent(w, start), h, start)
  {
    forall a | start <= a ensures Recent(Recent(w, start), a) == Recent(h, a) {
      RecentTwice(w, start, a);
    }
  }

  lemma {:induction false} SameAdded(w: seq<real>, h: seq<real>, start: real, x: seq<real>)
    requires SameFrom(w, h, start)
    ensures SameFrom(w + x, h + x, start)
  {
    forall a | start <= a ensures Recent(w + x, a) == Recent(h + x, a) {
      RecentConcat(w, x, a);
      RecentConcat(h, x, a);
    }
  }

  lemma {:induction false} SameSwept(w: seq<real>, h: seq<real>, start: real, earlier: real)
    requires SameFrom(w, h, start) && earlier <= start && Recent(w, earlier) == []
    ensures SameFrom([], h, start)
  {
    forall a | start <= a ensures Recent([], a) == Recent(h, a) {
      RecentTwice(w, earlier, a);
    }
  }

  lemma {:induction false} SameLater(w: seq<real>, h: seq<real>, start: real, later: real)
    requires SameFrom(w, h, start) && start <= later
    ensures SameFrom(w, h, later)
  {
  }

  lemma {:induction false} AskFrame(c: Config, s: State, key: string, n: int, now: real)
    ensures forall k :: k != key ==> Get(AskStep(c, s, key, n, now).0, k) == Get(s, k)
  {
  }

  lemma {:induction false} AskRemembers(c: Config, s: State, h: State, key: string, n: int, now: real)
    requires SameFrom(Get(s, key), Get(h, key), now - c.interval)
    requires key in s || |s| < c.maxEntries || n <= 0
    ensures AskStep(c, s, key, n, now).1 == HistoryStep(c, h, Ask(key, n, now)).1
    ensures SameFrom(Get(AskStep(c, s, key, n, now).0, key), Get(HistoryStep(c, h, Ask(key, n, now)).0, key),
                     now - c.interval)
  {
    hide Recent, Copies;
    if n > 0 {
      SamePruned(Get(s, key), Get(h, key), now - c.interval);
      SameAdded(Recent(Get(s, key), now - c.interval), Get(h, key), now - c.interval, Copies(now, n));
      assert Recent(Get(s, key), now - c.interval) == Recent(Get(h, key), now - c.interval);
      hide SameFrom;
    }
  }

  lemma {:induction false} AskElsewhere(c: Config, s: State, h: State, e: Event, k: string)
    requires e.Ask? && e.key != k
    ensures Get(Step(c, s, e).0, k) == Get(s, k) && Get(HistoryStep(c, h, e).0, k) == Get(h, k)
  {
  }

  lemma {:induction false} SweepRemembers(c: Config, s: State, h: State, now: real, k: string)
    requires c.interval > 0.0 && SameFrom(Get(s, k), Get(h, k), now - c.interval)
    ensures SameFrom(Get(Swept(c, s, now), k), Get(h, k), now - c.interval)
  {
    hide Recent;
    if k in s && k !in Swept(c, s, now) {
      SameSwept(s[k], Get(h, k), now - c.interval, now - c.interval * 2.0);
    }
    hide SameFrom;
  }

  // What one event does to one key, seen through its windows.
  lemma {:induction false} KeyRemembers(c: Config, s: State, h: State, e: Event, start: real, k: string)
    requires c.interval > 0.0 && SameFrom(Get(s, k), Get(h, k), start) && start <= e.at - c.interval
    requires Step(c, s, e).1 != AtCapacity
    ensures e.Ask? && e.key == k ==> Step(c, s, e).1 == HistoryStep(c, h, e).1
    ensures SameFrom(Get(Step(c, s, e).0, k), Get(HistoryStep(c, h, e).0, k), e.at - c.interval)
  {
    hide Recent, Copies, Swept;
    SameLater(Get(s, k), Get(h, k), start, e.at - c.interval);
    hide SameFrom;
    if e.Ask? {
      if e.key == k {
        AskRemembers(c, s, h, k, e.n, e.at);
      } else {
        AskElsewhere(c, s, h, e, k);
      }
      hide AskStep;
    } else if e.Sweep? {
      SweepRemembers(c, s, h, e.at, k);
    }
  }

  /** One event on a state and on its history: the same answer, unless the map is full,
      and still the same windows. */
  lemma {:induction false} StepRemembers(c: Config, s: State, h: State, e: Event, start: real)
    requires c.interval > 0.0 && Remembers(s, h, start) && start <= e.at - c.interval
    requires Step(c, s, e).1 != AtCapacity
    ensures Step(c, s, e).1 == HistoryStep(c, h, e).1
    ensures Remembers(Step(c, s, e).0, HistoryStep(c, h, e).0, e.at - c.interval)
  {
    if e.Ask? {
      KeyRemembers(c, s, h, e, start, e.key);
    }
    assert Step(c, s, e).1 == HistoryStep(c, h, e).1;
    hide SameFrom, Step, HistoryStep, Get;
    forall k ensures SameFrom(Get(Step(c, s, e).0, k), Get(HistoryStep(c, h, e).0, k), e.at - c.interval) {
      KeyRemembers(c, s, h, e, start, k);
    }
  }

  /** In every run without a capacity refusal, the limiter that prunes its lists and sweeps
      its map at any moment answers as the one that keeps the whole history. */
  lemma {:induction false} PruningUnobservable(c: Config, s: State, h: State, es: seq<Event>, from: real)
    requires c.interval > 0.0 && Remembers(s, h, from - c.interval) && Timely(es, from)
    requires AtCapacity !in Answers(c, s, es)
    ensures Answers(c, s, es) == HistoryAnswers(c, h, es)
    decreases |es|
  {
    hide Remembers, Step, HistoryStep;
    if es != [] {
      var e := es[0];
      var (s', a) := Step(c, s, e);
      if !e.Sweep? {
        assert a in Answers(c, s, es);
      } else {
        SweepSilent(c, s, e);
      }
      assert forall x :: x in Answers(c, s', es[1..]) ==> x in Answers(c, s, es);
      StepRemembers(c, s, h, e, from - c.interval);
      PruningUnobservable(c, s', HistoryStep(c, h, e).0, es[1..], e.at);
    }
  }

  lemma {:induction false} SweepSilent(c: Config, s: State, e: Event)
    requires e.Sweep?
    ensures Step(c, s, e).1 == Silent
  {
  }

  // ---- the admission bound ----

  // Requests in the window (lo, hi].
  function Within(w: seq<real>, lo: real, hi: real): nat {
    if w == [] then 0 else (if lo < w[0] <= hi then 1 else 0) + Within(w[1..], lo, hi)
  }

  lemma {:induction false} WithinConcat(a: seq<real>, b: seq<real>, lo: real, hi: real)
    ensures Within(a + b, lo, hi) == Within(a, lo, hi) + Within(b, lo, hi)
  {
    if a == [] {
      assert a + b == b;
    } else {
      WithinConcat(a[1..], b, lo, hi);
      assert (a + b)[1..] == a[1..] + b;
    }
  }

  lemma {:induction false} WithinCopies(at: real, n: nat, lo: real, hi: real)
    ensures Within(Copies(at, n), lo, hi) == if lo < at <= hi then n else 0
  {
    if n > 0 {
      WithinCopies(at, n - 1, lo, hi);
      WithinConcat(Copies(at, n - 1), [at], lo, hi);
    }
  }

  // A window that starts no earlier holds no more of what lies in the past.
  lemma {:induction false} WithinRecent(w: seq<real>, lo: real, hi: real, start: real)
    requires start <= lo
    ensures Within(w, lo, hi) <= |Recent(w, start)|
  {
    if w != [] {
      WithinRecent(w[1..], lo, hi, start);
    }
  }

  ghost predicate Bounded(c: Config, w: seq<real>) {
    forall lo, hi :: hi == lo + c.interval ==> Within(w, lo, hi) <= c.rate
  }

  // The times at which a run admits requests of one key.
  function Admitted(c: Config, s: State, es: seq<Event>, key: string): seq<real>
    decreases |es|
  {
    if es == [] then []
    else
      AdmittedBy(c, s, es[0], key) + Admitted(c, Step(c, s, es[0]).0, es[1..], key)
  }

  lemma {:induction false} BoundedGrant(c: Config, h: seq<real>, n: nat, now: real)
    requires c.interval > 0.0 && Bounded(c, h)
    requires |Recent(h, now - c.interval)| + n <= c.rate
    ensures Bounded(c, h + Copies(now, n))
  {
    forall lo, hi | hi == lo + c.interval ensures Within(h + Copies(now, n), lo, hi) <= c.rate {
      WithinConcat(h, Copies(now, n), lo, hi);
      WithinCopies(now, n, lo, hi);
      assert Within(h, lo, hi) <= c.rate;
      if lo < now <= hi {
        WithinRecent(h, lo, hi, now - c.interval);
      }
    }
  }

  // What one event admits of a key.
  function AdmittedBy(c: Config, s: State, e: Event, key: string): seq<real> {
    if e.Ask? && e.key == key && e.n > 0 && Step(c, s, e).1 == Granted then Copies(e.at, e.n) else []
  }

  // One event: the admissions so far stay bounded, and the window still shows them.
  lemma {:induction false} StepBounded(c: Config, s: State, h: seq<real>, e: Event, key: string, start: real)
    requires c.interval > 0.0 && start <= e.at - c.interval && !(e.Forget? && e.key == key)
    requires SameFrom(Get(s, key), h, start) && Bounded(c, h)
    ensures SameFrom(Get(Step(c, s, e).0, key), h + AdmittedBy(c, s, e, key), e.at - c.interval)
    ensures Bounded(c, h + AdmittedBy(c, s, e, key))
  {
    hide Recent, Copies, Bounded;
    var from := e.at - c.interval;
    SameLater(Get(s, key), h, start, from);
    assert h + [] == h;
    match e
    case Ask(k, n, now) =>
      AskFrame(c, s, k, n, now);
      if k == key && n > 0 && (key in s || |s| < c.maxEntries) {
        SamePruned(Get(s, key), h, from);
        SameAdded(Recent(Get(s, key), from), h, from, Copies(now, n));
        if |Recent(h, from)| + n <= c.rate {
          BoundedGrant(c, h, n, now);
        }
      }
      hide SameFrom;
    case Forget(k, now) =>
    case Sweep(now) =>
      if key in s && key !in Swept(c, s, now) {
        SameSwept(s[key], h, from, now - c.interval * 2.0);
      }
      hide SameFrom;
  }

  /** In every run, with sweeps and capacity refusals but no reset of the key, each window
      (t - Interval, t] holds at most Rate admissions. */
  lemma {:induction false} WindowBound(c: Config, s: State, h: seq<real>, es: seq<Event>, key: string, from: real)
    requires c.interval > 0.0 && Timely(es, from) && NoForget(es, key)
    requires SameFrom(Get(s, key), h, from - c.interval) && Bounded(c, h)
    ensures Bounded(c, h + Admitted(c, s, es, key))
    decreases |es|
  {
    hide SameFrom, Bounded, Step, AdmittedBy, Get;
    if es == [] {
      assert h + [] == h;
    } else {
      var e, now := es[0], AdmittedBy(c, s, es[0], key);
      assert e in es;
      var s' := Step(c, s, e).0;
      StepBounded(c, s, h, e, key, from - c.interval);
      WindowBound(c, s', h + now, es[1..], key, e.at);
      Assoc(h, now, Admitted(c, s', es[1..], key));
    }
  }

  // ---- what a sweep removes ----

  /** The cleanup removes a key if and only if it admitted nothing in the last two intervals, and
      leaves the other lists as they are. */
  lemma {:induction false} SweptExactly(c: Config, s: State, now: real, key: string)
    requires key in s
    ensures key !in Swept(c, s, now) <==> forall x :: x in s[key] ==> x <= now - c.interval - c.interval
    ensures forall k :: k in Swept(c, s, now) ==> k in s && Swept(c, s, now)[k] == s[k]
  {
    var start := now - c.interval * 2.0;
    assert start == now - c.interval - c.interval;
    RecentEmpty(s[key], start);
    hide Recent;
  }

  /** What AllowN answers, case by case: a call is refused for its count, or for the room, or
      decided by the window; and a new key takes up room whether it is admitted or not. */
  lemma {:induction false} AnswerExactly(c: Config, s: State, key: string, n: int, now: real)
    requires |s| <= c.maxEntries
    ensures var (s', a) := AskStep(c, s, key, n, now);
            && (a == BadCount <==> n <= 0)
            && (a == AtCapacity <==> n > 0 && key !in s && |s| == c.maxEntries)
            && (a == BadCount || a == AtCapacity ==> s' == s)
            && (a == Granted || a == Denied ==> s'.Keys == s.Keys + {key} && |s'| <= c.maxEntries)
  {
    hide Recent, Copies;
    if key in s {
      assert s.Keys + {key} == s.Keys;
    }
    SizeAfter(s, AskStep(c, s, key, n, now).0, key);
  }

  lemma {:induction false} SizeAfter(s: State, t: State, key: string)
    ensures t.Keys == s.Keys + {key} ==> |t| == |s| + if key in s then 0 else 1
  {
    assert |t| == |t.Keys| && |s| == |s.Keys|;
    if key in s {
      assert s.Keys + {key} == s.Keys;
    }
  }

  // ---- what GetStatus promises ----

  /** AllowN(n) at the instant of GetStatus succeeds iff n <= Remaining, tracked key or not. */
  lemma {:induction false} StatusExact(c: Config, s: State, key: string, n: int, now: real)
    requires n > 0 && c.rate >= 1 && (key in s || |s| < c.maxEntries)
    ensures AskStep(c, s, key, n, now).1 == Granted <==> n <= StatusOf(c, s, key, now).remaining
  {
  }

  /** What Limit and Reset are worth: at the time Reset a request for up to Limit is granted, and
      none for more, if none is made before. */
  lemma {:induction false} LimitAtReset(c: Config, s: State, key: string, n: int, now: real)
    requires n > 0 && (key in s ==> forall x :: x in s[key] ==> x <= now) && (key in s || |s| < c.maxEntries)
    ensures var st := StatusOf(c, s, key, now);
            && st.limit == c.rate && st.reset == now + c.interval
            && (AskStep(c, s, key, n, st.reset).1 == Granted <==> n <= st.limit)
  {
    var w := Get(s, key);
    RecentEmpty(w, now);
    hide Recent;
    assert now + c.interval - c.interval == now;
  }

  /** The wait GetStatus reports is the time until the oldest request leaves, if nothing remains
      of a tracked window with requests, and none otherwise. */
  lemma {:induction false} WaitExactly(c: Config, s: State, key: string, now: real)
    requires Wf(c, s)
    ensures var st := StatusOf(c, s, key, now);
            && (st.retryAfter > 0.0 <==> st.remaining == 0)
            && (st.retryAfter > 0.0 ==>
                  && key in s && now - c.interval + st.retryAfter in s[key]
                  && forall x :: x in s[key] && x > now - c.interval ==> x >= now - c.interval + st.retryAfter)
            && (st.remaining > 0 ==> st.retryAfter == 0.0)
  {
    if key in s {
      RecentMembers(s[key], now - c.interval);
    }
  }

  lemma {:induction false} RecentAll(w: seq<real>, start: real)
    requires forall x :: x in w ==> x > start
    ensures Recent(w, start) == w
  {
    if w != [] {
      assert w == [w[0]] + w[1..];
      assert w[0] in w && forall x :: x in w[1..] ==> x in w;
      RecentAll(w[1..], start);
    }
  }

  lemma {:induction false} RecentDrops(w: seq<real>, start: real, x: real)
    requires x in w && x <= start
    ensures |Recent(w, start)| < |w|
  {
    if w[0] > start {
      RecentDrops(w[1..], start, x);
    }
  }

  // Until the oldest request leaves, the window stays as it is; then it is shorter.
  lemma {:induction false} WindowUntil(c: Config, w: seq<real>, now: real, t: real)
    requires c.interval > 0.0 && now <= t && Recent(w, now - c.interval) != []
    ensures var v := Recent(w, now - c.interval);
            && (t < Oldest(v) + c.interval ==> Recent(w, t - c.interval) == v)
            && (t >= Oldest(v) + c.interval ==> |Recent(w, t - c.interval)| < |v|)
  {
    hide Recent, Oldest;
    var v := Recent(w, now - c.interval);
    RecentTwice(w, now - c.interval, t - c.interval);
    if t < Oldest(v) + c.interval {
      RecentAll(v, t - c.interval);
    } else {
      RecentDrops(v, t - c.interval, Oldest(v));
    }
  }

  // Calls for all keys and sweeps, all of them before a given time, and no reset of one key.
  ghost predicate Waiting(es: seq<Event>, key: string, before: real) {
    NoForget(es, key) && forall e :: e in es ==> e.at < before
  }

  predicate Requests(e: Event, key: string) {
    e.Ask? && e.key == key && e.n > 0
  }

  // The answers to the requests for one key.
  function AnswersTo(c: Config, s: State, es: seq<Event>, key: string): seq<Answer>
    decreases |es|
  {
    if es == [] then []
    else
      var (s', a) := Step(c, s, es[0]);
      (if Requests(es[0], key) then [a] else []) + AnswersTo(c, s', es[1..], key)
  }

  function RunState(c: Config, s: State, es: seq<Event>): State
    decreases |es|
  {
    if es == [] then s else RunState(c, Step(c, s, es[0]).0, es[1..])
  }

  // One event while the window of a key is full.
  lemma {:induction false} FullStep(c: Config, s: State, key: string, w: seq<real>, v: seq<real>, e: Event, start: real)
    requires Valid(c) && key in s && SameFrom(s[key], w, start) && start <= e.at - c.interval
    requires !(e.Forget? && e.key == key)
    requires v != [] && |v| >= c.rate && Recent(w, e.at - c.interval) == v
    ensures Requests(e, key) ==> Step(c, s, e).1 == Denied
    ensures key in Step(c, s, e).0 && SameFrom(Step(c, s, e).0[key], w, e.at - c.interval)
  {
    hide Recent, Copies;
    SameLater(s[key], w, start, e.at - c.interval);
    match e
    case Ask(k, n, now) =>
      if Requests(e, key) {
        SamePruned(s[key], w, e.at - c.interval);
      }
      AskFrame(c, s, k, n, now);
      hide SameFrom;
    case Forget(k, now) =>
      hide SameFrom;
    case Sweep(now) =>
      StaysSwept(c, s, key, now);
      hide SameFrom, Swept;
  }

  // A key with recent requests survives a sweep.
  lemma {:induction false} StaysSwept(c: Config, s: State, key: string, now: real)
    requires c.interval > 0.0 && key in s && Recent(s[key], now - c.interval) != []
    ensures key in Swept(c, s, now) && Swept(c, s, now)[key] == s[key]
  {
    RecentTwice(s[key], now - c.interval * 2.0, now - c.interval);
    RecentNone(now - c.interval);
    hide Recent;
  }

  // While the window w of a refused key is full, nothing happens to it.
  lemma {:induction false} DeniedWhileFull(c: Config, s: State, key: string, w: seq<real>, now: real,
      es: seq<Event>, from: real)
    requires Valid(c) && Recent(w, now - c.interval) != [] && now <= from
    requires |Recent(w, now - c.interval)| >= c.rate
    requires key in s && SameFrom(s[key], w, from - c.interval)
    requires Timely(es, from) && Waiting(es, key, Oldest(Recent(w, now - c.interval)) + c.interval)
    ensures forall a :: a in AnswersTo(c, s, es, key) ==> a == Denied
    ensures var s' := RunState(c, s, es); key in s' && SameFrom(s'[key], w, EndTime(es, from) - c.interval)
    ensures from <= EndTime(es, from)
    decreases |es|
  {
    hide SameFrom, Recent, Step, Oldest, Requests;
    if es != [] {
      var e, v := es[0], Recent(w, now - c.interval);
      assert e in es;
      WindowUntil(c, w, now, e.at);
      FullStep(c, s, key, w, v, e, from - c.interval);
      assert forall x :: x in es[1..] ==> x in es;
      DeniedWhileFull(c, Step(c, s, e).0, key, w, now, es[1..], e.at);
    }
  }

  // What a status with nothing left means for the window.
  lemma {:induction false} NothingLeft(c: Config, s: State, key: string, now: real)
    requires Wf(c, s) && key in s && StatusOf(c, s, key, now).remaining == 0
    ensures var v, d := Recent(s[key], now - c.interval), StatusOf(c, s, key, now).retryAfter;
            v != [] && |v| == c.rate && now + d == Oldest(v) + c.interval && d > 0.0
    ensures Valid(c) && SameFrom(s[key], s[key], now - c.interval)
  {
    RecentMembers(s[key], now - c.interval);
  }

  // When the oldest request leaves, one call is let through.
  lemma {:induction false} FreedUp(c: Config, s: State, key: string, w: seq<real>, now: real, until: real, start: real)
    requires Valid(c) && now <= until && Recent(w, now - c.interval) != []
    requires |Recent(w, now - c.interval)| <= c.rate && until == Oldest(Recent(w, now - c.interval)) + c.interval
    requires key in s && SameFrom(s[key], w, start) && start <= until - c.interval
    ensures AskStep(c, s, key, 1, until).1 == Granted
  {
    hide Recent, Oldest;
    WindowUntil(c, w, now, until);
    SameLater(s[key], w, start, until - c.interval);
    assert Recent(s[key], until - c.interval) == Recent(w, until - c.interval);
    hide SameFrom;
  }

  /** RetryAfter is exact: when GetStatus reports that nothing remains and a wait d, every
      request for the key before now + d is denied, whatever calls for other keys and sweeps
      happen meanwhile, and the first one at now + d is granted. */
  lemma {:induction false} RetryAfterExact(c: Config, s: State, key: string, now: real, es: seq<Event>)
    requires Wf(c, s) && key in s
    requires StatusOf(c, s, key, now).remaining == 0
    requires Timely(es, now) && Waiting(es, key, now + StatusOf(c, s, key, now).retryAfter)
    ensures StatusOf(c, s, key, now).retryAfter > 0.0
    ensures forall a :: a in AnswersTo(c, s, es, key) ==> a == Denied
    ensures AskStep(c, RunState(c, s, es), key, 1, now + StatusOf(c, s, key, now).retryAfter).1 == Granted
  {
    hide StatusOf, Recent, Oldest, AnswersTo, RunState, Wf, SameFrom, AskStep;
    NothingLeft(c, s, key, now);
    var w := s[key];
    var until := now + StatusOf(c, s, key, now).retryAfter;
    DeniedWhileFull(c, s, key, w, now, es, now);
    EndsBefore(es, key, now, until);
    FreedUp(c, RunState(c, s, es), key, w, now, until, EndTime(es, now) - c.interval);
  }

  lemma {:induction false} EndsBefore(es: seq<Event>, key: string, from: real, until: real)
    requires from < until && Waiting(es, key, until)
    ensures EndTime(es, from) < until
  {
    if es != [] {
      assert es[0] in es;
      EndsBefore(es[1..], key, es[0].at, until);
    }
  }

  // ---- the slack limiter ----

  // Prunes the list, and adds the call if there is room.
  function SlackStep(w: seq<real>, limit: int, window: real, now: real): (seq<real>, bool) {
    var v := Recent(w, now - window);
    if |v| < limit then (v + [now], true) else (v, false)
  }

  class SlackSlidingWindow {
    var requests: seq<real>
    const limit: int
    const window: real

    constructor (limit: int, window: real)
      ensures requests == [] && this.limit == limit && this.window == window
    {
      this.requests := [];
      this.limit := limit;
      this.window := window;
    }

    method Allow(now: real) returns (ok: bool)
      modifies this
      ensures (requests, ok) == SlackStep(old(requests), limit, window, now)
    {
      var cutoff := now - window;
      var validRequests: seq<real> := [];
      for i := 0 to |requests|
        invariant requests == old(requests)
        invariant validRequests == Recent(requests[..i], cutoff)
      {
        RecentNext(requests, i, cutoff);
        if requests[i] > cutoff {
          validRequests := validRequests + [requests[i]];
        }
      }
      assert requests[..|requests|] == requests;
      requests := validRequests;
      if |requests| >= limit {
        return false;
      }
      requests := requests + [now];
      return true;
    }
  }

  /** One step of a Slack window is that of the keyed limiter for one key. */
  lemma {:induction false} SlackIsOneKey(c: Config, s: State, key: string, now: real)
    requires key in s
    ensures var (s', a) := AskStep(c, s, key, 1, now);
            var (w, ok) := SlackStep(s[key], c.rate, c.interval, now);
            (a == Granted <==> ok) && s'[key] == w
  {
    assert Copies(now, 1) == [now];
  }

  // The list after calls at the given times, and the times of those let through.
  function SlackRun(limit: int, window: real, times: seq<real>): (seq<real>, seq<real>) {
    if times == [] then ([], [])
    else
      var (w, h) := SlackRun(limit, window, times[..|times| - 1]);
      var now := times[|times| - 1];
      var (v, ok) := SlackStep(w, limit, window, now);
      (v, if ok then h + [now] else h)
  }

  // Every window of the length holds at most so many.
  ghost predicate AtMost(h: seq<real>, limit: int, window: real) {
    Bounded(Config(limit, window, 0, 0), h)
  }

  lemma {:induction false} SlackStepBounded(w: seq<real>, h: seq<real>, limit: int, window: real, now: real)
    requires window > 0.0 && SameFrom(w, h, now - window) && AtMost(h, Max(0, limit), window)
    ensures var (v, ok) := SlackStep(w, limit, window, now);
            var g := if ok then h + [now] else h;
            SameFrom(v, g, now - window) && AtMost(g, Max(0, limit), window)
  {
    var start := now - window;
    assert Recent(w, start) == Recent(h, start);
    hide Recent, Bounded, SameFrom;
    SamePruned(w, h, start);
    if |Recent(h, start)| < limit {
      SameAdded(Recent(w, start), h, start, [now]);
      BoundedGrant(Config(limit, window, 0, 0), h, 1, now);
      assert Copies(now, 1) == [now];
    }
  }

  lemma {:induction false} SlackRemembers(limit: int, window: real, times: seq<real>, now: real)
    requires window > 0.0 && Ascending(times) && (times != [] ==> times[|times| - 1] <= now)
    ensures var (w, h) := SlackRun(limit, window, times);
            SameFrom(w, h, now - window) && AtMost(h, Max(0, limit), window)
  {
    hide Recent, AtMost, SlackStep;
    if times == [] {
      assert AtMost([], Max(0, limit), window) by { NoneAtMost(limit, window); }
    } else {
      var front, last := times[..|times| - 1], times[|times| - 1];
      SlackRemembers(limit, window, front, last);
      var (w, h) := SlackRun(limit, window, front);
      SlackStepBounded(w, h, limit, window, last);
      var (v, g) := SlackRun(limit, window, times);
      SameLater(v, g, last - window, now - window);
    }
  }

  lemma {:induction false} NoneAtMost(limit: int, window: real)
    ensures AtMost([], Max(0, limit), window)
  {
  }

  lemma {:induction false} NothingWithin(h: seq<real>, lo: real, hi: real)
    requires hi <= lo
    ensures Within(h, lo, hi) == 0
  {
    if h != [] {
      NothingWithin(h[1..], lo, hi);
    }
  }

  /** The window bound of the Slack limiter, for any limit and any window: of calls at
      ascending times, every window (t - window, t] holds at most limit that are let through,
      or none if the limit is negative. */
  lemma {:induction false} SlackWindowBound(limit: int, window: real, times: seq<real>)
    requires Ascending(times)
    ensures AtMost(SlackRun(limit, window, times).1, Max(0, limit), window)
  {
    var h := SlackRun(limit, window, times).1;
    if window > 0.0 {
      SlackRemembers(limit, window, times, if times == [] then 0.0 else times[|times| - 1]);
    } else {
      forall lo, hi | hi == lo + window ensures Within(h, lo, hi) <= Max(0, limit) {
        NothingWithin(h, lo, hi);
      }
    }
  }
}

/** What both kinds of rate limiter share: the configuration, and the calls and
    background sweeps that make up a run (oauth/rate_limiter.go). Time is a real
    number of seconds from a clock that never runs backwards. A call is one step here;
    TokenBucketSteps and SlidingWindowSteps take it apart. */
module RateLimiting {

  datatype Config = Config(rate: int, interval: real, burst: int, maxEntries: int)

  predicate Valid(c: Config) {
    c.rate >= 1 && c.interval > 0.0 && c.burst >= 1 && c.maxEntries >= 1
  }

  function WithDefaults(c: Config): (r: Config)
    ensures Valid(r)
    ensures Valid(c) ==> r == c
    ensures c.burst <= 0 ==> r.burst == 2 * r.rate
  {
    var rate := if c.rate <= 0 then 100 else c.rate;
    Config(
      rate,
      if c.interval <= 0.0 then 60.0 else c.interval,
      if c.burst <= 0 then rate * 2 else c.burst,
      if c.maxEntries <= 0 then 10000 else c.maxEntries)
  }

  /** A setting that is not positive is given its default, and no other is touched. */
  lemma {:induction false} DefaultsExactly(c: Config)
    ensures var r := WithDefaults(c);
            && (if c.rate > 0 then r.rate == c.rate else r.rate == 100)
            && (if c.interval > 0.0 then r.interval == c.interval else r.interval == 60.0)
            && (if c.burst > 0 then r.burst == c.burst else r.burst == r.rate + r.rate)
            && (if c.maxEntries > 0 then r.maxEntries == c.maxEntries else r.maxEntries == 10000)
  {
  }

  datatype Event = Ask(key: string, n: int, at: real) | Forget(key: string, at: real) | Sweep(at: real)

  datatype Answer = Granted | Denied | BadCount | AtCapacity | Silent

  // The clock never runs backwards.
  ghost predicate Timely(es: seq<Event>, from: real) {
    es == [] || (from <= es[0].at && Timely(es[1..], es[0].at))
  }

  function EndTime(es: seq<Event>, from: real): real {
    if es == [] then from else EndTime(es[1..], es[0].at)
  }

  function WithoutSweeps(es: seq<Event>): seq<Event> {
    if es == [] then []
    else (if es[0].Sweep? then [] else [es[0]]) + WithoutSweeps(es[1..])
  }

  predicate NoForget(es: seq<Event>, key: string) {
    forall e :: e in es ==> !(e.Forget? && e.key == key)
  }

  predicate NoSweep(es: seq<Event>) {
    forall e :: e in es ==> !e.Sweep?
  }
}

/** How many half-open probes of the OAuth breaker run at once (oauth/circuit_breaker.go:149-206),
    under every interleaving of a given number of goroutines. */
module OauthProbes {
  import opened Options
  import opened Sizes
  import opened OauthBreaker
  import opened OauthBreakerSteps

  // ---- the limit on half-open probes ----

  // Counted by halfOpenRequests: from its increment to its decrement.
  predicate Counted(p: Place) {
    p == Leave || Probing(p)
  }

  predicate Probing(p: Place) {
    p == RunProbe || p.DoneProbe? || (p.Locked? && p.probe)
  }

  function CountedIds(w: World): set<nat> {
    set id | id in w.places && Counted(w.places[id])
  }

  function ProbingIds(w: World): set<nat> {
    set id | id in w.places && Probing(w.places[id])
  }

  // The step sets the counter to zero, which it may not be.
  predicate ClearsCount(w: World, m: Move) {
    var p := At(w, m.id);
    w.probes != 0 && (p == ClearCount || (p.Locked? && p.ops != [] && p.ops[0] == ClearProbes))
  }

  ghost predicate NeverClearsCount(c: Config, w: World, ms: seq<Move>)
    decreases |ms|
  {
    ms == [] || (!ClearsCount(w, ms[0]) && NeverClearsCount(c, Step(c, w, ms[0]), ms[1..]))
  }

  ghost predicate ProbesCounted(c: Config, w: World) {
    w.probes == |CountedIds(w)| && |ProbingIds(w)| <= c.maxHalfOpenRequests
  }

  lemma {:induction false} CountAfter(w: World, w': World, id: nat)
    requires w'.places == w.places[id := At(w', id)]
    ensures CountedIds(w') == if Counted(At(w', id)) then CountedIds(w) + {id} else CountedIds(w) - {id}
    ensures ProbingIds(w') == if Probing(At(w', id)) then ProbingIds(w) + {id} else ProbingIds(w) - {id}
    ensures id in CountedIds(w) <==> Counted(At(w, id))
    ensures id in ProbingIds(w) <==> Probing(At(w, id))
    ensures ProbingIds(w) <= CountedIds(w)
  {
  }

  // A goroutine moves, and the counter changes by what its move adds or takes away.
  lemma {:induction false} CountMove(c: Config, w: World, w': World, id: nat)
    requires ProbesCounted(c, w) && w'.places == w.places[id := At(w', id)]
    requires w'.probes - w.probes == (if Counted(At(w', id)) then 1 else 0) - (if Counted(At(w, id)) then 1 else 0)
    requires Probing(At(w', id)) && !Probing(At(w, id)) ==> w'.probes <= c.maxHalfOpenRequests && !Counted(At(w, id))
    ensures ProbesCounted(c, w')
  {
    CountAfter(w, w', id);
    SubsetSize(ProbingIds(w), CountedIds(w));
    hide CountedIds, ProbingIds;
  }

  lemma {:induction false} StepCountsProbes(c: Config, w: World, m: Move)
    requires ValidConfig(c) && ProbesCounted(c, w) && !ClearsCount(w, m)
    ensures ProbesCounted(c, Step(c, w, m))
  {
    hide ClosedOps, HalfOpenOps, Rest, Effect, ProbesCounted;
    var w' := Step(c, w, m);
    if w' != w {
      CountMove(c, w, w', m.id);
    }
  }

  lemma {:induction false} RunCountsProbes(c: Config, w: World, ms: seq<Move>)
    requires ValidConfig(c) && ProbesCounted(c, w) && NeverClearsCount(c, w, ms)
    ensures ProbesCounted(c, Reached(c, w, ms))
    decreases |ms|
  {
    hide ProbesCounted, ClearsCount, Step;
    if ms != [] {
      StepCountsProbes(c, w, ms[0]);
      RunCountsProbes(c, Step(c, w, ms[0]), ms[1..]);
    }
  }

  lemma {:induction false} StartCounts(c: Config)
    requires ValidConfig(c)
    ensures ProbesCounted(c, START)
  {
  }

  /** In every run from the start in which the counter is only reset while it is zero, it
      counts the probes under way, and at most MaxHalfOpenRequests of them run at once. */
  lemma {:induction false} ProbeLimit(c: Config, ms: seq<Move>)
    requires ValidConfig(c) && NeverClearsCount(c, START, ms)
    ensures var w := Reached(c, START, ms);
            w.probes == |CountedIds(w)| && |ProbingIds(w)| <= c.maxHalfOpenRequests
  {
    hide Reached, CountedIds, ProbingIds;
    StartCounts(c);
    RunCountsProbes(c, START, ms);
  }

  // ---- n goroutines ----

  ghost predicate Among(ms: seq<Move>, n: nat) {
    forall i :: 0 <= i < |ms| ==> ms[i].id < n
  }

  // Reached by the first n goroutines alone.
  ghost predicate Reachable(c: Config, n: nat, w: World) {
    exists ms :: Among(ms, n) && Reached(c, START, ms) == w
  }

  lemma {:induction false} Reach(c: Config, n: nat, w: World, m: Move)
    requires Reachable(c, n, w) && m.id < n
    ensures Reachable(c, n, Step(c, w, m))
  {
    hide Step;
    var ms :| Among(ms, n) && Reached(c, START, ms) == w;
    RunSnoc(c, START, ms, m);
    assert Among(ms + [m], n);
  }

  // A step moves nobody but the one who takes it.
  lemma {:induction false} OthersStay(c: Config, w: World, m: Move)
    ensures forall id: nat :: id != m.id ==> At(Step(c, w, m), id) == At(w, id)
  {
    hide Rest, Effect, ClosedOps, HalfOpenOps;
  }

  // Nobody is anywhere, and the counter is zero.
  ghost predicate Quiet(w: World) {
    w.holder.None? && w.probes == 0 && forall id: nat :: At(w, id) == Idle
  }

  // One goroutine is in its locked section, and nobody else anywhere.
  ghost predicate Lone(w: World, id: nat, ops: seq<Op>) {
    && w.holder == Some(id) && w.probes == 0 && At(w, id) == Locked(ops, false)
    && forall j: nat :: j != id ==> At(w, j) == Idle
  }

  // The section runs to its end.
  lemma {:induction false} SectionRuns(c: Config, n: nat, w: World, id: nat, ops: seq<Op>) returns (u: World)
    requires Reachable(c, n, w) && id < n && Lone(w, id, ops)
    ensures Reachable(c, n, u) && Quiet(u) && u.core == Finish(c, w.core, ops)
    decreases Weight(ops)
  {
    hide Reachable, Effect, Rest;
    var m := Move(id, false, 0.0, false);
    Reach(c, n, w, m);
    OthersStay(c, w, m);
    u := Step(c, w, m);
    if ops != [] {
      RestWeighsLess(c, w.core, ops);
      u := SectionRuns(c, n, u, id, Rest(c, w.core, ops[0]) + ops[1..]);
    }
  }

  // One call in closed mode, by goroutine 0, fails.
  lemma {:induction false} OneFailure(c: Config, n: nat, w: World) returns (u: World)
    requires ValidConfig(c) && n > 0 && Reachable(c, n, w) && Quiet(w) && w.core.mode == Closed && Good(c, w.core)
    ensures Reachable(c, n, u) && Quiet(u) && Good(c, u.core)
    ensures u.core.consecutiveFailures == w.core.consecutiveFailures + 1
    ensures u.core.mode == if u.core.consecutiveFailures >= c.failureThreshold then Open else Closed
  {
    hide Reachable, Finish, Good, ClosedOps;
    var m := Move(0, false, 0.0, false);
    var w1 := Step(c, w, m);
    Reach(c, n, w, m);
    OthersStay(c, w, m);
    var w2 := Step(c, w1, m);
    Reach(c, n, w1, m);
    OthersStay(c, w1, m);
    var w3 := Step(c, w2, m);
    Reach(c, n, w2, m);
    OthersStay(c, w2, m);
    FailureSection(c, w.core, 0.0);
    u := SectionRuns(c, n, w3, 0, ClosedOps(false, 0.0));
  }

  // Goroutine 0 fails until the breaker opens, f failures having been counted.
  lemma {:induction false} OpensByFailures(c: Config, n: nat, w: World) returns (u: World)
    requires ValidConfig(c) && n > 0 && Reachable(c, n, w) && Quiet(w) && w.core.mode == Closed && Good(c, w.core)
    ensures Reachable(c, n, u) && Quiet(u) && u.core.mode == Open
    decreases c.failureThreshold - w.core.consecutiveFailures
  {
    hide Reachable, Quiet;
    u := OneFailure(c, n, w);
    if u.core.mode != Open {
      u := OpensByFailures(c, n, u);
    }
  }

  // Half-open; goroutine 0 has yet to clear the counter, and the next j are probing.
  ghost predicate Probed(w: World, j: nat) {
    && w.core.mode == HalfOpen && w.probes == j && At(w, 0) == ClearCount
    && (forall id: nat :: 1 <= id <= j ==> At(w, id) == RunProbe)
    && (forall id: nat :: id > j && id != 0 ==> At(w, id) == Idle)
  }

  // Goroutine 0 swaps the state and stops before it clears the counter.
  lemma {:induction false} SwapsState(c: Config, n: nat, w: World) returns (u: World)
    requires n > 0 && Reachable(c, n, w) && Quiet(w) && w.core.mode == Open
    ensures Reachable(c, n, u) && Probed(u, 0)
  {
    hide Reachable;
    var m := Move(0, false, w.core.nextRetry + 1.0, false);
    var w1 := Step(c, w, m);
    Reach(c, n, w, m);
    OthersStay(c, w, m);
    var w2 := Step(c, w1, m);
    Reach(c, n, w1, m);
    OthersStay(c, w1, m);
    var w3 := Step(c, w2, m);
    Reach(c, n, w2, m);
    OthersStay(c, w2, m);
    u := Step(c, w3, m);
    Reach(c, n, w3, m);
    OthersStay(c, w3, m);
  }

  // Goroutines 1 to j enter and start their probes.
  lemma {:induction false} ProbesEnter(c: Config, n: nat, w: World, j: nat) returns (u: World)
    requires Reachable(c, n, w) && Probed(w, 0) && j < n && j <= c.maxHalfOpenRequests
    ensures Reachable(c, n, u) && Probed(u, j)
  {
    hide Reachable;
    if j == 0 {
      u := w;
    } else {
      var v := ProbesEnter(c, n, w, j - 1);
      var m := Move(j, false, 0.0, false);
      var v1 := Step(c, v, m);
      Reach(c, n, v, m);
      OthersStay(c, v, m);
      u := Step(c, v1, m);
      Reach(c, n, v1, m);
      OthersStay(c, v1, m);
    }
  }

  lemma {:induction false} StartQuiet(c: Config, n: nat)
    requires ValidConfig(c)
    ensures Reachable(c, n, START) && Quiet(START) && Good(c, START.core)
  {
    assert Among([], n) && Reached(c, START, []) == START;
  }

  function Ids(n: nat): (ids: set<nat>)
    ensures |ids| == n && forall id: nat :: id in ids <==> id < n
  {
    if n == 0 then {} else Ids(n - 1) + {n - 1}
  }

  lemma {:induction false} ManyProbing(w: World, n: nat)
    requires forall id: nat :: id < n ==> Probing(At(w, id))
    ensures |ProbingIds(w)| >= n
  {
    forall id | id in Ids(n) ensures id in ProbingIds(w) {
      assert Probing(At(w, id));
    }
    SubsetSize(Ids(n), ProbingIds(w));
  }

  /** With one goroutine more than MaxHalfOpenRequests the limit can fail, whatever the
      configuration: goroutine 0 opens the breaker, finds the wait over and swaps the state;
      the others fill the limit; and then goroutine 0 clears the counter and enters too. */
  lemma {:induction false} OneProbeTooMany(c: Config, n: nat) returns (w: World)
    requires ValidConfig(c) && n > c.maxHalfOpenRequests
    ensures Reachable(c, n, w) && |ProbingIds(w)| > c.maxHalfOpenRequests
  {
    hide Reachable, ProbingIds, Good, Quiet;
    StartQuiet(c, n);
    var w1 := OpensByFailures(c, n, START);
    var w2 := SwapsState(c, n, w1);
    var w3 := ProbesEnter(c, n, w2, c.maxHalfOpenRequests);
    var m := Move(0, false, 0.0, false);
    var w4 := Step(c, w3, m);
    Reach(c, n, w3, m);
    OthersStay(c, w3, m);
    w := Step(c, w4, m);
    Reach(c, n, w4, m);
    OthersStay(c, w4, m);
    ManyProbing(w, c.maxHalfOpenRequests + 1);
  }

  lemma {:induction false} PlacesAmong(c: Config, w: World, ms: seq<Move>, n: nat)
    requires Among(ms, n) && forall id :: id in w.places ==> id < n
    ensures forall id :: id in Reached(c, w, ms).places ==> id < n
    decreases |ms|
  {
    hide Rest, Effect, ClosedOps, HalfOpenOps;
    if ms != [] {
      PlacesAmong(c, Step(c, w, ms[0]), ms[1..], n);
    }
  }

  lemma {:induction false} FewProbing(w: World, n: nat)
    requires forall id :: id in w.places ==> id < n
    ensures |ProbingIds(w)| <= n
  {
    SubsetSize(ProbingIds(w), Ids(n));
  }

  ghost predicate LimitHolds(c: Config, w: World) {
    |ProbingIds(w)| <= c.maxHalfOpenRequests
  }

  /** The limit, exactly. At most MaxHalfOpenRequests probes of n goroutines run at once, in
      every interleaving of their calls and resets, if and only if there are no more than
      that many goroutines: overlap defeats the limit in every configuration. */
  lemma {:induction false} ProbeLimitExactly(c: Config, n: nat)
    requires ValidConfig(c)
    ensures (forall ms :: Among(ms, n) ==> LimitHolds(c, Reached(c, START, ms))) <==> n <= c.maxHalfOpenRequests
  {
    hide Reached, ProbingIds;
    if n <= c.maxHalfOpenRequests {
      forall ms | Among(ms, n) ensures LimitHolds(c, Reached(c, START, ms)) {
        PlacesAmong(c, START, ms, n);
        FewProbing(Reached(c, START, ms), n);
      }
    } else {
      var w := OneProbeTooMany(c, n);
      var ms :| Among(ms, n) && Reached(c, START, ms) == w;
      assert !LimitHolds(c, Reached(c, START, ms));
    }
  }
}

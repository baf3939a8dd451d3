/** The OAuth circuit breaker (oauth/circuit_breaker.go) under every interleaving of any
    number of goroutines. A step is one atomic access, one locking or unlocking, or one
    run of fn; the state is swapped and compared without the lock, as in the source. */
module OauthBreakerSteps {
  import opened Options
  import opened OauthBreaker

  // The fields that the locked sections and the state swaps touch.
  datatype Core = Core(
    mode: Mode,
    requests: int, totalSuccesses: int, totalFailures: int,
    consecutiveSuccesses: int, consecutiveFailures: int,
    nextRetry: real)

  // One statement of a locked section.
  datatype Op =
    | AddRequest | AddSuccess | AddFailure
    | AddConsecutiveSuccess | AddConsecutiveFailure | ClearConsecutiveSuccesses | ClearConsecutiveFailures
    | OpenIfReached(at: real) | CloseIfReached
    | Swap(mode: Mode) | SetRetry(at: real)
    | ClearRequests | ClearSuccesses | ClearFailures | ClearProbes

  function ClosedOps(ok: bool, now: real): seq<Op> {
    if ok then [AddRequest, AddSuccess, AddConsecutiveSuccess, ClearConsecutiveFailures]
    else [AddRequest, AddFailure, AddConsecutiveFailure, ClearConsecutiveSuccesses, OpenIfReached(now)]
  }

  function HalfOpenOps(c: Config, ok: bool, now: real): seq<Op> {
    if ok then [AddRequest, AddSuccess, AddConsecutiveSuccess, CloseIfReached]
    else [AddRequest, AddFailure, ClearConsecutiveSuccesses, Swap(Open), SetRetry(now + c.timeout)]
  }

  const RESET_OPS: seq<Op> := [
    Swap(Closed), ClearRequests, ClearSuccesses, ClearFailures,
    ClearConsecutiveSuccesses, ClearConsecutiveFailures, ClearProbes, SetRetry(0.0)]

  function Effect(op: Op, k: Core): Core {
    match op
    case AddRequest => k.(requests := k.requests + 1)
    case AddSuccess => k.(totalSuccesses := k.totalSuccesses + 1)
    case AddFailure => k.(totalFailures := k.totalFailures + 1)
    case AddConsecutiveSuccess => k.(consecutiveSuccesses := k.consecutiveSuccesses + 1)
    case AddConsecutiveFailure => k.(consecutiveFailures := k.consecutiveFailures + 1)
    case ClearConsecutiveSuccesses => k.(consecutiveSuccesses := 0)
    case ClearConsecutiveFailures => k.(consecutiveFailures := 0)
    case Swap(mode) => k.(mode := mode)
    case SetRetry(at) => k.(nextRetry := at)
    case ClearRequests => k.(requests := 0)
    case ClearSuccesses => k.(totalSuccesses := 0)
    case ClearFailures => k.(totalFailures := 0)
    case _ => k
  }

  // The statements a statement expands to, once its condition has been read.
  function Rest(c: Config, k: Core, op: Op): seq<Op> {
    match op
    case OpenIfReached(now) =>
      if k.consecutiveFailures >= c.failureThreshold then [Swap(Open), SetRetry(now + c.timeout)] else []
    case CloseIfReached =>
      if k.consecutiveSuccesses >= c.successThreshold then [Swap(Closed), ClearConsecutiveFailures] else []
    case _ => []
  }

  // Where a goroutine is.
  datatype Place =
    | Idle
    | RunClosed | DoneClosed(ok: bool)              // callClosed before and after fn
    | ReadRetry | CheckRetry(retry: real) | TryCas | ClearCount  // callOpen
    | Enter | Leave | RunProbe | DoneProbe(ok: bool) // callHalfOpen before its lock
    | WantReset
    | Locked(ops: seq<Op>, probe: bool)             // inside the lock, with what is left to do

  datatype World = World(core: Core, probes: int, holder: Option<nat>, places: map<nat, Place>)

  // What a schedule chooses for one step: who moves, what fn returns, the clock, and
  // whether an idle goroutine calls Reset instead of Call.
  datatype Move = Move(id: nat, ok: bool, now: real, reset: bool)

  function At(w: World, id: nat): Place {
    if id in w.places then w.places[id] else Idle
  }

  function GoTo(w: World, id: nat, p: Place): World {
    w.(places := w.places[id := p])
  }

  function Lock(w: World, id: nat, ops: seq<Op>, probe: bool): World {
    if w.holder.None? then GoTo(w.(holder := Some(id)), id, Locked(ops, probe)) else w
  }

  function Step(c: Config, w: World, m: Move): World {
    match At(w, m.id)
    case Idle =>
      if m.reset then GoTo(w, m.id, WantReset)
      else GoTo(w, m.id, match w.core.mode case Closed => RunClosed case Open => ReadRetry case HalfOpen => Enter)
    case RunClosed => GoTo(w, m.id, DoneClosed(m.ok))
    case DoneClosed(ok) => Lock(w, m.id, ClosedOps(ok, m.now), false)
    case ReadRetry => if w.holder.None? then GoTo(w, m.id, CheckRetry(w.core.nextRetry)) else w
    case CheckRetry(retry) => GoTo(w, m.id, if m.now > retry then TryCas else Idle)
    case TryCas =>
      if w.core.mode == Open then GoTo(w.(core := w.core.(mode := HalfOpen)), m.id, ClearCount)
      else GoTo(w, m.id, Idle)
    case ClearCount => GoTo(w.(probes := 0), m.id, Enter)
    case Enter =>
      GoTo(w.(probes := w.probes + 1), m.id, if w.probes + 1 > c.maxHalfOpenRequests then Leave else RunProbe)
    case Leave => GoTo(w.(probes := w.probes - 1), m.id, Idle)
    case RunProbe => GoTo(w, m.id, DoneProbe(m.ok))
    case DoneProbe(ok) => Lock(w, m.id, HalfOpenOps(c, ok, m.now), true)
    case WantReset => Lock(w, m.id, RESET_OPS, false)
    case Locked(ops, probe) =>
      if ops == [] then GoTo(w.(holder := None), m.id, if probe then Leave else Idle)
      else
        GoTo(w.(core := Effect(ops[0], w.core), probes := if ops[0] == ClearProbes then 0 else w.probes),
          m.id, Locked(Rest(c, w.core, ops[0]) + ops[1..], probe))
  }

  function Reached(c: Config, w: World, ms: seq<Move>): World
    decreases |ms|
  {
    if ms == [] then w else Reached(c, Step(c, w, ms[0]), ms[1..])
  }

  lemma {:induction false} RunSnoc(c: Config, w: World, ms: seq<Move>, m: Move)
    ensures Reached(c, w, ms + [m]) == Step(c, Reached(c, w, ms), m)
    decreases |ms|
  {
    hide Step;
    if ms == [] {
      assert [] + [m] == [m] && [m][1..] == [];
      assert Reached(c, w, [m]) == Reached(c, Step(c, w, m), []);
    } else {
      assert (ms + [m])[1..] == ms[1..] + [m];
      RunSnoc(c, Step(c, w, ms[0]), ms[1..], m);
    }
  }

  const START: World := World(Core(Closed, 0, 0, 0, 0, 0, 0.0), 0, None, map[])

  // ---- what holds whenever the lock is free ----

  predicate Good(c: Config, k: Core) {
    k.requests == k.totalSuccesses + k.totalFailures
    && (k.mode == Closed ==> k.consecutiveFailures < c.failureThreshold)
  }

  // How much longer a locked section can be once its conditions are read.
  function Weight(ops: seq<Op>): nat {
    if ops == [] then 0 else (if ops[0].OpenIfReached? || ops[0].CloseIfReached? then 3 else 1) + Weight(ops[1..])
  }

  lemma {:induction false} WeightConcat(a: seq<Op>, b: seq<Op>)
    ensures Weight(a + b) == Weight(a) + Weight(b)
  {
    if a == [] {
      assert a + b == b;
    } else {
      WeightConcat(a[1..], b);
      assert (a + b)[1..] == a[1..] + b;
    }
  }

  lemma {:induction false} RestWeighsLess(c: Config, k: Core, ops: seq<Op>)
    requires ops != []
    ensures Weight(Rest(c, k, ops[0]) + ops[1..]) < Weight(ops)
  {
    var r := Rest(c, k, ops[0]);
    WeightConcat(r, ops[1..]);
    assert |r| == 2 ==> r[1..] == [r[1]] && r[1..][1..] == [];
  }

  // The core as it will be when a locked section is done, if nobody else moves.
  function Finish(c: Config, k: Core, ops: seq<Op>): Core
    decreases Weight(ops)
  {
    if ops == [] then k
    else
      RestWeighsLess(c, k, ops);
      Finish(c, Effect(ops[0], k), Rest(c, k, ops[0]) + ops[1..])
  }

  // The same but for a swap from open to half-open made without the lock.
  predicate Swapped(j: Core, k: Core) {
    j == k || (j.mode == Open && k == j.(mode := HalfOpen))
  }

  lemma {:induction false} FinishSwapped(c: Config, j: Core, k: Core, ops: seq<Op>)
    requires Swapped(j, k)
    ensures Swapped(Finish(c, j, ops), Finish(c, k, ops))
    decreases Weight(ops)
  {
    if ops != [] {
      RestWeighsLess(c, j, ops);
      FinishSwapped(c, Effect(ops[0], j), Effect(ops[0], k), Rest(c, j, ops[0]) + ops[1..]);
    }
  }

  // What the holder of the lock has left to do.
  function Pending(w: World): seq<Op> {
    if w.holder.Some? && At(w, w.holder.value).Locked? then At(w, w.holder.value).ops else []
  }

  // Exactly the holder is inside the lock, and once it is done all is well.
  ghost predicate Inv(c: Config, w: World) {
    && (forall id: nat :: At(w, id).Locked? <==> w.holder == Some(id))
    && Good(c, Finish(c, w.core, Pending(w)))
  }

  lemma {:induction false} FinishOne(c: Config, k: Core, ops: seq<Op>)
    requires ops != []
    ensures Finish(c, k, ops) == Finish(c, Effect(ops[0], k), Rest(c, k, ops[0]) + ops[1..])
  {
  }

  lemma {:induction false} FinishStep(c: Config, k: Core, op: Op, ops: seq<Op>)
    requires !op.OpenIfReached? && !op.CloseIfReached?
    ensures Finish(c, k, [op] + ops) == Finish(c, Effect(op, k), ops)
  {
    assert ([op] + ops)[1..] == ops && [] + ops == ops;
  }

  lemma {:induction false} FinishTwo(c: Config, k: Core, a: Op, b: Op)
    requires !a.OpenIfReached? && !a.CloseIfReached? && !b.OpenIfReached? && !b.CloseIfReached?
    ensures Finish(c, k, [a, b]) == Effect(b, Effect(a, k))
  {
    FinishStep(c, k, a, [b]);
    FinishStep(c, Effect(a, k), b, []);
    assert [a] + [b] == [a, b] && [b] + [] == [b];
  }

  lemma {:induction false} FinishThree(c: Config, k: Core, a: Op, b: Op, d: Op, ops: seq<Op>)
    requires !a.OpenIfReached? && !a.CloseIfReached? && !b.OpenIfReached? && !b.CloseIfReached?
    requires !d.OpenIfReached? && !d.CloseIfReached?
    ensures Finish(c, k, [a, b, d] + ops) == Finish(c, Effect(d, Effect(b, Effect(a, k))), ops)
  {
    assert [a, b, d] + ops == [a] + ([b] + ([d] + ops));
    FinishStep(c, k, a, [b] + ([d] + ops));
    FinishStep(c, Effect(a, k), b, [d] + ops);
    FinishStep(c, Effect(b, Effect(a, k)), d, ops);
  }

  // Each locked section, run to its end on a good core, leaves a good core.
  lemma {:induction false} ClosedSection(c: Config, k: Core, ok: bool, now: real)
    requires ValidConfig(c) && Good(c, k)
    ensures Good(c, Finish(c, k, ClosedOps(ok, now)))
  {
    if ok {
      var ops := ClosedOps(true, now);
      assert ops == [AddRequest, AddSuccess, AddConsecutiveSuccess] + [ClearConsecutiveFailures];
      FinishThree(c, k, AddRequest, AddSuccess, AddConsecutiveSuccess, [ClearConsecutiveFailures]);
      assert [ClearConsecutiveFailures] + [] == [ClearConsecutiveFailures];
      var k3 := Effect(AddConsecutiveSuccess, Effect(AddSuccess, Effect(AddRequest, k)));
      FinishStep(c, k3, ClearConsecutiveFailures, []);
    } else {
      FailureSection(c, k, now);
    }
  }

  lemma {:induction false} FailureSection(c: Config, k: Core, now: real)
    requires ValidConfig(c) && Good(c, k)
    ensures var f := Finish(c, k, ClosedOps(false, now));
            && Good(c, f) && f.consecutiveFailures == k.consecutiveFailures + 1
            && f.mode == if f.consecutiveFailures >= c.failureThreshold then Open else k.mode
  {
    var last := OpenIfReached(now);
    assert ClosedOps(false, now)
        == [AddRequest, AddFailure, AddConsecutiveFailure] + ([ClearConsecutiveSuccesses] + [last]);
    FinishThree(c, k, AddRequest, AddFailure, AddConsecutiveFailure, [ClearConsecutiveSuccesses] + [last]);
    var k3 := Effect(AddConsecutiveFailure, Effect(AddFailure, Effect(AddRequest, k)));
    FinishStep(c, k3, ClearConsecutiveSuccesses, [last]);
    var k4 := Effect(ClearConsecutiveSuccesses, k3);
    assert [last][1..] == [];
    FinishOne(c, k4, [last]);
    assert Rest(c, k4, last) + [] == Rest(c, k4, last);
    if k4.consecutiveFailures >= c.failureThreshold {
      FinishTwo(c, k4, Swap(Open), SetRetry(now + c.timeout));
    } else {
      FinishNothing(c, k4);
    }
  }

  lemma {:induction false} ProbeSection(c: Config, k: Core, ok: bool, now: real)
    requires ValidConfig(c) && Good(c, k)
    ensures Good(c, Finish(c, k, HalfOpenOps(c, ok, now)))
  {
    var ops := HalfOpenOps(c, ok, now);
    FinishThree(c, k, ops[0], ops[1], ops[2], ops[3..]);
    assert ops == [ops[0], ops[1], ops[2]] + ops[3..];
    var k3 := Effect(ops[2], Effect(ops[1], Effect(ops[0], k)));
    if ok {
      assert ops[3..] == [CloseIfReached] && [CloseIfReached][1..] == [];
      FinishOne(c, k3, [CloseIfReached]);
      assert Rest(c, k3, CloseIfReached) + [] == Rest(c, k3, CloseIfReached);
      FinishTwo(c, k3, Swap(Closed), ClearConsecutiveFailures);
    } else {
      assert ops[3..] == [Swap(Open), SetRetry(now + c.timeout)];
      FinishTwo(c, k3, Swap(Open), SetRetry(now + c.timeout));
    }
  }

  lemma {:induction false} ResetSection(c: Config, k: Core)
    requires ValidConfig(c)
    ensures Good(c, Finish(c, k, RESET_OPS))
  {
    var ops := RESET_OPS;
    assert ops == [ops[0], ops[1], ops[2]] + ops[3..];
    FinishThree(c, k, ops[0], ops[1], ops[2], ops[3..]);
    var k3 := Effect(ops[2], Effect(ops[1], Effect(ops[0], k)));
    assert ops[3..] == [ops[3], ops[4], ops[5]] + ops[6..];
    FinishThree(c, k3, ops[3], ops[4], ops[5], ops[6..]);
    var k6 := Effect(ops[5], Effect(ops[4], Effect(ops[3], k3)));
    assert ops[6..] == [ops[6], ops[7]];
    FinishTwo(c, k6, ops[6], ops[7]);
  }

  // A step outside the lock that leaves core and holder alone.
  lemma {:induction false} MoveElsewhere(c: Config, w: World, id: nat, p: Place, probes: int)
    requires Inv(c, w) && !At(w, id).Locked? && !p.Locked?
    ensures Inv(c, GoTo(w.(probes := probes), id, p))
  {
  }

  lemma {:induction false} TakeLock(c: Config, w: World, id: nat, ops: seq<Op>, probe: bool)
    requires Inv(c, w) && !At(w, id).Locked?
    requires w.holder.None? ==> Good(c, Finish(c, w.core, ops))
    ensures Inv(c, Lock(w, id, ops, probe))
  {
  }

  lemma {:induction false} FreeIsGood(c: Config, w: World)
    requires Inv(c, w) && w.holder.None?
    ensures Good(c, w.core)
  {
  }

  lemma {:induction false} CasStep(c: Config, w: World, id: nat)
    requires Inv(c, w) && !At(w, id).Locked? && w.core.mode == Open
    ensures Inv(c, GoTo(w.(core := w.core.(mode := HalfOpen)), id, ClearCount))
  {
    var w' := GoTo(w.(core := w.core.(mode := HalfOpen)), id, ClearCount);
    FinishSwapped(c, w.core, w'.core, Pending(w));
    hide Finish;
    assert forall i :: At(w', i) == if i == id then ClearCount else At(w, i);
    assert Pending(w') == Pending(w);
  }

  lemma {:induction false} LockedStep(c: Config, w: World, m: Move)
    requires Inv(c, w) && At(w, m.id).Locked?
    ensures Inv(c, Step(c, w, m))
  {
  }

  lemma {:induction false} FinishNothing(c: Config, k: Core)
    ensures Finish(c, k, []) == k
  {
  }

  /** Every step of every goroutine keeps the invariant. */
  lemma {:induction false} StepKeepsInv(c: Config, w: World, m: Move)
    requires ValidConfig(c) && Inv(c, w)
    ensures Inv(c, Step(c, w, m))
  {
    hide Inv, Finish, Good, ClosedOps, HalfOpenOps, Lock;
    if w.holder.None? {
      FreeIsGood(c, w);
    }
    match At(w, m.id)
    case DoneClosed(ok) =>
      if w.holder.None? {
        ClosedSection(c, w.core, ok, m.now);
      }
      TakeLock(c, w, m.id, ClosedOps(ok, m.now), false);
    case DoneProbe(ok) =>
      if w.holder.None? {
        ProbeSection(c, w.core, ok, m.now);
      }
      TakeLock(c, w, m.id, HalfOpenOps(c, ok, m.now), true);
    case WantReset =>
      ResetSection(c, w.core);
      TakeLock(c, w, m.id, RESET_OPS, false);
    case TryCas =>
      if w.core.mode == Open {
        CasStep(c, w, m.id);
      } else {
        MoveElsewhere(c, w, m.id, Idle, w.probes);
      }
    case Locked(ops, probe) =>
      LockedStep(c, w, m);
    case _ =>
      var w' := Step(c, w, m);
      if w' != w {
        MoveElsewhere(c, w, m.id, At(w', m.id), w'.probes);
        assert w' == GoTo(w.(probes := w'.probes), m.id, At(w', m.id));
      }
  }

  lemma {:induction false} RunKeepsInv(c: Config, w: World, ms: seq<Move>)
    requires ValidConfig(c) && Inv(c, w)
    ensures Inv(c, Reached(c, w, ms))
    decreases |ms|
  {
    if ms != [] {
      StepKeepsInv(c, w, ms[0]);
      RunKeepsInv(c, Step(c, w, ms[0]), ms[1..]);
    }
  }

  /** Under every interleaving, whenever the lock is free: the requests are the successes
      and the failures together, and a closed breaker has fewer than FailureThreshold
      consecutive failures, in spite of late completions and of the swap outside the lock. */
  lemma {:induction false} EveryInterleaving(c: Config, ms: seq<Move>)
    requires ValidConfig(c)
    ensures var w := Reached(c, START, ms);
            w.holder.None? ==>
              && w.core.requests == w.core.totalSuccesses + w.core.totalFailures
              && (w.core.mode == Closed ==> w.core.consecutiveFailures < c.failureThreshold)
  {
    FinishNothing(c, START.core);
    RunKeepsInv(c, START, ms);
    if Reached(c, START, ms).holder.None? {
      FreeIsGood(c, Reached(c, START, ms));
    }
  }
}

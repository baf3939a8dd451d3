/** One key of the token-bucket limiter when calls overlap (oauth/rate_limiter.go:88-195).
    AllowN finds the bucket under the limiter's lock, lets go of it, and takes the tokens under
    the bucket's own lock; a cleanup or a reset may come in between. Other keys matter only
    for whether there is room for a new bucket. */
module TokenBucketSteps {
  import opened Options
  import opened Numbers
  import opened Sizes
  import opened RateLimiting
  import opened TokenBucket

  // Where a goroutine is: between the two locks it holds a bucket, by its number.
  datatype Place = Free | Between(n: int, cell: nat)

  // The bucket in the map, all buckets ever made, and the tokens granted so far.
  datatype World = World(slot: Option<nat>, cells: seq<Bucket>, places: map<nat, Place>, now: real, granted: int)

  datatype Move =
    | Find(id: nat, n: int, room: bool)   // under the limiter's lock
    | Take(id: nat)                       // under the bucket's lock
    | Clean(at: real)                     // the cleanup looks at the key, at a time read before
    | Reset
    | Tick(now: real)

  function At(w: World, id: nat): Place {
    if id in w.places then w.places[id] else Free
  }

  function Full(c: Config, w: World): Bucket {
    Bucket(c.burst as real, w.now)
  }

  function Taken(c: Config, b: Bucket, n: int, now: real): (Bucket, bool)
    requires Valid(c)
  {
    var tokens := Refilled(b, c.burst as real, PerSecond(c), now);
    if tokens >= n as real then (Bucket(tokens - n as real, now), true) else (Bucket(tokens, now), false)
  }

  // The cleanup removes the bucket.
  predicate Removes(c: Config, w: World, at: real) {
    at <= w.now && w.slot.Some? && w.slot.value < |w.cells| && Idle(c, w.cells[w.slot.value], at)
  }

  function Step(c: Config, w: World, m: Move): World
    requires Valid(c)
  {
    match m
    case Find(id, n, room) =>
      if At(w, id) != Free || n <= 0 then w
      else if w.slot.Some? then w.(places := w.places[id := Between(n, w.slot.value)])
      else if !room then w
      else w.(slot := Some(|w.cells|), cells := w.cells + [Full(c, w)], places := w.places[id := Between(n, |w.cells|)])
    case Take(id) => (
      match At(w, id)
      case Free => w
      case Between(n, i) =>
        if i >= |w.cells| then w
        else
          var (b, ok) := Taken(c, w.cells[i], n, w.now);
          w.(cells := w.cells[i := b], places := w.places[id := Free],
             granted := if ok then w.granted + n else w.granted))
    case Clean(at) => if Removes(c, w, at) then w.(slot := None) else w
    case Reset => w.(slot := None)
    case Tick(now) => if now >= w.now then w.(now := now) else w
  }

  function Run(c: Config, w: World, ms: seq<Move>): World
    requires Valid(c)
    decreases |ms|
  {
    if ms == [] then w else Step(c, Run(c, w, ms[..|ms| - 1]), ms[|ms| - 1])
  }

  // ---- the level ----

  // The tokens the key has at a time, if nobody takes any: those of its bucket after a refill,
  // or a full bucket without one.
  function LevelAt(c: Config, w: World, t: real): real
    requires Valid(c)
  {
    if w.slot.Some? && w.slot.value < |w.cells|
    then Refilled(w.cells[w.slot.value], c.burst as real, PerSecond(c), t) else c.burst as real
  }

  function KeyLevel(c: Config, w: World): real
    requires Valid(c)
  {
    LevelAt(c, w, w.now)
  }

  // A goroutine between the locks with a bucket that is no longer in the map, and a request
  // that the bucket can satisfy.
  predicate Strays(c: Config, slot: Option<nat>, p: Place) {
    p.Between? && p.n <= c.burst && slot != Some(p.cell)
  }

  ghost predicate Sane(c: Config, w: World) {
    && Valid(c)
    && (w.slot.Some? ==> w.slot.value < |w.cells|)
    && (forall i :: 0 <= i < |w.cells| ==> Sound(c, w.cells[i], w.now))
    && (forall id: nat :: At(w, id).Between? ==> At(w, id).n > 0 && At(w, id).cell < |w.cells|)
  }

  ghost predicate Inv(c: Config, w: World) {
    Sane(c, w) && forall id: nat :: !Strays(c, w.slot, At(w, id))
  }

  // Granted already, and still to be had at once.
  function Potential(c: Config, w: World): real
    requires Valid(c)
  {
    w.granted as real + KeyLevel(c, w)
  }

  lemma {:induction false} TakenLevel(c: Config, b: Bucket, n: int, now: real)
    requires Valid(c) && Sound(c, b, now) && n > 0
    ensures var (b', ok) := Taken(c, b, n, now);
            var r := PerSecond(c);
            && Sound(c, b', now)
            && (ok ==> n <= c.burst)
            && Refilled(b', c.burst as real, r, now) + (if ok then n as real else 0.0)
               == Refilled(b, c.burst as real, r, now)
  {
    hide Inflow, PerSecond;
    InflowLinear(0.0, now - b.last, PerSecond(c));
  }

  lemma {:induction false} TakeStep(c: Config, w: World, id: nat)
    requires Inv(c, w)
    ensures Inv(c, Step(c, w, Take(id))) && Potential(c, Step(c, w, Take(id))) == Potential(c, w)
  {
    hide Taken, Refilled, Sound;
    if At(w, id).Between? {
      var p, v := At(w, id), Step(c, w, Take(id));
      TakenLevel(c, w.cells[p.cell], p.n, w.now);
      assert forall j: nat :: At(v, j) == if j == id then Free else At(w, j);
    }
  }

  lemma {:induction false} FullLevel(c: Config, now: real)
    requires Valid(c)
    ensures var b := Bucket(c.burst as real, now);
            Sound(c, b, now) && Refilled(b, c.burst as real, PerSecond(c), now) == c.burst as real
  {
    hide Inflow, PerSecond;
    InflowLinear(0.0, 0.0, PerSecond(c));
  }

  lemma {:induction false} FindStep(c: Config, w: World, id: nat, n: int, room: bool)
    requires Inv(c, w)
    ensures Inv(c, Step(c, w, Find(id, n, room)))
    ensures Potential(c, Step(c, w, Find(id, n, room))) == Potential(c, w)
  {
    hide Refilled, Sound;
    var v := Step(c, w, Find(id, n, room));
    FullLevel(c, w.now);
    if v != w {
      assert forall j: nat :: At(v, j) == if j == id then At(v, id) else At(w, j);
    }
  }

  lemma {:induction false} TickLevel(c: Config, b: Bucket, now: real, later: real)
    requires Valid(c) && Sound(c, b, now) && now <= later
    ensures Sound(c, b, later)
    ensures var r := PerSecond(c);
            Refilled(b, c.burst as real, r, later) <= Refilled(b, c.burst as real, r, now) + Inflow(later - now, r)
  {
    hide Inflow, PerSecond;
    InflowLinear(now - b.last, later - now, PerSecond(c));
    assert (now - b.last) + (later - now) == later - b.last;
    InflowLinear(0.0, later - now, PerSecond(c));
  }

  lemma {:induction false} TickStep(c: Config, w: World, now: real)
    requires Inv(c, w)
    ensures var v := Step(c, w, Tick(now));
            Inv(c, v) && v.now >= w.now
            && Potential(c, v) <= Potential(c, w) + Inflow(v.now - w.now, PerSecond(c))
  {
    hide Refilled, Sound, Inflow, PerSecond;
    var v := Step(c, w, Tick(now));
    assert forall j: nat :: At(v, j) == At(w, j);
    InflowLinear(0.0, v.now - w.now, PerSecond(c));
    forall i | 0 <= i < |w.cells| ensures Sound(c, w.cells[i], v.now) {
      TickLevel(c, w.cells[i], w.now, v.now);
    }
    if w.slot.Some? {
      TickLevel(c, w.cells[w.slot.value], w.now, v.now);
    }
  }

  // A bucket the cleanup may remove is full.
  lemma {:induction false} IdleIsFull(c: Config, b: Bucket, at: real, now: real)
    requires Valid(c) && Sound(c, b, now) && c.burst <= 2 * c.rate && Idle(c, b, at) && at <= now
    ensures Refilled(b, c.burst as real, PerSecond(c), now) == c.burst as real
  {
    hide Inflow, PerSecond;
    InflowLinear(c.interval, c.interval, PerSecond(c));
    InflowLinear(c.interval + c.interval, now - b.last, PerSecond(c));
  }

  // Nobody who could still be satisfied holds the bucket that is in the map.
  predicate Unheld(c: Config, w: World) {
    forall id :: id in w.places ==> !Strays(c, None, w.places[id])
  }

  lemma {:induction false} CleanStep(c: Config, w: World, at: real)
    requires Inv(c, w) && c.burst <= 2 * c.rate && (Removes(c, w, at) ==> Unheld(c, w))
    ensures Inv(c, Step(c, w, Clean(at))) && Potential(c, Step(c, w, Clean(at))) == Potential(c, w)
  {
    hide Refilled, Sound, Idle;
    var v := Step(c, w, Clean(at));
    assert forall j: nat :: At(v, j) == At(w, j);
    if Removes(c, w, at) {
      IdleIsFull(c, w.cells[w.slot.value], at, w.now);
      forall j: nat ensures !Strays(c, None, At(w, j)) {
        assert j in w.places ==> !Strays(c, None, w.places[j]);
      }
    }
  }

  // ---- runs ----

  // No reset, and the cleanup removes nothing that is held.
  ghost predicate Harmless(c: Config, w: World, m: Move) {
    !m.Reset? && (m.Clean? && Removes(c, w, m.at) ==> Unheld(c, w) && c.burst <= 2 * c.rate)
  }

  ghost predicate HarmlessRun(c: Config, w: World, ms: seq<Move>)
    requires Valid(c)
  {
    forall n :: 0 <= n < |ms| ==> Harmless(c, Run(c, w, ms[..n]), ms[n])
  }

  lemma {:induction false} StepBound(c: Config, w: World, m: Move)
    requires Inv(c, w) && Harmless(c, w, m)
    ensures var v := Step(c, w, m);
            Inv(c, v) && v.now >= w.now
            && Potential(c, v) <= Potential(c, w) + Inflow(v.now - w.now, PerSecond(c))
  {
    hide Inv, Potential, Inflow, PerSecond, Taken, Unheld;
    assert Valid(c) by { InvValid(c, w); }
    InflowLinear(0.0, 0.0, PerSecond(c));
    match m
    case Find(id, n, room) => FindStep(c, w, id, n, room);
    case Take(id) => TakeStep(c, w, id);
    case Clean(at) =>
      if Removes(c, w, at) {
        CleanStep(c, w, at);
      }
    case Tick(now) => TickStep(c, w, now);
  }

  lemma {:induction false} InvValid(c: Config, w: World)
    requires Inv(c, w)
    ensures Valid(c)
  {
  }

  lemma {:induction false} RunBound(c: Config, w: World, ms: seq<Move>)
    requires Inv(c, w) && HarmlessRun(c, w, ms)
    ensures var v := Run(c, w, ms);
            Inv(c, v) && v.now >= w.now
            && Potential(c, v) <= Potential(c, w) + Inflow(v.now - w.now, PerSecond(c))
  {
    hide Inv, Potential, Inflow, PerSecond, Step, Harmless;
    assert Valid(c) by { InvValid(c, w); }
    if ms == [] {
      InflowLinear(0.0, 0.0, PerSecond(c));
    } else {
      var front, m := ms[..|ms| - 1], ms[|ms| - 1];
      assert forall n :: 0 <= n < |front| ==> ms[..n] == front[..n] && ms[n] == front[n];
      RunBound(c, w, front);
      var u := Run(c, w, front);
      assert Harmless(c, u, m);
      StepBound(c, u, m);
      var v := Step(c, u, m);
      InflowLinear(u.now - w.now, v.now - u.now, PerSecond(c));
      assert (u.now - w.now) + (v.now - u.now) == v.now - w.now;
    }
  }

  lemma {:induction false} LevelBounds(c: Config, w: World)
    requires Inv(c, w)
    ensures 0.0 <= KeyLevel(c, w) <= c.burst as real
  {
    hide Inflow, PerSecond;
    if w.slot.Some? {
      InflowLinear(0.0, w.now - w.cells[w.slot.value].last, PerSecond(c));
    }
  }

  // What is granted from w to v keeps to the bound.
  ghost predicate WithinBound(c: Config, w: World, v: World)
    requires Valid(c)
  {
    (v.granted - w.granted) as real <= KeyLevel(c, w) + Inflow(v.now - w.now, PerSecond(c))
  }

  /** The admission bound under every interleaving: over any stretch of any run that starts with
      no goroutine astray, and in which the key is not reset and nothing held is cleaned up, the
      tokens granted are at most the level at the start plus rate * time, hence
      Burst + rate * time. */
  lemma {:induction false} GrantBound(c: Config, w: World, ms: seq<Move>)
    requires Inv(c, w) && HarmlessRun(c, w, ms)
    ensures var v := Run(c, w, ms);
            WithinBound(c, w, v)
            && (v.granted - w.granted) as real <= c.burst as real + Inflow(v.now - w.now, PerSecond(c))
  {
    hide Inv, KeyLevel, Inflow, PerSecond, Run, HarmlessRun;
    assert Valid(c) by { InvValid(c, w); }
    RunBound(c, w, ms);
    LevelBounds(c, w);
    LevelBounds(c, Run(c, w, ms));
  }

  // ---- cleanups go unnoticed ----

  // The same moves, the cleanup doing nothing.
  function RunUncleaned(c: Config, w: World, ms: seq<Move>): World
    requires Valid(c)
    decreases |ms|
  {
    if ms == [] then w
    else
      var u := RunUncleaned(c, w, ms[..|ms| - 1]);
      if ms[|ms| - 1].Clean? then u else Step(c, u, ms[|ms| - 1])
  }

  // The same goroutines wait for as much.
  predicate SamePlace(p: Place, q: Place) {
    (p.Free? && q.Free?) || (p.Between? && q.Between? && p.n == q.n)
  }

  // As far as answers go, the worlds are the same from now on.
  ghost predicate Same(c: Config, w: World, u: World) {
    && Inv(c, w) && Inv(c, u) && w.now == u.now && w.granted == u.granted
    && (forall t :: t >= w.now ==> LevelAt(c, w, t) == LevelAt(c, u, t))
    && (forall id: nat :: SamePlace(At(w, id), At(u, id)))
  }

  // The level later on, from the level now.
  lemma {:induction false} LevelLater(c: Config, b: Bucket, now: real, t: real)
    requires Valid(c) && Sound(c, b, now) && now <= t
    ensures var r := PerSecond(c);
            Refilled(b, c.burst as real, r, t)
            == MinReal(Refilled(b, c.burst as real, r, now) + Inflow(t - now, r), c.burst as real)
  {
    hide Inflow, PerSecond;
    InflowLinear(now - b.last, t - now, PerSecond(c));
    assert (now - b.last) + (t - now) == t - b.last;
    InflowLinear(0.0, t - now, PerSecond(c));
  }

  // What a request leaves, and whether it is granted, is decided by the level.
  lemma {:induction false} TakenByLevel(c: Config, b: Bucket, n: int, now: real, t: real)
    requires Valid(c) && Sound(c, b, now) && n > 0 && now <= t
    ensures var (b', ok) := Taken(c, b, n, now);
            var r := PerSecond(c);
            var level := Refilled(b, c.burst as real, r, now);
            && (ok <==> level >= n as real)
            && Refilled(b', c.burst as real, r, t)
               == MinReal((if ok then level - n as real else level) + Inflow(t - now, r), c.burst as real)
  {
    hide Inflow, PerSecond;
    TakenLevel(c, b, n, now);
    LevelLater(c, Taken(c, b, n, now).0, now, t);
  }

  // The level after a request has been decided.
  lemma {:induction false} TakeByLevel(c: Config, w: World, id: nat, t: real)
    requires Inv(c, w) && At(w, id).Between? && t >= w.now
    ensures var n, v := At(w, id).n, Step(c, w, Take(id));
            var ok := n <= c.burst && LevelAt(c, w, w.now) >= n as real;
            && v.granted == (if ok then w.granted + n else w.granted)
            && LevelAt(c, v, t)
               == if ok
                  then MinReal(LevelAt(c, w, w.now) - n as real + Inflow(t - w.now, PerSecond(c)), c.burst as real)
                  else LevelAt(c, w, t)
  {
    hide Taken, Refilled, Sound, Inflow, PerSecond;
    var p := At(w, id);
    assert !Strays(c, w.slot, p);
    var b := w.cells[p.cell];
    TakenByLevel(c, b, p.n, w.now, t);
    LevelLater(c, b, w.now, t);
    LevelAtMost(c, b, w.now);
  }

  lemma {:induction false} LevelAtMost(c: Config, b: Bucket, now: real)
    requires Valid(c)
    ensures Refilled(b, c.burst as real, PerSecond(c), now) <= c.burst as real
  {
  }

  lemma {:induction false} TakeSame(c: Config, w: World, u: World, id: nat)
    requires Same(c, w, u)
    ensures Same(c, Step(c, w, Take(id)), Step(c, u, Take(id)))
  {
    hide Taken, LevelAt, Inflow, PerSecond;
    var w', u' := Step(c, w, Take(id)), Step(c, u, Take(id));
    TakeStep(c, w, id);
    TakeStep(c, u, id);
    assert SamePlace(At(w, id), At(u, id));
    hide Inv;
    if At(w, id).Between? {
      forall t | t >= w.now ensures LevelAt(c, w', t) == LevelAt(c, u', t) && w'.granted == u'.granted {
        TakeByLevel(c, w, id, t);
        TakeByLevel(c, u, id, t);
        assert LevelAt(c, w, w.now) == LevelAt(c, u, w.now);
      }
      assert LevelAt(c, w', w.now) == LevelAt(c, u', w.now);
      TakePlaces(c, w, id);
      TakePlaces(c, u, id);
    }
  }

  lemma {:induction false} TakePlaces(c: Config, w: World, id: nat)
    requires Inv(c, w) && At(w, id).Between?
    ensures var v := Step(c, w, Take(id));
            v.now == w.now && forall j: nat :: At(v, j) == if j == id then Free else At(w, j)
  {
    hide Taken;
  }

  lemma {:induction false} FullLater(c: Config, now: real, t: real)
    requires Valid(c) && now <= t
    ensures Refilled(Bucket(c.burst as real, now), c.burst as real, PerSecond(c), t) == c.burst as real
  {
    hide Inflow, PerSecond;
    InflowLinear(0.0, t - now, PerSecond(c));
  }

  lemma {:induction false} FindLevel(c: Config, w: World, id: nat, n: int, t: real)
    requires Inv(c, w) && t >= w.now
    ensures var v := Step(c, w, Find(id, n, true));
            && v.now == w.now && v.granted == w.granted && LevelAt(c, v, t) == LevelAt(c, w, t)
            && (At(w, id) == Free && n > 0 ==> At(v, id).Between? && At(v, id).n == n)
            && (At(w, id) != Free || n <= 0 ==> v == w)
            && forall j: nat :: j != id ==> At(v, j) == At(w, j)
  {
    hide Refilled;
    FullLater(c, w.now, t);
  }

  lemma {:induction false} FindSame(c: Config, w: World, u: World, id: nat, n: int)
    requires Same(c, w, u)
    ensures Same(c, Step(c, w, Find(id, n, true)), Step(c, u, Find(id, n, true)))
  {
    hide LevelAt, Step;
    var w', u' := Step(c, w, Find(id, n, true)), Step(c, u, Find(id, n, true));
    FindStep(c, w, id, n, true);
    FindStep(c, u, id, n, true);
    hide Inv;
    forall t | t >= w.now ensures LevelAt(c, w', t) == LevelAt(c, u', t) {
      FindLevel(c, w, id, n, t);
      FindLevel(c, u, id, n, t);
    }
    FindLevel(c, w, id, n, w.now);
    FindLevel(c, u, id, n, w.now);
    forall j: nat ensures SamePlace(At(w', j), At(u', j)) {
      assert SamePlace(At(w, j), At(u, j));
    }
  }

  lemma {:induction false} TickSame(c: Config, w: World, u: World, now: real)
    requires Same(c, w, u)
    ensures Same(c, Step(c, w, Tick(now)), Step(c, u, Tick(now)))
  {
    hide Refilled;
    var w', u' := Step(c, w, Tick(now)), Step(c, u, Tick(now));
    TickStep(c, w, now);
    TickStep(c, u, now);
    hide Inv;
    forall j: nat ensures SamePlace(At(w', j), At(u', j)) {
      assert SamePlace(At(w, j), At(u, j));
    }
    assert forall t :: LevelAt(c, w', t) == LevelAt(c, w, t) && LevelAt(c, u', t) == LevelAt(c, u, t);
  }

  lemma {:induction false} CleanSame(c: Config, w: World, u: World, at: real)
    requires Same(c, w, u) && (Removes(c, w, at) ==> Unheld(c, w) && c.burst <= 2 * c.rate)
    ensures Same(c, Step(c, w, Clean(at)), u)
  {
    if Removes(c, w, at) {
      hide Refilled, Idle, Sound;
      var w' := Step(c, w, Clean(at));
      CleanStep(c, w, at);
      var b := w.cells[w.slot.value];
      forall t | t >= w.now ensures LevelAt(c, w', t) == LevelAt(c, w, t) {
        SoundLater(c, b, w.now, t);
        IdleIsFull(c, b, at, t);
      }
      hide Inv;
      forall j: nat ensures SamePlace(At(w', j), At(u, j)) {
        assert SamePlace(At(w, j), At(u, j)) && At(w', j) == At(w, j);
      }
    }
  }

  lemma {:induction false} SoundLater(c: Config, b: Bucket, now: real, t: real)
    requires Sound(c, b, now) && now <= t
    ensures Sound(c, b, t)
  {
  }

  // A new bucket finds room whenever it is asked for.
  ghost predicate Roomy(ms: seq<Move>) {
    forall i :: 0 <= i < |ms| && ms[i].Find? ==> ms[i].room
  }

  /** Cleanups go unnoticed under every interleaving: a run in which nothing held is cleaned up
      (and with any cleanup the burst is at most twice the rate) grants at every point exactly
      what it would grant if the cleanup did nothing. */
  lemma {:induction false} CleanupUnobservable(c: Config, w: World, ms: seq<Move>)
    requires Inv(c, w) && HarmlessRun(c, w, ms) && Roomy(ms)
    ensures Same(c, Run(c, w, ms), RunUncleaned(c, w, ms))
  {
    hide Inv, Same, Step, Harmless, Removes;
    assert Valid(c) by { InvValid(c, w); }
    if ms == [] {
      assert Same(c, w, w) by { SameSelf(c, w); }
    } else {
      var front, m := ms[..|ms| - 1], ms[|ms| - 1];
      assert forall n :: 0 <= n < |front| ==> ms[..n] == front[..n] && ms[n] == front[n];
      CleanupUnobservable(c, w, front);
      assert Harmless(c, Run(c, w, front), m);
      StepSame(c, Run(c, w, front), RunUncleaned(c, w, front), m);
    }
  }

  lemma {:induction false} SameSelf(c: Config, w: World)
    requires Inv(c, w)
    ensures Same(c, w, w)
  {
    hide Inv, LevelAt;
  }

  lemma {:induction false} StepSame(c: Config, w: World, u: World, m: Move)
    requires Same(c, w, u) && Harmless(c, w, m) && (m.Find? ==> m.room)
    ensures Same(c, Step(c, w, m), if m.Clean? then u else Step(c, u, m))
  {
    hide Same, Removes, Unheld, Step;
    match m
    case Find(id, n, _) => FindSame(c, w, u, id, n);
    case Take(id) => TakeSame(c, w, u, id);
    case Clean(at) => CleanSame(c, w, u, at);
    case Tick(now) => TickSame(c, w, u, now);
  }

  // The limiter's map, seen at one key.
  ghost predicate Shows(w: World, s: State, key: string) {
    && (key in s <==> w.slot.Some?)
    && (key in s ==> w.slot.value < |w.cells| && s[key] == w.cells[w.slot.value])
  }

  /** A call that nobody interrupts is AllowN as one step: the same answer and the same bucket. */
  lemma {:induction false} Uninterrupted(c: Config, w: World, id: nat, n: int, s: State, key: string)
    requires Inv(c, w) && Shows(w, s, key) && At(w, id) == Free && n > 0
    ensures var (s', a) := AskStep(c, s, key, n, w.now);
            var v := Step(c, Step(c, w, Find(id, n, |s| < c.maxEntries)), Take(id));
            && Shows(v, s', key) && At(v, id) == Free
            && v.granted == if a == Granted then w.granted + n else w.granted
  {
    hide Inflow, PerSecond;
    FullLevel(c, w.now);
    var u := Step(c, w, Find(id, n, |s| < c.maxEntries));
    assert u != w ==> At(u, id).Between?;
  }

  /** A cleanup or a reset that nobody interrupts does to the key what it does to the map. */
  lemma {:induction false} UninterruptedRemoval(c: Config, w: World, at: real, s: State, key: string)
    requires Inv(c, w) && Shows(w, s, key) && at <= w.now
    ensures Shows(Step(c, w, Clean(at)), Swept(c, s, at), key)
    ensures Shows(Step(c, w, Reset), s - {key}, key)
  {
  }

  // ---- a cleanup in the gap ----

  ghost predicate NoRemoval(ms: seq<Move>) {
    forall i :: 0 <= i < |ms| ==> !ms[i].Reset? && !ms[i].Clean?
  }

  lemma {:induction false} NoRemovalHarmless(c: Config, w: World, ms: seq<Move>)
    requires Valid(c) && NoRemoval(ms)
    ensures HarmlessRun(c, w, ms)
  {
    hide Run;
  }

  lemma {:induction false} RunSnoc(c: Config, w: World, ms: seq<Move>, m: Move)
    requires Valid(c)
    ensures Run(c, w, ms + [m]) == Step(c, Run(c, w, ms), m)
  {
    hide Step;
    assert (ms + [m])[..|ms|] == ms;
  }

  // A goroutine that is free asks for n tokens that are there.
  function Grab(c: Config, w: World, id: nat, n: int): World
    requires Valid(c)
  {
    Step(c, Step(c, w, Find(id, n, true)), Take(id))
  }

  // It gets them; a bucket that is not in the map, and who holds it, stay as they are.
  lemma {:induction false} Grabs(c: Config, w: World, id: nat, n: int, other: nat)
    requires Sane(c, w) && At(w, id) == Free && n > 0 && KeyLevel(c, w) >= n as real && other != id
    requires At(w, other).Between? && w.slot != Some(At(w, other).cell)
    ensures var v, i := Grab(c, w, id, n), At(w, other).cell;
            && Sane(c, v) && v.now == w.now && v.granted == w.granted + n
            && KeyLevel(c, v) == KeyLevel(c, w) - n as real
            && At(v, id) == Free && At(v, other) == At(w, other) && v.slot != Some(i) && v.cells[i] == w.cells[i]
  {
    hide Taken, Refilled, Sound;
    FullLevel(c, w.now);
    var u := Step(c, w, Find(id, n, true));
    var k := u.slot.value;
    assert u.cells[k] == if w.slot.Some? then w.cells[k] else Full(c, w);
    assert At(u, id) == Between(n, k) && At(u, other) == At(w, other);
    TakenLevel(c, u.cells[k], n, u.now);
    TakenByLevel(c, u.cells[k], n, u.now, u.now);
    var v := Grab(c, w, id, n);
    assert forall j: nat :: At(v, j) == if j == id then Free else At(w, j);
  }

  // The orphaned bucket, if it has the tokens.
  lemma {:induction false} OrphanTakes(c: Config, w: World, id: nat)
    requires Sane(c, w) && At(w, id).Between? && w.slot != Some(At(w, id).cell)
    requires Refilled(w.cells[At(w, id).cell], c.burst as real, PerSecond(c), w.now) >= At(w, id).n as real
    ensures var v := Step(c, w, Take(id));
            && Sane(c, v) && v.now == w.now && v.granted == w.granted + At(w, id).n
            && KeyLevel(c, v) == KeyLevel(c, w)
            && At(v, id) == Free && forall j: nat :: j != id ==> At(v, j) == At(w, j)
  {
    hide Taken, Refilled, Sound;
    var p := At(w, id);
    TakenLevel(c, w.cells[p.cell], p.n, w.now);
    TakenByLevel(c, w.cells[p.cell], p.n, w.now, w.now);
    var v := Step(c, w, Take(id));
    assert forall j: nat :: At(v, j) == if j == id then Free else At(w, j);
  }

  // The time in which n tokens flow in.
  function TimeFor(c: Config, n: real): real
    requires Valid(c)
  {
    n / PerSecond(c)
  }

  lemma {:induction false} TimeFits(c: Config, n: real)
    requires Valid(c) && n >= 0.0
    ensures Inflow(TimeFor(c, n), PerSecond(c)) == n && TimeFor(c, n) >= 0.0
  {
    hide PerSecond;
    var r, t := PerSecond(c), TimeFor(c, n);
    assert t * r == n;
    InflowLinear(0.0, t, r);
  }

  // Nothing happens for as long as n tokens take.
  function Waited(c: Config, w: World, n: real): World
    requires Valid(c)
  {
    Step(c, w, Tick(w.now + TimeFor(c, n)))
  }

  lemma {:induction false} Waits(c: Config, w: World, n: real, other: nat)
    requires Sane(c, w) && n >= 0.0 && KeyLevel(c, w) + n <= c.burst as real && At(w, other).Between?
    ensures var v, i := Waited(c, w, n), At(w, other).cell;
            && Sane(c, v) && v.granted == w.granted && Inflow(v.now - w.now, PerSecond(c)) == n
            && KeyLevel(c, v) == KeyLevel(c, w) + n
            && v.slot == w.slot && v.cells == w.cells && v.places == w.places
            && Refilled(v.cells[i], c.burst as real, PerSecond(c), v.now) >= MinReal(n, c.burst as real)
  {
    hide Inflow, PerSecond, TimeFor;
    TimeFits(c, n);
    var v, i := Waited(c, w, n), At(w, other).cell;
    assert forall j: nat :: At(v, j) == At(w, j);
    assert v.now - w.now == TimeFor(c, n);
    LevelLater(c, w.cells[i], w.now, v.now);
    InflowLinear(0.0, w.now - w.cells[i].last, PerSecond(c));
    if w.slot.Some? {
      LevelLater(c, w.cells[w.slot.value], w.now, v.now);
    }
  }

  lemma {:induction false} RunGrab(c: Config, w: World, ms: seq<Move>, id: nat, n: int)
    requires Valid(c) && NoRemoval(ms)
    ensures var gs := ms + [Find(id, n, true)] + [Take(id)];
            NoRemoval(gs) && Run(c, w, gs) == Grab(c, Run(c, w, ms), id, n)
  {
    hide Step, Run;
    RunSnoc(c, w, ms, Find(id, n, true));
    RunSnoc(c, w, ms + [Find(id, n, true)], Take(id));
  }

  // A free goroutine j takes a whole burst as soon as it is there; after the time for as many
  // tokens as id, which is astray, asks for, id takes them, and j takes as many again.
  function Spree(c: Config, w: World, id: nat, j: nat): World
    requires Valid(c) && At(w, id).Between?
  {
    var n := At(w, id).n;
    var w2 := Grab(c, Waited(c, w, c.burst as real - KeyLevel(c, w)), j, c.burst);
    Grab(c, Step(c, Waited(c, w2, n as real), Take(id)), j, n)
  }

  lemma {:induction false} SpreeRuns(c: Config, w: World, id: nat, j: nat) returns (ms: seq<Move>)
    requires Valid(c) && At(w, id).Between?
    ensures NoRemoval(ms) && Run(c, w, ms) == Spree(c, w, id, j)
  {
    hide TimeFor, Step, Grab, KeyLevel, Run, At;
    var n, missing := At(w, id).n, c.burst as real - KeyLevel(c, w);
    var w2 := Grab(c, Waited(c, w, missing), j, c.burst);
    var t1, t2 := Tick(w.now + TimeFor(c, missing)), Tick(w2.now + TimeFor(c, n as real));
    RunNone(c, w);
    ms := [] + [t1];
    RunSnoc(c, w, [], t1);
    RunGrab(c, w, ms, j, c.burst);
    ms := ms + [Find(j, c.burst, true)] + [Take(j)];
    RunSnoc(c, w, ms, t2);
    ms := ms + [t2];
    RunSnoc(c, w, ms, Take(id));
    ms := ms + [Take(id)];
    RunGrab(c, w, ms, j, n);
    ms := ms + [Find(j, n, true)] + [Take(j)];
  }

  lemma {:induction false} SpreeGrants(c: Config, w: World, id: nat, j: nat)
    requires Sane(c, w) && Strays(c, w.slot, At(w, id)) && j !in w.places
    ensures var v, n := Spree(c, w, id, j), At(w, id).n;
            && v.granted == w.granted + c.burst + n + n
            && Inflow(v.now - w.now, PerSecond(c)) == c.burst as real - KeyLevel(c, w) + n as real
  {
    hide Inflow, PerSecond, Refilled, TimeFor, Step, Grab;
    var n, missing := At(w, id).n, c.burst as real - KeyLevel(c, w);
    LevelBetween(c, w);
    Waits(c, w, missing, id);
    var w1 := Waited(c, w, missing);
    assert At(w1, id) == At(w, id) && At(w1, j) == Free;
    Grabs(c, w1, j, c.burst, id);
    var w2 := Grab(c, w1, j, c.burst);
    Waits(c, w2, n as real, id);
    var w3 := Waited(c, w2, n as real);
    assert At(w3, id) == At(w2, id) && At(w3, j) == At(w2, j);
    hide KeyLevel, Sane, Waited;
    OrphanTakes(c, w3, id);
    GrabsAlone(c, Step(c, w3, Take(id)), j, n);
    InflowLinear(w1.now - w.now, w3.now - w1.now, PerSecond(c));
    assert (w1.now - w.now) + (w3.now - w1.now) == w3.now - w.now;
  }

  // A goroutine astray takes its tokens on top of all that the key has.
  lemma {:induction false} Overspends(c: Config, w: World, id: nat) returns (ms: seq<Move>)
    requires Sane(c, w) && Strays(c, w.slot, At(w, id))
    ensures NoRemoval(ms) && !WithinBound(c, w, Run(c, w, ms))
  {
    hide Inflow, PerSecond, Spree, Run, KeyLevel;
    var j := Beyond(w.places.Keys);
    SpreeGrants(c, w, id, j);
    ms := SpreeRuns(c, w, id, j);
  }

  lemma {:induction false} RunNone(c: Config, w: World)
    requires Valid(c)
    ensures Run(c, w, []) == w
  {
  }

  lemma {:induction false} LevelBetween(c: Config, w: World)
    requires Sane(c, w)
    ensures 0.0 <= KeyLevel(c, w) <= c.burst as real
  {
    hide Inflow, PerSecond;
    if w.slot.Some? {
      InflowLinear(0.0, w.now - w.cells[w.slot.value].last, PerSecond(c));
    }
  }

  lemma {:induction false} GrabsAlone(c: Config, w: World, id: nat, n: int)
    requires Sane(c, w) && At(w, id) == Free && n > 0 && KeyLevel(c, w) >= n as real
    ensures var v := Grab(c, w, id, n);
            v.now == w.now && v.granted == w.granted + n
  {
    hide Taken, Refilled, Sound;
    FullLevel(c, w.now);
    var u := Step(c, w, Find(id, n, true));
    var k := u.slot.value;
    assert u.cells[k] == if w.slot.Some? then w.cells[k] else Full(c, w);
    assert At(u, id) == Between(n, k);
    TakenByLevel(c, u.cells[k], n, u.now, u.now);
  }

  // No goroutine is astray.
  ghost predicate Unstrayed(c: Config, w: World) {
    forall id: nat :: !Strays(c, w.slot, At(w, id))
  }

  /** Where the bound starts from, exactly: from any world it holds of every run without a reset
      or a cleanup of what is held, if and only if no goroutine is between its two locks with a
      bucket that is no longer in the map and a request of at most the burst. */
  lemma {:induction false} GrantBoundExactly(c: Config, w: World)
    requires Sane(c, w)
    ensures (forall ms :: HarmlessRun(c, w, ms) ==> WithinBound(c, w, Run(c, w, ms))) <==> Unstrayed(c, w)
  {
    hide Run, HarmlessRun, WithinBound, Sane;
    assert Valid(c) by { SaneValid(c, w); }
    if id: nat :| Strays(c, w.slot, At(w, id)) {
      var ms := Overspends(c, w, id);
      NoRemovalHarmless(c, w, ms);
    } else {
      forall ms | HarmlessRun(c, w, ms) ensures WithinBound(c, w, Run(c, w, ms)) {
        GrantBound(c, w, ms);
      }
    }
  }

  lemma {:induction false} SaneValid(c: Config, w: World)
    requires Sane(c, w)
    ensures Valid(c)
  {
  }

  // The bucket is gone from the map.
  function Orphaned(w: World): World {
    w.(slot := None)
  }

  // Removing the bucket sends astray whoever holds it, and makes the level a whole burst.
  lemma {:induction false} Orphans(c: Config, w: World)
    requires Inv(c, w)
    ensures var u := Orphaned(w);
            && Sane(c, u) && (Unheld(c, w) <==> Unstrayed(c, u))
            && KeyLevel(c, u) == c.burst as real && u.granted == w.granted && u.now == w.now
  {
    hide Sound;
    var u := Orphaned(w);
    assert forall j: nat :: At(u, j) == At(w, j);
    if Unheld(c, w) {
      forall j: nat ensures !Strays(c, None, At(u, j)) {
        assert j in w.places ==> !Strays(c, None, w.places[j]);
      }
    } else {
      var id :| id in w.places && Strays(c, None, w.places[id]);
      assert Strays(c, u.slot, At(u, id));
    }
  }

  /** One reset, exactly: from then on, whatever follows without another removal, at most
      Burst + rate * time tokens are granted, if and only if no goroutine is between its two
      locks with the bucket and a request of at most the burst. */
  lemma {:induction false} ResetExactly(c: Config, w: World)
    requires Inv(c, w)
    ensures (forall ms :: NoRemoval(ms) ==> WithinBound(c, Step(c, w, Reset), Run(c, Step(c, w, Reset), ms)))
       <==> Unheld(c, w)
    ensures KeyLevel(c, Step(c, w, Reset)) == c.burst as real && Step(c, w, Reset).granted == w.granted
  {
    var u := Orphaned(w);
    assert Step(c, w, Reset) == u;
    hide Run, NoRemoval, WithinBound, Sane, Unheld, KeyLevel, Step;
    assert Valid(c) by { InvValid(c, w); }
    Orphans(c, w);
    if Unstrayed(c, u) {
      forall ms | NoRemoval(ms) ensures WithinBound(c, u, Run(c, u, ms)) {
        NoRemovalHarmless(c, u, ms);
        GrantBound(c, u, ms);
      }
    } else {
      var id: nat :| Strays(c, u.slot, At(u, id));
      var ms := Overspends(c, u, id);
    }
  }

  /** One cleanup, exactly, in every configuration: the bound survives the removal of the bucket,
      whatever follows without another one, if and only if no goroutine is between its two locks
      with that bucket and a request of at most the burst, and the bucket is full by now. */
  lemma {:induction false} CleanupExactly(c: Config, w: World, at: real)
    requires Inv(c, w) && Removes(c, w, at)
    ensures (forall ms :: NoRemoval(ms) ==> WithinBound(c, w, Run(c, Step(c, w, Clean(at)), ms)))
       <==> Unheld(c, w) && KeyLevel(c, w) == c.burst as real
  {
    var u := Orphaned(w);
    assert Step(c, w, Clean(at)) == u;
    hide Run, NoRemoval, Sane, Unheld, KeyLevel, Step, Inflow;
    assert Valid(c) by { InvValid(c, w); }
    Orphans(c, w);
    LevelBounds(c, w);
    if !Unstrayed(c, u) {
      var id: nat :| Strays(c, u.slot, At(u, id));
      var ms := Overspends(c, u, id);
      assert !WithinBound(c, w, Run(c, u, ms));
    } else if KeyLevel(c, w) < c.burst as real {
      var ms := WholeBurst(c, u);
      assert !WithinBound(c, w, Run(c, u, ms));
    } else {
      forall ms | NoRemoval(ms) ensures WithinBound(c, w, Run(c, u, ms)) {
        NoRemovalHarmless(c, u, ms);
        GrantBound(c, u, ms);
      }
    }
  }

  // A burst is granted at once where the level is a burst.
  lemma {:induction false} WholeBurst(c: Config, w: World) returns (ms: seq<Move>)
    requires Sane(c, w) && KeyLevel(c, w) == c.burst as real
    ensures NoRemoval(ms)
    ensures var v := Run(c, w, ms);
            v.granted == w.granted + c.burst && Inflow(v.now - w.now, PerSecond(c)) == 0.0
  {
    hide Inflow, PerSecond, Step, Grab, Run;
    var j := Beyond(w.places.Keys);
    assert At(w, j) == Free;
    GrabsAlone(c, w, j, c.burst);
    RunNone(c, w);
    RunGrab(c, w, [], j, c.burst);
    InflowLinear(0.0, 0.0, PerSecond(c));
    ms := [] + [Find(j, c.burst, true)] + [Take(j)];
  }

  lemma {:induction false} RunThree(c: Config, w: World, m1: Move, m2: Move, m3: Move)
    requires Valid(c)
    ensures Run(c, w, [m1] + [m2] + [m3]) == Step(c, Step(c, Step(c, w, m1), m2), m3)
  {
    hide Step;
    assert [] + [m1] == [m1] && Run(c, w, []) == w;
    RunSnoc(c, w, [], m1);
    RunSnoc(c, w, [m1], m2);
    RunSnoc(c, w, [m1] + [m2], m3);
  }

  const START: World := World(None, [], map[], 0.0, 0)

  /** And such a cleanup can come, in every configuration: a call is made, nobody calls for
      more than two intervals, and the cleanup meets the next call between its locks. */
  lemma {:induction false} HeldAndIdle(c: Config) returns (ms: seq<Move>)
    requires Valid(c)
    ensures var w := Run(c, START, ms);
            Inv(c, w) && Removes(c, w, w.now) && !Unheld(c, w)
  {
    hide Inflow, PerSecond, Taken;
    var later := c.interval * 2.0 + 1.0;
    var find, take, tick := Find(0, 1, true), Take(0), Tick(later);
    ms := [find] + [take] + [tick] + [find];
    RunThree(c, START, find, take, tick);
    RunSnoc(c, START, [find] + [take] + [tick], find);
    var b := Bucket(c.burst as real, 0.0);
    var w1 := Step(c, START, find);
    assert w1 == World(Some(0), [b], map[0 := Between(1, 0)], 0.0, 0);
    FindStep(c, START, 0, 1, true);
    var w2 := Step(c, w1, take);
    TakeStep(c, w1, 0);
    TakenAt(c, b, 1, 0.0);
    var w3 := Step(c, w2, tick);
    TickStep(c, w2, later);
    var w4 := Step(c, w3, find);
    FindStep(c, w3, 0, 1, true);
    assert w4.places[0] == Between(1, 0) && Strays(c, None, w4.places[0]);
  }

  lemma {:induction false} TakenAt(c: Config, b: Bucket, n: int, now: real)
    requires Valid(c)
    ensures Taken(c, b, n, now).0.last == now
  {
  }
}

/** One key of the sliding-window limiter when calls overlap (oauth/rate_limiter.go:242-374).
    As in the token bucket, AllowN finds the window under the limiter's lock, lets go of it,
    and records its requests under the window's own lock. */
module SlidingWindowSteps {
  import opened Options
  import opened RateLimiting
  import opened SlidingWindow

  // Where a goroutine is: between the two locks it holds a window, by its number.
  datatype Place = Free | Between(n: int, cell: nat)

  // The window in the map, all windows ever made, and the times of all admissions.
  datatype World = World(slot: Option<nat>, cells: seq<seq<real>>, places: map<nat, Place>, now: real,
                         admitted: seq<real>)

  datatype Move =
    | Find(id: nat, n: int, room: bool)
    | Take(id: nat)
    | Clean(at: real)
    | Reset
    | Tick(now: real)

  function At(w: World, id: nat): Place {
    if id in w.places then w.places[id] else Free
  }

  function Taken(c: Config, w: seq<real>, n: nat, now: real): (seq<real>, bool) {
    var v := Recent(w, now - c.interval);
    if |v| + n > c.rate then (v, false) else (v + Copies(now, n), true)
  }

  predicate Removes(c: Config, w: World, at: real) {
    at <= w.now && w.slot.Some? && w.slot.value < |w.cells|
    && Recent(w.cells[w.slot.value], at - c.interval * 2.0) == []
  }

  function Step(c: Config, w: World, m: Move): World {
    match m
    case Find(id, n, room) =>
      if At(w, id) != Free || n <= 0 then w
      else if w.slot.Some? then w.(places := w.places[id := Between(n, w.slot.value)])
      else if !room then w
      else w.(slot := Some(|w.cells|), cells := w.cells + [[]], places := w.places[id := Between(n, |w.cells|)])
    case Take(id) => (
      match At(w, id)
      case Free => w
      case Between(n, i) =>
        if i >= |w.cells| || n <= 0 then w
        else
          var (v, ok) := Taken(c, w.cells[i], n, w.now);
          w.(cells := w.cells[i := v], places := w.places[id := Free],
             admitted := if ok then w.admitted + Copies(w.now, n) else w.admitted))
    case Clean(at) => if Removes(c, w, at) then w.(slot := None) else w
    case Reset => w.(slot := None)
    case Tick(now) => if now >= w.now then w.(now := now) else w
  }

  function Run(c: Config, w: World, ms: seq<Move>): World
    decreases |ms|
  {
    if ms == [] then w else Step(c, Run(c, w, ms[..|ms| - 1]), ms[|ms| - 1])
  }

  // ---- the invariant ----

  function Current(w: World): seq<real> {
    if w.slot.Some? && w.slot.value < |w.cells| then w.cells[w.slot.value] else []
  }

  // A goroutine between the locks with a window that is no longer in the map, and a request
  // that an empty window has room for.
  predicate Strays(c: Config, slot: Option<nat>, p: Place) {
    p.Between? && p.n <= c.rate && slot != Some(p.cell)
  }

  // What the map shows of the admissions is what counts of them from now on.
  ghost predicate Inv(c: Config, w: World) {
    && c.interval > 0.0
    && (w.slot.Some? ==> w.slot.value < |w.cells|)
    && SameFrom(Current(w), w.admitted, w.now - c.interval)
    && (forall id: nat :: !Strays(c, w.slot, At(w, id)))
    && (forall id: nat :: At(w, id).Between? ==> At(w, id).n > 0 && At(w, id).cell < |w.cells|)
  }

  // A request of more than the rate is never admitted.
  lemma {:induction false} NeverRoom(c: Config, w: seq<real>, n: nat, now: real)
    requires n > c.rate
    ensures !Taken(c, w, n, now).1
  {
  }

  lemma {:induction false} TakenSame(c: Config, w: seq<real>, h: seq<real>, n: nat, now: real)
    requires SameFrom(w, h, now - c.interval)
    ensures var (v, ok) := Taken(c, w, n, now);
            var g := if ok then h + Copies(now, n) else h;
            && ok == (|Recent(h, now - c.interval)| + n <= c.rate)
            && SameFrom(v, g, now - c.interval)
  {
    assert Recent(w, now - c.interval) == Recent(h, now - c.interval);
    hide SameFrom, Recent, Copies;
    SamePruned(w, h, now - c.interval);
    SameAdded(Recent(w, now - c.interval), h, now - c.interval, Copies(now, n));
  }

  lemma {:induction false} TakeStep(c: Config, w: World, id: nat)
    requires Inv(c, w)
    ensures var v := Step(c, w, Take(id));
            Inv(c, v) && v.now == w.now && (Bounded(c, w.admitted) ==> Bounded(c, v.admitted))
  {
    hide Taken, SameFrom, Bounded, Recent, Copies;
    if At(w, id).Between? {
      var p, v := At(w, id), Step(c, w, Take(id));
      assert !Strays(c, w.slot, p);
      assert forall j: nat :: At(v, j) == if j == id then Free else At(w, j);
      if w.slot == Some(p.cell) {
        TakenSame(c, w.cells[p.cell], w.admitted, p.n, w.now);
        if Taken(c, w.cells[p.cell], p.n, w.now).1 && Bounded(c, w.admitted) {
          BoundedGrant(c, w.admitted, p.n, w.now);
        }
      } else {
        NeverRoom(c, w.cells[p.cell], p.n, w.now);
      }
    }
  }

  lemma {:induction false} FindStep(c: Config, w: World, id: nat, n: int, room: bool)
    requires Inv(c, w)
    ensures var v := Step(c, w, Find(id, n, room));
            Inv(c, v) && v.now == w.now && v.admitted == w.admitted
  {
    hide SameFrom;
    var v := Step(c, w, Find(id, n, room));
    if v != w {
      assert forall j: nat :: At(v, j) == if j == id then At(v, id) else At(w, j);
    }
  }

  lemma {:induction false} TickStep(c: Config, w: World, now: real)
    requires Inv(c, w)
    ensures var v := Step(c, w, Tick(now));
            Inv(c, v) && v.now >= w.now && v.admitted == w.admitted
  {
    hide Recent;
    var v := Step(c, w, Tick(now));
    assert forall j: nat :: At(v, j) == At(w, j);
    SameLater(Current(w), w.admitted, w.now - c.interval, v.now - c.interval);
  }

  // Nobody for whom there could be room holds the window that is in the map.
  predicate Unheld(c: Config, w: World) {
    forall id :: id in w.places ==> !Strays(c, None, w.places[id])
  }

  // A window the cleanup may remove counts no more.
  lemma {:induction false} CleanedSame(c: Config, w: seq<real>, h: seq<real>, at: real, now: real)
    requires c.interval > 0.0 && at <= now && SameFrom(w, h, now - c.interval)
    requires Recent(w, at - c.interval * 2.0) == []
    ensures SameFrom([], h, now - c.interval)
  {
    hide Recent;
    SameSwept(w, h, now - c.interval, at - c.interval * 2.0);
  }

  lemma {:induction false} CleanStep(c: Config, w: World, at: real)
    requires Inv(c, w) && (Removes(c, w, at) ==> Unheld(c, w))
    ensures var v := Step(c, w, Clean(at));
            Inv(c, v) && v.now == w.now && v.admitted == w.admitted
  {
    hide SameFrom, Recent;
    var v := Step(c, w, Clean(at));
    assert forall j: nat :: At(v, j) == At(w, j);
    if Removes(c, w, at) {
      CleanedSame(c, w.cells[w.slot.value], w.admitted, at, w.now);
      forall j: nat ensures !Strays(c, None, At(w, j)) {
        assert j in w.places ==> !Strays(c, None, w.places[j]);
      }
    }
  }

  // ---- runs ----

  // No reset, and the cleanup removes nothing that is held.
  ghost predicate Harmless(c: Config, w: World, m: Move) {
    !m.Reset? && (m.Clean? && Removes(c, w, m.at) ==> Unheld(c, w))
  }

  ghost predicate HarmlessRun(c: Config, w: World, ms: seq<Move>) {
    forall n :: 0 <= n < |ms| ==> Harmless(c, Run(c, w, ms[..n]), ms[n])
  }

  lemma {:induction false} StepBound(c: Config, w: World, m: Move)
    requires Inv(c, w) && Bounded(c, w.admitted) && Harmless(c, w, m)
    ensures Inv(c, Step(c, w, m)) && Bounded(c, Step(c, w, m).admitted)
  {
    hide Inv, Bounded, Taken, Removes, Unheld;
    match m
    case Find(id, n, room) => FindStep(c, w, id, n, room);
    case Take(id) => TakeStep(c, w, id);
    case Clean(at) => CleanStep(c, w, at);
    case Tick(now) => TickStep(c, w, now);
  }

  /** The window bound under every interleaving: in any run in which the key is not reset, and
      nothing held is cleaned up, every window (t - Interval, t] holds at most Rate admissions. */
  lemma {:induction false} WindowBound(c: Config, w: World, ms: seq<Move>)
    requires Inv(c, w) && Bounded(c, w.admitted) && HarmlessRun(c, w, ms)
    ensures Inv(c, Run(c, w, ms)) && Bounded(c, Run(c, w, ms).admitted)
  {
    hide Inv, Bounded, Step, Harmless;
    if ms != [] {
      var front, m := ms[..|ms| - 1], ms[|ms| - 1];
      assert forall n :: 0 <= n < |front| ==> ms[..n] == front[..n] && ms[n] == front[n];
      WindowBound(c, w, front);
      assert Harmless(c, Run(c, w, front), m);
      StepBound(c, Run(c, w, front), m);
    }
  }

  // ---- cleanups go unnoticed ----

  // The same moves, the cleanup doing nothing.
  function RunUncleaned(c: Config, w: World, ms: seq<Move>): World
    decreases |ms|
  {
    if ms == [] then w
    else
      var u := RunUncleaned(c, w, ms[..|ms| - 1]);
      if ms[|ms| - 1].Clean? then u else Step(c, u, ms[|ms| - 1])
  }

  // The same goroutines wait for as much.
  predicate SamePlace(p: Place, q: Place) {
    (p.Free? && q.Free?) || (p.Between? && q.Between? && p.n == q.n)
  }

  // As far as answers go, the worlds are the same from now on.
  ghost predicate Same(c: Config, w: World, u: World) {
    && Inv(c, w) && Inv(c, u) && w.now == u.now && w.admitted == u.admitted
    && (forall id: nat :: SamePlace(At(w, id), At(u, id)))
  }

  // What a goroutine is admitted depends on nothing but what all of them have been admitted.
  lemma {:induction false} TakeAdmits(c: Config, w: World, id: nat)
    requires Inv(c, w) && At(w, id).Between?
    ensures var v, n := Step(c, w, Take(id)), At(w, id).n;
            && v.now == w.now
            && v.admitted == (if |Recent(w.admitted, w.now - c.interval)| + n <= c.rate
                              then w.admitted + Copies(w.now, n) else w.admitted)
            && (forall j: nat :: At(v, j) == if j == id then Free else At(w, j))
  {
    hide Taken, SameFrom, Recent, Copies;
    var p := At(w, id);
    assert !Strays(c, w.slot, p);
    if w.slot == Some(p.cell) {
      TakenSame(c, w.cells[p.cell], w.admitted, p.n, w.now);
    } else {
      NeverRoom(c, w.cells[p.cell], p.n, w.now);
    }
  }

  lemma {:induction false} FindPlaces(c: Config, w: World, id: nat, n: int)
    ensures var v := Step(c, w, Find(id, n, true));
            && (forall j: nat :: j != id ==> At(v, j) == At(w, j))
            && (if At(w, id) == Free && n > 0 then At(v, id).Between? && At(v, id).n == n else v == w)
  {
  }

  lemma {:induction false} FindSame(c: Config, w: World, u: World, id: nat, n: int)
    requires Same(c, w, u)
    ensures Same(c, Step(c, w, Find(id, n, true)), Step(c, u, Find(id, n, true)))
  {
    var w', u' := Step(c, w, Find(id, n, true)), Step(c, u, Find(id, n, true));
    FindStep(c, w, id, n, true);
    FindStep(c, u, id, n, true);
    FindPlaces(c, w, id, n);
    FindPlaces(c, u, id, n);
    hide Inv, Step;
    forall j: nat ensures SamePlace(At(w', j), At(u', j)) {
      assert SamePlace(At(w, j), At(u, j)) && SamePlace(At(w, id), At(u, id));
    }
  }

  lemma {:induction false} TakeSame(c: Config, w: World, u: World, id: nat)
    requires Same(c, w, u)
    ensures Same(c, Step(c, w, Take(id)), Step(c, u, Take(id)))
  {
    hide Taken, Recent, Copies;
    var w', u' := Step(c, w, Take(id)), Step(c, u, Take(id));
    TakeStep(c, w, id);
    TakeStep(c, u, id);
    assert SamePlace(At(w, id), At(u, id));
    hide Inv;
    if At(w, id).Between? {
      TakeAdmits(c, w, id);
      TakeAdmits(c, u, id);
      hide Step;
      forall j: nat ensures SamePlace(At(w', j), At(u', j)) {
        assert SamePlace(At(w, j), At(u, j));
      }
    }
  }

  lemma {:induction false} StepSame(c: Config, w: World, u: World, m: Move)
    requires Same(c, w, u) && Harmless(c, w, m) && (m.Find? ==> m.room)
    ensures Same(c, Step(c, w, m), if m.Clean? then u else Step(c, u, m))
  {
    var w', u' := Step(c, w, m), if m.Clean? then u else Step(c, u, m);
    hide Inv, Removes, Unheld, Taken, Recent, Copies;
    match m
    case Find(id, n, _) => FindSame(c, w, u, id, n);
    case Take(id) => TakeSame(c, w, u, id);
    case Clean(at) =>
      CleanStep(c, w, at);
      forall j: nat ensures SamePlace(At(w', j), At(u', j)) {
        assert SamePlace(At(w, j), At(u, j)) && At(w', j) == At(w, j);
      }
    case Tick(now) =>
      TickStep(c, w, now);
      TickStep(c, u, now);
      forall j: nat ensures SamePlace(At(w', j), At(u', j)) {
        assert SamePlace(At(w, j), At(u, j)) && At(w', j) == At(w, j) && At(u', j) == At(u, j);
      }
  }

  // A new window finds room whenever it is asked for.
  ghost predicate Roomy(ms: seq<Move>) {
    forall i :: 0 <= i < |ms| && ms[i].Find? ==> ms[i].room
  }

  /** Cleanups go unnoticed under every interleaving: a run in which nothing held is cleaned up
      admits at every point exactly what it would admit if the cleanup did nothing. */
  lemma {:induction false} CleanupUnobservable(c: Config, w: World, ms: seq<Move>)
    requires Inv(c, w) && HarmlessRun(c, w, ms) && Roomy(ms)
    ensures Same(c, Run(c, w, ms), RunUncleaned(c, w, ms))
  {
    hide Inv, Step, Harmless, Removes;
    if ms != [] {
      var front, m := ms[..|ms| - 1], ms[|ms| - 1];
      assert forall n :: 0 <= n < |front| ==> ms[..n] == front[..n] && ms[n] == front[n];
      CleanupUnobservable(c, w, front);
      assert Harmless(c, Run(c, w, front), m);
      hide Same;
      StepSame(c, Run(c, w, front), RunUncleaned(c, w, front), m);
    }
  }

  // The limiter's map, seen at one key.
  ghost predicate Shows(w: World, s: State, key: string) {
    && (key in s <==> w.slot.Some?)
    && (key in s ==> w.slot.value < |w.cells| && s[key] == w.cells[w.slot.value])
  }

  /** A call that nobody interrupts is AllowN as one step: the same answer and the same window. */
  lemma {:induction false} Uninterrupted(c: Config, w: World, id: nat, n: int, s: State, key: string)
    requires Inv(c, w) && Shows(w, s, key) && At(w, id) == Free && n > 0
    ensures var (s', a) := AskStep(c, s, key, n, w.now);
            var v := Step(c, Step(c, w, Find(id, n, |s| < c.maxEntries)), Take(id));
            && Shows(v, s', key) && At(v, id) == Free
            && v.admitted == if a == Granted then w.admitted + Copies(w.now, n) else w.admitted
  {
    hide Recent, Copies, SameFrom;
    var u := Step(c, w, Find(id, n, |s| < c.maxEntries));
    assert u != w ==> At(u, id).Between?;
  }

  /** A cleanup or a reset that nobody interrupts does to the key what it does to the map. */
  lemma {:induction false} UninterruptedRemoval(c: Config, w: World, at: real, s: State, key: string)
    requires Inv(c, w) && Shows(w, s, key) && at <= w.now
    ensures Shows(Step(c, w, Clean(at)), Swept(c, s, at), key)
    ensures Shows(Step(c, w, Reset), s - {key}, key)
  {
  }

  // ---- a cleanup in the gap ----

  ghost predicate NoRemoval(ms: seq<Move>) {
    forall i :: 0 <= i < |ms| ==> !ms[i].Reset? && !ms[i].Clean?
  }

  lemma {:induction false} NoRemovalHarmless(c: Config, w: World, ms: seq<Move>)
    requires NoRemoval(ms)
    ensures HarmlessRun(c, w, ms)
  {
    hide Run;
  }

  lemma {:induction false} RunSnoc(c: Config, w: World, ms: seq<Move>, m: Move)
    ensures Run(c, w, ms + [m]) == Step(c, Run(c, w, ms), m)
  {
    hide Step;
    assert (ms + [m])[..|ms|] == ms;
  }

  lemma {:induction false} RunThree(c: Config, w: World, m1: Move, m2: Move, m3: Move)
    ensures Run(c, w, [m1] + [m2] + [m3]) == Step(c, Step(c, Step(c, w, m1), m2), m3)
  {
    hide Step;
    assert [] + [m1] == [m1] && Run(c, w, []) == w;
    RunSnoc(c, w, [], m1);
    RunSnoc(c, w, [m1], m2);
    RunSnoc(c, w, [m1] + [m2], m3);
  }

  lemma {:induction false} EmptyTakes(c: Config, w: seq<real>, n: nat, now: real)
    requires Recent(w, now - c.interval) == [] && n <= c.rate
    ensures Taken(c, w, n, now) == (Copies(now, n), true)
  {
    assert [] + Copies(now, n) == Copies(now, n);
  }

  // An orphaned window that is empty, and then a whole new one.
  lemma {:induction false} TwiceOver(c: Config, w: World, id: nat) returns (ms: seq<Move>)
    requires c.rate >= 1 && w.slot.None? && At(w, id).Between?
    requires 0 < At(w, id).n <= c.rate && At(w, id).cell < |w.cells|
    requires Recent(w.cells[At(w, id).cell], w.now - c.interval) == []
    ensures NoRemoval(ms)
    ensures Run(c, w, ms).admitted == w.admitted + Copies(w.now, At(w, id).n) + Copies(w.now, c.rate)
  {
    hide Recent, Copies, Taken;
    var n := At(w, id).n;
    var m1, m2 := Take(id), Find(id, c.rate, true);
    ms := [m1] + [m2] + [m1];
    EmptyTakes(c, w.cells[At(w, id).cell], n, w.now);
    var w1 := Step(c, w, m1);
    assert At(w1, id) == Free;
    var w2 := Step(c, w1, m2);
    assert At(w2, id) == Between(c.rate, |w1.cells|) && w2.cells[|w1.cells|] == [];
    assert Recent([], w.now - c.interval) == [] by { RecentNone(w.now - c.interval); }
    EmptyTakes(c, [], c.rate, w.now);
    RunThree(c, w, m1, m2, m1);
  }

  lemma {:induction false} TooManyNow(c: Config, h: seq<real>, n: nat, now: real)
    requires c.interval > 0.0 && n >= 1 && c.rate >= 1
    ensures !Bounded(c, h + Copies(now, n) + Copies(now, c.rate))
  {
    hide Within, Copies;
    var lo := now - c.interval;
    WithinConcat(h + Copies(now, n), Copies(now, c.rate), lo, now);
    WithinConcat(h, Copies(now, n), lo, now);
    WithinCopies(now, n, lo, now);
    WithinCopies(now, c.rate, lo, now);
    assert Within(h + Copies(now, n) + Copies(now, c.rate), lo, lo + c.interval) > c.rate;
  }

  lemma {:induction false} RunCons(c: Config, w: World, m: Move, ms: seq<Move>)
    ensures Run(c, w, [m] + ms) == Run(c, Step(c, w, m), ms)
  {
    hide Step;
    if ms == [] {
      assert [m] + ms == [] + [m] && Run(c, w, []) == w;
      RunSnoc(c, w, [], m);
    } else {
      var front, last := ms[..|ms| - 1], ms[|ms| - 1];
      RunCons(c, w, m, front);
      assert [m] + ms == ([m] + front) + [last] && ms == front + [last];
      RunSnoc(c, w, [m] + front, last);
      RunSnoc(c, Step(c, w, m), front, last);
    }
  }

  // A time at which nothing in a list is recent any more.
  lemma {:induction false} AllGone(w: seq<real>, from: real) returns (start: real)
    ensures start >= from && Recent(w, start) == []
  {
    start := from;
    if w != [] {
      var s := AllGone(w[1..], from);
      start := if s < w[0] then w[0] else s;
      RecentTwice(w[1..], s, start);
    }
  }

  // An orphaned window, as soon as it is empty, and then a whole new one.
  lemma {:induction false} WaitTwiceOver(c: Config, w: World, id: nat) returns (ms: seq<Move>)
    requires c.interval > 0.0 && c.rate >= 1 && w.slot.None? && At(w, id).Between?
    requires 0 < At(w, id).n <= c.rate && At(w, id).cell < |w.cells|
    ensures NoRemoval(ms) && !Bounded(c, Run(c, w, ms).admitted)
  {
    hide Recent, Copies, Bounded, Run;
    var start := AllGone(w.cells[At(w, id).cell], w.now);
    var tick := Tick(start + c.interval);
    var v := Step(c, w, tick);
    assert At(v, id) == At(w, id) && v.cells == w.cells && v.now - c.interval == start;
    var rest := TwiceOver(c, v, id);
    ms := [tick] + rest;
    RunCons(c, w, tick, rest);
    TooManyNow(c, v.admitted, At(v, id).n, v.now);
  }

  // From a reset on, counting what is admitted anew.
  function Anew(c: Config, w: World): World {
    Step(c, w, Reset).(admitted := [])
  }

  lemma {:induction false} AnewInv(c: Config, w: World)
    requires Inv(c, w) && Unheld(c, w)
    ensures Inv(c, Anew(c, w))
  {
    hide Recent;
    var v := Anew(c, w);
    forall j: nat ensures !Strays(c, None, At(v, j)) {
      assert j in w.places ==> !Strays(c, None, w.places[j]);
    }
    assert forall j: nat :: At(v, j) == At(w, j);
    assert Current(v) == v.admitted;
  }

  /** One reset, exactly: the window bound holds of all that is admitted from then on, whatever
      follows without another removal, if and only if no goroutine is between its two locks with
      the window and a request of at most the rate. */
  lemma {:induction false} ResetExactly(c: Config, w: World)
    requires Inv(c, w) && c.rate >= 1
    ensures (forall ms :: NoRemoval(ms) ==> Bounded(c, Run(c, Anew(c, w), ms).admitted)) <==> Unheld(c, w)
  {
    hide Run, NoRemoval, Bounded, Recent, SameFrom;
    var u := Anew(c, w);
    if Unheld(c, w) {
      AnewInv(c, w);
      assert Bounded(c, u.admitted) by { NoneBounded(c); }
      forall ms | NoRemoval(ms) ensures Bounded(c, Run(c, u, ms).admitted) {
        NoRemovalHarmless(c, u, ms);
        WindowBound(c, u, ms);
      }
    } else {
      var id :| id in w.places && Strays(c, None, w.places[id]);
      assert At(w, id) == w.places[id] && At(u, id) == At(w, id);
      var ms := WaitTwiceOver(c, u, id);
    }
  }

  lemma {:induction false} NoneBounded(c: Config)
    requires c.rate >= 0
    ensures Bounded(c, [])
  {
  }

  /** One cleanup, exactly. The window bound survives the removal of the window, whatever
      follows without another one, if and only if no goroutine is between its two locks with
      that window and a request of at most the rate. */
  lemma {:induction false} CleanupExactly(c: Config, w: World, at: real)
    requires Inv(c, w) && c.rate >= 1 && Bounded(c, w.admitted) && Removes(c, w, at)
    ensures (forall ms :: NoRemoval(ms) ==> Bounded(c, Run(c, Step(c, w, Clean(at)), ms).admitted)) <==> Unheld(c, w)
  {
    hide Run, NoRemoval, Bounded, Recent, SameFrom;
    var u := Step(c, w, Clean(at));
    if Unheld(c, w) {
      CleanStep(c, w, at);
      forall ms | NoRemoval(ms) ensures Bounded(c, Run(c, u, ms).admitted) {
        NoRemovalHarmless(c, u, ms);
        WindowBound(c, u, ms);
      }
    } else {
      var id :| id in w.places && Strays(c, None, w.places[id]);
      assert !Strays(c, w.slot, At(w, id)) && At(w, id).n > 0;
      NothingRecent(w.cells[w.slot.value], at - c.interval * 2.0, w.now - c.interval);
      assert At(u, id) == At(w, id);
      var ms := TwiceOver(c, u, id);
      TooManyNow(c, w.admitted, At(w, id).n, w.now);
      assert !Bounded(c, Run(c, u, ms).admitted);
    }
  }

  lemma {:induction false} NothingRecent(w: seq<real>, start: real, later: real)
    requires Recent(w, start) == [] && start <= later
    ensures Recent(w, later) == []
  {
    RecentTwice(w, start, later);
  }

  const START: World := World(None, [], map[], 0.0, [])

  /** And such a cleanup can come, in every configuration, even at once: the window of a first
      call is removed while the call is between its locks. */
  lemma {:induction false} HeldAndEmpty(c: Config) returns (ms: seq<Move>)
    requires c.interval > 0.0 && c.rate >= 1
    ensures var w := Run(c, START, ms);
            Inv(c, w) && Bounded(c, w.admitted) && Removes(c, w, w.now) && !Unheld(c, w)
  {
    var find := Find(0, 1, true);
    ms := [] + [find];
    assert Run(c, START, []) == START;
    RunSnoc(c, START, [], find);
    var w := Step(c, START, find);
    assert w.cells == [[]] && w.places[0] == Between(1, 0) && Strays(c, None, w.places[0]);
  }
}

/** Which instance of a provider an authorization ends at (oauth/multi_provider_service.go:86-241).
    GetAuthURL and Exchange look the provider up by name, each on its own; in between it may be
    unregistered and another registered under the name. */
module OauthSessionInstances {
  import opened Options
  import opened Sizes
  import opened OauthSessions
  import opened OauthSessionSteps
  import Gaps = OauthSessionGaps

  // The registry holds the instance under the name.
  ghost predicate Holds(ps: Providers, name: string, provider: Provider) {
    name in ps && ps[name] == provider
  }

  // The registry holds the instance the session of a state was made for.
  ghost predicate HoldsOrigin(w: World, name: string, state: string) {
    state in w.book.origins && Holds(w.providers, name, w.book.origins[state])
  }

  // The options let GetAuthURL succeed.
  predicate CanMake(c: Config, p: Provider, o: AuthOptions) {
    ProofKey(c, p, o, "").Some?
  }

  // ---- what may still lead to a call ----

  // Something a goroutine has under way that can lead to a call of the name.
  ghost predicate PlacePending(c: Config, now: real, p: Place, name: string) {
    match p
    case Chosen(n, provider, o) => n == name && c.timeout >= 0.0 && CanMake(c, provider, o)
    case Drawn(n, provider, o, _) => n == name && c.timeout >= 0.0 && CanMake(c, provider, o)
    case Dated(n, _, _, _, _) => n == name && c.timeout >= 0.0
    case Made(_, s) => s.provider == name && now <= s.expiresAt
    case Taken(n, _, s) => n == name && s.provider == name && now <= s.expiresAt
    case Passed(n, _, _) => n == name
    case _ => false
  }

  ghost predicate StoredPending(w: World, k: string, name: string) {
    k in w.book.sessions && w.book.sessions[k].provider == name && w.now <= w.book.sessions[k].expiresAt
  }

  // A session of the name is stored or on its way, and has not expired.
  ghost predicate Pending(c: Config, w: World, name: string) {
    (exists id: nat :: PlacePending(c, w.now, At(w, id), name)) || exists k :: StoredPending(w, k, name)
  }

  // ---- the invariant ----

  // Each call so far went to the instance its session was made for.
  ghost predicate Faithful(w: World) {
    forall i :: 0 <= i < |w.book.calls| ==>
      w.book.calls[i].state in w.book.origins && w.book.calls[i].provider == w.book.origins[w.book.calls[i].state]
  }

  // The instance a goroutine found is the one its session is made for.
  ghost predicate OriginOk(b: Book, p: Place) {
    match p
    case Made(provider, s) => s.state in b.origins && b.origins[s.state] == provider
    case Saved(provider, s) => s.state in b.origins && b.origins[s.state] == provider
    case Ready(_, provider, s, _) => s.state in b.origins && b.origins[s.state] == provider
    case _ => true
  }

  ghost predicate OriginsOk(w: World) {
    && (forall k :: k in w.book.made <==> k in w.book.origins)
    && (forall i :: 0 <= i < |w.book.urls| ==>
          w.book.urls[i].state in w.book.origins && w.book.urls[i].provider == w.book.origins[w.book.urls[i].state])
  }

  // What is pending is pending for an instance that is still registered.
  ghost predicate PlaceSteady(c: Config, w: World, p: Place) {
    match p
    case Chosen(name, provider, _) => PlacePending(c, w.now, p, name) ==> Holds(w.providers, name, provider)
    case Drawn(name, provider, _, _) => PlacePending(c, w.now, p, name) ==> Holds(w.providers, name, provider)
    case Dated(name, provider, _, _, _) => PlacePending(c, w.now, p, name) ==> Holds(w.providers, name, provider)
    case Made(provider, s) => PlacePending(c, w.now, p, s.provider) ==> Holds(w.providers, s.provider, provider)
    case Taken(name, _, s) => PlacePending(c, w.now, p, name) ==> HoldsOrigin(w, name, s.state)
    case Passed(name, s, _) => HoldsOrigin(w, name, s.state)
    case _ => true
  }

  ghost predicate StoredSteady(w: World, k: string) {
    k in w.book.sessions && w.now <= w.book.sessions[k].expiresAt ==> HoldsOrigin(w, w.book.sessions[k].provider, k)
  }

  ghost predicate Steady(c: Config, w: World) {
    && "" !in w.providers && OriginsOk(w) && Faithful(w)
    && (forall id: nat :: PlaceSteady(c, w, At(w, id)) && OriginOk(w.book, At(w, id)))
    && (forall k :: StoredSteady(w, k))
  }

  // ---- every other step keeps it ----

  lemma {:induction false} OthersStay(c: Config, w: World, id: nat, state: string, verifier: string)
    ensures forall j: nat :: j != id ==> At(Step(c, w, Go(id, state, verifier)), j) == At(w, j)
  {
    hide Next;
  }

  // What a book keeps of another from which it grew.
  ghost predicate Grown(b: Book, d: Book) {
    && (forall k :: k in b.origins ==> k in d.origins && d.origins[k] == b.origins[k])
  }

  lemma {:induction false} GoGrows(c: Config, w: World, id: nat, state: string, verifier: string)
    requires Inv(c, w) && OriginsOk(w)
    ensures Grown(w.book, Step(c, w, Go(id, state, verifier)).book)
  {
    hide BookOk, ProofKey, NewSession, Check;
    assert PlaceOk(c, w.book, At(w, id));
  }

  lemma {:induction false} StaysSteady(c: Config, w: World, v: World, p: Place)
    requires v.now == w.now && v.providers == w.providers && Grown(w.book, v.book)
    requires PlaceSteady(c, w, p) && OriginOk(w.book, p)
    ensures PlaceSteady(c, v, p) && OriginOk(v.book, p)
  {
    hide CanMake;
  }

  lemma {:induction false} KeyEitherWay(c: Config, p: Provider, o: AuthOptions, verifier: string)
    ensures ProofKey(c, p, o, verifier).Some? == CanMake(c, p, o)
  {
  }

  // The goroutine that moves.
  lemma {:induction false} GoPlace(c: Config, w: World, id: nat, state: string, verifier: string)
    requires Inv(c, w) && Steady(c, w)
    ensures var v := Step(c, w, Go(id, state, verifier));
            PlaceSteady(c, v, At(v, id)) && OriginOk(v.book, At(v, id))
  {
    hide BookOk, ProofKey, CanMake;
    var p := At(w, id);
    assert PlaceOk(c, w.book, p) && PlaceSteady(c, w, p) && OriginOk(w.book, p);
    if p.Drawn? {
      KeyEitherWay(c, p.provider, p.o, verifier);
    }
    if p.Asked? {
      assert StoredSteady(w, p.state);
      assert BookOk(c, w.book);
      SessionsAre(c, w.book, p.state);
    }
  }

  lemma {:induction false} SessionsAre(c: Config, b: Book, k: string)
    requires BookOk(c, b)
    ensures k in b.sessions ==> b.sessions[k].state == k && k in b.made
  {
    assert SessionOk(b, k);
  }

  lemma {:induction false} GoStored(c: Config, w: World, id: nat, state: string, verifier: string, k: string)
    requires Inv(c, w) && Steady(c, w)
    ensures StoredSteady(Step(c, w, Go(id, state, verifier)), k)
  {
    hide BookOk, ProofKey, CanMake, Check;
    GoGrows(c, w, id, state, verifier);
    assert PlaceOk(c, w.book, At(w, id)) && PlaceSteady(c, w, At(w, id)) && OriginOk(w.book, At(w, id));
    assert StoredSteady(w, k);
  }

  lemma {:induction false} GoBooks(c: Config, w: World, id: nat, state: string, verifier: string)
    requires Inv(c, w) && Steady(c, w)
    ensures OriginsOk(Step(c, w, Go(id, state, verifier))) && Faithful(Step(c, w, Go(id, state, verifier)))
  {
    hide BookOk, ProofKey, CanMake, Check, PlaceSteady, StoredSteady;
    GoGrows(c, w, id, state, verifier);
    assert PlaceOk(c, w.book, At(w, id)) && OriginOk(w.book, At(w, id));
  }

  lemma {:induction false} GoSteady(c: Config, w: World, id: nat, state: string, verifier: string)
    requires Inv(c, w) && Steady(c, w)
    ensures Steady(c, Step(c, w, Go(id, state, verifier)))
  {
    var v := Step(c, w, Go(id, state, verifier));
    assert v.now == w.now && v.providers == w.providers;
    GoBooks(c, w, id, state, verifier);
    GoGrows(c, w, id, state, verifier);
    OthersStay(c, w, id, state, verifier);
    hide Step, Inv, PlaceSteady, StoredSteady, OriginOk, OriginsOk, Faithful, Grown;
    forall j: nat ensures PlaceSteady(c, v, At(v, j)) && OriginOk(v.book, At(v, j)) {
      if j == id {
        GoPlace(c, w, id, state, verifier);
      } else {
        StaysSteady(c, w, v, At(w, j));
      }
    }
    forall k ensures StoredSteady(v, k) {
      GoStored(c, w, id, state, verifier, k);
    }
  }

  // The moves of the world around, but for unregistering.
  lemma {:induction false} OtherSteady(c: Config, w: World, m: Move)
    requires Steady(c, w) && !m.Go? && !m.Unregister?
    ensures Steady(c, Step(c, w, m))
  {
    hide CanMake, Next;
    var v := Step(c, w, m);
    forall j: nat ensures PlaceSteady(c, v, At(v, j)) && OriginOk(v.book, At(v, j)) {
      assert PlaceSteady(c, w, At(w, j)) && OriginOk(w.book, At(w, j));
    }
    forall k ensures StoredSteady(v, k) {
      assert StoredSteady(w, k);
    }
  }

  lemma {:induction false} UnregisterSteady(c: Config, w: World, name: string)
    requires Steady(c, w) && !Pending(c, w, name)
    ensures Steady(c, Step(c, w, Unregister(name)))
  {
    hide CanMake;
    var v := Step(c, w, Unregister(name));
    forall j: nat ensures PlaceSteady(c, v, At(v, j)) && OriginOk(v.book, At(v, j)) {
      assert PlaceSteady(c, w, At(w, j)) && OriginOk(w.book, At(w, j)) && !PlacePending(c, w.now, At(w, j), name);
    }
    forall k ensures StoredSteady(v, k) {
      assert StoredSteady(w, k) && !StoredPending(w, k, name);
    }
  }

  // ---- runs ----

  // Whatever is unregistered, nothing is pending for it.
  ghost predicate HarmlessMove(c: Config, w: World, m: Move) {
    m.Unregister? ==> !Pending(c, w, m.unregName)
  }

  ghost predicate HarmlessRun(c: Config, w: World, ms: seq<Move>) {
    forall n :: 0 <= n < |ms| ==> HarmlessMove(c, Run(c, w, ms[..n]), ms[n])
  }

  lemma {:induction false} RunSteady(c: Config, w: World, ms: seq<Move>)
    requires Inv(c, w) && Steady(c, w) && HarmlessRun(c, w, ms)
    ensures Inv(c, Run(c, w, ms)) && Steady(c, Run(c, w, ms))
  {
    hide Inv, Steady, Step, HarmlessMove;
    if ms != [] {
      var front, m := ms[..|ms| - 1], ms[|ms| - 1];
      assert forall n :: 0 <= n < |front| ==> ms[..n] == front[..n] && ms[n] == front[n];
      RunSteady(c, w, front);
      var v := Run(c, w, front);
      StepKeepsInv(c, v, m);
      assert HarmlessMove(c, v, m);
      StepSteady(c, v, m);
    }
  }

  lemma {:induction false} StepSteady(c: Config, w: World, m: Move)
    requires Inv(c, w) && Steady(c, w) && HarmlessMove(c, w, m)
    ensures Steady(c, Step(c, w, m))
  {
    hide Inv, Steady, Step, Pending;
    if m.Go? {
      GoSteady(c, w, m.id, m.state, m.verifier);
    } else if m.Unregister? {
      UnregisterSteady(c, w, m.unregName);
    } else {
      OtherSteady(c, w, m);
    }
  }

  lemma {:induction false} StartSteady(c: Config)
    ensures Inv(c, START) && Steady(c, START)
  {
    StartInv(c);
  }

  // Calls and URLs of the same state are of the same instance.
  ghost predicate SameInstances(w: World) {
    forall k, u :: k in w.book.calls && u in w.book.urls && u.state == k.state ==> k.provider == u.provider
  }

  lemma {:induction false} SteadySame(c: Config, w: World)
    requires Steady(c, w)
    ensures Faithful(w) && SameInstances(w)
  {
    forall k, u | k in w.book.calls && u in w.book.urls && u.state == k.state ensures k.provider == u.provider {
      var i :| 0 <= i < |w.book.calls| && w.book.calls[i] == k;
      var j :| 0 <= j < |w.book.urls| && w.book.urls[j] == u;
    }
  }

  /** As long as nothing is unregistered for which something is pending, every call goes to the
      instance its session was made for, which is the one that made the URL for its state. */
  lemma {:induction false} SameInstance(c: Config, ms: seq<Move>)
    requires HarmlessRun(c, START, ms)
    ensures Faithful(Run(c, START, ms)) && SameInstances(Run(c, START, ms))
  {
    hide Run, HarmlessRun, Steady, Faithful, SameInstances;
    StartSteady(c);
    RunSteady(c, START, ms);
    SteadySame(c, Run(c, START, ms));
  }

  // ---- unregistering what is pending ----

  ghost predicate NoUnregister(ms: seq<Move>) {
    forall i :: 0 <= i < |ms| ==> !ms[i].Unregister?
  }

  lemma {:induction false} RunCons(c: Config, w: World, m: Move, ms: seq<Move>)
    ensures Run(c, w, [m] + ms) == Run(c, Step(c, w, m), ms)
  {
    hide Step;
    if ms == [] {
      assert [m] + ms == [m] && [m][..0] == [];
      assert Run(c, w, [m]) == Step(c, Run(c, w, []), m);
    } else {
      var front, last := ms[..|ms| - 1], ms[|ms| - 1];
      assert ([m] + ms)[..|ms|] == [m] + front;
      RunCons(c, w, m, front);
    }
  }

  // One more move in front of a run that goes astray.
  lemma {:induction false} Before(c: Config, w: World, m: Move, ms: seq<Move>)
    requires !m.Unregister? && NoUnregister(ms) && !Faithful(Run(c, Step(c, w, m), ms))
    ensures NoUnregister([m] + ms) && !Faithful(Run(c, w, [m] + ms))
  {
    hide Step, Run, Faithful;
    RunCons(c, w, m, ms);
  }

  // Another instance than its session was made for is registered under the name.
  ghost predicate Replaced(w: World, name: string, state: string) {
    name in w.providers && state in w.book.origins && w.providers[name] != w.book.origins[state]
  }

  lemma {:induction false} PassedAstray(c: Config, w: World, id: nat) returns (ms: seq<Move>)
    requires At(w, id).Passed? && Replaced(w, At(w, id).name, At(w, id).session.state)
    ensures NoUnregister(ms) && !Faithful(Run(c, w, ms))
  {
    var g := Go(id, "", "");
    var v := Step(c, w, g);
    var u := Step(c, v, g);
    assert !Faithful(u) by {
      assert u.book.calls[|w.book.calls|].provider == w.providers[At(w, id).name];
    }
    ms := [];
    assert Run(c, u, ms) == u;
    hide Step, Run, Faithful;
    Before(c, v, g, ms);
    Before(c, w, g, [g] + ms);
    ms := [g] + ([g] + ms);
  }

  lemma {:induction false} TakenAstray(c: Config, w: World, id: nat) returns (ms: seq<Move>)
    requires At(w, id).Taken? && Replaced(w, At(w, id).name, At(w, id).session.state)
    requires var p := At(w, id); p.session.state == p.state && PlacePending(c, w.now, p, p.name)
    ensures NoUnregister(ms) && !Faithful(Run(c, w, ms))
  {
    var g := Go(id, "", "");
    ms := PassedAstray(c, Step(c, w, g), id);
    hide Step, Run, Faithful;
    Before(c, w, g, ms);
    ms := [g] + ms;
  }

  lemma {:induction false} StoredAstray(c: Config, w: World, k: string) returns (ms: seq<Move>)
    requires k in w.book.sessions && w.book.sessions[k].state == k
    requires StoredPending(w, k, w.book.sessions[k].provider) && Replaced(w, w.book.sessions[k].provider, k)
    ensures NoUnregister(ms) && !Faithful(Run(c, w, ms))
  {
    var id := Beyond(w.places.Keys);
    var e, g := Exchange(id, w.book.sessions[k].provider, k), Go(id, "", "");
    var v := Step(c, w, e);
    ms := TakenAstray(c, Step(c, v, g), id);
    hide Step, Run, Faithful;
    Before(c, v, g, ms);
    Before(c, w, e, [g] + ms);
    ms := [e] + ([g] + ms);
  }

  lemma {:induction false} MadeAstray(c: Config, w: World, id: nat) returns (ms: seq<Move>)
    requires At(w, id).Made? && w.now <= At(w, id).session.expiresAt
    requires Replaced(w, At(w, id).session.provider, At(w, id).session.state)
    ensures NoUnregister(ms) && !Faithful(Run(c, w, ms))
  {
    var g := Go(id, "", "");
    ms := StoredAstray(c, Step(c, w, g), At(w, id).session.state);
    hide Step, Run, Faithful;
    Before(c, w, g, ms);
    ms := [g] + ms;
  }

  // Another instance than the goroutine found is registered under the name.
  ghost predicate Swapped(w: World, name: string, provider: Provider) {
    name in w.providers && w.providers[name] != provider
  }

  lemma {:induction false} DatedAstray(c: Config, w: World, id: nat) returns (ms: seq<Move>)
    requires At(w, id).Dated? && c.timeout >= 0.0 && Swapped(w, At(w, id).name, At(w, id).provider)
    ensures NoUnregister(ms) && !Faithful(Run(c, w, ms))
  {
    var g := Go(id, "", "");
    ms := MadeAstray(c, Step(c, w, g), id);
    hide Step, Run, Faithful;
    Before(c, w, g, ms);
    ms := [g] + ms;
  }

  lemma {:induction false} DrawnAstray(c: Config, w: World, id: nat) returns (ms: seq<Move>)
    requires At(w, id).Drawn? && c.timeout >= 0.0 && Swapped(w, At(w, id).name, At(w, id).provider)
    requires CanMake(c, At(w, id).provider, At(w, id).o)
    ensures NoUnregister(ms) && !Faithful(Run(c, w, ms))
  {
    var g := Go(id, "", "");
    ms := DatedAstray(c, Step(c, w, g), id);
    hide Step, Run, Faithful;
    Before(c, w, g, ms);
    ms := [g] + ms;
  }

  // A state not drawn before.
  lemma {:induction false} Undrawn(drawn: set<string>) returns (state: string)
    ensures state !in drawn && forall s :: s in drawn ==> |s| < |state|
  {
    if drawn == {} {
      state := "x";
    } else {
      var s :| s in drawn;
      var t := Undrawn(drawn - {s});
      state := s + t + "x";
    }
  }

  lemma {:induction false} ChosenAstray(c: Config, w: World, id: nat) returns (ms: seq<Move>)
    requires At(w, id).Chosen? && c.timeout >= 0.0 && Swapped(w, At(w, id).name, At(w, id).provider)
    requires CanMake(c, At(w, id).provider, At(w, id).o)
    ensures NoUnregister(ms) && !Faithful(Run(c, w, ms))
  {
    var state := Undrawn(w.book.drawn);
    var g := Go(id, state, "");
    ms := DrawnAstray(c, Step(c, w, g), id);
    hide Step, Run, Faithful;
    Before(c, w, g, ms);
    ms := [g] + ms;
  }

  // With another instance registered, what a goroutine has pending goes astray.
  lemma {:induction false} PlaceAstray(c: Config, w: World, v: World, id: nat, name: string) returns (ms: seq<Move>)
    requires Inv(c, w) && Steady(c, w) && PlacePending(c, w.now, At(w, id), name)
    requires v == w.(providers := v.providers) && name in v.providers
    requires name in w.providers ==> v.providers[name] != w.providers[name]
    ensures NoUnregister(ms) && !Faithful(Run(c, v, ms))
  {
    hide BookOk, Run, Faithful, CanMake, OriginsOk, NoUnregister;
    var p := At(w, id);
    assert At(v, id) == p && PlaceOk(c, w.book, p) && PlaceSteady(c, w, p) && OriginOk(w.book, p);
    match p
    case Chosen(_, _, _) => ms := ChosenAstray(c, v, id);
    case Drawn(_, _, _, _) => ms := DrawnAstray(c, v, id);
    case Dated(_, _, _, _, _) => ms := DatedAstray(c, v, id);
    case Made(_, _) => ms := MadeAstray(c, v, id);
    case Taken(_, _, _) => ms := TakenAstray(c, v, id);
    case Passed(_, _, _) => ms := PassedAstray(c, v, id);
  }

  lemma {:induction false} SessionAstray(c: Config, w: World, v: World, k: string, name: string) returns (ms: seq<Move>)
    requires Inv(c, w) && Steady(c, w) && StoredPending(w, k, name)
    requires v == w.(providers := v.providers) && name in v.providers
    requires name in w.providers ==> v.providers[name] != w.providers[name]
    ensures NoUnregister(ms) && !Faithful(Run(c, v, ms))
  {
    hide BookOk, Run, Faithful, OriginsOk;
    SessionsAre(c, w.book, k);
    assert StoredSteady(w, k);
    ms := StoredAstray(c, v, k);
  }

  // Unregistered, and replaced by an instance of another number.
  lemma {:induction false} PendingAstray(c: Config, w: World, name: string) returns (ms: seq<Move>)
    requires Inv(c, w) && Steady(c, w) && Pending(c, w, name)
    ensures NoUnregister(ms) && !Faithful(Run(c, Step(c, w, Unregister(name)), ms))
  {
    hide Inv, Run, Faithful;
    var u := Step(c, w, Unregister(name));
    var q := if name in w.providers then Provider(w.providers[name].id + 1, false) else Provider(0, false);
    var m := Register(name, q);
    var v := Step(c, u, m);
    PendingNamed(c, w, name);
    assert v == w.(providers := v.providers) && v.providers[name] == q;
    if id: nat :| PlacePending(c, w.now, At(w, id), name) {
      ms := PlaceAstray(c, w, v, id, name);
    } else {
      var k :| StoredPending(w, k, name);
      ms := SessionAstray(c, w, v, k, name);
    }
    hide Step, Steady;
    Before(c, u, m, ms);
    ms := [m] + ms;
  }

  lemma {:induction false} PendingNamed(c: Config, w: World, name: string)
    requires Inv(c, w) && Steady(c, w) && Pending(c, w, name)
    ensures name in w.providers && name != ""
  {
    hide BookOk, CanMake, OriginsOk, Faithful;
    if id: nat :| PlacePending(c, w.now, At(w, id), name) {
      assert PlaceOk(c, w.book, At(w, id)) && PlaceSteady(c, w, At(w, id));
    } else {
      var k :| StoredPending(w, k, name);
      assert StoredSteady(w, k);
    }
  }

  /** One Unregister, exactly. Whatever follows without another one, every call goes to the
      instance its session was made for, if and only if nothing is pending for the name: no
      unexpired session of it is stored or taken, and none is being made. */
  lemma {:induction false} UnregisterExactly(c: Config, w: World, name: string)
    requires Inv(c, w) && Steady(c, w)
    ensures (forall ms :: NoUnregister(ms) ==> Faithful(Run(c, Step(c, w, Unregister(name)), ms)))
       <==> !Pending(c, w, name)
  {
    hide Inv, Steady, Run, Faithful, Pending;
    var u := Step(c, w, Unregister(name));
    if Pending(c, w, name) {
      var ms := PendingAstray(c, w, name);
    } else {
      UnregisterSteady(c, w, name);
      StepKeepsInv(c, w, Unregister(name));
      forall ms | NoUnregister(ms) ensures Faithful(Run(c, u, ms)) {
        NoUnregisterHarmless(c, u, ms);
        RunSteady(c, u, ms);
        SteadySame(c, Run(c, u, ms));
      }
    }
  }

  lemma {:induction false} NoUnregisterHarmless(c: Config, w: World, ms: seq<Move>)
    requires NoUnregister(ms)
    ensures HarmlessRun(c, w, ms)
  {
    hide Run, Pending;
  }

  /** The instance may change any time between the lookups of the provider in GetAuthURL and in
      Exchange, also without any overlap: here both flows run uninterrupted, at one time. */
  lemma {:induction false} OtherInstance(c: Config) returns (w: World)
    requires c.timeout >= 0.0
    ensures Gaps.Reachable(c, w) && |w.book.calls| == 1 && |w.book.urls| == 1 && Gaps.CallsOnTime(w)
    ensures w.book.calls[0].state == w.book.urls[0].state && w.book.calls[0].provider != w.book.urls[0].provider
  {
    hide Gaps.Reachable;
    var w0 := Gaps.ReachSent(c);
    var m1, m2, m3 := Unregister("p"), Register("p", Provider(1, false)), Exchange(0, "p", "s");
    var w1 := Step(c, w0, m1);
    var w2 := Step(c, w1, m2);
    var w3 := Step(c, w2, m3);
    Gaps.Reach(c, w0, m1);
    Gaps.Reach(c, w1, m2);
    Gaps.Reach(c, w2, m3);
    assert w2.providers == map["p" := Provider(1, false)];
    var g := Go(0, "", "");
    w := Steps4(c, w3, g);
    UninterruptedExchange(c, w3, 0);
    hide Step;
    Gaps.Reach(c, w3, g);
    Gaps.Reach(c, Step(c, w3, g), g);
    Gaps.Reach(c, Step(c, Step(c, w3, g), g), g);
    Gaps.Reach(c, Step(c, Step(c, Step(c, w3, g), g), g), g);
  }

  /** Over all runs: every call goes to the instance that made the URL for its state if and only
      if providers are never unregistered, or the timeout is negative and there are no calls. */
  lemma {:induction false} InstancesExactly(c: Config, mayUnregister: bool)
    ensures (forall ms :: mayUnregister || NoUnregister(ms) ==> SameInstances(Run(c, START, ms)))
       <==> !mayUnregister || c.timeout < 0.0
  {
    hide Run, NoUnregister, SameInstances, Gaps.Reachable;
    if !mayUnregister {
      forall ms | NoUnregister(ms) ensures SameInstances(Run(c, START, ms)) {
        NoUnregisterHarmless(c, START, ms);
        SameInstance(c, ms);
      }
    } else if c.timeout < 0.0 {
      Gaps.NeverLate(c);
      forall ms ensures SameInstances(Run(c, START, ms)) {
        NoCalls(Run(c, START, ms));
      }
    } else {
      var w := OtherInstance(c);
      DifferentInstances(w);
      ReachedBy(c, w);
    }
  }

  lemma {:induction false} NoCalls(w: World)
    requires w.book.calls == []
    ensures SameInstances(w)
  {
  }

  lemma {:induction false} DifferentInstances(w: World)
    requires |w.book.calls| == 1 && |w.book.urls| == 1
    requires w.book.calls[0].state == w.book.urls[0].state && w.book.calls[0].provider != w.book.urls[0].provider
    ensures !SameInstances(w)
  {
    assert w.book.calls[0] in w.book.calls && w.book.urls[0] in w.book.urls;
  }

  lemma {:induction false} ReachedBy(c: Config, w: World)
    requires Gaps.Reachable(c, w)
    ensures exists ms :: Run(c, START, ms) == w
  {
  }
}

/** What authorization does not promise, because nothing is locked between its steps
    (oauth/multi_provider_service.go:144-241): exactly when a provider is called after the
    session has expired. */
module OauthSessionGaps {
  import opened Options
  import opened OauthSessions
  import opened OauthSessionSteps

  // ---- late calls ----

  ghost predicate CallOnTime(made: map<string, Session>, k: CallMade) {
    k.state in made && k.at <= made[k.state].expiresAt
  }

  // Every call so far was made before its session expired.
  ghost predicate CallsOnTime(w: World) {
    forall i :: 0 <= i < |w.book.calls| ==> CallOnTime(w.book.made, w.book.calls[i])
  }

  // Nothing but its own steps stands between the goroutine and the call.
  predicate Due(w: World, p: Place) {
    p.Ready? || (p.Passed? && p.name in w.providers)
  }

  // A call is due for a session that has expired.
  ghost predicate Overdue(w: World) {
    exists id: nat :: Due(w, At(w, id)) && w.now > At(w, id).session.expiresAt
  }

  ghost predicate AllGo(ms: seq<Move>) {
    forall i :: 0 <= i < |ms| ==> ms[i].Go?
  }

  lemma {:induction false} OthersStay(c: Config, w: World, id: nat, state: string, verifier: string)
    ensures forall j: nat :: j != id ==> At(Step(c, w, Go(id, state, verifier)), j) == At(w, j)
  {
    hide Next;
  }

  lemma {:induction false} MadeStays(c: Config, w: World, m: Move)
    requires Inv(c, w)
    ensures var v := Step(c, w, m);
            forall k :: k in w.book.made ==> k in v.book.made && v.book.made[k] == w.book.made[k]
  {
    hide BookOk, ProofKey, NewSession, Kept, Check;
    if m.Go? {
      assert PlaceOk(c, w.book, At(w, m.id));
    }
  }

  // No step makes a late call unless one is overdue.
  lemma {:induction false} StepOnTime(c: Config, w: World, m: Move)
    requires Inv(c, w) && CallsOnTime(w) && !Overdue(w)
    ensures CallsOnTime(Step(c, w, m))
  {
    hide BookOk, ProofKey, NewSession, Kept, Check, Called;
    MadeStays(c, w, m);
    if m.Go? {
      assert PlaceOk(c, w.book, At(w, m.id));
    }
  }

  // And a goroutine's own step makes none overdue.
  lemma {:induction false} GoNotOverdue(c: Config, w: World, id: nat, state: string, verifier: string)
    requires Inv(c, w) && !Overdue(w)
    ensures !Overdue(Step(c, w, Go(id, state, verifier)))
  {
    hide BookOk, ProofKey, NewSession, Called;
    var v := Step(c, w, Go(id, state, verifier));
    OthersStay(c, w, id, state, verifier);
    assert PlaceOk(c, w.book, At(w, id));
    forall j: nat ensures !(Due(v, At(v, j)) && v.now > At(v, j).session.expiresAt) {
      assert Due(w, At(w, j)) ==> w.now <= At(w, j).session.expiresAt;
    }
  }

  lemma {:induction false} RunSnoc(c: Config, w: World, ms: seq<Move>, m: Move)
    ensures Run(c, w, ms + [m]) == Step(c, Run(c, w, ms), m)
  {
    hide Step;
    assert (ms + [m])[..|ms|] == ms;
  }

  lemma {:induction false} PrefixesOnTime(c: Config, ms: seq<Move>, n: nat)
    requires n <= |ms| && forall k :: 0 <= k <= |ms| ==> !Overdue(Run(c, START, ms[..k]))
    ensures CallsOnTime(Run(c, START, ms[..n]))
  {
    hide Run, Step, Inv, CallsOnTime, Overdue;
    if n == 0 {
      assert ms[..0] == [];
      StartOnTime(c);
    } else {
      PrefixesOnTime(c, ms, n - 1);
      assert ms[..n] == ms[..n - 1] + [ms[n - 1]];
      RunSnoc(c, START, ms[..n - 1], ms[n - 1]);
      RunKeepsInv(c, ms[..n - 1]);
      StepOnTime(c, Run(c, START, ms[..n - 1]), ms[n - 1]);
    }
  }

  lemma {:induction false} StartOnTime(c: Config)
    ensures Run(c, START, []) == START && CallsOnTime(START)
  {
  }

  // Steps of goroutines from a run after which nothing is overdue.
  lemma {:induction false} GoesOnTime(c: Config, ms: seq<Move>, gs: seq<Move>)
    requires CallsOnTime(Run(c, START, ms)) && !Overdue(Run(c, START, ms)) && AllGo(gs)
    ensures CallsOnTime(Run(c, START, ms + gs)) && !Overdue(Run(c, START, ms + gs))
    decreases |gs|
  {
    hide Run, Step, Inv, CallsOnTime, Overdue;
    if gs == [] {
      assert ms + gs == ms;
    } else {
      var front, g := gs[..|gs| - 1], gs[|gs| - 1];
      GoesOnTime(c, ms, front);
      assert ms + gs == (ms + front) + [g];
      RunSnoc(c, START, ms + front, g);
      RunKeepsInv(c, ms + front);
      StepOnTime(c, Run(c, START, ms + front), g);
      GoNotOverdue(c, Run(c, START, ms + front), g.id, g.state, g.verifier);
    }
  }

  // An overdue call is made late by the goroutine's next step, or the one after it.
  lemma {:induction false} OverdueIsLate(c: Config, ms: seq<Move>) returns (gs: seq<Move>)
    requires Overdue(Run(c, START, ms))
    ensures AllGo(gs) && !CallsOnTime(Run(c, START, ms + gs))
  {
    hide Run;
    var w := Run(c, START, ms);
    var id: nat :| Due(w, At(w, id)) && w.now > At(w, id).session.expiresAt;
    var g := Go(id, "", "");
    RunKeepsInv(c, ms);
    if At(w, id).Ready? {
      gs := [g];
      RunSnoc(c, START, ms, g);
      CalledLate(c, w, id);
    } else {
      gs := [g] + [g];
      assert ms + gs == (ms + [g]) + [g];
      RunSnoc(c, START, ms, g);
      RunSnoc(c, START, ms + [g], g);
      RunKeepsInv(c, ms + [g]);
      FindsProvider(c, w, id);
      CalledLate(c, Step(c, w, g), id);
    }
  }

  lemma {:induction false} FindsProvider(c: Config, w: World, id: nat)
    requires At(w, id).Passed? && At(w, id).name in w.providers
    ensures var v := Step(c, w, Go(id, "", ""));
            v.now == w.now && At(v, id).Ready? && At(v, id).session == At(w, id).session
  {
  }

  lemma {:induction false} CalledLate(c: Config, w: World, id: nat)
    requires Inv(c, w) && At(w, id).Ready? && w.now > At(w, id).session.expiresAt
    ensures !CallsOnTime(Step(c, w, Go(id, "", "")))
  {
    hide BookOk, Called;
    assert PlaceOk(c, w.book, At(w, id));
    var v := Step(c, w, Go(id, "", ""));
    assert !CallOnTime(v.book.made, v.book.calls[|w.book.calls|]);
  }

  /** Late calls, exactly. Whatever the goroutines do next at any point of a run, every call is
      made before its session expires, if and only if at no point of the run a call is due for
      a session that has expired: the check that Exchange does not repeat. */
  lemma {:induction false} OnTimeExactly(c: Config, ms: seq<Move>)
    ensures (forall n :: 0 <= n <= |ms| ==> !Overdue(Run(c, START, ms[..n])))
       <==> (forall n, gs :: 0 <= n <= |ms| && AllGo(gs) ==> CallsOnTime(Run(c, START, ms[..n] + gs)))
  {
    hide Run, CallsOnTime, Overdue, AllGo;
    if n :| 0 <= n <= |ms| && Overdue(Run(c, START, ms[..n])) {
      var gs := OverdueIsLate(c, ms[..n]);
    } else {
      forall n, gs | 0 <= n <= |ms| && AllGo(gs) ensures CallsOnTime(Run(c, START, ms[..n] + gs)) {
        PrefixesOnTime(c, ms, n);
        GoesOnTime(c, ms[..n], gs);
      }
    }
  }

  // ---- reaching a pending call ----

  ghost predicate Reachable(c: Config, w: World) {
    exists ms :: Run(c, START, ms) == w
  }

  lemma {:induction false} Reach(c: Config, w: World, m: Move)
    requires Reachable(c, w)
    ensures Reachable(c, Step(c, w, m))
  {
    hide Step;
    var ms :| Run(c, START, ms) == w;
    assert (ms + [m])[..|ms + [m]| - 1] == ms;
    assert Run(c, START, ms + [m]) == Step(c, w, m);
  }

  const PLAIN: AuthOptions := AuthOptions(false, "")
  const GO: Move := Go(0, "s", "")

  lemma {:induction false} ReachStart(c: Config)
    ensures Reachable(c, START)
  {
    assert Run(c, START, []) == START;
  }

  // Provider 0 is registered as "p", and a session for it is ready to be stored.
  lemma {:induction false} ReachMade(c: Config) returns (w: World)
    ensures Reachable(c, w) && w.now == 0.0 && w.providers == map["p" := Provider(0, false)]
    ensures var s := NewSession(c, "p", "s", None, 0.0, 0.0);
            && At(w, 0) == Made(Provider(0, false), s)
            && w.book == Book(map[], {"s"}, map["s" := s], map["s" := Provider(0, false)], [], [], [])
  {
    hide Reachable;
    ReachStart(c);
    var m1, m2 := Register("p", Provider(0, false)), Authorize(0, "p", PLAIN);
    var w1 := Step(c, START, m1);
    Reach(c, START, m1);
    var w2 := Step(c, w1, m2);
    Reach(c, w1, m2);
    var w3 := Step(c, w2, GO);
    Reach(c, w2, GO);
    assert w3.book.drawn == {"s"};
    var w4 := Step(c, w3, GO);
    Reach(c, w3, GO);
    w := Step(c, w4, GO);
    Reach(c, w4, GO);
  }

  // Its URL has been sent.
  lemma {:induction false} ReachSent(c: Config) returns (w: World)
    ensures Reachable(c, w) && w.now == 0.0 && w.providers == map["p" := Provider(0, false)]
    ensures var s := NewSession(c, "p", "s", None, 0.0, 0.0);
            && At(w, 0) == Idle
            && w.book
               == Book(map["s" := s], {"s"}, map["s" := s], map["s" := Provider(0, false)], [],
                       [UrlSent("s", "p", Provider(0, false), None)], [])
  {
    hide Reachable;
    var w0 := ReachMade(c);
    var w1 := Step(c, w0, GO);
    Reach(c, w0, GO);
    w := Step(c, w1, GO);
    Reach(c, w1, GO);
  }

  // And its expiry has been checked at time 0.
  lemma {:induction false} ReachChecked(c: Config) returns (w: World)
    requires c.timeout >= 0.0
    ensures Reachable(c, w) && w.now == 0.0 && w.providers == map["p" := Provider(0, false)]
    ensures var s := NewSession(c, "p", "s", None, 0.0, 0.0);
            && At(w, 0) == Passed("p", s, 0.0)
            && w.book
               == Book(map[], {"s"}, map["s" := s], map["s" := Provider(0, false)], ["s"],
                       [UrlSent("s", "p", Provider(0, false), None)], [])
  {
    hide Reachable;
    var s := NewSession(c, "p", "s", None, 0.0, 0.0);
    var w2 := ReachSent(c);
    var m := Exchange(0, "p", "s");
    var w3 := Step(c, w2, m);
    Reach(c, w2, m);
    var w4 := Step(c, w3, GO);
    Reach(c, w3, GO);
    assert At(w4, 0) == Taken("p", "s", s) && w4.book.sessions == map[];
    w := Step(c, w4, GO);
    Reach(c, w4, GO);
  }

  /** Between the checks and the call no lock is held: with any timeout that is not negative a
      call may be made after the session has expired. Here it also goes to another instance. */
  lemma {:induction false} LateCall(c: Config) returns (w: World)
    requires c.timeout >= 0.0
    ensures Reachable(c, w) && |w.book.calls| == 1 && |w.book.urls| == 1 && !CallsOnTime(w)
    ensures var k, u := w.book.calls[0], w.book.urls[0];
            k.state == u.state && k.state in w.book.made
            && k.at > w.book.made[k.state].expiresAt && k.provider != u.provider
  {
    hide Reachable;
    var w0 := ReachChecked(c);
    var m1, m2, m3 := Tick(c.timeout + 1.0), Unregister("p"), Register("p", Provider(1, false));
    var w1 := Step(c, w0, m1);
    var w2 := Step(c, w1, m2);
    var w3 := Step(c, w2, m3);
    var w4 := Step(c, w3, GO);
    Reach(c, w0, m1);
    Reach(c, w1, m2);
    Reach(c, w2, m3);
    Reach(c, w3, GO);
    Reach(c, w4, GO);
    w := Step(c, w4, GO);
    assert !CallOnTime(w.book.made, w.book.calls[0]);
  }

  // Sessions that have expired when they are made never pass the check.
  ghost predicate Barren(c: Config, w: World) {
    && w.book.calls == []
    && (forall k :: k in w.book.made ==> MadeBy(c, w, w.book.made[k]))
    && (forall id: nat :: !At(w, id).Passed? && !At(w, id).Ready?)
  }

  ghost predicate MadeBy(c: Config, w: World, s: Session) {
    s.expiresAt <= w.now + c.timeout
  }

  lemma {:induction false} StepBarren(c: Config, w: World, m: Move)
    requires c.timeout < 0.0 && Inv(c, w) && Barren(c, w)
    ensures Barren(c, Step(c, w, m))
  {
    hide BookOk, ProofKey, Kept, Called;
    var v := Step(c, w, m);
    if m.Go? {
      OthersStay(c, w, m.id, m.state, m.verifier);
      var p := At(w, m.id);
      assert PlaceOk(c, w.book, p);
      assert p.Taken? ==> MadeBy(c, w, p.session);
    }
    forall k | k in v.book.made ensures MadeBy(c, v, v.book.made[k]) {
      assert k in w.book.made && v.book.made[k] == w.book.made[k] ==> MadeBy(c, w, w.book.made[k]);
    }
    forall id: nat ensures !At(v, id).Passed? && !At(v, id).Ready? {
      assert !At(w, id).Passed? && !At(w, id).Ready?;
    }
  }

  lemma {:induction false} RunBarren(c: Config, ms: seq<Move>)
    requires c.timeout < 0.0
    ensures Barren(c, Run(c, START, ms))
  {
    hide Inv, Step, Barren;
    if ms == [] {
      assert Barren(c, START) by { StartBarren(c); }
    } else {
      RunBarren(c, ms[..|ms| - 1]);
      RunKeepsInv(c, ms[..|ms| - 1]);
      StepBarren(c, Run(c, START, ms[..|ms| - 1]), ms[|ms| - 1]);
    }
  }

  lemma {:induction false} StartBarren(c: Config)
    ensures Barren(c, START)
  {
  }

  /** No run whatever makes a late call if and only if the session timeout is negative, and
      then no run makes any. */
  lemma {:induction false} NeverLate(c: Config)
    ensures (forall ms :: CallsOnTime(Run(c, START, ms))) <==> c.timeout < 0.0
    ensures c.timeout < 0.0 ==> forall ms :: Run(c, START, ms).book.calls == []
  {
    hide Run;
    if c.timeout < 0.0 {
      forall ms ensures Run(c, START, ms).book.calls == [] && CallsOnTime(Run(c, START, ms)) {
        RunBarren(c, ms);
      }
    } else {
      var w := LateCall(c);
      var ms :| Run(c, START, ms) == w;
      assert !CallsOnTime(Run(c, START, ms));
    }
  }
}

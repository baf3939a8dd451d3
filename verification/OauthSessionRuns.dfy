/** Runs of the authorization service whose calls do not overlap, with and without the cleanup
    of the session store (oauth/service.go:594-608, oauth/multi_provider_service.go:144-241). */
module OauthSessionRuns {
  import opened OauthSessions

  // One call, with the registry as it is then. The first reading of the clock in GetAuthURL may
  // lie before the second.
  datatype Event =
    | Authorize(ps: Providers, name: string, o: AuthOptions, state: string, verifier: string, created: real, at: real)
    | Exchange(ps: Providers, name: string, state: string, at: real)
    | Sweep(at: real)

  datatype Answer = Issuing(i: Issued) | Redeeming(r: Redeemed)

  function After(c: Config, ss: Sessions, e: Event): Sessions {
    match e
    case Authorize(ps, name, o, state, verifier, created, at) =>
      Issue(c, ps, ss, name, o, state, verifier, created, at).1
    case Exchange(ps, name, state, at) => Redeem(ps, ss, name, state, at).1
    case Sweep(at) => Kept(ss, c.timeout, at)
  }

  function AnswerTo(c: Config, ss: Sessions, e: Event): Answer
    requires !e.Sweep?
  {
    match e
    case Authorize(ps, name, o, state, verifier, created, at) =>
      Issuing(Issue(c, ps, ss, name, o, state, verifier, created, at).0)
    case Exchange(ps, name, state, at) => Redeeming(Redeem(ps, ss, name, state, at).0)
  }

  // What the callers are told; with sweeps turned off, sweeps do nothing.
  function Answers(c: Config, ss: Sessions, es: seq<Event>, sweeps: bool): seq<Answer>
    decreases |es|
  {
    if es == [] then []
    else if es[0].Sweep? then Answers(c, if sweeps then After(c, ss, es[0]) else ss, es[1..], sweeps)
    else [AnswerTo(c, ss, es[0])] + Answers(c, After(c, ss, es[0]), es[1..], sweeps)
  }

  ghost predicate Timely(es: seq<Event>, from: real) {
    es == [] || (from <= es[0].at && Timely(es[1..], es[0].at))
  }

  // The same answer, or not found where there would have been an expired session.
  predicate Alike(a: Answer, b: Answer) {
    a == b || (a == Redeeming(Refused(NotFound)) && b == Redeeming(Refused(SessionExpired)))
  }

  ghost predicate AllAlike(a: seq<Answer>, b: seq<Answer>) {
    |a| == |b| && forall i :: 0 <= i < |a| ==> Alike(a[i], b[i])
  }

  // ss is us without some sessions that have expired.
  ghost predicate Swept(ss: Sessions, us: Sessions, now: real) {
    && (forall k :: k in ss ==> k in us && ss[k] == us[k])
    && (forall k :: k in us && k !in ss ==> Expired(us[k], now))
  }

  // A sweep removes no session that has not expired. It can, between one timeout after the first
  // reading of the clock and one timeout after the second.
  ghost predicate Punctual(c: Config, ss: Sessions, now: real) {
    forall k :: k in ss && now - ss[k].createdAt > c.timeout ==> Expired(ss[k], now)
  }

  ghost predicate PunctualRun(c: Config, ss: Sessions, es: seq<Event>)
    decreases |es|
  {
    es == [] || ((es[0].Sweep? ==> Punctual(c, ss, es[0].at)) && PunctualRun(c, After(c, ss, es[0]), es[1..]))
  }

  lemma {:induction false} SweepSweeps(c: Config, ss: Sessions, us: Sessions, now: real)
    requires Punctual(c, ss, now) && Swept(ss, us, now)
    ensures Swept(Kept(ss, c.timeout, now), us, now)
  {
  }

  lemma {:induction false} CallSweeps(c: Config, ss: Sessions, us: Sessions, e: Event, from: real)
    requires Swept(ss, us, from) && from <= e.at && !e.Sweep?
    ensures Alike(AnswerTo(c, ss, e), AnswerTo(c, us, e))
    ensures Swept(After(c, ss, e), After(c, us, e), e.at)
  {
    hide ProofKey, NewSession;
  }

  lemma {:induction false} SweptLater(ss: Sessions, us: Sessions, now: real, later: real)
    requires Swept(ss, us, now) && now <= later
    ensures Swept(ss, us, later)
  {
  }

  /** The cleanup is not noticed: in every run whose sweeps are punctual, at any moments, every
      caller is told what it would be told without them, except that an expired session may
      not be found. */
  lemma {:induction false} CleanupUnnoticed(c: Config, ss: Sessions, us: Sessions, es: seq<Event>, from: real)
    requires Swept(ss, us, from) && Timely(es, from) && PunctualRun(c, ss, es)
    ensures AllAlike(Answers(c, ss, es, true), Answers(c, us, es, false))
    decreases |es|
  {
    hide Swept, AnswerTo, After, Alike, Punctual;
    if es != [] {
      var e := es[0];
      SweptLater(ss, us, from, e.at);
      if e.Sweep? {
        assert After(c, ss, e) == Kept(ss, c.timeout, e.at) by { SweepIsKept(c, ss, e); }
        SweepSweeps(c, ss, us, e.at);
        CleanupUnnoticed(c, After(c, ss, e), us, es[1..], e.at);
      } else {
        CallSweeps(c, ss, us, e, from);
        CleanupUnnoticed(c, After(c, ss, e), After(c, us, e), es[1..], e.at);
      }
    }
  }

  lemma {:induction false} SweepIsKept(c: Config, ss: Sessions, e: Event)
    requires e.Sweep?
    ensures After(c, ss, e) == Kept(ss, c.timeout, e.at)
  {
  }

  /** Every store that calls lead to is well kept, if the clock does not run backwards. */
  lemma {:induction false} StepKeepsWell(c: Config, ss: Sessions, e: Event)
    requires WellKept(c, ss) && (e.Authorize? ==> e.created <= e.at)
    ensures WellKept(c, After(c, ss, e))
  {
    hide WellKept, Issue, Redeem, Kept;
    match e
    case Authorize(ps, name, o, state, verifier, created, at) =>
      FlowsKeepWell(c, ps, ss, name, o, state, verifier, created, at);
    case Exchange(ps, name, state, at) =>
      FlowsKeepWell(c, ps, ss, name, AuthOptions(false, ""), state, "", at, at);
    case Sweep(at) => FlowsKeepWell(c, map[], ss, "", AuthOptions(false, ""), "", "", at, at);
  }

  // What an exchange is told after a sweep, and without it.
  ghost predicate Unnoticed(c: Config, ss: Sessions, swept: real, ps: Providers, name: string, state: string,
                            now: real) {
    Alike(Redeeming(Redeem(ps, Kept(ss, c.timeout, swept), name, state, now).0),
          Redeeming(Redeem(ps, ss, name, state, now).0))
  }

  /** One sweep, exactly: no exchange from then on notices it if and only if it is punctual. */
  lemma {:induction false} SweepExactly(c: Config, ss: Sessions, swept: real)
    requires WellKept(c, ss)
    ensures (forall ps: Providers, name: string, state: string, now: real ::
               swept <= now ==> Unnoticed(c, ss, swept, ps, name, state, now))
       <==> Punctual(c, ss, swept)
  {
    if k :| k in ss && swept - ss[k].createdAt > c.timeout && !Expired(ss[k], swept) {
      assert !Unnoticed(c, ss, swept, map[ss[k].provider := Provider(0, false)], ss[k].provider, k, swept);
    }
  }

  // Both readings of the clock in GetAuthURL gave the same time.
  ghost predicate OneReading(es: seq<Event>) {
    forall i :: 0 <= i < |es| && es[i].Authorize? ==> es[i].created == es[i].at
  }

  ghost predicate Exact(c: Config, ss: Sessions) {
    forall k :: k in ss ==> ss[k].expiresAt == ss[k].createdAt + c.timeout
  }

  /** If GetAuthURL reads the same time twice, every sweep is punctual. */
  lemma {:induction false} OneReadingPunctual(c: Config, ss: Sessions, es: seq<Event>)
    requires Exact(c, ss) && OneReading(es)
    ensures PunctualRun(c, ss, es)
    decreases |es|
  {
    if es != [] {
      ExactAfter(c, ss, es[0]);
      hide After, Exact;
      assert Exact(c, After(c, ss, es[0]));
      ExactPunctual(c, ss, es[0].at);
      OneReadingPunctual(c, After(c, ss, es[0]), es[1..]);
    }
  }

  lemma {:induction false} ExactPunctual(c: Config, ss: Sessions, now: real)
    requires Exact(c, ss)
    ensures Punctual(c, ss, now)
  {
  }

  lemma {:induction false} ExactAfter(c: Config, ss: Sessions, e: Event)
    requires Exact(c, ss) && (e.Authorize? ==> e.created == e.at)
    ensures Exact(c, After(c, ss, e))
  {
    hide ProofKey;
  }
}

/** The proof keys of authorizations under every interleaving
    (oauth/multi_provider_service.go:144-241): a call of a provider carries the verifier that
    was drawn for its session, wherever the options and the provider ask for one. */
module OauthProofKeys {
  import opened Options
  import opened Pkce
  import opened OauthSessions
  import opened OauthSessionSteps

  // Whoever works for a state has got past the choice of its proof key.
  predicate PastKey(p: Place, state: string) {
    !(p.Drawn? && p.state == state)
  }

  predicate HasKey(p: Place, state: string, pkce: Option<Challenge>) {
    p.Dated? && p.state == state ==> p.pkce == pkce
  }

  // The proof key of a state is settled.
  ghost predicate Settled(w: World, state: string, pkce: Option<Challenge>) {
    && state in w.book.drawn
    && (state in w.book.made ==> w.book.made[state].pkce == pkce)
    && (forall id: nat :: PastKey(At(w, id), state) && HasKey(At(w, id), state, pkce))
  }

  // The state leads to no session.
  ghost predicate GivenUp(w: World, state: string) {
    && state in w.book.drawn && state !in w.book.made
    && forall id: nat :: PastKey(At(w, id), state) && !(At(w, id).Dated? && At(w, id).state == state)
  }

  lemma {:induction false} StepSettled(c: Config, w: World, m: Move, state: string, pkce: Option<Challenge>)
    requires Settled(w, state, pkce)
    ensures Settled(Step(c, w, m), state, pkce)
  {
    hide ProofKey, Kept, Check;
    var v := Step(c, w, m);
    forall id: nat ensures PastKey(At(v, id), state) && HasKey(At(v, id), state, pkce) {
      assert PastKey(At(w, id), state) && HasKey(At(w, id), state, pkce);
    }
    if m.Go? {
      assert HasKey(At(w, m.id), state, pkce);
    }
  }

  lemma {:induction false} StepGivenUp(c: Config, w: World, m: Move, state: string)
    requires GivenUp(w, state)
    ensures GivenUp(Step(c, w, m), state)
  {
    hide ProofKey, Kept, Check;
    var v := Step(c, w, m);
    forall id: nat ensures PastKey(At(v, id), state) && !(At(v, id).Dated? && At(v, id).state == state) {
      assert PastKey(At(w, id), state) && !(At(w, id).Dated? && At(w, id).state == state);
    }
    if m.Go? {
      assert !(At(w, m.id).Dated? && At(w, m.id).state == state);
    }
  }

  lemma {:induction false} RunFrom(c: Config, w: World, ms: seq<Move>, state: string, pkce: Option<Challenge>)
    requires Inv(c, w)
    ensures var v := Run(c, w, ms);
            && Inv(c, v) && (Settled(w, state, pkce) ==> Settled(v, state, pkce))
            && (GivenUp(w, state) ==> GivenUp(v, state))
  {
    hide Inv, Step, Settled, GivenUp;
    if ms != [] {
      var front, m := ms[..|ms| - 1], ms[|ms| - 1];
      RunFrom(c, w, front, state, pkce);
      var u := Run(c, w, front);
      StepKeepsInv(c, u, m);
      if Settled(w, state, pkce) {
        StepSettled(c, u, m, state, pkce);
      }
      if GivenUp(w, state) {
        StepGivenUp(c, u, m, state);
      }
    }
  }

  // The step that chooses the key settles it, or gives the state up.
  lemma {:induction false} Settles(c: Config, w: World, id: nat, unused: string, verifier: string)
    requires Inv(c, w) && At(w, id).Drawn?
    ensures var p, v := At(w, id), Step(c, w, Go(id, unused, verifier));
            match ProofKey(c, p.provider, p.o, verifier)
            case None => GivenUp(v, p.state)
            case Some(pkce) => Settled(v, p.state, pkce)
  {
    hide BookOk, ProofKey;
    var p, v := At(w, id), Step(c, w, Go(id, unused, verifier));
    assert PlaceOk(c, w.book, p);
    forall j: nat | j != id ensures Owned(At(w, j)) != Some(p.state) && At(v, j) == At(w, j) {
      assert Owned(p) != Owned(At(w, j));
    }
  }

  // What is said of a state in the URLs and calls is said of its session.
  lemma {:induction false} CallsSay(c: Config, w: World, k: CallMade, u: UrlSent)
    requires Inv(c, w)
    ensures k in w.book.calls ==> k.state in w.book.made && k.pkce == w.book.made[k.state].pkce
    ensures u in w.book.urls ==> u.state in w.book.made && u.pkce == w.book.made[u.state].pkce
  {
    hide PlaceOk, Apart, MadeOk, SessionOk;
    if k in w.book.calls {
      var i :| 0 <= i < |w.book.calls| && w.book.calls[i] == k;
      assert CallOk(w.book.made, w.book.taken, w.book.calls[i]);
    }
    if u in w.book.urls {
      var i :| 0 <= i < |w.book.urls| && w.book.urls[i] == u;
      assert UrlOk(w.book.made, w.book.urls[i]);
    }
  }

  /** A goroutine in GetAuthURL has drawn a state, at any point of any run, and draws a verifier.
      Whatever happens from then on, every URL sent and every call made for that state carries
      that verifier, with the method asked for and its challenge, if the options enable proof
      keys and the provider supports them; and none if not. If the method is not supported
      there is never a URL or a call for the state. */
  lemma {:induction false} CallsCarryTheVerifier(c: Config, ms: seq<Move>, id: nat, unused: string, verifier: string,
      ns: seq<Move>, k: CallMade, u: UrlSent)
    requires At(Run(c, START, ms), id).Drawn?
    ensures var p := At(Run(c, START, ms), id);
            var b := Run(c, Step(c, Run(c, START, ms), Go(id, unused, verifier)), ns).book;
            var wanted := p.o.pkceEnabled && p.provider.supportsPkce;
            var method_ := p.o.pkceMethod;
            var challenge := if method_ == "S256" then c.hash(verifier) else verifier;
            var key := if wanted then Some(Challenge(verifier, challenge, method_)) else None;
            && (k in b.calls && k.state == p.state ==> k.pkce == key && (wanted ==> Supported(method_)))
            && (u in b.urls && u.state == p.state ==> u.pkce == key && (wanted ==> Supported(method_)))
  {
    hide Run, Step, Inv, Settled, GivenUp;
    RunKeepsInv(c, ms);
    var w := Run(c, START, ms);
    var p, v := At(w, id), Step(c, w, Go(id, unused, verifier));
    var key := ProofKey(c, p.provider, p.o, verifier);
    StepKeepsInv(c, w, Go(id, unused, verifier));
    Settles(c, w, id, unused, verifier);
    RunFrom(c, v, ns, p.state, if key.Some? then key.value else None);
    CallsSay(c, Run(c, v, ns), k, u);
    NoneMade(Run(c, v, ns), p.state, if key.Some? then key.value else None);
  }

  lemma {:induction false} NoneMade(w: World, state: string, pkce: Option<Challenge>)
    ensures GivenUp(w, state) ==> state !in w.book.made
    ensures Settled(w, state, pkce) && state in w.book.made ==> w.book.made[state].pkce == pkce
  {
  }
}

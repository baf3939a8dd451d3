/** Authorization sessions: the memory store (oauth/service.go:530-608) and the provider
    registry with its two flows (oauth/multi_provider_service.go:85-241). Random states and
    verifiers, and the clock, are parameters. Here calls do not overlap. */
module OauthSessions {
  import opened Options
  import opened Pkce

  datatype Session = Session(state: string, pkce: Option<Challenge>, provider: string,
                             createdAt: real, expiresAt: real)

  // A registered provider; the number tells instances apart.
  datatype Provider = Provider(id: nat, supportsPkce: bool)

  datatype Config = Config(hash: Hash, timeout: real)

  datatype AuthOptions = AuthOptions(pkceEnabled: bool, pkceMethod: string)

  type Sessions = map<string, Session>

  type Providers = map<string, Provider>

  predicate Expired(s: Session, now: real) {
    now > s.expiresAt
  }

  // ---- the store ----

  // What the cleanup leaves.
  function Kept(sessions: Sessions, ttl: real, now: real): Sessions {
    map k | k in sessions && !Expired(sessions[k], now) && now - sessions[k].createdAt <= ttl :: sessions[k]
  }

  class MemorySessionStore {
    var sessions: Sessions
    const ttl: real

    constructor (ttl: real)
      ensures sessions == map[] && this.ttl == ttl
    {
      sessions := map[];
      this.ttl := ttl;
    }

    method Store(key: string, data: Session)
      modifies this
      ensures sessions == old(sessions)[key := data]
    {
      sessions := sessions[key := data];
    }

    method Retrieve(key: string) returns (r: Option<Session>)
      ensures r == if key in sessions then Some(sessions[key]) else None
    {
      if key !in sessions {
        return None;
      }
      return Some(sessions[key]);
    }

    method Delete(key: string)
      modifies this
      ensures sessions == old(sessions) - {key}
    {
      sessions := sessions - {key};
    }

    method RetrieveAndDelete(key: string) returns (r: Option<Session>)
      modifies this
      ensures r == if key in old(sessions) then Some(old(sessions)[key]) else None
      ensures sessions == old(sessions) - {key}
    {
      if key !in sessions {
        return None;
      }
      r := Some(sessions[key]);
      sessions := sessions - {key};
    }

    method Cleanup(now: real)
      modifies this
      ensures sessions == Kept(old(sessions), ttl, now)
    {
      var pending := sessions.Keys;
      while pending != {}
        invariant pending <= sessions.Keys
        invariant forall k :: k in sessions <==> k in pending || k in Kept(old(sessions), ttl, now)
        invariant forall k :: k in sessions ==> k in old(sessions) && sessions[k] == old(sessions)[k]
        decreases |pending|
      {
        var key :| key in pending;
        pending := pending - {key};
        var session := sessions[key];
        if Expired(session, now) || now - session.createdAt > ttl {
          sessions := sessions - {key};
        }
      }
    }
  }

  // ---- the two flows, as functions of the registry and the sessions ----

  datatype Issued = NoProvider | BadMethod | Url(provider: Provider, state: string, pkce: Option<Challenge>)

  predicate WantsPkce(p: Provider, o: AuthOptions) {
    o.pkceEnabled && p.supportsPkce
  }

  // The proof key of a new session; None when the method is not supported.
  function ProofKey(c: Config, p: Provider, o: AuthOptions, verifier: string): Option<Option<Challenge>> {
    if !WantsPkce(p, o) then Some(None)
    else
      match MakeChallenge(c.hash, o.pkceMethod, verifier)
      case None => None
      case Some(k) => Some(Some(k))
  }

  // The clock is read once for the creation and once more for the expiry.
  function NewSession(c: Config, name: string, state: string, pkce: Option<Challenge>,
                      created: real, now: real): Session {
    Session(state, pkce, name, created, now + c.timeout)
  }

  // GetAuthURL
  function Issue(c: Config, ps: Providers, ss: Sessions, name: string, o: AuthOptions,
                 state: string, verifier: string, created: real, now: real): (Issued, Sessions) {
    if name !in ps then (NoProvider, ss)
    else
      match ProofKey(c, ps[name], o, verifier)
      case None => (BadMethod, ss)
      case Some(pkce) => (Url(ps[name], state, pkce), ss[state := NewSession(c, name, state, pkce, created, now)])
  }

  datatype Refusal = NotFound | SessionExpired | StateMismatch | ProviderMismatch | UnknownProvider

  // The checks on a session that has just been taken out of the store.
  function Check(s: Session, name: string, state: string, now: real): Option<Refusal> {
    if Expired(s, now) then Some(SessionExpired)
    else if s.state != state then Some(StateMismatch)
    else if s.provider != name then Some(ProviderMismatch)
    else None
  }

  datatype Redeemed = Refused(why: Refusal) | Call(provider: Provider, pkce: Option<Challenge>)

  // Exchange, up to the call of the provider.
  function Redeem(ps: Providers, ss: Sessions, name: string, state: string, now: real): (Redeemed, Sessions) {
    if state !in ss then (Refused(NotFound), ss)
    else
      var r :=
        match Check(ss[state], name, state, now)
        case Some(why) => Refused(why)
        case None => if name !in ps then Refused(UnknownProvider) else Call(ps[name], ss[state].pkce);
      (r, ss - {state})
  }

  class MultiProviderService {
    var providers: Providers
    const sessions: MemorySessionStore
    const config: Config

    constructor (config: Config)
      ensures this.config == config && providers == map[]
      ensures fresh(sessions) && sessions.sessions == map[] && sessions.ttl == config.timeout
    {
      this.config := config;
      providers := map[];
      sessions := new MemorySessionStore(config.timeout);
    }

    method RegisterProvider(name: string, provider: Option<Provider>) returns (ok: bool)
      modifies this
      ensures ok <==> name != "" && provider.Some? && name !in old(providers)
      ensures providers == if ok then old(providers)[name := provider.value] else old(providers)
    {
      if name == "" || provider.None? || name in providers {
        return false;
      }
      providers := providers[name := provider.value];
      return true;
    }

    method UnregisterProvider(name: string) returns (ok: bool)
      modifies this
      ensures ok <==> name in old(providers)
      ensures providers == old(providers) - {name}
    {
      if name !in providers {
        return false;
      }
      providers := providers - {name};
      return true;
    }

    method GetProvider(name: string) returns (r: Option<Provider>)
      ensures r == if name in providers then Some(providers[name]) else None
    {
      if name !in providers {
        return None;
      }
      return Some(providers[name]);
    }

    method GetAuthURL(name: string, o: AuthOptions, state: string, verifier: string, created: real, now: real)
      returns (r: Issued)
      modifies sessions
      ensures (r, sessions.sessions)
           == Issue(config, providers, old(sessions.sessions), name, o, state, verifier, created, now)
    {
      var provider := GetProvider(name);
      if provider.None? {
        return NoProvider;
      }
      var pkce: Option<Challenge> := None;
      if o.pkceEnabled && provider.value.supportsPkce {
        pkce := MakeChallenge(config.hash, o.pkceMethod, verifier);
        if pkce.None? {
          return BadMethod;
        }
      }
      sessions.Store(state, Session(state, pkce, name, created, now + config.timeout));
      return Url(provider.value, state, pkce);
    }

    method Exchange(name: string, state: string, now: real) returns (r: Redeemed)
      modifies sessions
      ensures (r, sessions.sessions) == Redeem(providers, old(sessions.sessions), name, state, now)
    {
      var session := sessions.RetrieveAndDelete(state);
      if session.None? {
        assert sessions.sessions == old(sessions.sessions);
        return Refused(NotFound);
      }
      var s := session.value;
      if Expired(s, now) {
        return Refused(SessionExpired);
      }
      if s.state != state {
        return Refused(StateMismatch);
      }
      if s.provider != name {
        return Refused(ProviderMismatch);
      }
      var provider := GetProvider(name);
      if provider.None? {
        return Refused(UnknownProvider);
      }
      return Call(provider.value, s.pkce);
    }
  }

  // ---- what the flows are for ----

  // Sessions as the service stores them.
  ghost predicate WellKept(c: Config, ss: Sessions) {
    forall k :: k in ss ==> ss[k].state == k && ss[k].createdAt + c.timeout <= ss[k].expiresAt
  }

  /** An issued session is redeemed, by the same provider name and once only: with a sweep in
      between, the first exchange reaches the provider with the proof key of the URL exactly
      when the name is that of the session, is still registered, the session has not expired,
      and the sweep came no later than a timeout after its creation; a second exchange is
      refused. */
  lemma {:induction false} IssueThenRedeem(c: Config, ps: Providers, qs: Providers, ss: Sessions, name: string,
      o: AuthOptions, state: string, verifier: string, created: real, issued: real, swept: real,
      other: string, now: real, later: real)
    requires created <= issued <= swept <= now
    ensures var (url, stored) := Issue(c, ps, ss, name, o, state, verifier, created, issued);
            url.Url? ==>
              var (r, left) := Redeem(qs, Kept(stored, c.timeout, swept), other, state, now);
              && (r.Call? <==> other == name && name in qs && now <= issued + c.timeout && swept <= created + c.timeout)
              && (r.Call? ==> r == Call(qs[name], url.pkce))
              && Redeem(qs, left, other, state, later) == (Refused(NotFound), left)
  {
  }

  lemma {:induction false} FlowsKeepWell(c: Config, ps: Providers, ss: Sessions, name: string, o: AuthOptions,
      state: string, verifier: string, created: real, now: real)
    requires WellKept(c, ss) && created <= now
    ensures WellKept(c, Issue(c, ps, ss, name, o, state, verifier, created, now).1)
    ensures WellKept(c, Redeem(ps, ss, name, state, now).1)
    ensures WellKept(c, Kept(ss, c.timeout, now))
  {
  }

  predicate Supported(method_: string) {
    method_ == "S256" || method_ == "plain"
  }

  /** What GetAuthURL gives and stores: an error and nothing, if the provider is unknown or asks
      for proof keys of an unsupported method; else the URL and the session under the drawn
      state. Both carry a proof key if and only if the options enable it and the provider
      supports it, and then the drawn verifier and what it is challenged with. */
  lemma {:induction false} IssueExactly(c: Config, ps: Providers, ss: Sessions, name: string, o: AuthOptions,
      state: string, verifier: string, created: real, now: real)
    ensures var (r, stored) := Issue(c, ps, ss, name, o, state, verifier, created, now);
            && (r == NoProvider <==> name !in ps)
            && (r == BadMethod
                <==> name in ps && o.pkceEnabled && ps[name].supportsPkce && !Supported(o.pkceMethod))
            && (!r.Url? ==> stored == ss)
            && (r.Url? ==>
                  && r.provider == ps[name] && r.state == state
                  && (r.pkce.Some? <==> o.pkceEnabled && ps[name].supportsPkce)
                  && (r.pkce.Some? ==>
                        && r.pkce.value.verifier == verifier && r.pkce.value.method_ == o.pkceMethod
                        && r.pkce.value.challenge == if o.pkceMethod == "S256" then c.hash(verifier) else verifier)
                  && stored.Keys == ss.Keys + {state}
                  && stored[state] == Session(state, r.pkce, name, created, now + c.timeout)
                  && forall k :: k in ss && k != state ==> stored[k] == ss[k])
  {
  }

  /** Why Exchange refuses, the first reason that applies; and whatever it answers, the session is
      gone and the others stay. */
  lemma {:induction false} RedeemExactly(ps: Providers, ss: Sessions, name: string, state: string, now: real)
    ensures var (r, left) := Redeem(ps, ss, name, state, now);
            && (r == Refused(NotFound) <==> state !in ss)
            && (state in ss ==>
                  var s := ss[state];
                  && (r == Refused(SessionExpired) <==> now > s.expiresAt)
                  && (r == Refused(StateMismatch) <==> now <= s.expiresAt && s.state != state)
                  && (r == Refused(ProviderMismatch)
                      <==> now <= s.expiresAt && s.state == state && s.provider != name)
                  && (r == Refused(UnknownProvider)
                      <==> now <= s.expiresAt && s.state == state && s.provider == name && name !in ps)
                  && (r.Call? ==> r == Call(ps[name], s.pkce)))
            && left.Keys == ss.Keys - {state} && forall k :: k in left ==> left[k] == ss[k]
  {
  }
}

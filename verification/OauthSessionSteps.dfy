/** Authorization under every interleaving (oauth/multi_provider_service.go:144-241,
    oauth/service.go:555-608). Each use of a lock, each check and each call of a provider is
    a step of its own; in between, other goroutines, the cleanup, the registry and the clock
    may move. Random states are fresh. Histories are kept beside the state: the sessions made
    and the provider instance each was made for, the states taken out of the store, and what
    the providers were given. */
module OauthSessionSteps {
  import opened Options
  import opened Sequences
  import opened Pkce
  import opened OauthSessions

  // Where a goroutine is: in GetAuthURL, in Exchange, or in neither.
  datatype Place =
    | Idle
    | Chosen(name: string, provider: Provider, o: AuthOptions)
    | Drawn(name: string, provider: Provider, o: AuthOptions, state: string)
    | Dated(name: string, provider: Provider, state: string, pkce: Option<Challenge>, createdAt: real)
    | Made(provider: Provider, session: Session)
    | Saved(provider: Provider, session: Session)
    | Asked(name: string, state: string)
    | Taken(name: string, state: string, session: Session)
    | Passed(name: string, session: Session, checkedAt: real)
    | Ready(name: string, provider: Provider, session: Session, checkedAt: real)

  // provider.GetAuthURL(state, pkce)
  datatype UrlSent = UrlSent(state: string, name: string, provider: Provider, pkce: Option<Challenge>)

  // provider.Exchange(ctx, code, pkce) for the session of a state; checkedAt and at are the
  // times of the expiry check and of the call.
  datatype CallMade = CallMade(state: string, name: string, provider: Provider, pkce: Option<Challenge>,
                               checkedAt: real, at: real)

  // The store, the states drawn so far, and the histories.
  datatype Book = Book(sessions: Sessions, drawn: set<string>, made: map<string, Session>, origins: Providers,
                       taken: seq<string>, urls: seq<UrlSent>, calls: seq<CallMade>)

  datatype World = World(providers: Providers, now: real, places: map<nat, Place>, book: Book)

  datatype Move =
    | Tick(now: real)
    | Sweep
    | Register(regName: string, regProvider: Provider)
    | Unregister(unregName: string)
    | Authorize(id: nat, authName: string, o: AuthOptions)
    | Exchange(id: nat, exName: string, exState: string)
    | Go(id: nat, state: string, verifier: string)   // the goroutine's next step, with what it draws

  const START: World := World(map[], 0.0, map[], Book(map[], {}, map[], map[], [], [], []))

  function At(w: World, id: nat): Place {
    if id in w.places then w.places[id] else Idle
  }

  function GoTo(w: World, id: nat, p: Place, b: Book): World {
    w.(places := w.places[id := p], book := b)
  }

  // ---- the steps ----

  // What the goroutine does next, to itself and to the book.
  function Next(c: Config, w: World, p: Place, state: string, verifier: string): (Place, Book) {
    var b := w.book;
    match p
    case Idle => (p, b)
    case Chosen(name, provider, o) =>
      if state in b.drawn then (p, b) else (Drawn(name, provider, o, state), b.(drawn := b.drawn + {state}))
    case Drawn(name, provider, o, st) => (
      match ProofKey(c, provider, o, verifier)
      case None => (Idle, b)
      case Some(pkce) => (Dated(name, provider, st, pkce, w.now), b))
    case Dated(name, provider, st, pkce, created) =>
      var s := NewSession(c, name, st, pkce, created, w.now);
      (Made(provider, s), b.(made := b.made[st := s], origins := b.origins[st := provider]))
    case Made(provider, s) => (Saved(provider, s), b.(sessions := b.sessions[s.state := s]))
    case Saved(provider, s) => (Idle, b.(urls := b.urls + [UrlSent(s.state, s.provider, provider, s.pkce)]))
    case Asked(name, st) =>
      if st !in b.sessions then (Idle, b)
      else (Taken(name, st, b.sessions[st]), b.(sessions := b.sessions - {st}, taken := b.taken + [st]))
    case Taken(name, st, s) => (if Check(s, name, st, w.now).Some? then Idle else Passed(name, s, w.now), b)
    case Passed(name, s, at) => (if name in w.providers then Ready(name, w.providers[name], s, at) else Idle, b)
    case Ready(name, provider, s, at) =>
      (Idle, b.(calls := b.calls + [CallMade(s.state, name, provider, s.pkce, at, w.now)]))
  }

  function Step(c: Config, w: World, m: Move): World {
    match m
    case Tick(now) => if now >= w.now then w.(now := now) else w
    case Sweep => w.(book := w.book.(sessions := Kept(w.book.sessions, c.timeout, w.now)))
    case Register(name, provider) =>
      if name == "" || name in w.providers then w else w.(providers := w.providers[name := provider])
    case Unregister(name) => w.(providers := w.providers - {name})
    case Authorize(id, name, o) =>
      if At(w, id).Idle? && name in w.providers then GoTo(w, id, Chosen(name, w.providers[name], o), w.book) else w
    case Exchange(id, name, state) => if At(w, id).Idle? then GoTo(w, id, Asked(name, state), w.book) else w
    case Go(id, state, verifier) => var (p, b) := Next(c, w, At(w, id), state, verifier); GoTo(w, id, p, b)
  }

  function Run(c: Config, w: World, ms: seq<Move>): World
    decreases |ms|
  {
    if ms == [] then w else Step(c, Run(c, w, ms[..|ms| - 1]), ms[|ms| - 1])
  }

  // ---- the invariant ----

  // A proof key that was made for its own verifier.
  ghost predicate GenuineKey(c: Config, k: Option<Challenge>) {
    k.Some? ==> ValidatePkceChallenge(c.hash, k.value.verifier, k.value.challenge, k.value.method_)
  }

  // The state a goroutine alone holds: before it is stored, or after it is taken.
  function Fresh(p: Place): Option<string> {
    match p
    case Drawn(_, _, _, state) => Some(state)
    case Dated(_, _, state, _, _) => Some(state)
    case Made(_, s) => Some(s.state)
    case _ => None
  }

  function Held(p: Place): Option<string> {
    match p
    case Taken(_, state, _) => Some(state)
    case Passed(_, s, _) => Some(s.state)
    case Ready(_, _, s, _) => Some(s.state)
    case _ => None
  }

  function Owned(p: Place): Option<string> {
    if Fresh(p).Some? then Fresh(p) else Held(p)
  }

  ghost predicate IsMade(made: map<string, Session>, s: Session) {
    s.state in made && made[s.state] == s
  }

  ghost predicate FreshOk(b: Book, s: string) {
    s in b.drawn && s !in b.sessions && s !in b.taken
  }

  ghost predicate Called(calls: seq<CallMade>, s: string) {
    exists i :: 0 <= i < |calls| && calls[i].state == s
  }

  ghost predicate PlaceOk(c: Config, b: Book, p: Place) {
    match p
    case Idle => true
    case Chosen(_, _, _) => true
    case Drawn(_, _, _, state) => FreshOk(b, state) && state !in b.made
    case Dated(_, _, state, pkce, _) => FreshOk(b, state) && state !in b.made && GenuineKey(c, pkce)
    case Made(_, s) => FreshOk(b, s.state) && IsMade(b.made, s)
    case Saved(_, s) => IsMade(b.made, s)
    case Asked(_, _) => true
    case Taken(_, state, s) => state in b.taken && !Called(b.calls, state) && IsMade(b.made, s) && s.state == state
    case Passed(name, s, at) =>
      s.state in b.taken && !Called(b.calls, s.state) && IsMade(b.made, s) && s.provider == name && at <= s.expiresAt
    case Ready(name, _, s, at) =>
      s.state in b.taken && !Called(b.calls, s.state) && IsMade(b.made, s) && s.provider == name && at <= s.expiresAt
  }

  // A state belongs to one goroutine at most.
  ghost predicate Apart(w: World) {
    forall i: nat, j: nat :: i != j && Owned(At(w, i)).Some? ==> Owned(At(w, i)) != Owned(At(w, j))
  }

  ghost predicate SessionOk(b: Book, k: string) {
    k in b.sessions ==> k !in b.taken && b.sessions[k].state == k && IsMade(b.made, b.sessions[k])
  }

  ghost predicate MadeOk(c: Config, b: Book, k: string) {
    k in b.made ==> k in b.drawn && b.made[k].state == k && GenuineKey(c, b.made[k].pkce)
  }

  // What a URL and a call must say of the session they belong to.
  ghost predicate UrlOk(made: map<string, Session>, u: UrlSent) {
    u.state in made && u.pkce == made[u.state].pkce && u.name == made[u.state].provider
  }

  ghost predicate CallOk(made: map<string, Session>, taken: seq<string>, k: CallMade) {
    && k.state in made && k.state in taken
    && k.pkce == made[k.state].pkce && k.name == made[k.state].provider
    && k.checkedAt <= made[k.state].expiresAt
  }

  ghost predicate CallsOk(b: Book) {
    && (forall i :: 0 <= i < |b.calls| ==> CallOk(b.made, b.taken, b.calls[i]))
    && (forall i, j :: 0 <= i < j < |b.calls| ==> b.calls[i].state != b.calls[j].state)
  }

  ghost predicate BookOk(c: Config, b: Book) {
    && (forall k :: SessionOk(b, k))
    && (forall k :: MadeOk(c, b, k))
    && Distinct(b.taken)
    && (forall s :: s in b.taken ==> s in b.made)
    && (forall i :: 0 <= i < |b.urls| ==> UrlOk(b.made, b.urls[i]))
    && CallsOk(b)
  }

  ghost predicate Inv(c: Config, w: World) {
    (forall id :: PlaceOk(c, w.book, At(w, id))) && Apart(w) && BookOk(c, w.book)
  }

  // ---- every step keeps it ----

  // One goroutine moves on with a new book in which the others still have their places.
  lemma {:induction false} MoveOn(c: Config, w: World, id: nat, p: Place, b: Book)
    requires Apart(w) && BookOk(c, b)
    requires forall j :: j != id ==> PlaceOk(c, b, At(w, j))
    requires PlaceOk(c, b, p)
    requires Owned(p).Some? ==> Owned(p) == Owned(At(w, id)) || forall j :: Owned(At(w, j)) != Owned(p)
    ensures Inv(c, GoTo(w, id, p, b))
  {
    hide PlaceOk, Owned, BookOk;
    var u := GoTo(w, id, p, b);
    assert forall j: nat :: At(u, j) == if j == id then p else At(w, j);
  }

  // What a place owns has been drawn, and what it holds has been taken.
  lemma {:induction false} OwnedDrawn(c: Config, b: Book, p: Place)
    requires PlaceOk(c, b, p) && BookOk(c, b)
    ensures Owned(p).Some? ==> Owned(p).value in b.drawn && Owned(p).value !in b.sessions
    ensures Held(p).Some? ==> Held(p).value in b.taken
    ensures Fresh(p).Some? ==> Fresh(p).value !in b.taken
  {
    hide GenuineKey, Distinct, CallsOk, UrlOk;
    if Held(p).Some? {
      var s := Held(p).value;
      assert SessionOk(b, s) && MadeOk(c, b, s);
    }
  }

  lemma {:induction false} DrawStep(c: Config, w: World, id: nat, state: string)
    requires Inv(c, w) && At(w, id).Chosen? && state !in w.book.drawn
    ensures Inv(c, Step(c, w, Go(id, state, "")))
  {
    hide GenuineKey, Distinct, UrlOk, CallOk;
    var p, b := At(w, id), w.book.(drawn := w.book.drawn + {state});
    forall k ensures SessionOk(b, k) && MadeOk(c, b, k) {
      assert SessionOk(w.book, k) && MadeOk(c, w.book, k);
    }
    assert MadeOk(c, w.book, state) && SessionOk(w.book, state);
    forall j: nat ensures Owned(At(w, j)) != Some(state) && PlaceOk(c, b, At(w, j)) {
      assert PlaceOk(c, w.book, At(w, j));
      OwnedDrawn(c, w.book, At(w, j));
    }
    MoveOn(c, w, id, Drawn(p.name, p.provider, p.o, state), b);
  }

  lemma {:induction false} GenuineChallenge(c: Config, p: Provider, o: AuthOptions, verifier: string)
    ensures var k := ProofKey(c, p, o, verifier); k.Some? ==> GenuineKey(c, k.value)
  {
  }

  lemma {:induction false} DateStep(c: Config, w: World, id: nat, pkce: Option<Challenge>)
    requires Inv(c, w) && At(w, id).Drawn? && GenuineKey(c, pkce)
    ensures var p := At(w, id);
            Inv(c, GoTo(w, id, Dated(p.name, p.provider, p.state, pkce, w.now), w.book))
  {
    hide GenuineKey, BookOk;
    var p := At(w, id);
    assert PlaceOk(c, w.book, p);
    MoveOn(c, w, id, Dated(p.name, p.provider, p.state, pkce, w.now), w.book);
  }

  lemma {:induction false} MakeStep(c: Config, w: World, id: nat)
    requires Inv(c, w) && At(w, id).Dated?
    ensures Inv(c, Step(c, w, Go(id, "", "")))
  {
    hide GenuineKey, Distinct;
    var p := At(w, id);
    var s := NewSession(c, p.name, p.state, p.pkce, p.createdAt, w.now);
    var b := w.book.(made := w.book.made[p.state := s], origins := w.book.origins[p.state := p.provider]);
    assert PlaceOk(c, w.book, p);
    forall k ensures SessionOk(b, k) && MadeOk(c, b, k) {
      assert SessionOk(w.book, k) && MadeOk(c, w.book, k);
    }
    forall j: nat | j != id ensures PlaceOk(c, b, At(w, j)) {
      assert PlaceOk(c, w.book, At(w, j));
      assert Owned(At(w, id)) != Owned(At(w, j));
    }
    MoveOn(c, w, id, Made(p.provider, s), b);
  }

  lemma {:induction false} SaveStep(c: Config, w: World, id: nat)
    requires Inv(c, w) && At(w, id).Made?
    ensures Inv(c, Step(c, w, Go(id, "", "")))
  {
    hide GenuineKey, Distinct, UrlOk, CallOk;
    var p := At(w, id);
    var s := p.session;
    var b := w.book.(sessions := w.book.sessions[s.state := s]);
    assert PlaceOk(c, w.book, p);
    forall k ensures SessionOk(b, k) && MadeOk(c, b, k) {
      assert SessionOk(w.book, k) && MadeOk(c, w.book, k);
    }
    forall j: nat | j != id ensures PlaceOk(c, b, At(w, j)) {
      assert PlaceOk(c, w.book, At(w, j));
      assert Owned(At(w, id)) != Owned(At(w, j));
    }
    MoveOn(c, w, id, Saved(p.provider, s), b);
  }

  lemma {:induction false} SendStep(c: Config, w: World, id: nat)
    requires Inv(c, w) && At(w, id).Saved?
    ensures Inv(c, Step(c, w, Go(id, "", "")))
  {
    hide GenuineKey, Distinct, CallOk;
    var provider, s := At(w, id).provider, At(w, id).session;
    var b := w.book.(urls := w.book.urls + [UrlSent(s.state, s.provider, provider, s.pkce)]);
    assert PlaceOk(c, w.book, At(w, id));
    forall k ensures SessionOk(b, k) && MadeOk(c, b, k) {
      assert SessionOk(w.book, k) && MadeOk(c, w.book, k);
    }
    forall j: nat ensures PlaceOk(c, b, At(w, j)) {
      assert PlaceOk(c, w.book, At(w, j));
    }
    MoveOn(c, w, id, Idle, b);
  }

  lemma {:induction false} TakeStep(c: Config, w: World, id: nat)
    requires Inv(c, w) && At(w, id).Asked? && At(w, id).state in w.book.sessions
    ensures Inv(c, Step(c, w, Go(id, "", "")))
  {
    hide GenuineKey, UrlOk;
    var p := At(w, id);
    var b := w.book.(sessions := w.book.sessions - {p.state}, taken := w.book.taken + [p.state]);
    assert SessionOk(w.book, p.state);
    forall k ensures SessionOk(b, k) && MadeOk(c, b, k) {
      assert SessionOk(w.book, k) && MadeOk(c, w.book, k);
    }
    forall j: nat ensures PlaceOk(c, b, At(w, j)) && Owned(At(w, j)) != Some(p.state) {
      assert PlaceOk(c, w.book, At(w, j));
      OwnedDrawn(c, w.book, At(w, j));
    }
    NotCalled(w.book, p.state);
    MoveOn(c, w, id, Taken(p.name, p.state, w.book.sessions[p.state]), b);
  }

  lemma {:induction false} NotCalled(b: Book, s: string)
    requires CallsOk(b) && s !in b.taken
    ensures !Called(b.calls, s)
  {
  }

  lemma {:induction false} CheckStep(c: Config, w: World, id: nat)
    requires Inv(c, w) && (At(w, id).Taken? || At(w, id).Passed?)
    ensures Inv(c, Step(c, w, Go(id, "", "")))
  {
    hide BookOk, Called, IsMade, FreshOk;
    var p := At(w, id);
    assert PlaceOk(c, w.book, p);
    MoveOn(c, w, id, Next(c, w, p, "", "").0, w.book);
  }

  lemma {:induction false} CallStep(c: Config, w: World, id: nat)
    requires Inv(c, w) && At(w, id).Ready?
    ensures Inv(c, Step(c, w, Go(id, "", "")))
  {
    hide GenuineKey, Distinct, UrlOk;
    var p := At(w, id);
    var k := CallMade(p.session.state, p.name, p.provider, p.session.pkce, p.checkedAt, w.now);
    var b := w.book.(calls := w.book.calls + [k]);
    assert PlaceOk(c, w.book, p);
    forall k ensures SessionOk(b, k) && MadeOk(c, b, k) {
      assert SessionOk(w.book, k) && MadeOk(c, w.book, k);
    }
    forall j: nat | j != id ensures PlaceOk(c, b, At(w, j)) {
      assert PlaceOk(c, w.book, At(w, j));
      assert Owned(p) != Owned(At(w, j));
    }
    MoveOn(c, w, id, Idle, b);
  }

  lemma {:induction false} SweepStep(c: Config, w: World)
    requires Inv(c, w)
    ensures Inv(c, Step(c, w, Sweep))
  {
    hide GenuineKey, Distinct, UrlOk, CallOk;
    var b := w.book.(sessions := Kept(w.book.sessions, c.timeout, w.now));
    forall k ensures SessionOk(b, k) && MadeOk(c, b, k) {
      assert SessionOk(w.book, k) && MadeOk(c, w.book, k);
    }
    forall j: nat ensures PlaceOk(c, b, At(w, j)) {
      assert PlaceOk(c, w.book, At(w, j));
    }
    var u := Step(c, w, Sweep);
    assert forall j: nat :: At(u, j) == At(w, j);
  }

  // A step that leaves the book alone and puts a goroutine somewhere it owns nothing new.
  lemma {:induction false} PlainStep(c: Config, w: World, id: nat, p: Place)
    requires Inv(c, w) && (p.Idle? || p.Chosen? || p.Asked? || p == At(w, id))
    ensures Inv(c, GoTo(w, id, p, w.book))
  {
    hide BookOk;
    assert PlaceOk(c, w.book, At(w, id));
    MoveOn(c, w, id, p, w.book);
  }

  lemma {:induction false} GoKeepsInv(c: Config, w: World, id: nat, state: string, verifier: string)
    requires Inv(c, w)
    ensures Inv(c, Step(c, w, Go(id, state, verifier)))
  {
    hide Inv, ProofKey, Check, GenuineKey;
    var p := At(w, id);
    match p
    case Idle => PlainStep(c, w, id, p);
    case Chosen(_, _, _) =>
      if state in w.book.drawn {
        PlainStep(c, w, id, p);
      } else {
        DrawStep(c, w, id, state);
      }
    case Drawn(_, provider, o, _) =>
      GenuineChallenge(c, provider, o, verifier);
      match ProofKey(c, provider, o, verifier) {
        case None => PlainStep(c, w, id, Idle);
        case Some(pkce) => DateStep(c, w, id, pkce);
      }
    case Dated(_, _, _, _, _) => MakeStep(c, w, id);
    case Made(_, _) => SaveStep(c, w, id);
    case Saved(_, _) => SendStep(c, w, id);
    case Asked(_, st) =>
      if st in w.book.sessions {
        TakeStep(c, w, id);
      } else {
        PlainStep(c, w, id, Idle);
      }
    case Taken(_, _, _) => CheckStep(c, w, id);
    case Passed(_, _, _) => CheckStep(c, w, id);
    case Ready(_, _, _, _) => CallStep(c, w, id);
  }

  lemma {:induction false} StepKeepsInv(c: Config, w: World, m: Move)
    requires Inv(c, w)
    ensures Inv(c, Step(c, w, m))
  {
    hide BookOk, PlaceOk, Next, Kept, Owned;
    match m
    case Sweep => SweepStep(c, w);
    case Go(id, state, verifier) => GoKeepsInv(c, w, id, state, verifier);
    case Authorize(id, name, o) =>
      if At(w, id).Idle? && name in w.providers {
        PlainStep(c, w, id, Chosen(name, w.providers[name], o));
      }
    case Exchange(id, name, state) =>
      if At(w, id).Idle? {
        PlainStep(c, w, id, Asked(name, state));
      }
    case _ =>
      var u := Step(c, w, m);
      assert forall j: nat :: At(u, j) == At(w, j);
  }

  lemma {:induction false} RunKeepsInv(c: Config, ms: seq<Move>)
    ensures Inv(c, Run(c, START, ms))
  {
    hide Inv, Step;
    if ms == [] {
      StartInv(c);
    } else {
      RunKeepsInv(c, ms[..|ms| - 1]);
      StepKeepsInv(c, Run(c, START, ms[..|ms| - 1]), ms[|ms| - 1]);
    }
  }

  lemma {:induction false} StartInv(c: Config)
    ensures Inv(c, START)
  {
  }

  // ---- the theorems ----

  /** Redemption at most once: in every interleaving each state is taken out of the store at
      most once, and at most one call of a provider is made for it. */
  lemma {:induction false} AtMostOnce(c: Config, ms: seq<Move>)
    ensures var b := Run(c, START, ms).book;
            && (forall i, j :: 0 <= i < j < |b.taken| ==> b.taken[i] != b.taken[j])
            && (forall i, j :: 0 <= i < j < |b.calls| ==> b.calls[i].state != b.calls[j].state)
            && (forall i :: 0 <= i < |b.calls| ==> b.calls[i].state in b.taken)
  {
    hide Run;
    RunKeepsInv(c, ms);
  }

  // A proof key answers what was sent with a URL.
  ghost predicate Answers(hash: Hash, k: Option<Challenge>, sent: Option<Challenge>) {
    && k.Some? == sent.Some?
    && (k.Some? ==> ValidatePkceChallenge(hash, k.value.verifier, sent.value.challenge, sent.value.method_))
  }

  /** Every call of a provider is for a session this service made, under the name of that
      session's provider, checked when the session had not expired, and with the verifier
      that validates against the challenge in whatever URL was or will be sent for the state. */
  lemma {:induction false} CallsAreGenuine(c: Config, ms: seq<Move>, k: CallMade, u: UrlSent)
    requires k in Run(c, START, ms).book.calls
    ensures var b := Run(c, START, ms).book;
            && k.state in b.made && b.made[k.state].state == k.state
            && k.name == b.made[k.state].provider && k.pkce == b.made[k.state].pkce
            && k.checkedAt <= b.made[k.state].expiresAt
            && (u in b.urls && u.state == k.state ==> u.name == k.name && Answers(c.hash, k.pkce, u.pkce))
  {
    hide Run, Distinct, ValidatePkceChallenge;
    RunKeepsInv(c, ms);
    var b := Run(c, START, ms).book;
    var i :| 0 <= i < |b.calls| && b.calls[i] == k;
    assert CallOk(b.made, b.taken, b.calls[i]);
    assert MadeOk(c, b, k.state);
    if u in b.urls && u.state == k.state {
      var j :| 0 <= j < |b.urls| && b.urls[j] == u;
      assert UrlOk(b.made, b.urls[j]);
    }
  }

  /** The state comparison in Exchange never fails: a session found under a state is of it. */
  lemma {:induction false} NeverMismatched(c: Config, ms: seq<Move>, id: nat)
    ensures var p := At(Run(c, START, ms), id); p.Taken? ==> p.session.state == p.state
  {
    hide Run, BookOk;
    RunKeepsInv(c, ms);
    assert PlaceOk(c, Run(c, START, ms).book, At(Run(c, START, ms), id));
  }

  // ---- without interruption the steps are the flows ----

  function Steps4(c: Config, w: World, m: Move): World {
    Step(c, Step(c, Step(c, Step(c, w, m), m), m), m)
  }

  /** An exchange that nobody interrupts is Redeem: same outcome, same store, and the call is
      made at the time of the check. */
  lemma {:induction false} UninterruptedExchange(c: Config, w: World, id: nat)
    requires At(w, id).Asked?
    ensures var p := At(w, id);
            var v := Steps4(c, w, Go(id, "", ""));
            var (r, ss) := Redeem(w.providers, w.book.sessions, p.name, p.state, w.now);
            && At(v, id) == Idle && v.book.sessions == ss
            && v.book.urls == w.book.urls && v.book.made == w.book.made
            && v.book.calls == match r
                 case Refused(_) => w.book.calls
                 case Call(provider, pkce) =>
                   w.book.calls + [CallMade(p.state, p.name, provider, pkce, w.now, w.now)]
  {
  }

  /** GetAuthURL without interruption is Issue, with one reading of the clock. */
  lemma {:induction false} UninterruptedGetAuthURL(c: Config, w: World, id: nat, state: string, verifier: string)
    requires At(w, id).Chosen? && state !in w.book.drawn
    requires At(w, id).name in w.providers && w.providers[At(w, id).name] == At(w, id).provider
    ensures var p := At(w, id);
            var v := Step(c, Steps4(c, w, Go(id, state, verifier)), Go(id, state, verifier));
            var (r, ss) := Issue(c, w.providers, w.book.sessions, p.name, p.o, state, verifier, w.now, w.now);
            && At(v, id) == Idle && v.book.sessions == ss
            && v.book.urls == match r
                 case Url(provider, st, pkce) => w.book.urls + [UrlSent(st, p.name, provider, pkce)]
                 case _ => w.book.urls
  {
  }
}

/** Whole runs of the in-memory cache: against a plain map that never evicts, and what its
    limits on keys and bytes are worth (cache/driver/memory/memory.go:74-233). */
module MemoryCacheRuns {
  import opened Options
  import opened Sequences
  import opened Numbers
  import opened Sizes
  import opened MemoryCache

  datatype Event =
    | Get(key: string, at: int)
    | Exists(key: string, at: int)
    | Set(key: string, value: string, ttl: int, at: int)
    | Delete(key: string, at: int)
    | Clear(at: int)
    | RemoveExpired(at: int)

  datatype Answer = Found(value: Option<string>) | Present(yes: bool) | Accepted(ok: bool) | Done

  ghost function Step(c: Config, s: State, e: Event): (State, Answer) {
    match e
    case Get(key, at) => (s, Found(Live(c, s, key, at)))
    case Exists(key, at) => (s, Present(Live(c, s, key, at).Some?))
    case Set(key, value, ttl, at) => var (t, ok) := SetStep(c, s, key, value, ttl, at); (t, Accepted(ok))
    case Delete(key, _) => (DeleteStep(c, s, key), Done)
    case Clear(_) => (ClearStep(c, s), Done)
    case RemoveExpired(at) => (SweepStep(s, at), Done)
  }

  // The answers callers get; the sweep has no caller.
  ghost function Answers(c: Config, s: State, es: seq<Event>): seq<Answer>
    decreases |es|
  {
    if es == [] then []
    else
      var (t, a) := Step(c, s, es[0]);
      (if es[0].RemoveExpired? then [] else [a]) + Answers(c, t, es[1..])
  }

  ghost function RunState(c: Config, s: State, es: seq<Event>): State
    decreases |es|
  {
    if es == [] then s else RunState(c, Step(c, s, es[0]).0, es[1..])
  }

  predicate Timely(es: seq<Event>, now: int) {
    es == [] || (now <= es[0].at && Timely(es[1..], es[0].at))
  }

  function WithoutSweeps(es: seq<Event>): seq<Event> {
    if es == [] then []
    else (if es[0].RemoveExpired? then [] else [es[0]]) + WithoutSweeps(es[1..])
  }

  // ---- the plain map ----

  datatype Entry = Entry(value: string, deadline: Option<int>)

  type Plain = map<string, Entry>

  predicate Over(e: Entry, now: int) {
    e.deadline.Some? && now > e.deadline.value
  }

  function Lookup(m: Plain, key: string, now: int): Option<string> {
    if key !in m || Over(m[key], now) then None else Some(m[key].value)
  }

  function NewEntry(c: Config, value: string, ttl: int, now: int): Entry {
    if ttl > 0 then Entry(value, Some(now + ttl))
    else if ttl == 0 && c.defaultTTL > 0 then Entry(value, Some(now + c.defaultTTL))
    else Entry(value, None)
  }

  // The answers of the plain map, which is told which values are accepted.
  function PlainAnswers(c: Config, m: Plain, es: seq<Event>, verdicts: seq<bool>): seq<Answer>
    decreases |es|
  {
    if es == [] then []
    else
      match es[0]
      case Get(key, at) => [Found(Lookup(m, key, at))] + PlainAnswers(c, m, es[1..], verdicts)
      case Exists(key, at) => [Present(Lookup(m, key, at).Some?)] + PlainAnswers(c, m, es[1..], verdicts)
      case Set(key, value, ttl, at) =>
        var ok := verdicts != [] && verdicts[0];
        [Accepted(ok)] + PlainAnswers(c, if ok then m[key := NewEntry(c, value, ttl, at)] else m, es[1..],
                                      if verdicts == [] then [] else verdicts[1..])
      case Delete(key, _) => [Done] + PlainAnswers(c, m - {key}, es[1..], verdicts)
      case Clear(_) => [Done] + PlainAnswers(c, map[], es[1..], verdicts)
      case RemoveExpired(_) => PlainAnswers(c, m, es[1..], verdicts)
  }

  function Verdicts(answers: seq<Answer>): seq<bool> {
    if answers == [] then []
    else (if answers[0].Accepted? then [answers[0].ok] else []) + Verdicts(answers[1..])
  }

  // ---- the simulation ----

  predicate Matches(item: Item, e: Entry) {
    item.value == e.value && item.expiration >= 0
    && (if e.deadline.Some? then item.expiration == e.deadline.value > 0 else item.expiration == 0)
  }

  // What is stored is in the map; what is only in the map is over.
  ghost predicate KeyRel(c: Config, s: State, m: Plain, now: int, key: string) {
    var k := c.keyPrefix + key;
    && (k in s.items ==> key in m && Matches(s.items[k], m[key]))
    && (key in m && k !in s.items ==> Over(m[key], now))
  }

  ghost predicate Rel(c: Config, s: State, m: Plain, now: int) {
    && (forall key :: KeyRel(c, s, m, now, key))
    && (forall k :: k in s.items ==> HasPrefix(k, c.keyPrefix))
  }

  lemma {:induction false} SameKey(p: string, a: string, b: string)
    requires p + a == p + b
    ensures a == b
  {
    assert a == (p + a)[|p|..] && b == (p + b)[|p|..];
  }

  lemma {:induction false} PrefixOf(p: string, a: string)
    ensures HasPrefix(p + a, p)
  {
  }

  lemma {:induction false} Later(c: Config, s: State, m: Plain, now: int, later: int)
    requires Rel(c, s, m, now) && now <= later
    ensures Rel(c, s, m, later)
  {
    forall key ensures KeyRel(c, s, m, later, key) {
      assert KeyRel(c, s, m, now, key);
    }
  }

  lemma {:induction false} SameLookup(c: Config, s: State, m: Plain, now: int, key: string)
    requires Rel(c, s, m, now)
    ensures Live(c, s, key, now) == Lookup(m, key, now)
  {
    assert KeyRel(c, s, m, now, key);
  }

  lemma {:induction false} SetRel(c: Config, s: State, m: Plain, now: int, key: string, value: string, ttl: int)
    requires Rel(c, s, m, now) && now >= 0
    ensures var (t, ok) := SetStep(c, s, key, value, ttl, now);
            Rel(c, t, if ok then m[key := NewEntry(c, value, ttl, now)] else m, now)
  {
    var (t, ok) := SetStep(c, s, key, value, ttl, now);
    var n := if ok then m[key := NewEntry(c, value, ttl, now)] else m;
    PrefixOf(c.keyPrefix, key);
    forall x ensures KeyRel(c, t, n, now, x) {
      assert KeyRel(c, s, m, now, x);
      if c.keyPrefix + x == c.keyPrefix + key {
        SameKey(c.keyPrefix, x, key);
      }
    }
  }

  lemma {:induction false} DeleteRel(c: Config, s: State, m: Plain, now: int, key: string)
    requires Rel(c, s, m, now)
    ensures Rel(c, DeleteStep(c, s, key), m - {key}, now)
  {
    forall x ensures KeyRel(c, DeleteStep(c, s, key), m - {key}, now, x) {
      assert KeyRel(c, s, m, now, x);
      if c.keyPrefix + x == c.keyPrefix + key {
        SameKey(c.keyPrefix, x, key);
      }
    }
  }

  lemma {:induction false} ClearRel(c: Config, s: State, m: Plain, now: int)
    requires Rel(c, s, m, now)
    ensures ClearStep(c, s) == EMPTY && Rel(c, EMPTY, map[], now)
  {
  }

  lemma {:induction false} SweepRel(c: Config, s: State, m: Plain, now: int)
    requires Rel(c, s, m, now)
    ensures Rel(c, SweepStep(s, now), m, now)
  {
    forall x ensures KeyRel(c, SweepStep(s, now), m, now, x) {
      assert KeyRel(c, s, m, now, x);
    }
  }

  /** Cache refinement: whatever is called when, and whenever expired items are removed, Get
      and Exists answer as a plain map of the accepted values and their deadlines. */
  lemma {:induction false} RefinesPlainMap(c: Config, s: State, m: Plain, now: int, es: seq<Event>)
    requires Rel(c, s, m, now) && now >= 0 && Timely(es, now)
    ensures Answers(c, s, es) == PlainAnswers(c, m, es, Verdicts(Answers(c, s, es)))
    decreases |es|
  {
    hide Rel, Live, Lookup, SetStep, DeleteStep, ClearStep, SweepStep, NewEntry;
    if es != [] {
      var e, rest := es[0], es[1..];
      var (t, a) := Step(c, s, e);
      Later(c, s, m, now, e.at);
      var tail := Answers(c, t, rest);
      assert ([a] + tail)[1..] == tail;
      assert [] + tail == tail;
      assert [] + Verdicts(tail) == Verdicts(tail);
      match e
      case Get(key, at) =>
        SameLookup(c, s, m, at, key);
        RefinesPlainMap(c, t, m, at, rest);
      case Exists(key, at) =>
        SameLookup(c, s, m, at, key);
        RefinesPlainMap(c, t, m, at, rest);
      case Set(key, value, ttl, at) =>
        SetRel(c, s, m, at, key, value, ttl);
        assert ([a.ok] + Verdicts(tail))[1..] == Verdicts(tail);
        RefinesPlainMap(c, t, if a.ok then m[key := NewEntry(c, value, ttl, at)] else m, at, rest);
      case Delete(key, at) =>
        DeleteRel(c, s, m, at, key);
        RefinesPlainMap(c, t, m - {key}, at, rest);
      case Clear(at) =>
        ClearRel(c, s, m, at);
        RefinesPlainMap(c, t, map[], at, rest);
      case RemoveExpired(at) =>
        SweepRel(c, s, m, at);
        RefinesPlainMap(c, t, m, at, rest);
    }
  }

  /** The removal of expired items leaves a key in the cache if and only if Get would still find
      its value, and the counter goes down by the sizes of what is removed. */
  lemma {:induction false} SweepExactly(c: Config, s: State, key: string, now: int)
    ensures var t := SweepStep(s, now);
            && (c.keyPrefix + key in t.items <==> Live(c, s, key, now).Some?)
            && (forall k :: k in t.items ==> k in s.items && t.items[k] == s.items[k])
            && Debt(t) == Debt(s)
  {
  }

  lemma {:induction false} SweepsDropped(c: Config, m: Plain, es: seq<Event>, verdicts: seq<bool>)
    ensures PlainAnswers(c, m, es, verdicts) == PlainAnswers(c, m, WithoutSweeps(es), verdicts)
    decreases |es|
  {
    hide Lookup, NewEntry;
    if es != [] {
      var rest := es[1..];
      assert ([es[0]] + WithoutSweeps(rest))[1..] == WithoutSweeps(rest);
      assert [] + WithoutSweeps(rest) == WithoutSweeps(rest);
      match es[0]
      case Set(key, value, ttl, at) =>
        var ok := verdicts != [] && verdicts[0];
        SweepsDropped(c, if ok then m[key := NewEntry(c, value, ttl, at)] else m, rest,
                      if verdicts == [] then [] else verdicts[1..]);
      case Delete(key, _) => SweepsDropped(c, m - {key}, rest, verdicts);
      case Clear(_) => SweepsDropped(c, map[], rest, verdicts);
      case _ => SweepsDropped(c, m, rest, verdicts);
    }
  }

  /** Removing expired items is not noticed: runs that differ only in when it happens, and in
      which the same values are accepted, give the same answers throughout. */
  lemma {:induction false} SweepsUnnoticed(c: Config, es: seq<Event>, fs: seq<Event>)
    requires Timely(es, 0) && Timely(fs, 0) && WithoutSweeps(es) == WithoutSweeps(fs)
    requires Verdicts(Answers(c, EMPTY, es)) == Verdicts(Answers(c, EMPTY, fs))
    ensures Answers(c, EMPTY, es) == Answers(c, EMPTY, fs)
  {
    hide Answers, PlainAnswers, Verdicts, Timely;
    var v := Verdicts(Answers(c, EMPTY, es));
    RefinesPlainMap(c, EMPTY, map[], 0, es);
    RefinesPlainMap(c, EMPTY, map[], 0, fs);
    SweepsDropped(c, map[], es, v);
    SweepsDropped(c, map[], fs, v);
  }

  // ---- the number of keys ----

  ghost predicate KeysBounded(c: Config, s: State) {
    c.maxKeys > 0 ==> |s.items| <= c.maxKeys
  }

  lemma {:induction false} StepKeepsKeys(c: Config, s: State, e: Event)
    requires KeysBounded(c, s)
    ensures KeysBounded(c, Step(c, s, e).0)
  {
    hide Fits, Discounted, Sum;
    var t := Step(c, s, e).0;
    match e
    case Set(key, _, _, _) =>
      var k := c.keyPrefix + key;
      if k in s.items {
        SubmapSize(t.items, s.items);
      }
    case _ => SubmapSize(t.items, s.items);
  }

  /** The key count never exceeds a positive limit. */
  lemma {:induction false} KeysStayBounded(c: Config, s: State, es: seq<Event>)
    requires KeysBounded(c, s)
    ensures KeysBounded(c, RunState(c, s, es))
    decreases |es|
  {
    hide Step, KeysBounded;
    if es != [] {
      StepKeepsKeys(c, s, es[0]);
      KeysStayBounded(c, Step(c, s, es[0]).0, es[1..]);
    }
  }

  // ---- the number of bytes ----

  // The counter is the sum of the stored sizes, which are those of the values.
  ghost predicate Accounted(s: State) {
    s.currentSize == Sum(s.items)
  }

  ghost predicate Sized(c: Config, s: State) {
    forall k :: k in s.items ==> s.items[k].size == |s.items[k].value| && HasPrefix(k, c.keyPrefix)
  }

  /** Exactly when Set keeps the account: the key was absent or empty, or the byte limit is on
      and leaves room for the value in place of the old one. An overwrite that is refused
      takes the old size off without the old value, and one without a limit adds the new
      size on top. */
  lemma {:induction false} SetAccounts(c: Config, s: State, key: string, value: string, ttl: int, now: int)
    requires Accounted(s)
    ensures var (t, ok) := SetStep(c, s, key, value, ttl, now);
            var k := c.keyPrefix + key;
            Accounted(t) <==>
              k !in s.items || s.items[k].size == 0
              || (c.maxSize > 0 && s.currentSize - s.items[k].size + |value| <= c.maxSize)
  {
    hide NewItem, Sum;
    var k := c.keyPrefix + key;
    NewSize(c, value, ttl, now);
    SumWith(s.items, k, NewItem(c, value, ttl, now));
    if k in s.items {
      SumWithout(s.items, k);
    } else {
      assert s.items - {k} == s.items;
    }
  }

  lemma {:induction false} NewSize(c: Config, value: string, ttl: int, now: int)
    ensures NewItem(c, value, ttl, now).size == |value| && NewItem(c, value, ttl, now).value == value
  {
  }

  // A Set that overwrites and for which there is no room.
  predicate RefusedOverwrite(c: Config, s: State, e: Event) {
    e.Set? && c.keyPrefix + e.key in s.items && !Fits(c, s, c.keyPrefix + e.key, e.value)
  }

  ghost predicate NoRefusedOverwrite(c: Config, s: State, es: seq<Event>)
    decreases |es|
  {
    es == [] || (!RefusedOverwrite(c, s, es[0]) && NoRefusedOverwrite(c, Step(c, s, es[0]).0, es[1..]))
  }

  lemma {:induction false} StepKeepsSized(c: Config, s: State, e: Event)
    requires Sized(c, s)
    ensures Sized(c, Step(c, s, e).0)
  {
  }

  lemma {:induction false} StepAccounts(c: Config, s: State, e: Event)
    requires c.maxSize > 0 && Sized(c, s) && Accounted(s) && !RefusedOverwrite(c, s, e)
    ensures Accounted(Step(c, s, e).0)
  {
    hide NewItem, TooManyKeys, Sum;
    match e
    case Set(key, value, ttl, at) => SetAccounts(c, s, key, value, ttl, at);
    case Delete(key, _) =>
      var k := c.keyPrefix + key;
      if k in s.items {
        SumWithout(s.items, k);
      }
    case Clear(_) =>
      assert ClearStep(c, s).items == map[];
      SumEmpty();
    case _ =>
  }

  lemma {:induction false} SumOfPart(m: map<string, Item>, now: int)
    requires forall x :: x in m ==> m[x].size >= 0
    ensures Sum(Unexpired(m, now)) <= Sum(m)
    decreases |m|
  {
    hide Sum, Expired;
    if m == map[] {
      assert Unexpired(m, now) == m;
    } else {
      var k :| k in m;
      SumWithout(m, k);
      SumOfPart(m - {k}, now);
      if Expired(m[k], now) {
        assert Unexpired(m, now) == Unexpired(m - {k}, now);
      } else {
        SumWithout(Unexpired(m, now), k);
        assert Unexpired(m, now) - {k} == Unexpired(m - {k}, now);
      }
    }
  }

  lemma {:induction false} StepKeepsBound(c: Config, s: State, e: Event)
    requires c.maxSize > 0 && Sized(c, s) && Accounted(s) && s.currentSize <= c.maxSize
    ensures Step(c, s, e).0.currentSize <= c.maxSize
  {
    hide NewItem, Sum;
    match e
    case Set(key, _, _, _) =>
    case RemoveExpired(at) => SumOfPart(s.items, at);
    case _ =>
  }

  /** With a byte limit, in every run in which no overwriting Set is refused, the counter is
      the sum of the stored sizes and stays within the limit. */
  lemma {:induction false} BytesStayBounded(c: Config, s: State, es: seq<Event>)
    requires c.maxSize > 0 && Sized(c, s) && Accounted(s) && s.currentSize <= c.maxSize
    requires NoRefusedOverwrite(c, s, es)
    ensures var t := RunState(c, s, es);
            Accounted(t) && Sum(t.items) <= c.maxSize
    decreases |es|
  {
    hide Step, Sized, RefusedOverwrite, Sum;
    if es != [] {
      var t := Step(c, s, es[0]).0;
      StepKeepsSized(c, s, es[0]);
      StepAccounts(c, s, es[0]);
      StepKeepsBound(c, s, es[0]);
      BytesStayBounded(c, t, es[1..]);
    }
  }

  // There is room for one more key, or the key is there already.
  predicate KeyFits(c: Config, s: State, k: string) {
    c.maxKeys <= 0 || k in s.items || |s.items| < c.maxKeys
  }

  /** When Set accepts, and what it then stores: in every state, if and only if the key is there
      or there is room for another, and the counter without the old size of the key leaves room
      for the value; the other items stay as they are in any case. */
  lemma {:induction false} SetAccepts(c: Config, s: State, key: string, value: string, ttl: int, now: int)
    ensures var (t, ok) := SetStep(c, s, key, value, ttl, now);
            var k := c.keyPrefix + key;
            && (ok <==> KeyFits(c, s, k)
                        && (c.maxSize <= 0
                            || s.currentSize - (if k in s.items then s.items[k].size else 0) + |value| <= c.maxSize))
            && t.items.Keys == s.items.Keys + (if ok then {k} else {})
            && (ok ==> t.items[k].value == value && t.items[k].size == |value|)
            && forall j :: j in s.items && (j != k || !ok) ==> t.items[j] == s.items[j]
  {
  }

  /** With a byte limit, after every run in which no overwriting Set is refused, Set accepts if
      and only if the key fits and all that would then be stored is within the limit. */
  lemma {:induction false} SetAcceptsExactly(c: Config, es: seq<Event>, key: string, value: string, ttl: int, now: int)
    requires c.maxSize > 0 && NoRefusedOverwrite(c, EMPTY, es)
    ensures var s, k := RunState(c, EMPTY, es), c.keyPrefix + key;
            SetStep(c, s, key, value, ttl, now).1
            <==> KeyFits(c, s, k) && Sum(s.items[k := NewItem(c, value, ttl, now)]) <= c.maxSize
  {
    hide Sum, NewItem, RunState, NoRefusedOverwrite;
    var s, k := RunState(c, EMPTY, es), c.keyPrefix + key;
    SumEmpty();
    BytesStayBounded(c, EMPTY, es);
    NewSize(c, value, ttl, now);
    SumWith(s.items, k, NewItem(c, value, ttl, now));
    if k in s.items {
      SumWithout(s.items, k);
    } else {
      assert s.items - {k} == s.items;
    }
  }

  // How many overwriting Sets a run refuses.
  ghost function RefusedOverwrites(c: Config, s: State, es: seq<Event>): nat
    decreases |es|
  {
    if es == [] then 0
    else (if RefusedOverwrite(c, s, es[0]) then 1 else 0) + RefusedOverwrites(c, Step(c, s, es[0]).0, es[1..])
  }

  // The stored bytes that the counter misses.
  ghost function Debt(s: State): int {
    Sum(s.items) - s.currentSize
  }

  ghost predicate InDebt(c: Config, s: State) {
    c.maxSize > 0 && Sized(c, s) && Debt(s) >= 0 && s.currentSize <= c.maxSize
  }

  lemma {:induction false} SumNotNegative(m: map<string, Item>)
    requires forall k :: k in m ==> m[k].size >= 0
    ensures Sum(m) >= 0
    decreases |m|
  {
    if m != map[] {
      var k :| k in m;
      SumWithout(m, k);
      SumNotNegative(m - {k});
    }
  }

  // A Set leaves the missing bytes as they are, unless it is a refused overwrite, which adds at
  // most all that is stored.
  lemma {:induction false} SetDebt(c: Config, s: State, key: string, value: string, ttl: int, now: int)
    requires InDebt(c, s)
    ensures var t := SetStep(c, s, key, value, ttl, now).0;
            && t.currentSize <= c.maxSize
            && (if RefusedOverwrite(c, s, Set(key, value, ttl, now)) then Debt(s) <= Debt(t) <= Debt(s) + Sum(s.items)
                else Debt(t) == Debt(s))
  {
    hide NewItem, Sum, TooManyKeys;
    var k := c.keyPrefix + key;
    NewSize(c, value, ttl, now);
    SumWith(s.items, k, NewItem(c, value, ttl, now));
    if k in s.items {
      SumWithout(s.items, k);
      SumNotNegative(s.items - {k});
      assert !TooManyKeys(c, s, k) by { KnownKey(c, s, k); }
    } else {
      assert s.items - {k} == s.items;
    }
  }

  lemma {:induction false} KnownKey(c: Config, s: State, k: string)
    requires k in s.items
    ensures !TooManyKeys(c, s, k)
  {
  }

  lemma {:induction false} StepDebt(c: Config, s: State, e: Event)
    requires InDebt(c, s)
    ensures var t := Step(c, s, e).0;
            && InDebt(c, t)
            && Debt(t) + c.maxSize <= (if RefusedOverwrite(c, s, e) then 2 else 1) * (Debt(s) + c.maxSize)
  {
    StepKeepsSized(c, s, e);
    hide NewItem, TooManyKeys, Sum, SetStep;
    match e
    case Set(key, value, ttl, at) => SetDebt(c, s, key, value, ttl, at);
    case Delete(key, _) =>
      var k := c.keyPrefix + key;
      if k in s.items {
        SumWithout(s.items, k);
      }
    case Clear(_) =>
      assert ClearStep(c, s).items == map[];
      SumEmpty();
    case RemoveExpired(at) => SumOfPart(s.items, at);
    case _ =>
  }

  lemma {:induction false} Grows(p: nat, q: nat, a: int, b: int, k: nat)
    requires q == k * p && a <= k * b
    ensures p * a <= q * b
  {
    assert p * a <= p * (k * b) == q * b;
  }

  lemma {:induction false} RunDebt(c: Config, s: State, es: seq<Event>)
    requires InDebt(c, s)
    ensures var t := RunState(c, s, es);
            InDebt(c, t) && Debt(t) + c.maxSize <= Pow2(RefusedOverwrites(c, s, es)) * (Debt(s) + c.maxSize)
    decreases |es|
  {
    hide Step, Sized, RefusedOverwrite, Sum, Debt;
    if es != [] {
      var e, t := es[0], Step(c, s, es[0]).0;
      StepDebt(c, s, e);
      RunDebt(c, t, es[1..]);
      var n := RefusedOverwrites(c, t, es[1..]);
      var k := if RefusedOverwrite(c, s, e) then 2 else 1;
      Grows(Pow2(n), k * Pow2(n), Debt(t) + c.maxSize, Debt(s) + c.maxSize, k);
    }
  }

  /** What the byte limit is worth in every run: each refused overwrite at most doubles what can
      be stored. */
  lemma {:induction false} BytesBound(c: Config, es: seq<Event>)
    requires c.maxSize > 0
    ensures Sum(RunState(c, EMPTY, es).items) <= Pow2(RefusedOverwrites(c, EMPTY, es)) * c.maxSize
  {
    hide Step, RefusedOverwrite;
    SumEmpty();
    RunDebt(c, EMPTY, es);
  }

  function Bytes(n: nat): string {
    seq(n, i => 'x')
  }

  lemma {:induction false} BytesSize(n: nat)
    ensures |Bytes(n)| == n
  {
  }

  lemma {:induction false} SumEmpty()
    ensures Sum(map[]) == 0
  {
  }

  lemma {:induction false} SumOne(k: string, i: Item)
    ensures Sum(map[k := i]) == i.size
  {
    SumWithout(map[k := i], k);
    assert map[k := i] - {k} == map[];
  }

  function SetA(size: nat): Event {
    Set("a", Bytes(size), 0, 0)
  }

  // An only key with so many bytes, and a counter at its limit.
  predicate Alone(c: Config, s: State, size: nat) {
    var a := c.keyPrefix + "a";
    a in s.items && s.items == map[a := s.items[a]] && s.items[a].size == size && s.currentSize == c.maxSize
  }

  // A refused overwrite, and another one with all the room it leaves.
  lemma {:induction false} Doubled(c: Config, s: State, size: nat)
    requires c.maxSize > 0 && Alone(c, s, size)
    ensures var t := Step(c, s, SetA(size + 1)).0;
            && RefusedOverwrite(c, s, SetA(size + 1)) && !RefusedOverwrite(c, t, SetA(2 * size))
            && Alone(c, Step(c, t, SetA(2 * size)).0, 2 * size)
  {
    hide Bytes, NewItem;
    var a := c.keyPrefix + "a";
    BytesSize(size + 1);
    BytesSize(2 * size);
    NewSize(c, Bytes(2 * size), 0, 0);
    var t := Step(c, s, SetA(size + 1)).0;
    assert t == s.(currentSize := c.maxSize - size);
    var i := NewItem(c, Bytes(2 * size), 0, 0);
    assert s.items[a := i] == map[a := i];
  }

  lemma {:induction false} RunSnoc(c: Config, s: State, es: seq<Event>, b: Event)
    ensures RunState(c, s, es + [b]) == Step(c, RunState(c, s, es), b).0
    ensures RefusedOverwrites(c, s, es + [b])
         == RefusedOverwrites(c, s, es) + if RefusedOverwrite(c, RunState(c, s, es), b) then 1 else 0
    decreases |es|
  {
    hide Step, RefusedOverwrite;
    if es == [] {
      assert [] + [b] == [b] && [b][1..] == [];
    } else {
      assert (es + [b])[1..] == es[1..] + [b];
      RunSnoc(c, Step(c, s, es[0]).0, es[1..], b);
    }
  }

  lemma {:induction false} FirstSet(c: Config)
    requires c.maxSize > 0
    ensures !RefusedOverwrite(c, EMPTY, SetA(c.maxSize))
    ensures Alone(c, Step(c, EMPTY, SetA(c.maxSize)).0, c.maxSize)
  {
    hide Bytes, NewItem;
    BytesSize(c.maxSize);
    NewSize(c, Bytes(c.maxSize), 0, 0);
  }

  lemma {:induction false} DoubledRun(c: Config, n: nat) returns (es: seq<Event>)
    requires c.maxSize > 0
    ensures RefusedOverwrites(c, EMPTY, es) == n && Alone(c, RunState(c, EMPTY, es), Pow2(n) * c.maxSize)
  {
    hide Step, RefusedOverwrite, Alone, SetA;
    if n == 0 {
      es := [] + [SetA(c.maxSize)];
      FirstSet(c);
      RunSnoc(c, EMPTY, [], SetA(c.maxSize));
    } else {
      var front := DoubledRun(c, n - 1);
      var size := Pow2(n - 1) * c.maxSize;
      assert 2 * size == Pow2(n) * c.maxSize;
      es := front + [SetA(size + 1)] + [SetA(2 * size)];
      Doubled(c, RunState(c, EMPTY, front), size);
      RunSnoc(c, EMPTY, front, SetA(size + 1));
      RunSnoc(c, EMPTY, front + [SetA(size + 1)], SetA(2 * size));
    }
  }

  /** And this bound is reached, whatever the limit and for every n: n refused overwrites are
      enough to store two to the power n times the limit. */
  lemma {:induction false} LimitExceeded(c: Config, n: nat) returns (es: seq<Event>)
    requires c.maxSize > 0
    ensures RefusedOverwrites(c, EMPTY, es) == n && Sum(RunState(c, EMPTY, es).items) == Pow2(n) * c.maxSize
  {
    es := DoubledRun(c, n);
    var a, t := c.keyPrefix + "a", RunState(c, EMPTY, es);
    SumOne(a, t.items[a]);
  }
}

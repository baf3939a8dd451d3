/** Loading under a prefix means loading from the variables that carry it, with the prefix
    taken off (config/env/env.go:234-262, 340-491, 585-652). That is what lets one struct
    describe several instances of the same settings. */
module EnvPrefix {
  import opened Options
  import opened Sequences
  import opened Numbers
  import opened Decimal
  import opened EnvSlices
  import opened EnvLoader

  // The variables that start with p, stripped of it.
  function Restrict(e: Environment, p: string): Environment {
    map k | k in (set x | x in e && HasPrefix(x, p) :: x[|p|..]) && p + k in e :: e[p + k]
  }

  function AddPrefix(p: string, error: Error): Error {
    match error
    case NotSet(key) => NotSet(p + key)
    case Empty(key) => Empty(p + key)
    case BadValue(_) => error
    case NoParser(_) => error
  }

  function AddPrefixes(p: string, errors: seq<Error>): seq<Error> {
    seq(|errors|, i requires 0 <= i < |errors| => AddPrefix(p, errors[i]))
  }

  lemma {:induction false} Lookup(e: Environment, p: string, k: string)
    ensures p + k in e <==> k in Restrict(e, p)
    ensures p + k in e ==> Restrict(e, p)[k] == e[p + k]
  {
  }

  // ---- one key ----

  predicate KeyOk(p: string, q: string, params: Params) {
    p == "" || q + params.ownKey != "" || params.default.None? || params.ignored
  }

  function GotWith(p: string, g: Got): Got {
    match g
    case Failed(error) => Failed(AddPrefix(p, error))
    case Value(_) => g
  }

  lemma {:induction false} GetPrefixed(e: Environment, p: string, q: string, params: Params)
    requires KeyOk(p, q, params) && !params.ignored
    ensures Get(e, p + q, params) == GotWith(p, Get(Restrict(e, p), q, params))
  {
    hide Restrict;
    Assoc(p, q, params.ownKey);
    Lookup(e, p, q + params.ownKey);
  }

  lemma {:induction false} OwnPrefixed(e: Environment, p: string, q: string, params: Params)
    requires KeyOk(p, q, params) && !params.ignored
    ensures OwnErrors(e, p + q, params) == AddPrefixes(p, OwnErrors(Restrict(e, p), q, params))
  {
    hide Get, Restrict;
    GetPrefixed(e, p, q, params);
  }

  lemma {:induction false} LeafPrefixed(parse: Parser, e: Environment, p: string, q: string, f: Field)
    requires f.Leaf? && KeyOk(p, q, f.params) && !f.params.ignored
    ensures var l := LoadLeaf(parse, Restrict(e, p), q, f);
            LoadLeaf(parse, e, p + q, f) == LoadedField(l.field, AddPrefixes(p, l.errors))
  {
    hide Get, Restrict;
    GetPrefixed(e, p, q, f.params);
  }

  // ---- slices ----

  predicate EndsInUnderscore(p: string) {
    p != "" && p[|p| - 1] == '_'
  }

  lemma {:induction false} SlicePrefixed(p: string, q: string)
    requires p == "" || q != "" || EndsInUnderscore(p)
    ensures SlicePrefix(p + q) == p + SlicePrefix(q)
  {
    if q == "" {
      assert p + q == p;
    } else {
      assert (p + q)[|p + q| - 1] == q[|q| - 1];
      Assoc(p, q, "_");
    }
  }

  lemma {:induction false} HasPrefixed(p: string, k: string, q: string)
    ensures HasPrefix(p + k, p + q) <==> HasPrefix(k, q)
  {
    if HasPrefix(p + k, p + q) {
      assert forall i :: 0 <= i < |q| ==> k[i] == (p + k)[|p| + i] == (p + q)[|p| + i] == q[i];
    }
    if HasPrefix(k, q) {
      assert k[..|q|] == q;
      assert (p + k)[..|p| + |q|] == p + q;
    }
  }

  // Some variable starts with a prefix.
  ghost predicate Starts(e: Environment, prefix: string) {
    exists k :: k in e && HasPrefix(k, prefix)
  }

  lemma {:induction false} StartsPrefixed(e: Environment, p: string, q: string)
    ensures Starts(e, p + q) <==> Starts(Restrict(e, p), q)
  {
    if Starts(e, p + q) {
      var x :| x in e && HasPrefix(x, p + q);
      var k := x[|p|..];
      assert x[..|p + q|] == p + q;
      assert x[..|p|] == p;
      assert x == p + k;
      Lookup(e, p, k);
      HasPrefixed(p, k, q);
      assert k in Restrict(e, p) && HasPrefix(k, q);
    }
    if Starts(Restrict(e, p), q) {
      var k :| k in Restrict(e, p) && HasPrefix(k, q);
      Lookup(e, p, k);
      HasPrefixed(p, k, q);
      assert p + k in e && HasPrefix(p + k, p + q);
    }
  }

  lemma {:induction false} NothingUnder(e: Environment, prefix: string)
    ensures Under(e, prefix) == {} <==> !Starts(e, prefix)
  {
    if Starts(e, prefix) {
      var k :| k in e && HasPrefix(k, prefix);
      assert k in Under(e, prefix);
    }
    if Under(e, prefix) != {} {
      var k :| k in Under(e, prefix);
      assert k in e && HasPrefix(k, prefix);
    }
  }

  lemma {:induction false} ItemPrefixed(p: string, q: string, i: nat)
    ensures ItemPrefix(p + q, i) == p + ItemPrefix(q, i) && ItemPrefix(q, i) != ""
  {
  }

  lemma {:induction false} UsedPrefixed(e: Environment, p: string, q: string, i: nat)
    ensures Used(e, p + q, i) <==> Used(Restrict(e, p), q, i)
  {
    hide Restrict, ItemPrefix, HasPrefix;
    ItemPrefixed(p, q, i);
    StartsPrefixed(e, p, ItemPrefix(q, i));
    assert Used(e, p + q, i) <==> Starts(e, ItemPrefix(p + q, i));
    assert Used(Restrict(e, p), q, i) <==> Starts(Restrict(e, p), ItemPrefix(q, i));
  }

  /** A slice has the same length under p ++ q as under q among the variables of p. */
  lemma {:induction false} LengthPrefixed(e: Environment, p: string, q: string)
    ensures Length(e, p + q) == Length(Restrict(e, p), q)
  {
    hide Restrict, Used;
    var c := Length(Restrict(e, p), q);
    forall i: nat ensures Used(e, p + q, i) <==> Used(Restrict(e, p), q, i) {
      UsedPrefixed(e, p, q, i);
    }
    OneLength(e, p + q, c, Length(e, p + q));
  }

  // ---- whole structs ----

  /** What a struct must be like under q for p to come off: no default for a field whose
      whole relative key is empty, and, unless p ends in an underscore, no slice whose
      whole relative prefix is empty. */
  predicate Steady(p: string, q: string, fs: seq<Field>)
    decreases fs
  {
    forall i :: 0 <= i < |fs| ==> SteadyField(p, q, fs[i])
  }

  predicate SteadyField(p: string, q: string, f: Field)
    decreases f
  {
    match f
    case Leaf(params, _, _) => KeyOk(p, q, params)
    case Inline(prefix, fs) => Steady(p, q + prefix, fs)
    case Struct(params, prefix, fs) => KeyOk(p, q, params) && Steady(p, q + prefix, fs)
    case Slice(params, prefix, _, _) =>
      KeyOk(p, q, params) && (p == "" || q + prefix != "" || EndsInUnderscore(p))
  }

  lemma {:induction false} AlwaysSteady(p: string, q: string, fs: seq<Field>)
    requires p == "" || q != ""
    ensures Steady(p, q, fs)
    decreases fs
  {
    forall i | 0 <= i < |fs| ensures SteadyField(p, q, fs[i]) {
      match fs[i]
      case Leaf(_, _, _) =>
      case Inline(prefix, gs) => AlwaysSteady(p, q + prefix, gs);
      case Struct(_, prefix, gs) => AlwaysSteady(p, q + prefix, gs);
      case Slice(_, _, _, _) =>
    }
  }

  function With(p: string, l: Loaded): Loaded {
    l.(errors := AddPrefixes(p, l.errors))
  }

  lemma {:induction false} AddsAcross(p: string, a: seq<Error>, b: seq<Error>)
    ensures AddPrefixes(p, a + b) == AddPrefixes(p, a) + AddPrefixes(p, b)
  {
  }

  lemma {:induction false} FieldsHom(parse: Parser, e: Environment, p: string, q: string, fs: seq<Field>, n: nat)
    requires n <= |fs| && Steady(p, q, fs)
    ensures LoadFields(parse, e, p + q, fs, n) == With(p, LoadFields(parse, Restrict(e, p), q, fs, n))
    decreases fs, n
  {
    hide LoadField, SteadyField, Restrict, AddPrefixes;
    if n == 0 {
      assert AddPrefixes(p, []) == [] by { NoErrors(p); }
    } else {
      FieldsHom(parse, e, p, q, fs, n - 1);
      FieldHom(parse, e, p, q, fs[n - 1]);
      AddsAcross(p, LoadFields(parse, Restrict(e, p), q, fs, n - 1).errors,
                 LoadField(parse, Restrict(e, p), q, fs[n - 1]).errors);
    }
  }

  lemma {:induction false} NoErrors(p: string)
    ensures forall errors :: AddPrefixes(p, errors) == [] <==> errors == []
  {
  }

  lemma {:induction false} LoadHom(parse: Parser, e: Environment, p: string, q: string, fs: seq<Field>)
    requires Steady(p, q, fs)
    ensures Load(parse, e, p + q, fs) == With(p, Load(parse, Restrict(e, p), q, fs))
    decreases fs, |fs| + 1
  {
    hide LoadFields, Restrict, With, Steady;
    FieldsHom(parse, e, p, q, fs, |fs|);
  }

  lemma {:induction false} FieldHom(parse: Parser, e: Environment, p: string, q: string, f: Field)
    requires SteadyField(p, q, f)
    ensures var l := LoadField(parse, Restrict(e, p), q, f);
            LoadField(parse, e, p + q, f) == LoadedField(l.field, AddPrefixes(p, l.errors))
    decreases f, 1
  {
    hide Load, Restrict, AddPrefixes, LoadLeaf, LoadSlice, OwnErrors, Steady, KeyOk, SlicePrefix, EndsInUnderscore;
    NoErrors(p);
    match f
    case Inline(prefix, fs) =>
      Assoc(p, q, prefix);
      LoadHom(parse, e, p, q + prefix, fs);
    case Leaf(params, _, _) =>
      if !params.ignored {
        LeafPrefixed(parse, e, p, q, f);
      }
    case Struct(params, prefix, fs) =>
      if !params.ignored {
        OwnPrefixed(e, p, q, params);
        Assoc(p, q, prefix);
        LoadHom(parse, e, p, q + prefix, fs);
      }
    case Slice(params, prefix, _, _) =>
      if !params.ignored {
        OwnPrefixed(e, p, q, params);
        Assoc(p, q, prefix);
        SlicePrefixed(p, q + prefix);
        SliceHom(parse, e, p, SlicePrefix(q + prefix), f);
      }
  }

  lemma {:induction false} SliceHom(parse: Parser, e: Environment, p: string, q: string, f: Field)
    requires f.Slice?
    ensures var l := LoadSlice(parse, Restrict(e, p), q, f);
            LoadSlice(parse, e, p + q, f) == LoadedField(l.field, AddPrefixes(p, l.errors))
    decreases f, 0
  {
    hide Restrict, AddPrefixes, LoadItems, Length, Under;
    NoErrors(p);
    NothingUnder(e, p + q);
    NothingUnder(Restrict(e, p), q);
    StartsPrefixed(e, p, q);
    LengthPrefixed(e, p, q);
    ItemsHom(parse, e, p, q, f, Max(|f.items|, Length(e, p + q)));
  }

  lemma {:induction false} ItemsHom(parse: Parser, e: Environment, p: string, q: string, f: Field, n: nat)
    requires f.Slice?
    ensures var l := LoadItems(parse, Restrict(e, p), q, f, n);
            LoadItems(parse, e, p + q, f, n) == LoadedItems(l.items, AddPrefixes(p, l.errors))
    decreases f, 0, n
  {
    hide Restrict, AddPrefixes, Load, ItemPrefix;
    NoErrors(p);
    if n > 0 {
      ItemsHom(parse, e, p, q, f, n - 1);
      ItemPrefixed(p, q, n - 1);
      var fs := if n - 1 < |f.items| then f.items[n - 1].fields else f.zero;
      AlwaysSteady(p, ItemPrefix(q, n - 1), fs);
      LoadHom(parse, e, p, ItemPrefix(q, n - 1), fs);
    }
  }

  // ---- the two laws ----

  // Fields with an own key, or without a default, all the way down to the slices.
  predicate Keyed(fs: seq<Field>)
    decreases fs
  {
    forall i :: 0 <= i < |fs| ==> KeyedField(fs[i])
  }

  predicate KeyedField(f: Field)
    decreases f
  {
    match f
    case Inline(_, fs) => Keyed(fs)
    case Leaf(params, _, _) => params.ownKey != "" || params.default.None? || params.ignored
    case Struct(params, _, fs) => (params.ownKey != "" || params.default.None? || params.ignored) && Keyed(fs)
    case Slice(params, _, _, _) => params.ownKey != "" || params.default.None? || params.ignored
  }

  lemma {:induction false} KeyedIsSteady(p: string, q: string, fs: seq<Field>)
    requires Keyed(fs) && (p == "" || EndsInUnderscore(p))
    ensures Steady(p, q, fs)
    decreases fs
  {
    forall i | 0 <= i < |fs| ensures SteadyField(p, q, fs[i]) {
      assert KeyedField(fs[i]);
      match fs[i]
      case Leaf(_, _, _) =>
      case Inline(prefix, gs) => KeyedIsSteady(p, q + prefix, gs);
      case Struct(_, prefix, gs) => KeyedIsSteady(p, q + prefix, gs);
      case Slice(_, _, _, _) =>
    }
  }

  // Loading under p ++ q is loading under q from the variables of p.
  ghost predicate ComesOff(parse: Parser, e: Environment, p: string, q: string, fs: seq<Field>) {
    Load(parse, e, p + q, fs) == With(p, Load(parse, Restrict(e, p), q, fs))
  }

  // A slice of empty structs without tags, and a field with a default but no key.
  const BARE_SLICE: Field := Slice(Params("S", "", None, false, false, false), "", [], [])
  const KEYLESS: Field := Leaf(Params("F", "", Some(""), false, true, false), 0, 0)

  lemma {:induction false} AllItems(parse: Parser, e: Environment, prefix: string, f: Field, n: nat)
    requires f.Slice? && LoadItems(parse, e, prefix, f, n).errors == []
    ensures |LoadItems(parse, e, prefix, f, n).items| == n
  {
    if n > 0 {
      AllItems(parse, e, prefix, f, n - 1);
    }
  }

  lemma {:induction false} LoadOne(parse: Parser, e: Environment, prefix: string, f: Field)
    ensures var l := LoadField(parse, e, prefix, f);
            Load(parse, e, prefix, [f]) == Loaded([l.field], l.errors)
  {
    hide LoadField;
    var l := LoadField(parse, e, prefix, f);
    assert LoadFields(parse, e, prefix, [f], 0) == Loaded([], []);
    assert LoadFields(parse, e, prefix, [f], 1) == Loaded([] + [l.field], [] + l.errors);
  }

  // The bare slice, from an environment with no variable of its own key.
  lemma {:induction false} BareSliceLoads(parse: Parser, e: Environment, prefix: string)
    requires prefix !in e
    ensures LoadField(parse, e, prefix, BARE_SLICE) == LoadSlice(parse, e, SlicePrefix(prefix), BARE_SLICE)
  {
    assert prefix + "" == prefix;
  }

  lemma {:induction false} BareUnder(parse: Parser, p: string, e: Environment)
    requires p != "" && !EndsInUnderscore(p) && e == map[p + "0_" := ""]
    ensures Load(parse, e, p, [BARE_SLICE]) == Loaded([BARE_SLICE], [])
  {
    hide LoadItems;
    BareSliceLoads(parse, e, p);
    LoadOne(parse, e, p, BARE_SLICE);
    assert (p + "0_")[|p|] != (p + "_")[|p|];
    assert Under(e, p + "_") == {};
  }

  lemma {:induction false} BareOff(parse: Parser, r: Environment)
    requires "" !in r && "0_" in r
    ensures Load(parse, r, "", [BARE_SLICE]).fields != [BARE_SLICE] || Load(parse, r, "", [BARE_SLICE]).errors != []
  {
    hide LoadItems;
    BareSliceLoads(parse, r, "");
    LoadOne(parse, r, "", BARE_SLICE);
    assert Numeral(0) == "0";
    assert HasPrefix("0_", ItemPrefix("", 0));
    assert Used(r, "", 0);
    assert "0_" in Under(r, "");
    var n := Max(0, Length(r, ""));
    if LoadItems(parse, r, "", BARE_SLICE, n).errors == [] {
      AllItems(parse, r, "", BARE_SLICE, n);
    }
  }

  // From p ++ "0_" alone, the slice is empty under p and has an element once p is off.
  lemma {:induction false} BareSlice(parse: Parser, p: string) returns (e: Environment)
    requires p != "" && !EndsInUnderscore(p)
    ensures !ComesOff(parse, e, p, "", [BARE_SLICE])
  {
    hide Load;
    e := map[p + "0_" := ""];
    assert p + "" == p;
    Lookup(e, p, "0_");
    Lookup(e, p, "");
    BareUnder(parse, p, e);
    BareOff(parse, Restrict(e, p));
  }

  // From p alone, the field has a value under p and is empty once p is off.
  lemma {:induction false} Keyless(parse: Parser, p: string) returns (e: Environment)
    requires p != ""
    ensures !ComesOff(parse, e, p, "", [KEYLESS])
  {
    e := map[p := "x"];
    assert p + "" == p;
    LoadOne(parse, e, p, KEYLESS);
    LoadOne(parse, Restrict(e, p), "", KEYLESS);
    assert LoadField(parse, Restrict(e, p), "", KEYLESS).errors == [Empty("")];
    assert AddPrefixes(p, [Empty("")])[0] == Empty(p);
    var here := LoadField(parse, e, p, KEYLESS).errors;
    assert here == [] || here[0] == BadValue("F");
  }

  /** The prefix homomorphism. For a given p it holds of every keyed struct, under every
      further prefix q and from every environment, if and only if p is empty or ends in an
      underscore: the loader adds an underscore to a slice prefix of its own accord. */
  lemma {:induction false} PrefixHomomorphism(parse: Parser, p: string)
    ensures (forall e: Environment, q: string, fs: seq<Field> :: Keyed(fs) ==> ComesOff(parse, e, p, q, fs))
       <==> p == "" || EndsInUnderscore(p)
  {
    if p == "" || EndsInUnderscore(p) {
      forall e: Environment, q: string, fs: seq<Field> | Keyed(fs) ensures ComesOff(parse, e, p, q, fs) {
        KeyedIsSteady(p, q, fs);
        LoadHom(parse, e, p, q, fs);
      }
    } else {
      var e := BareSlice(parse, p);
      assert Keyed([BARE_SLICE]);
    }
  }

  /** Of every struct whatever it holds if and only if p is empty or q is not: a field
      without a key finds the variable p itself, and defaults are taken for the name "". */
  lemma {:induction false} PrefixUnkeyed(parse: Parser, p: string, q: string)
    ensures (forall e: Environment, fs: seq<Field> :: ComesOff(parse, e, p, q, fs)) <==> p == "" || q != ""
  {
    if p == "" || q != "" {
      forall e: Environment, fs: seq<Field> ensures ComesOff(parse, e, p, q, fs) {
        AlwaysSteady(p, q, fs);
        LoadHom(parse, e, p, q, fs);
      }
    } else {
      var e := Keyless(parse, p);
    }
  }

  /** Only the variables that start with p matter: environments that agree on them load the
      same values and the same errors. */
  lemma {:induction false} OnlyPrefixMatters(parse: Parser, d: Environment, e: Environment, p: string, q: string,
      fs: seq<Field>)
    requires Steady(p, q, fs)
    requires forall k :: HasPrefix(k, p) ==> (k in d <==> k in e) && (k in d ==> d[k] == e[k])
    ensures Load(parse, d, p + q, fs) == Load(parse, e, p + q, fs)
  {
    hide Load, Steady, With;
    assert Restrict(d, p) == Restrict(e, p);
    LoadHom(parse, d, p, q, fs);
    LoadHom(parse, e, p, q, fs);
  }
}

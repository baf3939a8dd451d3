/** What loading a struct is worth, leaf by leaf and error by error (config/env/env.go:340-491,
    575-720), said of the environment alone. */
module EnvLeaves {
  import opened Options
  import opened Numbers
  import opened EnvSlices
  import opened EnvLoader

  // ---- one key ----

  // What a key stands for: its variable, unless that is missing or empty; then the default.
  // The empty key stands for the default before its variable.
  function Text(e: Environment, key: string, default: Option<string>): string {
    if key in e && e[key] != "" && (key != "" || default.None?) then e[key]
    else if default.Some? then default.value
    else ""
  }

  // What is wrong with a key before anything is parsed.
  function KeyError(e: Environment, key: string, params: Params): Option<Error> {
    if params.required && params.ownKey != "" && key !in e && params.default.None? then Some(NotSet(key))
    else if params.notEmpty && Text(e, key, params.default) == "" then Some(Empty(key))
    else None
  }

  lemma {:induction false} GetExactly(e: Environment, prefix: string, params: Params)
    ensures var key := prefix + params.ownKey;
            Get(e, prefix, params)
            == match KeyError(e, key, params)
               case Some(error) => Failed(error)
               case None => Value(Text(e, key, params.default))
  {
  }

  // ---- one leaf ----

  // The value of a leaf after loading: the parse of what its key stands for, if that is
  // something and parses, and else the old value.
  function Worth(parse: Parser, e: Environment, key: string, f: Field): int
    requires f.Leaf?
  {
    var text := Text(e, key, f.params.default);
    if text != "" && parse(f.kind, text).Some? then parse(f.kind, text).value else f.value
  }

  function LeafErrors(parse: Parser, e: Environment, key: string, f: Field): seq<Error>
    requires f.Leaf?
  {
    var text := Text(e, key, f.params.default);
    match KeyError(e, key, f.params)
    case Some(error) => [error]
    case None => if text != "" && parse(f.kind, text).None? then [BadValue(f.params.name)] else []
  }

  // A struct or a slice has no parser of its own.
  function HolderErrors(e: Environment, key: string, params: Params): seq<Error> {
    match KeyError(e, key, params)
    case Some(error) => [error]
    case None => if Text(e, key, params.default) != "" then [NoParser(params.name)] else []
  }

  lemma {:induction false} LeafExactly(parse: Parser, e: Environment, prefix: string, f: Field)
    requires f.Leaf? && !f.params.ignored
    ensures var key := prefix + f.params.ownKey;
            LoadField(parse, e, prefix, f)
            == LoadedField(f.(value := Worth(parse, e, key, f)), LeafErrors(parse, e, key, f))
  {
    GetExactly(e, prefix, f.params);
    hide Get, KeyError;
    var key := prefix + f.params.ownKey;
    if KeyError(e, key, f.params).Some? {
      FaultyIsEmpty(e, key, f.params);
    }
    hide Text;
  }

  lemma {:induction false} FaultyIsEmpty(e: Environment, key: string, params: Params)
    requires KeyError(e, key, params).Some?
    ensures Text(e, key, params.default) == ""
  {
  }

  lemma {:induction false} HolderExactly(e: Environment, prefix: string, params: Params)
    ensures OwnErrors(e, prefix, params) == HolderErrors(e, prefix + params.ownKey, params)
  {
    GetExactly(e, prefix, params);
    hide Get, KeyError, Text;
  }

  // ---- the errors of a struct ----

  // Of the first n fields, in order.
  ghost function FieldsErrors(parse: Parser, e: Environment, prefix: string, fs: seq<Field>, n: nat): seq<Error>
    requires n <= |fs|
    decreases fs, n
  {
    if n == 0 then []
    else FieldsErrors(parse, e, prefix, fs, n - 1) + FieldErrors(parse, e, prefix, fs[n - 1])
  }

  ghost function Errors(parse: Parser, e: Environment, prefix: string, fs: seq<Field>): seq<Error>
    decreases fs, |fs| + 1
  {
    FieldsErrors(parse, e, prefix, fs, |fs|)
  }

  // A faulty key of a struct or slice hides what is in it.
  ghost function FieldErrors(parse: Parser, e: Environment, prefix: string, f: Field): seq<Error>
    decreases f, 1
  {
    if f.Inline? then Errors(parse, e, prefix + f.prefix, f.fields)
    else if f.params.ignored then []
    else if f.Leaf? then LeafErrors(parse, e, prefix + f.params.ownKey, f)
    else if HolderErrors(e, prefix + f.params.ownKey, f.params) != [] then
      HolderErrors(e, prefix + f.params.ownKey, f.params)
    else if f.Struct? then Errors(parse, e, prefix + f.prefix, f.fields)
    else ItemsErrors(parse, e, SlicePrefix(prefix + f.prefix), f, ItemCount(e, SlicePrefix(prefix + f.prefix), f))
  }

  // How many items of a slice are loaded: none without a variable under its prefix, and else
  // those that are there already and those the variables name.
  ghost function ItemCount(e: Environment, prefix: string, f: Field): nat
    requires f.Slice?
  {
    if !exists k :: k in Under(e, prefix) then 0
    else if |f.items| < Length(e, prefix) then Length(e, prefix)
    else |f.items|
  }

  function ItemFields(f: Field, i: nat): seq<Field>
    requires f.Slice?
  {
    if i < |f.items| then f.items[i].fields else f.zero
  }

  // Of the first of n items that has any.
  ghost function ItemsErrors(parse: Parser, e: Environment, prefix: string, f: Field, n: nat): seq<Error>
    requires f.Slice?
    decreases f, 0, n
  {
    if n == 0 then []
    else
      var before := ItemsErrors(parse, e, prefix, f, n - 1);
      if before != [] then before
      else Errors(parse, e, ItemPrefix(prefix, n - 1), if n - 1 < |f.items| then f.items[n - 1].fields else f.zero)
  }

  lemma {:induction false} FieldsFail(parse: Parser, e: Environment, prefix: string, fs: seq<Field>, n: nat)
    requires n <= |fs|
    ensures LoadFields(parse, e, prefix, fs, n).errors == FieldsErrors(parse, e, prefix, fs, n)
    decreases fs, n
  {
    hide LoadField, FieldErrors;
    if n > 0 {
      FieldsFail(parse, e, prefix, fs, n - 1);
      FieldFails(parse, e, prefix, fs[n - 1]);
    }
  }

  /** The errors of loading any struct, exactly, in the order of the fields: each leaf, struct and
      slice the loader comes to reports what is wrong with its own key and nothing else does. */
  lemma {:induction false} ErrorsExactly(parse: Parser, e: Environment, prefix: string, fs: seq<Field>)
    ensures Load(parse, e, prefix, fs).errors == Errors(parse, e, prefix, fs)
    decreases fs, |fs| + 1
  {
    hide LoadFields, FieldsErrors;
    FieldsFail(parse, e, prefix, fs, |fs|);
  }

  lemma {:induction false} FieldFails(parse: Parser, e: Environment, prefix: string, f: Field)
    ensures LoadField(parse, e, prefix, f).errors == FieldErrors(parse, e, prefix, f)
    decreases f, 1
  {
    hide Load, Errors, LoadSlice, ItemsErrors, OwnErrors, HolderErrors, LeafErrors, Worth;
    if f.Inline? {
      ErrorsExactly(parse, e, prefix + f.prefix, f.fields);
    } else if f.params.ignored {
    } else if f.Leaf? {
      LeafExactly(parse, e, prefix, f);
    } else {
      HolderExactly(e, prefix, f.params);
      if f.Struct? {
        ErrorsExactly(parse, e, prefix + f.prefix, f.fields);
      } else {
        SliceFails(parse, e, SlicePrefix(prefix + f.prefix), f);
      }
    }
  }

  lemma {:induction false} SliceFails(parse: Parser, e: Environment, prefix: string, f: Field)
    requires f.Slice?
    ensures LoadSlice(parse, e, prefix, f).errors == ItemsErrors(parse, e, prefix, f, ItemCount(e, prefix, f))
    decreases f, 0
  {
    hide LoadItems, ItemsErrors, Under, Length;
    NoneUnder(e, prefix);
    NoItemErrors(parse, e, prefix, f);
    if Under(e, prefix) != {} {
      ItemsFail(parse, e, prefix, f, Max(|f.items|, Length(e, prefix)));
    }
  }

  lemma {:induction false} NoneUnder(e: Environment, prefix: string)
    ensures Under(e, prefix) == {} <==> !exists k :: k in Under(e, prefix)
  {
  }

  lemma {:induction false} NoItemErrors(parse: Parser, e: Environment, prefix: string, f: Field)
    requires f.Slice?
    ensures ItemsErrors(parse, e, prefix, f, 0) == []
  {
  }

  lemma {:induction false} ItemsFail(parse: Parser, e: Environment, prefix: string, f: Field, n: nat)
    requires f.Slice?
    ensures LoadItems(parse, e, prefix, f, n).errors == ItemsErrors(parse, e, prefix, f, n)
    decreases f, 0, n
  {
    hide Load, Errors, ItemPrefix;
    if n > 0 {
      ItemsFail(parse, e, prefix, f, n - 1);
      ErrorsExactly(parse, e, ItemPrefix(prefix, n - 1), if n - 1 < |f.items| then f.items[n - 1].fields else f.zero);
    }
  }

  // ---- the values of a struct ----

  // The leaf at a path: the number of a field, then within a slice the number of an item, and so on.
  function LeafAt(fs: seq<Field>, path: seq<nat>): Option<Field>
    decreases |path|
  {
    if path == [] || path[0] >= |fs| then None
    else
      match fs[path[0]]
      case Leaf(_, _, _) => if |path| == 1 then Some(fs[path[0]]) else None
      case Inline(_, gs) => LeafAt(gs, path[1..])
      case Struct(_, _, gs) => LeafAt(gs, path[1..])
      case Slice(_, _, _, items) =>
        if |path| > 1 && path[1] < |items| then LeafAt(items[path[1]].fields, path[2..]) else None
  }

  // Whether the loader comes to the leaf at a path, and then with which prefix.
  datatype Visit = Loading(prefix: string, leaf: Field) | Passing(leaf: Field) | Nowhere

  function PassBy(f: Option<Field>): Visit {
    if f.Some? then Passing(f.value) else Nowhere
  }

  // Ignored fields, and what is in a struct with a faulty key, are passed by; so is a slice
  // with a faulty key or item, or without variables.
  ghost function VisitAt(parse: Parser, e: Environment, prefix: string, fs: seq<Field>, path: seq<nat>): Visit
    decreases |path|
  {
    if path == [] || path[0] >= |fs| then Nowhere
    else
      var f := fs[path[0]];
      if f.Inline? then VisitAt(parse, e, prefix + f.prefix, f.fields, path[1..])
      else if f.params.ignored then PassBy(LeafAt(fs, path))
      else if f.Leaf? then if |path| == 1 then Loading(prefix, f) else Nowhere
      else if HolderErrors(e, prefix + f.params.ownKey, f.params) != [] then PassBy(LeafAt(fs, path))
      else if f.Struct? then VisitAt(parse, e, prefix + f.prefix, f.fields, path[1..])
      else
        var q := SlicePrefix(prefix + f.prefix);
        var n := ItemCount(e, q, f);
        if n == 0 || ItemsErrors(parse, e, q, f, n) != [] then PassBy(LeafAt(fs, path))
        else if |path| > 1 && path[1] < n then
          VisitAt(parse, e, ItemPrefix(q, path[1]), ItemFields(f, path[1]), path[2..])
        else Nowhere
  }

  // What a visit leaves.
  ghost function Left(parse: Parser, e: Environment, v: Visit): Option<Field>
    requires v.Loading? ==> v.leaf.Leaf?
  {
    match v
    case Loading(q, f) => Some(f.(value := Worth(parse, e, q + f.params.ownKey, f)))
    case Passing(f) => Some(f)
    case Nowhere => None
  }

  lemma {:induction false} VisitsLeaves(parse: Parser, e: Environment, prefix: string, fs: seq<Field>, path: seq<nat>)
    ensures var v := VisitAt(parse, e, prefix, fs, path); v.Loading? ==> v.leaf.Leaf? && !v.leaf.params.ignored
    decreases |path|
  {
    hide ItemsErrors, ItemCount, HolderErrors, ItemPrefix, SlicePrefix, LeafAt;
    if path != [] && path[0] < |fs| {
      var f := fs[path[0]];
      if f.Inline? || f.Struct? {
        VisitsLeaves(parse, e, prefix + f.prefix, f.fields, path[1..]);
      } else if f.Slice? && |path| > 1 {
        var q := SlicePrefix(prefix + f.prefix);
        VisitsLeaves(parse, e, ItemPrefix(q, path[1]), ItemFields(f, path[1]), path[2..]);
      }
    }
  }

  /** The value of every leaf after loading, at every depth: a leaf the loader comes to has the
      parse of what its full key stands for, if that is something and parses, and its old value
      otherwise; every other leaf is as it was; and there are no other leaves. */
  lemma {:induction false} LeavesExactly(parse: Parser, e: Environment, prefix: string, fs: seq<Field>, path: seq<nat>)
    ensures var v := VisitAt(parse, e, prefix, fs, path);
            (v.Loading? ==> v.leaf.Leaf?)
            && LeafAt(Load(parse, e, prefix, fs).fields, path) == Left(parse, e, v)
    decreases |path|, 1
  {
    VisitsLeaves(parse, e, prefix, fs, path);
    hide LoadField, HolderErrors, ItemsErrors, ItemCount, VisitAt;
    var gs := Load(parse, e, prefix, fs).fields;
    FieldCount(parse, e, prefix, fs);
    if path != [] && path[0] < |fs| {
      FieldAt(parse, e, prefix, fs, |fs|, path[0]);
      hide Load;
      FieldLeaves(parse, e, prefix, fs, gs, path);
    } else {
      assert VisitAt(parse, e, prefix, fs, path) == Nowhere by {
        VisitsNothing(parse, e, prefix, fs, path);
      }
    }
  }

  lemma {:induction false} VisitsNothing(parse: Parser, e: Environment, prefix: string, fs: seq<Field>, path: seq<nat>)
    requires path == [] || path[0] >= |fs|
    ensures VisitAt(parse, e, prefix, fs, path) == Nowhere
  {
  }

  lemma {:induction false} FieldCount(parse: Parser, e: Environment, prefix: string, fs: seq<Field>)
    ensures |Load(parse, e, prefix, fs).fields| == |fs|
  {
    hide LoadField;
    if fs != [] {
      FieldAt(parse, e, prefix, fs, |fs|, 0);
    }
  }

  lemma {:induction false} FieldLeaves(parse: Parser, e: Environment, prefix: string, fs: seq<Field>, gs: seq<Field>,
      path: seq<nat>)
    requires path != [] && path[0] < |fs| == |gs|
    requires gs[path[0]] == LoadField(parse, e, prefix, fs[path[0]]).field
    requires var v := VisitAt(parse, e, prefix, fs, path); v.Loading? ==> v.leaf.Leaf?
    ensures LeafAt(gs, path) == Left(parse, e, VisitAt(parse, e, prefix, fs, path))
    decreases |path|, 0
  {
    var f := fs[path[0]];
    hide Load, LoadSlice, OwnErrors, HolderErrors, ItemsErrors, ItemCount, Worth, LeafErrors;
    if f.Inline? {
      LeavesExactly(parse, e, prefix + f.prefix, f.fields, path[1..]);
    } else if f.params.ignored {
    } else if f.Leaf? {
      LeafExactly(parse, e, prefix, f);
    } else {
      HolderExactly(e, prefix, f.params);
      if HolderErrors(e, prefix + f.params.ownKey, f.params) == [] {
        if f.Struct? {
          LeavesExactly(parse, e, prefix + f.prefix, f.fields, path[1..]);
        } else {
          SliceLeaves(parse, e, SlicePrefix(prefix + f.prefix), f, path[1..]);
        }
      }
    }
  }

  // The leaves of a loaded slice; the path starts with the number of an item.
  lemma {:induction false} SliceLeaves(parse: Parser, e: Environment, prefix: string, f: Field, path: seq<nat>)
    requires f.Slice?
    ensures var g, n := LoadSlice(parse, e, prefix, f).field, ItemCount(e, prefix, f);
            && g.Slice?
            && if n == 0 || ItemsErrors(parse, e, prefix, f, n) != [] then g == f
               else
                 |g.items| == n
                 && (path != [] && path[0] < n ==>
                       var v := VisitAt(parse, e, ItemPrefix(prefix, path[0]), ItemFields(f, path[0]), path[1..]);
                       && (v.Loading? ==> v.leaf.Leaf?)
                       && LeafAt(g.items[path[0]].fields, path[1..]) == Left(parse, e, v))
    decreases |path|, 0
  {
    hide LoadItems, ItemsErrors, Under, Length, Load, LeafAt, VisitAt, Left, ItemPrefix;
    NoneUnder(e, prefix);
    var n := Max(|f.items|, Length(e, prefix));
    if Under(e, prefix) != {} {
      ItemsFail(parse, e, prefix, f, n);
      if n == 0 {
        NothingLoaded(parse, e, prefix, f);
      } else if ItemsErrors(parse, e, prefix, f, n) == [] {
        ItemAt(parse, e, prefix, f, n, if path != [] && path[0] < n then path[0] else 0);
        if path != [] && path[0] < n {
          LeavesExactly(parse, e, ItemPrefix(prefix, path[0]), ItemFields(f, path[0]), path[1..]);
        }
      }
    }
  }

  lemma {:induction false} NothingLoaded(parse: Parser, e: Environment, prefix: string, f: Field)
    requires f.Slice?
    ensures LoadItems(parse, e, prefix, f, 0) == LoadedItems([], [])
  {
  }
}

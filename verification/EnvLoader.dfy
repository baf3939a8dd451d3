/** The loader that fills tagged structs from the environment (config/env/env.go). A struct
    is a list of fields, each with what its tags say and the value it holds; loading gives
    the struct back with new values, and the errors in the order they arise. */
module EnvLoader {
  import opened Options
  import opened Numbers
  import opened EnvSlices

  // What parseFieldParams reads from the tags. An unexported field counts as ignored.
  datatype Params = Params(name: string, ownKey: string, default: Option<string>,
                           required: bool, notEmpty: bool, ignored: bool)

  // A leaf has the kind that selects its parser; the parsed values are numbered. A slice
  // knows the zero value of its elements.
  datatype Field =
    | Leaf(params: Params, kind: nat, value: int)
    | Struct(params: Params, prefix: string, fields: seq<Field>)
    | Inline(prefix: string, fields: seq<Field>)
    | Slice(params: Params, prefix: string, zero: seq<Field>, items: seq<Item>)

  datatype Item = Item(fields: seq<Field>)

  datatype Error = NotSet(key: string) | Empty(key: string) | BadValue(name: string) | NoParser(name: string)

  // The parsers, by kind; None is a parse error.
  type Parser = (nat, string) -> Option<int>

  // ---- the value of one field ----

  // The value, and whether it was found.
  function GetOr(e: Environment, key: string, default: Option<string>): (string, bool) {
    var present := key in e;
    if (!present || key == "") && default.Some? then (default.value, true)
    else if present && e[key] == "" && default.Some? then (default.value, true)
    else if !present then ("", false)
    else (e[key], true)
  }

  datatype Got = Value(text: string) | Failed(error: Error)

  function Get(e: Environment, prefix: string, params: Params): Got {
    var key := prefix + params.ownKey;
    var (val, found) := GetOr(e, key, params.default);
    if params.required && !found && params.ownKey != "" then Failed(NotSet(key))
    else if params.notEmpty && val == "" then Failed(Empty(key))
    else Value(val)
  }

  // ---- loading ----

  datatype Loaded = Loaded(fields: seq<Field>, errors: seq<Error>)

  datatype LoadedField = LoadedField(field: Field, errors: seq<Error>)

  datatype LoadedItems = LoadedItems(items: seq<Item>, errors: seq<Error>)

  function SlicePrefix(prefix: string): (r: string)
    ensures r != "" ==> r[|r| - 1] == '_'
    ensures r == prefix || (r == prefix + "_" && prefix != "" && prefix[|prefix| - 1] != '_')
  {
    if prefix != "" && prefix[|prefix| - 1] != '_' then prefix + "_" else prefix
  }

  // doParse on the first n fields.
  ghost function LoadFields(parse: Parser, e: Environment, prefix: string, fs: seq<Field>, n: nat): Loaded
    requires n <= |fs|
    decreases fs, n
  {
    if n == 0 then Loaded([], [])
    else
      var before := LoadFields(parse, e, prefix, fs, n - 1);
      var next := LoadField(parse, e, prefix, fs[n - 1]);
      Loaded(before.fields + [next.field], before.errors + next.errors)
  }

  ghost function Load(parse: Parser, e: Environment, prefix: string, fs: seq<Field>): Loaded
    decreases fs, |fs| + 1
  {
    LoadFields(parse, e, prefix, fs, |fs|)
  }

  // setField on a field whose type has no parser.
  function OwnErrors(e: Environment, prefix: string, params: Params): seq<Error> {
    match Get(e, prefix, params)
    case Failed(error) => [error]
    case Value(text) => if text == "" then [] else [NoParser(params.name)]
  }

  // doParseField
  ghost function LoadField(parse: Parser, e: Environment, prefix: string, f: Field): LoadedField
    decreases f, 1
  {
    match f
    case Inline(p, fs) =>
      var l := Load(parse, e, prefix + p, fs);
      LoadedField(Inline(p, l.fields), l.errors)
    case Leaf(params, kind, value) =>
      if params.ignored then LoadedField(f, [])
      else LoadLeaf(parse, e, prefix, f)
    case Struct(params, p, fs) =>
      if params.ignored then LoadedField(f, [])
      else if OwnErrors(e, prefix, params) != [] then LoadedField(f, OwnErrors(e, prefix, params))
      else
        var l := Load(parse, e, prefix + p, fs);
        LoadedField(Struct(params, p, l.fields), l.errors)
    case Slice(params, p, zero, items) =>
      if params.ignored then LoadedField(f, [])
      else if OwnErrors(e, prefix, params) != [] then LoadedField(f, OwnErrors(e, prefix, params))
      else LoadSlice(parse, e, SlicePrefix(prefix + p), f)
  }

  function LoadLeaf(parse: Parser, e: Environment, prefix: string, f: Field): LoadedField
    requires f.Leaf?
  {
    match Get(e, prefix, f.params)
    case Failed(error) => LoadedField(f, [error])
    case Value(text) =>
      if text == "" then LoadedField(f, [])
      else
        match parse(f.kind, text)
        case None => LoadedField(f, [BadValue(f.params.name)])
        case Some(v) => LoadedField(f.(value := v), [])
  }

  // doParseSlice, the prefix ending in an underscore unless it is empty.
  ghost function LoadSlice(parse: Parser, e: Environment, prefix: string, f: Field): LoadedField
    requires f.Slice?
    decreases f, 0
  {
    if Under(e, prefix) == {} then LoadedField(f, [])
    else
      var l := LoadItems(parse, e, prefix, f, Max(|f.items|, Length(e, prefix)));
      if l.errors == [] then LoadedField(f.(items := l.items), []) else LoadedField(f, l.errors)
  }

  // The first n items; the first item with errors ends the loading.
  ghost function LoadItems(parse: Parser, e: Environment, prefix: string, f: Field, n: nat): LoadedItems
    requires f.Slice?
    decreases f, 0, n
  {
    if n == 0 then LoadedItems([], [])
    else
      var before := LoadItems(parse, e, prefix, f, n - 1);
      if before.errors != [] then before
      else
        var l := Load(parse, e, ItemPrefix(prefix, n - 1),
                      if n - 1 < |f.items| then f.items[n - 1].fields else f.zero);
        if l.errors != [] then LoadedItems(before.items, l.errors)
        else LoadedItems(before.items + [Item(l.fields)], [])
  }

  // ---- field by field and item by item ----

  lemma {:induction false} FieldAt(parse: Parser, e: Environment, prefix: string, fs: seq<Field>, n: nat, i: nat)
    requires i < n <= |fs|
    ensures var l := LoadFields(parse, e, prefix, fs, n);
            |l.fields| == n && l.fields[i] == LoadField(parse, e, prefix, fs[i]).field
  {
    hide LoadField;
    if n > 1 {
      FieldAt(parse, e, prefix, fs, n - 1, if i < n - 1 then i else 0);
    }
  }

  // The fields of item i once loaded.
  ghost function ItemLoaded(parse: Parser, e: Environment, prefix: string, f: Field, i: nat): seq<Field>
    requires f.Slice?
  {
    Load(parse, e, ItemPrefix(prefix, i), if i < |f.items| then f.items[i].fields else f.zero).fields
  }

  lemma {:induction false} ItemAt(parse: Parser, e: Environment, prefix: string, f: Field, n: nat, i: nat)
    requires f.Slice? && i < n && LoadItems(parse, e, prefix, f, n).errors == []
    ensures var l := LoadItems(parse, e, prefix, f, n);
            |l.items| == n && l.items[i].fields == ItemLoaded(parse, e, prefix, f, i)
  {
    hide Load;
    if n > 1 {
      ItemAt(parse, e, prefix, f, n - 1, if i < n - 1 then i else 0);
    }
  }

  // ---- the loader's loops ----

  method DoParse(parse: Parser, e: Environment, prefix: string, fs: seq<Field>)
    returns (fields: seq<Field>, errors: seq<Error>)
    ensures Loaded(fields, errors) == Load(parse, e, prefix, fs)
    decreases fs, |fs| + 1
  {
    hide LoadField;
    fields, errors := [], [];
    for i := 0 to |fs|
      invariant Loaded(fields, errors) == LoadFields(parse, e, prefix, fs, i)
    {
      var field, errs := DoParseField(parse, e, prefix, fs[i]);
      fields, errors := fields + [field], errors + errs;
    }
  }

  method DoParseField(parse: Parser, e: Environment, prefix: string, f: Field)
    returns (field: Field, errors: seq<Error>)
    ensures LoadedField(field, errors) == LoadField(parse, e, prefix, f)
    decreases f, 1
  {
    hide Load, LoadSlice, Get;
    if f.Inline? {
      var fields, errs := DoParse(parse, e, prefix + f.prefix, f.fields);
      return Inline(f.prefix, fields), errs;
    }
    if f.params.ignored {
      return f, [];
    }
    if f.Leaf? {
      var l := LoadLeaf(parse, e, prefix, f);
      return l.field, l.errors;
    }
    var own := OwnErrors(e, prefix, f.params);
    if own != [] {
      return f, own;
    }
    if f.Struct? {
      var fields, errs := DoParse(parse, e, prefix + f.prefix, f.fields);
      return Struct(f.params, f.prefix, fields), errs;
    }
    field, errors := DoParseSlice(parse, e, prefix + f.prefix, f);
  }

  method DoParseSlice(parse: Parser, e: Environment, optsPrefix: string, f: Field)
    returns (field: Field, errors: seq<Error>)
    requires f.Slice?
    ensures LoadedField(field, errors) == LoadSlice(parse, e, SlicePrefix(optsPrefix), f)
    decreases f, 0
  {
    hide Load, Under, IsLength, Used, ItemPrefix;
    var prefix := SlicePrefix(optsPrefix);
    var environments := Collect(e, prefix);
    NoneCollected(Under(e, prefix), environments);
    if |environments| == 0 {
      return f, [];
    }
    var counter := Discover(e, prefix, environments);
    var capacity := Max(|f.items|, counter);
    var result: seq<Item> := [];
    for i := 0 to capacity
      invariant LoadedItems(result, []) == LoadItems(parse, e, prefix, f, i)
    {
      var item, errs := DoParse(parse, e, ItemPrefix(prefix, i), if i < |f.items| then f.items[i].fields else f.zero);
      if errs != [] {
        FirstError(parse, e, prefix, f, i + 1, capacity);
        return f, errs;
      }
      result := result + [Item(item)];
    }
    return f.(items := result), [];
  }

  lemma {:induction false} NoneCollected<T>(s: set<T>, q: seq<T>)
    requires |q| == |s|
    ensures q == [] <==> s == {}
  {
  }

  // Nothing is loaded after the first item with errors.
  lemma {:induction false} FirstError(parse: Parser, e: Environment, prefix: string, f: Field, i: nat, n: nat)
    requires f.Slice? && i <= n && LoadItems(parse, e, prefix, f, i).errors != []
    ensures LoadItems(parse, e, prefix, f, n) == LoadItems(parse, e, prefix, f, i)
  {
    if i < n {
      FirstError(parse, e, prefix, f, i, n - 1);
    }
  }
}

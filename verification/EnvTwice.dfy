/** Loading a struct a second time from the same environment changes nothing and reports
    the same errors (config/env/env.go:340-491). */
module EnvTwice {
  import opened Numbers
  import opened EnvSlices
  import opened EnvLoader

  lemma {:induction false} FieldsTwice(parse: Parser, e: Environment, prefix: string, fs: seq<Field>, gs: seq<Field>,
      n: nat)
    requires n <= |fs| == |gs|
    requires forall i :: 0 <= i < |fs| ==> gs[i] == LoadField(parse, e, prefix, fs[i]).field
    ensures LoadFields(parse, e, prefix, gs, n) == LoadFields(parse, e, prefix, fs, n)
    decreases fs, n
  {
    hide LoadField;
    if n > 0 {
      FieldsTwice(parse, e, prefix, fs, gs, n - 1);
      FieldTwice(parse, e, prefix, fs[n - 1]);
    }
  }

  /** Loading is idempotent, on every struct and from every environment. */
  lemma {:induction false} LoadTwice(parse: Parser, e: Environment, prefix: string, fs: seq<Field>)
    ensures Load(parse, e, prefix, Load(parse, e, prefix, fs).fields) == Load(parse, e, prefix, fs)
    decreases fs, |fs| + 1
  {
    hide LoadField, LoadFields;
    var gs := Load(parse, e, prefix, fs).fields;
    if fs == [] {
      assert gs == [] by { NoFields(parse, e, prefix); }
    } else {
      forall i | 0 <= i < |fs| ensures |gs| == |fs| && gs[i] == LoadField(parse, e, prefix, fs[i]).field {
        FieldAt(parse, e, prefix, fs, |fs|, i);
      }
      assert |gs| == |fs| by { FieldAt(parse, e, prefix, fs, |fs|, 0); }
      FieldsTwice(parse, e, prefix, fs, gs, |fs|);
    }
  }

  lemma {:induction false} NoFields(parse: Parser, e: Environment, prefix: string)
    ensures Load(parse, e, prefix, []).fields == []
  {
  }

  lemma {:induction false} FieldTwice(parse: Parser, e: Environment, prefix: string, f: Field)
    ensures LoadField(parse, e, prefix, LoadField(parse, e, prefix, f).field) == LoadField(parse, e, prefix, f)
    decreases f, 1
  {
    hide Load, LoadSlice, Get, OwnErrors;
    match f
    case Inline(p, fs) => LoadTwice(parse, e, prefix + p, fs);
    case Leaf(_, _, _) =>
    case Struct(_, p, fs) => LoadTwice(parse, e, prefix + p, fs);
    case Slice(_, p, _, _) => SliceTwice(parse, e, SlicePrefix(prefix + p), f);
  }

  lemma {:induction false} SliceTwice(parse: Parser, e: Environment, prefix: string, f: Field)
    requires f.Slice?
    ensures var g := LoadSlice(parse, e, prefix, f).field;
            g.Slice? && g.params == f.params && g.prefix == f.prefix
            && LoadSlice(parse, e, prefix, g) == LoadSlice(parse, e, prefix, f)
    decreases f, 0
  {
    hide LoadItems, Length, Under;
    var n := Max(|f.items|, Length(e, prefix));
    var l := LoadItems(parse, e, prefix, f, n);
    if Under(e, prefix) != {} && l.errors == [] {
      if n > 0 {
        ItemAt(parse, e, prefix, f, n, 0);
      } else {
        NoItems(parse, e, prefix, f);
      }
      var g := f.(items := l.items);
      forall i: nat | i < n ensures g.items[i].fields == ItemLoaded(parse, e, prefix, f, i) {
        ItemAt(parse, e, prefix, f, n, i);
      }
      ItemsTwice(parse, e, prefix, f, g, n);
    }
  }

  lemma {:induction false} NoItems(parse: Parser, e: Environment, prefix: string, f: Field)
    requires f.Slice?
    ensures LoadItems(parse, e, prefix, f, 0).items == []
  {
  }

  lemma {:induction false} ItemsTwice(parse: Parser, e: Environment, prefix: string, f: Field, g: Field, n: nat)
    requires f.Slice? && g.Slice? && n <= |g.items|
    requires forall i: nat :: i < |g.items| ==> g.items[i].fields == ItemLoaded(parse, e, prefix, f, i)
    ensures LoadItems(parse, e, prefix, g, n) == LoadItems(parse, e, prefix, f, n)
    decreases f, 0, n
  {
    hide Load, ItemPrefix;
    if n > 0 {
      ItemsTwice(parse, e, prefix, f, g, n - 1);
      LoadTwice(parse, e, ItemPrefix(prefix, n - 1), if n - 1 < |f.items| then f.items[n - 1].fields else f.zero);
    }
  }
}

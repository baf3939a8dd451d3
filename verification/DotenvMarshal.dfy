/** Marshal (config/dotenv/godotenv.go:109-120) and the round trip of whole maps. */
module DotenvMarshal {
  import opened Options
  import opened Sequences
  import opened DotenvText
  import opened DotenvParser
  import opened DotenvLine
  import opened DotenvRoundTrip
  import Decimal

  // ---- sort.Strings ----

  predicate Below(a: string, b: string) {
    a == [] || (b != [] && (a[0] < b[0] || (a[0] == b[0] && Below(a[1..], b[1..]))))
  }

  lemma {:induction false} BelowTotal(a: string, b: string)
    ensures Below(a, b) || Below(b, a)
  {
    if a != [] && b != [] {
      BelowTotal(a[1..], b[1..]);
    }
  }

  lemma {:induction false} BelowAntisymmetric(a: string, b: string)
    requires Below(a, b) && Below(b, a)
    ensures a == b
  {
    if a != [] && b != [] {
      BelowAntisymmetric(a[1..], b[1..]);
      assert a == [a[0]] + a[1..] && b == [b[0]] + b[1..];
    }
  }

  lemma {:induction false} BelowTransitive(a: string, b: string, c: string)
    requires Below(a, b) && Below(b, c)
    ensures Below(a, c)
  {
    if a != [] && a[0] == b[0] == c[0] {
      BelowTransitive(a[1..], b[1..], c[1..]);
    }
  }

  predicate DifferAt(a: string, b: string, i: nat) {
    i < |a| && i < |b| && a[i] != b[i] && a[..i] == b[..i]
  }

  ghost predicate Before(a: string, b: string) {
    a <= b || exists i: nat :: DifferAt(a, b, i) && a[i] < b[i]
  }

  lemma {:induction false} DifferFurther(a: string, b: string, c: char, i: nat)
    ensures DifferAt([c] + a, [c] + b, i + 1) <==> DifferAt(a, b, i)
  {
    if i <= |a| && i <= |b| {
      assert ([c] + a)[..i + 1] == [c] + a[..i] && ([c] + b)[..i + 1] == [c] + b[..i];
      assert a[..i] == b[..i] <==> [c] + a[..i] == [c] + b[..i] by {
        assert ([c] + a[..i])[1..] == a[..i] && ([c] + b[..i])[1..] == b[..i];
      }
    }
  }

  lemma {:induction false} BeforeFurther(a: string, b: string, c: char)
    ensures Before([c] + a, [c] + b) <==> Before(a, b)
  {
    var x, y := [c] + a, [c] + b;
    assert x[1..] == a && y[1..] == b;
    if i: nat :| DifferAt(a, b, i) && a[i] < b[i] {
      DifferFurther(a, b, c, i);
      assert DifferAt(x, y, i + 1) && x[i + 1] < y[i + 1];
    }
    if i: nat :| DifferAt(x, y, i) && x[i] < y[i] {
      DifferFurther(a, b, c, i - 1);
      assert DifferAt(a, b, i - 1) && a[i - 1] < b[i - 1];
    }
  }

  /** The order is that of the first character in which two texts differ; a text comes before what
      it is the beginning of. */
  lemma {:induction false} BelowExactly(a: string, b: string)
    ensures Below(a, b) <==> Before(a, b)
  {
    if a != [] && b != [] {
      if a[0] == b[0] {
        BelowExactly(a[1..], b[1..]);
        BeforeFurther(a[1..], b[1..], a[0]);
        assert a == [a[0]] + a[1..] && b == [b[0]] + b[1..];
      } else {
        assert DifferAt(a, b, 0) && forall i: nat :: DifferAt(a, b, i) ==> a[..i] == b[..i];
        assert forall i: nat :: DifferAt(a, b, i) && i > 0 ==> a[..i][0] == a[0] && b[..i][0] == b[0];
      }
    }
  }

  ghost predicate Sorted(ls: seq<string>) {
    forall i, j :: 0 <= i < j < |ls| ==> Below(ls[i], ls[j])
  }

  function Insert(x: string, ls: seq<string>): (r: seq<string>)
    ensures |r| == |ls| + 1
    ensures multiset(r) == multiset(ls) + multiset{x}
  {
    if ls == [] then [x]
    else if Below(x, ls[0]) then [x] + ls
    else
      var r := Insert(x, ls[1..]);
      assert ls == [ls[0]] + ls[1..];
      [ls[0]] + r
  }

  function Sort(ls: seq<string>): (r: seq<string>)
    ensures |r| == |ls|
    ensures multiset(r) == multiset(ls)
  {
    if ls == [] then []
    else
      assert ls == [ls[0]] + ls[1..];
      Insert(ls[0], Sort(ls[1..]))
  }

  lemma {:induction false} MemberOf(x: string, ls: seq<string>, ms: seq<string>)
    requires multiset(ls) == multiset(ms) && x in ls
    ensures x in ms
  {
    assert x in multiset(ms);
  }

  lemma {:induction false} InsertSorted(x: string, ls: seq<string>)
    requires Sorted(ls)
    ensures Sorted(Insert(x, ls))
  {
    if ls != [] {
      BelowTotal(x, ls[0]);
      if Below(x, ls[0]) {
        forall j | 0 <= j < |ls| ensures Below(x, ls[j]) {
          if j > 0 {
            BelowTransitive(x, ls[0], ls[j]);
          }
        }
      } else {
        var r := Insert(x, ls[1..]);
        InsertSorted(x, ls[1..]);
        forall j | 0 <= j < |r| ensures Below(ls[0], r[j]) {
          assert r[j] in multiset(r);
          assert r[j] == x || r[j] in ls[1..];
        }
      }
    }
  }

  lemma {:induction false} SortSorted(ls: seq<string>)
    ensures Sorted(Sort(ls))
  {
    if ls != [] {
      SortSorted(ls[1..]);
      InsertSorted(ls[0], Sort(ls[1..]));
    }
  }

  lemma {:induction false} LeastFirst(a: seq<string>, b: seq<string>)
    requires Sorted(a) && a != [] && b != [] && multiset(a) == multiset(b)
    ensures Below(a[0], b[0])
  {
    MemberOf(b[0], b, a);
    var j :| 0 <= j < |a| && a[j] == b[0];
    BelowTotal(a[0], a[0]);
  }

  lemma {:induction false} DropFirst(a: seq<string>)
    requires a != []
    ensures multiset(a[1..]) == multiset(a) - multiset{a[0]}
  {
    assert a == [a[0]] + a[1..];
  }

  lemma {:induction false} SameFirst(a: seq<string>, b: seq<string>)
    requires Sorted(a) && Sorted(b) && a != [] && b != [] && multiset(a) == multiset(b)
    ensures a[0] == b[0] && multiset(a[1..]) == multiset(b[1..]) && Sorted(a[1..]) && Sorted(b[1..])
  {
    LeastFirst(a, b);
    LeastFirst(b, a);
    BelowAntisymmetric(a[0], b[0]);
    DropFirst(a);
    DropFirst(b);
    hide Below;
  }

  lemma {:induction false} SortedUnique(a: seq<string>, b: seq<string>)
    requires Sorted(a) && Sorted(b) && multiset(a) == multiset(b)
    ensures a == b
  {
    hide Sorted;
    assert |multiset(a)| == |a| && |multiset(b)| == |b|;
    if a != [] {
      SameFirst(a, b);
      SortedUnique(a[1..], b[1..]);
      assert a == [a[0]] + a[1..] && b == [b[0]] + b[1..];
    }
  }

  // ---- Marshal ----

  ghost predicate Enumerates(ks: seq<string>, m: map<string, string>) {
    Distinct(ks) && forall k :: k in ks <==> k in m
  }

  function LinesOf(ks: seq<string>, m: map<string, string>): (ls: seq<string>)
    requires forall k :: k in ks ==> k in m
    ensures |ls| == |ks| && forall i :: 0 <= i < |ks| ==> ls[i] == Line(ks[i], m[ks[i]])
  {
    seq(|ks|, i requires 0 <= i < |ks| => Line(ks[i], m[ks[i]]))
  }

  // strings.Join(ls, "\n")
  function Join(ls: seq<string>): string {
    if ls == [] then "" else if |ls| == 1 then ls[0] else ls[0] + "\n" + Join(ls[1..])
  }

  /** The texts Marshal may return; the map is iterated in an unspecified order. */
  ghost predicate IsMarshalled(text: string, m: map<string, string>) {
    exists ks :: Enumerates(ks, m) && text == Join(Sort(LinesOf(ks, m)))
  }

  method Marshal(envMap: map<string, string>) returns (text: string)
    ensures IsMarshalled(text, envMap)
  {
    hide Line, Sort, Join, Escape;
    var lines: seq<string> := [];
    var pending := envMap.Keys;
    ghost var ks: seq<string> := [];
    while pending != {}
      invariant pending <= envMap.Keys
      invariant Distinct(ks)
      invariant forall k :: k in ks <==> k in envMap && k !in pending
      invariant lines == LinesOf(ks, envMap)
      decreases |pending|
    {
      var k :| k in pending;
      var v := envMap[k];
      var line: string;
      var d := Decimal.Atoi(v);
      if d.Some? {
        line := k + "=" + Decimal.Itoa(d.value);
      } else {
        var escaped := DoubleQuoteEscape(v);
        line := k + "=\"" + escaped + "\"";
      }
      LineForm(k, v);
      lines := lines + [line];
      ks := ks + [k];
      pending := pending - {k};
    }
    assert Enumerates(ks, envMap);
    text := Join(Sort(lines));
  }

  lemma {:induction false} LineForm(k: string, v: string)
    ensures var d := Decimal.Atoi(v);
            Line(k, v) == if d.Some? then k + "=" + Decimal.Itoa(d.value) else k + "=\"" + Escape(v) + "\""
  {
  }

  // ---- Marshal does not depend on the iteration order ----

  lemma {:induction false} LinesOfParts(a: seq<string>, b: seq<string>, m: map<string, string>)
    requires forall k :: k in a + b ==> k in m
    requires forall k :: k in a ==> k in m
    requires forall k :: k in b ==> k in m
    ensures LinesOf(a + b, m) == LinesOf(a, m) + LinesOf(b, m)
  {
  }

  lemma {:induction false} Remaining(ks: seq<string>, js: seq<string>, i: nat)
    requires Distinct(ks) && Distinct(js) && ks != [] && i < |js| && js[i] == ks[0]
    requires forall k :: k in ks <==> k in js
    ensures var js' := js[..i] + js[i + 1..];
            Distinct(ks[1..]) && Distinct(js') && (forall k :: k in ks[1..] <==> k in js')
  {
    var js' := js[..i] + js[i + 1..];
    forall k ensures k in ks[1..] <==> k in js' {
      assert k in ks <==> k == ks[0] || k in ks[1..];
      assert k in js <==> k == js[i] || k in js';
    }
  }

  lemma {:induction false} SplitLines(js: seq<string>, i: nat, m: map<string, string>)
    requires i < |js| && forall k :: k in js ==> k in m
    requires forall k :: k in js[..i] + js[i + 1..] ==> k in m
    ensures multiset(LinesOf(js, m))
         == multiset{Line(js[i], m[js[i]])} + multiset(LinesOf(js[..i] + js[i + 1..], m))
  {
    hide Line;
    var a, b, c := js[..i], [js[i]], js[i + 1..];
    assert js == a + (b + c);
    LinesOfParts(a, b + c, m);
    LinesOfParts(b, c, m);
    LinesOfParts(a, c, m);
    assert LinesOf(b, m) == [Line(js[i], m[js[i]])];
    hide LinesOf;
  }

  lemma {:induction false} WithoutFirst(ks: seq<string>, m: map<string, string>)
    requires ks != [] && forall k :: k in ks ==> k in m
    ensures multiset(LinesOf(ks, m)) == multiset{Line(ks[0], m[ks[0]])} + multiset(LinesOf(ks[1..], m))
  {
    hide Line, LinesOf;
    assert ks == [ks[0]] + ks[1..];
    LinesOfCons(ks[0], ks[1..], m);
  }

  lemma {:induction false} NoKeys(ks: seq<string>, js: seq<string>)
    requires forall k :: k in ks <==> k in js
    ensures ks == [] ==> js == []
  {
    if js != [] {
      assert js[0] in ks;
    }
  }

  lemma {:induction false} SameLines(ks: seq<string>, js: seq<string>, m: map<string, string>)
    requires Distinct(ks) && Distinct(js) && (forall k :: k in ks <==> k in js) && forall k :: k in ks ==> k in m
    ensures multiset(LinesOf(ks, m)) == multiset(LinesOf(js, m))
  {
    hide Line, Distinct, LinesOf;
    if ks == [] {
      NoKeys(ks, js);
    } else {
      assert ks[0] in js;
      var i :| 0 <= i < |js| && js[i] == ks[0];
      Remaining(ks, js, i);
      SameLines(ks[1..], js[..i] + js[i + 1..], m);
      WithoutFirst(ks, m);
      SplitLines(js, i, m);
    }
  }

  lemma {:induction false} SortErasesOrder(ks: seq<string>, js: seq<string>, m: map<string, string>)
    requires Enumerates(ks, m) && Enumerates(js, m)
    ensures Sort(LinesOf(ks, m)) == Sort(LinesOf(js, m))
  {
    hide Line, Sort, Sorted;
    SameLines(ks, js, m);
    SortSorted(LinesOf(ks, m));
    SortSorted(LinesOf(js, m));
    SortedUnique(Sort(LinesOf(ks, m)), Sort(LinesOf(js, m)));
  }

  /** Marshal is a function of the map: the random iteration order leaves no trace. */
  lemma {:induction false} MarshalDeterministic(s: string, t: string, m: map<string, string>)
    requires IsMarshalled(s, m) && IsMarshalled(t, m)
    ensures s == t
  {
    hide LinesOf, Sort, Join;
    var ks :| Enumerates(ks, m) && s == Join(Sort(LinesOf(ks, m)));
    var js :| Enumerates(js, m) && t == Join(Sort(LinesOf(js, m)));
    SortErasesOrder(ks, js, m);
  }

  // ---- the sorted lines are the lines of some order of the keys ----

  lemma {:induction false} LinesOfCons(k: string, ks: seq<string>, m: map<string, string>)
    requires k in m && forall x :: x in ks ==> x in m
    ensures LinesOf([k] + ks, m) == [Line(k, m[k])] + LinesOf(ks, m)
  {
  }

  lemma {:induction false} InsertLine(k: string, ks: seq<string>, m: map<string, string>) returns (js: seq<string>)
    requires k in m && forall x :: x in ks ==> x in m
    ensures multiset(js) == multiset(ks) + multiset{k}
    ensures forall x :: x in js ==> x in m
    ensures LinesOf(js, m) == Insert(Line(k, m[k]), LinesOf(ks, m))
  {
    hide Line, LinesOf, Below;
    if ks == [] || Below(Line(k, m[k]), LinesOf(ks, m)[0]) {
      js := [k] + ks;
      LinesOfCons(k, ks, m);
    } else {
      var r := InsertLine(k, ks[1..], m);
      assert ks == [ks[0]] + ks[1..];
      js := [ks[0]] + r;
      LinesOfCons(ks[0], r, m);
      LinesOfCons(ks[0], ks[1..], m);
      assert ([Line(ks[0], m[ks[0]])] + LinesOf(ks[1..], m))[1..] == LinesOf(ks[1..], m);
    }
  }

  lemma {:induction false} SortCons(k: string, ks: seq<string>, m: map<string, string>)
    requires k in m && forall x :: x in ks ==> x in m
    ensures Sort(LinesOf([k] + ks, m)) == Insert(Line(k, m[k]), Sort(LinesOf(ks, m)))
  {
    hide Line, LinesOf, Insert;
    LinesOfCons(k, ks, m);
    assert ([Line(k, m[k])] + LinesOf(ks, m))[1..] == LinesOf(ks, m);
  }

  lemma {:induction false} SortNone(m: map<string, string>)
    ensures LinesOf([], m) == [] && Sort([]) == []
  {
  }

  lemma {:induction false} SortLines(ks: seq<string>, m: map<string, string>) returns (js: seq<string>)
    requires forall x :: x in ks ==> x in m
    ensures multiset(js) == multiset(ks) && forall x :: x in js ==> x in m
    ensures LinesOf(js, m) == Sort(LinesOf(ks, m))
  {
    hide Line, LinesOf, Insert, Sort;
    if ks == [] {
      js := [];
      SortNone(m);
    } else {
      var r := SortLines(ks[1..], m);
      assert ks == [ks[0]] + ks[1..];
      SortCons(ks[0], ks[1..], m);
      js := InsertLine(ks[0], r, m);
    }
  }

  lemma {:induction false} DistinctCounts(ks: seq<string>)
    ensures Distinct(ks) <==> forall k :: multiset(ks)[k] <= 1
  {
    if ks != [] {
      DistinctCounts(ks[1..]);
      assert ks == [ks[0]] + ks[1..];
      assert forall k :: multiset(ks)[k] == multiset(ks[1..])[k] + (if k == ks[0] then 1 else 0);
      if Distinct(ks) {
        assert ks[0] !in ks[1..];
      }
      if !Distinct(ks) && Distinct(ks[1..]) {
        assert ks[0] in ks[1..];
        assert multiset(ks)[ks[0]] > 1;
      }
    }
  }

  lemma {:induction false} JoinIsText(ks: seq<string>, m: map<string, string>)
    requires KeysOf(ks, m) && forall k :: k in ks ==> k in m
    ensures Join(LinesOf(ks, m)) == Text(ks, m)
  {
    hide Line;
    if ks != [] {
      var ls := LinesOf(ks, m);
      assert ls[1..] == LinesOf(ks[1..], m);
      JoinIsText(ks[1..], m);
      if |ks| > 1 {
        assert Text(ks, m) == ls[0] + ("\n" + Text(ks[1..], m));
      }
    }
  }

  lemma {:induction false} MarshalledText(text: string, m: map<string, string>) returns (ks: seq<string>)
    requires IsMarshalled(text, m)
    ensures Enumerates(ks, m) && KeysOf(ks, m) && text == Text(ks, m)
  {
    hide Line, Sort, Join, Text, LinesOf;
    var js :| Enumerates(js, m) && text == Join(Sort(LinesOf(js, m)));
    ks := SortLines(js, m);
    DistinctCounts(ks);
    DistinctCounts(js);
    assert forall k :: (k in ks <==> k in multiset(ks)) && (k in js <==> k in multiset(js));
    JoinIsText(ks, m);
  }

  // ---- no carriage return survives marshalling ----

  predicate NoReturn(s: string) {
    forall i :: 0 <= i < |s| ==> s[i] != '\r'
  }

  lemma {:induction false} NormalizeKeeps(s: string)
    requires NoReturn(s)
    ensures NormalizeLineEnds(s) == s
  {
    if |s| >= 2 {
      NormalizeKeeps(s[1..]);
      assert s == [s[0]] + s[1..];
    }
  }

  lemma {:induction false} EscapeNoReturn(v: string)
    ensures NoReturn(Escape(v))
  {
    if v != [] {
      EscapeNoReturn(v[1..]);
      assert NoReturn(EscapeChar(v[0]));
    }
  }

  lemma {:induction false} LineNoReturn(k: string, v: string)
    requires IsKey(k)
    ensures NoReturn(Line(k, v))
  {
    EscapeNoReturn(v);
    if Decimal.Atoi(v).Some? {
      ItoaShape(Decimal.Atoi(v).value);
    }
    hide Escape;
  }

  lemma {:induction false} TextNoReturn(ks: seq<string>, m: map<string, string>)
    requires KeysOf(ks, m) && Keys(ks)
    ensures NoReturn(Text(ks, m))
  {
    hide Line;
    if ks != [] {
      TextNoReturn(ks[1..], m);
      LineNoReturn(ks[0], m[ks[0]]);
    }
  }

  // ---- the round trip ----

  function Canonicalized(m: map<string, string>): map<string, string> {
    map k | k in m :: Canonical(m[k])
  }

  lemma {:induction false} SurvivorsReturn(ks: seq<string>, m: map<string, string>)
    requires Enumerates(ks, m) && KeysOf(ks, m) && Keys(ks)
    requires forall k :: k in m ==> Survives(m[k])
    ensures ParseFrom(Text(ks, m), map[]) == (Canonicalized(m), None)
  {
    hide Text, ParseFrom, Survives, Canonical;
    TextParses(ks, m, map[]);
    BindingsAre(ks, m, map[]);
    hide Bindings;
    assert Bindings(ks, m, map[]) == Canonicalized(m);
  }

  lemma {:induction false} EmptyWeight(ks: seq<string>)
    ensures Weight(map[], ks) == 0
  {
    if ks != [] {
      EmptyWeight(ks[1..]);
    }
  }

  lemma {:induction false} OthersDoNot(ks: seq<string>, m: map<string, string>, bad: string)
    requires Enumerates(ks, m) && KeysOf(ks, m) && Keys(ks)
    requires bad in m && !Survives(m[bad])
    ensures ParseFrom(Text(ks, m), map[]) != (Canonicalized(m), None)
  {
    hide Text, ParseFrom, Survives, Canonical, Weight, Seps, Total;
    EmptyWeight(ks);
    TextSeps(ks, m);
    var i :| 0 <= i < |ks| && ks[i] == bad;
    TextLoses(ks, ks, m, map[]);
  }

  /** The round trip, exactly: a marshalled map parses without an error to the same map, with
      integers in canonical decimal, if and only if no value ends in a double quote or a
      backslash. Every other value is lost, however the rest of the text is read. */
  lemma {:induction false} RoundTrip(m: map<string, string>, text: string)
    requires forall k :: k in m ==> IsKey(k)
    requires IsMarshalled(text, m)
    ensures Unmarshalled(text) == (Canonicalized(m), None) <==> forall k :: k in m ==> Survives(m[k])
  {
    hide IsMarshalled, ParseFrom, Survives, Canonicalized, Text;
    var ks := MarshalledText(text, m);
    assert Keys(ks);
    TextNoReturn(ks, m);
    NormalizeKeeps(text);
    hide NormalizeLineEnds, IsKey;
    if k :| k in m && !Survives(m[k]) {
      OthersDoNot(ks, m, k);
    } else {
      SurvivorsReturn(ks, m);
    }
  }

  /** A value that is no integer comes back unchanged, and an integer with its value. */
  lemma {:induction false} CanonicalMeans(v: string)
    ensures Decimal.Atoi(v).None? ==> Canonical(v) == v
    ensures Decimal.Atoi(Canonical(v)) == Decimal.Atoi(v)
    ensures Canonical(Canonical(v)) == Canonical(v)
  {
    if Decimal.Atoi(v).Some? {
      Decimal.AtoiOfItoa(Decimal.Atoi(v).value);
    }
  }
}

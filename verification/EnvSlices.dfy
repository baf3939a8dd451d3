/** How the environment loader finds the length of a slice of structs
    (config/env/env.go:429-453): it counts 0, 1, 2, ... as long as some variable is named
    after the index. */
module EnvSlices {
  import opened Sequences
  import opened Decimal
  import opened Sizes

  // Environment: variable names to values.
  type Environment = map<string, string>

  // fmt.Sprintf("%s%d%c", prefix, index, '_')
  function ItemPrefix(prefix: string, index: nat): string {
    prefix + Numeral(index) + "_"
  }

  // The variables under a prefix.
  function Under(e: Environment, prefix: string): set<string> {
    set k | k in e && HasPrefix(k, prefix)
  }

  ghost predicate Used(e: Environment, prefix: string, index: nat) {
    exists k :: k in e && HasPrefix(k, ItemPrefix(prefix, index))
  }

  // The least index no variable is named after.
  ghost predicate IsLength(e: Environment, prefix: string, c: nat) {
    !Used(e, prefix, c) && forall i: nat :: i < c ==> Used(e, prefix, i)
  }

  // ---- a variable belongs to one index ----

  lemma {:induction false} SegmentShape(k: string, prefix: string, index: nat)
    requires HasPrefix(k, ItemPrefix(prefix, index))
    ensures |k| > |prefix| + |Numeral(index)|
    ensures k[|prefix|..|prefix| + |Numeral(index)|] == Numeral(index)
    ensures k[|prefix| + |Numeral(index)|] == '_'
    ensures forall i :: |prefix| <= i < |prefix| + |Numeral(index)| ==> IsDigit(k[i])
    ensures HasPrefix(k, prefix)
  {
  }

  lemma {:induction false} ShorterSegment(k: string, prefix: string, m: nat, n: nat)
    requires HasPrefix(k, ItemPrefix(prefix, m)) && HasPrefix(k, ItemPrefix(prefix, n))
    ensures |Numeral(n)| <= |Numeral(m)|
  {
    SegmentShape(k, prefix, m);
    SegmentShape(k, prefix, n);
    assert !IsDigit(k[|prefix| + |Numeral(m)|]);
  }

  /** A name lies under at most one index of a prefix: the decimal segment ends at the first
      underscore, and no two indices share a numeral. */
  lemma {:induction false} OneIndex(k: string, prefix: string, m: nat, n: nat)
    requires HasPrefix(k, ItemPrefix(prefix, m)) && HasPrefix(k, ItemPrefix(prefix, n))
    ensures m == n
  {
    ShorterSegment(k, prefix, m, n);
    ShorterSegment(k, prefix, n, m);
    SegmentShape(k, prefix, m);
    SegmentShape(k, prefix, n);
    NumeralInjective(m, n);
  }

  // One variable for each of the first n indices.
  lemma {:induction false} Owners(e: Environment, prefix: string, n: nat) returns (w: set<string>)
    requires forall i: nat :: i < n ==> Used(e, prefix, i)
    ensures |w| == n && w <= Under(e, prefix)
    ensures forall k :: k in w ==> exists i: nat :: i < n && HasPrefix(k, ItemPrefix(prefix, i))
  {
    if n == 0 {
      w := {};
    } else {
      var v := Owners(e, prefix, n - 1);
      assert Used(e, prefix, n - 1);
      var k :| k in e && HasPrefix(k, ItemPrefix(prefix, n - 1));
      SegmentShape(k, prefix, n - 1);
      if k in v {
        var i: nat :| i < n - 1 && HasPrefix(k, ItemPrefix(prefix, i));
        OneIndex(k, prefix, i, n - 1);
      }
      w := v + {k};
    }
  }

  /** Pigeonhole: as many indices in a row are used as there are variables at most. */
  lemma {:induction false} Pigeonhole(e: Environment, prefix: string, n: nat)
    requires forall i: nat :: i < n ==> Used(e, prefix, i)
    ensures n <= |Under(e, prefix)|
  {
    var w := Owners(e, prefix, n);
    SubsetSize(w, Under(e, prefix));
  }

  lemma {:induction false} LengthAbove(e: Environment, prefix: string, c: nat) returns (n: nat)
    requires forall i: nat :: i < c ==> Used(e, prefix, i)
    ensures IsLength(e, prefix, n)
    decreases |Under(e, prefix)| - c
  {
    Pigeonhole(e, prefix, c);
    if Used(e, prefix, c) {
      Pigeonhole(e, prefix, c + 1);
      n := LengthAbove(e, prefix, c + 1);
    } else {
      n := c;
    }
  }

  lemma {:induction false} OneLength(e: Environment, prefix: string, m: nat, n: nat)
    requires IsLength(e, prefix, m) && IsLength(e, prefix, n)
    ensures m == n
  {
  }

  lemma {:induction false} HasLength(e: Environment, prefix: string)
    ensures exists c: nat :: IsLength(e, prefix, c)
  {
    var n := LengthAbove(e, prefix, 0);
  }

  ghost function Length(e: Environment, prefix: string): (c: nat)
    ensures IsLength(e, prefix, c)
  {
    HasLength(e, prefix);
    var c: nat :| IsLength(e, prefix, c);
    c
  }

  // The names under a prefix, in the map's arbitrary order.
  method Collect(e: Environment, prefix: string) returns (environments: seq<string>)
    ensures forall k :: k in environments <==> k in Under(e, prefix)
    ensures |environments| == |Under(e, prefix)|
  {
    environments := [];
    var pending := e.Keys;
    while pending != {}
      invariant pending <= e.Keys
      invariant forall k :: k in environments <==> k in e && k !in pending && HasPrefix(k, prefix)
      invariant |environments| == |set k | k in e && k !in pending && HasPrefix(k, prefix)|
      decreases |pending|
    {
      var environment :| environment in pending;
      ghost var before := set k | k in e && k !in pending && HasPrefix(k, prefix);
      pending := pending - {environment};
      ghost var after := set k | k in e && k !in pending && HasPrefix(k, prefix);
      if HasPrefix(environment, prefix) {
        environments := environments + [environment];
        assert after == before + {environment};
      } else {
        assert after == before;
      }
    }
    assert Under(e, prefix) == set k | k in e && k !in pending && HasPrefix(k, prefix);
  }

  method AnyUnder(environments: seq<string>, prefix: string) returns (found: bool)
    ensures found <==> exists k :: k in environments && HasPrefix(k, prefix)
  {
    for i := 0 to |environments|
      invariant forall k :: k in environments[..i] ==> !HasPrefix(k, prefix)
    {
      if HasPrefix(environments[i], prefix) {
        return true;
      }
    }
    assert environments[..|environments|] == environments;
    return false;
  }

  lemma {:induction false} UsedAmong(e: Environment, prefix: string, environments: seq<string>, index: nat)
    requires forall k :: k in environments <==> k in Under(e, prefix)
    ensures Used(e, prefix, index) <==> exists k :: k in environments && HasPrefix(k, ItemPrefix(prefix, index))
  {
  }

  /** The scan stops, within as many rounds as there are variables under the prefix, at the
      least index that no variable in the environment is named after. */
  method Discover(e: Environment, prefix: string, environments: seq<string>) returns (counter: nat)
    requires forall k :: k in environments <==> k in Under(e, prefix)
    ensures counter == Length(e, prefix)
    ensures counter <= |Under(e, prefix)|
  {
    hide ItemPrefix, HasPrefix, Under, Used;
    counter := 0;
    var finished := false;
    while !finished
      invariant forall i: nat :: i < counter ==> Used(e, prefix, i)
      invariant finished ==> !Used(e, prefix, counter)
      invariant counter <= |Under(e, prefix)|
      decreases !finished, |Under(e, prefix)| - counter
    {
      finished := true;
      var found := AnyUnder(environments, ItemPrefix(prefix, counter));
      UsedAmong(e, prefix, environments, counter);
      if found {
        Pigeonhole(e, prefix, counter + 1);
        counter := counter + 1;
        finished := false;
      }
    }
    OneLength(e, prefix, counter, Length(e, prefix));
  }
}

/** Marshal followed by Unmarshal (config/dotenv/godotenv.go:94-120), on whole maps.

    One direction follows the lines. For the other, every '=' or ':' of the text is
    spent at most once: no statement yields more separators than it consumes, so a
    text that binds one key wrongly has none left to bind it again. */
module DotenvRoundTrip {
  import opened Options
  import opened Sequences
  import opened DotenvText
  import opened DotenvParser
  import opened DotenvLine
  import Decimal

  // ---- counting separators ----

  function Seps(s: string): nat {
    if s == [] then 0 else (if IsSeparator(s[0]) then 1 else 0) + Seps(s[1..])
  }

  lemma {:induction false} SepsConcat(a: string, b: string)
    ensures Seps(a + b) == Seps(a) + Seps(b)
  {
    if a == [] {
      assert a + b == b;
    } else {
      SepsConcat(a[1..], b);
      assert (a + b)[1..] == a[1..] + b;
    }
  }

  lemma {:induction false} SepsSplit(s: string, i: nat)
    requires i <= |s|
    ensures Seps(s) == Seps(s[..i]) + Seps(s[i..])
  {
    SepsConcat(s[..i], s[i..]);
    assert s == s[..i] + s[i..];
  }

  lemma {:induction false} SepsSuffix(r: string, s: string)
    requires IsSuffix(r, s)
    ensures Seps(r) <= Seps(s)
  {
    SepsSplit(s, |s| - |r|);
  }

  lemma {:induction false} SepsCons(c: char, t: string)
    ensures Seps([c] + t) == (if IsSeparator(c) then 1 else 0) + Seps(t)
  {
  }

  // ---- every dollar sign stays escaped ----

  // Each dollar sign follows a backslash; prev says whether one precedes the text.
  ghost predicate Guarded(s: string, prev: bool) {
    s == [] || ((s[0] == '$' ==> prev) && Guarded(s[1..], s[0] == BACKSLASH))
  }

  lemma {:induction false} GuardedCons(c: char, t: string, prev: bool)
    ensures Guarded([c] + t, prev) <==> (c == '$' ==> prev) && Guarded(t, c == BACKSLASH)
  {
  }

  predicate EndsEscaped(s: string, prev: bool) {
    if s == [] then prev else s[|s| - 1] == BACKSLASH
  }

  lemma {:induction false} GuardedParts(a: string, b: string, prev: bool)
    ensures Guarded(a + b, prev) <==> Guarded(a, prev) && Guarded(b, EndsEscaped(a, prev))
  {
    if a == [] {
      assert a + b == b;
    } else {
      assert (a + b)[1..] == a[1..] + b;
      GuardedParts(a[1..], b, a[0] == BACKSLASH);
    }
  }

  lemma {:induction false} GuardedSplit(s: string, prev: bool, i: nat)
    requires i <= |s|
    ensures Guarded(s, prev) <==> Guarded(s[..i], prev) && Guarded(s[i..], EndsEscaped(s[..i], prev))
  {
    assert s == s[..i] + s[i..];
    GuardedParts(s[..i], s[i..], prev);
  }

  // A text may be cut after anything but a backslash, or before anything but a dollar sign.
  lemma {:induction false} GuardedCut(s: string, i: nat)
    requires Guarded(s, false) && i <= |s|
    requires i == 0 || s[i - 1] != BACKSLASH || i == |s| || s[i] != '$'
    ensures Guarded(s[..i], false) && Guarded(s[i..], false)
  {
    GuardedSplit(s, false, i);
  }

  // The first rewrite keeps the separators and leaves every dollar sign escaped.
  lemma {:induction false} LineBreaksConserve(s: string, prev: bool)
    requires Guarded(s, prev)
    ensures Guarded(UnescapeLineBreaks(s), prev) && Seps(UnescapeLineBreaks(s)) == Seps(s)
    decreases |s|
  {
    if |s| >= 2 {
      var c, d := s[0], s[1];
      assert Guarded(s[1..], c == BACKSLASH);
      assert s == [c] + s[1..] && s[1..] == [d] + s[2..] && s[1..][1..] == s[2..];
      SepsCons(c, s[1..]);
      SepsCons(d, s[2..]);
      if c == BACKSLASH && d != '\n' {
        LineBreaksConserve(s[2..], d == BACKSLASH);
        var u := UnescapeLineBreaks(s[2..]);
        if d == 'n' || d == 'r' {
          var x := if d == 'n' then '\n' else '\r';
          SepsCons(x, u);
          GuardedCons(x, u, prev);
        } else {
          SepsCons(d, u);
          SepsCons(c, [d] + u);
          GuardedCons(d, u, true);
          GuardedCons(c, [d] + u, prev);
          assert s[..2] + u == [c] + ([d] + u);
        }
      } else {
        LineBreaksConserve(s[1..], c == BACKSLASH);
        SepsCons(c, UnescapeLineBreaks(s[1..]));
        GuardedCons(c, UnescapeLineBreaks(s[1..]), prev);
      }
    }
  }

  lemma {:induction false} CharsConserve(s: string, prev: bool)
    requires Guarded(s, prev)
    ensures Guarded(UnescapeChars(s), prev) && Seps(UnescapeChars(s)) == Seps(s)
    decreases |s|
  {
    if |s| >= 2 {
      var c, d := s[0], s[1];
      assert Guarded(s[1..], c == BACKSLASH);
      assert s == [c] + s[1..];
      SepsCons(c, s[1..]);
      if c == BACKSLASH && d != '$' {
        assert s[1..] == [d] + s[2..] && s[1..][1..] == s[2..];
        SepsCons(d, s[2..]);
        CharsConserve(s[2..], d == BACKSLASH);
        SepsCons(d, UnescapeChars(s[2..]));
        GuardedCons(d, UnescapeChars(s[2..]), prev);
      } else {
        CharsConserve(s[1..], c == BACKSLASH);
        SepsCons(c, UnescapeChars(s[1..]));
        GuardedCons(c, UnescapeChars(s[1..]), prev);
      }
    }
  }

  // With every dollar sign escaped no variable is looked up, so nothing is added.
  lemma {:induction false} ExpandConserves(s: string, vars: map<string, string>)
    requires Guarded(s, false)
    ensures Seps(ExpandVariables(s, vars)) == Seps(s)
    decreases |s|
  {
    if s != [] {
      var c, t := s[0], s[1..];
      assert s == [c] + t;
      SepsCons(c, t);
      if c == BACKSLASH && t != [] && t[0] == '$' {
        var u := t[1..];
        assert t == ['$'] + u && s == "\\$" + u;
        EscapedDollar(u, vars);
        ExpandConserves(u, vars);
        SepsCons('$', u);
        SepsCons('$', ExpandVariables(u, vars));
      } else {
        ExpandConserves(t, vars);
        ExpandPlain(c, t, vars);
        SepsCons(c, ExpandVariables(t, vars));
      }
    }
  }

  // ---- one statement spends what it yields ----

  lemma {:induction false} TrimLeftConserves(s: string, p: char -> bool)
    requires Guarded(s, false) && !p(BACKSLASH)
    ensures var r := TrimLeft(s, p); Guarded(r, false) && Seps(r) <= Seps(s) && IsSuffix(r, s)
  {
    var k := SkipWhile(s, p, 0);
    GuardedCut(s, k);
    SepsSplit(s, k);
  }

  lemma {:induction false} TrimRightConserves(s: string, p: char -> bool)
    requires Guarded(s, false)
    ensures var r := TrimRight(s, p); Guarded(r, false) && Seps(r) <= Seps(s)
  {
    SepsSplit(s, DropWhile(s, p, |s|));
    GuardedSplit(s, false, DropWhile(s, p, |s|));
  }

  lemma {:induction false} StartConserves(src: string)
    requires Guarded(src, false) && StatementStart(src).Some?
    ensures Guarded(StatementStart(src).value, false)
    decreases |src|
  {
    var s := TrimLeft(src, IsUnicodeSpace);
    TrimLeftConserves(src, IsUnicodeSpace);
    if s[0] == '#' {
      var pos := IndexFunc(s, IsChar('\n'));
      GuardedCut(s, pos);
      StartConserves(s[pos..]);
    }
  }

  lemma {:induction false} DropExportConserves(src: string)
    requires Guarded(src, false)
    ensures Guarded(DropExport(src), false)
  {
    var s := TrimLeft(src, IsSpace);
    TrimLeftConserves(src, IsSpace);
    if HasExport(s) && |s| > 6 && IsSpace(s[6]) {
      GuardedCut(s, 6);
      TrimLeftConserves(s[6..], IsSpace);
    }
    hide TrimLeft, Seps;
  }

  lemma {:induction false} SeparatorSpent(s: string, i: nat)
    requires i < |s| && IsSeparator(s[i]) && Guarded(s, false)
    ensures 1 + Seps(s[i + 1..]) <= Seps(s) && Guarded(s[i + 1..], false)
  {
    SepsSplit(s, i);
    assert s[i..] == [s[i]] + s[i + 1..];
    SepsCons(s[i], s[i + 1..]);
    GuardedCut(s, i + 1);
  }

  lemma {:induction false} KeyNameConserves(src: string)
    requires Guarded(src, false) && KeyName(src).Ok?
    ensures var left := KeyName(src).value.1;
            && Guarded(left, false) && Seps(left) <= Seps(src)
            && (KeyName(src).value.0 != [] ==> 1 + Seps(left) <= Seps(src))
  {
    hide TrimLeft, TrimRight, Seps, DropExport, KeyScan, Guarded;
    var s := DropExport(src);
    DropExportConserves(src);
    SepsSuffix(s, src);
    match KeyScan(s, 0)
    case Missing =>
    case At(i) =>
      SeparatorSpent(s, i);
      TrimLeftConserves(s[i + 1..], IsSpace);
  }

  lemma {:induction false} TrimConserves(s: string)
    requires Guarded(s, false)
    ensures Guarded(Trim(s), false) && Seps(Trim(s)) <= Seps(s)
  {
    TrimLeftConserves(s, IsSpace);
    TrimRightConserves(TrimLeft(s, IsSpace), IsSpace);
    hide TrimLeft, TrimRight, Seps, Guarded;
  }

  lemma {:induction false} PlainTextConserves(src: string)
    requires Guarded(src, false)
    ensures Guarded(PlainText(src), false) && Seps(PlainText(src)) <= Seps(src[..LineLength(src)])
  {
    hide Trim, Seps, Guarded, CommentStart, LineLength;
    var line := src[..LineLength(src)];
    var e := CommentStart(line, |line|);
    assert e == |line| || line[e] != '$';
    GuardedSplit(src, false, LineLength(src));
    GuardedCut(line, e);
    SepsSplit(line, e);
    TrimConserves(line[..e]);
  }

  lemma {:induction false} PlainConserves(src: string, vars: map<string, string>)
    requires Guarded(src, false)
    ensures var r := PlainValue(src, vars);
            Guarded(r.1, false) && Seps(r.0) + Seps(r.1) <= Seps(src)
  {
    hide PlainText, Seps, ExpandVariables, LineLength, Guarded;
    SepsSplit(src, LineLength(src));
    GuardedCut(src, LineLength(src));
    PlainTextConserves(src);
    ExpandConserves(PlainText(src), vars);
  }

  lemma {:induction false} UnquoteConserves(s: string, quote: char)
    requires Guarded(s, false) && quote != BACKSLASH
    ensures Guarded(Unquote(s, quote), false) && Seps(Unquote(s, quote)) <= Seps(s)
  {
    TrimRightConserves(s, IsChar(quote));
    TrimLeftConserves(TrimRight(s, IsChar(quote)), IsChar(quote));
    hide TrimLeft, TrimRight, Seps, Guarded;
  }

  lemma {:induction false} EscapesConserve(s: string)
    requires Guarded(s, false)
    ensures Guarded(ExpandEscapes(s), false) && Seps(ExpandEscapes(s)) == Seps(s)
  {
    LineBreaksConserve(s, false);
    CharsConserve(UnescapeLineBreaks(s), false);
  }

  lemma {:induction false} QuotedConserves(src: string, vars: map<string, string>)
    requires Guarded(src, false) && src != [] && IsQuote(src[0]) && QuotedValue(src, vars).Ok?
    ensures var r := QuotedValue(src, vars).value;
            Guarded(r.1, false) && Seps(r.0) + Seps(r.1) <= Seps(src)
  {
    hide Unquote, ExpandEscapes, ExpandVariables, ClosingQuote, Seps, Guarded;
    var i := ClosingQuote(src, 1);
    var raw := Unquote(src[..i], src[0]);
    SepsSplit(src, i + 1);
    SepsSplit(src[..i + 1], i);
    assert src[..i + 1][..i] == src[..i];
    GuardedCut(src, i + 1);
    GuardedSplit(src, false, i);
    UnquoteConserves(src[..i], src[0]);
    if src[0] == DQUOTE {
      EscapesConserve(raw);
      ExpandConserves(ExpandEscapes(raw), vars);
    }
  }

  /** A statement that binds a named key spends one separator more than its value holds. */
  lemma {:induction false} StatementConserves(src: string, vars: map<string, string>)
    requires Guarded(src, false) && NextStatement(src, vars).Bind?
    ensures var st := NextStatement(src, vars);
            && Guarded(st.rest, false)
            && Seps(st.rest) <= Seps(src)
            && (st.key != [] ==> 1 + Seps(st.value) + Seps(st.rest) <= Seps(src))
  {
    hide StatementStart, KeyName, QuotedValue, PlainValue, Seps, Guarded;
    var s := StatementStart(src).value;
    var left := KeyName(s).value.1;
    StartConserves(src);
    SepsSuffix(s, src);
    KeyNameConserves(s);
    if left != [] && IsQuote(left[0]) {
      QuotedConserves(left, vars);
    } else {
      PlainConserves(left, vars);
    }
  }

  lemma {:induction false} ParseStep(src: string, out: map<string, string>)
    ensures var st := NextStatement(src, out);
            && (st.End? ==> ParseFrom(src, out) == (out, None))
            && (st.Fail? ==> ParseFrom(src, out) == (out, Some(st.error)))
            && (st.Bind? ==> |st.rest| < |src| && ParseFrom(src, out) == ParseFrom(st.rest, out[st.key := st.value]))
  {
    hide NextStatement;
    if NextStatement(src, out).Bind? {
      StatementProgress(src, out);
    }
  }

  // ---- the weight of a map ----

  function WeightOf(out: map<string, string>, k: string): nat {
    if k in out then 1 + Seps(out[k]) else 0
  }

  // What it took, in separators, to bind these keys.
  function Weight(out: map<string, string>, ks: seq<string>): nat {
    if ks == [] then 0 else WeightOf(out, ks[0]) + Weight(out, ks[1..])
  }

  lemma {:induction false} WeightFrame(out: map<string, string>, ks: seq<string>, k: string, v: string)
    requires k !in ks
    ensures Weight(out[k := v], ks) == Weight(out, ks)
  {
    if ks != [] {
      WeightFrame(out, ks[1..], k, v);
    }
  }

  lemma {:induction false} WeightUpdate(out: map<string, string>, ks: seq<string>, k: string, v: string)
    requires Distinct(ks) && k in ks
    ensures Weight(out[k := v], ks) == Weight(out, ks) - WeightOf(out, k) + 1 + Seps(v)
  {
    if ks[0] == k {
      WeightFrame(out, ks[1..], k, v);
    } else {
      WeightUpdate(out, ks[1..], k, v);
    }
  }

  ghost predicate Keys(ks: seq<string>) {
    Distinct(ks) && forall i :: 0 <= i < |ks| ==> IsKey(ks[i])
  }

  lemma {:induction false} BindConserves(src: string, out: map<string, string>, ks: seq<string>)
    requires Keys(ks) && Guarded(src, false) && NextStatement(src, out).Bind?
    ensures var st := NextStatement(src, out);
            Weight(out[st.key := st.value], ks) + (if st.key in ks then WeightOf(out, st.key) else 0) + Seps(st.rest)
            <= Weight(out, ks) + Seps(src)
  {
    var st := NextStatement(src, out);
    StatementConserves(src, out);
    if st.key in ks {
      WeightUpdate(out, ks, st.key, st.value);
    } else {
      WeightFrame(out, ks, st.key, st.value);
    }
  }

  /** Parsing never gains weight, and loses some when it rebinds a key. */
  lemma {:induction false} ParseConserves(src: string, out: map<string, string>, ks: seq<string>, k: string)
    requires Keys(ks) && Guarded(src, false) && k in ks && k in out
    ensures var o := ParseFrom(src, out).0;
            && Weight(o, ks) <= Weight(out, ks) + Seps(src)
            && k in o
            && (o[k] != out[k] ==> Weight(o, ks) + 1 <= Weight(out, ks) + Seps(src))
    decreases |src|
  {
    var st := NextStatement(src, out);
    ParseStep(src, out);
    hide ParseFrom, NextStatement, Weight, Seps, Guarded;
    if st.Bind? {
      StatementProgress(src, out);
      StatementConserves(src, out);
      BindConserves(src, out, ks);
      ParseConserves(st.rest, out[st.key := st.value], ks, k);
    }
  }

  // ---- whole texts ----

  ghost predicate KeysOf(ks: seq<string>, m: map<string, string>) {
    forall i :: 0 <= i < |ks| ==> ks[i] in m
  }

  // strings.Join(lines, "\n"), the lines in the order of ks.
  function Text(ks: seq<string>, m: map<string, string>): string
    requires KeysOf(ks, m)
    decreases |ks|, 0
  {
    if ks == [] then "" else Line(ks[0], m[ks[0]]) + Tail(ks[1..], m)
  }

  function Tail(ks: seq<string>, m: map<string, string>): (t: string)
    requires KeysOf(ks, m)
    ensures IsTail(t)
    decreases |ks|, 1
  {
    if ks == [] then "" else "\n" + Text(ks, m)
  }

  lemma {:induction false} StatementAfterLineFeed(s: string, out: map<string, string>)
    ensures NextStatement("\n" + s, out) == NextStatement(s, out)
  {
    hide StatementStart, KeyName, VarValue;
    StartAfterLineFeed(s);
  }

  lemma {:induction false} ParseTail(ks: seq<string>, m: map<string, string>, out: map<string, string>)
    requires KeysOf(ks, m)
    ensures ParseFrom(Tail(ks, m), out) == ParseFrom(Text(ks, m), out)
  {
    if ks != [] {
      hide NextStatement, Text;
      StatementAfterLineFeed(Text(ks, m), out);
    }
  }

  function Total(ks: seq<string>, m: map<string, string>): nat
    requires KeysOf(ks, m)
  {
    if ks == [] then 0 else 1 + Seps(Canonical(m[ks[0]])) + Total(ks[1..], m)
  }

  lemma {:induction false} NoSeps(s: string)
    requires forall i :: 0 <= i < |s| ==> !IsSeparator(s[i])
    ensures Seps(s) == 0
  {
    if s != [] {
      NoSeps(s[1..]);
    }
  }

  lemma {:induction false} EscapeCharConserves(c: char)
    ensures Seps(EscapeChar(c)) == if IsSeparator(c) then 1 else 0
  {
    if c in SPECIALS {
      NoSeps(EscapeChar(c));
    } else {
      SepsCons(c, []);
      assert [c] + [] == [c];
    }
  }

  lemma {:induction false} EscapeConserves(v: string)
    ensures Seps(Escape(v)) == Seps(v)
  {
    if v != [] {
      EscapeConserves(v[1..]);
      EscapeCharConserves(v[0]);
      SepsConcat(EscapeChar(v[0]), Escape(v[1..]));
    }
  }

  lemma {:induction false} LineSeps(k: string, v: string)
    requires IsKey(k)
    ensures Seps(Line(k, v)) == 1 + Seps(Canonical(v))
  {
    NoSeps(k);
    match Decimal.Atoi(v)
    case Some(d) =>
      SepsConcat(k + "=", Decimal.Itoa(d));
      SepsConcat(k, "=");
      SepsCons('=', "");
    case None =>
      EscapeConserves(v);
      SepsConcat(k + "=\"" + Escape(v), "\"");
      SepsConcat(k + "=\"", Escape(v));
      SepsConcat(k, "=\"");
      SepsCons('=', "\"");
      SepsCons(DQUOTE, "");
  }

  lemma {:induction false} TextSeps(ks: seq<string>, m: map<string, string>)
    requires KeysOf(ks, m) && Keys(ks)
    ensures Seps(Text(ks, m)) == Total(ks, m)
  {
    if ks != [] {
      TextSeps(ks[1..], m);
      SepsConcat(Line(ks[0], m[ks[0]]), Tail(ks[1..], m));
      LineSeps(ks[0], m[ks[0]]);
      if ks[1..] != [] {
        SepsCons('\n', Text(ks[1..], m));
      }
    }
  }

  lemma {:induction false} GuardedConcat(a: string, b: string, prev: bool)
    requires Guarded(a, prev) && Guarded(b, false)
    ensures Guarded(a + b, prev)
  {
    GuardedParts(a, b, prev);
  }

  lemma {:induction false} DollarFree(s: string, prev: bool)
    requires '$' !in s
    ensures Guarded(s, prev)
  {
    if s != [] {
      DollarFree(s[1..], s[0] == BACKSLASH);
    }
  }

  lemma {:induction false} EscapeGuarded(v: string)
    ensures Guarded(Escape(v), false)
  {
    if v != [] {
      EscapeGuarded(v[1..]);
      if v[0] == '$' {
        assert Guarded("$", true);
      } else {
        DollarFree(EscapeChar(v[0]), false);
      }
      GuardedConcat(EscapeChar(v[0]), Escape(v[1..]), false);
    }
  }

  lemma {:induction false} LineGuarded(k: string, v: string)
    requires IsKey(k)
    ensures Guarded(Line(k, v), false)
  {
    match Decimal.Atoi(v)
    case Some(d) =>
      ItoaShape(d);
      DollarFree(Line(k, v), false);
    case None =>
      EscapeGuarded(v);
      DollarFree(k + "=\"", false);
      GuardedConcat(k + "=\"", Escape(v), false);
      GuardedConcat(k + "=\"" + Escape(v), "\"", false);
  }

  lemma {:induction false} TextGuarded(ks: seq<string>, m: map<string, string>)
    requires KeysOf(ks, m) && Keys(ks)
    ensures Guarded(Text(ks, m), false) && Guarded(Tail(ks, m), false)
  {
    if ks != [] {
      TextGuarded(ks[1..], m);
      LineGuarded(ks[0], m[ks[0]]);
      GuardedConcat(Line(ks[0], m[ks[0]]), Tail(ks[1..], m), false);
      GuardedCons('\n', Text(ks, m), false);
    }
  }

  // ---- the round trip ----

  function Bindings(ks: seq<string>, m: map<string, string>, out: map<string, string>): map<string, string>
    requires KeysOf(ks, m)
  {
    if ks == [] then out else Bindings(ks[1..], m, out[ks[0] := Canonical(m[ks[0]])])
  }

  lemma {:induction false} EmptyParses(out: map<string, string>)
    ensures ParseFrom("", out) == (out, None)
  {
  }

  lemma {:induction false} TextParses(ks: seq<string>, m: map<string, string>, out: map<string, string>)
    requires KeysOf(ks, m) && Keys(ks)
    requires forall i :: 0 <= i < |ks| ==> Survives(m[ks[i]])
    ensures ParseFrom(Text(ks, m), out) == (Bindings(ks, m, out), None)
    decreases |ks|
  {
    hide ParseFrom, NextStatement, Canonical, Line, Survives, Tail;
    if ks == [] {
      EmptyParses(out);
    } else {
      var k, v, t := ks[0], m[ks[0]], Tail(ks[1..], m);
      assert Text(ks, m) == Line(k, v) + t;
      assert Bindings(ks, m, out) == Bindings(ks[1..], m, out[k := Canonical(v)]);
      hide Bindings, Text;
      assert NextStatement(Text(ks, m), out) == Bind(k, Canonical(v), t) by {
        SurvivorLine(k, v, t, out);
      }
      ParseStep(Text(ks, m), out);
      TextParses(ks[1..], m, out[k := Canonical(v)]);
      ParseTail(ks[1..], m, out[k := Canonical(v)]);
    }
  }

  lemma {:induction false} BindingsAre(ks: seq<string>, m: map<string, string>, out: map<string, string>)
    requires KeysOf(ks, m) && Distinct(ks)
    ensures var b := Bindings(ks, m, out);
            && (forall k :: k in b <==> k in ks || k in out)
            && (forall k :: k in b ==> b[k] == if k in ks then Canonical(m[k]) else out[k])
    decreases |ks|
  {
    if ks != [] {
      BindingsAre(ks[1..], m, out[ks[0] := Canonical(m[ks[0]])]);
      assert forall k :: k in ks <==> k == ks[0] || k in ks[1..];
    }
  }

  ghost predicate Agrees(o: map<string, string>, ks: seq<string>, m: map<string, string>)
    requires KeysOf(ks, m)
  {
    forall i :: 0 <= i < |ks| ==> ks[i] in o && o[ks[i]] == Canonical(m[ks[i]])
  }

  lemma {:induction false} AgreeingWeight(o: map<string, string>, ks: seq<string>, m: map<string, string>)
    requires KeysOf(ks, m) && Agrees(o, ks, m)
    ensures Weight(o, ks) == Total(ks, m)
  {
    if ks != [] {
      AgreeingWeight(o, ks[1..], m);
    }
  }

  lemma {:induction false} TailSeps(ks: seq<string>, m: map<string, string>)
    requires KeysOf(ks, m)
    ensures Seps(Tail(ks, m)) == Seps(Text(ks, m))
  {
  }

  lemma {:induction false} NotAtoi(v: string)
    requires Decimal.Atoi(v).None?
    ensures Canonical(v) == v
  {
  }

  // A statement that binds a key wrongly: too little is left to mend it.
  lemma {:induction false} LostForGood(src: string, ks: seq<string>, m: map<string, string>, out: map<string, string>)
    requires KeysOf(ks, m) && Keys(ks) && Guarded(src, false)
    requires Weight(out, ks) + Seps(src) <= Total(ks, m)
    requires NextStatement(src, out).Bind?
    requires var st := NextStatement(src, out); st.key in ks && st.value != Canonical(m[st.key])
    ensures !Agrees(ParseFrom(src, out).0, ks, m)
  {
    var st := NextStatement(src, out);
    var out' := out[st.key := st.value];
    var o := ParseFrom(src, out).0;
    ParseStep(src, out);
    hide ParseFrom, NextStatement, Weight, Seps, Guarded, Canonical;
    BindConserves(src, out, ks);
    StatementConserves(src, out);
    ParseConserves(st.rest, out', ks, st.key);
    if Agrees(o, ks, m) {
      AgreeingWeight(o, ks, m);
    }
  }

  // With a value that does not survive still ahead, the result cannot agree.
  lemma {:induction false} TextLoses(rest: seq<string>, ks: seq<string>, m: map<string, string>,
      out: map<string, string>)
    requires KeysOf(ks, m) && Keys(ks)
    requires KeysOf(rest, m) && Keys(rest) && forall i :: 0 <= i < |rest| ==> rest[i] in ks
    requires Weight(out, ks) + Seps(Text(rest, m)) <= Total(ks, m)
    requires exists i :: 0 <= i < |rest| && !Survives(m[rest[i]])
    ensures var (o, e) := ParseFrom(Text(rest, m), out); e.Some? || !Agrees(o, ks, m)
    decreases |rest|
  {
    hide ParseFrom, NextStatement, Line, Tail, Weight, Seps, Survives, Canonical, Guarded;
    var k, v, t := rest[0], m[rest[0]], Tail(rest[1..], m);
    var src := Text(rest, m);
    assert src == Line(k, v) + t;
    hide Text;
    TextGuarded(rest, m);
    if Survives(v) {
      SurvivorLine(k, v, t, out);
      ParseStep(src, out);
      BindConserves(src, out, ks);
      ParseTail(rest[1..], m, out[k := Canonical(v)]);
      TailSeps(rest[1..], m);
      TextLoses(rest[1..], ks, m, out[k := Canonical(v)]);
    } else {
      LostLine(k, v, t, out);
      ParseStep(src, out);
      if NextStatement(src, out).Bind? {
        NotAtoi(v);
        LostForGood(src, ks, m, out);
      }
    }
  }
}

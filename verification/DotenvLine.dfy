/** One line of a marshalled file, and what the parser makes of it
    (config/dotenv/godotenv.go:109-120 against config/dotenv/parser.go). */
module DotenvLine {
  import opened Options
  import opened Sequences
  import opened DotenvText
  import opened DotenvParser
  import Decimal

  // A variable name: one or more characters of [A-Za-z0-9_.].
  predicate IsKey(k: string) {
    k != [] && forall i :: 0 <= i < |k| ==> IsKeyChar(k[i])
  }

  function Line(k: string, v: string): string {
    match Decimal.Atoi(v)
    case Some(d) => k + "=" + Decimal.Itoa(d)
    case None => k + "=\"" + Escape(v) + "\""
  }

  // Integers are printed in canonical decimal, everything else as it is.
  function Canonical(v: string): string {
    match Decimal.Atoi(v)
    case Some(d) => Decimal.Itoa(d)
    case None => v
  }

  /** The values a marshalled line gives back: those that do not end in a double
      quote or a backslash. */
  predicate Survives(v: string) {
    v == [] || (v[|v| - 1] != DQUOTE && v[|v| - 1] != BACKSLASH)
  }

  // What follows a line: nothing, or a line feed and more lines.
  predicate IsTail(t: string) {
    t == [] || t[0] == '\n'
  }

  lemma {:induction false} TrimLeftIs(s: string, p: char -> bool, a: string, b: string)
    requires s == a + b
    requires b == [] || !p(b[0])
    requires forall i :: 0 <= i < |a| ==> p(a[i])
    ensures TrimLeft(s, p) == b
  {
    SkipWhileStops(s, p, 0, |a|);
    assert s[|a|..] == b;
  }

  lemma {:induction false} TrimRightIs(s: string, p: char -> bool, a: string, b: string)
    requires s == a + b
    requires a == [] || !p(a[|a| - 1])
    requires forall i :: 0 <= i < |b| ==> p(b[i])
    ensures TrimRight(s, p) == a
  {
    assert forall j :: |a| <= j < |s| ==> s[j] == b[j - |a|];
    DropWhileStops(s, p, |s|, |a|);
    assert s[..|a|] == a;
  }

  lemma {:induction false} StartHere(s: string)
    requires s != [] && !IsUnicodeSpace(s[0]) && s[0] != '#'
    ensures StatementStart(s) == Some(s)
  {
  }

  lemma {:induction false} StartAfterLineFeed(s: string)
    ensures StatementStart("\n" + s) == StatementStart(s)
  {
    var k := SkipWhile(s, IsUnicodeSpace, 0);
    assert s == s[..k] + s[k..];
    TrimLeftIs("\n" + s, IsUnicodeSpace, "\n" + s[..k], s[k..]);
  }

  // ---- the key ----

  lemma {:induction false} KeyScanTo(s: string, i: nat, n: nat)
    requires i <= n < |s| && s[n] == '='
    requires forall j :: i <= j < n ==> IsKeyChar(s[j])
    ensures KeyScan(s, i) == At(n)
    decreases n - i
  {
    if i < n {
      KeyScanTo(s, i + 1, n);
    }
  }

  lemma {:induction false} KeyCharFacts(c: char)
    requires IsKeyChar(c)
    ensures !IsSpace(c) && !IsUnicodeSpace(c) && !IsSeparator(c) && !IsQuote(c) && c != '#' && c != '$'
  {
  }

  // A key shorter than "export" has its separator where the word would go on.
  lemma {:induction false} TooShortToExport(k: string, t: string)
    requires IsKey(k) && |k| < 6
    ensures !HasExport(k + "=" + t)
  {
    hide IsKeyChar;
    var s := k + "=" + t;
    if |s| >= 6 {
      assert s[..6][|k|] == '=' && "export"[|k|] != '=';
    }
  }

  lemma {:induction false} NoBlankAfterExport(k: string, t: string)
    requires IsKey(k) && |k| >= 6
    ensures !IsSpace((k + "=" + t)[6])
  {
    hide IsKeyChar;
    if |k| > 6 {
      KeyCharFacts(k[6]);
    }
  }

  lemma {:induction false} NoExport(k: string, t: string)
    requires IsKey(k)
    ensures DropExport(k + "=" + t) == k + "=" + t
  {
    hide TrimLeft, IsKeyChar, HasExport;
    var s := k + "=" + t;
    KeyCharFacts(k[0]);
    TrimLeftKeeps(s, IsSpace);
    hide IsSpace;
    if |k| < 6 {
      TooShortToExport(k, t);
    } else {
      NoBlankAfterExport(k, t);
    }
  }

  lemma {:induction false} ScanOfLine(k: string, t: string)
    requires IsKey(k)
    ensures var s := k + "=" + t;
            KeyScan(s, 0) == At(|k|) && s[..|k|] == k && s[|k| + 1..] == t
  {
    hide KeyScan, IsKeyChar;
    KeyScanTo(k + "=" + t, 0, |k|);
  }

  lemma {:induction false} KeyUntrimmed(k: string)
    requires IsKey(k)
    ensures TrimRight(k, IsUnicodeSpace) == k
  {
    hide TrimRight, IsKeyChar, IsUnicodeSpace;
    KeyCharFacts(k[|k| - 1]);
    TrimRightIs(k, IsUnicodeSpace, k, []);
  }

  lemma {:induction false} KeyOfLine(k: string, t: string)
    requires IsKey(k)
    requires t == [] || !IsSpace(t[0])
    ensures KeyName(k + "=" + t) == Ok((k, t))
  {
    hide TrimLeft, TrimRight, DropExport, KeyScan, IsKey, IsSpace, IsUnicodeSpace;
    NoExport(k, t);
    ScanOfLine(k, t);
    KeyUntrimmed(k);
    TrimLeftKeeps(t, IsSpace);
  }

  // The statement a line starts, given what its value text parses to.
  lemma {:induction false} StatementOfLine(k: string, t: string, vars: map<string, string>)
    requires IsKey(k)
    requires t == [] || !IsSpace(t[0])
    ensures NextStatement(k + "=" + t, vars)
         == match VarValue(t, vars)
            case Err(e) => Fail(e)
            case Ok((value, rest)) => Bind(k, value, rest)
  {
    var s := k + "=" + t;
    assert s[0] == k[0];
    StartHere(s);
    KeyOfLine(k, t);
  }

  // ---- integers ----

  lemma {:induction false} ItoaShape(d: int)
    ensures Decimal.Itoa(d) != []
    ensures forall i :: 0 <= i < |Decimal.Itoa(d)| ==> Decimal.Itoa(d)[i] == '-' || Decimal.IsDigit(Decimal.Itoa(d)[i])
  {
  }

  lemma {:induction false} CommentFree(line: string, n: nat)
    requires n <= |line| && '#' !in line
    ensures CommentStart(line, n) == |line|
  {
  }

  lemma {:induction false} IntegerText(s: string, t: string)
    requires s != [] && forall i :: 0 <= i < |s| ==> s[i] == '-' || Decimal.IsDigit(s[i])
    requires IsTail(t)
    ensures LineLength(s + t) == |s| && PlainText(s + t) == s
  {
    assert LineLength(s + t) == |s|;
    assert (s + t)[..|s|] == s;
    CommentFree(s, |s|);
    assert s[..|s|] == s;
    TrimLeftKeeps(s, IsSpace);
    TrimRightIs(s, IsSpace, s, []);
  }

  lemma {:induction false} IntegerValue(d: int, t: string, vars: map<string, string>)
    requires IsTail(t)
    ensures VarValue(Decimal.Itoa(d) + t, vars) == Ok((Decimal.Itoa(d), t))
  {
    var s := Decimal.Itoa(d);
    ItoaShape(d);
    IntegerText(s, t);
    assert (s + t)[|s|..] == t;
    assert !IsQuote((s + t)[0]) by {
      assert (s + t)[0] == s[0];
    }
    assert ExpandVariables(s, vars) == s by {
      ExpandCopies(s, [], vars);
      assert s + [] == s;
    }
  }

  // ---- quoted values ----

  // Every quote in an escaped text has a backslash before it, and the text ends in a
  // backslash exactly when the value does.
  lemma {:induction false} EscapedQuotes(v: string)
    ensures var e := Escape(v);
            && (forall j :: 0 <= j < |e| && e[j] == DQUOTE ==> 0 < j && e[j - 1] == BACKSLASH)
            && (v == [] <==> e == [])
            && (v != [] ==> (e[|e| - 1] == BACKSLASH <==> v[|v| - 1] == BACKSLASH))
  {
    if v != [] {
      EscapedQuotes(v[1..]);
      var a, b := EscapeChar(v[0]), Escape(v[1..]);
      forall j | 0 <= j < |a + b| && (a + b)[j] == DQUOTE ensures 0 < j && (a + b)[j - 1] == BACKSLASH {
        if j >= |a| {
          assert b[j - |a|] == DQUOTE;
        }
      }
    }
  }

  lemma {:induction false} EscapeSnoc(w: string, c: char)
    ensures Escape(w + [c]) == Escape(w) + EscapeChar(c)
  {
    if w == [] {
      assert w + [c] == [c];
      assert [c][1..] == [];
    } else {
      EscapeSnoc(w[1..], c);
      assert (w + [c])[1..] == w[1..] + [c];
      Assoc(EscapeChar(w[0]), Escape(w[1..]), EscapeChar(c));
    }
  }

  // The text of a quoted value, up to and without its closing quote.
  function Opened(v: string): string {
    "\"" + Escape(v)
  }

  lemma {:induction false} QuotedOfLine(v: string, t: string)
    requires v == [] || v[|v| - 1] != BACKSLASH
    ensures ClosingQuote(Opened(v) + "\"" + t, 1) == |Opened(v)|
  {
    var e, src := Escape(v), Opened(v) + "\"" + t;
    EscapedQuotes(v);
    assert src[|Opened(v)|] == DQUOTE;
    assert src[0] == DQUOTE && forall j :: 1 <= j <= |e| ==> src[j] == e[j - 1];
    assert forall j :: 1 <= j <= |e| ==> src[j] != DQUOTE || src[j - 1] == BACKSLASH;
    assert src[|e|] == if v == [] then DQUOTE else e[|e| - 1];
  }

  lemma {:induction false} EscapedEnd(v: string)
    requires v != [] && v[|v| - 1] != DQUOTE
    ensures Escape(v) != [] && Escape(v)[|Escape(v)| - 1] != DQUOTE
  {
    var c := v[|v| - 1];
    assert v == v[..|v| - 1] + [c];
    EscapeSnoc(v[..|v| - 1], c);
    assert EscapeChar(c)[|EscapeChar(c)| - 1] != DQUOTE;
  }

  // Only the opening quote is trimmed on the left of an escaped text.
  lemma {:induction false} TrimOpening(e: string)
    requires e == [] || e[0] != DQUOTE
    ensures TrimLeft("\"" + e, IsChar(DQUOTE)) == e
  {
    TrimLeftIs("\"" + e, IsChar(DQUOTE), "\"", e);
  }

  lemma {:induction false} UnquoteSurvivor(v: string)
    requires Survives(v)
    ensures Unquote(Opened(v), DQUOTE) == Escape(v)
  {
    EscapedQuotes(v);
    if v == [] {
      TrimRightIs(Opened(v), IsChar(DQUOTE), [], "\"");
    } else {
      EscapedEnd(v);
      TrimRightIs(Opened(v), IsChar(DQUOTE), Opened(v), []);
      TrimOpening(Escape(v));
    }
  }

  lemma {:induction false} OpenedSnoc(w: string)
    ensures Opened(w + [DQUOTE]) == ("\"" + (Escape(w) + [BACKSLASH])) + "\""
  {
    EscapeSnoc(w, DQUOTE);
    Assoc(Escape(w), [BACKSLASH], "\"");
    Assoc("\"", Escape(w) + [BACKSLASH], "\"");
    hide Escape;
  }

  lemma {:induction false} UnquoteTrimsQuote(w: string)
    ensures Unquote(Opened(w + [DQUOTE]), DQUOTE) == Escape(w) + [BACKSLASH]
  {
    var e := Escape(w) + [BACKSLASH];
    OpenedSnoc(w);
    EscapedQuotes(w);
    TrimRightIs(("\"" + e) + "\"", IsChar(DQUOTE), "\"" + e, "\"");
    TrimOpening(e);
    hide Opened, TrimLeft, TrimRight;
  }

  lemma {:induction false} QuotedParts(v: string, t: string)
    ensures var src := Opened(v) + "\"" + t;
            src[0] == DQUOTE && src[..|Opened(v)|] == Opened(v) && src[|Opened(v)| + 1..] == t
  {
  }

  lemma {:induction false} SurvivorValue(v: string, t: string, vars: map<string, string>)
    requires Survives(v)
    ensures VarValue(Opened(v) + "\"" + t, vars) == Ok((v, t))
  {
    QuotedOfLine(v, t);
    QuotedParts(v, t);
    UnquoteSurvivor(v);
    ExpandUndoesEscape(v, vars);
  }

  /** A value ending in a double quote comes back with a backslash in its place. */
  lemma {:induction false} QuoteEndingValue(w: string, t: string, vars: map<string, string>)
    ensures VarValue(Opened(w + [DQUOTE]) + "\"" + t, vars) == Ok((w + [BACKSLASH], t))
  {
    QuotedOfLine(w + [DQUOTE], t);
    QuotedParts(w + [DQUOTE], t);
    UnquoteTrimsQuote(w);
    ExpandOfEscapeThen(w, [BACKSLASH], vars);
    assert ExpandEscapes([BACKSLASH]) == [BACKSLASH];
    assert ExpandVariables([BACKSLASH], vars) == [BACKSLASH];
  }

  lemma {:induction false} QuoteEndingDiffers(v: string, t: string, vars: map<string, string>)
    requires v != [] && v[|v| - 1] == DQUOTE
    ensures var r := VarValue(Opened(v) + "\"" + t, vars); r.Ok? && r.value.0 != v
  {
    var w := v[..|v| - 1];
    assert v == w + [DQUOTE];
    QuoteEndingValue(w, t, vars);
    assert (w + [BACKSLASH])[|w|] != v[|w|];
  }

  // The scan runs past the quote meant to close a value ending in a backslash.
  lemma {:induction false} BackslashRunsOn(v: string, t: string)
    requires v != [] && v[|v| - 1] == BACKSLASH && IsTail(t)
    ensures var r := ClosingQuote(Opened(v) + "\"" + t, 1);
            r == -1 || (t != [] && r > |Opened(v)| + 1)
  {
    var e, src := Escape(v), Opened(v) + "\"" + t;
    EscapedQuotes(v);
    var r := ClosingQuote(src, 1);
    assert forall j :: 1 <= j <= |e| ==> src[j] == e[j - 1];
    assert src[|Opened(v)|] == DQUOTE && src[|Opened(v)| - 1] == BACKSLASH;
    assert t != [] ==> src[|Opened(v)| + 1] == '\n';
  }

  // Trimming on the right stops before a character that is no quote.
  lemma {:induction false} TrimRightStays(s: string, k: nat)
    requires k < |s| && s[k] != DQUOTE
    ensures exists n :: k < n <= |s| && TrimRight(s, IsChar(DQUOTE)) == s[..n]
  {
    var n := DropWhile(s, IsChar(DQUOTE), |s|);
    assert TrimRight(s, IsChar(DQUOTE)) == s[..n];
    if n <= k {
      DropWhileAll(s, k);
    }
  }

  lemma {:induction false} DropWhileAll(s: string, k: nat)
    requires DropWhile(s, IsChar(DQUOTE), |s|) <= k < |s|
    ensures s[k] == DQUOTE
  {
  }

  lemma {:induction false} UnquoteLong(v: string, u: string)
    requires v != [] && u != [] && u[0] == '\n'
    ensures exists x :: Unquote(Opened(v) + "\"" + u, DQUOTE) == Escape(v) + ("\"" + x)
  {
    hide Escape, TrimLeft, TrimRight;
    var e := Escape(v);
    var s := Opened(v) + "\"" + u;
    EscapedQuotes(v);
    assert s == "\"" + (e + ("\"" + u));
    TrimRightStays(s, |e| + 2);
    var n :| |e| + 2 < n <= |s| && TrimRight(s, IsChar(DQUOTE)) == s[..n];
    var x := u[..n - |e| - 2];
    assert s[..n] == "\"" + (e + ("\"" + x));
    TrimOpening(e + ("\"" + x));
  }

  lemma {:induction false} ExpandEscapesKeepsQuote(x: string)
    ensures ExpandEscapes("\"" + x) != [] && ExpandEscapes("\"" + x)[0] == DQUOTE
  {
  }

  lemma {:induction false} LongerValue(v: string, x: string, vars: map<string, string>)
    ensures ExpandVariables(ExpandEscapes(Escape(v) + ("\"" + x)), vars) != v
  {
    ExpandEscapesKeepsQuote(x);
    ExpandOfEscapeThen(v, "\"" + x, vars);
    var y := ExpandEscapes("\"" + x);
    assert y == [DQUOTE] + y[1..];
    ExpandPlain(DQUOTE, y[1..], vars);
  }

  lemma {:induction false} QuotedAt(src: string, vars: map<string, string>)
    requires src != [] && src[0] == DQUOTE
    ensures var q, r := ClosingQuote(src, 1), VarValue(src, vars);
            && (r.Ok? <==> q >= 0)
            && (q >= 0 ==> r.value == (ExpandVariables(ExpandEscapes(Unquote(src[..q], DQUOTE)), vars), src[q + 1..]))
  {
    hide ClosingQuote, ExpandVariables, ExpandEscapes, Unquote;
  }

  /** A value ending in a backslash swallows its closing quote: either no quote closes it, or
      one further on does, which takes part of the text that follows into a different value. */
  lemma {:induction false} BackslashEndingValue(v: string, t: string, vars: map<string, string>)
    requires v != [] && v[|v| - 1] == BACKSLASH && IsTail(t)
    ensures var src := Opened(v) + "\"" + t;
            var q, r := ClosingQuote(src, 1), VarValue(src, vars);
            && (q == -1 || q > |Opened(v)|)
            && (r.Ok? <==> q != -1)
            && (r.Ok? ==> r.value.0 != v && r.value.1 == src[q + 1..] && |r.value.1| < |t|)
  {
    hide ClosingQuote, ExpandVariables, ExpandEscapes, Unquote, VarValue, Escape;
    var src := Opened(v) + "\"" + t;
    var q := ClosingQuote(src, 1);
    BackslashRunsOn(v, t);
    QuotedAt(src, vars);
    if q >= 0 {
      var u := t[..q - |Opened(v)| - 1];
      assert src[..q] == Opened(v) + "\"" + u;
      assert u[0] == t[0];
      UnquoteLong(v, u);
      var x :| Unquote(Opened(v) + "\"" + u, DQUOTE) == Escape(v) + ("\"" + x);
      LongerValue(v, x, vars);
    }
  }

  // ---- whole lines ----

  lemma {:induction false} IntegersSurvive(v: string)
    requires Decimal.Atoi(v).Some?
    ensures Survives(v)
  {
  }

  lemma {:induction false} QuotedLine(k: string, v: string, t: string)
    requires Decimal.Atoi(v).None?
    ensures Line(k, v) + t == k + "=" + (Opened(v) + "\"" + t)
  {
  }

  /** A line whose value survives is one statement binding its canonical value. */
  lemma {:induction false} SurvivorLine(k: string, v: string, t: string, vars: map<string, string>)
    requires IsKey(k) && Survives(v) && IsTail(t)
    ensures NextStatement(Line(k, v) + t, vars) == Bind(k, Canonical(v), t)
  {
    match Decimal.Atoi(v)
    case Some(d) =>
      assert Line(k, v) + t == k + "=" + (Decimal.Itoa(d) + t);
      ItoaShape(d);
      StatementOfLine(k, Decimal.Itoa(d) + t, vars);
      IntegerValue(d, t, vars);
    case None =>
      QuotedLine(k, v, t);
      StatementOfLine(k, Opened(v) + "\"" + t, vars);
      SurvivorValue(v, t, vars);
  }

  /** Any other line fails or binds its key to something else. */
  lemma {:induction false} LostLine(k: string, v: string, t: string, vars: map<string, string>)
    requires IsKey(k) && !Survives(v) && IsTail(t)
    ensures Decimal.Atoi(v).None?
    ensures var r := NextStatement(Line(k, v) + t, vars);
            r.Fail? || (r.Bind? && r.key == k && r.value != v)
  {
    if Decimal.Atoi(v).Some? {
      IntegersSurvive(v);
    }
    QuotedLine(k, v, t);
    StatementOfLine(k, Opened(v) + "\"" + t, vars);
    if v[|v| - 1] == DQUOTE {
      QuoteEndingDiffers(v, t, vars);
    } else {
      BackslashEndingValue(v, t, vars);
    }
  }
}

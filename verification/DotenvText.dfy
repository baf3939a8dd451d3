/** Character classes, the byte-slice helpers the dotenv code uses, and the two
    directions of value escaping (config/dotenv/godotenv.go, config/dotenv/parser.go).
    A string is a sequence of runes. */
module DotenvText {
  import opened Sequences

  const BACKSLASH: char := '\\'
  const DQUOTE: char := '\"'

  // The seven line-internal blanks of the package's own isSpace.
  predicate IsSpace(c: char) {
    c == '\t' || c == '\U{0B}' || c == '\U{0C}' || c == '\r' || c == ' ' || c == '\U{85}' || c == '\U{A0}'
  }

  // unicode.IsSpace: the White_Space property.
  predicate IsUnicodeSpace(c: char) {
    || IsSpace(c) || c == '\n' || c == '\U{1680}' || '\U{2000}' <= c <= '\U{200A}'
    || c == '\U{2028}' || c == '\U{2029}' || c == '\U{202F}' || c == '\U{205F}' || c == '\U{3000}'
  }

  predicate IsLineEnd(c: char) {
    c == '\n' || c == '\r'
  }

  predicate IsNameChar(c: char) {
    'A' <= c <= 'Z' || '0' <= c <= '9' || c == '_'
  }

  // The characters of a variable name: [A-Za-z0-9_.].
  predicate IsKeyChar(c: char) {
    IsNameChar(c) || 'a' <= c <= 'z' || c == '.'
  }

  const CAPITALS := "ABCDEFGHIJKLMNOPQRSTUVWXYZ"
  const SMALL := "abcdefghijklmnopqrstuvwxyz"
  const DIGITS := "0123456789"

  /** The alphabets, letter by letter. */
  lemma {:induction false} AlphabetsExactly(c: char)
    ensures IsNameChar(c) <==> c in CAPITALS || c in DIGITS || c == '_'
    ensures IsKeyChar(c) <==> c in CAPITALS || c in SMALL || c in DIGITS || c == '_' || c == '.'
    ensures IsLineEnd(c) <==> c in "\n\r"
    ensures IsSpace(c) <==> c in "\t \r" || c as int in {11, 12, 133, 160}
  {
    Among(CAPITALS, 'A', c);
    Among(SMALL, 'a', c);
    Among(DIGITS, '0', c);
  }

  // Characters in a row.
  lemma {:induction false} Among(s: string, first: char, c: char)
    requires s != [] && forall i :: 0 <= i < |s| ==> s[i] as int == first as int + i
    ensures c in s <==> first <= c <= s[|s| - 1]
  {
    if first <= c <= s[|s| - 1] {
      assert s[c as int - first as int] == c;
    }
  }

  // The first position at or after i whose character does not satisfy p, or |s|.
  function SkipWhile(s: string, p: char -> bool, i: nat): (k: nat)
    requires i <= |s|
    ensures i <= k <= |s|
    ensures k < |s| ==> !p(s[k])
    ensures forall j :: i <= j < k ==> p(s[j])
    decreases |s| - i
  {
    if i < |s| && p(s[i]) then SkipWhile(s, p, i + 1) else i
  }

  // The end, at most i, left when trailing characters satisfying p are dropped.
  function DropWhile(s: string, p: char -> bool, i: nat): (k: nat)
    requires i <= |s|
    ensures k <= i
    ensures k > 0 ==> !p(s[k - 1])
    ensures forall j :: k <= j < i ==> p(s[j])
  {
    if i > 0 && p(s[i - 1]) then DropWhile(s, p, i - 1) else i
  }

  lemma {:induction false} SkipWhileStops(s: string, p: char -> bool, i: nat, k: nat)
    requires i <= k <= |s|
    requires forall j :: i <= j < k ==> p(s[j])
    requires k < |s| ==> !p(s[k])
    ensures SkipWhile(s, p, i) == k
    decreases k - i
  {
  }

  lemma {:induction false} DropWhileStops(s: string, p: char -> bool, i: nat, k: nat)
    requires k <= i <= |s|
    requires forall j :: k <= j < i ==> p(s[j])
    requires k > 0 ==> !p(s[k - 1])
    ensures DropWhile(s, p, i) == k
    decreases i
  {
  }

  function TrimLeft(s: string, p: char -> bool): (r: string)
    ensures |r| <= |s|
  {
    s[SkipWhile(s, p, 0)..]
  }

  function TrimRight(s: string, p: char -> bool): (r: string)
    ensures |r| <= |s|
  {
    s[..DropWhile(s, p, |s|)]
  }

  lemma {:induction false} TrimLeftKeeps(s: string, p: char -> bool)
    requires s == [] || !p(s[0])
    ensures TrimLeft(s, p) == s
  {
  }

  // bytes.IndexFunc: the first position satisfying p, or -1.
  function IndexFunc(s: string, p: char -> bool): (i: int)
    ensures -1 <= i < |s|
    ensures 0 <= i ==> p(s[i])
    ensures forall j :: 0 <= j < (if i < 0 then |s| else i) ==> !p(s[j])
  {
    var k := SkipWhile(s, c => !p(c), 0);
    if k == |s| then -1 else k
  }

  // strings.Replace(s, c, by, -1) for a one-character pattern.
  function ReplaceChar(s: string, c: char, sub: string): string {
    if s == [] then [] else (if s[0] == c then sub else [s[0]]) + ReplaceChar(s[1..], c, sub)
  }

  lemma {:induction false} ReplaceCharConcat(a: string, b: string, c: char, sub: string)
    ensures ReplaceChar(a + b, c, sub) == ReplaceChar(a, c, sub) + ReplaceChar(b, c, sub)
  {
    if a == [] {
      assert a + b == b;
    } else {
      ReplaceCharConcat(a[1..], b, c, sub);
      assert (a + b)[1..] == a[1..] + b;
      Assoc(if a[0] == c then sub else [a[0]], ReplaceChar(a[1..], c, sub), ReplaceChar(b, c, sub));
    }
  }

  // ---- doubleQuoteEscape ----

  // doubleQuoteSpecialChars, in the order the passes run.
  const SPECIALS: seq<char> := ['\\', '\n', '\r', '\"', '!', '$', '`']

  function Replacement(c: char): string {
    if c == '\n' then "\\n" else if c == '\r' then "\\r" else [BACKSLASH, c]
  }

  // One character, when only the first n passes have run.
  function EscapeCharUpTo(c: char, n: nat): string
    requires n <= |SPECIALS|
  {
    if c in SPECIALS[..n] then Replacement(c) else [c]
  }

  function EscapeUpTo(s: string, n: nat): string
    requires n <= |SPECIALS|
  {
    if s == [] then [] else EscapeCharUpTo(s[0], n) + EscapeUpTo(s[1..], n)
  }

  // What the seven passes together do to one character.
  function EscapeChar(c: char): string {
    if c in SPECIALS then Replacement(c) else [c]
  }

  function Escape(s: string): string {
    if s == [] then [] else EscapeChar(s[0]) + Escape(s[1..])
  }

  /** Escaped are exactly the seven special characters: the line breaks by their letters, the others
      by themselves. */
  lemma {:induction false} EscapeCharExactly(c: char)
    ensures EscapeChar(c)
         == if c == '\n' then "\\n" else if c == '\r' then "\\r"
            else if c == BACKSLASH || c == DQUOTE || c == '!' || c == '$' || c == '`' then [BACKSLASH, c]
            else [c]
  {
  }

  lemma {:induction false} EscapeUpToZero(s: string)
    ensures EscapeUpTo(s, 0) == s
  {
    if s != [] {
      EscapeUpToZero(s[1..]);
    }
  }

  lemma {:induction false} EscapeUpToAll(s: string)
    ensures EscapeUpTo(s, |SPECIALS|) == Escape(s)
  {
    assert SPECIALS[..|SPECIALS|] == SPECIALS;
    if s != [] {
      EscapeUpToAll(s[1..]);
    }
  }

  // No later pass touches what an earlier pass produced.
  lemma {:induction false} PassOnChar(c: char, n: nat)
    requires n < |SPECIALS|
    ensures ReplaceChar(EscapeCharUpTo(c, n), SPECIALS[n], Replacement(SPECIALS[n])) == EscapeCharUpTo(c, n + 1)
  {
    var sp := SPECIALS[n];
    assert SPECIALS[..n + 1] == SPECIALS[..n] + [sp];
    if c in SPECIALS[..n] {
      var i :| 0 <= i < n && SPECIALS[i] == c;
      var r := Replacement(c);
      assert r[0] != sp && r[1] != sp;
      assert r == [r[0]] + [r[1]];
      ReplaceCharConcat([r[0]], [r[1]], sp, Replacement(sp));
    }
  }

  lemma {:induction false} PassOnString(s: string, n: nat)
    requires n < |SPECIALS|
    ensures ReplaceChar(EscapeUpTo(s, n), SPECIALS[n], Replacement(SPECIALS[n])) == EscapeUpTo(s, n + 1)
  {
    if s != [] {
      ReplaceCharConcat(EscapeCharUpTo(s[0], n), EscapeUpTo(s[1..], n), SPECIALS[n], Replacement(SPECIALS[n]));
      PassOnChar(s[0], n);
      PassOnString(s[1..], n);
    }
  }

  /** Seven whole-string replace passes, one after the other, are one
      per-character escape. */
  method DoubleQuoteEscape(line: string) returns (r: string)
    ensures r == Escape(line)
  {
    r := line;
    EscapeUpToZero(line);
    for i := 0 to |SPECIALS|
      invariant r == EscapeUpTo(line, i)
    {
      var c := SPECIALS[i];
      var toReplace := [BACKSLASH, c];
      if c == '\n' {
        toReplace := "\\n";
      }
      if c == '\r' {
        toReplace := "\\r";
      }
      PassOnString(line, i);
      r := ReplaceChar(r, c, toReplace);
    }
    EscapeUpToAll(line);
  }

  // ---- expandEscapes ----

  // The regular expression \\. : a backslash and any character but a line feed.
  function UnescapeLineBreaks(s: string): string {
    if |s| < 2 then s
    else if s[0] == BACKSLASH && s[1] != '\n' then
      (if s[1] == 'n' then "\n" else if s[1] == 'r' then "\r" else s[..2]) + UnescapeLineBreaks(s[2..])
    else [s[0]] + UnescapeLineBreaks(s[1..])
  }

  // The regular expression \\([^$]) , replaced by its group.
  function UnescapeChars(s: string): string {
    if |s| < 2 then s
    else if s[0] == BACKSLASH && s[1] != '$' then [s[1]] + UnescapeChars(s[2..])
    else [s[0]] + UnescapeChars(s[1..])
  }

  function ExpandEscapes(s: string): string {
    UnescapeChars(UnescapeLineBreaks(s))
  }

  // ---- expandVariables ----

  function NameLen(s: string): (n: nat)
    ensures n <= |s| && forall i :: 0 <= i < n ==> IsNameChar(s[i])
  {
    if s != [] && IsNameChar(s[0]) then 1 + NameLen(s[1..]) else 0
  }

  // Where the name group starts in a match that begins with the dollar sign: after \(?\{?
  function NameStart(s: string): (i: nat)
    requires s != [] && s[0] == '$'
    ensures 1 <= i <= |s| && forall j :: 1 <= j < i ==> s[j] == '(' || s[j] == '{'
  {
    var a := if |s| > 1 && s[1] == '(' then 2 else 1;
    if |s| > a && s[a] == '{' then a + 1 else a
  }

  function VarName(s: string): (name: string)
    requires s != [] && s[0] == '$'
  {
    var a := NameStart(s);
    s[a..a + NameLen(s[a..])]
  }

  // Length of the match of  \$ \(? \{? ([A-Z0-9_]+)? \}?  at the start of s.
  function MatchLen(s: string): (n: nat)
    requires s != [] && s[0] == '$'
    ensures 1 <= n <= |s|
    ensures forall j :: 1 <= j < n ==> s[j] != '$' && s[j] != BACKSLASH
  {
    var a := NameStart(s);
    var b := a + NameLen(s[a..]);
    assert forall j :: a <= j < b ==> s[j] == s[a..][j - a];
    if |s| > b && s[b] == '}' then b + 1 else b
  }

  function Lookup(m: map<string, string>, k: string): string {
    if k in m then m[k] else ""
  }

  /** Replaces each match of  (\\)?(\$)(\()?\{?([A-Z0-9_]+)?\}?  from the left. The
      source compares the second group, always a dollar sign, with a parenthesis;
      that test never holds, so "$(NAME" is expanded like "$NAME". */
  function ExpandVariables(v: string, m: map<string, string>): string {
    if v == [] then []
    else if v[0] == BACKSLASH && |v| > 1 && v[1] == '$' then
      var n := MatchLen(v[1..]);
      v[1..1 + n] + ExpandVariables(v[1 + n..], m)
    else if v[0] == '$' then
      var n := MatchLen(v);
      var name := VarName(v);
      (if name != "" then Lookup(m, name) else v[..n]) + ExpandVariables(v[n..], m)
    else [v[0]] + ExpandVariables(v[1..], m)
  }

  // ---- the two directions undo each other ----

  // After the first rewrite: only line breaks are back.
  function HalfEscapeChar(c: char): string {
    if c in ['\n', '\r'] then [c] else EscapeChar(c)
  }

  function HalfEscape(s: string): string {
    if s == [] then [] else HalfEscapeChar(s[0]) + HalfEscape(s[1..])
  }

  // After the second rewrite: only dollar signs are still escaped.
  function DollarEscapeChar(c: char): string {
    if c == '$' then "\\$" else [c]
  }

  function DollarEscape(s: string): string {
    if s == [] then [] else DollarEscapeChar(s[0]) + DollarEscape(s[1..])
  }

  lemma {:induction false} UnescapeLineBreaksChar(c: char, t: string)
    ensures UnescapeLineBreaks(EscapeChar(c) + t) == HalfEscapeChar(c) + UnescapeLineBreaks(t)
  {
  }

  lemma {:induction false} UnescapeLineBreaksOfEscape(s: string, t: string)
    ensures UnescapeLineBreaks(Escape(s) + t) == HalfEscape(s) + UnescapeLineBreaks(t)
  {
    if s == [] {
      assert Escape(s) + t == t;
    } else {
      UnescapeLineBreaksOfEscape(s[1..], t);
      UnescapeLineBreaksChar(s[0], Escape(s[1..]) + t);
      Assoc(EscapeChar(s[0]), Escape(s[1..]), t);
      Assoc(HalfEscapeChar(s[0]), HalfEscape(s[1..]), UnescapeLineBreaks(t));
    }
  }

  lemma {:induction false} UnescapeCharsChar(c: char, t: string)
    ensures UnescapeChars(HalfEscapeChar(c) + t) == DollarEscapeChar(c) + UnescapeChars(t)
  {
  }

  lemma {:induction false} UnescapeCharsOfHalfEscape(s: string, t: string)
    ensures UnescapeChars(HalfEscape(s) + t) == DollarEscape(s) + UnescapeChars(t)
  {
    if s == [] {
      assert HalfEscape(s) + t == t;
    } else {
      UnescapeCharsOfHalfEscape(s[1..], t);
      UnescapeCharsChar(s[0], HalfEscape(s[1..]) + t);
      Assoc(HalfEscapeChar(s[0]), HalfEscape(s[1..]), t);
      Assoc(DollarEscapeChar(s[0]), DollarEscape(s[1..]), UnescapeChars(t));
    }
  }

  lemma {:induction false} ExpandPlain(c: char, t: string, m: map<string, string>)
    requires c != '$'
    requires c == BACKSLASH ==> t == [] || t[0] != '$'
    ensures ExpandVariables([c] + t, m) == [c] + ExpandVariables(t, m)
  {
  }

  predicate IsPlain(s: string) {
    forall i :: 0 <= i < |s| ==> s[i] != BACKSLASH && s[i] != '$'
  }

  // Text without a backslash or dollar sign is copied.
  lemma {:induction false} ExpandCopies(plain: string, t: string, m: map<string, string>)
    requires IsPlain(plain)
    ensures ExpandVariables(plain + t, m) == plain + ExpandVariables(t, m)
  {
    if plain == [] {
      assert plain + t == t;
    } else {
      ExpandCopies(plain[1..], t, m);
      ExpandPlain(plain[0], plain[1..] + t, m);
      Assoc([plain[0]], plain[1..], t);
      Assoc([plain[0]], plain[1..], ExpandVariables(t, m));
      assert plain == [plain[0]] + plain[1..];
    }
  }

  // How much of t a match consumes after its dollar sign.
  function TailLen(t: string): (n: nat)
    ensures n <= |t| && IsPlain(t[..n])
  {
    var s := "$" + t;
    var n := MatchLen(s);
    assert forall j :: 0 <= j < n - 1 ==> t[j] == s[1 + j];
    n - 1
  }

  // An escaped match is copied without its backslash.
  lemma {:induction false} ExpandEscaped(v: string, m: map<string, string>)
    requires |v| > 1 && v[0] == BACKSLASH && v[1] == '$'
    ensures var n := MatchLen(v[1..]);
            ExpandVariables(v, m) == v[1..1 + n] + ExpandVariables(v[1 + n..], m)
  {
    hide MatchLen;
  }

  lemma {:induction false} MatchParts(t: string)
    ensures var v, n := "\\$" + t, TailLen(t);
            && v[1..] == "$" + t
            && v[1..2 + n] == "$" + t[..n]
            && v[2 + n..] == t[n..]
  {
  }

  lemma {:induction false} ExpandMatch(t: string, m: map<string, string>)
    ensures ExpandVariables("\\$" + t, m) == ("$" + t[..TailLen(t)]) + ExpandVariables(t[TailLen(t)..], m)
  {
    hide MatchLen, ExpandVariables;
    MatchParts(t);
    ExpandEscaped("\\$" + t, m);
    assert MatchLen("$" + t) == 1 + TailLen(t);
  }

  // An escaped dollar sign loses its backslash, whatever follows it.
  lemma {:induction false} EscapedDollar(t: string, m: map<string, string>)
    ensures ExpandVariables("\\$" + t, m) == "$" + ExpandVariables(t, m)
  {
    var a, b := t[..TailLen(t)], t[TailLen(t)..];
    assert t == a + b;
    assert ExpandVariables(t, m) == a + ExpandVariables(b, m) by {
      ExpandCopies(a, b, m);
    }
    ExpandMatch(t, m);
    Assoc("$", a, ExpandVariables(b, m));
  }

  lemma {:induction false} ExpandChar(c: char, t: string, m: map<string, string>)
    requires c != BACKSLASH || t == [] || t[0] != '$'
    ensures ExpandVariables(DollarEscapeChar(c) + t, m) == [c] + ExpandVariables(t, m)
  {
    if c == '$' {
      EscapedDollar(t, m);
    } else {
      ExpandPlain(c, t, m);
    }
  }

  lemma {:induction false} ExpandOfDollarEscape(s: string, t: string, m: map<string, string>)
    requires t == [] || t[0] != '$'
    ensures ExpandVariables(DollarEscape(s) + t, m) == s + ExpandVariables(t, m)
  {
    if s == [] {
      assert DollarEscape(s) + t == t;
    } else {
      ExpandOfDollarEscape(s[1..], t, m);
      ExpandChar(s[0], DollarEscape(s[1..]) + t, m);
      Assoc(DollarEscapeChar(s[0]), DollarEscape(s[1..]), t);
      Assoc([s[0]], s[1..], ExpandVariables(t, m));
      assert s == [s[0]] + s[1..];
    }
  }

  /** Expanding an escaped text followed by t gives the text followed by the expansion of t. */
  lemma {:induction false} ExpandOfEscapeThen(v: string, t: string, m: map<string, string>)
    requires ExpandEscapes(t) == [] || ExpandEscapes(t)[0] != '$'
    ensures ExpandVariables(ExpandEscapes(Escape(v) + t), m) == v + ExpandVariables(ExpandEscapes(t), m)
  {
    UnescapeLineBreaksOfEscape(v, t);
    UnescapeCharsOfHalfEscape(v, UnescapeLineBreaks(t));
    ExpandOfDollarEscape(v, ExpandEscapes(t), m);
  }

  /** For every value and every variable map, the two expansions undo the escape. */
  lemma {:induction false} ExpandUndoesEscape(v: string, m: map<string, string>)
    ensures ExpandVariables(ExpandEscapes(Escape(v)), m) == v
  {
    ExpandOfEscapeThen(v, [], m);
    assert Escape(v) + [] == Escape(v);
  }
}

/** What values written by hand mean to the parser (config/dotenv/parser.go:120-271): plain, quoted
    and raw ones, with references to variables bound above and with comments. */
module DotenvValues {
  import opened Options
  import opened Sequences
  import opened DotenvText
  import opened DotenvParser
  import opened DotenvLine
  import opened DotenvRoundTrip
  import opened DotenvMarshal

  // A piece of a value: words, a reference $NAME, with an opening parenthesis before the name or
  // braces around it, or a dollar sign with no name after it.
  datatype Part = Words(text: string) | Reference(name: string, paren: bool, braced: bool) | Dollar

  // Without quotes, with what stands after a hash; in double quotes; in single quotes.
  datatype Value = Plain(parts: seq<Part>, comment: Option<string>) | Quoted(parts: seq<Part>) | Raw(text: string)

  // ---- what is written ----

  function Opening(paren: bool, braced: bool): string {
    "$" + (if paren then "(" else "") + (if braced then "{" else "")
  }

  // In double quotes the words are escaped, without quotes only their dollar signs.
  function WrittenPart(p: Part, quoted: bool): string {
    match p
    case Words(text) => if quoted then Escape(text) else DollarEscape(text)
    case Reference(name, paren, braced) => Opening(paren, braced) + name + (if braced then "}" else "")
    case Dollar => "$"
  }

  function Written(ps: seq<Part>, quoted: bool): string {
    if ps == [] then "" else WrittenPart(ps[0], quoted) + Written(ps[1..], quoted)
  }

  function WrittenValue(v: Value): string {
    match v
    case Plain(ps, None) => Written(ps, false)
    case Plain(ps, Some(c)) => Written(ps, false) + " #" + c
    case Quoted(ps) => "\"" + Written(ps, true) + "\""
    case Raw(text) => "'" + text + "'"
  }

  // ---- what it means ----

  function MeaningOfPart(p: Part, m: map<string, string>): string {
    match p
    case Words(text) => text
    case Reference(name, _, _) => if name in m then m[name] else ""
    case Dollar => "$"
  }

  function MeaningOfParts(ps: seq<Part>, m: map<string, string>): string {
    if ps == [] then "" else MeaningOfPart(ps[0], m) + MeaningOfParts(ps[1..], m)
  }

  function MeaningOfValue(v: Value, m: map<string, string>): string {
    match v
    case Plain(ps, _) => MeaningOfParts(ps, m)
    case Quoted(ps) => MeaningOfParts(ps, m)
    case Raw(text) => text
  }

  // ---- what can be written ----

  predicate Name(s: string) {
    s != [] && forall i :: 0 <= i < |s| ==> IsNameChar(s[i])
  }

  // Words that begin with a character of a name.
  predicate NameGoesOn(ps: seq<Part>) {
    ps != [] && ps[0].Words? && ps[0].text != [] && IsNameChar(ps[0].text[0])
  }

  predicate BeginsWith(ps: seq<Part>, c: char) {
    ps != [] && ps[0].Words? && ps[0].text != [] && ps[0].text[0] == c
  }

  // Any words can be written, but for a backslash right before a dollar sign.
  predicate PartOk(p: Part, rest: seq<Part>) {
    match p
    case Words(text) => text != [] && (rest != [] && !rest[0].Words? ==> text[|text| - 1] != BACKSLASH)
    case Reference(name, _, braced) => Name(name) && (!braced ==> !NameGoesOn(rest) && !BeginsWith(rest, '}'))
    case Dollar => !NameGoesOn(rest) && !BeginsWith(rest, '(') && !BeginsWith(rest, '{')
  }

  predicate PartsOk(ps: seq<Part>) {
    ps == [] || (PartOk(ps[0], ps[1..]) && PartsOk(ps[1..]))
  }

  predicate OneLine(s: string) {
    forall i :: 0 <= i < |s| ==> !IsLineEnd(s[i])
  }

  // No hash after a blank.
  predicate NoComment(s: string) {
    forall i :: 0 < i < |s| && s[i] == '#' ==> !IsSpace(s[i - 1])
  }

  // Neither a blank nor, at the start, a quote.
  predicate Trimmed(s: string) {
    s != [] ==> !IsSpace(s[0]) && !IsQuote(s[0]) && !IsSpace(s[|s| - 1])
  }

  // Every quote of the kind stands after a backslash, and the end is neither.
  predicate Enclosable(s: string, quote: char) {
    && (forall i :: 0 <= i < |s| && s[i] == quote ==> i > 0 && s[i - 1] == BACKSLASH)
    && (s != [] ==> s[|s| - 1] != quote && s[|s| - 1] != BACKSLASH)
  }

  predicate ValueOk(v: Value) {
    match v
    case Plain(ps, c) =>
      var text := Written(ps, false);
      && PartsOk(ps) && OneLine(text) && Trimmed(text)
      && (c.None? ==> NoComment(text))
      && (c.Some? ==> text != [] && OneLine(c.value) && NoComment(c.value))
    case Quoted(ps) => PartsOk(ps) && (ps != [] && ps[|ps| - 1].Words? ==> Survives(ps[|ps| - 1].text))
    case Raw(text) => Enclosable(text, '\'') && NoReturn(text)
  }

  // ---- references ----

  lemma {:induction false} NameLenIs(name: string, t: string)
    requires Name(name) && (t == [] || !IsNameChar(t[0]))
    ensures NameLen(name + t) == |name|
  {
    hide IsNameChar;
    assert (name + t)[1..] == name[1..] + t;
    if |name| > 1 {
      NameLenIs(name[1..], t);
    } else {
      assert name[1..] + t == t;
    }
  }

  lemma {:induction false} OpeningMatch(paren: bool, braced: bool, u: string)
    requires u != [] && IsNameChar(u[0])
    ensures var a := Opening(paren, braced);
            var s := a + u;
            s[0] == '$' && NameStart(s) == |a| && s[|a|..] == u
  {
    hide IsNameChar;
    assert u[0] != '(' && u[0] != '{' by { NameCharFacts(u[0]); }
    var a := Opening(paren, braced);
    assert (a + u)[|a|] == u[0];
  }

  lemma {:induction false} NameCharFacts(c: char)
    requires IsNameChar(c)
    ensures c != '(' && c != '{'
  {
  }

  // A name from position a on, and the brace after it.
  lemma {:induction false} NameMatch(s: string, a: nat, name: string, close: string, t: string)
    requires s != [] && s[0] == '$' && NameStart(s) == a && s[a..] == name + (close + t) && Name(name)
    requires close == "}" || (close == "" && (t == [] || (!IsNameChar(t[0]) && t[0] != '}')))
    ensures VarName(s) == name && MatchLen(s) == a + |name| + |close|
  {
    hide NameStart;
    assert close + t == [] || !IsNameChar((close + t)[0]);
    hide IsNameChar;
    NameLenIs(name, close + t);
    assert s[a..][..|name|] == name;
    assert close + t != [] ==> s[a + |name|] == (close + t)[0];
  }

  lemma {:induction false} ReferenceMatch(p: Part, t: string)
    requires p.Reference? && Name(p.name) && (p.braced || t == [] || (!IsNameChar(t[0]) && t[0] != '}'))
    ensures var w := WrittenPart(p, false);
            var s := w + t;
            s[0] == '$' && VarName(s) == p.name && MatchLen(s) == |w|
  {
    hide Opening, IsNameChar, NameStart, VarName, MatchLen;
    var a, close := Opening(p.paren, p.braced), if p.braced then "}" else "";
    var u := p.name + (close + t);
    OpeningMatch(p.paren, p.braced, u);
    NameMatch(a + u, |a|, p.name, close, t);
    assert WrittenPart(p, false) + t == a + u;
  }

  lemma {:induction false} ExpandMatched(v: string, m: map<string, string>)
    requires v != [] && v[0] == '$' && VarName(v) != ""
    ensures ExpandVariables(v, m)
         == (if VarName(v) in m then m[VarName(v)] else "") + ExpandVariables(v[MatchLen(v)..], m)
  {
    hide VarName, MatchLen;
  }

  /** A reference becomes the value bound to its name, or nothing. */
  lemma {:induction false} ExpandReference(p: Part, t: string, m: map<string, string>)
    requires p.Reference? && Name(p.name) && (p.braced || t == [] || (!IsNameChar(t[0]) && t[0] != '}'))
    ensures ExpandVariables(WrittenPart(p, false) + t, m) == MeaningOfPart(p, m) + ExpandVariables(t, m)
  {
    hide IsNameChar, VarName, MatchLen, ExpandVariables, WrittenPart;
    var w := WrittenPart(p, false);
    ReferenceMatch(p, t);
    ExpandMatched(w + t, m);
    assert (w + t)[|w|..] == t;
  }

  /** A dollar sign with no name after it stays. */
  lemma {:induction false} ExpandDollar(t: string, m: map<string, string>)
    requires t == [] || (!IsNameChar(t[0]) && t[0] != '(' && t[0] != '{')
    ensures ExpandVariables("$" + t, m) == "$" + ExpandVariables(t, m)
  {
    var v := "$" + t;
    assert v[1..] == t;
    DollarMatch(t);
    ExpandNameless(v, m);
    hide MatchLen, VarName, ExpandVariables;
    if t != [] && t[0] == '}' {
      assert v[2..] == t[1..] && v[..2] == "$}";
      ExpandPlain('}', t[1..], m);
      assert t == ['}'] + t[1..];
    }
  }

  lemma {:induction false} DollarMatch(t: string)
    requires t == [] || (!IsNameChar(t[0]) && t[0] != '(' && t[0] != '{')
    ensures var v := "$" + t; VarName(v) == "" && MatchLen(v) == if t != [] && t[0] == '}' then 2 else 1
  {
    assert ("$" + t)[1..] == t;
  }

  lemma {:induction false} ExpandNameless(v: string, m: map<string, string>)
    requires v != [] && v[0] == '$' && VarName(v) == ""
    ensures ExpandVariables(v, m) == v[..MatchLen(v)] + ExpandVariables(v[MatchLen(v)..], m)
  {
    hide VarName, MatchLen;
  }

  // ---- the parts of a value ----

  // What the words of the next part begin with stands there as it is.
  lemma {:induction false} FirstOf(ps: seq<Part>)
    requires PartsOk(ps) && ps != []
    ensures var t := Written(ps, false);
            && t != []
            && (ps[0].Words? ==> t[0] == DollarEscapeChar(ps[0].text[0])[0])
            && (!ps[0].Words? ==> t[0] == '$')
  {
    if ps[0].Words? {
      assert DollarEscape(ps[0].text)[0] == DollarEscapeChar(ps[0].text[0])[0];
    }
  }

  lemma {:induction false} NotNext(ps: seq<Part>, c: char)
    requires PartsOk(ps) && c != '$' && c != BACKSLASH
    ensures var t := Written(ps, false);
            && (!BeginsWith(ps, c) ==> t == [] || t[0] != c)
            && (!NameGoesOn(ps) ==> t == [] || !IsNameChar(t[0]))
  {
    hide Written;
    if ps == [] {
      NothingWritten(false);
    } else {
      FirstOf(ps);
    }
  }

  lemma {:induction false} ExpandParts(ps: seq<Part>, m: map<string, string>)
    requires PartsOk(ps)
    ensures ExpandVariables(Written(ps, false), m) == MeaningOfParts(ps, m)
  {
    if ps != [] {
      var p, rest, t := ps[0], ps[1..], Written(ps[1..], false);
      ExpandParts(rest, m);
      hide ExpandVariables, DollarEscape, IsNameChar, Opening;
      match p
      case Words(text) => ExpandWords(text, rest, m);
      case Reference(_, _, _) =>
        NotNext(rest, '}');
        ExpandReference(p, t, m);
      case Dollar =>
        NotNext(rest, '(');
        NotNext(rest, '{');
        ExpandDollar(t, m);
    }
  }

  lemma {:induction false} DollarEscapeSnoc(s: string, c: char)
    ensures DollarEscape(s + [c]) == DollarEscape(s) + DollarEscapeChar(c)
  {
    if s == [] {
      assert s + [c] == [c] && [c][1..] == [];
    } else {
      DollarEscapeSnoc(s[1..], c);
      assert (s + [c])[1..] == s[1..] + [c];
      Assoc(DollarEscapeChar(s[0]), DollarEscape(s[1..]), DollarEscapeChar(c));
    }
  }

  // Escaped words that do not end in a backslash, whatever follows them.
  lemma {:induction false} ExpandThen(s: string, t: string, m: map<string, string>)
    requires s != [] && (s[|s| - 1] != BACKSLASH || t == [] || t[0] != '$')
    ensures ExpandVariables(DollarEscape(s) + t, m) == s + ExpandVariables(t, m)
  {
    hide ExpandVariables, DollarEscape;
    var front, c := s[..|s| - 1], s[|s| - 1];
    var t' := DollarEscapeChar(c) + t;
    assert s == front + [c];
    DollarEscapeSnoc(front, c);
    Assoc(DollarEscape(front), DollarEscapeChar(c), t);
    assert t'[0] != '$';
    ExpandOfDollarEscape(front, t', m);
    ExpandChar(c, t, m);
    Assoc(front, [c], ExpandVariables(t, m));
  }

  lemma {:induction false} ExpandWords(text: string, rest: seq<Part>, m: map<string, string>)
    requires PartOk(Words(text), rest) && PartsOk(rest)
    ensures ExpandVariables(DollarEscape(text) + Written(rest, false), m)
         == text + ExpandVariables(Written(rest, false), m)
  {
    hide ExpandVariables, DollarEscape, Written;
    if rest == [] {
      NothingWritten(false);
    } else {
      FirstOf(rest);
    }
    ExpandThen(text, Written(rest, false), m);
  }

  // ---- quoted text ----

  predicate NoBackslash(s: string) {
    forall i :: 0 <= i < |s| ==> s[i] != BACKSLASH
  }

  lemma {:induction false} UnescapeCopies(a: string, t: string)
    requires NoBackslash(a)
    ensures UnescapeLineBreaks(a + t) == a + UnescapeLineBreaks(t)
    ensures UnescapeChars(a + t) == a + UnescapeChars(t)
  {
    if a == [] {
      assert a + t == t;
    } else {
      UnescapeCopies(a[1..], t);
      assert (a + t)[1..] == a[1..] + t && (a + t)[0] == a[0];
      assert a == [a[0]] + a[1..];
      Assoc([a[0]], a[1..], UnescapeLineBreaks(t));
      Assoc([a[0]], a[1..], UnescapeChars(t));
      if |a + t| < 2 {
        assert a[1..] + t == [];
      }
    }
  }

  lemma {:induction false} DollarShape(p: Part, rest: seq<Part>)
    requires !p.Words? && PartOk(p, rest)
    ensures var w := WrittenPart(p, true);
            && NoBackslash(w) && NoReturn(w) && w == WrittenPart(p, false)
            && (forall i :: 0 <= i < |w| ==> w[i] != DQUOTE)
            && w != [] && w[0] == '$' && w[|w| - 1] != BACKSLASH
  {
  }

  lemma {:induction false} UnescapeParts(ps: seq<Part>)
    requires PartsOk(ps)
    ensures ExpandEscapes(Written(ps, true)) == Written(ps, false)
  {
    hide UnescapeChars, UnescapeLineBreaks, WrittenPart, PartOk;
    if ps != [] {
      var p, u := ps[0], Written(ps[1..], true);
      UnescapeParts(ps[1..]);
      if p.Words? {
        assert WrittenPart(p, true) == Escape(p.text) && WrittenPart(p, false) == DollarEscape(p.text) by {
          WordsEscaped(p);
        }
        UnescapeLineBreaksOfEscape(p.text, u);
        UnescapeCharsOfHalfEscape(p.text, UnescapeLineBreaks(u));
      } else {
        DollarShape(p, ps[1..]);
        UnescapeCopies(WrittenPart(p, true), u);
        UnescapeCopies(WrittenPart(p, true), UnescapeLineBreaks(u));
      }
    } else {
      NothingEscaped();
    }
  }

  lemma {:induction false} NothingEscaped()
    ensures UnescapeLineBreaks("") == "" && UnescapeChars("") == ""
  {
  }

  lemma {:induction false} WordsEscaped(p: Part)
    requires p.Words?
    ensures WrittenPart(p, true) == Escape(p.text) && WrittenPart(p, false) == DollarEscape(p.text)
  {
  }

  // ---- values ----

  lemma {:induction false} EnclosableParts(a: string, b: string, quote: char)
    requires Enclosable(b, quote) && (b == [] ==> Enclosable(a, quote))
    requires forall i :: 0 <= i < |a| && a[i] == quote ==> i > 0 && a[i - 1] == BACKSLASH
    ensures Enclosable(a + b, quote)
  {
    var s := a + b;
    forall i | 0 <= i < |s| && s[i] == quote ensures i > 0 && s[i - 1] == BACKSLASH {
      if i >= |a| {
        assert b[i - |a|] == quote;
      }
    }
  }

  lemma {:induction false} WrittenEnclosable(ps: seq<Part>)
    requires ValueOk(Quoted(ps))
    ensures Enclosable(Written(ps, true), DQUOTE) && NoReturn(Written(ps, true))
  {
    hide WrittenPart, PartOk, Escape;
    if ps != [] {
      var p, rest := ps[0], ps[1..];
      assert rest != [] ==> rest[|rest| - 1] == ps[|ps| - 1];
      WrittenEnclosable(rest);
      hide Written;
      if p.Words? {
        WordsEscaped(p);
        EscapedQuotes(p.text);
        EscapeNoReturn(p.text);
        if rest == [] && p.text != [] {
          EscapedEnd(p.text);
        }
      } else {
        DollarShape(p, rest);
      }
      assert rest == [] ==> Written(rest, true) == "" by { NothingWritten(true); }
      assert rest != [] ==> Written(rest, true) != "" by {
        if rest != [] {
          SomethingWritten(rest, true);
        }
      }
      EnclosableParts(WrittenPart(p, true), Written(rest, true), DQUOTE);
      WrittenCons(ps, true);
    }
  }

  lemma {:induction false} NothingWritten(quoted: bool)
    ensures Written([], quoted) == ""
  {
  }

  lemma {:induction false} WrittenCons(ps: seq<Part>, quoted: bool)
    requires ps != []
    ensures Written(ps, quoted) == WrittenPart(ps[0], quoted) + Written(ps[1..], quoted)
  {
  }

  lemma {:induction false} SomethingWritten(ps: seq<Part>, quoted: bool)
    requires ps != [] && PartsOk(ps)
    ensures Written(ps, quoted) != ""
  {
    if ps[0].Words? {
      EscapedQuotes(ps[0].text);
    }
  }

  lemma {:induction false} ClosedAt(e: string, quote: char, t: string)
    requires IsQuote(quote) && Enclosable(e, quote)
    ensures ClosingQuote([quote] + e + [quote] + t, 1) == 1 + |e|
  {
    var src := [quote] + e + [quote] + t;
    assert forall j :: 1 <= j <= |e| ==> src[j] == e[j - 1];
    assert src[|e| + 1] == quote;
    assert src[|e|] == if e == [] then quote else e[|e| - 1];
    assert forall j :: 1 <= j <= |e| ==> src[j] != quote || src[j - 1] == BACKSLASH;
  }

  lemma {:induction false} UnquoteEnclosed(e: string, quote: char)
    requires Enclosable(e, quote)
    ensures Unquote([quote] + e, quote) == e
  {
    var s := [quote] + e;
    if e == [] {
      TrimRightIs(s, IsChar(quote), [], s);
      TrimLeftIs([], IsChar(quote), [], []);
    } else {
      assert s[|s| - 1] == e[|e| - 1];
      TrimRightIs(s, IsChar(quote), s, []);
      TrimLeftIs(s, IsChar(quote), [quote], e);
    }
  }

  // A value in quotes, whatever follows it.
  lemma {:induction false} EnclosedValue(e: string, quote: char, t: string, vars: map<string, string>)
    requires IsQuote(quote) && Enclosable(e, quote)
    ensures VarValue([quote] + e + [quote] + t, vars)
         == Ok((if quote == DQUOTE then ExpandVariables(ExpandEscapes(e), vars) else e, t))
  {
    hide ClosingQuote, Unquote, ExpandVariables, ExpandEscapes, Enclosable;
    var src := [quote] + e + [quote] + t;
    ClosedAt(e, quote, t);
    UnquoteEnclosed(e, quote);
    assert src[..1 + |e|] == [quote] + e && src[2 + |e|..] == t;
  }

  lemma {:induction false} NoHash(line: string, n: nat)
    requires n <= |line| && forall i :: 0 < i < n && line[i] == '#' ==> !IsSpace(line[i - 1])
    ensures CommentStart(line, n) == |line|
  {
  }

  lemma {:induction false} LastHash(line: string, e: nat, n: nat)
    requires 0 < e < n <= |line| && line[e] == '#' && IsSpace(line[e - 1])
    requires forall i :: e < i < n && line[i] == '#' ==> !IsSpace(line[i - 1])
    ensures CommentStart(line, n) == e
  {
  }

  // Where the line of a plain value ends.
  lemma {:induction false} LineEnds(line: string, t: string)
    requires OneLine(line) && IsTail(t)
    ensures LineLength(line + t) == |line| && (line + t)[..|line|] == line && (line + t)[|line|..] == t
  {
  }

  lemma {:induction false} TrimIs(a: string, text: string, b: string)
    requires Trimmed(text)
    requires (forall i :: 0 <= i < |a| ==> IsSpace(a[i])) && (forall i :: 0 <= i < |b| ==> IsSpace(b[i]))
    ensures text != "" || b == "" ==> Trim(a + text + b) == text
  {
    hide IsSpace;
    if text != "" || b == "" {
      TrimLeftIs(a + text + b, IsSpace, a, text + b);
      TrimRightIs(text + b, IsSpace, text, b);
    }
  }

  function WithComment(text: string, c: Option<string>): string {
    if c.Some? then text + " #" + c.value else text
  }

  lemma {:induction false} BeforeComment(text: string, c: Option<string>)
    requires if c.Some? then text != [] && NoComment(c.value) else NoComment(text)
    ensures var line := WithComment(text, c);
            line[..CommentStart(line, |line|)] == text + if c.Some? then " " else ""
  {
    var line := WithComment(text, c);
    if c.Some? {
      assert line[|text|] == ' ' && line[|text| + 1] == '#';
      forall i | |text| + 1 < i < |line| && line[i] == '#' ensures !IsSpace(line[i - 1]) {
        if i > |text| + 2 {
          assert line[i] == c.value[i - |text| - 2] && line[i - 1] == c.value[i - |text| - 3];
        }
      }
      hide IsSpace;
      assert IsSpace(' ') by { BlankIsSpace(); }
      LastHash(line, |text| + 1, |line|);
    } else {
      NoHash(line, |line|);
    }
  }

  lemma {:induction false} BlankIsSpace()
    ensures IsSpace(' ')
  {
  }

  lemma {:induction false} CommentOneLine(text: string, c: Option<string>)
    requires OneLine(text) && (c.Some? ==> OneLine(c.value))
    ensures OneLine(WithComment(text, c))
  {
  }

  lemma {:induction false} PlainLine(text: string, c: Option<string>, t: string)
    requires OneLine(text) && Trimmed(text) && IsTail(t)
    requires c.None? ==> NoComment(text)
    requires c.Some? ==> text != [] && OneLine(c.value) && NoComment(c.value)
    ensures var line := WithComment(text, c);
            LineLength(line + t) == |line| && PlainText(line + t) == text && (line + t)[|line|..] == t
  {
    hide IsLineEnd, LineLength, IsSpace, WithComment, CommentStart, Trim, Trimmed, NoComment;
    var line := WithComment(text, c);
    CommentOneLine(text, c);
    LineEnds(line, t);
    BeforeComment(text, c);
    BlankIsSpace();
    var blank := if c.Some? then " " else "";
    TrimIs([], text, blank);
    assert [] + text + blank == text + blank;
  }

  lemma {:induction false} PlainMeans(ps: seq<Part>, c: Option<string>, t: string, vars: map<string, string>)
    requires ValueOk(Plain(ps, c)) && IsTail(t)
    ensures VarValue(WrittenValue(Plain(ps, c)) + t, vars) == Ok((MeaningOfParts(ps, vars), t))
  {
    var text := Written(ps, false);
    var line := WithComment(text, c);
    assert WrittenValue(Plain(ps, c)) == line by { PlainWritten(ps, c); }
    PlainLine(text, c, t);
    ExpandParts(ps, vars);
    assert line + t == [] || !IsQuote((line + t)[0]) by { NoQuoteFirst(text, line, t); }
    hide PlainText, ExpandVariables, LineLength, Written;
  }

  lemma {:induction false} PlainWritten(ps: seq<Part>, c: Option<string>)
    ensures WrittenValue(Plain(ps, c)) == WithComment(Written(ps, false), c)
  {
  }

  lemma {:induction false} NoQuoteFirst(text: string, line: string, t: string)
    requires Trimmed(text) && text <= line && (text == "" ==> line == "") && IsTail(t)
    ensures line + t == [] || !IsQuote((line + t)[0])
  {
  }

  /** A value is read back as what it means, and what follows it is left. */
  lemma {:induction false} ValueMeans(v: Value, t: string, vars: map<string, string>)
    requires ValueOk(v) && IsTail(t)
    ensures VarValue(WrittenValue(v) + t, vars) == Ok((MeaningOfValue(v, vars), t))
  {
    hide VarValue, Written, Enclosable;
    match v
    case Plain(ps, c) => PlainMeans(ps, c, t, vars);
    case Quoted(ps) =>
      var e := Written(ps, true);
      WrittenEnclosable(ps);
      EnclosedValue(e, DQUOTE, t, vars);
      UnescapeParts(ps);
      ExpandParts(ps, vars);
      assert WrittenValue(v) + t == [DQUOTE] + e + [DQUOTE] + t;
    case Raw(text) =>
      EnclosedValue(text, '\'', t, vars);
      assert WrittenValue(v) + t == ['\''] + text + ['\''] + t;
  }
}

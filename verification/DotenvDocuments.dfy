/** What files written by hand mean to the parser (config/dotenv/parser.go:20-190): assignments with
    blanks and "export", comment lines, empty lines, both line ends, and what is refused. */
module DotenvDocuments {
  import opened Options
  import opened Sequences
  import opened DotenvText
  import opened DotenvParser
  import opened DotenvLine
  import opened DotenvRoundTrip
  import opened DotenvMarshal
  import opened DotenvValues

  datatype Line =
    | Assign(exported: bool, key: string, before: string, separator: char, after: string, value: Value)
    | Remark(text: string)
    | Empty

  // ---- what is written ----

  function WrittenLine(l: Line): string {
    match l
    case Assign(exported, key, before, separator, after, value) =>
      (if exported then "export " else "") + (key + before + [separator] + after + WrittenValue(value))
    case Remark(text) => "#" + text
    case Empty => ""
  }

  // The lines, with the given line end between them.
  function Document(ls: seq<Line>, end: string): string
    decreases |ls|, 0
  {
    if ls == [] then "" else WrittenLine(ls[0]) + Rest(ls[1..], end)
  }

  function Rest(ls: seq<Line>, end: string): string
    decreases |ls|, 1
  {
    if ls == [] then "" else end + Document(ls, end)
  }

  // ---- what it means ----

  // Each line binds its key, with the bindings above it.
  function Meaning(ls: seq<Line>, m: map<string, string>): map<string, string> {
    if ls == [] then m
    else Meaning(ls[1..], if ls[0].Assign? then m[ls[0].key := MeaningOfValue(ls[0].value, m)] else m)
  }

  // ---- what can be written ----

  predicate Blanks(s: string) {
    forall i :: 0 <= i < |s| ==> IsSpace(s[i]) && s[i] != '\r'
  }

  // A key "export" with a blank after it is taken for the word, unless the word is there too.
  predicate LineOk(l: Line) {
    match l
    case Assign(exported, key, before, separator, after, value) =>
      && IsKey(key) && Blanks(before) && separator in "=:" && Blanks(after) && ValueOk(value)
      && (!exported && key == "export" ==> before == "")
    case Remark(text) => OneLine(text)
    case Empty => true
  }

  ghost predicate LinesOk(ls: seq<Line>) {
    forall i :: 0 <= i < |ls| ==> LineOk(ls[i])
  }

  // ---- lines ----

  // A key, blanks, a separator, and whatever follows.
  function KeyPart(key: string, before: string, separator: char, u: string): string {
    key + before + [separator] + u
  }

  lemma {:induction false} ScanTo(s: string, i: nat, n: nat)
    requires i <= n < |s| && IsSeparator(s[n])
    requires forall j :: i <= j < n ==> IsKeyChar(s[j]) || IsSpace(s[j])
    ensures KeyScan(s, i) == At(n)
    decreases n - i
  {
    hide IsKeyChar;
    if i < n {
      ScanTo(s, i + 1, n);
      if IsKeyChar(s[i]) {
        KeyCharFacts(s[i]);
      }
    }
  }

  lemma {:induction false} ScanKeyPart(key: string, before: string, separator: char, u: string)
    requires IsKey(key) && Blanks(before) && IsSeparator(separator)
    ensures var s, n := KeyPart(key, before, separator, u), |key| + |before|;
            KeyScan(s, 0) == At(n) && s[..n] == key + before && s[n + 1..] == u
  {
    hide KeyScan, IsKeyChar, IsSpace, IsSeparator;
    ScanTo(KeyPart(key, before, separator, u), 0, |key| + |before|);
  }

  // A character that is in no key stands in the way of the word.
  lemma {:induction false} NoWordOver(s: string, n: nat)
    requires n < 6 && n < |s| && !IsKeyChar(s[n])
    ensures !HasExport(s)
  {
    if |s| >= 6 {
      assert s[..6][n] == s[n] && IsKeyChar("export"[n]);
    }
  }

  // No blank after the word "export" where a key stands.
  lemma {:induction false} NoWord(key: string, before: string, separator: char, u: string)
    requires IsKey(key) && Blanks(before) && IsSeparator(separator) && (key == "export" ==> before == "")
    ensures var s := KeyPart(key, before, separator, u); !(HasExport(s) && |s| > 6 && IsSpace(s[6]))
  {
    var s := KeyPart(key, before, separator, u);
    assert s[|key|] == if before == "" then separator else before[0];
    hide IsKeyChar;
    if |key| < 6 {
      assert !IsKeyChar(s[|key|]) by { NoKeyChar(s[|key|]); }
      NoWordOver(s, |key|);
    } else if |key| == 6 {
      assert s[..6] == key;
    } else {
      KeyCharFacts(key[6]);
    }
  }

  lemma {:induction false} NoKeyChar(c: char)
    requires IsSeparator(c) || IsSpace(c)
    ensures !IsKeyChar(c)
  {
  }

  lemma {:induction false} DropsNothing(s: string)
    requires s != [] && !IsSpace(s[0]) && !(HasExport(s) && |s| > 6 && IsSpace(s[6]))
    ensures DropExport(s) == s
  {
    TrimLeftKeeps(s, IsSpace);
  }

  // The word goes, and the blanks after it.
  lemma {:induction false} DropsTo(t: string)
    requires t != [] && IsSpace(t[0])
    ensures DropExport("export" + t) == TrimLeft(t, IsSpace)
  {
    hide TrimLeft;
    var s := "export" + t;
    TrimLeftKeeps(s, IsSpace);
    assert s[..6] == "export" && s[6..] == t && s[6] == t[0];
  }

  lemma {:induction false} DropsWord(s: string)
    requires s != [] && !IsSpace(s[0])
    ensures DropExport("export " + s) == s
  {
    assert IsSpace(' ') by { BlankIsSpace(); }
    hide DropExport, TrimLeft, IsSpace;
    assert "export " + s == "export" + (" " + s);
    DropsTo(" " + s);
    TrimLeftIs(" " + s, IsSpace, " ", s);
  }

  lemma {:induction false} KeyAfterExport(exported: bool, key: string, before: string, separator: char, u: string)
    requires IsKey(key) && Blanks(before) && IsSeparator(separator)
    requires !exported && key == "export" ==> before == ""
    ensures var s := KeyPart(key, before, separator, u);
            DropExport((if exported then "export " else "") + s) == s
  {
    var s := KeyPart(key, before, separator, u);
    assert s[0] == key[0] && IsKeyChar(key[0]);
    KeyCharFacts(key[0]);
    hide DropExport, HasExport, IsSpace, IsKeyChar;
    if exported {
      DropsWord(s);
    } else {
      NoWord(key, before, separator, u);
      DropsNothing(s);
      assert "" + s == s;
    }
  }

  lemma {:induction false} KeyIs(key: string, before: string)
    requires IsKey(key) && Blanks(before)
    ensures TrimRight(key + before, IsUnicodeSpace) == key
  {
    KeyCharFacts(key[|key| - 1]);
    hide IsKeyChar;
    assert forall i :: 0 <= i < |before| ==> IsUnicodeSpace(before[i]);
    TrimRightIs(key + before, IsUnicodeSpace, key, before);
  }

  lemma {:induction false} AssignedKey(exported: bool, key: string, before: string, separator: char, after: string,
      v: string)
    requires IsKey(key) && Blanks(before) && IsSeparator(separator) && Blanks(after)
    requires !exported && key == "export" ==> before == ""
    requires v == [] || !IsSpace(v[0])
    ensures KeyName((if exported then "export " else "") + KeyPart(key, before, separator, after + v)) == Ok((key, v))
  {
    hide DropExport, KeyScan, IsSpace, IsUnicodeSpace, IsKey, IsSeparator, KeyPart, TrimLeft, TrimRight;
    KeyAfterExport(exported, key, before, separator, after + v);
    ScanKeyPart(key, before, separator, after + v);
    KeyIs(key, before);
    TrimLeftIs(after + v, IsSpace, after, v);
  }

  // What a value starts with is no blank.
  lemma {:induction false} ValueStarts(v: Value, t: string)
    requires ValueOk(v) && IsTail(t)
    ensures var s := WrittenValue(v) + t; s == [] || !IsSpace(s[0])
  {
    hide Written, PartsOk, Enclosable;
    if v.Plain? {
      PlainWritten(v.parts, v.comment);
      assert WrittenValue(v) != [] ==> WrittenValue(v)[0] == Written(v.parts, false)[0];
    }
  }

  lemma {:induction false} WrittenAssign(l: Line, t: string)
    requires l.Assign?
    ensures WrittenLine(l) + t
         == (if l.exported then "export " else "")
            + KeyPart(l.key, l.before, l.separator, l.after + (WrittenValue(l.value) + t))
  {
    hide WrittenValue;
  }

  lemma {:induction false} StartsAtKey(exported: bool, key: string, before: string, separator: char, u: string)
    requires IsKey(key)
    ensures var s := (if exported then "export " else "") + KeyPart(key, before, separator, u);
            StatementStart(s) == Some(s)
  {
    var s := (if exported then "export " else "") + KeyPart(key, before, separator, u);
    assert s[0] == if exported then 'e' else key[0];
    KeyCharFacts(key[0]);
    StartHere(s);
  }

  /** An assignment binds its key to what its value means, and leaves what follows the line. */
  lemma {:induction false} AssignMeans(l: Line, t: string, vars: map<string, string>)
    requires l.Assign? && LineOk(l) && IsTail(t)
    ensures NextStatement(WrittenLine(l) + t, vars) == Bind(l.key, MeaningOfValue(l.value, vars), t)
  {
    hide StatementStart, KeyName, VarValue, WrittenValue, WrittenLine, MeaningOfValue, ValueOk, IsKey, KeyPart, IsTail;
    var v := WrittenValue(l.value) + t;
    WrittenAssign(l, t);
    StartsAtKey(l.exported, l.key, l.before, l.separator, l.after + v);
    ValueStarts(l.value, t);
    AssignedKey(l.exported, l.key, l.before, l.separator, l.after, v);
    ValueMeans(l.value, t, vars);
  }

  // A comment line is skipped.
  lemma {:induction false} RemarkSkipped(text: string, t: string, vars: map<string, string>)
    requires OneLine(text) && IsTail(t)
    ensures NextStatement("#" + text + t, vars) == NextStatement(t, vars)
  {
    hide KeyName, VarValue;
    RemarkStart(text, t);
  }

  lemma {:induction false} RemarkStart(text: string, t: string)
    requires OneLine(text) && IsTail(t)
    ensures StatementStart("#" + text + t) == StatementStart(t)
  {
    hide StatementStart, IndexFunc;
    var s := "#" + text + t;
    SkipsRemark(s);
    FindsLineFeed("#" + text, t);
    if t == [] {
      NothingStarts();
    } else {
      assert s[|text| + 1..] == t;
    }
  }

  lemma {:induction false} NothingStarts()
    ensures StatementStart("") == None
  {
  }

  lemma {:induction false} SkipsRemark(s: string)
    requires s != [] && s[0] == '#'
    ensures var pos := IndexFunc(s, IsChar('\n'));
            StatementStart(s) == if pos < 0 then None else StatementStart(s[pos..])
  {
    hide IndexFunc;
    TrimLeftKeeps(s, IsUnicodeSpace);
  }

  lemma {:induction false} FindsLineFeed(line: string, t: string)
    requires '\n' !in line && IsTail(t)
    ensures IndexFunc(line + t, IsChar('\n')) == if t == [] then -1 else |line|
  {
    var s, pos := line + t, IndexFunc(line + t, IsChar('\n'));
    hide IndexFunc;
    assert forall i :: 0 <= i < |line| ==> s[i] == line[i] && !IsChar('\n')(s[i]);
    assert t != [] ==> s[|line|] == '\n' && IsChar('\n')(s[|line|]);
  }

  // ---- documents ----

  lemma {:induction false} RestIsTail(ls: seq<Line>)
    ensures IsTail(Rest(ls, "\n"))
  {
  }

  lemma {:induction false} ParsesAlike(s: string, t: string, out: map<string, string>)
    requires NextStatement(s, out) == NextStatement(t, out)
    ensures ParseFrom(s, out) == ParseFrom(t, out)
  {
    hide NextStatement;
    ParseStep(s, out);
    ParseStep(t, out);
  }

  lemma {:induction false} RestParses(ls: seq<Line>, out: map<string, string>)
    ensures ParseFrom(Rest(ls, "\n"), out) == ParseFrom(Document(ls, "\n"), out)
  {
    hide NextStatement, ParseFrom, WrittenLine;
    if ls != [] {
      StatementAfterLineFeed(Document(ls, "\n"), out);
      ParsesAlike(Rest(ls, "\n"), Document(ls, "\n"), out);
    }
  }

  lemma {:induction false} LineParses(l: Line, t: string, out: map<string, string>)
    requires LineOk(l) && IsTail(t)
    ensures ParseFrom(WrittenLine(l) + t, out)
         == ParseFrom(t, if l.Assign? then out[l.key := MeaningOfValue(l.value, out)] else out)
  {
    hide NextStatement, ParseFrom, MeaningOfValue, WrittenValue, ValueOk;
    match l
    case Assign(_, _, _, _, _, _) =>
      hide LineOk, WrittenLine;
      AssignMeans(l, t, out);
      ParseStep(WrittenLine(l) + t, out);
    case Remark(text) =>
      RemarkSkipped(text, t, out);
      ParsesAlike("#" + text + t, t, out);
    case Empty =>
      assert WrittenLine(l) + t == t;
  }

  /** Any document of such lines parses without an error to what it means, whatever is bound
      before it. */
  lemma {:induction false} DocumentParses(ls: seq<Line>, out: map<string, string>)
    requires LinesOk(ls)
    ensures ParseFrom(Document(ls, "\n"), out) == (Meaning(ls, out), None)
    decreases |ls|
  {
    hide ParseFrom, LineOk, WrittenLine, MeaningOfValue;
    if ls == [] {
      EmptyParses(out);
    } else {
      var l, t := ls[0], Rest(ls[1..], "\n");
      var next := if l.Assign? then out[l.key := MeaningOfValue(l.value, out)] else out;
      assert LineOk(l);
      RestIsTail(ls[1..]);
      LineParses(l, t, out);
      RestParses(ls[1..], next);
      DocumentParses(ls[1..], next);
    }
  }

  // ---- line ends ----

  lemma {:induction false} LineNoReturns(l: Line)
    requires LineOk(l)
    ensures NoReturn(WrittenLine(l))
  {
    hide Written, Enclosable, PartsOk, IsSpace;
    if l.Assign? {
      assert forall i :: 0 <= i < |l.key| ==> IsKeyChar(l.key[i]);
      match l.value {
        case Plain(ps, c) => PlainWritten(ps, c);
        case Quoted(ps) => WrittenEnclosable(ps);
        case Raw(_) =>
      }
      assert NoReturn(WrittenValue(l.value));
    }
  }

  lemma {:induction false} NormalizeOne(c: char, b: string)
    requires c != '\r'
    ensures NormalizeLineEnds([c] + b) == [c] + NormalizeLineEnds(b)
  {
    if b == [] {
      assert [c] + b == [c];
    } else {
      assert ([c] + b)[1..] == b;
    }
  }

  lemma {:induction false} NormalizeThrough(a: string, b: string)
    requires NoReturn(a)
    ensures NormalizeLineEnds(a + b) == a + NormalizeLineEnds(b)
  {
    hide NormalizeLineEnds;
    if a == [] {
      assert a + b == b;
    } else {
      NormalizeThrough(a[1..], b);
      NormalizeOne(a[0], a[1..] + b);
      assert a == [a[0]] + a[1..];
      Assoc([a[0]], a[1..], b);
      Assoc([a[0]], a[1..], NormalizeLineEnds(b));
    }
  }

  lemma {:induction false} NormalizeEnd(end: string, b: string)
    requires end == "\n" || end == "\r\n"
    ensures NormalizeLineEnds(end + b) == "\n" + NormalizeLineEnds(b)
  {
    if end == "\n" {
      NormalizeThrough("\n", b);
    } else {
      assert (end + b)[2..] == b;
    }
  }

  lemma {:induction false} DocumentNormalized(ls: seq<Line>, end: string)
    requires LinesOk(ls) && (end == "\n" || end == "\r\n")
    ensures NormalizeLineEnds(Document(ls, end)) == Document(ls, "\n")
    decreases |ls|
  {
    hide LineOk, WrittenLine, NormalizeLineEnds;
    if ls != [] {
      assert LineOk(ls[0]);
      LineNoReturns(ls[0]);
      NormalizeThrough(WrittenLine(ls[0]), Rest(ls[1..], end));
      if ls[1..] != [] {
        DocumentNormalized(ls[1..], end);
        NormalizeEnd(end, Document(ls[1..], end));
      } else {
        NothingNormalized();
      }
    } else {
      NothingNormalized();
    }
  }

  lemma {:induction false} NothingNormalized()
    ensures NormalizeLineEnds("") == ""
  {
  }

  /** Unmarshal of a document written by hand, its lines ended by a line feed with or without a
      carriage return, is what it means, without an error. */
  lemma {:induction false} DocumentMeans(ls: seq<Line>, end: string)
    requires LinesOk(ls) && (end == "\n" || end == "\r\n")
    ensures Unmarshalled(Document(ls, end)) == (Meaning(ls, map[]), None)
  {
    hide ParseFrom, LinesOk;
    DocumentNormalized(ls, end);
    DocumentParses(ls, map[]);
  }

  // ---- what is refused ----

  // The text that is left where a document goes wrong.
  function Broken(ls: seq<Line>, s: string): string
    decreases |ls|
  {
    if ls == [] then s else WrittenLine(ls[0]) + ("\n" + Broken(ls[1..], s))
  }

  /** After any lines, a statement that fails ends the parse with its error and with what the lines
      above it bind. */
  lemma {:induction false} BrokenDocument(ls: seq<Line>, s: string, out: map<string, string>)
    requires LinesOk(ls) && NextStatement(s, Meaning(ls, out)).Fail?
    ensures ParseFrom(Broken(ls, s), out) == (Meaning(ls, out), Some(NextStatement(s, Meaning(ls, out)).error))
    decreases |ls|
  {
    hide ParseFrom, LineOk, WrittenLine, MeaningOfValue, NextStatement;
    if ls == [] {
      ParseStep(s, out);
    } else {
      var l, rest := ls[0], Broken(ls[1..], s);
      var next := if l.Assign? then out[l.key := MeaningOfValue(l.value, out)] else out;
      assert LineOk(l);
      LineParses(l, "\n" + rest, out);
      StatementAfterLineFeed(rest, next);
      ParsesAlike("\n" + rest, rest, next);
      BrokenDocument(ls[1..], s, next);
    }
  }

  lemma {:induction false} ScanBad(s: string, i: nat, n: nat)
    requires i <= n < |s| && !IsSeparator(s[n]) && !IsKeyChar(s[n]) && !IsSpace(s[n])
    requires forall j :: i <= j < n ==> IsKeyChar(s[j])
    ensures KeyScan(s, i) == Bad(s[n])
    decreases n - i
  {
    hide IsKeyChar;
    if i < n {
      KeyCharFacts(s[i]);
      ScanBad(s, i + 1, n);
    }
  }

  /** A key with any other character in it is refused, and that character is reported. */
  lemma {:induction false} KeyRefused(key: string, c: char, t: string, vars: map<string, string>)
    requires IsKey(key) && !IsSeparator(c) && !IsKeyChar(c) && !IsSpace(c)
    ensures var s := key + [c] + t; NextStatement(s, vars) == Fail(UnexpectedCharacter(c, s))
  {
    var s := key + [c] + t;
    assert s[0] == key[0];
    KeyCharFacts(key[0]);
    StartHere(s);
    NoWordAt(key, c, t);
    DropsNothing(s);
    hide KeyScan, DropExport, StatementStart, IsKeyChar, IsSpace, IsSeparator;
    ScanBad(s, 0, |key|);
    assert s[|key|] == c;
  }

  lemma {:induction false} NoWordAt(key: string, c: char, t: string)
    requires IsKey(key) && !IsKeyChar(c) && !IsSpace(c)
    ensures var s := key + [c] + t; !(HasExport(s) && |s| > 6 && IsSpace(s[6]))
  {
    var s := key + [c] + t;
    if |key| < 6 {
      NoWordOver(s, |key|);
    } else if |key| > 6 {
      KeyCharFacts(key[6]);
    }
  }

  /** A text of key characters without a separator, the last of a file, is bound to the empty key. */
  lemma {:induction false} NoSeparator(text: string, vars: map<string, string>)
    requires IsKey(text)
    ensures NextStatement(text, vars) == Bind("", text, "")
  {
    hide IsKeyChar, KeyScan, DropExport, VarValue;
    KeyCharFacts(text[0]);
    StartHere(text);
    assert |text| > 6 ==> !IsSpace(text[6]) by {
      if |text| > 6 {
        KeyCharFacts(text[6]);
      }
    }
    DropsNothing(text);
    ScanMissing(text, 0);
    KeyAsValue(text, vars);
  }

  lemma {:induction false} ScanMissing(s: string, i: nat)
    requires i <= |s| && forall j :: i <= j < |s| ==> IsKeyChar(s[j])
    ensures KeyScan(s, i) == Missing
    decreases |s| - i
  {
    hide IsKeyChar;
    if i < |s| {
      KeyCharFacts(s[i]);
      ScanMissing(s, i + 1);
    }
  }

  lemma {:induction false} KeyAsValue(text: string, vars: map<string, string>)
    requires IsKey(text)
    ensures VarValue(text, vars) == Ok((text, ""))
  {
    hide IsKeyChar, ExpandVariables, LineLength, PlainText;
    forall i | 0 <= i < |text| ensures !IsLineEnd(text[i]) && !IsSpace(text[i]) && text[i] != '#' && !IsQuote(text[i])
        && text[i] != BACKSLASH && text[i] != '$' {
      KeyCharFacts(text[i]);
      assert text[i] != BACKSLASH by { KeyNoBackslash(text[i]); }
    }
    PlainLine(text, None, "");
    ExpandCopies(text, "", vars);
    EmptyExpands(vars);
    assert text + "" == text;
  }

  lemma {:induction false} EmptyExpands(vars: map<string, string>)
    ensures ExpandVariables("", vars) == ""
  {
  }

  lemma {:induction false} KeyNoBackslash(c: char)
    requires IsKeyChar(c)
    ensures c != BACKSLASH
  {
  }

  /** The word "export" with nothing but blanks after it is refused. */
  lemma {:induction false} NothingToExport(blanks: string, vars: map<string, string>)
    requires blanks != [] && Blanks(blanks)
    ensures NextStatement("export" + blanks, vars) == Fail(ZeroLength)
  {
    hide VarValue, DropExport, StatementStart, KeyScan, TrimLeft;
    var s := "export" + blanks;
    StartHere(s);
    hide IsSpace;
    DropsAll(blanks);
    ScanEnd([]);
  }

  lemma {:induction false} DropsAll(blanks: string)
    requires blanks != [] && Blanks(blanks)
    ensures DropExport("export" + blanks) == []
  {
    hide DropExport, TrimLeft, IsSpace;
    DropsTo(blanks);
    TrimLeftIs(blanks, IsSpace, blanks, []);
  }

  /** A value in quotes that nothing closes is refused, with its first line. */
  lemma {:induction false} QuoteRefused(key: string, quote: char, e: string, more: string, vars: map<string, string>)
    requires IsKey(key) && IsQuote(quote) && IsTail(more) && '\n' !in e
    requires forall i :: 0 <= i < |e + more| && (e + more)[i] == quote ==> i > 0 && (e + more)[i - 1] == BACKSLASH
    ensures NextStatement(key + "=" + ([quote] + (e + more)), vars) == Fail(UnterminatedQuote([quote] + e))
  {
    hide VarValue, NextStatement, IsKey;
    var src := [quote] + (e + more);
    StatementOfLine(key, src, vars);
    NothingCloses(e + more, quote);
    assert src == [quote] + e + more;
    Unclosed([quote] + e, more, vars);
  }

  lemma {:induction false} Unclosed(line: string, more: string, vars: map<string, string>)
    requires line != [] && IsQuote(line[0]) && '\n' !in line && IsTail(more)
    requires ClosingQuote(line + more, 1) == -1
    ensures VarValue(line + more, vars) == Err(UnterminatedQuote(line))
  {
    hide ClosingQuote, ExpandVariables, ExpandEscapes, Unquote, IndexFunc;
    FindsLineFeed(line, more);
    assert (line + more)[..|line|] == line;
  }

  lemma {:induction false} NothingCloses(e: string, quote: char)
    requires forall i :: 0 <= i < |e| && e[i] == quote ==> i > 0 && e[i - 1] == BACKSLASH
    ensures ClosingQuote([quote] + e, 1) == -1
  {
    var src := [quote] + e;
    assert forall j :: 1 <= j < |src| ==> src[j] == e[j - 1];
  }
}

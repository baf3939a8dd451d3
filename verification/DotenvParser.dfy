/** The dotenv statement parser (config/dotenv/parser.go): the loops of the source as
    methods, each proved equal to a recursive specification function. */
module DotenvParser {
  import opened Options
  import opened DotenvText

  datatype Error = UnexpectedCharacter(c: char, near: string) | ZeroLength | UnterminatedQuote(text: string)

  datatype Result<+T> = Ok(value: T) | Err(error: Error)

  ghost predicate IsSuffix(r: string, s: string) {
    |r| <= |s| && r == s[|s| - |r|..]
  }

  lemma {:induction false} SuffixTransitive(a: string, b: string, c: string)
    requires IsSuffix(a, b) && IsSuffix(b, c)
    ensures IsSuffix(a, c)
  {
  }

  // bytes.Replace(src, "\r\n", "\n", -1)
  function NormalizeLineEnds(s: string): string {
    if |s| < 2 then s
    else if s[0] == '\r' && s[1] == '\n' then "\n" + NormalizeLineEnds(s[2..])
    else [s[0]] + NormalizeLineEnds(s[1..])
  }

  function IsChar(c: char): char -> bool {
    v => v == c
  }

  // Skips white space and comment lines; nothing is left at the end of the text.
  function StatementStart(src: string): (r: Option<string>)
    ensures r.Some? ==> IsSuffix(r.value, src) && r.value != []
                        && !IsUnicodeSpace(r.value[0]) && r.value[0] != '#'
    decreases |src|
  {
    var s := TrimLeft(src, IsUnicodeSpace);
    if s == [] then None
    else if s[0] != '#' then Some(s)
    else
      var pos := IndexFunc(s, IsChar('\n'));
      if pos < 0 then None
      else
        var r := StatementStart(s[pos..]);
        if r.Some? then
          SuffixTransitive(r.value, s[pos..], s);
          SuffixTransitive(r.value, s, src);
          r
        else r
  }

  // ---- locateKeyName ----

  datatype KeyEnd = At(pos: nat) | Bad(c: char) | Missing

  predicate IsSeparator(c: char) {
    c == '=' || c == ':'
  }

  function KeyScan(s: string, i: nat): (r: KeyEnd)
    requires i <= |s|
    ensures r.At? ==> i <= r.pos < |s| && IsSeparator(s[r.pos])
                      && forall j :: i <= j < r.pos ==> IsSpace(s[j]) || IsKeyChar(s[j])
    ensures r.Missing? ==> forall j :: i <= j < |s| ==> IsSpace(s[j]) || IsKeyChar(s[j])
    decreases |s| - i
  {
    if i == |s| then Missing
    else if IsSpace(s[i]) then KeyScan(s, i + 1)
    else if IsSeparator(s[i]) then At(i)
    else if IsKeyChar(s[i]) then KeyScan(s, i + 1)
    else Bad(s[i])
  }

  predicate HasExport(s: string) {
    |s| >= 6 && s[..6] == "export"
  }

  // "export" is dropped only when a blank follows it.
  function DropExport(src: string): (r: string)
    ensures IsSuffix(r, src)
    ensures r != [] ==> !IsSpace(r[0])
  {
    var s := TrimLeft(src, IsSpace);
    if HasExport(s) && |s| > 6 && IsSpace(s[6]) then
      var r := TrimLeft(s[6..], IsSpace);
      SuffixTransitive(r, s[6..], s);
      SuffixTransitive(r, s, src);
      r
    else s
  }

  // Without a separator the key is empty and the whole text is left as the value.
  function KeyName(src: string): (r: Result<(string, string)>)
    ensures r.Ok? ==> IsSuffix(r.value.1, src)
  {
    var s := DropExport(src);
    match KeyScan(s, 0)
    case Bad(c) => Err(UnexpectedCharacter(c, s))
    case At(i) =>
      var left := TrimLeft(s[i + 1..], IsSpace);
      SuffixTransitive(left, s[i + 1..], s);
      SuffixTransitive(left, s, src);
      Ok((TrimRight(s[..i], IsUnicodeSpace), left))
    case Missing => if s == [] then Err(ZeroLength) else Ok(("", s))
  }

  lemma {:induction false} ScanStep(s: string, i: nat)
    requires i < |s|
    ensures KeyScan(s, i) == if IsSpace(s[i]) then KeyScan(s, i + 1)
                             else if IsSeparator(s[i]) then At(i)
                             else if IsKeyChar(s[i]) then KeyScan(s, i + 1)
                             else Bad(s[i])
  {
    hide IsSpace, IsSeparator, IsKeyChar;
  }

  lemma {:induction false} ScanEnd(s: string)
    ensures KeyScan(s, |s|) == Missing
  {
  }

  // The "export" that may precede a key.
  method SkipExport(input: string) returns (src: string)
    ensures src == DropExport(input)
  {
    hide TrimLeft, IsSpace;
    src := TrimLeft(input, IsSpace);
    if HasExport(src) {
      var trimmed := src[6..];
      if trimmed != [] && IsSpace(trimmed[0]) {
        src := TrimLeft(trimmed, IsSpace);
      }
    }
  }

  method LocateKeyName(input: string) returns (r: Result<(string, string)>)
    ensures r == KeyName(input)
  {
    hide TrimLeft, TrimRight, DropExport, KeyScan, IsSpace, IsKeyChar, IsSeparator;
    var src := SkipExport(input);
    TrimLeftKeeps(src, IsSpace);
    var key, offset := "", 0;
    var i := 0;
    while i < |src|
      invariant 0 <= i <= |src|
      invariant key == "" && offset == 0
      invariant KeyScan(src, 0) == KeyScan(src, i)
    {
      ScanStep(src, i);
      if !IsSpace(src[i]) {
        if IsSeparator(src[i]) {
          key := src[..i];
          offset := i + 1;
          break;
        }
        if !IsKeyChar(src[i]) {
          return Err(UnexpectedCharacter(src[i], src));
        }
      }
      i := i + 1;
    }
    ScanEnd(src);
    if |src| == 0 {
      return Err(ZeroLength);
    }
    TrimRightOfNothing(IsUnicodeSpace);
    assert src[0..] == src;
    return Ok((TrimRight(key, IsUnicodeSpace), TrimLeft(src[offset..], IsSpace)));
  }

  lemma {:induction false} TrimRightOfNothing(p: char -> bool)
    ensures TrimRight("", p) == ""
  {
  }

  // ---- extractVarValue ----

  predicate IsQuote(c: char) {
    c == DQUOTE || c == '\''
  }

  // Where a line's trailing comment starts: the last # preceded by a blank, looking below n.
  function CommentStart(line: string, n: nat): (e: nat)
    requires n <= |line|
    ensures e <= |line|
    ensures (e == |line| && forall i :: 0 < i < n ==> line[i] != '#' || !IsSpace(line[i - 1]))
         || (0 < e < n && line[e] == '#' && IsSpace(line[e - 1])
             && forall i :: e < i < n ==> line[i] != '#' || !IsSpace(line[i - 1]))
  {
    if n <= 1 then |line|
    else if line[n - 1] == '#' && IsSpace(line[n - 2]) then n - 1
    else CommentStart(line, n - 1)
  }

  function Trim(s: string): string {
    TrimRight(TrimLeft(s, IsSpace), IsSpace)
  }

  function LineLength(src: string): (n: nat)
    ensures n <= |src|
    ensures n < |src| ==> IsLineEnd(src[n])
    ensures forall i :: 0 <= i < n ==> !IsLineEnd(src[i])
  {
    var e := IndexFunc(src, IsLineEnd);
    if e < 0 then |src| else e
  }

  function PlainText(src: string): string {
    var line := src[..LineLength(src)];
    Trim(line[..CommentStart(line, |line|)])
  }

  function PlainValue(src: string, vars: map<string, string>): (string, string) {
    (ExpandVariables(PlainText(src), vars), src[LineLength(src)..])
  }

  // The first quote at or after i that no backslash precedes.
  function ClosingQuote(src: string, i: nat): (r: int)
    requires src != [] && 1 <= i <= |src|
    ensures r == -1 || i <= r < |src|
    ensures 0 <= r ==> src[r] == src[0] && src[r - 1] != BACKSLASH
    ensures forall j :: i <= j < (if r < 0 then |src| else r) ==> src[j] != src[0] || src[j - 1] == BACKSLASH
    decreases |src| - i
  {
    if i == |src| then -1
    else if src[i] == src[0] && src[i - 1] != BACKSLASH then i
    else ClosingQuote(src, i + 1)
  }

  // The text between the quotes; leading and trailing quote characters are all trimmed.
  function Unquote(s: string, quote: char): string {
    TrimLeft(TrimRight(s, IsChar(quote)), IsChar(quote))
  }

  function QuotedValue(src: string, vars: map<string, string>): Result<(string, string)>
    requires src != []
  {
    var i := ClosingQuote(src, 1);
    if i < 0 then
      var e := IndexFunc(src, IsChar('\n'));
      Err(UnterminatedQuote(src[..if e < 0 then |src| else e]))
    else
      var raw := Unquote(src[..i], src[0]);
      Ok((if src[0] == DQUOTE then ExpandVariables(ExpandEscapes(raw), vars) else raw, src[i + 1..]))
  }

  function VarValue(src: string, vars: map<string, string>): (r: Result<(string, string)>)
    ensures r.Ok? ==> IsSuffix(r.value.1, src)
  {
    if src != [] && IsQuote(src[0]) then QuotedValue(src, vars) else Ok(PlainValue(src, vars))
  }

  lemma {:induction false} EmptyLine(src: string, vars: map<string, string>)
    requires LineLength(src) == 0
    ensures PlainValue(src, vars) == ("", src)
  {
  }

  method ExtractVarValue(src: string, vars: map<string, string>) returns (r: Result<(string, string)>)
    ensures r == VarValue(src, vars)
  {
    hide ExpandVariables, ExpandEscapes, Unquote, Trim, IndexFunc, IsSpace;
    if src == [] || !IsQuote(src[0]) {
      var endOfLine := IndexFunc(src, IsLineEnd);
      if endOfLine == -1 {
        endOfLine := |src|;
        if endOfLine == 0 {
          EmptyLine(src, vars);
          return Ok(("", ""));
        }
      }
      var line := src[..endOfLine];
      assert endOfLine == LineLength(src);
      var endOfVar := |line|;
      if endOfVar == 0 {
        EmptyLine(src, vars);
        return Ok(("", src[endOfLine..]));
      }
      var i := endOfVar - 1;
      while i >= 0
        invariant -1 <= i < |line|
        invariant endOfVar == |line|
        invariant CommentStart(line, |line|) == CommentStart(line, i + 1)
      {
        if line[i] == '#' && i > 0 {
          if IsSpace(line[i - 1]) {
            endOfVar := i;
            break;
          }
        }
        i := i - 1;
      }
      var trimmed := Trim(line[..endOfVar]);
      assert trimmed == PlainText(src);
      return Ok((ExpandVariables(trimmed, vars), src[endOfLine..]));
    }
    var quote := src[0];
    var i := 1;
    while i < |src|
      invariant 1 <= i <= |src|
      invariant ClosingQuote(src, 1) == ClosingQuote(src, i)
    {
      if src[i] == quote && src[i - 1] != BACKSLASH {
        var value := Unquote(src[..i], quote);
        if quote == DQUOTE {
          value := ExpandVariables(ExpandEscapes(value), vars);
        }
        return Ok((value, src[i + 1..]));
      }
      i := i + 1;
    }
    var valEndIndex := IndexFunc(src, IsChar('\n'));
    if valEndIndex == -1 {
      valEndIndex := |src|;
    }
    return Err(UnterminatedQuote(src[..valEndIndex]));
  }

  // ---- parseBytes ----

  datatype Statement = End | Fail(error: Error) | Bind(key: string, value: string, rest: string)

  function NextStatement(src: string, vars: map<string, string>): Statement {
    match StatementStart(src)
    case None => End
    case Some(s) =>
      match KeyName(s)
      case Err(e) => Fail(e)
      case Ok((key, left)) =>
        match VarValue(left, vars)
        case Err(e) => Fail(e)
        case Ok((value, rest)) => Bind(key, value, rest)
  }

  // A key consumes text, or else a value starts where the statement did.
  lemma {:induction false} KeyNameProgress(s: string)
    requires s != [] && KeyName(s).Ok?
    ensures var left := KeyName(s).value.1;
            |left| < |s| || (left != [] && !IsLineEnd(left[0]) && !IsQuote(left[0]))
  {
    var d := DropExport(s);
    if KeyScan(d, 0).Missing? {
      assert IsKeyChar(d[0]);
    }
  }

  lemma {:induction false} VarValueProgress(left: string, vars: map<string, string>)
    requires VarValue(left, vars).Ok?
    requires left != [] && !IsLineEnd(left[0]) && !IsQuote(left[0])
    ensures |VarValue(left, vars).value.1| < |left|
  {
  }

  /** Progress: every accepted statement leaves a strictly shorter suffix, also when it has
      no separator, an empty value or a quoted value. */
  lemma {:induction false} StatementProgress(src: string, vars: map<string, string>)
    requires NextStatement(src, vars).Bind?
    ensures IsSuffix(NextStatement(src, vars).rest, src)
    ensures |NextStatement(src, vars).rest| < |src|
  {
    var s := StatementStart(src).value;
    var left := KeyName(s).value.1;
    var rest := VarValue(left, vars).value.1;
    SuffixTransitive(rest, left, s);
    SuffixTransitive(rest, s, src);
    KeyNameProgress(s);
    if |left| == |s| {
      VarValueProgress(left, vars);
    }
  }

  function ParseFrom(src: string, out: map<string, string>): (map<string, string>, Option<Error>)
    decreases |src|
  {
    match NextStatement(src, out)
    case End => (out, None)
    case Fail(e) => (out, Some(e))
    case Bind(key, value, rest) => StatementProgress(src, out); ParseFrom(rest, out[key := value])
  }

  function Unmarshalled(src: string): (map<string, string>, Option<Error>) {
    ParseFrom(NormalizeLineEnds(src), map[])
  }

  method ParseBytes(src: string, vars: map<string, string>) returns (out: map<string, string>, err: Option<Error>)
    ensures (out, err) == ParseFrom(NormalizeLineEnds(src), vars)
  {
    out := vars;
    var cutset := NormalizeLineEnds(src);
    while true
      invariant ParseFrom(cutset, out) == ParseFrom(NormalizeLineEnds(src), vars)
      decreases |cutset|
    {
      var start := StatementStart(cutset);
      if start.None? {
        return out, None;
      }
      var name := LocateKeyName(start.value);
      if name.Err? {
        return out, Some(name.error);
      }
      var (key, left) := name.value;
      var extracted := ExtractVarValue(left, out);
      if extracted.Err? {
        return out, Some(extracted.error);
      }
      var (value, rest) := extracted.value;
      StatementProgress(cutset, out);
      out := out[key := value];
      cutset := rest;
    }
  }

  // On an error the bindings made so far are returned with it.
  method UnmarshalBytes(src: string) returns (out: map<string, string>, err: Option<Error>)
    ensures (out, err) == Unmarshalled(src)
  {
    out, err := ParseBytes(src, map[]);
  }
}

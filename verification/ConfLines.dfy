/** Configuration text as conf2sql.pl reads it, line by line. */
module ConfLines {
  import opened Prelude
  import opened CStrings
  import opened Document

  /** An input file: its newline-terminated lines, and what follows the last newline. */
  datatype File = File(lines: seq<string>, tail: string)

  // ----- characters and blanks

  predicate IsSpace(c: char) {
    c == ' ' || c == '\t' || c == '\n' || c == '\r' || c == '\U{0B}' || c == '\U{0C}'
  }

  predicate NoSpace(s: string) { forall c :: c in s ==> !IsSpace(c) }

  function TrimLeft(s: string): string {
    if s != "" && IsSpace(s[0]) then TrimLeft(s[1..]) else s
  }

  function TrimRight(s: string): string {
    if s != "" && IsSpace(s[|s| - 1]) then TrimRight(s[..|s| - 1]) else s
  }

  function Trim(s: string): string { TrimRight(TrimLeft(s)) }

  /** The longest blank-free prefix. */
  function Word(s: string): (w: string)
    ensures w <= s && NoSpace(w)
    ensures |w| < |s| ==> IsSpace(s[|w|])
  {
    if s == "" || IsSpace(s[0]) then "" else [s[0]] + Word(s[1..])
  }

  predicate IsComment(raw: string) { TrimLeft(raw) != "" && TrimLeft(raw)[0] == '#' }

  predicate IsBlank(raw: string) { TrimLeft(raw) == "" }

  predicate Continues(line: string) { line != "" && line[|line| - 1] == '\\' }

  // ----- logical lines

  /** The next physical line; an exhausted file reads as an empty one. */
  function NextLine(f: File): string {
    if f.lines != [] then f.lines[0] else f.tail
  }

  function Advance(f: File): (g: File)
    ensures |g.lines| <= |f.lines|
    ensures f.lines == [] ==> |g.tail| <= |f.tail| && (f.tail != "" ==> g.tail == "")
    ensures f.lines != [] ==> |g.lines| < |f.lines|
  {
    if f.lines != [] then File(f.lines[1..], f.tail) else File([], "")
  }

  /** Join continuation lines: the mark is dropped and the trimmed next line appended. */
  function Joined(line: string, f: File): (r: (string, File))
    ensures |r.1.lines| <= |f.lines|
    decreases |f.lines|, |f.tail|, |line|
  {
    if Continues(line) then Joined(line[..|line| - 1] + Trim(NextLine(f)), Advance(f)) else (line, f)
  }

  /** What the main loop hands to the tag tests; an unterminated last line ends the loop unread. */
  function Logical(f: File): seq<string>
    decreases |f.lines|
  {
    if f.lines == [] then []
    else if IsComment(f.lines[0]) || IsBlank(f.lines[0]) then Logical(Advance(f))
    else
      var r := Joined(Trim(f.lines[0]), Advance(f));
      [r.0] + Logical(r.1)
  }

  // ----- the three patterns

  /**
   * The pattern <(\S+)(\s+)?(.*)?>.* with \S+ tried from `n` characters downwards: the type, and
   * the value up to the last '>'.
   */
  function MatchOpen(line: string, n: nat): Option<(string, string)>
    requires n < |line|
  {
    if n == 0 then None
    else
      var rest := TrimLeft(line[1 + n..]);
      if '>' in rest then Some((line[1..1 + n], rest[..LastIndexOf(rest, '>')])) else MatchOpen(line, n - 1)
  }

  /** A tag that does not match its pattern leaves the captures undefined, written "" here. */
  function OpenOf(line: string): Token
    requires |line| > 0
  {
    match MatchOpen(line, |Word(line[1..])|)
    case Some((typ, value)) => Open(typ, value)
    case None => Open("", "")
  }

  /** The pattern </(\S+).*?>$. */
  function CloseOf(line: string): Token
    requires |line| >= 2
  {
    var word := Word(line[2..]);
    if word == "" || line[|line| - 1] != '>' then Close("")
    else if 2 + |word| == |line| then Close(word[..|word| - 1])
    else Close(word)
  }

  /** The pattern (\S+)\s+(.*), or the whole line as a name without value. */
  function NameValueOf(line: string): Token {
    var word := Word(line);
    if word == "" || |word| == |line| then Dir(Directive(line, ""))
    else Dir(Directive(word, TrimLeft(line[|word|..])))
  }

  function Classify(line: string): Token {
    if |line| >= 2 && line[0] == '<' && line[1] != '/' then OpenOf(line)
    else if |line| >= 2 && line[0] == '<' then CloseOf(line)
    else NameValueOf(line)
  }

  function Tokens(f: File): seq<Token> { Map(Classify, Logical(f)) }

  // ----- text and lines

  function Split(text: string): File {
    if text == "" then File([], "")
    else
      var f := Split(text[1..]);
      if text[0] == '\n' then File([""] + f.lines, f.tail)
      else if f.lines == [] then File([], [text[0]] + f.tail)
      else File([[text[0]] + f.lines[0]] + f.lines[1..], f.tail)
  }

  function Flatten(lines: seq<string>): string {
    if lines == [] then "" else lines[0] + Flatten(lines[1..])
  }

  // ----- which lines read back as they were written

  predicate Trimmed(s: string) {
    s == "" || (!IsSpace(s[0]) && !IsSpace(s[|s| - 1]))
  }

  /** A directive that one line of text can carry. */
  predicate PlainDirective(d: Directive) {
    && d.name != "" && NoSpace(d.name) && d.name[0] != '#' && (d.name[0] != '<' || d == Directive("<", ""))
    && Trimmed(d.value) && '\n' !in d.value
    && !Continues(if d.value == "" then d.name else d.value)
  }

  /** A context header that one line of text can carry; one that was not recognised has no parts. */
  predicate PlainHeader(typ: string, value: string) {
    if typ == "" then value == ""
    else NoSpace(typ) && typ[0] != '/' && (value != "" ==> !IsSpace(value[0])) && '\n' !in value
  }

  predicate PlainToken(t: Token) {
    match t
    case Open(typ, value) => PlainHeader(typ, value)
    case Close(typ) => PlainHeader(typ, "")
    case Dir(d) => PlainDirective(d)
  }

  lemma {:induction false} TrimLeftNone(s: string)
    requires s == "" || !IsSpace(s[0])
    ensures TrimLeft(s) == s
  {
  }

  lemma {:induction false} WordBefore(w: string, rest: string)
    requires NoSpace(w) && (rest == "" || IsSpace(rest[0]))
    ensures Word(w + rest) == w
  {
    if w == "" {
      assert w + rest == rest;
    } else {
      assert (w + rest)[1..] == w[1..] + rest;
      WordBefore(w[1..], rest);
    }
  }

  /** The text of a token without the newline. */
  function Bare(t: Token): string { Render(t)[..|Render(t)| - 1] }

  lemma {:induction false} BareLine(t: Token)
    ensures Render(t) == Bare(t) + "\n"
    ensures match t
            case Open(typ, value) => Bare(t) == "<" + typ + (if |value| > 0 then " " + value else "") + ">"
            case Close(typ) => Bare(t) == "</" + typ + ">"
            case Dir(d) => Bare(t) == d.name + " " + d.value
  {
  }

  lemma {:induction false} MatchAt(line: string, n: nat, rest: string, i: nat)
    requires 0 < n < |line| && TrimLeft(line[1 + n..]) == rest
    requires i < |rest| && rest[i] == '>' && forall j :: i < j < |rest| ==> rest[j] != '>'
    ensures MatchOpen(line, n) == Some((line[1..1 + n], rest[..i]))
  {
  }

  lemma {:induction false} MatchSkips(line: string, n: nat)
    requires 0 < n < |line| && '>' !in TrimLeft(line[1 + n..])
    ensures MatchOpen(line, n) == MatchOpen(line, n - 1)
  {
  }

  lemma {:induction false} MatchPlain(typ: string)
    requires typ != "" && NoSpace(typ)
    ensures OpenOf("<" + typ + ">") == Open(typ, "")
  {
    var line, n := "<" + typ + ">", |typ|;
    assert line[1..] == (typ + ">") + "";
    WordBefore(typ + ">", "");
    assert line[1 + (n + 1)..] == "";
    MatchSkips(line, n + 1);
    assert line[1..1 + n] == typ;
    assert line[1 + n..] == ">";
    MatchAt(line, n, ">", 0);
  }

  lemma {:induction false} MatchValued(typ: string, value: string)
    requires typ != "" && NoSpace(typ) && value != "" && !IsSpace(value[0])
    ensures OpenOf("<" + typ + " " + value + ">") == Open(typ, value)
  {
    var line, n, after := "<" + typ + " " + value + ">", |typ|, " " + value + ">";
    assert line[1..] == typ + after;
    WordBefore(typ, after);
    assert line[1..1 + n] == typ;
    assert line[1 + n..] == after;
    var rest := value + ">";
    assert after[1..] == rest && TrimLeft(after) == TrimLeft(rest);
    TrimLeftNone(rest);
    MatchAt(line, n, rest, |value|);
    assert rest[..|value|] == value;
  }

  /** A tag without a type reads as one. */
  lemma {:induction false} EmptyTagReadsBack()
    ensures Bare(Open("", "")) == "<>" && Classify("<>") == Open("", "")
    ensures Bare(Close("")) == "</>" && Classify("</>") == Close("")
  {
    BareLine(Open("", ""));
    BareLine(Close(""));
    WordBefore(">", "");
    assert ">" + "" == ">" == "<>"[1..] == "</>"[2..];
    MatchSkips("<>", 1);
  }

  lemma {:induction false} OpenReadsBack(typ: string, value: string)
    requires PlainHeader(typ, value)
    ensures Classify(Bare(Open(typ, value))) == Open(typ, value)
  {
    var line := Bare(Open(typ, value));
    BareLine(Open(typ, value));
    if typ == "" {
      EmptyTagReadsBack();
    } else if value == "" {
      assert line[1] == typ[0];
      assert line == "<" + typ + ">";
      MatchPlain(typ);
    } else {
      assert line[1] == typ[0];
      assert line == "<" + typ + " " + value + ">";
      MatchValued(typ, value);
    }
  }

  lemma {:induction false} CloseReadsBack(typ: string)
    requires PlainHeader(typ, "")
    ensures Classify(Bare(Close(typ))) == Close(typ)
  {
    var line := Bare(Close(typ));
    BareLine(Close(typ));
    assert line[2..] == (typ + ">") + "";
    if typ == "" {
      EmptyTagReadsBack();
    } else {
      WordBefore(typ + ">", "");
      assert (typ + ">")[..|typ|] == typ;
    }
  }

  /** The trimmed text of a directive line. */
  function DirText(d: Directive): string { if d.value == "" then d.name else d.name + " " + d.value }

  lemma {:induction false} NameReadsBack(name: string)
    requires name != "" && NoSpace(name) && (name[0] != '<' || |name| == 1)
    ensures TrimRight(name + " ") == name
    ensures Classify(name) == Dir(Directive(name, ""))
  {
  }

  lemma {:induction false} PairReadsBack(name: string, value: string)
    requires name != "" && NoSpace(name) && name[0] != '<' && value != "" && Trimmed(value)
    ensures TrimRight(name + " " + value) == name + " " + value
    ensures Classify(name + " " + value) == Dir(Directive(name, value))
  {
    var line, after := name + " " + value, " " + value;
    assert line[|line| - 1] == value[|value| - 1];
    assert line == name + after;
    WordBefore(name, after);
    assert line[|name|..] == after && after[1..] == value;
    assert TrimLeft(after) == TrimLeft(value);
    TrimLeftNone(value);
  }

  lemma {:induction false} DirectiveReadsBack(d: Directive)
    requires PlainDirective(d)
    ensures Trim(Bare(Dir(d))) == DirText(d) && TrimLeft(Bare(Dir(d))) == Bare(Dir(d))
    ensures Classify(DirText(d)) == Dir(d)
  {
    BareLine(Dir(d));
    assert Bare(Dir(d))[0] == d.name[0];
    TrimLeftNone(Bare(Dir(d)));
    if d.value == "" {
      assert d.name + " " + d.value == d.name + " ";
      NameReadsBack(d.name);
    } else {
      PairReadsBack(d.name, d.value);
    }
  }

  /** What the main loop reads for a plain token. */
  function Normal(t: Token): string {
    match t
    case Dir(d) => DirText(d)
    case _ => Bare(t)
  }

  lemma {:induction false} PlainLine(t: Token)
    requires PlainToken(t)
    ensures Trim(Bare(t)) == Normal(t) && Classify(Normal(t)) == t && !Continues(Normal(t))
    ensures !IsComment(Bare(t)) && !IsBlank(Bare(t))
  {
    BareLine(t);
    match t
    case Dir(d) => DirectiveReadsBack(d);
    case Open(typ, value) =>
      OpenReadsBack(typ, value);
      TagTrimmed(Bare(t));
    case Close(typ) =>
      CloseReadsBack(typ);
      TagTrimmed(Bare(t));
  }

  lemma {:induction false} TagTrimmed(line: string)
    requires |line| >= 2 && line[0] == '<' && line[|line| - 1] == '>'
    ensures Trim(line) == line && !Continues(line) && !IsComment(line) && !IsBlank(line)
  {
  }

  lemma {:induction false} LogicalOfPlain(ts: seq<Token>)
    requires forall t :: t in ts ==> PlainToken(t)
    ensures Tokens(File(Map(Bare, ts), "")) == ts
  {
    if ts != [] {
      var f := File(Map(Bare, ts), "");
      LogicalOfPlain(ts[1..]);
      PlainLine(ts[0]);
      assert Advance(f) == File(Map(Bare, ts[1..]), "");
      assert Logical(f) == [Normal(ts[0])] + Logical(Advance(f));
      MapConcat(Classify, [Normal(ts[0])], Logical(Advance(f)));
      assert Map(Classify, [Normal(ts[0])]) == [ts[0]];
    }
  }

  lemma {:induction false} SplitLine(line: string, rest: string)
    requires '\n' !in line
    ensures Split(line + "\n" + rest) == File([line] + Split(rest).lines, Split(rest).tail)
  {
    var text := line + "\n" + rest;
    if line == "" {
      assert text[1..] == rest;
    } else {
      assert text[1..] == line[1..] + "\n" + rest;
      SplitLine(line[1..], rest);
      assert [text[0]] + line[1..] == line;
    }
  }

  /** A file as splitting a text yields it. */
  predicate OneLine(f: File) {
    (forall raw :: raw in f.lines ==> '\n' !in raw) && '\n' !in f.tail
  }

  lemma {:induction false} SplitOneLine(text: string)
    ensures OneLine(Split(text))
  {
    if text != "" {
      SplitOneLine(text[1..]);
    }
  }

  /** A token whose line has no newline inside. */
  predicate OneLined(t: Token) { '\n' !in Bare(t) }

  lemma {:induction false} PlainOneLined(t: Token)
    requires PlainToken(t)
    ensures OneLined(t)
  {
    BareLine(t);
  }

  lemma {:induction false} SplitRendered(ts: seq<Token>)
    requires forall t :: t in ts ==> OneLined(t)
    ensures Split(Flatten(RenderAll(ts))) == File(Map(Bare, ts), "")
  {
    if ts != [] {
      SplitRendered(ts[1..]);
      assert RenderAll(ts)[1..] == RenderAll(ts[1..]);
      BareLine(ts[0]);
      assert OneLined(ts[0]);
      SplitLine(Bare(ts[0]), Flatten(RenderAll(ts[1..])));
      assert Map(Bare, ts) == [Bare(ts[0])] + Map(Bare, ts[1..]);
    }
  }

  /** The emitted text of plain tokens reads back as those tokens. */
  lemma {:induction false} TextReadsBack(ts: seq<Token>)
    requires forall t :: t in ts ==> PlainToken(t)
    ensures Tokens(Split(Flatten(RenderAll(ts)))) == ts
  {
    forall t | t in ts ensures OneLined(t) {
      PlainOneLined(t);
    }
    SplitRendered(ts);
    LogicalOfPlain(ts);
  }
}

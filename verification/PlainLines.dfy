/** Which directives and context headers survive being written as a line and read back. */
module PlainLines {
  import opened Prelude
  import opened Document
  import opened ConfLines
  import opened ConfParser

  lemma {:induction false} TrimLeftSuffix(s: string)
    ensures |TrimLeft(s)| <= |s| && TrimLeft(s) == s[|s| - |TrimLeft(s)|..]
    ensures TrimLeft(s) != "" ==> !IsSpace(TrimLeft(s)[0])
  {
    if s != "" && IsSpace(s[0]) {
      TrimLeftSuffix(s[1..]);
    }
  }

  lemma {:induction false} TrimRightPrefix(s: string)
    ensures TrimRight(s) <= s
    ensures TrimRight(s) != "" ==> !IsSpace(TrimRight(s)[|TrimRight(s)| - 1])
    ensures s != "" && !IsSpace(s[0]) ==> TrimRight(s) != ""
  {
    if s != "" && IsSpace(s[|s| - 1]) {
      TrimRightPrefix(s[..|s| - 1]);
    }
  }

  /** A line the main loop does not skip, trimmed: it starts and ends without blanks. */
  lemma {:induction false} TrimmedLine(raw: string)
    requires !IsBlank(raw)
    ensures var t := Trim(raw);
            t != "" && !IsSpace(t[0]) && !IsSpace(t[|t| - 1]) && t[0] == TrimLeft(raw)[0]
    ensures '\n' !in raw ==> '\n' !in Trim(raw)
  {
    TrimLeftSuffix(raw);
    TrimRightPrefix(TrimLeft(raw));
  }

  lemma {:induction false} DirectiveLinePlain(line: string)
    requires line != "" && !IsSpace(line[0]) && !IsSpace(line[|line| - 1]) && line[0] != '#'
    requires '\n' !in line && !Continues(line) && Classify(line).Dir?
    ensures PlainDirective(Classify(line).dir)
  {
    var word, d := Word(line), Classify(line).dir;
    assert word != "" && word[0] == line[0];
    if |word| < |line| {
      var rest := line[|word|..];
      TrimLeftSuffix(rest);
      assert rest[|rest| - 1] == line[|line| - 1];
      TrimLeftNonEmpty(rest);
      assert d.value[|d.value| - 1] == line[|line| - 1];
    } else {
      assert word == line;
    }
  }

  lemma {:induction false} TrimLeftNonEmpty(s: string)
    requires s != "" && !IsSpace(s[|s| - 1])
    ensures TrimLeft(s) != "" && TrimLeft(s)[|TrimLeft(s)| - 1] == s[|s| - 1]
  {
    if IsSpace(s[0]) {
      TrimLeftNonEmpty(s[1..]);
    }
  }

  lemma {:induction false} MatchOpenPlain(line: string, n: nat)
    requires n < |line| && '\n' !in line && NoSpace(line[1..1 + n]) && MatchOpen(line, n).Some?
    ensures var m := MatchOpen(line, n).value;
            && m.0 != "" && m.0[0] == line[1] && NoSpace(m.0)
            && (m.1 != "" ==> !IsSpace(m.1[0])) && '\n' !in m.1
    decreases n
  {
    var rest := TrimLeft(line[1 + n..]);
    TrimLeftSuffix(line[1 + n..]);
    if '>' !in rest {
      assert line[1..1 + (n - 1)] == line[1..1 + n][..n - 1];
      MatchOpenPlain(line, n - 1);
    }
  }

  /** Whatever is read as an opening tag can be written back as one. */
  lemma {:induction false} TagPlain(line: string)
    requires '\n' !in line && Classify(line).Open?
    ensures PlainToken(Classify(line))
  {
    var n := |Word(line[1..])|;
    assert line[1..1 + n] == Word(line[1..]);
    if MatchOpen(line, n).Some? {
      MatchOpenPlain(line, n);
    }
  }

  /** Whatever the main loop reads from one line without a continuation mark can be written back. */
  lemma {:induction false} LinePlain(raw: string)
    requires '\n' !in raw && !IsComment(raw) && !IsBlank(raw) && !Continues(Trim(raw))
    ensures var t := Classify(Trim(raw)); !t.Close? ==> PlainToken(t)
  {
    var line := Trim(raw);
    TrimmedLine(raw);
    if Classify(line).Dir? {
      DirectiveLinePlain(line);
    } else if Classify(line).Open? {
      TagPlain(line);
    }
  }

  /** The line `raw`, read on its own, is the token `t`. */
  predicate ReadsAs(raw: string, t: Token) {
    !IsComment(raw) && !IsBlank(raw) && !Continues(Trim(raw)) && Classify(Trim(raw)) == t
  }

  /** A directive without newlines survives printing and reading exactly when it is plain. */
  lemma {:induction false} DirectiveSurvivesIff(d: Directive)
    requires '\n' !in d.name && '\n' !in d.value
    ensures ReadsAs(Bare(Dir(d)), Dir(d)) <==> PlainDirective(d)
  {
    BareLine(Dir(d));
    if PlainDirective(d) {
      PlainLine(Dir(d));
    }
    if ReadsAs(Bare(Dir(d)), Dir(d)) {
      LinePlain(Bare(Dir(d)));
    }
  }

  /** So does a context header. */
  lemma {:induction false} HeaderSurvivesIff(typ: string, value: string)
    requires '\n' !in typ && '\n' !in value
    ensures ReadsAs(Bare(Open(typ, value)), Open(typ, value)) <==> PlainHeader(typ, value)
  {
    BareLine(Open(typ, value));
    if PlainHeader(typ, value) {
      PlainLine(Open(typ, value));
    }
    if ReadsAs(Bare(Open(typ, value)), Open(typ, value)) {
      LinePlain(Bare(Open(typ, value)));
    }
  }

  // ----- whole documents

  /** Every directive and every header below the root satisfies `p`. */
  predicate BodyAll(p: Token -> bool, t: Tree)
    decreases t
  {
    && (forall d :: d in t.dirs ==> p(Dir(d)))
    && (forall k :: k in t.kids ==> p(Open(k.typ, k.value)) && BodyAll(p, k))
  }

  /** `p` accepts the closing tag of each opening tag it accepts. */
  ghost predicate Paired(p: Token -> bool) {
    forall typ, value :: p(Open(typ, value)) ==> p(Close(typ))
  }

  lemma {:induction false} PrintBodyAll(p: Token -> bool, t: Tree)
    requires BodyAll(p, t) && Paired(p)
    ensures forall x :: x in PrintBody(t) ==> p(x)
    decreases t, 1
  {
    PrintKidsAll(p, t.kids);
    forall x | x in DirTokens(t.dirs) ensures p(x) {
      var i :| 0 <= i < |t.dirs| && DirTokens(t.dirs)[i] == x;
      assert t.dirs[i] in t.dirs;
    }
  }

  lemma {:induction false} PrintKidsAll(p: Token -> bool, ts: seq<Tree>)
    requires (forall k :: k in ts ==> p(Open(k.typ, k.value)) && BodyAll(p, k)) && Paired(p)
    ensures forall x :: x in PrintAll(ts) ==> p(x)
    decreases ts, 0
  {
    if ts != [] {
      assert ts[0] in ts;
      PrintBodyAll(p, ts[0]);
      PrintKidsAll(p, ts[1..]);
    }
  }

  predicate PlainBody(t: Tree) { BodyAll(PlainToken, t) }

  predicate PlainTree(t: Tree) { PlainHeader(t.typ, t.value) && PlainBody(t) }

  predicate AllPlain(ts: seq<Token>) { forall t :: t in ts ==> PlainToken(t) }

  lemma {:induction false} PrintBodyPlain(t: Tree)
    requires PlainBody(t)
    ensures AllPlain(PrintBody(t))
  {
    PrintBodyAll(PlainToken, t);
  }

  /** The text of a printed tree. */
  function TextOf(t: Tree): string { Flatten(RenderAll(PrintBody(t))) }

  /** What the script makes of a text. */
  function Parsed(text: string): Option<Stack> { Run(START, Tokens(Split(text))) }

  /** Reading the printed text of a plain tree gives the tree back. */
  lemma {:induction false} TextRoundTrip(t: Tree)
    requires PlainBody(t)
    ensures Parsed(TextOf(t)) == Some(Stack(Frame("default", "", t.dirs, t.kids), []))
  {
    PrintBodyPlain(t);
    TextReadsBack(PrintBody(t));
    PrintedParses(t);
  }
}

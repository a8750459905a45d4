/** When a printed document reads back as it was, and when printing what was read is a normal form. */
module NormalForm {
  import opened Prelude
  import opened Document
  import opened ConfLines
  import opened ConfParser
  import opened PlainLines
  import opened ParsedTree
  import opened Spelling

  // ----- which trees read back

  lemma {:induction false} PlacesOneLined(line: string, n: nat)
    requires n < |line| && '\n' !in line && MatchOpen(line, n).Some?
    ensures '\n' !in MatchOpen(line, n).value.0 && '\n' !in MatchOpen(line, n).value.1
    decreases n
  {
    TrimLeftSuffix(line[1 + n..]);
    if '>' !in TrimLeft(line[1 + n..]) {
      PlacesOneLined(line, n - 1);
    }
  }

  lemma {:induction false} ClassifyOneLined(line: string)
    requires '\n' !in line
    ensures OneLined(Classify(line))
  {
    BareLine(Classify(line));
    if Classify(line).Open? {
      if MatchOpen(line, |Word(line[1..])|).Some? {
        PlacesOneLined(line, |Word(line[1..])|);
      }
    } else if Classify(line).Dir? {
      TrimLeftSuffix(line[|Word(line)|..]);
    }
  }

  /** A line as joining makes them: of one piece, without a mark, not starting with a blank. */
  predicate Whole(line: string) {
    '\n' !in line && !Continues(line) && (line == "" || !IsSpace(line[0]))
  }

  lemma {:induction false} TrimmedPiece(raw: string)
    ensures Trim(raw) == "" || !IsSpace(Trim(raw)[0])
    ensures '\n' !in raw ==> '\n' !in Trim(raw)
  {
    TrimLeftSuffix(raw);
    TrimRightPrefix(TrimLeft(raw));
  }

  lemma {:induction false} JoinedWhole(line: string, f: File)
    requires '\n' !in line && (line == "" || !IsSpace(line[0])) && OneLine(f)
    ensures Whole(Joined(line, f).0) && OneLine(Joined(line, f).1)
    decreases |f.lines|, |f.tail|, |line|
  {
    if Continues(line) {
      TrimmedPiece(NextLine(f));
      JoinedWhole(line[..|line| - 1] + Trim(NextLine(f)), Advance(f));
    }
  }

  lemma {:induction false} LogicalWhole(f: File)
    requires OneLine(f)
    ensures forall line :: line in Logical(f) ==> Whole(line)
    decreases |f.lines|
  {
    if f.lines != [] {
      TrimmedPiece(f.lines[0]);
      JoinedWhole(Trim(f.lines[0]), Advance(f));
      LogicalWhole(if IsComment(f.lines[0]) || IsBlank(f.lines[0]) then Advance(f)
                   else Joined(Trim(f.lines[0]), Advance(f)).1);
    }
  }

  lemma {:induction false} TokensOneLined(f: File)
    requires OneLine(f)
    ensures forall t :: t in Tokens(f) ==> OneLined(t)
  {
    LogicalWhole(f);
    forall t | t in Tokens(f) ensures OneLined(t) {
      var i :| 0 <= i < |Logical(f)| && Classify(Logical(f)[i]) == t;
      assert Logical(f)[i] in Logical(f);
      ClassifyOneLined(Logical(f)[i]);
    }
  }

  lemma {:induction false} OneLinedPaired()
    ensures Paired(OneLined)
  {
    forall typ, value | OneLined(Open(typ, value)) ensures OneLined(Close(typ)) {
      BareLine(Open(typ, value));
      BareLine(Close(typ));
    }
  }

  // ----- counting

  function Each(): Token -> nat { (t: Token) => 1 }

  /** The length of a directive's text. */
  function Weight(t: Token): nat { if t.Dir? then |DirText(t.dir)| else 0 }

  lemma {:induction false} TotalEach(ts: seq<Token>)
    ensures Total(Each(), ts) == |ts|
  {
    if ts != [] {
      TotalEach(ts[1..]);
    }
  }

  /** A line read alone holds no more directive text than its token, and less behind a lost mark. */
  lemma {:induction false} AloneWeight(line: string, raw: string, t: Token)
    requires OwnLine(line, raw, t)
    ensures Weight(Classify(line)) <= Weight(t)
    ensures Continues(Trim(raw)) ==> Weight(Classify(line)) < Weight(t)
  {
    var n: nat :| raw == Spaces(n) + Bare(t);
    TrimSpaces(n, Bare(t));
    if t.Dir? {
      TrimBound(t.dir);
      WeightBound(line);
    } else {
      TagAlone(t);
    }
  }

  lemma {:induction false} WeightBound(line: string)
    ensures Weight(Classify(line)) <= |line|
  {
    if Classify(line).Dir? {
      TextBound(line);
    }
  }

  lemma {:induction false} TagAlone(t: Token)
    requires !t.Dir?
    ensures Trim(Bare(t)) == Bare(t) && !Continues(Bare(t)) && !Classify(Bare(t)).Dir?
  {
    BareLine(t);
    TagTrimmed(Bare(t));
  }

  lemma {:induction false} TotalLess(w: Token -> nat, ts: seq<Token>, us: seq<Token>)
    requires |ts| == |us| && forall i :: 0 <= i < |ts| ==> w(ts[i]) <= w(us[i])
    ensures Total(w, ts) <= Total(w, us)
    ensures Total(w, ts) == Total(w, us) ==> forall i :: 0 <= i < |ts| ==> w(ts[i]) == w(us[i])
  {
    if ts != [] {
      TotalLess(w, ts[1..], us[1..]);
      assert forall i :: 1 <= i < |ts| ==> ts[i] == ts[1..][i - 1] && us[i] == us[1..][i - 1];
    }
  }

  /**
   * Lines that spell `ts` cannot be read as a tree that takes more lines or directive text than
   * `ts`; if they are read as one that takes as much, each line was read alone, so it is plain.
   */
  lemma {:induction false} SpelledOnlyPlain(lines: seq<string>, ts: seq<Token>, root: Frame)
    requires Spells(lines, ts) && OneLine(File(lines, ""))
    requires Run(START, Tokens(File(lines, ""))) == Some(Stack(root, []))
    requires |ts| <= |PrintBody(Seal(root))| && Total(Weight, ts) <= Total(Weight, PrintBody(Seal(root)))
    ensures PlainBody(Seal(root))
  {
    var f := File(lines, "");
    var read := Tokens(f);
    ParsedTotal(Each(), read, root);
    TotalEach(read);
    TotalEach(PrintBody(Seal(root)));
    SpelledLogical(lines, ts);
    ParsedTotal(Weight, read, root);
    forall i | 0 <= i < |ts|
      ensures Weight(read[i]) <= Weight(ts[i])
      ensures Weight(read[i]) == Weight(ts[i]) ==> read[i].Close? || PlainToken(read[i])
    {
      assert ReadAlone(Logical(f)[i], lines, ts[i]);
      var raw :| raw in lines && OwnLine(Logical(f)[i], raw, ts[i]);
      AloneWeight(Logical(f)[i], raw, ts[i]);
      if !Continues(Trim(raw)) {
        LinePlain(raw);
      }
    }
    TotalLess(Weight, read, ts);
    ParsedAll(PlainToken, read, root);
  }

  lemma {:induction false} ReadsBackOnlyPlain(t: Tree)
    requires Parsed(TextOf(t)) == Some(Stack(Frame("default", "", t.dirs, t.kids), []))
    ensures PlainBody(t)
  {
    var root, ts, g := Frame("default", "", t.dirs, t.kids), PrintBody(t), Split(TextOf(t));
    SplitOneLine(TextOf(t));
    TokensOneLined(g);
    ParsedAll(OneLined, Tokens(g), root);
    OneLinedPaired();
    PrintBodyAll(OneLined, t);
    SplitRendered(ts);
    BareSpells(ts);
    assert PrintBody(Seal(root)) == ts;
    SpelledOnlyPlain(g.lines, ts, root);
  }

  /** For every tree: its printed text reads back as the tree exactly when it is plain. */
  lemma {:induction false} TextReadsBackIff(t: Tree)
    ensures Parsed(TextOf(t)) == Some(Stack(Frame("default", "", t.dirs, t.kids), [])) <==> PlainBody(t)
  {
    if PlainBody(t) {
      TextRoundTrip(t);
    } else if Parsed(TextOf(t)) == Some(Stack(Frame("default", "", t.dirs, t.kids), [])) {
      ReadsBackOnlyPlain(t);
    }
  }

  // ----- printing what was read

  /**
   * A joined line that printing does not change for the reader. Joining does not trim again, so a
   * directive may end up empty, as a comment, or with blanks or a mark at its end.
   */
  predicate Settled(line: string) {
    Classify(line).Dir? ==>
      && line != "" && line[0] != '#' && !Continues(TrimRight(line))
      && (TrimRight(line) == line || TrimRight(line) == Word(line))
  }

  predicate Blanks(s: string) { forall i :: 0 <= i < |s| ==> IsSpace(s[i]) }

  lemma {:induction false} TrimLeftBlanks(s: string)
    ensures TrimLeft(s) == "" <==> Blanks(s)
  {
    if s != "" && IsSpace(s[0]) {
      TrimLeftBlanks(s[1..]);
    }
  }

  lemma {:induction false} TrimRightDrops(s: string)
    ensures TrimRight(s) <= s && Blanks(s[|TrimRight(s)|..])
  {
    if s != "" && IsSpace(s[|s| - 1]) {
      TrimRightDrops(s[..|s| - 1]);
    }
  }

  lemma {:induction false} TrimRightIs(s: string, k: nat)
    requires k <= |s| && Blanks(s[k..]) && (k > 0 ==> !IsSpace(s[k - 1]))
    ensures TrimRight(s) == s[..k]
  {
    if k < |s| {
      assert s[k..][|s| - 1 - k] == s[|s| - 1];
      TrimRightIs(s[..|s| - 1], k);
    }
  }

  lemma {:induction false} TrimRightIsWord(line: string)
    requires line != "" && !IsSpace(line[0])
    ensures TrimRight(line) == Word(line) <==> TrimLeft(line[|Word(line)|..]) == ""
  {
    var w := Word(line);
    TrimLeftBlanks(line[|w|..]);
    TrimRightDrops(line);
    assert w[|w| - 1] in w && w[|w| - 1] == line[|w| - 1];
    if Blanks(line[|w|..]) {
      TrimRightIs(line, |w|);
    }
  }

  lemma {:induction false} SettledIff(line: string)
    requires Whole(line)
    ensures Settled(line) <==> Classify(line).Close? || PlainToken(Classify(line))
  {
    if Classify(line).Open? {
      TagPlain(line);
    } else if Classify(line).Dir? && line != "" {
      var rest := line[|Word(line)|..];
      TrimRightIsWord(line);
      TrimLeftSuffix(rest);
      TrimRightDrops(line);
      SettledDirective(line);
    }
  }

  lemma {:induction false} SettledDirective(line: string)
    requires Whole(line) && line != "" && Classify(line).Dir?
    requires TrimRight(line) == Word(line) <==> TrimLeft(line[|Word(line)|..]) == ""
    ensures Settled(line) <==> PlainDirective(Classify(line).dir)
  {
    var w, rest := Word(line), line[|Word(line)|..];
    TrimLeftSuffix(rest);
    TrimRightDrops(line);
    assert w != "" && w[0] == line[0];
    if !IsSpace(line[|line| - 1]) {
      assert TrimRight(line) == line;
      DirectiveNoTrailing(line);
    } else {
      assert |w| < |line|;
      assert Classify(line).dir == Directive(w, TrimLeft(rest));
      assert w[0] in w && line[0] != '<';
      TrimRightPrefix(line);
      assert TrimRight(line) != line;
      if TrimLeft(rest) != "" {
        assert IsSpace(TrimLeft(rest)[|TrimLeft(rest)| - 1]);
        assert !Trimmed(TrimLeft(rest));
      }
    }
  }

  lemma {:induction false} DirectiveNoTrailing(line: string)
    requires Whole(line) && line != "" && Classify(line).Dir? && !IsSpace(line[|line| - 1])
    ensures line[0] != '#' <==> PlainDirective(Classify(line).dir)
  {
    assert Word(line)[0] == line[0];
    if line[0] != '#' {
      DirectiveLinePlain(line);
    }
  }

  lemma {:induction false} SettledLines(f: File)
    requires OneLine(f)
    ensures (forall line :: line in Logical(f) ==> Settled(line)) <==>
            forall t :: t in Tokens(f) ==> t.Close? || PlainToken(t)
  {
    LogicalWhole(f);
    forall i | 0 <= i < |Logical(f)|
      ensures Settled(Logical(f)[i]) <==> Tokens(f)[i].Close? || PlainToken(Tokens(f)[i])
    {
      assert Logical(f)[i] in Logical(f);
      SettledIff(Logical(f)[i]);
    }
    if forall line :: line in Logical(f) ==> Settled(line) {
      forall t | t in Tokens(f) ensures t.Close? || PlainToken(t) {
        var i :| 0 <= i < |Tokens(f)| && Tokens(f)[i] == t;
        assert Logical(f)[i] in Logical(f);
      }
    } else {
      var line :| line in Logical(f) && !Settled(line);
      var i :| 0 <= i < |Logical(f)| && Logical(f)[i] == line;
      assert Tokens(f)[i] in Tokens(f);
    }
  }

  lemma {:induction false} RootIsDefault(ts: seq<Token>)
    requires Run(START, ts).Some? && Run(START, ts).value.outer == []
    ensures Run(START, ts).value.ctx.typ == "default" && Run(START, ts).value.ctx.value == ""
  {
    ParsesIff(ts);
  }

  /**
   * For every text of a complete document: printing what was read gives a text that reads as the
   * same tree, with directives before sub-contexts, exactly when all its joined lines are settled.
   */
  lemma {:induction false} NormalFormIff(text: string, root: Frame)
    requires Parsed(text) == Some(Stack(root, []))
    ensures Parsed(TextOf(Seal(root))) == Parsed(text) <==> forall line :: line in Logical(Split(text)) ==> Settled(line)
    ensures Parsed(TextOf(Seal(root))) == Parsed(text) <==> PlainBody(Seal(root))
  {
    var f := Split(text);
    SplitOneLine(text);
    RootIsDefault(Tokens(f));
    TextReadsBackIff(Seal(root));
    ParsedAll(PlainToken, Tokens(f), root);
    SettledLines(f);
  }

  lemma {:induction false} AloneSettled(f: File)
    requires OneLine(f)
    requires forall raw :: raw in f.lines && !IsComment(raw) ==> !Continues(Trim(raw))
    ensures forall line :: line in Logical(f) ==> Settled(line)
    decreases |f.lines|
  {
    if f.lines != [] {
      var raw, g := f.lines[0], Advance(f);
      AloneSettled(g);
      if !IsComment(raw) && !IsBlank(raw) {
        TrimmedLine(raw);
        LinePlain(raw);
        SettledIff(Trim(raw));
        assert Logical(f) == [Trim(raw)] + Logical(g);
      }
    }
  }

  /** In particular when no line but comments ends in a continuation mark. */
  lemma {:induction false} NormalForm(text: string, root: Frame)
    requires Parsed(text) == Some(Stack(root, []))
    requires forall raw :: raw in Split(text).lines && !IsComment(raw) ==> !Continues(Trim(raw))
    ensures Parsed(TextOf(Seal(root))) == Parsed(text)
  {
    SplitOneLine(text);
    AloneSettled(Split(text));
    NormalFormIff(text, root);
  }

  lemma {:induction false} SpacedDirective(name: string, value: string)
    requires name != "" && NoSpace(name) && name[0] != '<' && value != "" && !IsSpace(value[0])
    ensures Classify(name + " " + value) == Dir(Directive(name, value))
  {
    var line, after := name + " " + value, " " + value;
    assert line == name + after;
    WordBefore(name, after);
    assert line[|name|..] == after && after[1..] == value;
    TrimLeftNone(value);
    assert TrimLeft(after) == TrimLeft(value);
  }

  /** A trimmed line that ends in a mark, and an empty line behind it. */
  lemma {:induction false} MarkedLine(line: string)
    requires line != "" && !IsSpace(line[0]) && line[0] != '#' && !Continues(line)
    ensures Logical(File([line + "\\", ""], "")) == [line]
  {
    var marked := line + "\\";
    var f, g := File([marked, ""], ""), File([""], "");
    TrimLeftNone(marked);
    assert TrimRight(marked) == marked;
    assert marked[..|marked| - 1] == line && line + Trim("") == line;
    assert Advance(f) == g && Advance(g) == File([], "") && NextLine(g) == "";
    assert Joined(line, File([], "")) == (line, File([], ""));
    assert Joined(marked, g) == (line, File([], ""));
    assert Logical(File([], "")) == [];
  }

  lemma {:induction false} MarkedText(line: string)
    requires '\n' !in line
    ensures Split(line + "\n" + "\n") == File([line, ""], "")
  {
    SplitLine(line, "\n");
    SplitLine("", "");
    assert "" + "\n" + "" == "\n";
  }

  lemma {:induction false} UnsettledChanges(text: string, d: Directive)
    requires Tokens(Split(text)) == [Dir(d)] && !PlainDirective(d)
    ensures var root := Frame("default", "", [d], []);
            && Parsed(text) == Some(Stack(root, []))
            && Parsed(TextOf(Seal(root))) != Parsed(text)
  {
    var t := Tree("default", "", [d], []);
    assert PrintBody(t) == DirTokens([d]) == [Dir(d)];
    PrintedParses(t);
    assert d in t.dirs && !PlainToken(Dir(d));
    NormalFormIff(text, Frame("default", "", [d], []));
  }

  /** The text of a directive whose line is continued by an empty line. */
  function MarkedBlank(d: Directive): string {
    d.name + " " + (d.value + " ") + "\\" + "\n" + "\n"
  }

  /** A mark before an empty line leaves a blank behind the value that printing does not keep. */
  lemma {:induction false} MarkKeepsBlank(d: Directive)
    requires PlainDirective(d) && d.name[0] != '<' && d.value != ""
    ensures var root := Frame("default", "", [Directive(d.name, d.value + " ")], []);
            && Parsed(MarkedBlank(d)) == Some(Stack(root, []))
            && Parsed(TextOf(Seal(root))) != Parsed(MarkedBlank(d))
  {
    var value := d.value + " ";
    var line := d.name + " " + value;
    MarkedText(line + "\\");
    MarkedLine(line);
    SpacedDirective(d.name, value);
    assert value[|value| - 1] == ' ';
    UnsettledChanges(MarkedBlank(d), Directive(d.name, value));
  }

  /** For instance `Umask 022 \`. */
  lemma {:induction false} UmaskChanges()
    ensures var d := Directive("Umask", "022");
            var root := Frame("default", "", [Directive("Umask", d.value + " ")], []);
            && Parsed(MarkedBlank(d)) == Some(Stack(root, []))
            && Parsed(TextOf(Seal(root))) != Parsed(MarkedBlank(d))
  {
    MarkKeepsBlank(Directive("Umask", "022"));
  }
}

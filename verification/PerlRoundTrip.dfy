/** conf2sql.pl reads what sql2conf.pl prints. */
module PerlRoundTrip {
  import opened Prelude
  import opened Document
  import opened ConfLines
  import opened ConfParser
  import opened PlainLines
  import opened ParsedTree
  import opened Spelling
  import opened NormalForm
  import opened Sql2Conf
  import opened Agreement

  function Ended(line: string): string { line + "\n" }

  /** The text that sql2conf.pl prints. */
  function ExportText(t: Tree): string { Flatten(Map(Ended, ShowConf(t))) }

  lemma {:induction false} SplitLines(lines: seq<string>)
    requires OneLine(File(lines, ""))
    ensures Split(Flatten(Map(Ended, lines))) == File(lines, "")
  {
    if lines != [] {
      SplitLines(lines[1..]);
      assert Map(Ended, lines)[1..] == Map(Ended, lines[1..]);
      SplitLine(lines[0], Flatten(Map(Ended, lines[1..])));
    }
  }

  lemma {:induction false} SpacesOneLined(n: nat)
    ensures '\n' !in Spaces(n)
  {
    if n > 0 {
      SpacesOneLined(n - 1);
    }
  }

  lemma {:induction false} SpelledOneLined(lines: seq<string>, ts: seq<Token>)
    requires Spells(lines, ts) && forall t :: t in ts ==> OneLined(t)
    ensures OneLine(File(lines, ""))
    decreases |lines|
  {
    if lines != [] {
      if lines[0] == "" && Spells(lines[1..], ts) {
        SpelledOneLined(lines[1..], ts);
      } else {
        SpelledOneLined(lines[1..], ts[1..]);
        var n: nat :| lines[0] == Spaces(n) + Bare(ts[0]);
        SpacesOneLined(n);
        assert OneLined(ts[0]);
      }
      assert forall raw :: raw in lines ==> raw == lines[0] || raw in lines[1..];
    }
  }

  /** Dropping values keeps what holds of a tag with and without its value. */
  lemma {:induction false} KeptAll(p: Token -> bool, ts: seq<Token>)
    requires (forall t :: t in ts ==> p(t)) && forall typ, value :: p(Open(typ, value)) ==> p(Open(typ, ""))
    ensures forall t :: t in Map(Kept, ts) ==> p(t)
  {
    forall x | x in Map(Kept, ts) ensures p(x) {
      var i :| 0 <= i < |ts| && Map(Kept, ts)[i] == x;
      assert ts[i] in ts;
    }
  }

  lemma {:induction false} KeptOneLined(ts: seq<Token>)
    requires forall t :: t in ts ==> OneLined(t)
    ensures forall t :: t in Map(Kept, ts) ==> OneLined(t)
  {
    forall typ, value | OneLined(Open(typ, value)) ensures OneLined(Open(typ, "")) {
      BareLine(Open(typ, value));
      BareLine(Open(typ, ""));
    }
    KeptAll(OneLined, ts);
  }

  /** The text of a tree without newlines splits into the lines that were printed. */
  lemma {:induction false} ExportSplits(t: Tree)
    requires BodyAll(OneLined, t)
    ensures OneLine(File(ShowConf(t), "")) && Split(ExportText(t)) == File(ShowConf(t), "")
  {
    OneLinedPaired();
    PrintBodyAll(OneLined, t);
    KeptOneLined(PrintBody(t));
    ConfSpelled(t);
    SpelledOneLined(ShowConf(t), Map(Kept, PrintBody(t)));
    SplitLines(ShowConf(t));
  }

  lemma {:induction false} PlainBodyOneLined(t: Tree)
    requires PlainBody(t)
    ensures BodyAll(OneLined, t)
  {
    PrintBodyPlain(t);
    forall x | x in PrintBody(t) ensures OneLined(x) {
      PlainOneLined(x);
    }
    PrintedAll(OneLined, t);
  }

  /** Reading the exported text gives the printed tree, with values false in Perl dropped. */
  lemma {:induction false} ExportReads(t: Tree)
    requires PlainBody(t)
    ensures Tokens(Split(ExportText(t))) == Map(Kept, PrintBody(t))
  {
    PlainBodyOneLined(t);
    ExportSplits(t);
    ConfSpelled(t);
    PrintBodyPlain(t);
    KeptAll(PlainToken, PrintBody(t));
    SpelledReads(ShowConf(t), Map(Kept, PrintBody(t)));
  }

  lemma {:induction false} KeptWeight(ts: seq<Token>)
    ensures Total(Weight, Map(Kept, ts)) == Total(Weight, ts)
  {
    if ts != [] {
      KeptWeight(ts[1..]);
      assert Map(Kept, ts)[1..] == Map(Kept, ts[1..]);
    }
  }

  lemma {:induction false} ExportReadsOnlyPlain(t: Tree)
    requires Parsed(ExportText(t)) == Some(Stack(Frame("default", "", t.dirs, t.kids), []))
    ensures PlainBody(t)
  {
    var root, ts, f := Frame("default", "", t.dirs, t.kids), PrintBody(t), Split(ExportText(t));
    SplitOneLine(ExportText(t));
    TokensOneLined(f);
    ParsedAll(OneLined, Tokens(f), root);
    assert BodyAll(OneLined, t);
    ExportSplits(t);
    ConfSpelled(t);
    KeptWeight(ts);
    assert PrintBody(Seal(root)) == ts;
    SpelledOnlyPlain(ShowConf(t), Map(Kept, ts), root);
  }

  /**
   * For every tree: conf2sql.pl rebuilds the tree that sql2conf.pl printed exactly when it is plain
   * and no nested context has the value "0".
   */
  lemma {:induction false} ExportThenImportIff(t: Tree)
    ensures Parsed(ExportText(t)) == Some(Stack(Frame("default", "", t.dirs, t.kids), []))
            <==> PlainBody(t) && NoZero(t)
  {
    var root := Frame("default", "", t.dirs, t.kids);
    PrintedParses(t);
    KeptIff(t);
    if PlainBody(t) {
      ExportReads(t);
    }
    if Parsed(ExportText(t)) == Some(Stack(root, [])) {
      ExportReadsOnlyPlain(t);
      KeptNotZero(PrintBody(t));
      ParsedAll(NotZero, Tokens(Split(ExportText(t))), root);
      NoZeroIsAll(Seal(root));
      NoZeroIsAll(t);
    }
  }

  lemma {:induction false} KeptNotZero(ts: seq<Token>)
    ensures forall t :: t in Map(Kept, ts) ==> NotZero(t)
  {
  }

  /** Line for line it is read as the printed tree under the same condition. */
  lemma {:induction false} ExportReadsBackIff(t: Tree)
    ensures Tokens(Split(ExportText(t))) == PrintBody(t) <==> PlainBody(t) && NoZero(t)
  {
    ExportThenImportIff(t);
    PrintedParses(t);
    KeptIff(t);
    if PlainBody(t) {
      ExportReads(t);
    }
  }
}

/** Lines that spell a document: indented somehow, with empty lines in between. */
module Spelling {
  import opened Prelude
  import opened Document
  import opened ConfLines
  import opened PlainLines

  function Spaces(n: nat): string {
    if n == 0 then "" else " " + Spaces(n - 1)
  }

  ghost predicate Indented(line: string, t: Token) {
    exists n: nat :: line == Spaces(n) + Bare(t)
  }

  /** `lines` are the lines of `ts`, each indented somehow, with empty lines in between. */
  ghost predicate Spells(lines: seq<string>, ts: seq<Token>)
    decreases |lines|
  {
    if lines == [] then ts == []
    else (lines[0] == "" && Spells(lines[1..], ts))
         || (ts != [] && Indented(lines[0], ts[0]) && Spells(lines[1..], ts[1..]))
  }

  lemma {:induction false} SpellsConcat(xs: seq<string>, ts: seq<Token>, ys: seq<string>, us: seq<Token>)
    requires Spells(xs, ts) && Spells(ys, us)
    ensures Spells(xs + ys, ts + us)
    decreases |xs|
  {
    if xs == [] {
      assert xs + ys == ys && ts + us == us;
    } else {
      assert (xs + ys)[1..] == xs[1..] + ys;
      if xs[0] == "" && Spells(xs[1..], ts) {
        SpellsConcat(xs[1..], ts, ys, us);
      } else {
        SpellsConcat(xs[1..], ts[1..], ys, us);
        assert (ts + us)[1..] == ts[1..] + us;
      }
    }
  }

  lemma {:induction false} SpellsOne(n: nat, t: Token)
    ensures Spells([Spaces(n) + Bare(t)], [t])
    ensures Spells(["", Spaces(n) + Bare(t)], [t])
  {
    var line := Spaces(n) + Bare(t);
    assert Indented(line, t);
    assert [line][1..] == [] && [t][1..] == [] && ["", line][1..] == [line];
  }

  lemma {:induction false} TrimIndented(n: nat, line: string)
    requires line != "" && !IsSpace(line[0])
    ensures TrimLeft(Spaces(n) + line) == line
  {
    var s := Spaces(n) + line;
    if n == 0 {
      assert s == line;
    } else {
      assert s[1..] == Spaces(n - 1) + line;
      TrimIndented(n - 1, line);
    }
  }

  /** Indentation and empty lines do not matter to the reader. */
  lemma {:induction false} SpelledReads(lines: seq<string>, ts: seq<Token>)
    requires Spells(lines, ts) && AllPlain(ts)
    ensures Tokens(File(lines, "")) == ts
    decreases |lines|
  {
    if lines != [] {
      var f, g := File(lines, ""), File(lines[1..], "");
      assert Advance(f) == g;
      if lines[0] == "" && Spells(lines[1..], ts) {
        SpelledReads(lines[1..], ts);
      } else {
        SpelledReads(lines[1..], ts[1..]);
        IndentedReads(lines[0], ts[0]);
        assert Logical(f) == [Normal(ts[0])] + Logical(g);
        MapConcat(Classify, [Normal(ts[0])], Logical(g));
        assert Map(Classify, [Normal(ts[0])]) == [ts[0]];
      }
    }
  }

  lemma {:induction false} IndentedReads(line: string, t: Token)
    requires Indented(line, t) && PlainToken(t)
    ensures Trim(line) == Normal(t) && Classify(Normal(t)) == t && !Continues(Normal(t))
    ensures !IsComment(line) && !IsBlank(line)
  {
    var n: nat :| line == Spaces(n) + Bare(t);
    PlainLine(t);
    BareLine(t);
    TrimLeftNone(Bare(t));
    TrimIndented(n, Bare(t));
  }

  lemma {:induction false} BareSpells(ts: seq<Token>)
    ensures Spells(Map(Bare, ts), ts)
  {
    if ts != [] {
      BareSpells(ts[1..]);
      assert Map(Bare, ts)[1..] == Map(Bare, ts[1..]);
      assert Spaces(0) + Bare(ts[0]) == Bare(ts[0]);
      assert Indented(Bare(ts[0]), ts[0]);
    }
  }

  // ----- files that are read line by line, if they are

  lemma {:induction false} TextBound(line: string)
    requires Classify(line).Dir?
    ensures |DirText(Classify(line).dir)| <= |line|
  {
    TrimLeftSuffix(line[|Word(line)|..]);
  }

  lemma {:induction false} TrimBound(d: Directive)
    ensures |Trim(Bare(Dir(d)))| <= |DirText(d)|
  {
    var line := Bare(Dir(d));
    BareLine(Dir(d));
    TrimLeftSuffix(line);
    var s := TrimLeft(line);
    if d.value == "" && s != "" {
      assert s[|s| - 1] == line[|line| - 1] == ' ';
      TrimRightPrefix(s[..|s| - 1]);
    } else {
      TrimRightPrefix(s);
    }
  }

  lemma {:induction false} TrimSpaces(n: nat, line: string)
    ensures Trim(Spaces(n) + line) == Trim(line)
  {
    if n == 0 {
      assert Spaces(0) + line == line;
    } else {
      assert (Spaces(n) + line)[1..] == Spaces(n - 1) + line;
      TrimSpaces(n - 1, line);
    }
  }

  /**
   * `line` was read from the line of `t` alone: it is that line trimmed, or shorter if the line
   * ends in a continuation mark, which then only empty lines follow.
   */
  ghost predicate OwnLine(line: string, raw: string, t: Token) {
    && Indented(raw, t) && !IsComment(raw) && !IsBlank(raw)
    && if Continues(Trim(raw)) then |line| < |Trim(raw)| else line == Trim(raw)
  }

  ghost predicate ReadAlone(line: string, lines: seq<string>, t: Token) {
    exists raw :: raw in lines && OwnLine(line, raw, t)
  }

  /** Joining eats empty lines, and lines of the document at the price of reading fewer. */
  lemma {:induction false} JoinSpelled(line: string, lines: seq<string>, ts: seq<Token>)
      returns (rest: seq<string>, us: seq<Token>)
    requires Spells(lines, ts)
    ensures Joined(line, File(lines, "")).1 == File(rest, "") && Spells(rest, us)
    ensures |rest| <= |lines| && (forall raw :: raw in rest ==> raw in lines)
    ensures us == ts || |us| < |ts|
    ensures us == ts ==> var r := Joined(line, File(lines, "")).0;
                         if Continues(line) then |r| < |line| else r == line
    decreases |lines|, |line|
  {
    rest, us := lines, ts;
    if Continues(line) {
      var f, init := File(lines, ""), line[..|line| - 1];
      assert init + Trim("") == init;
      if lines == [] {
        rest, us := JoinSpelled(init, lines, ts);
      } else if lines[0] == "" && Spells(lines[1..], ts) {
        assert Advance(f) == File(lines[1..], "");
        rest, us := JoinSpelled(init, lines[1..], ts);
      } else {
        assert Advance(f) == File(lines[1..], "");
        rest, us := JoinSpelled(init + Trim(lines[0]), lines[1..], ts[1..]);
      }
    }
  }

  /** At most one logical line is read for each token; if so many are, each stands for its token. */
  lemma {:induction false} SpelledLogical(lines: seq<string>, ts: seq<Token>)
    requires Spells(lines, ts)
    ensures |Logical(File(lines, ""))| <= |ts|
    ensures |Logical(File(lines, ""))| == |ts| ==>
              forall i :: 0 <= i < |ts| ==> ReadAlone(Logical(File(lines, ""))[i], lines, ts[i])
    decreases |lines|
  {
    if lines != [] {
      var f, g := File(lines, ""), File(lines[1..], "");
      assert Advance(f) == g;
      if lines[0] == "" && Spells(lines[1..], ts) {
        SpelledLogical(lines[1..], ts);
        FewerLines(Logical(g), lines[1..], lines, ts);
      } else if IsComment(lines[0]) || IsBlank(lines[0]) {
        SpelledLogical(lines[1..], ts[1..]);
      } else {
        var rest, us := JoinSpelled(Trim(lines[0]), lines[1..], ts[1..]);
        var line := Joined(Trim(lines[0]), g).0;
        assert Logical(f) == [line] + Logical(File(rest, ""));
        SpelledLogical(rest, us);
        if |Logical(f)| == |ts| {
          assert OwnLine(line, lines[0], ts[0]);
          FewerLines(Logical(File(rest, "")), rest, lines, us);
        }
      }
    }
  }

  lemma {:induction false} FewerLines(logical: seq<string>, rest: seq<string>, lines: seq<string>, ts: seq<Token>)
    requires forall raw :: raw in rest ==> raw in lines
    requires |logical| == |ts| ==> forall i :: 0 <= i < |ts| ==> ReadAlone(logical[i], rest, ts[i])
    ensures |logical| == |ts| ==> forall i :: 0 <= i < |ts| ==> ReadAlone(logical[i], lines, ts[i])
  {
    if |logical| == |ts| {
      forall i | 0 <= i < |ts| ensures ReadAlone(logical[i], lines, ts[i]) {
        assert ReadAlone(logical[i], rest, ts[i]);
        var raw :| raw in rest && OwnLine(logical[i], raw, ts[i]);
      }
    }
  }
}

/** The two exporters, mod_conf_sql.c and sql2conf.pl, on the same tables. */
module Agreement {
  import opened Prelude
  import opened Document
  import opened Tables
  import opened Walk
  import opened WalkDocument
  import opened Reordering
  import opened ConfLines
  import opened PlainLines
  import opened ParsedTree
  import opened Spelling
  import opened Sql2Conf

  // ----- what sql2conf.pl prints spells the tree

  /** The line as sql2conf.pl means it: values that are false in Perl are dropped. */
  function Kept(t: Token): Token {
    if t.Open? && !True(t.value) then Open(t.typ, "") else t
  }

  lemma {:induction false} DirsSpelled(ds: seq<Directive>, indent: nat)
    ensures Spells(ShowDirs(ds, indent), Map(Kept, DirTokens(ds)))
  {
    if ds != [] {
      DirsSpelled(ds[1..], indent);
      BareLine(Dir(ds[0]));
      assert Spaces(indent) + ds[0].name + " " + ds[0].value == Spaces(indent) + Bare(Dir(ds[0]));
      SpellsOne(indent, Dir(ds[0]));
      SpellsConcat([Spaces(indent) + Bare(Dir(ds[0]))], [Dir(ds[0])],
        ShowDirs(ds[1..], indent), Map(Kept, DirTokens(ds[1..])));
      assert DirTokens(ds) == [Dir(ds[0])] + DirTokens(ds[1..]);
      MapConcat(Kept, [Dir(ds[0])], DirTokens(ds[1..]));
    }
  }

  lemma {:induction false} TagsSpelled(t: Tree, indent: nat)
    ensures Spells(["", Spaces(indent) + Header(t)], [Kept(Open(t.typ, t.value))])
    ensures Spells([Spaces(indent) + "</" + t.typ + ">"], [Close(t.typ)])
  {
    BareLine(Open(t.typ, t.value));
    BareLine(Open(t.typ, ""));
    BareLine(Close(t.typ));
    SpellsOne(indent, Kept(Open(t.typ, t.value)));
    assert Header(t) == Bare(Kept(Open(t.typ, t.value)));
    SpellsOne(indent, Close(t.typ));
    assert Spaces(indent) + "</" + t.typ + ">" == Spaces(indent) + Bare(Close(t.typ));
  }

  lemma {:induction false} CtxsSpelled(ts: seq<Tree>, indent: nat)
    ensures Spells(ShowCtxs(ts, indent), Map(Kept, PrintAll(ts)))
    decreases ts
  {
    if ts != [] {
      var t := ts[0];
      TagsSpelled(t, indent);
      DirsSpelled(t.dirs, indent + 2);
      CtxsSpelled(t.kids, indent + 2);
      CtxsSpelled(ts[1..], indent);
      FirstSpelled(ts, indent);
    }
  }

  lemma {:induction false} PrintFive(ts: seq<Tree>)
    requires ts != []
    ensures PrintAll(ts) == [Open(ts[0].typ, ts[0].value)] + DirTokens(ts[0].dirs) + PrintAll(ts[0].kids)
                            + [Close(ts[0].typ)] + PrintAll(ts[1..])
  {
    var a, b, c, d := [Open(ts[0].typ, ts[0].value)], DirTokens(ts[0].dirs), PrintAll(ts[0].kids), [Close(ts[0].typ)];
    assert Print(ts[0]) == a + (b + c) + d == a + b + c + d;
  }

  lemma {:induction false} FirstSpelled(ts: seq<Tree>, indent: nat)
    requires ts != []
    requires Spells(["", Spaces(indent) + Header(ts[0])], [Kept(Open(ts[0].typ, ts[0].value))])
    requires Spells(ShowDirs(ts[0].dirs, indent + 2), Map(Kept, DirTokens(ts[0].dirs)))
    requires Spells(ShowCtxs(ts[0].kids, indent + 2), Map(Kept, PrintAll(ts[0].kids)))
    requires Spells([Spaces(indent) + "</" + ts[0].typ + ">"], [Close(ts[0].typ)])
    requires Spells(ShowCtxs(ts[1..], indent), Map(Kept, PrintAll(ts[1..])))
    ensures Spells(ShowCtxs(ts, indent), Map(Kept, PrintAll(ts)))
  {
    var t := ts[0];
    var a, x := ["", Spaces(indent) + Header(t)], [Open(t.typ, t.value)];
    var b, y := ShowDirs(t.dirs, indent + 2), DirTokens(t.dirs);
    var c, z := ShowCtxs(t.kids, indent + 2), PrintAll(t.kids);
    var d, w := [Spaces(indent) + "</" + t.typ + ">"], [Close(t.typ)];
    assert Map(Kept, x) == [Kept(Open(t.typ, t.value))] && Map(Kept, w) == [Close(t.typ)];
    SpellsBoth(a, x, b, y);
    SpellsBoth(a + b, x + y, c, z);
    SpellsBoth(a + b + c, x + y + z, d, w);
    SpellsBoth(a + b + c + d, x + y + z + w, ShowCtxs(ts[1..], indent), PrintAll(ts[1..]));
    PrintFive(ts);
  }

  lemma {:induction false} SpellsBoth(xs: seq<string>, ts: seq<Token>, ys: seq<string>, us: seq<Token>)
    requires Spells(xs, Map(Kept, ts)) && Spells(ys, Map(Kept, us))
    ensures Spells(xs + ys, Map(Kept, ts + us))
  {
    SpellsConcat(xs, Map(Kept, ts), ys, Map(Kept, us));
    MapConcat(Kept, ts, us);
  }

  /** The script's output is the printed tree, indented, with values that are false in Perl dropped. */
  lemma {:induction false} ConfSpelled(t: Tree)
    ensures Spells(ShowConf(t), Map(Kept, PrintBody(t)))
  {
    DirsSpelled(t.dirs, 0);
    CtxsSpelled(t.kids, 0);
    SpellsBoth(ShowDirs(t.dirs, 0), DirTokens(t.dirs), ShowCtxs(t.kids, 0), PrintAll(t.kids));
  }

  // ----- the value "0"

  /** No context below the root has the value "0". */
  predicate NoZero(t: Tree) {
    forall k :: k in t.kids ==> k.value != "0" && NoZero(k)
  }

  predicate ZeroToken(t: Token) { t.Open? && t.value == "0" }

  predicate NotZero(t: Token) { !ZeroToken(t) }

  lemma {:induction false} NoZeroIsAll(t: Tree)
    ensures NoZero(t) <==> BodyAll(NotZero, t)
    decreases t
  {
    forall k | k in t.kids ensures NoZero(k) <==> BodyAll(NotZero, k) {
      NoZeroIsAll(k);
    }
  }

  lemma {:induction false} KeptIff(t: Tree)
    ensures NoZero(t) <==> Map(Kept, PrintBody(t)) == PrintBody(t)
  {
    var ts := PrintBody(t);
    NoZeroIsAll(t);
    PrintedAll(NotZero, t);
    forall i | 0 <= i < |ts| ensures Kept(ts[i]) == ts[i] <==> ts[i].Close? || NotZero(ts[i]) {
    }
    if NoZero(t) {
      assert forall i :: 0 <= i < |ts| ==> ts[i] in ts;
    } else {
      var x :| x in ts && !x.Close? && !NotZero(x);
      var i :| 0 <= i < |ts| && ts[i] == x;
      assert Map(Kept, ts)[i] != ts[i];
    }
  }

  // ----- indentation and blank lines aside

  function Unindent(s: string): string {
    if s != "" && s[0] == ' ' then Unindent(s[1..]) else s
  }

  /** Output with the indentation and the blank lines removed. */
  function Squeeze(lines: seq<string>): seq<string> {
    if lines == [] then []
    else (if Unindent(lines[0]) == "" then [] else [Unindent(lines[0])]) + Squeeze(lines[1..])
  }

  lemma {:induction false} UnindentSpaces(n: nat, s: string)
    ensures Unindent(Spaces(n) + s) == Unindent(s)
  {
    if n > 0 {
      assert (Spaces(n) + s)[1..] == Spaces(n - 1) + s;
      UnindentSpaces(n - 1, s);
    } else {
      assert Spaces(0) + s == s;
    }
  }

  lemma {:induction false} SpelledSqueezed(lines: seq<string>, ts: seq<Token>)
    requires Spells(lines, ts)
    ensures Squeeze(lines) == Squeeze(Map(Bare, ts))
    decreases |lines|
  {
    if lines != [] {
      if lines[0] == "" && Spells(lines[1..], ts) {
        SpelledSqueezed(lines[1..], ts);
      } else {
        SpelledSqueezed(lines[1..], ts[1..]);
        var n: nat :| lines[0] == Spaces(n) + Bare(ts[0]);
        UnindentSpaces(n, Bare(ts[0]));
        assert Map(Bare, ts)[1..] == Map(Bare, ts[1..]);
      }
    }
  }

  /** For every tree: the output, squeezed, is the printed tree without values false in Perl. */
  lemma {:induction false} ConfSqueezed(t: Tree)
    ensures Squeeze(ShowConf(t)) == Squeeze(Map(Bare, Map(Kept, PrintBody(t))))
  {
    ConfSpelled(t);
    SpelledSqueezed(ShowConf(t), Map(Kept, PrintBody(t)));
  }

  function Length(lines: seq<string>): nat {
    if lines == [] then 0 else |lines[0]| + Length(lines[1..])
  }

  /** The length of what is left of the lines of `ts`. */
  function Left(ts: seq<Token>): nat { Length(Squeeze(Map(Bare, ts))) }

  lemma {:induction false} LengthFirst(line: string, rest: seq<string>)
    ensures Length(Squeeze([line] + rest)) == |Unindent(line)| + Length(Squeeze(rest))
  {
    var x, squeezed := Unindent(line), Squeeze(rest);
    assert ([line] + rest)[1..] == rest;
    if x == "" {
      assert Squeeze([line] + rest) == squeezed;
    } else {
      assert Squeeze([line] + rest) == [x] + squeezed && ([x] + squeezed)[1..] == squeezed;
    }
  }

  lemma {:induction false} LeftFirst(ts: seq<Token>)
    requires ts != []
    ensures Left(ts) == |Unindent(Bare(ts[0]))| + Left(ts[1..])
  {
    assert Map(Bare, ts) == [Bare(ts[0])] + Map(Bare, ts[1..]);
    LengthFirst(Bare(ts[0]), Map(Bare, ts[1..]));
  }

  lemma {:induction false} KeptShorter(t: Token)
    ensures |Unindent(Bare(Kept(t)))| <= |Unindent(Bare(t))|
    ensures |Unindent(Bare(Kept(t)))| == |Unindent(Bare(t))| ==> Kept(t) == t
  {
    if Kept(t) != t {
      BareLine(t);
      BareLine(Kept(t));
    }
  }

  /** A dropped value makes the output shorter. */
  lemma {:induction false} DroppedShorter(ts: seq<Token>)
    ensures Left(Map(Kept, ts)) <= Left(ts)
    ensures Left(Map(Kept, ts)) == Left(ts) ==> forall i :: 0 <= i < |ts| ==> Kept(ts[i]) == ts[i]
  {
    if ts != [] {
      var kept := Map(Kept, ts);
      DroppedShorter(ts[1..]);
      KeptShorter(ts[0]);
      LeftFirst(ts);
      LeftFirst(kept);
      assert kept[1..] == Map(Kept, ts[1..]);
      assert forall i :: 1 <= i < |ts| ==> ts[i] == ts[1..][i - 1];
    }
  }

  /**
   * For every tree: the two exporters print the same, indentation and blank lines removed on both
   * sides, exactly when no nested context has the value "0".
   */
  lemma {:induction false} ExportersAgreeIff(t: Tree)
    ensures Squeeze(ShowConf(t)) == Squeeze(Map(Bare, PrintBody(t))) <==> NoZero(t)
  {
    ConfSqueezed(t);
    KeptIff(t);
    DroppedShorter(PrintBody(t));
  }

  // ----- the C module's lines as they are

  /** A directive line that starts with its name. */
  predicate Named(t: Token) { t.Dir? ==> t.dir.name != "" && t.dir.name[0] != ' ' }

  predicate Flush(lines: seq<string>) {
    forall i :: 0 <= i < |lines| ==> FlushLine(lines[i])
  }

  lemma {:induction false} SqueezeFlush(lines: seq<string>)
    ensures Flush(Squeeze(lines))
    ensures Flush(lines) ==> Squeeze(lines) == lines
  {
    if lines != [] {
      SqueezeFlush(lines[1..]);
      UnindentFlush(lines[0]);
      assert forall i :: 1 <= i < |lines| ==> lines[i] == lines[1..][i - 1];
    }
  }

  lemma {:induction false} UnindentFlush(s: string)
    ensures Unindent(s) != "" ==> Unindent(s)[0] != ' '
  {
    if s != "" && s[0] == ' ' {
      UnindentFlush(s[1..]);
    }
  }

  predicate FlushLine(line: string) { line != "" && line[0] != ' ' }

  lemma {:induction false} NamedLine(t: Token)
    ensures FlushLine(Bare(t)) <==> Named(t)
  {
    BareLine(t);
  }

  lemma {:induction false} NamedFlush(ts: seq<Token>)
    ensures Flush(Map(Bare, ts)) <==> forall t :: t in ts ==> Named(t)
  {
    forall t {
      NamedLine(t);
    }
    assert forall i :: 0 <= i < |ts| ==> ts[i] in ts && Map(Bare, ts)[i] == Bare(ts[i]);
    if Flush(Map(Bare, ts)) {
      forall t | t in ts ensures Named(t) {
        var i :| 0 <= i < |ts| && ts[i] == t;
        assert FlushLine(Map(Bare, ts)[i]);
      }
    }
  }

  /**
   * Removing indentation and blank lines from the script's output alone gives the C module's lines
   * exactly when, besides, no directive has an empty name or one that starts with a blank.
   */
  lemma {:induction false} SameLinesIff(t: Tree)
    ensures Squeeze(ShowConf(t)) == Map(Bare, PrintBody(t)) <==> NoZero(t) && BodyAll(Named, t)
  {
    ExportersAgreeIff(t);
    SqueezeFlush(ShowConf(t));
    SqueezeFlush(Map(Bare, PrintBody(t)));
    NamedFlush(PrintBody(t));
    PrintedAll(Named, t);
  }

  /** A context with the value "0" loses it in sql2conf.pl. */
  lemma {:induction false} ZeroValueDropped()
    ensures var t := Tree("default", "", [], [Tree("IfDefine", "0", [], [])]);
            Squeeze(ShowConf(t)) != Squeeze(Map(Bare, PrintBody(t)))
  {
    var k := Tree("IfDefine", "0", [], []);
    var t := Tree("default", "", [], [k]);
    assert k in t.kids;
    ExportersAgreeIff(t);
  }

  /**
   * On the same tables, with types, ids from 1 and a single context without parent: sql2conf.pl
   * prints what the C module pushes, indentation and blank lines aside, exactly when no context
   * below the root has the value "0".
   */
  lemma {:induction false} SameTablesSameText(v: View, root: CtxRow, d: nat)
    requires UniqueIds(v.ctxs) && IdsFromOne(v) && AllTyped(v)
    requires root in v.ctxs && Filter(IsRoot(), v.ctxs) == [root] && HaltsWithin(InOrder(v), root.id, d)
    ensures Asked(v, 0) == Some(root.id)
    ensures Squeeze(ShowConf(FetchedFrom(v, root.id, d))) ==
            Squeeze(Map(Bare, Emit(Explore(InOrder(v), root.id, d), true)))
            <==> NoZero(FetchedFrom(v, root.id, d))
  {
    var visit := Explore(InOrder(v), root.id, d);
    WalkTyped(InOrder(v), v, root, d);
    FetchedIsTreeOf(visit);
    EmitIsPrint(visit);
    ExportersAgreeIff(FetchedFrom(v, root.id, d));
  }
}

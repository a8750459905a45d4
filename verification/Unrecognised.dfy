/** What opening tags that do not match their pattern do to an import and to the documents read back. */
module Unrecognised {
  import opened Prelude
  import opened Document
  import opened Tables
  import opened Absorb
  import opened Store
  import opened Attempt
  import opened ImportRows
  import opened Walk
  import opened Conf2Sql
  import opened ConfLines
  import opened ConfParser
  import opened PlainLines
  import opened ParsedTree

  // ----- files that show it

  lemma {:induction false} ReadEach(lines: seq<string>, ts: seq<Token>)
    requires |lines| == |ts| && forall i :: 0 <= i < |lines| ==> ReadsAs(lines[i], ts[i])
    ensures Tokens(File(lines, "")) == ts
  {
    if lines != [] {
      var f, line := File(lines, ""), Trim(lines[0]);
      forall i | 0 <= i < |lines| - 1 ensures ReadsAs(lines[1..][i], ts[1..][i]) {
        assert ReadsAs(lines[i + 1], ts[i + 1]);
      }
      ReadEach(lines[1..], ts[1..]);
      assert ReadsAs(lines[0], ts[0]);
      assert Advance(f) == File(lines[1..], "");
      assert Logical(f) == [line] + Logical(Advance(f));
      MapConcat(Classify, [line], Logical(Advance(f)));
      assert Map(Classify, [line]) == [ts[0]];
    }
  }

  /** A type whose tag lost its '>'. */
  predicate CutShort(typ: string) {
    typ != "" && NoSpace(typ) && typ[0] != '/' && typ[|typ| - 1] != '\\' && '>' !in typ
  }

  lemma {:induction false} StandsAlone(line: string)
    requires line != "" && line[0] == '<' && !IsSpace(line[|line| - 1]) && line[|line| - 1] != '\\'
    ensures Trim(line) == line && !IsComment(line) && !IsBlank(line) && !Continues(line)
  {
    TrimLeftNone(line);
  }

  lemma {:induction false} UnmatchedOpen(typ: string)
    requires CutShort(typ)
    ensures ReadsAs("<" + typ, Open("", ""))
  {
    var line := "<" + typ;
    assert typ[|typ| - 1] in typ && line[|line| - 1] == typ[|typ| - 1];
    StandsAlone(line);
    assert line[1..] == typ + "";
    WordBefore(typ, "");
    NoMatch(line, |typ|);
  }

  lemma {:induction false} UnmatchedClose(typ: string)
    requires CutShort(typ)
    ensures ReadsAs("</" + typ, Close(""))
  {
    var line := "</" + typ;
    assert typ[|typ| - 1] in typ && line[|line| - 1] == typ[|typ| - 1];
    StandsAlone(line);
    assert line[2..] == typ + "";
    WordBefore(typ, "");
  }

  lemma {:induction false} NoMatch(line: string, n: nat)
    requires n < |line| && '>' !in line
    ensures MatchOpen(line, n) == None
  {
    TrimLeftSuffix(line[1 + n..]);
    if n > 0 {
      NoMatch(line, n - 1);
    }
  }

  lemma {:induction false} PlainReads(t: Token)
    requires PlainToken(t)
    ensures ReadsAs(Bare(t), t)
  {
    PlainLine(t);
  }

  lemma {:induction false} PrintOnly(k: Tree)
    ensures PrintBody(Tree("default", "", [], [k])) == Print(k)
  {
    assert [k][1..] == [] && PrintAll([k][1..]) == [];
    assert PrintAll([k]) == Print(k);
    assert DirTokens([]) == [];
  }

  /** What the script makes of a file that spells one sub-context line by line. */
  lemma {:induction false} OnlyContext(lines: seq<string>, k: Tree)
    requires Tokens(File(lines, "")) == Print(k)
    ensures Run(START, Tokens(File(lines, ""))) == Some(Stack(Frame("default", "", [], [k]), []))
  {
    PrintOnly(k);
    PrintedParses(Tree("default", "", [], [k]));
  }

  lemma {:induction false} ReadThree(a: string, b: string, c: string, x: Token, y: Token, z: Token)
    requires ReadsAs(a, x) && ReadsAs(b, y) && ReadsAs(c, z)
    ensures Tokens(File([a, b, c], "")) == [x, y, z]
  {
    var lines, ts := [a, b, c], [x, y, z];
    ReadEach(lines, ts);
  }

  lemma {:induction false} ReadFour(
      a: string, b: string, c: string, d: string, x: Token, y: Token, z: Token, w: Token)
    requires ReadsAs(a, x) && ReadsAs(b, y) && ReadsAs(c, z) && ReadsAs(d, w)
    ensures Tokens(File([a, b, c, d], "")) == [x, y, z, w]
  {
    var lines, ts := [a, b, c, d], [x, y, z, w];
    ReadEach(lines, ts);
  }

  lemma {:induction false} DirectiveDies(d: Directive)
    ensures var k := Tree("", "", [d], []);
            Print(k) == [Open("", ""), Dir(d), Close("")]
            && !Process(RootStore(1), Tree("default", "", [], [k]), Some(1)).1
  {
    var k := Tree("", "", [d], []);
    assert PrintBody(k) == [Dir(d)];
    var s := WithDirs(RootStore(1), 1, []);
    assert !ProcessOne(s, k, Some(1)).1;
    assert !ProcessAll(s, [k], Some(1)).1;
  }

  /** A directive inside a tag without its '>': the script dies half-way. */
  lemma {:induction false} UnmatchedTagDies()
    ensures var f := File(["<Foo", "Umask 022", "</Foo"], "");
            var k := Tree("", "", [Directive("Umask", "022")], []);
            && Run(START, Tokens(f)) == Some(Stack(Frame("default", "", [], [k]), []))
            && !Process(RootStore(1), Tree("default", "", [], [k]), Some(1)).1
  {
    var d := Directive("Umask", "022");
    UnmatchedFoo();
    UmaskReads();
    ReadThree("<Foo", "Umask 022", "</Foo", Open("", ""), Dir(d), Close(""));
    DirectiveDies(d);
    OnlyContext(["<Foo", "Umask 022", "</Foo"], Tree("", "", [d], []));
  }

  lemma {:induction false} UnmatchedFoo()
    ensures ReadsAs("<Foo", Open("", "")) && ReadsAs("</Foo", Close(""))
  {
    var typ := "Foo";
    UnmatchedOpen(typ);
    UnmatchedClose(typ);
    assert "<" + typ == "<Foo" && "</" + typ == "</Foo";
  }

  lemma {:induction false} UmaskReads()
    ensures ReadsAs("Umask 022", Dir(Directive("Umask", "022")))
  {
    var d := Directive("Umask", "022");
    BareLine(Dir(d));
    assert d.name + " " + d.value == "Umask 022";
    PlainReads(Dir(d));
  }

  lemma {:induction false} TagReads()
    ensures ReadsAs("<A>", Open("A", "")) && ReadsAs("</A>", Close("A"))
  {
    var typ := "A";
    BareLine(Open(typ, ""));
    BareLine(Close(typ));
    assert "<" + typ + "" + ">" == "<A>" && "</" + typ + ">" == "</A>";
    PlainReads(Open(typ, ""));
    PlainReads(Close(typ));
  }

  lemma {:induction false} PrintEmpty(k: Tree, a: Tree)
    requires k == Tree("", "", [], [a]) && Empty(a)
    ensures Print(k) == [Open("", ""), Open(a.typ, a.value), Close(a.typ), Close("")]
  {
    assert [a][1..] == [] && PrintAll([a][1..]) == [];
    assert PrintBody(a) == [];
    assert Print(a) == [Open(a.typ, a.value), Close(a.typ)];
    assert PrintBody(k) == Print(a);
  }

  /** A sub-context inside it: the script finishes and leaves a second row with a NULL parent. */
  lemma {:induction false} UnmatchedTagAddsRoot()
    ensures var f := File(["<Foo", "<A>", "</A>", "</Foo"], "");
            var k := Tree("", "", [], [Tree("A", "", [], [])]);
            var r := Process(RootStore(1), Tree("default", "", [], [k]), Some(1));
            && Run(START, Tokens(f)) == Some(Stack(Frame("default", "", [], [k]), []))
            && r.1 && Roots(r.0) == [RootRow(1), CtxRow(3, None, Some("A"), Some(""))]
            && r.0.ctxs == [RootRow(1), CtxRow(2, Some(1), None, None), CtxRow(3, None, Some("A"), Some(""))]
  {
    var a := Tree("A", "", [], []);
    var k := Tree("", "", [], [a]);
    UnmatchedFoo();
    TagReads();
    ReadFour("<Foo", "<A>", "</A>", "</Foo", Open("", ""), Open("A", ""), Close("A"), Close(""));
    PrintEmpty(k, a);
    OnlyContext(["<Foo", "<A>", "</A>", "</Foo"], k);
    NestedRoot(k, a);
  }

  lemma {:induction false} NestedProcess(s: Store, k: Tree, a: Tree)
    requires k == Tree("", "", [], [a]) && a.typ != "" && Empty(a)
    ensures Process(s, Tree("default", "", [], [k]), Some(1)) ==
            (var s1 := WithRow(s, RowUnder(s, Some(1), k)); (WithRow(s1, RowUnder(s1, None, a)), true))
  {
    var s1 := WithRow(s, RowUnder(s, Some(1), k));
    var s2 := WithRow(s1, RowUnder(s1, None, a));
    assert WithDirs(s, 1, []) == s && [a][1..] == [] && [k][1..] == [];
    assert Process(s2, a, None) == (s2, true);
    assert ProcessOne(s1, a, None) == (s2, true);
    assert ProcessAll(s1, [a], None) == (s2, true);
    assert ProcessOne(s, k, Some(1)) == (s2, true);
    assert ProcessAll(s, [k], Some(1)) == (s2, true);
  }

  lemma {:induction false} NestedRoot(k: Tree, a: Tree)
    requires k == Tree("", "", [], [a]) && a.typ != "" && Empty(a)
    ensures var r := Process(RootStore(1), Tree("default", "", [], [k]), Some(1));
            && r.1 && Roots(r.0) == [RootRow(1), CtxRow(3, None, Some(a.typ), Some(a.value))]
            && r.0.ctxs == [RootRow(1), CtxRow(2, Some(1), None, None), CtxRow(3, None, Some(a.typ), Some(a.value))]
  {
    var s := RootStore(1);
    var s1 := WithRow(s, RowUnder(s, Some(1), k));
    NestedProcess(s, k, a);
    RowRoots(s, RowUnder(s, Some(1), k));
    RowRoots(s1, RowUnder(s1, None, a));
    FilterOne(IsRoot(), RootRow(1));
  }

  // ----- tables with contexts without a type that are all empty

  /** A row without a type, as an import would have written it with an empty type and value. */
  function Fill(r: CtxRow): CtxRow {
    if r.parent.Some? && r.typ.None? then CtxRow(r.id, r.parent, Some(""), Some(ValueOf(r))) else r
  }

  function FillStore(s: Store): Store { Store(Map(Fill, s.ctxs), s.dirs, s.next) }

  function FillView(v: View): View { View(Map(Fill, v.ctxs), v.placed) }

  /** What a line gives: a header without a type has no value either. */
  predicate ReadHeader(t: Token) { t.Open? && t.typ == "" ==> t.value == "" }

  lemma {:induction false} MatchHasType(line: string, n: nat)
    requires n < |line| && MatchOpen(line, n).Some?
    ensures MatchOpen(line, n).value.0 != ""
  {
    if '>' !in TrimLeft(line[1 + n..]) {
      MatchHasType(line, n - 1);
    }
  }

  lemma {:induction false} LinesGiveHeaders(f: File)
    ensures forall t :: t in Tokens(f) ==> ReadHeader(t)
  {
    forall t | t in Tokens(f) ensures ReadHeader(t) {
      var i :| 0 <= i < |Logical(f)| && Classify(Logical(f)[i]) == t;
      var line := Logical(f)[i];
      if t.Open? && MatchOpen(line, |Word(line[1..])|).Some? {
        MatchHasType(line, |Word(line[1..])|);
      }
    }
  }

  /** The context that is current at the end of a file has such headers. */
  lemma {:induction false} ParsedHeaders(f: File)
    requires Run(START, Tokens(f)).Some?
    ensures BodyAll(ReadHeader, Seal(Run(START, Tokens(f)).value.ctx))
  {
    LinesGiveHeaders(f);
    RunAll(ReadHeader, START, Tokens(f));
  }

  lemma {:induction false} FilterFill(p: CtxRow -> bool, rows: seq<CtxRow>)
    requires forall r :: r in rows ==> (p(Fill(r)) <==> p(r))
    ensures Filter(p, Map(Fill, rows)) == Map(Fill, Filter(p, rows))
  {
    if rows != [] {
      FilterFill(p, rows[1..]);
      assert Map(Fill, rows)[1..] == Map(Fill, rows[1..]);
      MapConcat(Fill, if p(rows[0]) then [rows[0]] else [], Filter(p, rows[1..]));
      assert Map(Fill, [rows[0]]) == [Fill(rows[0])];
    }
  }

  lemma {:induction false} RowFills(s: Store, id: int, t: Tree)
    requires t.typ == "" ==> t.value == ""
    ensures FillStore(WithRow(s, RowUnder(s, Some(id), t))) == WithRow(FillStore(s), RowFor(FillStore(s), id, t))
  {
    var r := RowUnder(s, Some(id), t);
    MapConcat(Fill, s.ctxs, [r]);
    assert Map(Fill, [r]) == [Fill(r)];
  }

  /** Up to those rows, the script loads the tree. */
  lemma {:induction false} ProcessFills(s: Store, t: Tree, id: int)
    requires UnrecognisedEmpty(t) && BodyAll(ReadHeader, t)
    ensures Process(s, t, Some(id)).1
    ensures FillStore(Process(s, t, Some(id)).0) == Load(FillStore(s), t, id)
    decreases t, 1
  {
    ProcessAllFills(WithDirs(s, id, t.dirs), t.kids, id);
  }

  lemma {:induction false} ProcessAllFills(s: Store, kids: seq<Tree>, id: int)
    requires forall k :: k in kids ==> if k.typ == "" then Empty(k) else UnrecognisedEmpty(k)
    requires forall k :: k in kids ==> ReadHeader(Open(k.typ, k.value)) && BodyAll(ReadHeader, k)
    ensures ProcessAll(s, kids, Some(id)).1
    ensures FillStore(ProcessAll(s, kids, Some(id)).0) == LoadAll(FillStore(s), kids, id)
    decreases kids, 0
  {
    if kids != [] {
      var k := kids[0];
      assert k in kids;
      ProcessOneFills(s, k, id);
      ProcessAllFills(ProcessOne(s, k, Some(id)).0, kids[1..], id);
    }
  }

  lemma {:induction false} ProcessOneFills(s: Store, k: Tree, id: int)
    requires (if k.typ == "" then Empty(k) else UnrecognisedEmpty(k))
    requires ReadHeader(Open(k.typ, k.value)) && BodyAll(ReadHeader, k)
    ensures ProcessOne(s, k, Some(id)).1
    ensures FillStore(ProcessOne(s, k, Some(id)).0) == LoadOne(FillStore(s), k, id)
    decreases k, 2
  {
    var s1, f := WithRow(s, RowUnder(s, Some(id), k)), FillStore(s);
    var f1 := WithRow(f, RowFor(f, id, k));
    RowFills(s, id, k);
    JustInserted(f, id, k);
    if k.typ == "" {
      var hit := LookedUp(f1, k, id).id;
      assert WithDirs(f1, hit, []) == f1;
    } else {
      JustInserted(s, id, k);
      FilterFill(Matches(k.typ, k.value, id), s1.ctxs);
      ProcessFills(s1, k, LookedUp(s1, k, id).id);
    }
  }

  /** No row has an empty string as its type. */
  ghost predicate NoEmptyTypes(ctxs: seq<CtxRow>) { forall r :: r in ctxs ==> r.typ != Some("") }

  lemma {:induction false} ProcessTypes(s: Store, t: Tree, id: Option<int>)
    requires NoEmptyTypes(s.ctxs)
    ensures NoEmptyTypes(Process(s, t, id).0.ctxs)
    decreases t, 1
  {
    match id
    case None => ProcessAllTypes(s, t.kids, None);
    case Some(n) => ProcessAllTypes(WithDirs(s, n, t.dirs), t.kids, id);
  }

  lemma {:induction false} ProcessAllTypes(s: Store, kids: seq<Tree>, id: Option<int>)
    requires NoEmptyTypes(s.ctxs)
    ensures NoEmptyTypes(ProcessAll(s, kids, id).0.ctxs)
    decreases kids, 0
  {
    if kids != [] {
      var t := kids[0];
      var s1 := WithRow(s, RowUnder(s, id, t));
      var hit := None;
      if t.typ != "" && id.Some? {
        JustInserted(s, id.value, t);
        hit := Some(LookedUp(s1, t, id.value).id);
      }
      ProcessTypes(s1, t, hit);
      ProcessAllTypes(ProcessOne(s, t, id).0, kids[1..], id);
    }
  }

  /** A tree whose headers were all recognised. */
  lemma {:induction false} RecognisedHeaders(t: Tree)
    requires Recognised(t)
    ensures UnrecognisedEmpty(t) && BodyAll(ReadHeader, t) && BodyAll(HasType, t)
  {
    forall k | k in t.kids ensures UnrecognisedEmpty(k) && BodyAll(ReadHeader, k) && BodyAll(HasType, k) {
      RecognisedHeaders(k);
    }
  }

  // ----- reading them

  /** Not a tag without a type. */
  predicate HasType(t: Token) { t.Dir? || t.typ != "" }

  lemma {:induction false} FilledRows(v: View, id: int)
    ensures KeyRows(FillView(v), id) == Map(Fill, KeyRows(v, id))
    ensures KidRows(FillView(v), id) == Map(Fill, KidRows(v, id))
    ensures JoinRows(FillView(v), id) == JoinRows(v, id)
  {
    FilterFill(RowIs(id), v.ctxs);
    FilterFill(ChildOf(id), v.ctxs);
  }

  ghost predicate AllHalt(s: Server, rows: seq<CtxRow>, d: nat) {
    forall i :: 0 <= i < |rows| ==> HaltsWithin(s, rows[i].id, d)
  }

  lemma {:induction false} HaltsByRows(s: Server, id: int, d: nat)
    ensures HaltsWithin(s, id, d) <==> d > 0 && AllHalt(s, NextRows(s, id), d - 1)
  {
    var rows := NextRows(s, id);
    if HaltsWithin(s, id, d) {
      assert forall i :: 0 <= i < |rows| ==> rows[i] in rows;
    }
  }

  /** `w` lists the same children as `s`, with filled rows. */
  ghost predicate Mirrors(w: Server, s: Server) {
    forall id :: NextRows(w, id) == Map(Fill, NextRows(s, id))
  }

  lemma {:induction false} MirrorHalts(w: Server, s: Server, id: int, d: nat)
    requires Mirrors(w, s)
    ensures HaltsWithin(s, id, d) <==> HaltsWithin(w, id, d)
    decreases d
  {
    HaltsByRows(s, id, d);
    HaltsByRows(w, id, d);
    var rows, filled := NextRows(s, id), NextRows(w, id);
    assert filled == Map(Fill, rows);
    if d > 0 {
      forall i | 0 <= i < |rows| ensures HaltsWithin(s, rows[i].id, d - 1) <==> HaltsWithin(w, filled[i].id, d - 1) {
        MirrorHalts(w, s, rows[i].id, d - 1);
      }
    }
  }

  lemma {:induction false} FilledHalts(v: View, id: int, d: nat)
    ensures HaltsWithin(InOrder(v), id, d) <==> HaltsWithin(InOrder(FillView(v)), id, d)
  {
    forall x {
      FilledRows(v, x);
    }
    MirrorHalts(InOrder(FillView(v)), InOrder(v), id, d);
  }

  lemma {:induction false} TagsFilled(r: CtxRow, v: Visit, w: Visit, isbase: bool)
    requires r.typ != Some("") && v.Visited? && v.key == Some(r) && w.Visited? && w.key == Some(Fill(r))
    ensures OpenTokens(v, isbase) == Filter(HasType, OpenTokens(w, isbase))
    ensures CloseTokens(v, isbase) == Filter(HasType, CloseTokens(w, isbase))
  {
    if Tagged(w, isbase) {
      FilterOne(HasType, Open(w.key.value.typ.value, ValueOf(w.key.value)));
      FilterOne(HasType, Close(w.key.value.typ.value));
    }
  }

  lemma {:induction false} ConfsFilled(cs: seq<ConfRow>)
    ensures Filter(HasType, ConfTokens(cs)) == ConfTokens(cs)
  {
    FilterAll(HasType, ConfTokens(cs));
  }

  lemma {:induction false} FilterFour(a: seq<Token>, b: seq<Token>, c: seq<Token>, d: seq<Token>)
    ensures Filter(HasType, a + b + c + d) ==
            Filter(HasType, a) + Filter(HasType, b) + Filter(HasType, c) + Filter(HasType, d)
  {
    FilterConcat(HasType, a + b + c, d);
    FilterConcat(HasType, a + b, c);
    FilterConcat(HasType, a, b);
  }

  /** The C module pushes what it would for filled rows, except the tags without a type. */
  lemma {:induction false} EmitFilled(v: View, id: int, d: nat, isbase: bool)
    requires NoEmptyTypes(v.ctxs)
    requires HaltsWithin(InOrder(v), id, d) && HaltsWithin(InOrder(FillView(v)), id, d)
    ensures Emit(Explore(InOrder(v), id, d), isbase) ==
            Filter(HasType, Emit(Explore(InOrder(FillView(v)), id, d), isbase))
    decreases d, 0
  {
    FilledRows(v, id);
    var a, b := Explore(InOrder(v), id, d), Explore(InOrder(FillView(v)), id, d);
    if KeyOk(InOrder(v), id) {
      EmitAllFilled(v, KidRows(v, id), d - 1);
      ConfsFilled(JoinRows(v, id));
      FilterFour(OpenTokens(b, isbase), ConfTokens(b.dirs.rows), EmitAll(b.kids.rows), CloseTokens(b, isbase));
      if KeyRows(v, id) != [] {
        assert KeyRows(v, id)[0] in v.ctxs;
        TagsFilled(KeyRows(v, id)[0], a, b, isbase);
      }
    }
  }

  lemma {:induction false} EmitAllFilled(v: View, rows: seq<CtxRow>, d: nat)
    requires NoEmptyTypes(v.ctxs)
    requires forall r :: r in rows ==> HaltsWithin(InOrder(v), r.id, d)
    requires forall r :: r in Map(Fill, rows) ==> HaltsWithin(InOrder(FillView(v)), r.id, d)
    ensures EmitAll(ExploreAll(InOrder(v), rows, d)) ==
            Filter(HasType, EmitAll(ExploreAll(InOrder(FillView(v)), Map(Fill, rows), d)))
    decreases d, 1, |rows|
  {
    if rows != [] {
      var filled := Map(Fill, rows);
      assert filled[1..] == Map(Fill, rows[1..]) && filled[0] in filled && filled[0].id == rows[0].id;
      var vs, ws := ExploreAll(InOrder(v), rows, d), ExploreAll(InOrder(FillView(v)), filled, d);
      assert vs[1..] == ExploreAll(InOrder(v), rows[1..], d);
      assert ws[1..] == ExploreAll(InOrder(FillView(v)), filled[1..], d);
      EmitFilled(v, rows[0].id, d, false);
      EmitAllFilled(v, rows[1..], d);
      FilterConcat(HasType, Emit(ws[0], false), EmitAll(ws[1..]));
    }
  }

  /** A script that finishes has written a row for every context and directive, recognised or not. */
  lemma {:induction false} ProcessWritesAll(s: Store, t: Tree, id: Option<int>)
    requires BodyAll(ReadHeader, t)
    ensures Process(s, t, id).1 ==> Adds(s, Process(s, t, id).0, AllDirectives(t), Headers(t))
    decreases t, 1
  {
    match id
    case None =>
      if t.dirs == [] {
        ProcessAllWritesAll(s, t.kids, None);
        assert AllDirectives(t) == DirectivesBelow(t.kids) && Headers(t) == HeadersBelow(t.kids);
      }
    case Some(n) =>
      var s1 := WithDirs(s, n, t.dirs);
      DirsAdded(s, n, t.dirs);
      ProcessAllWritesAll(s1, t.kids, id);
      if Process(s, t, id).1 {
        AddsTrans(s, s1, Process(s, t, id).0, t.dirs, [], DirectivesBelow(t.kids), HeadersBelow(t.kids));
        assert [] + HeadersBelow(t.kids) == Headers(t);
      }
  }

  lemma {:induction false} DirsAdded(s: Store, id: int, ds: seq<Directive>)
    ensures Adds(s, WithDirs(s, id, ds), ds, [])
  {
    MapConcat(DirectiveOf(), s.dirs, Map(Locate(id), ds));
    assert Map(DirectiveOf(), Map(Locate(id), ds)) == ds;
    assert Written(s).1 + [] == Written(s).1;
  }

  lemma {:induction false} RowAdded(s: Store, id: Option<int>, t: Tree)
    requires ReadHeader(Open(t.typ, t.value))
    ensures Adds(s, WithRow(s, RowUnder(s, id, t)), [], [(t.typ, t.value)])
  {
    var r := RowUnder(s, id, t);
    MapConcat(HeaderOf(), s.ctxs, [r]);
    assert Map(HeaderOf(), [r]) == [(t.typ, t.value)];
    assert Written(s).0 + [] == Written(s).0;
  }

  lemma {:induction false} ProcessAllWritesAll(s: Store, kids: seq<Tree>, id: Option<int>)
    requires forall k :: k in kids ==> ReadHeader(Open(k.typ, k.value)) && BodyAll(ReadHeader, k)
    ensures ProcessAll(s, kids, id).1 ==>
              Adds(s, ProcessAll(s, kids, id).0, DirectivesBelow(kids), HeadersBelow(kids))
    decreases kids, 0
  {
    if kids == [] {
      assert Written(s).0 + [] == Written(s).0 && Written(s).1 + [] == Written(s).1;
    } else {
      var t := kids[0];
      assert t in kids;
      ProcessOneWritesAll(s, t, id);
      var r := ProcessOne(s, t, id);
      ProcessAllWritesAll(r.0, kids[1..], id);
      if ProcessAll(s, kids, id).1 {
        AddsTrans(s, r.0, ProcessAll(s, kids, id).0, AllDirectives(t), [(t.typ, t.value)] + Headers(t),
                  DirectivesBelow(kids[1..]), HeadersBelow(kids[1..]));
      }
    }
  }

  lemma {:induction false} ProcessOneWritesAll(s: Store, t: Tree, id: Option<int>)
    requires ReadHeader(Open(t.typ, t.value)) && BodyAll(ReadHeader, t)
    ensures ProcessOne(s, t, id).1 ==>
              Adds(s, ProcessOne(s, t, id).0, AllDirectives(t), [(t.typ, t.value)] + Headers(t))
    decreases t, 2
  {
    var s1 := WithRow(s, RowUnder(s, id, t));
    var hit := None;
    if t.typ != "" && id.Some? {
      JustInserted(s, id.value, t);
      hit := Some(LookedUp(s1, t, id.value).id);
    }
    RowAdded(s, id, t);
    ProcessWritesAll(s1, t, hit);
    if ProcessOne(s, t, id).1 {
      AddsTrans(s, s1, ProcessOne(s, t, id).0, [], [(t.typ, t.value)], AllDirectives(t), Headers(t));
      assert [] + AllDirectives(t) == AllDirectives(t);
    }
  }
}

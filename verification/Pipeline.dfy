/** From a configuration file through the tables and back to configuration text. */
module Pipeline {
  import opened Prelude
  import opened Document
  import opened Tables
  import opened Absorb
  import opened Store
  import opened Attempt
  import opened Unrecognised
  import opened ImportDecodes
  import opened Walk
  import opened Termination
  import opened WalkDocument
  import opened Reordering
  import opened ConfLines
  import opened ConfParser
  import opened PlainLines
  import opened NormalForm
  import opened Sql
  import opened Conf2Sql
  import opened ModConfSql
  import Cursor

  // ----- the walk of tidy tables prints what they decode to

  lemma {:induction false} JoinIsLocated(v: View, next: int, id: int)
    ensures Map(DirOf, JoinRows(v, id)) == DirsAt(StoreOf(v, next), id)
  {
    LocatedFilter(v.placed, id);
    var ps := Filter(InContext(id), v.placed);
    assert Map(DirectiveOf(), Map(LocatedOf(), ps)) == Map(DirOf, Map(ConfOf(), ps));
  }

  lemma {:induction false} LocatedFilter(ps: seq<Placed>, id: int)
    ensures Filter(At(id), Map(LocatedOf(), ps)) == Map(LocatedOf(), Filter(InContext(id), ps))
  {
    if ps != [] {
      LocatedFilter(ps[1..], id);
      assert Map(LocatedOf(), ps)[1..] == Map(LocatedOf(), ps[1..]);
    }
  }

  /** The C module, reading in table order, sees the tree the tables decode to. */
  lemma {:induction false} WalkDecodes(v: View, next: int, r: CtxRow, d: nat)
    requires Tidy(StoreOf(v, next)) && AllTyped(v) && r in v.ctxs && HaltsWithin(InOrder(v), r.id, d)
    ensures Seen(InOrder(v), v, r, d) == Decode(StoreOf(v, next), r)
    decreases d
  {
    var s := StoreOf(v, next);
    var rows := KidRows(v, r.id);
    SeenParts(InOrder(v), v, r, d);
    JoinIsLocated(v, next, r.id);
    KidsInfo(s, r.id);
    assert rows == KidsAt(s, r.id);
    var kids := DecodeAll(s, rows, r.id);
    forall i | 0 <= i < |rows| ensures Seen(InOrder(v), v, r, d).kids[i] == kids[i] {
      WalkDecodes(v, next, rows[i], d - 1);
      DecodeAllAt(s, rows, r.id, i);
    }
  }

  // ----- after an import

  /** `v` shows the tables right after the script finished with `t` under the fresh default context `n`. */
  ghost predicate AfterImport(v: View, n: int, t: Tree) {
    exists next: int :: (StoreOf(v, next), true) == Process(RootStore(n), t, Some(n))
  }

  /** `v` shows tables into which `t` was loaded, up to the choice of directive ids. */
  ghost predicate Loaded(v: View, n: int, t: Tree) {
    exists next: int :: StoreOf(v, next) == Load(RootStore(n), t, n)
  }

  lemma {:induction false} RecognisedLoads(v: View, n: int, t: Tree)
    requires AfterImport(v, n, t) && Recognised(t)
    ensures Loaded(v, n, t)
  {
    var next :| (StoreOf(v, next), true) == Process(RootStore(n), t, Some(n));
    ProcessLoads(RootStore(n), t, n);
    assert StoreOf(v, next) == Load(RootStore(n), t, n);
  }

  /** Where contexts without a type are all empty, the tables are loaded once their rows are filled. */
  lemma {:induction false} ImportFills(v: View, n: int, t: Tree)
    requires AfterImport(v, n, t) && UnrecognisedEmpty(t) && BodyAll(ReadHeader, t)
    ensures Loaded(FillView(v), n, t) && NoEmptyTypes(v.ctxs)
  {
    var next :| (StoreOf(v, next), true) == Process(RootStore(n), t, Some(n));
    ProcessFills(RootStore(n), t, n);
    ProcessTypes(RootStore(n), t, Some(n));
    assert FillStore(RootStore(n)) == RootStore(n);
    assert StoreOf(FillView(v), next) == FillStore(StoreOf(v, next));
  }

  lemma {:induction false} RootTidy(n: int)
    ensures Tidy(RootStore(n)) && Decode(RootStore(n), RootRow(n)) == BLANK_ROOT
  {
    var s := RootStore(n);
    FilterNone(ChildOf(n), s.ctxs);
    FilterNone(At(n), s.dirs);
  }

  const BLANK_ROOT := Tree("default", "", [], [])

  /** The tree the tables hold after an import. */
  lemma {:induction false} ImportStores(v: View, n: int, t: Tree) returns (next: int)
    requires Loaded(v, n, t)
    ensures Tidy(StoreOf(v, next)) && RootRow(n) in v.ctxs && n < next && AllTyped(v)
    ensures Decode(StoreOf(v, next), RootRow(n)) == Absorbed(BLANK_ROOT, t)
    ensures forall r :: r in v.ctxs && r.parent.None? ==> r == RootRow(n)
  {
    next :| StoreOf(v, next) == Load(RootStore(n), t, n);
    RootTidy(n);
    LoadDecodes(RootStore(n), t, RootRow(n));
    var s := StoreOf(v, next);
    assert s.ctxs == RootStore(n).ctxs + s.ctxs[1..];
    assert s.ctxs[0] == RootRow(n);
    forall r | r in v.ctxs && r.parent.None? ensures r == RootRow(n) {
      assert r in s.ctxs[1..] ==> r.parent.Some?;
    }
  }

  /** Reading the tables back with any server that answers honestly, in whatever order. */
  lemma {:induction false} ReadBack(s: Server, v: View, n: int, t: Tree) returns (seen: Tree)
    requires Loaded(v, n, t)
    requires Honest(s, v) && AllSucceed(s)
    ensures HaltsWithin(s, n, |v.ctxs| + 1)
    ensures Emit(Explore(s, n, |v.ctxs| + 1), true) == PrintBody(seen)
    ensures SameUpToOrder(seen, Absorbed(BLANK_ROOT, t))
    ensures s == InOrder(v) ==> seen == Absorbed(BLANK_ROOT, t)
  {
    var next := ImportStores(v, n, t);
    var root, d := RootRow(n), |v.ctxs| + 1;
    RootHalts(s, v, root);
    RootHalts(InOrder(v), v, root);
    seen := Seen(s, v, root, d);
    WalkTyped(s, v, root, d);
    EmitIsPrint(Explore(s, n, d));
    WalkDecodes(v, next, root, d);
    AnyOrder(s, InOrder(v), v, root, d);
  }

  // ----- and parsing the text again

  /** The stored tree holds what the blank one held and what was imported. */
  lemma {:induction false} AbsorbedBody(p: Token -> bool, acc: Tree, t: Tree)
    ensures BodyAll(p, Absorbed(acc, t)) <==> BodyAll(p, acc) && BodyAll(p, t)
    decreases t, 1
  {
    AbsorbedBodies(p, acc.kids, t.kids);
  }

  predicate TreeAll(p: Token -> bool, t: Tree) { p(Open(t.typ, t.value)) && BodyAll(p, t) }

  predicate TreesAll(p: Token -> bool, ts: seq<Tree>) { forall k :: k in ts ==> TreeAll(p, k) }

  lemma {:induction false} TreesSplit(p: Token -> bool, ts: seq<Tree>, i: nat, t: Tree)
    requires i < |ts| && (TreeAll(p, ts[i]) <== TreeAll(p, t))
    ensures TreesAll(p, ts[i := t]) && TreeAll(p, ts[i]) <==> TreesAll(p, ts) && TreeAll(p, t)
  {
    assert forall j :: 0 <= j < |ts| && j != i ==> ts[i := t][j] == ts[j];
    assert ts[i := t][i] == t;
  }

  lemma {:induction false} AbsorbedBodies(p: Token -> bool, acc: seq<Tree>, kids: seq<Tree>)
    ensures TreesAll(p, AbsorbedAll(acc, kids)) <==> TreesAll(p, acc) && TreesAll(p, kids)
    decreases kids, 0
  {
    if kids != [] {
      var grown := acc + [Blank(kids[0])];
      assert Twins(grown[|acc|], kids[0]);
      var i := FirstTwin(grown, kids[0]);
      AbsorbedBody(p, grown[i], kids[0]);
      var next := grown[i := Absorbed(grown[i], kids[0])];
      TreesSplit(p, grown, i, next[i]);
      AbsorbedBodies(p, next, kids[1..]);
      assert TreesAll(p, next) ==> TreeAll(p, next[i]);
      assert TreeAll(p, next[i]) <==> TreeAll(p, grown[i]) && BodyAll(p, kids[0]);
      assert TreesAll(p, grown) <==> TreesAll(p, acc) && TreeAll(p, Blank(kids[0]));
      assert TreesAll(p, kids) <==> TreeAll(p, kids[0]) && TreesAll(p, kids[1..]);
    }
  }

  /** The printed text of the stored tree, read again. */
  lemma {:induction false} StoredReadsBack(t: Tree)
    requires t.typ == "default" && t.value == ""
    ensures var again, stored := Parsed(TextOf(Absorbed(BLANK_ROOT, t))), Absorbed(BLANK_ROOT, t);
            && (again == Some(Stack(Frame("default", "", stored.dirs, stored.kids), [])) <==> PlainBody(t))
            && (PlainBody(t) ==> (Seal(again.value.ctx) == t <==> LaterTwinsEmpty(t)))
  {
    AbsorbedBody(PlainToken, BLANK_ROOT, t);
    TextReadsBackIff(Absorbed(BLANK_ROOT, t));
    assert Blank(t) == BLANK_ROOT;
    FaithfulIff(t);
  }

  /**
   * The whole pipeline: import a tree into emptied tables, let the C module read them back from
   * the NULL-parent root in table order, and parse the emitted text. The result is the absorbed
   * tree exactly when the source is plain; then it is the source tree itself exactly when every
   * context with an earlier sibling of the same type and value is empty.
   */
  lemma {:induction false} PipelineRoundTrip(v: View, n: int, t: Tree)
    requires AfterImport(v, n, t) && Recognised(t) && t.typ == "default" && t.value == ""
    ensures HaltsWithin(InOrder(v), n, |v.ctxs| + 1)
    ensures var again := Parsed(Flatten(RenderAll(Emit(Explore(InOrder(v), n, |v.ctxs| + 1), true))));
            var stored := Absorbed(BLANK_ROOT, t);
            && (again == Some(Stack(Frame("default", "", stored.dirs, stored.kids), [])) <==> PlainBody(t))
            && (PlainBody(t) ==> (Seal(again.value.ctx) == t <==> LaterTwinsEmpty(t)))
  {
    RecognisedLoads(v, n, t);
    var seen := ReadBack(InOrder(v), v, n, t);
    StoredReadsBack(t);
  }

  lemma {:induction false} ReorderedPlain(a: Tree, b: Tree)
    requires SameUpToOrder(a, b) && PlainBody(b)
    ensures PlainBody(a)
  {
    MultisetMember(a.dirs, b.dirs);
    var p: seq<nat> :| IsPermutation(p, |a.kids|)
      && forall i :: 0 <= i < |a.kids| ==> SameUpToOrder(a.kids[i], b.kids[p[i]]);
    forall i | 0 <= i < |a.kids| ensures PlainTree(a.kids[i]) {
      assert b.kids[p[i]] in b.kids;
      ReorderedPlain(a.kids[i], b.kids[p[i]]);
    }
  }

  lemma {:induction false} ReadBackAnyOrder(s: Server, v: View, n: int, t: Tree) returns (seen: Tree)
    requires AfterImport(v, n, t) && t.typ == "default" && t.value == ""
    requires PlainBody(t) && Recognised(t) && SiblingsDiffer(t)
    requires Honest(s, v) && AllSucceed(s)
    ensures HaltsWithin(s, n, |v.ctxs| + 1)
    ensures Emit(Explore(s, n, |v.ctxs| + 1), true) == PrintBody(seen)
    ensures SameUpToOrder(seen, t) && PlainBody(seen)
  {
    RecognisedLoads(v, n, t);
    seen := ReadBack(s, v, n, t);
    SiblingsDifferSuffices(t);
    FaithfulIff(t);
    ReorderedPlain(seen, t);
  }

  /** With siblings that differ, and whatever order the SELECTs answer in: the same tree up to order. */
  lemma {:induction false} PipelineAnyOrder(s: Server, v: View, n: int, t: Tree)
    requires AfterImport(v, n, t) && t.typ == "default" && t.value == ""
    requires PlainBody(t) && Recognised(t) && SiblingsDiffer(t)
    requires Honest(s, v) && AllSucceed(s)
    ensures HaltsWithin(s, n, |v.ctxs| + 1)
    ensures var again := Parsed(Flatten(RenderAll(Emit(Explore(s, n, |v.ctxs| + 1), true))));
            again.Some? && again.value.outer == [] && SameUpToOrder(Seal(again.value.ctx), t)
  {
    var seen := ReadBackAnyOrder(s, v, n, t);
    TextRoundTrip(seen);
    assert Seal(Frame("default", "", seen.dirs, seen.kids)) == seen;
  }

  /** The NULL-parent row is the only one exactly when every context without a type was empty. */
  lemma {:induction false} OneRootIff(v: View, n: int, t: Tree)
    requires AfterImport(v, n, t)
    ensures [RootRow(n)] <= Filter(IsRoot(), v.ctxs)
    ensures Filter(IsRoot(), v.ctxs) == [RootRow(n)] <==> UnrecognisedEmpty(t)
  {
    var next :| (StoreOf(v, next), true) == Process(RootStore(n), t, Some(n));
    ProcessRoots(RootStore(n), t, Some(n));
    assert Filter(IsRoot(), [RootRow(n)]) == [RootRow(n)];
  }

  /**
   * The document of the C module, in table order, where contexts without a type are all empty: the
   * print of the absorbed tree without the tags of those contexts.
   */
  lemma {:induction false} ServedDocument(v: View, n: int, t: Tree)
    requires AfterImport(v, n, t) && UnrecognisedEmpty(t) && BodyAll(ReadHeader, t)
    ensures HaltsWithin(InOrder(v), n, |v.ctxs| + 1)
    ensures Emit(Explore(InOrder(v), n, |v.ctxs| + 1), true) ==
            Filter(HasType, PrintBody(Absorbed(BLANK_ROOT, t)))
  {
    ImportFills(v, n, t);
    var seen := ReadBack(InOrder(FillView(v)), FillView(v), n, t);
    FilledHalts(v, n, |v.ctxs| + 1);
    EmitFilled(v, n, |v.ctxs| + 1, true);
  }

  lemma {:induction false} AllTagsTyped(t: Tree)
    requires Recognised(t)
    ensures Filter(HasType, PrintBody(Absorbed(BLANK_ROOT, t))) == PrintBody(Absorbed(BLANK_ROOT, t))
  {
    RecognisedHeaders(t);
    AbsorbedBody(HasType, BLANK_ROOT, t);
    PrintBodyAll(HasType, Absorbed(BLANK_ROOT, t));
    FilterAll(HasType, PrintBody(Absorbed(BLANK_ROOT, t)));
  }

  /** The lines the C module serves after an import that finished, by what became of unmatched tags. */
  lemma {:induction false} LinesAfterImport(v: View, n: int, t: Tree)
    requires AfterImport(v, n, t) && BodyAll(ReadHeader, t)
    ensures var roots, d := Filter(IsRoot(), v.ctxs), |v.ctxs| + 1;
            && (|roots| == 1 ==> HaltsWithin(InOrder(v), roots[0].id, d))
            && DocumentOf(InOrder(v), roots, d) ==
               if UnrecognisedEmpty(t) then RenderAll(Filter(HasType, PrintBody(Absorbed(BLANK_ROOT, t)))) else []
  {
    var roots := Filter(IsRoot(), v.ctxs);
    OneRootIff(v, n, t);
    if UnrecognisedEmpty(t) {
      ServedDocument(v, n, t);
    } else {
      assert |roots| > 1 by {
        assert roots[..1] == [RootRow(n)];
      }
    }
  }

  /** When the script finishes, and that nothing is left out where all tags were recognised. */
  lemma {:induction false} ImportCases(n: int, t: Tree)
    requires BodyAll(ReadHeader, t)
    ensures UnrecognisedEmpty(t) ==> Process(RootStore(n), t, Some(n)).1
    ensures Recognised(t) ==>
              && UnrecognisedEmpty(t)
              && Filter(HasType, PrintBody(Absorbed(BLANK_ROOT, t))) == PrintBody(Absorbed(BLANK_ROOT, t))
  {
    if UnrecognisedEmpty(t) {
      ProcessFills(RootStore(n), t, n);
    }
    if Recognised(t) {
      RecognisedHeaders(t);
      AllTagsTyped(t);
    }
  }

  /**
   * The two programs one after the other, as an administrator runs them. `t` is what the script
   * had read when the input ended.
   */
  method ImportAndRead(f: File, db: Database, m: ConfSql) returns (ok: bool, ghost t: Tree)
    requires db.Valid() && m.Globals() == Cursor.INITIAL
    modifies db, m
    ensures db.Valid() && (ok ==> Run(START, Tokens(f)).Some?)
    ensures Run(START, Tokens(f)).Some? ==> t == Seal(Run(START, Tokens(f)).value.ctx)
    ensures Run(START, Tokens(f)).Some? && UnrecognisedEmpty(t) ==>
              ok && m.lines == RenderAll(Filter(HasType, PrintBody(Absorbed(BLANK_ROOT, t))))
    ensures Run(START, Tokens(f)).Some? && Recognised(t) ==>
              ok && m.lines == RenderAll(PrintBody(Absorbed(BLANK_ROOT, t)))
    ensures ok && !UnrecognisedEmpty(t) ==> m.lines == []
  {
    ghost var n, parsed := db.nextCtx, Run(START, Tokens(f));
    t := BLANK_ROOT;
    ok := Import(f, db);
    if parsed.Some? {
      t := Seal(parsed.value.ctx);
      ParsedHeaders(f);
      ImportCases(n, t);
    }
    if !ok {
      return false, t;
    }
    var v := db.Contents();
    assert AfterImport(v, n, t);
    LinesAfterImport(v, n, t);
    var read := m.ReadDb(InOrder(v), Rows(Filter(IsRoot(), v.ctxs)), true, true, v, v.ctxs, None);
  }
}

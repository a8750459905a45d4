/** From a configuration file through the tables and back to a file, by the two Perl scripts. */
module Export {
  import opened Prelude
  import opened Document
  import opened Tables
  import opened Absorb
  import opened Store
  import opened Attempt
  import opened Unrecognised
  import opened ImportRows
  import opened Walk
  import opened Termination
  import opened WalkDocument
  import opened Reordering
  import opened ConfLines
  import opened ConfParser
  import opened PlainLines
  import opened Sql
  import opened Conf2Sql
  import opened Pipeline
  import opened Sql2Conf
  import opened Agreement
  import opened PerlRoundTrip

  lemma {:induction false} FetchedNode(v: View, id: int, d: nat)
    requires HaltsWithin(InOrder(v), id, d) && |KeyRows(v, id)| <= 1
    ensures forall r :: r in KidRows(v, id) ==> HaltsWithin(InOrder(v), r.id, d - 1)
    ensures var rows := KeyRows(v, id);
            FetchedFrom(v, id, d) ==
            Tree(if rows == [] then "" else TypeOf(rows[0]), if rows == [] then "" else ValueOf(rows[0]),
                 Map(DirOf, JoinRows(v, id)), FetchedAll(ExploreAll(InOrder(v), KidRows(v, id), d - 1)))
  {
    assert KeyOk(InOrder(v), id);
  }

  /** get_ctx reads the rows of contexts without a type as if they were filled. */
  lemma {:induction false} FetchedFilled(v: View, id: int, d: nat)
    requires HaltsWithin(InOrder(v), id, d) && HaltsWithin(InOrder(FillView(v)), id, d)
    ensures FetchedFrom(v, id, d) == FetchedFrom(FillView(v), id, d)
    decreases d, 0
  {
    FilledRows(v, id);
    if |KeyRows(v, id)| <= 1 {
      FetchedNode(v, id, d);
      FetchedNode(FillView(v), id, d);
      FetchedAllFilled(v, KidRows(v, id), d - 1);
    } else {
      assert Explore(InOrder(v), id, d) == Skipped(id) == Explore(InOrder(FillView(v)), id, d);
    }
  }

  lemma {:induction false} FetchedAllFilled(v: View, rows: seq<CtxRow>, d: nat)
    requires forall r :: r in rows ==> HaltsWithin(InOrder(v), r.id, d)
    requires forall r :: r in Map(Fill, rows) ==> HaltsWithin(InOrder(FillView(v)), r.id, d)
    ensures FetchedAll(ExploreAll(InOrder(v), rows, d)) ==
            FetchedAll(ExploreAll(InOrder(FillView(v)), Map(Fill, rows), d))
    decreases d, 1, |rows|
  {
    if rows != [] {
      var filled := Map(Fill, rows);
      assert filled[1..] == Map(Fill, rows[1..]) && filled[0] in filled && filled[0].id == rows[0].id;
      assert ExploreAll(InOrder(v), rows, d)[1..] == ExploreAll(InOrder(v), rows[1..], d);
      assert ExploreAll(InOrder(FillView(v)), filled, d)[1..] == ExploreAll(InOrder(FillView(v)), filled[1..], d);
      FetchedFilled(v, rows[0].id, d);
      FetchedAllFilled(v, rows[1..], d);
    }
  }

  lemma {:induction false} LoadedFetches(v: View, n: int, t: Tree)
    requires Loaded(v, n, t)
    ensures HaltsWithin(InOrder(v), n, |v.ctxs| + 1)
    ensures FetchedFrom(v, n, |v.ctxs| + 1) == Absorbed(BLANK_ROOT, t)
  {
    var next := ImportStores(v, n, t);
    var d := |v.ctxs| + 1;
    RootHalts(InOrder(v), v, RootRow(n));
    WalkTyped(InOrder(v), v, RootRow(n), d);
    FetchedIsTreeOf(Explore(InOrder(v), n, d));
    WalkDecodes(v, next, RootRow(n), d);
  }

  /**
   * process_ctx encodes and get_ctx decodes: what is fetched from the root is the absorbed tree,
   * contexts without a type included where they are empty.
   */
  lemma {:induction false} ImportFetches(v: View, n: int, t: Tree)
    requires AfterImport(v, n, t) && UnrecognisedEmpty(t) && BodyAll(ReadHeader, t)
    ensures HaltsWithin(InOrder(v), n, |v.ctxs| + 1)
    ensures FetchedFrom(v, n, |v.ctxs| + 1) == Absorbed(BLANK_ROOT, t)
    ensures t.typ == "default" && t.value == "" ==>
              (FetchedFrom(v, n, |v.ctxs| + 1) == t <==> LaterTwinsEmpty(t))
  {
    ImportFills(v, n, t);
    LoadedFetches(FillView(v), n, t);
    FilledHalts(v, n, |v.ctxs| + 1);
    FetchedFilled(v, n, |v.ctxs| + 1);
    FaithfulIff(t);
  }

  // ----- one row for each context

  function Size(t: Tree): nat
    decreases t, 1
  {
    1 + SizeAll(t.kids)
  }

  function SizeAll(ts: seq<Tree>): nat
    decreases ts, 0
  {
    if ts == [] then 0 else Size(ts[0]) + SizeAll(ts[1..])
  }

  /**
   * `rows` are the rows of the contexts of `t`, parents first: each has the type and value of its
   * context, the id of its parent's row as parent, and the directives of its context joined to it.
   */
  ghost predicate Owned(v: View, rows: seq<CtxRow>, t: Tree, parent: Option<int>)
    decreases t, 1
  {
    && |rows| == Size(t)
    && rows[0].parent == parent && TypeOf(rows[0]) == t.typ && ValueOf(rows[0]) == t.value
    && Map(DirOf, JoinRows(v, rows[0].id)) == t.dirs
    && OwnedAll(v, rows[1..], t.kids, rows[0].id)
  }

  ghost predicate OwnedAll(v: View, rows: seq<CtxRow>, ts: seq<Tree>, parent: int)
    decreases ts, 0
  {
    if ts == [] then rows == []
    else
      && Size(ts[0]) <= |rows|
      && Owned(v, rows[..Size(ts[0])], ts[0], Some(parent))
      && OwnedAll(v, rows[Size(ts[0])..], ts[1..], parent)
  }

  /** The rows a walk found, in the order of the calls. */
  function RowsOf(v: Visit): seq<CtxRow>
    requires Typed(v) && v.Visited?
    decreases v, 1
  {
    [v.key.value] + RowsOfAll(v.kids.rows)
  }

  function RowsOfAll(vs: seq<Visit>): seq<CtxRow>
    requires TypedAll(vs)
    decreases vs, 0
  {
    if vs == [] then [] else (if vs[0].Visited? then RowsOf(vs[0]) else []) + RowsOfAll(vs[1..])
  }

  function IdOf(r: CtxRow): int { r.id }

  lemma {:induction false} WalkOwned(v: View, r: CtxRow, d: nat)
    requires UniqueIds(v.ctxs) && AllTyped(v) && r in v.ctxs && HaltsWithin(InOrder(v), r.id, d)
    ensures var visit := Explore(InOrder(v), r.id, d);
            && Typed(visit) && visit.Visited?
            && Owned(v, RowsOf(visit), TreeOf(visit), r.parent)
            && Map(IdOf, RowsOf(visit)) == Visits(visit)
            && forall x :: x in RowsOf(visit) ==> x in v.ctxs
    decreases d, 0
  {
    var s := InOrder(v);
    ExploreRow(s, v, r, d);
    var rows := s.kids(r.id).rows;
    forall k | k in rows ensures k.parent == Some(r.id) {
      assert k in KidRows(v, r.id);
    }
    WalkOwnedAll(v, rows, r.id, d - 1);
    OwnedNode(v, r, ExploreAll(s, rows, d - 1));
  }

  lemma {:induction false} OwnedNode(v: View, r: CtxRow, vs: seq<Visit>)
    requires TypedAll(vs) && r.typ.Some? && r in v.ctxs
    requires |RowsOfAll(vs)| == SizeAll(TreesOf(vs)) && OwnedAll(v, RowsOfAll(vs), TreesOf(vs), r.id)
    requires Map(IdOf, RowsOfAll(vs)) == VisitsAll(vs) && forall x :: x in RowsOfAll(vs) ==> x in v.ctxs
    ensures var visit := Visited(r.id, Some(r), Rows(JoinRows(v, r.id)), Rows(vs));
            && Typed(visit) && visit.Visited?
            && Owned(v, RowsOf(visit), TreeOf(visit), r.parent)
            && Map(IdOf, RowsOf(visit)) == Visits(visit)
            && forall x :: x in RowsOf(visit) ==> x in v.ctxs
  {
    var visit := Visited(r.id, Some(r), Rows(JoinRows(v, r.id)), Rows(vs));
    var below := RowsOfAll(vs);
    assert RowsOf(visit) == [r] + below && RowsOf(visit)[1..] == below;
    MapConcat(IdOf, [r], below);
    assert Map(IdOf, [r]) == [r.id];
  }

  lemma {:induction false} WalkOwnedAll(v: View, rows: seq<CtxRow>, parent: int, d: nat)
    requires UniqueIds(v.ctxs) && AllTyped(v)
    requires forall r :: r in rows ==> r in v.ctxs && r.parent == Some(parent) && HaltsWithin(InOrder(v), r.id, d)
    ensures var vs := ExploreAll(InOrder(v), rows, d);
            && TypedAll(vs)
            && |RowsOfAll(vs)| == SizeAll(TreesOf(vs))
            && OwnedAll(v, RowsOfAll(vs), TreesOf(vs), parent)
            && Map(IdOf, RowsOfAll(vs)) == VisitsAll(vs)
            && forall x :: x in RowsOfAll(vs) ==> x in v.ctxs
    decreases d, 1, |rows|
  {
    if rows != [] {
      var vs := ExploreAll(InOrder(v), rows, d);
      WalkOwned(v, rows[0], d);
      WalkOwnedAll(v, rows[1..], parent, d);
      assert vs[1..] == ExploreAll(InOrder(v), rows[1..], d);
      OwnedBoth(v, vs, parent);
      MapConcat(IdOf, RowsOf(vs[0]), RowsOfAll(vs[1..]));
    }
  }

  lemma {:induction false} OwnedBoth(v: View, vs: seq<Visit>, parent: int)
    requires TypedAll(vs) && vs != [] && vs[0].Visited?
    requires Owned(v, RowsOf(vs[0]), TreeOf(vs[0]), Some(parent))
    requires OwnedAll(v, RowsOfAll(vs[1..]), TreesOf(vs[1..]), parent)
    requires |RowsOfAll(vs[1..])| == SizeAll(TreesOf(vs[1..]))
    ensures RowsOfAll(vs) == RowsOf(vs[0]) + RowsOfAll(vs[1..])
    ensures |RowsOfAll(vs)| == SizeAll(TreesOf(vs)) && OwnedAll(v, RowsOfAll(vs), TreesOf(vs), parent)
  {
    var first, rest := RowsOf(vs[0]), RowsOfAll(vs[1..]);
    assert TreesOf(vs) == [TreeOf(vs[0])] + TreesOf(vs[1..]);
    assert TreesOf(vs)[1..] == TreesOf(vs[1..]);
    assert RowsOfAll(vs)[..|first|] == first && RowsOfAll(vs)[|first|..] == rest;
  }

  lemma {:induction false} FewElements<T>(ys: seq<T>)
    ensures |set y | y in ys| <= |ys|
  {
    if ys != [] {
      FewElements(ys[1..]);
      assert (set y | y in ys) == {ys[0]} + set y | y in ys[1..];
    }
  }

  lemma {:induction false} SameRows<T(!new)>(xs: seq<T>, ys: seq<T>)
    requires NoDup(xs) && NoDup(ys) && |xs| == |ys| && forall x :: x in xs ==> x in ys
    ensures multiset(xs) == multiset(ys)
  {
    FewElements(ys);
    forall y | y in ys ensures y in xs {
      if y !in xs {
        NoDupConcat([y], xs);
        NoDupCardinality([y] + xs, set x | x in ys);
        assert false;
      }
    }
    MultisetNoDup(xs);
    MultisetNoDup(ys);
    forall x ensures multiset(xs)[x] == multiset(ys)[x] {
      assert x in multiset(xs) <==> x in xs;
      assert x in multiset(ys) <==> x in ys;
    }
  }

  lemma {:induction false} AbsorbedSize(acc: Tree, t: Tree)
    ensures Size(Absorbed(acc, t)) == Size(acc) + Size(t) - 1
    decreases t, 1
  {
    AbsorbedSizes(acc.kids, t.kids);
  }

  lemma {:induction false} SizeReplaced(ts: seq<Tree>, i: nat, t: Tree)
    requires i < |ts|
    ensures SizeAll(ts[i := t]) == SizeAll(ts) - Size(ts[i]) + Size(t)
  {
    if i == 0 {
      assert ts[0 := t][1..] == ts[1..];
    } else {
      assert ts[i := t][1..] == ts[1..][i - 1 := t];
      SizeReplaced(ts[1..], i - 1, t);
    }
  }

  lemma {:induction false} SizeSnoc(ts: seq<Tree>, t: Tree)
    ensures SizeAll(ts + [t]) == SizeAll(ts) + Size(t)
  {
    if ts == [] {
      assert ts + [t] == [t] && [t][1..] == [];
    } else {
      assert (ts + [t])[1..] == ts[1..] + [t];
      SizeSnoc(ts[1..], t);
    }
  }

  lemma {:induction false} AbsorbedSizes(acc: seq<Tree>, kids: seq<Tree>)
    ensures SizeAll(AbsorbedAll(acc, kids)) == SizeAll(acc) + SizeAll(kids)
    decreases kids, 0
  {
    if kids != [] {
      var grown := acc + [Blank(kids[0])];
      assert Twins(grown[|acc|], kids[0]);
      var i := FirstTwin(grown, kids[0]);
      SizeSnoc(acc, Blank(kids[0]));
      AbsorbedSize(grown[i], kids[0]);
      SizeReplaced(grown, i, Absorbed(grown[i], kids[0]));
      AbsorbedSizes(grown[i := Absorbed(grown[i], kids[0])], kids[1..]);
    }
  }

  lemma {:induction false} HeadersSize(t: Tree)
    ensures |Headers(t)| == Size(t) - 1
    decreases t, 1
  {
    HeadersSizes(t.kids);
  }

  lemma {:induction false} HeadersSizes(ts: seq<Tree>)
    ensures |HeadersBelow(ts)| == SizeAll(ts)
    decreases ts, 0
  {
    if ts != [] {
      HeadersSize(ts[0]);
      HeadersSizes(ts[1..]);
    }
  }

  /**
   * After an import the context table holds exactly one row for each context of the stored tree,
   * under its parent's row id and with its directives joined to it.
   */
  lemma {:induction false} OneRowPerContext(v: View, n: int, t: Tree) returns (rows: seq<CtxRow>)
    requires AfterImport(v, n, t) && Recognised(t)
    ensures multiset(rows) == multiset(v.ctxs) && |rows| == Size(t)
    ensures Owned(v, rows, Absorbed(BLANK_ROOT, t), None)
  {
    RecognisedLoads(v, n, t);
    var next := ImportStores(v, n, t);
    var d := |v.ctxs| + 1;
    LoadedFetches(v, n, t);
    WalkOwned(v, RootRow(n), d);
    var visit := Explore(InOrder(v), n, d);
    WalkTyped(InOrder(v), v, RootRow(n), d);
    FetchedIsTreeOf(visit);
    rows := RowsOf(visit);
    ExactlyOnce(InOrder(v), v, n, d);
    forall i, j | 0 <= i < j < |rows| ensures rows[i] != rows[j] {
      assert Visits(visit)[i] != Visits(visit)[j];
    }
    AbsorbedSize(BLANK_ROOT, t);
    ImportCount(v, n, t);
    assert NoDup(v.ctxs);
    SameRows(rows, v.ctxs);
  }

  lemma {:induction false} ImportCount(v: View, n: int, t: Tree)
    requires AfterImport(v, n, t) && Recognised(t)
    ensures |v.ctxs| == Size(t)
  {
    var next :| (StoreOf(v, next), true) == Process(RootStore(n), t, Some(n));
    ProcessLoads(RootStore(n), t, n);
    ImportWritesAll(RootStore(n), t, n);
    HeadersSize(t);
    assert |Written(StoreOf(v, next)).1| == |v.ctxs|;
  }

  // ----- the exported file

  lemma {:induction false} AbsorbedExports(t: Tree)
    ensures PlainBody(Absorbed(BLANK_ROOT, t)) <==> PlainBody(t)
    ensures NoZero(Absorbed(BLANK_ROOT, t)) <==> NoZero(t)
  {
    AbsorbedBody(PlainToken, BLANK_ROOT, t);
    AbsorbedBody(NotZero, BLANK_ROOT, t);
    NoZeroIsAll(t);
    NoZeroIsAll(Absorbed(BLANK_ROOT, t));
  }

  /**
   * Import, export, and import again: the exported text is read as the absorbed tree exactly when
   * the source is plain and no context has the value "0"; then it is the source tree exactly when
   * later twins are empty.
   */
  lemma {:induction false} ExportRoundTrip(v: View, n: int, t: Tree)
    requires AfterImport(v, n, t) && UnrecognisedEmpty(t) && BodyAll(ReadHeader, t)
    requires t.typ == "default" && t.value == ""
    ensures HaltsWithin(InOrder(v), n, |v.ctxs| + 1)
    ensures var again := Parsed(ExportText(FetchedFrom(v, n, |v.ctxs| + 1)));
            var stored := Absorbed(BLANK_ROOT, t);
            && (again == Some(Stack(Frame("default", "", stored.dirs, stored.kids), []))
                <==> PlainBody(t) && NoZero(t))
            && (PlainBody(t) && NoZero(t) ==> (Seal(again.value.ctx) == t <==> LaterTwinsEmpty(t)))
  {
    ImportFetches(v, n, t);
    AbsorbedExports(t);
    ExportThenImportIff(Absorbed(BLANK_ROOT, t));
    FaithfulIff(t);
  }

  lemma {:induction false} AskedAfterImport(v: View, n: int, t: Tree)
    requires AfterImport(v, n, t) && BodyAll(ReadHeader, t) && n != 0 && UniqueIds(v.ctxs)
    ensures Asked(v, 0) == Some(n) && HaltsWithin(InOrder(v), n, |v.ctxs| + 1)
    ensures UnrecognisedEmpty(t) ==> FetchedFrom(v, n, |v.ctxs| + 1) == Absorbed(BLANK_ROOT, t)
  {
    OneRootIff(v, n, t);
    assert [RootRow(n)][0] == Filter(IsRoot(), v.ctxs)[0];
    assert RootRow(n) in Filter(IsRoot(), v.ctxs);
    RootHalts(InOrder(v), v, RootRow(n));
    if UnrecognisedEmpty(t) {
      ImportFetches(v, n, t);
    }
  }

  /**
   * The two scripts one after the other: the file that comes out spells the absorbed tree. `t` is
   * what had been read when the input ended.
   */
  method ImportAndExport(f: File, db: Database, out: Stdout) returns (ok: bool, ghost t: Tree)
    requires db.Valid()
    modifies db, out
    ensures db.Valid() && (ok ==> Run(START, Tokens(f)).Some?)
    ensures Run(START, Tokens(f)).Some? ==> t == Seal(Run(START, Tokens(f)).value.ctx)
    ensures Run(START, Tokens(f)).Some? && UnrecognisedEmpty(t) ==>
              ok && out.lines == old(out.lines) + ShowConf(Absorbed(BLANK_ROOT, t))
    ensures !ok ==> out.lines == old(out.lines)
  {
    ghost var n, parsed := db.nextCtx, Run(START, Tokens(f));
    t := BLANK_ROOT;
    ok := Import(f, db);
    if parsed.Some? {
      t := Seal(parsed.value.ctx);
      ParsedHeaders(f);
      ImportCases(n, t);
    }
    if !ok {
      return false, t;
    }
    var v := db.Contents();
    assert AfterImport(v, n, t);
    AskedAfterImport(v, n, t);
    var tree := GetCtx(v, 0, |v.ctxs| + 1);
    out.PrintConf(tree);
  }
}

/** Failing contexts and where clauses cut the document off exactly at their subtrees. */
module Pruning {
  import opened Prelude
  import opened Document
  import opened Tables
  import opened Walk
  import opened Termination
  import opened WalkDocument

  // ----- failing type/value SELECTs

  /** `s` answers like `s0`, but the type/value SELECT of the ids in `bad` fails or is ambiguous. */
  ghost predicate FailsOn(s: Server, s0: Server, bad: set<int>) {
    && (forall id :: id !in bad ==> s.key(id) == s0.key(id))
    && (forall id :: id in bad ==> s.key(id).Error? || |s.key(id).rows| > 1)
    && (forall id :: s.confs(id) == s0.confs(id))
    && (forall id :: s.kids(id) == s0.kids(id))
  }

  function Prune(v: Visit, bad: set<int>): Visit
    decreases v, 1
  {
    if v.Visited? && v.kids.Rows? then v.(kids := Rows(PruneAll(v.kids.rows, bad))) else v
  }

  function PruneAll(vs: seq<Visit>, bad: set<int>): seq<Visit>
    decreases vs, 0
  {
    if vs == [] then []
    else (if vs[0].id in bad then [] else [Prune(vs[0], bad)]) + PruneAll(vs[1..], bad)
  }

  lemma {:induction false} FailingHalts(s: Server, s0: Server, bad: set<int>, id: int, d: nat)
    requires FailsOn(s, s0, bad) && HaltsWithin(s0, id, d)
    ensures HaltsWithin(s, id, d)
    decreases d
  {
    forall r | r in NextRows(s, id) ensures HaltsWithin(s, r.id, d - 1) {
      assert r in NextRows(s0, id);
      FailingHalts(s, s0, bad, r.id, d - 1);
    }
  }

  /** The document lacks exactly the subtrees of the failing contexts. */
  lemma {:induction false} FailurePrunes(s: Server, s0: Server, bad: set<int>, id: int, d: nat, isbase: bool)
    requires FailsOn(s, s0, bad) && HaltsWithin(s0, id, d) && HaltsWithin(s, id, d) && id !in bad
    ensures Emit(Explore(s, id, d), isbase) == Emit(Prune(Explore(s0, id, d), bad), isbase)
    decreases d, 0
  {
    if Succeeded(Explore(s0, id, d)) {
      FailurePrunesAll(s, s0, bad, s.kids(id).rows, d - 1);
    }
  }

  lemma {:induction false} FailurePrunesAll(s: Server, s0: Server, bad: set<int>, rows: seq<CtxRow>, d: nat)
    requires FailsOn(s, s0, bad)
    requires forall r :: r in rows ==> HaltsWithin(s0, r.id, d) && HaltsWithin(s, r.id, d)
    ensures EmitAll(ExploreAll(s, rows, d)) == EmitAll(PruneAll(ExploreAll(s0, rows, d), bad))
    decreases d, 1, |rows|
  {
    if rows != [] {
      var id, vs := rows[0].id, ExploreAll(s0, rows, d);
      FailurePrunesAll(s, s0, bad, rows[1..], d);
      assert vs[1..] == ExploreAll(s0, rows[1..], d);
      assert ExploreAll(s, rows, d)[1..] == ExploreAll(s, rows[1..], d);
      if id in bad {
        assert Explore(s, id, d) == Skipped(id);
        assert PruneAll(vs, bad) == PruneAll(vs[1..], bad);
      } else {
        FailurePrunes(s, s0, bad, id, d, false);
        assert PruneAll(vs, bad) == [Prune(vs[0], bad)] + PruneAll(vs[1..], bad);
      }
    }
  }

  lemma {:induction false} PruneKeepsTyped(v: Visit, bad: set<int>)
    requires Typed(v)
    ensures Typed(Prune(v, bad))
    ensures Unclosed(Prune(v, bad), true) == 0
    decreases v, 1
  {
    if v.Visited? {
      PruneAllKeepsTyped(v.kids.rows, bad);
    }
  }

  lemma {:induction false} PruneAllKeepsTyped(vs: seq<Visit>, bad: set<int>)
    requires TypedAll(vs)
    ensures TypedAll(PruneAll(vs, bad)) && UnclosedAll(PruneAll(vs, bad)) == 0
    decreases vs, 0
  {
    if vs != [] {
      PruneKeepsTyped(vs[0], bad);
      PruneAllKeepsTyped(vs[1..], bad);
      var tail := PruneAll(vs[1..], bad);
      assert PruneAll(vs, bad) == if vs[0].id in bad then tail else [Prune(vs[0], bad)] + tail;
    }
  }

  /** So it is still well nested: it is the printed tree without those subtrees. */
  lemma {:induction false} FailureKeepsNesting(s: Server, s0: Server, bad: set<int>, base: int, d: nat)
    requires FailsOn(s, s0, bad) && HaltsWithin(s0, base, d) && base !in bad
    requires Typed(Explore(s0, base, d)) && KeyOk(s0, base)
    ensures HaltsWithin(s, base, d) && Typed(Prune(Explore(s0, base, d), bad))
    ensures Emit(Explore(s, base, d), true) == PrintBody(TreeOf(Prune(Explore(s0, base, d), bad)))
    ensures WellNested(Emit(Explore(s, base, d), true))
  {
    var pruned := Prune(Explore(s0, base, d), bad);
    FailingHalts(s, s0, bad, base, d);
    FailurePrunes(s, s0, bad, base, d, true);
    PruneKeepsTyped(Explore(s0, base, d), bad);
    EmitIsPrint(pruned);
    EmitNests(pruned, true, []);
  }

  // ----- where clauses

  /** The server when the ctx and conf parameters carry where clauses: each is ANDed in. */
  function Filtered(v: View, ctxWhere: CtxRow -> bool, confWhere: ConfRow -> bool): Server {
    Server(
      id => Rows(Filter((r: CtxRow) => r.id == id && ctxWhere(r), v.ctxs)),
      id => Rows(Map(ConfOf(), Filter((p: Placed) => p.ctxId == id && confWhere(p.conf), v.placed))),
      id => Rows(Filter((r: CtxRow) => r.parent == Some(id) && ctxWhere(r), v.ctxs)))
  }

  function OnConf(confWhere: ConfRow -> bool): Placed -> bool { (p: Placed) => confWhere(p.conf) }

  /** The rows the where clauses leave visible. */
  function Restrict(v: View, ctxWhere: CtxRow -> bool, confWhere: ConfRow -> bool): View {
    View(Filter(ctxWhere, v.ctxs), Filter(OnConf(confWhere), v.placed))
  }

  lemma {:induction false} FilteredRows(v: View, ctxWhere: CtxRow -> bool, confWhere: ConfRow -> bool, id: int)
    ensures var s, w := Filtered(v, ctxWhere, confWhere), Restrict(v, ctxWhere, confWhere);
            s.key(id).rows == KeyRows(w, id) && s.confs(id).rows == JoinRows(w, id) && s.kids(id).rows == KidRows(w, id)
    ensures var s := Filtered(v, ctxWhere, confWhere);
            && s.key(id).rows == Filter(ctxWhere, KeyRows(v, id))
            && s.kids(id).rows == Filter(ctxWhere, KidRows(v, id))
            && s.confs(id).rows == Filter(confWhere, JoinRows(v, id))
  {
    FilterTwice(RowIs(id), ctxWhere, (r: CtxRow) => r.id == id && ctxWhere(r), v.ctxs);
    FilterTwice(ctxWhere, RowIs(id), (r: CtxRow) => r.id == id && ctxWhere(r), v.ctxs);
    FilterTwice(ChildOf(id), ctxWhere, (r: CtxRow) => r.parent == Some(id) && ctxWhere(r), v.ctxs);
    FilterTwice(ctxWhere, ChildOf(id), (r: CtxRow) => r.parent == Some(id) && ctxWhere(r), v.ctxs);
    FilterTwice(InContext(id), OnConf(confWhere), (p: Placed) => p.ctxId == id && confWhere(p.conf), v.placed);
    FilterTwice(OnConf(confWhere), InContext(id), (p: Placed) => p.ctxId == id && confWhere(p.conf), v.placed);
    FilterMapConf(confWhere, Filter(InContext(id), v.placed));
  }

  lemma {:induction false} FilterMapConf(confWhere: ConfRow -> bool, ps: seq<Placed>)
    ensures Map(ConfOf(), Filter(OnConf(confWhere), ps)) == Filter(confWhere, Map(ConfOf(), ps))
  {
    if ps != [] {
      FilterMapConf(confWhere, ps[1..]);
      assert Map(ConfOf(), ps)[1..] == Map(ConfOf(), ps[1..]);
    }
  }

  /** A where clause is a smaller database, so the theorems about honest servers cover the walk. */
  lemma {:induction false} WhereIsRestriction(v: View, ctxWhere: CtxRow -> bool, confWhere: ConfRow -> bool)
    ensures Honest(Filtered(v, ctxWhere, confWhere), Restrict(v, ctxWhere, confWhere))
    ensures AllSucceed(Filtered(v, ctxWhere, confWhere))
    ensures forall r :: r in Restrict(v, ctxWhere, confWhere).ctxs ==> r in v.ctxs && ctxWhere(r)
    ensures UniqueIds(v.ctxs) ==> UniqueIds(Restrict(v, ctxWhere, confWhere).ctxs)
  {
    forall id {
      FilteredRows(v, ctxWhere, confWhere, id);
    }
    if UniqueIds(v.ctxs) {
      FilterUniqueIds(ctxWhere, v.ctxs);
    }
  }

  lemma {:induction false} FilterUniqueIds(p: CtxRow -> bool, ctxs: seq<CtxRow>)
    requires UniqueIds(ctxs)
    ensures UniqueIds(Filter(p, ctxs))
  {
    if ctxs != [] {
      assert forall r :: r in ctxs[1..] ==> r.id != ctxs[0].id;
      FilterUniqueIds(p, ctxs[1..]);
    }
  }

  /** Drop the directives the conf clause rejects and the subtrees the ctx clause rejects. */
  function Cut(v: Visit, ctxWhere: CtxRow -> bool, confWhere: ConfRow -> bool): Visit
    decreases v, 1
  {
    if Succeeded(v) then
      v.(dirs := Rows(Filter(confWhere, v.dirs.rows)), kids := Rows(CutAll(v.kids.rows, ctxWhere, confWhere)))
    else v
  }

  function CutAll(vs: seq<Visit>, ctxWhere: CtxRow -> bool, confWhere: ConfRow -> bool): seq<Visit>
    decreases vs, 0
  {
    if vs == [] then []
    else
      (if vs[0].Visited? && vs[0].key.Some? && ctxWhere(vs[0].key.value) then [Cut(vs[0], ctxWhere, confWhere)] else [])
      + CutAll(vs[1..], ctxWhere, confWhere)
  }

  /** `s` answers what `s0` answers, minus the rows a clause rejects. */
  ghost predicate Narrows(s: Server, s0: Server, ctxWhere: CtxRow -> bool, confWhere: ConfRow -> bool) {
    && (forall id :: s0.key(id).Rows? && s.key(id) == Rows(Filter(ctxWhere, s0.key(id).rows)))
    && (forall id :: s0.confs(id).Rows? && s.confs(id) == Rows(Filter(confWhere, s0.confs(id).rows)))
    && (forall id :: s0.kids(id).Rows? && s.kids(id) == Rows(Filter(ctxWhere, s0.kids(id).rows)))
  }

  ghost predicate Keyed(s: Server, r: CtxRow) {
    s.key(r.id) == Rows([r])
  }

  /** The id of every listed child leads back to its own row. */
  ghost predicate ListsKeyed(s: Server) {
    forall id, r :: s.kids(id).Rows? && r in s.kids(id).rows ==> Keyed(s, r)
  }

  lemma {:induction false} KeyOfRow(s: Server, v: View, r: CtxRow)
    requires Honest(s, v) && UniqueIds(v.ctxs) && r in v.ctxs && s.key(r.id).Rows?
    ensures Keyed(s, r)
  {
    KeyIsUnique(s, v, r.id);
    assert r in KeyRows(v, r.id);
  }

  lemma {:induction false} InOrderListsKeyed(v: View)
    requires UniqueIds(v.ctxs)
    ensures ListsKeyed(InOrder(v))
  {
    forall id, r | r in InOrder(v).kids(id).rows ensures Keyed(InOrder(v), r) {
      assert r in KidRows(v, id);
      KeyOfRow(InOrder(v), v, r);
    }
  }

  lemma {:induction false} FilteredNarrows(v: View, ctxWhere: CtxRow -> bool, confWhere: ConfRow -> bool)
    ensures Narrows(Filtered(v, ctxWhere, confWhere), InOrder(v), ctxWhere, confWhere)
  {
    forall id {
      FilteredRows(v, ctxWhere, confWhere, id);
    }
  }

  lemma {:induction false} NarrowHalts(
      s: Server, s0: Server, ctxWhere: CtxRow -> bool, confWhere: ConfRow -> bool, r: CtxRow, d: nat)
    requires Narrows(s, s0, ctxWhere, confWhere) && ListsKeyed(s0) && Keyed(s0, r) && HaltsWithin(s0, r.id, d)
    ensures HaltsWithin(s, r.id, d)
    decreases d
  {
    forall kid | kid in NextRows(s, r.id) ensures HaltsWithin(s, kid.id, d - 1) {
      assert kid in NextRows(s0, r.id) && Keyed(s0, kid);
      NarrowHalts(s, s0, ctxWhere, confWhere, kid, d - 1);
    }
  }

  lemma {:induction false} ExploreKeyed(s: Server, r: CtxRow, d: nat)
    requires Keyed(s, r) && s.confs(r.id).Rows? && s.kids(r.id).Rows? && HaltsWithin(s, r.id, d)
    ensures forall kid :: kid in s.kids(r.id).rows ==> HaltsWithin(s, kid.id, d - 1)
    ensures Explore(s, r.id, d) == Visited(r.id, Some(r), s.confs(r.id), Rows(ExploreAll(s, s.kids(r.id).rows, d - 1)))
  {
  }

  lemma {:induction false} NarrowCuts(
      s: Server, s0: Server, ctxWhere: CtxRow -> bool, confWhere: ConfRow -> bool, r: CtxRow, d: nat)
    requires Narrows(s, s0, ctxWhere, confWhere) && ListsKeyed(s0) && Keyed(s0, r) && ctxWhere(r)
    requires HaltsWithin(s0, r.id, d) && HaltsWithin(s, r.id, d)
    ensures Explore(s, r.id, d) == Cut(Explore(s0, r.id, d), ctxWhere, confWhere)
    decreases d, 0
  {
    assert Filter(ctxWhere, [r]) == [r];
    ExploreKeyed(s0, r, d);
    ExploreKeyed(s, r, d);
    NarrowCutsAll(s, s0, ctxWhere, confWhere, s0.kids(r.id).rows, d - 1);
  }

  lemma {:induction false} NarrowCutsAll(
      s: Server, s0: Server, ctxWhere: CtxRow -> bool, confWhere: ConfRow -> bool, rows: seq<CtxRow>, d: nat)
    requires Narrows(s, s0, ctxWhere, confWhere) && ListsKeyed(s0) && forall r :: r in rows ==> Keyed(s0, r)
    requires forall r :: r in rows ==> HaltsWithin(s0, r.id, d)
    requires forall r :: r in Filter(ctxWhere, rows) ==> HaltsWithin(s, r.id, d)
    ensures ExploreAll(s, Filter(ctxWhere, rows), d) == CutAll(ExploreAll(s0, rows, d), ctxWhere, confWhere)
    decreases d, 1, |rows|
  {
    if rows != [] {
      var r, rest := rows[0], Filter(ctxWhere, rows[1..]);
      var v, vs := Explore(s0, r.id, d), ExploreAll(s0, rows[1..], d);
      NarrowCutsAll(s, s0, ctxWhere, confWhere, rows[1..], d);
      ExploreKeyed(s0, r, d);
      assert ([v] + vs)[1..] == vs;
      if ctxWhere(r) {
        NarrowCuts(s, s0, ctxWhere, confWhere, r, d);
        assert ([r] + rest)[1..] == rest;
        assert ExploreAll(s, [r] + rest, d) == [Explore(s, r.id, d)] + ExploreAll(s, rest, d);
        assert CutAll([v] + vs, ctxWhere, confWhere) == [Cut(v, ctxWhere, confWhere)] + CutAll(vs, ctxWhere, confWhere);
      } else {
        assert Filter(ctxWhere, rows) == rest;
        assert CutAll([v] + vs, ctxWhere, confWhere) == CutAll(vs, ctxWhere, confWhere);
      }
    }
  }

  /** Walking with the where clauses is walking without them and cutting what they reject. */
  lemma {:induction false} WhereCuts(v: View, ctxWhere: CtxRow -> bool, confWhere: ConfRow -> bool, base: CtxRow, d: nat)
    requires UniqueIds(v.ctxs) && base in v.ctxs && ctxWhere(base) && HaltsWithin(InOrder(v), base.id, d)
    ensures HaltsWithin(Filtered(v, ctxWhere, confWhere), base.id, d)
    ensures Explore(Filtered(v, ctxWhere, confWhere), base.id, d) ==
            Cut(Explore(InOrder(v), base.id, d), ctxWhere, confWhere)
  {
    KeyOfRow(InOrder(v), v, base);
    InOrderListsKeyed(v);
    FilteredNarrows(v, ctxWhere, confWhere);
    NarrowHalts(Filtered(v, ctxWhere, confWhere), InOrder(v), ctxWhere, confWhere, base, d);
    NarrowCuts(Filtered(v, ctxWhere, confWhere), InOrder(v), ctxWhere, confWhere, base, d);
  }
}

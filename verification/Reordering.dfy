/** Whatever order the database answers in, the tree read back is the same up to that order. */
module Reordering {
  import opened Prelude
  import opened Document
  import opened Tables
  import opened Store
  import opened Walk
  import opened WalkDocument
  import opened Pruning

  /** `p` lists each index below `n` once. */
  predicate IsPermutation(p: seq<nat>, n: nat) {
    && |p| == n
    && (forall i :: 0 <= i < n ==> p[i] < n)
    && (forall i, j :: 0 <= i < j < n ==> p[i] != p[j])
  }

  /** Equal trees up to the order of directives and of sub-contexts, at every level. */
  ghost predicate SameUpToOrder(a: Tree, b: Tree)
    decreases a
  {
    && a.typ == b.typ && a.value == b.value
    && multiset(a.dirs) == multiset(b.dirs)
    && |a.kids| == |b.kids|
    && exists p: seq<nat> :: IsPermutation(p, |a.kids|)
         && forall i :: 0 <= i < |a.kids| ==> SameUpToOrder(a.kids[i], b.kids[p[i]])
  }

  lemma {:induction false} PermutationOf<T>(xs: seq<T>, ys: seq<T>) returns (p: seq<nat>)
    requires NoDup(xs) && multiset(xs) == multiset(ys)
    ensures |xs| == |ys| && IsPermutation(p, |xs|) && forall i :: 0 <= i < |xs| ==> xs[i] == ys[p[i]]
  {
    MultisetMember(xs, ys);
    p := [];
    while |p| < |xs|
      invariant |p| <= |xs|
      invariant forall i :: 0 <= i < |p| ==> p[i] < |ys| && xs[i] == ys[p[i]]
    {
      assert xs[|p|] in ys;
      var k :| 0 <= k < |ys| && ys[k] == xs[|p|];
      p := p + [k];
    }
    forall i, j | 0 <= i < j < |xs| ensures p[i] != p[j] {
      assert xs[i] != xs[j];
    }
  }

  /** A walk in which every context is answered by its row and every row has a type. */
  ghost predicate AllTyped(v: View) {
    forall r :: r in v.ctxs ==> r.typ.Some?
  }

  lemma {:induction false} ExploreRow(s: Server, v: View, r: CtxRow, d: nat)
    requires Honest(s, v) && AllSucceed(s) && UniqueIds(v.ctxs) && r in v.ctxs && HaltsWithin(s, r.id, d)
    ensures forall k :: k in s.kids(r.id).rows ==> k in v.ctxs && HaltsWithin(s, k.id, d - 1)
    ensures Explore(s, r.id, d) == Visited(r.id, Some(r), s.confs(r.id), Rows(ExploreAll(s, s.kids(r.id).rows, d - 1)))
  {
    KeyOfRow(s, v, r);
    ExploreKeyed(s, r, d);
    MultisetMember(s.kids(r.id).rows, KidRows(v, r.id));
  }

  lemma {:induction false} WalkTyped(s: Server, v: View, r: CtxRow, d: nat)
    requires Honest(s, v) && AllSucceed(s) && UniqueIds(v.ctxs) && AllTyped(v) && r in v.ctxs && HaltsWithin(s, r.id, d)
    ensures Typed(Explore(s, r.id, d)) && NoneSkipped(Explore(s, r.id, d))
    decreases d, 0
  {
    ExploreRow(s, v, r, d);
    WalkTypedAll(s, v, s.kids(r.id).rows, d - 1);
  }

  lemma {:induction false} WalkTypedAll(s: Server, v: View, rows: seq<CtxRow>, d: nat)
    requires Honest(s, v) && AllSucceed(s) && UniqueIds(v.ctxs) && AllTyped(v)
    requires forall r :: r in rows ==> r in v.ctxs && HaltsWithin(s, r.id, d)
    ensures TypedAll(ExploreAll(s, rows, d)) && NoneSkippedAll(ExploreAll(s, rows, d))
    decreases d, 1, |rows|
  {
    if rows != [] {
      WalkTyped(s, v, rows[0], d);
      WalkTypedAll(s, v, rows[1..], d);
      assert ExploreAll(s, rows, d)[1..] == ExploreAll(s, rows[1..], d);
    }
  }

  /** The tree a successful walk of row `r` sees. */
  ghost function Seen(s: Server, v: View, r: CtxRow, d: nat): Tree
    requires Honest(s, v) && AllSucceed(s) && UniqueIds(v.ctxs) && AllTyped(v) && r in v.ctxs && HaltsWithin(s, r.id, d)
  {
    WalkTyped(s, v, r, d);
    TreeOf(Explore(s, r.id, d))
  }

  lemma {:induction false} TreesOfAt(vs: seq<Visit>, i: nat)
    requires TypedAll(vs) && NoneSkippedAll(vs) && i < |vs|
    ensures |TreesOf(vs)| == |vs| && Typed(vs[i]) && vs[i].Visited? && TreesOf(vs)[i] == TreeOf(vs[i])
  {
    if i > 0 {
      TreesOfAt(vs[1..], i - 1);
    } else if |vs| > 1 {
      TreesOfAt(vs[1..], 0);
    }
  }

  lemma {:induction false} SeenParts(s: Server, v: View, r: CtxRow, d: nat)
    requires Honest(s, v) && AllSucceed(s) && UniqueIds(v.ctxs) && AllTyped(v) && r in v.ctxs && HaltsWithin(s, r.id, d)
    ensures var t, rows := Seen(s, v, r, d), s.kids(r.id).rows;
            && t.typ == TypeOf(r) && t.value == ValueOf(r) && t.dirs == Map(DirOf, s.confs(r.id).rows)
            && |t.kids| == |rows|
            && forall i :: 0 <= i < |rows| ==>
                 rows[i] in v.ctxs && HaltsWithin(s, rows[i].id, d - 1) && t.kids[i] == Seen(s, v, rows[i], d - 1)
  {
    var rows := s.kids(r.id).rows;
    ExploreRow(s, v, r, d);
    WalkTypedAll(s, v, rows, d - 1);
    var vs := ExploreAll(s, rows, d - 1);
    forall i | 0 <= i < |rows| ensures |TreesOf(vs)| == |vs| && TreesOf(vs)[i] == Seen(s, v, rows[i], d - 1) {
      TreesOfAt(vs, i);
    }
    if rows != [] {
      TreesOfAt(vs, 0);
    }
  }

  lemma {:induction false} AnyOrder(s: Server, s0: Server, v: View, r: CtxRow, d: nat)
    requires Honest(s, v) && AllSucceed(s) && Honest(s0, v) && AllSucceed(s0)
    requires UniqueIds(v.ctxs) && AllTyped(v) && r in v.ctxs && HaltsWithin(s, r.id, d) && HaltsWithin(s0, r.id, d)
    ensures SameUpToOrder(Seen(s, v, r, d), Seen(s0, v, r, d))
    decreases d
  {
    var a, b := Seen(s, v, r, d), Seen(s0, v, r, d);
    var rows, rows0 := s.kids(r.id).rows, s0.kids(r.id).rows;
    SeenParts(s, v, r, d);
    SeenParts(s0, v, r, d);
    MapMultiset(DirOf, s.confs(r.id).rows, s0.confs(r.id).rows);
    FilterNoDup(ChildOf(r.id), v.ctxs);
    MultisetNoDup(KidRows(v, r.id));
    MultisetNoDup(rows);
    var p := PermutationOf(rows, rows0);
    forall i | 0 <= i < |rows| ensures SameUpToOrder(a.kids[i], b.kids[p[i]]) {
      AnyOrder(s, s0, v, rows[i], d - 1);
    }
  }

  lemma {:induction false} TypesVisible(v: View, ctxWhere: CtxRow -> bool, confWhere: ConfRow -> bool)
    requires AllTyped(v) && UniqueIds(v.ctxs)
    ensures var w := Restrict(v, ctxWhere, confWhere); AllTyped(w) && UniqueIds(w.ctxs)
  {
    WhereIsRestriction(v, ctxWhere, confWhere);
  }

  /**
   * Where clauses under any row order: an honest server of the rows the clauses accept shows the
   * cut walk of all rows, up to order.
   */
  lemma {:induction false} WhereCutsAnyOrder(
      s: Server, v: View, ctxWhere: CtxRow -> bool, confWhere: ConfRow -> bool, base: CtxRow, d: nat)
    requires UniqueIds(v.ctxs) && AllTyped(v) && base in v.ctxs && ctxWhere(base)
    requires Honest(s, Restrict(v, ctxWhere, confWhere)) && AllSucceed(s)
    requires HaltsWithin(InOrder(v), base.id, d) && HaltsWithin(s, base.id, d)
    ensures Typed(Explore(s, base.id, d)) && Explore(s, base.id, d).Visited?
    ensures var cut := Cut(Explore(InOrder(v), base.id, d), ctxWhere, confWhere);
            Typed(cut) && cut.Visited? && SameUpToOrder(TreeOf(Explore(s, base.id, d)), TreeOf(cut))
  {
    var w, s0 := Restrict(v, ctxWhere, confWhere), Filtered(v, ctxWhere, confWhere);
    WhereIsRestriction(v, ctxWhere, confWhere);
    TypesVisible(v, ctxWhere, confWhere);
    WhereCuts(v, ctxWhere, confWhere, base, d);
    assert base in w.ctxs;
    WalkTyped(s, w, base, d);
    WalkTyped(s0, w, base, d);
    AnyOrder(s, s0, w, base, d);
  }
}

/** The parent relation of the context table. */
module Ancestry {
  import opened Prelude
  import opened Tables

  function ParentOf(ctxs: seq<CtxRow>, id: int): Option<int> {
    if ctxs == [] then None else if ctxs[0].id == id then ctxs[0].parent else ParentOf(ctxs[1..], id)
  }

  /** The `n`-th ancestor of `id`. */
  function Up(ctxs: seq<CtxRow>, id: int, n: nat): Option<int>
    decreases n
  {
    if n == 0 then Some(id)
    else match ParentOf(ctxs, id) case None => None case Some(p) => Up(ctxs, p, n - 1)
  }

  /** `id` is one of its own proper ancestors. */
  ghost predicate OwnAncestor(ctxs: seq<CtxRow>, id: int) {
    exists n: nat :: n > 0 && Up(ctxs, id, n) == Some(id)
  }

  ghost predicate Descends(ctxs: seq<CtxRow>, base: int, id: int) {
    exists n: nat :: Up(ctxs, id, n) == Some(base)
  }

  lemma {:induction false} ParentOfRow(ctxs: seq<CtxRow>, r: CtxRow)
    requires UniqueIds(ctxs) && r in ctxs
    ensures ParentOf(ctxs, r.id) == r.parent
  {
    if ctxs[0] != r {
      var i :| 0 <= i < |ctxs| && ctxs[i] == r;
      assert ctxs[1..][i - 1] == r;
      assert forall k :: 0 <= k < |ctxs| - 1 ==> ctxs[1..][k] == ctxs[k + 1];
      ParentOfRow(ctxs[1..], r);
    }
  }

  lemma {:induction false} ParentHasRow(ctxs: seq<CtxRow>, id: int) returns (r: CtxRow)
    requires ParentOf(ctxs, id).Some?
    ensures r in ctxs && r.id == id && r.parent == ParentOf(ctxs, id)
  {
    if ctxs[0].id == id {
      r := ctxs[0];
    } else {
      r := ParentHasRow(ctxs[1..], id);
    }
  }

  lemma {:induction false} UpAdd(ctxs: seq<CtxRow>, x: int, m: nat, y: int, n: nat)
    requires Up(ctxs, x, m) == Some(y)
    ensures Up(ctxs, x, m + n) == Up(ctxs, y, n)
    decreases m
  {
    if m > 0 {
      UpAdd(ctxs, ParentOf(ctxs, x).value, m - 1, y, n);
    }
  }

  lemma {:induction false} UpStep(ctxs: seq<CtxRow>, kid: int, id: int, n: nat)
    requires ParentOf(ctxs, kid) == Some(id)
    ensures Up(ctxs, kid, n + 1) == Up(ctxs, id, n)
    ensures Up(ctxs, kid, 1) == Some(id)
  {
  }

  lemma {:induction false} UpOne(ctxs: seq<CtxRow>, kid: int, id: int)
    requires Up(ctxs, kid, 1) == Some(id)
    ensures ParentOf(ctxs, kid) == Some(id)
  {
  }

  lemma {:induction false} UpRounds(ctxs: seq<CtxRow>, x: int, n: nat, k: nat)
    requires Up(ctxs, x, n) == Some(x)
    ensures Up(ctxs, x, k * n) == Some(x)
    decreases k
  {
    if k > 0 {
      UpRounds(ctxs, x, n, k - 1);
      assert n + (k - 1) * n == k * n;
      UpAdd(ctxs, x, n, x, (k - 1) * n);
    }
  }

  /** Whoever is a descendant of `base` and lies on a cycle has `base` on that cycle too. */
  lemma {:induction false} CycleThroughBase(ctxs: seq<CtxRow>, base: int, x: int)
    requires Descends(ctxs, base, x) && OwnAncestor(ctxs, x)
    ensures Descends(ctxs, x, base) && OwnAncestor(ctxs, base)
  {
    var m: nat :| Up(ctxs, x, m) == Some(base);
    var n: nat :| n > 0 && Up(ctxs, x, n) == Some(x);
    UpAdd(ctxs, x, n, x, m);
    UpAdd(ctxs, x, m, base, n);
    UpRounds(ctxs, x, n, m);
    assert m * n >= m;
    UpAdd(ctxs, x, m, base, m * n - m);
  }

  lemma {:induction false} DescendsStep(ctxs: seq<CtxRow>, base: int, x: int, kid: int)
    requires Descends(ctxs, base, x) && ParentOf(ctxs, kid) == Some(x)
    ensures Descends(ctxs, base, kid)
  {
    var m: nat :| Up(ctxs, x, m) == Some(base);
    assert Up(ctxs, kid, m + 1) == Some(base);
  }

  /** Off the cycles, a context has no descendant in common with a sibling, nor is it its own. */
  lemma {:induction false} SiblingsApart(ctxs: seq<CtxRow>, id: int, k1: int, k2: int, x: int)
    requires ParentOf(ctxs, k1) == Some(id) && ParentOf(ctxs, k2) == Some(id)
    requires Descends(ctxs, k1, x) && Descends(ctxs, k2, x)
    ensures k1 == k2 || OwnAncestor(ctxs, id)
  {
    var m1: nat :| Up(ctxs, x, m1) == Some(k1);
    var m2: nat :| Up(ctxs, x, m2) == Some(k2);
    if m1 <= m2 {
      Between(ctxs, id, k1, k2, x, m1, m2);
    } else {
      Between(ctxs, id, k2, k1, x, m2, m1);
    }
  }

  lemma {:induction false} Between(ctxs: seq<CtxRow>, id: int, k1: int, k2: int, x: int, m1: nat, m2: nat)
    requires m1 <= m2 && Up(ctxs, x, m1) == Some(k1) && Up(ctxs, x, m2) == Some(k2)
    requires ParentOf(ctxs, k1) == Some(id) && ParentOf(ctxs, k2) == Some(id)
    ensures k1 == k2 || OwnAncestor(ctxs, id)
  {
    var n := m2 - m1;
    UpAdd(ctxs, x, m1, k1, n);
    assert Up(ctxs, k1, n) == Some(k2);
    if n > 0 {
      UpStep(ctxs, k1, id, n - 1);
      assert Descends(ctxs, k2, id);
      NotUnderOwnKid(ctxs, id, k2);
    }
  }

  lemma {:induction false} NotUnderOwnKid(ctxs: seq<CtxRow>, id: int, kid: int)
    requires ParentOf(ctxs, kid) == Some(id) && Descends(ctxs, kid, id)
    ensures OwnAncestor(ctxs, id)
  {
    var m: nat :| Up(ctxs, id, m) == Some(kid);
    UpAdd(ctxs, id, m, kid, 1);
    UpStep(ctxs, kid, id, 0);
  }
}

/** When the recursion of mod_conf_sql.c terminates, and what it visits. */
module Termination {
  import opened Prelude
  import opened Tables
  import opened Ancestry
  import opened Walk

  /** What an honest reply tells about single rows. */
  lemma {:induction false} KidsAreChildren(s: Server, v: View, id: int, r: CtxRow)
    requires Honest(s, v) && UniqueIds(v.ctxs) && r in NextRows(s, id)
    ensures r in v.ctxs && r.parent == Some(id) && ParentOf(v.ctxs, r.id) == Some(id)
  {
    MultisetMember(s.kids(id).rows, KidRows(v, id));
    ParentOfRow(v.ctxs, r);
  }

  lemma {:induction false} ChildrenAreKids(s: Server, v: View, r: CtxRow)
    requires Honest(s, v) && AllSucceed(s) && UniqueIds(v.ctxs) && r in v.ctxs && r.parent.Some?
    ensures r in NextRows(s, r.parent.value)
  {
    var id := r.parent.value;
    KeyIsUnique(s, v, id);
    assert r in KidRows(v, id);
    MultisetMember(s.kids(id).rows, KidRows(v, id));
  }

  lemma {:induction false} KeyIsUnique(s: Server, v: View, id: int)
    requires Honest(s, v) && UniqueIds(v.ctxs) && s.key(id).Rows?
    ensures KeyOk(s, id)
    ensures s.key(id).rows == KeyRows(v, id)
  {
    var rows := KeyRows(v, id);
    FilterNoDup(RowIs(id), v.ctxs);
    MultisetMember(s.key(id).rows, rows);
    if |rows| > 1 {
      SameRow(v, rows[0], rows[1]);
    } else if |rows| == 1 {
      assert s.key(id).rows[0] in rows;
    }
  }

  // ----- termination

  /** A path of the recursion: each context is the parent of the next, none occurs twice. */
  ghost predicate Chain(ctxs: seq<CtxRow>, path: seq<int>) {
    && |path| > 0 && NoDup(path)
    && forall i :: 1 <= i < |path| ==> ParentOf(ctxs, path[i]) == Some(path[i - 1])
  }

  lemma {:induction false} ChainUp(ctxs: seq<CtxRow>, path: seq<int>)
    requires Chain(ctxs, path)
    ensures Up(ctxs, path[|path| - 1], |path| - 1) == Some(path[0])
  {
    var n := |path| - 1;
    if n > 0 {
      ChainUp(ctxs, path[..n]);
      assert ParentOf(ctxs, path[n]) == Some(path[n - 1]);
    }
  }

  function IdsOf(ctxs: seq<CtxRow>): set<int> {
    set r | r in ctxs :: r.id
  }

  lemma {:induction false} FewIds(ctxs: seq<CtxRow>)
    ensures |IdsOf(ctxs)| <= |ctxs|
  {
    if ctxs != [] {
      FewIds(ctxs[1..]);
      assert IdsOf(ctxs) == {ctxs[0].id} + IdsOf(ctxs[1..]);
    }
  }

  /** No path of the recursion is longer than the table, because no context repeats on it. */
  lemma {:induction false} HaltsAlong(s: Server, v: View, path: seq<int>, d: nat)
    requires Honest(s, v) && UniqueIds(v.ctxs) && Chain(v.ctxs, path)
    requires !OwnAncestor(v.ctxs, path[0])
    requires |path| + d > |v.ctxs| + 1
    ensures HaltsWithin(s, path[|path| - 1], d)
    decreases d
  {
    var last := path[|path| - 1];
    ShortChain(v.ctxs, path);
    forall r | r in NextRows(s, last) ensures HaltsWithin(s, r.id, d - 1) {
      KidsAreChildren(s, v, last, r);
      NewOnChain(v.ctxs, path, r.id);
      HaltsAlong(s, v, path + [r.id], d - 1);
    }
  }

  lemma {:induction false} ShortChain(ctxs: seq<CtxRow>, path: seq<int>)
    requires Chain(ctxs, path)
    ensures |path| <= |ctxs| + 1
  {
    forall x | x in path[1..] ensures x in IdsOf(ctxs) {
      var i :| 0 <= i < |path[1..]| && path[1..][i] == x;
      var k := i + 1;
      assert path[k] == x && ParentOf(ctxs, path[k]) == Some(path[k - 1]);
      var r := ParentHasRow(ctxs, x);
    }
    NoDupCardinality(path[1..], IdsOf(ctxs));
    FewIds(ctxs);
  }

  lemma {:induction false} NewOnChain(ctxs: seq<CtxRow>, path: seq<int>, kid: int)
    requires Chain(ctxs, path) && !OwnAncestor(ctxs, path[0])
    requires ParentOf(ctxs, kid) == Some(path[|path| - 1])
    ensures kid !in path && Chain(ctxs, path + [kid])
  {
    var last := |path| - 1;
    ChainUp(ctxs, path);
    forall j | 0 <= j < |path| ensures path[j] != kid {
      assert j == 0 ==> kid != path[0] by {
        assert kid == path[0] ==> Up(ctxs, path[0], last + 1) == Some(path[0]);
      }
      assert j > 0 ==> path[j - 1] != path[last];
    }
  }

  /** A base that is not its own ancestor bounds the recursion, whatever fails on the way. */
  lemma {:induction false} BaseHalts(s: Server, v: View, base: int)
    requires Honest(s, v) && UniqueIds(v.ctxs) && !OwnAncestor(v.ctxs, base)
    ensures HaltsWithin(s, base, |v.ctxs| + 1)
  {
    HaltsAlong(s, v, [base], |v.ctxs| + 1);
  }

  /** A row with a NULL parent starts a terminating recursion, whatever cycles exist elsewhere. */
  lemma {:induction false} RootHalts(s: Server, v: View, root: CtxRow)
    requires Honest(s, v) && UniqueIds(v.ctxs) && root in v.ctxs && root.parent == None
    ensures !OwnAncestor(v.ctxs, root.id)
    ensures HaltsWithin(s, root.id, |v.ctxs| + 1)
  {
    ParentOfRow(v.ctxs, root);
    BaseHalts(s, v, root.id);
  }

  /** On a cycle the recursion never returns: each context of the cycle calls the previous one. */
  lemma {:induction false} CycleRuns(s: Server, v: View, base: int, n: nat, i: nat, d: nat)
    requires Honest(s, v) && AllSucceed(s) && UniqueIds(v.ctxs)
    requires n > 0 && Up(v.ctxs, base, n) == Some(base)
    requires i <= n && Up(v.ctxs, base, i).Some?
    ensures !HaltsWithin(s, Up(v.ctxs, base, i).value, d)
    decreases d
  {
    if d > 0 {
      var j := if i == 0 then n - 1 else i - 1;
      var x := Up(v.ctxs, base, i).value;
      UpPrefix(v.ctxs, base, j, if i == 0 then n else i);
      var y := Up(v.ctxs, base, j).value;
      UpAdd(v.ctxs, base, j, y, 1);
      UpOne(v.ctxs, y, x);
      var r := ParentHasRow(v.ctxs, y);
      ChildrenAreKids(s, v, r);
      CycleRuns(s, v, base, n, j, d - 1);
    }
  }

  lemma {:induction false} UpPrefix(ctxs: seq<CtxRow>, id: int, m: nat, n: nat)
    requires m <= n && Up(ctxs, id, n).Some?
    ensures Up(ctxs, id, m).Some?
    decreases m
  {
    if m > 0 {
      UpPrefix(ctxs, ParentOf(ctxs, id).value, m - 1, n - 1);
    }
  }

  /** With succeeding SELECTs the recursion ends exactly when the base is not its own ancestor. */
  lemma {:induction false} TerminatesIff(s: Server, v: View, base: int)
    requires Honest(s, v) && AllSucceed(s) && UniqueIds(v.ctxs)
    ensures Halts(s, base) <==> !OwnAncestor(v.ctxs, base)
  {
    if OwnAncestor(v.ctxs, base) {
      var n: nat :| n > 0 && Up(v.ctxs, base, n) == Some(base);
      forall d: nat ensures !HaltsWithin(s, base, d) {
        CycleRuns(s, v, base, n, 0, d);
      }
    } else {
      BaseHalts(s, v, base);
    }
  }

  /** Two contexts that are each other's parent: the recursion from either never returns. */
  lemma {:induction false} MutualParentsRunForever()
    ensures var v := View([CtxRow(1, Some(2), Some("A"), None), CtxRow(2, Some(1), Some("B"), None)], []);
            !Halts(InOrder(v), 1)
  {
    var a, b := CtxRow(1, Some(2), Some("A"), None), CtxRow(2, Some(1), Some("B"), None);
    var v := View([a, b], []);
    assert ParentOf(v.ctxs, 1) == Some(2);
    assert [a, b][1..] == [b] && ParentOf([b], 2) == Some(1);
    UpStep(v.ctxs, 2, 1, 0);
    UpStep(v.ctxs, 1, 2, 1);
    assert OwnAncestor(v.ctxs, 1);
    TerminatesIff(InOrder(v), v, 1);
  }

  // ----- what is visited

  /** The context ids of a walk, in the order of the calls. */
  function Visits(v: Visit): seq<int>
    decreases v, 1
  {
    [v.id] + if v.Visited? && v.kids.Rows? then VisitsAll(v.kids.rows) else []
  }

  function VisitsAll(vs: seq<Visit>): seq<int>
    decreases vs, 0
  {
    if vs == [] then [] else Visits(vs[0]) + VisitsAll(vs[1..])
  }

  lemma {:induction false} InVisitsAll(vs: seq<Visit>, x: int)
    ensures x in VisitsAll(vs) <==> exists i :: 0 <= i < |vs| && x in Visits(vs[i])
  {
    if vs != [] {
      InVisitsAll(vs[1..], x);
      assert forall i :: 1 <= i < |vs| ==> vs[i] == vs[1..][i - 1];
      assert x in VisitsAll(vs) <==> x in Visits(vs[0]) || x in VisitsAll(vs[1..]);
      if i :| 0 <= i < |vs| && x in Visits(vs[i]) {
        assert i > 0 ==> x in Visits(vs[1..][i - 1]);
      }
    }
  }

  lemma {:induction false} VisitedBelow(s: Server, id: int, d: nat, x: int) returns (r: CtxRow)
    requires HaltsWithin(s, id, d) && x != id && x in Visits(Explore(s, id, d))
    ensures r in NextRows(s, id) && x in Visits(Explore(s, r.id, d - 1))
  {
    var rows := NextRows(s, id);
    InVisitsAll(ExploreAll(s, rows, d - 1), x);
    var i :| 0 <= i < |rows| && x in Visits(ExploreAll(s, rows, d - 1)[i]);
    r := rows[i];
  }

  lemma {:induction false} BelowIsVisited(s: Server, id: int, d: nat, r: CtxRow, x: int)
    requires HaltsWithin(s, id, d) && r in NextRows(s, id) && x in Visits(Explore(s, r.id, d - 1))
    ensures x in Visits(Explore(s, id, d))
  {
    var rows := NextRows(s, id);
    var i :| 0 <= i < |rows| && rows[i] == r;
    assert ExploreAll(s, rows, d - 1)[i] == Explore(s, r.id, d - 1);
    InVisitsAll(ExploreAll(s, rows, d - 1), x);
  }

  lemma {:induction false} VisitsDescend(s: Server, v: View, id: int, d: nat, x: int)
    requires Honest(s, v) && UniqueIds(v.ctxs) && HaltsWithin(s, id, d)
    requires x in Visits(Explore(s, id, d))
    ensures Descends(v.ctxs, id, x)
    decreases d
  {
    if x == id {
      assert Up(v.ctxs, x, 0) == Some(id);
    } else {
      var r := VisitedBelow(s, id, d, x);
      VisitsDescend(s, v, r.id, d - 1, x);
      KidsAreChildren(s, v, id, r);
      var m: nat :| Up(v.ctxs, x, m) == Some(r.id);
      UpAdd(v.ctxs, x, m, r.id, 1);
      UpStep(v.ctxs, r.id, id, 0);
    }
  }

  lemma {:induction false} DescendantsVisited(s: Server, v: View, id: int, d: nat, x: int, m: nat)
    requires Honest(s, v) && AllSucceed(s) && UniqueIds(v.ctxs) && HaltsWithin(s, id, d)
    requires Up(v.ctxs, x, m) == Some(id)
    ensures x in Visits(Explore(s, id, d))
    decreases m
  {
    if m > 0 {
      UpPrefix(v.ctxs, x, m - 1, m);
      var kid := Up(v.ctxs, x, m - 1).value;
      UpAdd(v.ctxs, x, m - 1, kid, 1);
      UpOne(v.ctxs, kid, id);
      var r := ParentHasRow(v.ctxs, kid);
      ChildrenAreKids(s, v, r);
      DescendantsVisited(s, v, kid, d - 1, x, m - 1);
      BelowIsVisited(s, id, d, r, x);
    }
  }

  /** No context is visited twice, whatever fails on the way. */
  lemma {:induction false} VisitedOnce(s: Server, v: View, base: int, id: int, d: nat)
    requires Honest(s, v) && UniqueIds(v.ctxs) && HaltsWithin(s, id, d)
    requires Descends(v.ctxs, base, id) && !OwnAncestor(v.ctxs, base)
    ensures NoDup(Visits(Explore(s, id, d)))
    decreases d, 0
  {
    if OwnAncestor(v.ctxs, id) {
      CycleThroughBase(v.ctxs, base, id);
      assert false;
    }
    var rows := NextRows(s, id);
    forall i, j | 0 <= i < j < |rows| ensures rows[i].id != rows[j].id {
      SiblingIdsDiffer(s, v, id, i, j);
    }
    forall r | r in rows ensures ParentOf(v.ctxs, r.id) == Some(id) {
      KidsAreChildren(s, v, id, r);
    }
    NotBelowItself(s, v, id, rows, d - 1);
    VisitedOnceAll(s, v, base, id, rows, d - 1);
    NoDupConcat([id], VisitsAll(ExploreAll(s, rows, d - 1)));
  }

  lemma {:induction false} NotBelowItself(s: Server, v: View, id: int, rows: seq<CtxRow>, d: nat)
    requires Honest(s, v) && UniqueIds(v.ctxs) && !OwnAncestor(v.ctxs, id)
    requires forall r :: r in rows ==> HaltsWithin(s, r.id, d) && ParentOf(v.ctxs, r.id) == Some(id)
    ensures id !in VisitsAll(ExploreAll(s, rows, d))
  {
    var vs := ExploreAll(s, rows, d);
    forall i | 0 <= i < |vs| ensures id !in Visits(vs[i]) {
      if id in Visits(vs[i]) {
        VisitsDescend(s, v, rows[i].id, d, id);
        NotUnderOwnKid(v.ctxs, id, rows[i].id);
        assert false;
      }
    }
    InVisitsAll(vs, id);
  }

  lemma {:induction false} SiblingIdsDiffer(s: Server, v: View, id: int, i: nat, j: nat)
    requires Honest(s, v) && UniqueIds(v.ctxs) && i < j < |NextRows(s, id)|
    ensures NextRows(s, id)[i].id != NextRows(s, id)[j].id
  {
    var rows := NextRows(s, id);
    FilterNoDup(ChildOf(id), v.ctxs);
    MultisetNoDup(KidRows(v, id));
    MultisetNoDup(rows);
    KidsAreChildren(s, v, id, rows[i]);
    KidsAreChildren(s, v, id, rows[j]);
    assert rows[i] != rows[j];
    assert forall a, b :: a in v.ctxs && b in v.ctxs && a.id == b.id ==> a == b;
  }

  lemma {:induction false} VisitedOnceAll(s: Server, v: View, base: int, id: int, rows: seq<CtxRow>, d: nat)
    requires Honest(s, v) && UniqueIds(v.ctxs)
    requires Descends(v.ctxs, base, id) && !OwnAncestor(v.ctxs, base) && !OwnAncestor(v.ctxs, id)
    requires forall r :: r in rows ==> HaltsWithin(s, r.id, d) && ParentOf(v.ctxs, r.id) == Some(id)
    requires forall i, j :: 0 <= i < j < |rows| ==> rows[i].id != rows[j].id
    ensures NoDup(VisitsAll(ExploreAll(s, rows, d)))
    decreases d, 1, |rows|
  {
    if rows != [] {
      var first, rest := Visits(Explore(s, rows[0].id, d)), ExploreAll(s, rows[1..], d);
      DescendsStep(v.ctxs, base, id, rows[0].id);
      VisitedOnce(s, v, base, rows[0].id, d);
      VisitedOnceAll(s, v, base, id, rows[1..], d);
      assert ExploreAll(s, rows, d)[1..] == rest;
      forall x | x in first ensures x !in VisitsAll(rest) {
        InVisitsAll(rest, x);
        forall i | 0 <= i < |rest| ensures x !in Visits(rest[i]) {
          if x in Visits(rest[i]) {
            VisitsDescend(s, v, rows[0].id, d, x);
            VisitsDescend(s, v, rows[i + 1].id, d, x);
            SiblingsApart(v.ctxs, id, rows[0].id, rows[i + 1].id, x);
            assert false;
          }
        }
      }
      NoDupConcat(first, VisitsAll(rest));
    }
  }

  /** The walk of a base off the cycles visits the base and its descendants, each exactly once. */
  lemma {:induction false} ExactlyOnce(s: Server, v: View, base: int, d: nat)
    requires Honest(s, v) && AllSucceed(s) && UniqueIds(v.ctxs)
    requires HaltsWithin(s, base, d)
    ensures NoDup(Visits(Explore(s, base, d)))
    ensures forall x :: x in Visits(Explore(s, base, d)) <==> Descends(v.ctxs, base, x)
  {
    TerminatesIff(s, v, base);
    assert Up(v.ctxs, base, 0) == Some(base);
    VisitedOnce(s, v, base, base, d);
    forall x ensures x in Visits(Explore(s, base, d)) <==> Descends(v.ctxs, base, x) {
      if x in Visits(Explore(s, base, d)) {
        VisitsDescend(s, v, base, d, x);
      }
      if Descends(v.ctxs, base, x) {
        var m: nat :| Up(v.ctxs, x, m) == Some(base);
        DescendantsVisited(s, v, base, d, x, m);
      }
    }
  }
}

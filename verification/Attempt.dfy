/** process_ctx of conf2sql.pl on any input, opening tags that were not recognised included. */
module Attempt {
  import opened Prelude
  import opened Document
  import opened Tables
  import opened Absorb
  import opened Store

  /** The row of a sub-context of `id`; one without a type has neither type nor value. */
  function RowUnder(s: Store, id: Option<int>, t: Tree): CtxRow {
    if t.typ == "" then CtxRow(s.next, id, None, None) else CtxRow(s.next, id, Some(t.typ), Some(t.value))
  }

  /**
   * process_ctx with whatever id its caller found; false is the script dying. NULL equals nothing,
   * so the lookup finds no row for a context without a type or without a parent, and the map table
   * takes no directive of a context without an id.
   */
  function Process(s: Store, t: Tree, id: Option<int>): (Store, bool)
    decreases t, 1
  {
    match id
    case None => if t.dirs != [] then (s, false) else ProcessAll(s, t.kids, None)
    case Some(n) => ProcessAll(WithDirs(s, n, t.dirs), t.kids, id)
  }

  function ProcessOne(s: Store, t: Tree, id: Option<int>): (Store, bool)
    decreases t, 2
  {
    var s1 := WithRow(s, RowUnder(s, id, t));
    if t.typ == "" || id.None? then Process(s1, t, None)
    else
      JustInserted(s, id.value, t);
      Process(s1, t, Some(LookedUp(s1, t, id.value).id))
  }

  function ProcessAll(s: Store, kids: seq<Tree>, id: Option<int>): (Store, bool)
    decreases kids, 0
  {
    if kids == [] then (s, true)
    else
      var r := ProcessOne(s, kids[0], id);
      if r.1 then ProcessAll(r.0, kids[1..], id) else r
  }

  /** Every context below the root has a type. */
  predicate Recognised(t: Tree) {
    forall k :: k in t.kids ==> k.typ != "" && Recognised(k)
  }

  lemma {:induction false} ProcessLoads(s: Store, t: Tree, id: int)
    requires Recognised(t)
    ensures Process(s, t, Some(id)) == (Load(s, t, id), true)
    decreases t, 1
  {
    ProcessAllLoads(WithDirs(s, id, t.dirs), t.kids, id);
  }

  lemma {:induction false} ProcessAllLoads(s: Store, kids: seq<Tree>, id: int)
    requires forall k :: k in kids ==> k.typ != "" && Recognised(k)
    ensures ProcessAll(s, kids, Some(id)) == (LoadAll(s, kids, id), true)
    decreases kids, 0
  {
    if kids != [] {
      var t := kids[0];
      assert t in kids;
      var s1 := WithRow(s, RowFor(s, id, t));
      JustInserted(s, id, t);
      ProcessLoads(s1, t, LookedUp(s1, t, id).id);
      ProcessAllLoads(LoadOne(s, t, id), kids[1..], id);
    }
  }

  /** Every context below the root without a type is empty. */
  predicate UnrecognisedEmpty(t: Tree) {
    forall k :: k in t.kids ==> if k.typ == "" then Empty(k) else UnrecognisedEmpty(k)
  }

  function Roots(s: Store): seq<CtxRow> { Filter(IsRoot(), s.ctxs) }

  lemma {:induction false} RowRoots(s: Store, r: CtxRow)
    ensures Roots(WithRow(s, r)) == Roots(s) + if r.parent.None? then [r] else []
  {
    FilterConcat(IsRoot(), s.ctxs, [r]);
    assert Filter(IsRoot(), [r]) == if r.parent.None? then [r] else [];
  }

  lemma {:induction false} ProcessRoots(s: Store, t: Tree, id: Option<int>)
    ensures Roots(s) <= Roots(Process(s, t, id).0)
    ensures id.Some? ==> (UnrecognisedEmpty(t) <==> Process(s, t, id).1 && Roots(Process(s, t, id).0) == Roots(s))
    ensures id.None? && Process(s, t, id).1 && !Empty(t) ==> Roots(Process(s, t, id).0) != Roots(s)
    decreases t, 1
  {
    match id
    case None => ProcessAllRoots(s, t.kids, None);
    case Some(n) => ProcessAllRoots(WithDirs(s, n, t.dirs), t.kids, id);
  }

  lemma {:induction false} ProcessAllRoots(s: Store, kids: seq<Tree>, id: Option<int>)
    ensures Roots(s) <= Roots(ProcessAll(s, kids, id).0)
    ensures id.Some? ==>
              ((forall k :: k in kids ==> if k.typ == "" then Empty(k) else UnrecognisedEmpty(k))
               <==> ProcessAll(s, kids, id).1 && Roots(ProcessAll(s, kids, id).0) == Roots(s))
    ensures id.None? && ProcessAll(s, kids, id).1 && kids != [] ==> Roots(ProcessAll(s, kids, id).0) != Roots(s)
    decreases kids, 0
  {
    if kids != [] {
      var t, r := kids[0], RowUnder(s, id, kids[0]);
      var s1 := WithRow(s, r);
      RowRoots(s, r);
      var hit := None;
      if t.typ != "" && id.Some? {
        JustInserted(s, id.value, t);
        hit := Some(LookedUp(s1, t, id.value).id);
      }
      ProcessRoots(s1, t, hit);
      ProcessAllRoots(ProcessOne(s, t, id).0, kids[1..], id);
    }
  }

  /** Contexts are processed in order, and nothing is written any more once the script has died. */
  lemma {:induction false} ProcessInOrder(s: Store, kids: seq<Tree>, more: seq<Tree>, id: Option<int>)
    ensures var r := ProcessAll(s, kids, id);
            ProcessAll(s, kids + more, id) == if r.1 then ProcessAll(r.0, more, id) else r
    decreases |kids|
  {
    if kids == [] {
      assert kids + more == more;
    } else {
      assert (kids + more)[1..] == kids[1..] + more;
      ProcessInOrder(ProcessOne(s, kids[0], id).0, kids[1..], more, id);
    }
  }
}

/** What the pushed lines amount to: a printed tree, well nested, with nothing lost or moved. */
module WalkDocument {
  import opened Prelude
  import opened Document
  import opened Tables
  import opened Walk
  import opened Termination

  // ----- the lines are a printed tree

  /** Every call below `v` was answered by exactly one row with a type; Skipped calls aside. */
  predicate Typed(v: Visit)
    decreases v, 1
  {
    v.Visited? ==> v.key.Some? && v.key.value.typ.Some? && v.dirs.Rows? && v.kids.Rows? && TypedAll(v.kids.rows)
  }

  predicate TypedAll(vs: seq<Visit>)
    decreases vs, 0
  {
    vs == [] || (Typed(vs[0]) && TypedAll(vs[1..]))
  }

  predicate NoneSkipped(v: Visit)
    decreases v, 1
  {
    v.Visited? && (v.kids.Rows? ==> NoneSkippedAll(v.kids.rows))
  }

  predicate NoneSkippedAll(vs: seq<Visit>)
    decreases vs, 0
  {
    vs == [] || (NoneSkipped(vs[0]) && NoneSkippedAll(vs[1..]))
  }

  /** The tree a walk saw; contexts whose own SELECT failed are not in it. */
  function TreeOf(v: Visit): Tree
    requires Typed(v) && v.Visited?
    decreases v, 1
  {
    Tree(v.key.value.typ.value, ValueOf(v.key.value), Map(DirOf, v.dirs.rows), TreesOf(v.kids.rows))
  }

  function TreesOf(vs: seq<Visit>): seq<Tree>
    requires TypedAll(vs)
    decreases vs, 0
  {
    if vs == [] then [] else (if vs[0].Skipped? then [] else [TreeOf(vs[0])]) + TreesOf(vs[1..])
  }

  lemma {:induction false} EmitIsPrint(v: Visit)
    requires Typed(v) && v.Visited?
    ensures Emit(v, true) == PrintBody(TreeOf(v))
    ensures Emit(v, false) == Print(TreeOf(v))
    decreases v, 1
  {
    EmitAllIsPrint(v.kids.rows);
  }

  lemma {:induction false} EmitAllIsPrint(vs: seq<Visit>)
    requires TypedAll(vs)
    ensures EmitAll(vs) == PrintAll(TreesOf(vs))
    decreases vs, 0
  {
    if vs != [] {
      EmitAllIsPrint(vs[1..]);
      if vs[0].Visited? {
        EmitIsPrint(vs[0]);
        assert TreesOf(vs)[1..] == TreesOf(vs[1..]);
      } else {
        assert TreesOf(vs) == TreesOf(vs[1..]);
      }
    }
  }

  // ----- nesting

  /** The number of tagged calls whose directive or child SELECT failed after the open tag. */
  function Unclosed(v: Visit, isbase: bool): nat
    decreases v, 1
  {
    if v.Skipped? then 0
    else if v.dirs.Error? || v.kids.Error? then (if Tagged(v, isbase) then 1 else 0)
    else UnclosedAll(v.kids.rows)
  }

  function UnclosedAll(vs: seq<Visit>): nat
    decreases vs, 0
  {
    if vs == [] then 0 else Unclosed(vs[0], false) + UnclosedAll(vs[1..])
  }

  lemma {:induction false} ReplayDepth(stack: seq<string>, ts: seq<Token>, us: seq<Token>)
    requires Replay(stack, ts).Some?
    ensures Replay(stack, ts + us) == Replay(Replay(stack, ts).value, us)
  {
    ReplayConcat(stack, ts, us);
  }

  lemma {:induction false} EmitNests(v: Visit, isbase: bool, stack: seq<string>)
    requires Unclosed(v, isbase) == 0
    ensures Replay(stack, Emit(v, isbase)) == Some(stack)
    decreases v, 1
  {
    if v.Visited? && v.dirs.Rows? {
      var inner := OpenStack(v, isbase) + stack;
      var open, dirs := OpenTokens(v, isbase), ConfTokens(v.dirs.rows);
      OpensItself(v, isbase, stack);
      ReplayDirs(inner, Map(DirOf, v.dirs.rows));
      ReplayDepth(stack, open, dirs);
      if v.kids.Rows? {
        EmitAllNests(v.kids.rows, inner);
        ReplayDepth(stack, open + dirs, EmitAll(v.kids.rows));
        ReplayDepth(stack, open + dirs + EmitAll(v.kids.rows), CloseTokens(v, isbase));
      }
    }
  }

  lemma {:induction false} EmitAllNests(vs: seq<Visit>, stack: seq<string>)
    requires UnclosedAll(vs) == 0
    ensures Replay(stack, EmitAll(vs)) == Some(stack)
    decreases vs, 0
  {
    if vs != [] {
      EmitNests(vs[0], false, stack);
      EmitAllNests(vs[1..], stack);
      ReplayConcat(stack, Emit(vs[0], false), EmitAll(vs[1..]));
    }
  }

  /** The types a call itself puts on the stack of open tags. */
  function OpenStack(v: Visit, isbase: bool): seq<string> {
    if Tagged(v, isbase) then [v.key.value.typ.value] else []
  }

  lemma {:induction false} OpensItself(v: Visit, isbase: bool, stack: seq<string>)
    ensures Replay(stack, OpenTokens(v, isbase)) == Some(OpenStack(v, isbase) + stack)
    ensures Replay(OpenStack(v, isbase) + stack, CloseTokens(v, isbase)) == Some(stack)
  {
    if Tagged(v, isbase) {
      assert (OpenStack(v, isbase) + stack)[1..] == stack;
      assert forall s :: Replay(s, OpenTokens(v, isbase)[1..]) == Some(s);
      assert forall s :: Replay(s, CloseTokens(v, isbase)[1..]) == Some(s);
    } else {
      assert OpenStack(v, isbase) + stack == stack;
    }
  }

  /** Opens minus closes. */
  function Balance(ts: seq<Token>): int {
    if ts == [] then 0 else (if ts[0].Open? then 1 else if ts[0].Close? then -1 else 0) + Balance(ts[1..])
  }

  lemma {:induction false} BalanceConcat(ts: seq<Token>, us: seq<Token>)
    ensures Balance(ts + us) == Balance(ts) + Balance(us)
  {
    if ts == [] {
      assert ts + us == us;
    } else {
      assert (ts + us)[1..] == ts[1..] + us;
      BalanceConcat(ts[1..], us);
    }
  }

  lemma {:induction false} BalanceDirs(ds: seq<Directive>)
    ensures Balance(DirTokens(ds)) == 0
  {
    if ds != [] {
      BalanceDirs(ds[1..]);
      assert DirTokens(ds)[1..] == DirTokens(ds[1..]);
    }
  }

  lemma {:induction false} ReplayBalance(stack: seq<string>, ts: seq<Token>)
    requires Replay(stack, ts).Some?
    ensures |Replay(stack, ts).value| == |stack| + Balance(ts)
    decreases |ts|
  {
    if ts != [] {
      match ts[0]
      case Open(typ, _) => ReplayBalance([typ] + stack, ts[1..]);
      case Dir(_) => ReplayBalance(stack, ts[1..]);
      case Close(_) => ReplayBalance(stack[1..], ts[1..]);
    }
  }

  lemma {:induction false} EmitBalance(v: Visit, isbase: bool)
    ensures Balance(Emit(v, isbase)) == Unclosed(v, isbase)
    decreases v, 1
  {
    if v.Visited? && v.dirs.Rows? {
      BalanceDirs(Map(DirOf, v.dirs.rows));
      BalanceConcat(OpenTokens(v, isbase), ConfTokens(v.dirs.rows));
      if v.kids.Rows? {
        EmitAllBalance(v.kids.rows);
        BalanceConcat(OpenTokens(v, isbase) + ConfTokens(v.dirs.rows), EmitAll(v.kids.rows));
        BalanceConcat(OpenTokens(v, isbase) + ConfTokens(v.dirs.rows) + EmitAll(v.kids.rows), CloseTokens(v, isbase));
      }
    }
  }

  lemma {:induction false} EmitAllBalance(vs: seq<Visit>)
    ensures Balance(EmitAll(vs)) == UnclosedAll(vs)
    decreases vs, 0
  {
    if vs != [] {
      EmitBalance(vs[0], false);
      EmitAllBalance(vs[1..]);
      BalanceConcat(Emit(vs[0], false), EmitAll(vs[1..]));
    }
  }

  /** Exactly the failures that come after an open tag was pushed break the nesting. */
  lemma {:induction false} NestedIff(v: Visit, isbase: bool)
    ensures WellNested(Emit(v, isbase)) <==> Unclosed(v, isbase) == 0
  {
    EmitBalance(v, isbase);
    if Unclosed(v, isbase) == 0 {
      EmitNests(v, isbase, []);
    }
    if WellNested(Emit(v, isbase)) {
      ReplayBalance([], Emit(v, isbase));
    }
  }

  /** The context is found, has a type, and its directive or child SELECT fails. */
  predicate TagLost(s: Server, id: int) {
    && KeyOk(s, id) && s.key(id).rows != [] && s.key(id).rows[0].typ.Some?
    && (s.confs(id).Error? || s.kids(id).Error?)
  }

  lemma {:induction false} UnclosedIff(s: Server, id: int, d: nat)
    requires HaltsWithin(s, id, d)
    ensures Unclosed(Explore(s, id, d), false) == 0 <==> forall x :: x in Visits(Explore(s, id, d)) ==> !TagLost(s, x)
    decreases d, 0
  {
    var v := Explore(s, id, d);
    if Succeeded(v) {
      UnclosedAllIff(s, s.kids(id).rows, d - 1);
      assert Visits(v) == [id] + VisitsAll(v.kids.rows);
    } else {
      assert Visits(v) == [id] && id in Visits(v);
      assert Unclosed(v, false) == 0 <==> !TagLost(s, id);
    }
  }

  lemma {:induction false} UnclosedAllIff(s: Server, rows: seq<CtxRow>, d: nat)
    requires forall r :: r in rows ==> HaltsWithin(s, r.id, d)
    ensures var vs := ExploreAll(s, rows, d);
            UnclosedAll(vs) == 0 <==> forall x :: x in VisitsAll(vs) ==> !TagLost(s, x)
    decreases d, 1, |rows|
  {
    if rows != [] {
      var vs := ExploreAll(s, rows, d);
      UnclosedIff(s, rows[0].id, d);
      UnclosedAllIff(s, rows[1..], d);
      assert vs[1..] == ExploreAll(s, rows[1..], d);
      assert VisitsAll(vs) == Visits(vs[0]) + VisitsAll(vs[1..]);
    }
  }

  /**
   * For every server and base: the document is well nested exactly when no context visited below
   * the base is found with a type and then has a failing directive or child SELECT.
   */
  lemma {:induction false} DocumentNestedIff(s: Server, base: int, d: nat)
    requires HaltsWithin(s, base, d)
    ensures var v := Explore(s, base, d);
            WellNested(Emit(v, true)) <==> forall x :: x in Visits(v)[1..] ==> !TagLost(s, x)
  {
    var v := Explore(s, base, d);
    NestedIff(v, true);
    if Succeeded(v) {
      UnclosedAllIff(s, s.kids(base).rows, d - 1);
      assert Visits(v)[1..] == VisitsAll(v.kids.rows);
    } else {
      assert Visits(v)[1..] == [];
    }
  }

  lemma {:induction false} OneChildVisited(s: Server, base: int, kid: CtxRow)
    requires KeyOk(s, base) && s.confs(base).Rows? && s.kids(base) == Rows([kid])
    requires KeyOk(s, kid.id) && s.key(kid.id).rows == [kid] && s.confs(kid.id).Error?
    ensures HaltsWithin(s, base, 2)
    ensures Visits(Explore(s, base, 2)) == [base, kid.id]
  {
    assert NextRows(s, kid.id) == [];
    assert HaltsWithin(s, kid.id, 1);
    assert forall r :: r in [kid] ==> r == kid;
    assert [kid][1..] == [];
    assert ExploreAll(s, [kid], 1) == [Explore(s, kid.id, 1)];
    assert Visits(Explore(s, kid.id, 1)) == [kid.id];
    assert VisitsAll([Explore(s, kid.id, 1)]) == [kid.id] + VisitsAll([]);
  }

  lemma {:induction false} ParentAndChild(root: CtxRow, kid: CtxRow)
    requires root.parent == None && kid.parent == Some(root.id) && root.id != kid.id
    ensures var v := View([root, kid], []);
            KeyRows(v, root.id) == [root] && KeyRows(v, kid.id) == [kid] && KidRows(v, root.id) == [kid]
  {
    assert [root, kid][1..] == [kid];
    FilterOne(RowIs(root.id), kid);
    FilterOne(RowIs(kid.id), kid);
    FilterOne(ChildOf(root.id), kid);
  }

  /** The server that answers in table order, except that the directive SELECT of `bad` fails. */
  function JoinFails(v: View, bad: int): Server {
    InOrder(v).(confs := id => if id == bad then Error else Rows(JoinRows(v, id)))
  }

  lemma {:induction false} ChildTagLost(root: CtxRow, kid: CtxRow)
    requires root.parent == None && kid.parent == Some(root.id) && root.id != kid.id && kid.typ.Some?
    ensures var v := View([root, kid], []);
            var s := JoinFails(v, kid.id);
            Honest(s, v) && HaltsWithin(s, root.id, 2) && !WellNested(Emit(Explore(s, root.id, 2), true))
  {
    var s := JoinFails(View([root, kid], []), kid.id);
    ParentAndChild(root, kid);
    OneChildVisited(s, root.id, kid);
    assert [root.id, kid.id][1..] == [kid.id];
    assert TagLost(s, kid.id) && kid.id in [kid.id];
    DocumentNestedIff(s, root.id, 2);
  }

  /** A default context with one <Limit ALL> whose directive SELECT fails: the close tag is missing. */
  lemma {:induction false} FailedJoinLeavesTagOpen()
    ensures var root, kid := CtxRow(1, None, Some("default"), None), CtxRow(2, Some(1), Some("Limit"), Some("ALL"));
            var v := View([root, kid], []);
            var s := JoinFails(v, 2);
            Honest(s, v) && HaltsWithin(s, 1, 2) && !WellNested(Emit(Explore(s, 1, 2), true))
  {
    ChildTagLost(CtxRow(1, None, Some("default"), None), CtxRow(2, Some(1), Some("Limit"), Some("ALL")));
  }

  // ----- nesting after every prefix

  /** The types of the contexts being visited, innermost first, when `n` lines have been pushed. */
  function OpenAt(v: Visit, isbase: bool, n: nat): seq<string>
    requires n <= |Emit(v, isbase)|
    decreases v, 1
  {
    if v.Skipped? || v.dirs.Error? || v.kids.Error? then
      (if n == 0 then [] else OpenStack(v, isbase))
    else
      var head := |OpenTokens(v, isbase)| + |v.dirs.rows|;
      if n < |OpenTokens(v, isbase)| || n > head + |EmitAll(v.kids.rows)| then []
      else if n <= head then OpenStack(v, isbase)
      else OpenAtAll(v.kids.rows, n - head) + OpenStack(v, isbase)
  }

  function OpenAtAll(vs: seq<Visit>, n: nat): seq<string>
    requires n <= |EmitAll(vs)|
    decreases vs, 0
  {
    if vs == [] then []
    else if n < |Emit(vs[0], false)| then OpenAt(vs[0], false, n)
    else OpenAtAll(vs[1..], n - |Emit(vs[0], false)|)
  }

  /** After every prefix of the pushed lines the open tags are the path of contexts being visited. */
  lemma {:induction false} OpenTagsFollowCalls(v: Visit, isbase: bool, stack: seq<string>, n: nat)
    requires Unclosed(v, isbase) == 0 && n <= |Emit(v, isbase)|
    ensures Replay(stack, Emit(v, isbase)[..n]) == Some(OpenAt(v, isbase, n) + stack)
    decreases v, 1
  {
    if n == 0 {
      assert Emit(v, isbase)[..n] == [] && OpenAt(v, isbase, n) + stack == stack;
    } else if Succeeded(v) {
      var head := |OpenTokens(v, isbase)| + |v.dirs.rows|;
      if n <= head {
        PrefixInDirectives(v, isbase, stack, n);
      } else if n <= head + |EmitAll(v.kids.rows)| {
        OpenTagsFollowCallsAll(v.kids.rows, OpenStack(v, isbase) + stack, n - head);
        PrefixInKids(v, isbase, stack, n - head);
      } else {
        assert Emit(v, isbase)[..n] == Emit(v, isbase);
        EmitNests(v, isbase, stack);
        assert [] + stack == stack;
      }
    } else {
      UntaggedStop(v, isbase, stack, n);
    }
  }

  lemma {:induction false} HeadReplays(v: Visit, isbase: bool, stack: seq<string>, k: nat)
    requires v.Visited? && v.dirs.Rows? && k <= |v.dirs.rows|
    ensures Replay(stack, OpenTokens(v, isbase) + ConfTokens(v.dirs.rows)[..k]) == Some(OpenStack(v, isbase) + stack)
  {
    var ds := Map(DirOf, v.dirs.rows)[..k];
    assert ConfTokens(v.dirs.rows)[..k] == DirTokens(ds);
    OpensItself(v, isbase, stack);
    ReplayDirs(OpenStack(v, isbase) + stack, ds);
    ReplayDepth(stack, OpenTokens(v, isbase), DirTokens(ds));
  }

  lemma {:induction false} PrefixInDirectives(v: Visit, isbase: bool, stack: seq<string>, n: nat)
    requires Succeeded(v) && 0 < n <= |OpenTokens(v, isbase)| + |v.dirs.rows| <= |Emit(v, isbase)|
    ensures Replay(stack, Emit(v, isbase)[..n]) == Some(OpenAt(v, isbase, n) + stack)
  {
    var k := n - |OpenTokens(v, isbase)|;
    assert Emit(v, isbase)[..n] == OpenTokens(v, isbase) + ConfTokens(v.dirs.rows)[..k];
    HeadReplays(v, isbase, stack, k);
  }

  lemma {:induction false} PrefixInKids(v: Visit, isbase: bool, stack: seq<string>, k: nat)
    requires Succeeded(v) && 0 < k <= |EmitAll(v.kids.rows)|
    requires Replay(OpenStack(v, isbase) + stack, EmitAll(v.kids.rows)[..k]) ==
             Some(OpenAtAll(v.kids.rows, k) + (OpenStack(v, isbase) + stack))
    ensures var n := |OpenTokens(v, isbase)| + |v.dirs.rows| + k;
            n <= |Emit(v, isbase)| && Replay(stack, Emit(v, isbase)[..n]) == Some(OpenAt(v, isbase, n) + stack)
  {
    var dirs, kids := ConfTokens(v.dirs.rows), EmitAll(v.kids.rows);
    var head := OpenTokens(v, isbase) + dirs;
    assert dirs[..|v.dirs.rows|] == dirs;
    HeadReplays(v, isbase, stack, |v.dirs.rows|);
    ReplayDepth(stack, head, kids[..k]);
    PrefixOfThree(head, kids, CloseTokens(v, isbase), k);
    assert Emit(v, isbase) == head + kids + CloseTokens(v, isbase);
    OpenAtInKids(v, isbase, stack, k);
  }

  lemma {:induction false} OpenAtInKids(v: Visit, isbase: bool, stack: seq<string>, k: nat)
    requires Succeeded(v) && 0 < k <= |EmitAll(v.kids.rows)|
    ensures var n := |OpenTokens(v, isbase)| + |v.dirs.rows| + k;
            && n <= |Emit(v, isbase)|
            && OpenAt(v, isbase, n) + stack == OpenAtAll(v.kids.rows, k) + (OpenStack(v, isbase) + stack)
  {
    var below, own := OpenAtAll(v.kids.rows, k), OpenStack(v, isbase);
    assert below + (own + stack) == (below + own) + stack;
  }

  lemma {:induction false} PrefixOfThree(xs: seq<Token>, ys: seq<Token>, zs: seq<Token>, k: nat)
    requires k <= |ys|
    ensures (xs + ys + zs)[..|xs| + k] == xs + ys[..k]
  {
  }

  lemma {:induction false} OpenTagsFollowCallsAll(vs: seq<Visit>, stack: seq<string>, n: nat)
    requires UnclosedAll(vs) == 0 && n <= |EmitAll(vs)|
    ensures Replay(stack, EmitAll(vs)[..n]) == Some(OpenAtAll(vs, n) + stack)
    decreases vs, 0
  {
    if vs == [] {
      assert OpenAtAll(vs, n) + stack == stack;
    } else {
      var first := Emit(vs[0], false);
      if n < |first| {
        assert EmitAll(vs)[..n] == first[..n];
        OpenTagsFollowCalls(vs[0], false, stack, n);
      } else {
        var k := n - |first|;
        assert EmitAll(vs)[..n] == first + EmitAll(vs[1..])[..k];
        EmitNests(vs[0], false, stack);
        OpenTagsFollowCallsAll(vs[1..], stack, k);
        ReplayConcat(stack, first, EmitAll(vs[1..])[..k]);
      }
    }
  }

  /** A failing call that is not tagged pushes at most directives. */
  lemma {:induction false} UntaggedStop(v: Visit, isbase: bool, stack: seq<string>, n: nat)
    requires v.Visited? && (v.dirs.Error? || v.kids.Error?) && Unclosed(v, isbase) == 0
    requires 0 < n <= |Emit(v, isbase)|
    ensures Replay(stack, Emit(v, isbase)[..n]) == Some(OpenAt(v, isbase, n) + stack)
  {
    var ds := Map(DirOf, v.dirs.rows)[..n];
    assert Emit(v, isbase)[..n] == DirTokens(ds);
    ReplayDirs(stack, ds);
    assert [] + stack == stack;
  }
}

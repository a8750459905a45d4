/** Decoding the tables after an import gives the absorbed tree, whatever the siblings look like. */
module ImportDecodes {
  import opened Prelude
  import opened Document
  import opened Tables
  import opened Ancestry
  import opened Absorb
  import opened Store

  lemma {:induction false} KidsApartFromParent(s: Store, id: int, kid: CtxRow)
    requires Tidy(s) && kid in KidsAt(s, id)
    ensures Apart(s, kid.id, iset{id})
  {
    KidsInfo(s, id);
    TidyAcyclic(s, id);
    if Descends(s.ctxs, kid.id, id) {
      NotUnderOwnKid(s.ctxs, id, kid.id);
    }
  }

  lemma {:induction false} SiblingApart(s: Store, id: int, a: CtxRow, b: CtxRow)
    requires Tidy(s) && a in KidsAt(s, id) && b in KidsAt(s, id) && a.id != b.id
    ensures Apart(s, a.id, Below(s, b.id))
  {
    KidsInfo(s, id);
    TidyAcyclic(s, id);
    forall x | Descends(s.ctxs, a.id, x) ensures x !in Below(s, b.id) {
      if Descends(s.ctxs, b.id, x) {
        SiblingsApart(s.ctxs, id, a.id, b.id, x);
      }
    }
  }

  /** The kids of `id`, decoded. */
  ghost function Children(s: Store, id: int): (ts: seq<Tree>)
    requires Tidy(s) && id < s.next
    ensures |ts| == |KidsAt(s, id)|
  {
    KidsInfo(s, id);
    DecodeAll(s, KidsAt(s, id), id)
  }

  lemma {:induction false} ChildrenKept(s: Store, s1: Store, id: int)
    requires Tidy(s) && Tidy(s1) && Extends(s, s1, iset{id}) && id < s.next && KidsAt(s1, id) == KidsAt(s, id)
    ensures Children(s1, id) == Children(s, id)
  {
    KidsInfo(s, id);
    forall k | k in KidsAt(s, id) ensures Decode(s1, k) == Decode(s, k) {
      KidsApartFromParent(s, id, k);
      FrameDecode(s, s1, iset{id}, k);
    }
    DecodeAllSame(s, s1, KidsAt(s, id), id);
  }

  // ----- inserting directives

  lemma {:induction false} FilterLocated(id: int, ds: seq<Directive>)
    ensures Filter(At(id), Map(Locate(id), ds)) == Map(Locate(id), ds)
  {
    if ds != [] {
      FilterLocated(id, ds[1..]);
      assert Map(Locate(id), ds)[1..] == Map(Locate(id), ds[1..]);
    }
  }

  lemma {:induction false} DirectivesDecode(s: Store, id: int, ds: seq<Directive>)
    requires Tidy(s) && id < s.next
    ensures Tidy(WithDirs(s, id, ds)) && Extends(s, WithDirs(s, id, ds), iset{id})
    ensures KidsAt(WithDirs(s, id, ds), id) == KidsAt(s, id)
    ensures DirsAt(WithDirs(s, id, ds), id) == DirsAt(s, id) + ds
    ensures Children(WithDirs(s, id, ds), id) == Children(s, id)
  {
    var s1, added := WithDirs(s, id, ds), Map(Locate(id), ds);
    assert s1.dirs[|s.dirs|..] == added;
    assert s1.ctxs[|s.ctxs|..] == [];
    FilterConcat(At(id), s.dirs, added);
    FilterLocated(id, ds);
    assert Map(DirectiveOf(), added) == ds;
    MapConcat(DirectiveOf(), Filter(At(id), s.dirs), added);
    ChildrenKept(s, s1, id);
  }

  // ----- inserting a context row

  lemma {:induction false} RowTidy(s: Store, r: CtxRow)
    requires Tidy(s) && r.id == s.next && r.parent.Some? && r.parent.value < s.next && r.typ.Some? && r.value.Some?
    ensures Tidy(WithRow(s, r)) && Extends(s, WithRow(s, r), iset{r.parent.value})
  {
  }

  lemma {:induction false} RowKids(s: Store, id: int, r: CtxRow)
    requires Tidy(s) && id < s.next && r.id == s.next && r.parent == Some(id)
    ensures KidsAt(WithRow(s, r), id) == KidsAt(s, id) + [r]
    ensures KidsAt(WithRow(s, r), r.id) == []
    ensures DirsAt(WithRow(s, r), r.id) == []
  {
    var s1 := WithRow(s, r);
    FilterConcat(ChildOf(id), s.ctxs, [r]);
    assert Filter(ChildOf(id), [r]) == [r];
    forall x | x in s1.ctxs ensures !ChildOf(r.id)(x) {
      assert x in s.ctxs || x == r;
    }
    FilterNone(ChildOf(r.id), s1.ctxs);
    FilterNone(At(r.id), s1.dirs);
  }

  lemma {:induction false} RowInserted(s: Store, id: int, t: Tree)
    requires Tidy(s) && id < s.next
    ensures var r := RowFor(s, id, t); var s1 := WithRow(s, r);
            && Tidy(s1) && Extends(s, s1, iset{id})
            && KidsAt(s1, id) == KidsAt(s, id) + [r] && DirsAt(s1, id) == DirsAt(s, id)
            && Decode(s1, r) == Blank(t)
  {
    var r := RowFor(s, id, t);
    RowTidy(s, r);
    RowKids(s, id, r);
  }

  lemma {:induction false} RowDecodes(s: Store, id: int, t: Tree)
    requires Tidy(s) && id < s.next
    ensures Tidy(WithRow(s, RowFor(s, id, t)))
    ensures Children(WithRow(s, RowFor(s, id, t)), id) == Children(s, id) + [Blank(t)]
  {
    var r := RowFor(s, id, t);
    var s1, kids := WithRow(s, r), KidsAt(s, id);
    RowInserted(s, id, t);
    KidsInfo(s, id);
    KidsInfo(s1, id);
    forall k | k in kids ensures Decode(s1, k) == Decode(s, k) {
      KidsApartFromParent(s, id, k);
      FrameDecode(s, s1, iset{id}, k);
    }
    DecodeAllSame(s, s1, kids, id);
    DecodeAllSnoc(s1, kids, r, id);
  }

  lemma {:induction false} DecodeAllSnoc(s: Store, rows: seq<CtxRow>, r: CtxRow, floor: int)
    requires Tidy(s) && floor < s.next && forall x :: x in rows + [r] ==> floor < x.id < s.next
    ensures forall x :: x in rows ==> x in rows + [r]
    ensures r in rows + [r]
    ensures DecodeAll(s, rows + [r], floor) == DecodeAll(s, rows, floor) + [Decode(s, r)]
  {
    assert (rows + [r])[|rows|] == r;
    assert forall i :: 0 <= i < |rows| ==> (rows + [r])[i] == rows[i];
    forall i | 0 <= i < |rows| + 1
      ensures DecodeAll(s, rows + [r], floor)[i] == (DecodeAll(s, rows, floor) + [Decode(s, r)])[i]
    {
      DecodeAllAt(s, rows + [r], floor, i);
      if i < |rows| {
        DecodeAllAt(s, rows, floor, i);
      }
    }
  }

  // ----- finding it again

  function Named(t: Tree): CtxRow -> bool {
    (r: CtxRow) => r.typ == Some(t.typ) && r.value == Some(t.value)
  }

  lemma {:induction false} FirstOfFilter(rows: seq<CtxRow>, ts: seq<Tree>, t: Tree)
    requires |rows| == |ts|
    requires forall i :: 0 <= i < |rows| ==> (Named(t)(rows[i]) <==> Twins(ts[i], t))
    ensures FirstTwin(ts, t) < |ts| <==> Filter(Named(t), rows) != []
    ensures FirstTwin(ts, t) < |ts| ==> Filter(Named(t), rows)[0] == rows[FirstTwin(ts, t)]
  {
    if rows != [] && !Named(t)(rows[0]) {
      FirstOfFilter(rows[1..], ts[1..], t);
    }
  }

  /** The content lookup hits the first child with that type and value. */
  lemma {:induction false} LookupIsFirstTwin(s: Store, id: int, t: Tree)
    requires Tidy(s) && id < s.next && Filter(Matches(t.typ, t.value, id), s.ctxs) != []
    ensures FirstTwin(Children(s, id), t) < |Children(s, id)|
    ensures LookedUp(s, t, id) == KidsAt(s, id)[FirstTwin(Children(s, id), t)]
  {
    var kids := KidsAt(s, id);
    FilterTwice(Named(t), ChildOf(id), Matches(t.typ, t.value, id), s.ctxs);
    KidsInfo(s, id);
    forall i | 0 <= i < |kids| ensures Named(t)(kids[i]) <==> Twins(Children(s, id)[i], t) {
      DecodeAllAt(s, kids, id, i);
      assert kids[i] in s.ctxs && kids[i].parent == Some(id);
    }
    FirstOfFilter(kids, Children(s, id), t);
  }

  // ----- filling it

  lemma {:induction false} ChildReplaced(s: Store, s1: Store, id: int, m: nat, t: Tree)
    requires Tidy(s) && Tidy(s1) && id < s.next && m < |KidsAt(s, id)|
    requires Extends(s, s1, Below(s, KidsAt(s, id)[m].id))
    requires KidsAt(s, id)[m].id < s.next <= s1.next && Decode(s1, KidsAt(s, id)[m]) == t
    ensures KidsAt(s1, id) == KidsAt(s, id) && DirsAt(s1, id) == DirsAt(s, id)
    ensures Children(s1, id) == Children(s, id)[m := t]
  {
    var kids, touched := KidsAt(s, id), Below(s, KidsAt(s, id)[m].id);
    KidsInfo(s, id);
    TidyAcyclic(s, id);
    if id in touched {
      NotUnderOwnKid(s.ctxs, id, kids[m].id);
    }
    Untouched(s, s1, touched, id);
    forall i | 0 <= i < |kids| ensures Children(s1, id)[i] == Children(s, id)[m := t][i] {
      DecodeAllAt(s, kids, id, i);
      DecodeAllAt(s1, kids, id, i);
      if i != m {
        SiblingApart(s, id, kids[i], kids[m]);
        FrameDecode(s, s1, touched, kids[i]);
      }
    }
  }

  lemma {:induction false} BelowKid(s: Store, s1: Store, id: int, kid: int, touched: iset<int>)
    requires Tidy(s) && Extends(s, s1, touched) && ParentOf(s1.ctxs, kid) == Some(id)
    ensures forall x :: x in Below(s1, kid) ==> x >= s.next || x in Below(s, id)
  {
    forall x | x in Below(s1, kid) && x < s.next ensures x in Below(s, id) {
      DescendsVia(s1.ctxs, id, kid, x);
      DescendsStable(s, s1, touched, id, x);
    }
  }

  // ----- the whole import

  ghost predicate Imported(s: Store, s1: Store, id: int) {
    Tidy(s1) && s.next <= s1.next && Extends(s, s1, Below(s, id))
  }

  /** process_ctx on one context: the stored tree absorbs the source tree. */
  lemma {:induction false} LoadDecodes(s: Store, t: Tree, r: CtxRow)
    requires Tidy(s) && r.id < s.next
    ensures Imported(s, Load(s, t, r.id), r.id)
    ensures Decode(Load(s, t, r.id), r) == Absorbed(Decode(s, r), t)
    decreases t, 1
  {
    var id := r.id;
    var s1 := WithDirs(s, id, t.dirs);
    DirectivesDecode(s, id, t.dirs);
    LoadAllDecodes(s1, t.kids, id);
    DescendsFromSelf(s.ctxs, id);
    var s2 := LoadAll(s1, t.kids, id);
    assert s1.ctxs == s.ctxs;
    ExtendsTrans(s, s1, s2, Below(s, id), Below(s1, id));
  }

  lemma {:induction false} LoadAllDecodes(s: Store, kids: seq<Tree>, id: int)
    requires Tidy(s) && id < s.next
    ensures Imported(s, LoadAll(s, kids, id), id)
    ensures DirsAt(LoadAll(s, kids, id), id) == DirsAt(s, id)
    ensures Children(LoadAll(s, kids, id), id) == AbsorbedAll(Children(s, id), kids)
    decreases kids, 0
  {
    if kids == [] {
      assert s.ctxs[|s.ctxs|..] == [] && s.dirs[|s.dirs|..] == [];
    } else {
      var s2 := LoadOne(s, kids[0], id);
      LoadOneDecodes(s, kids[0], id);
      LoadAllDecodes(s2, kids[1..], id);
      var s3 := LoadAll(s2, kids[1..], id);
      BelowItself(s, s2, id);
      ExtendsTrans(s, s2, s3, Below(s, id), Below(s2, id));
    }
  }

  lemma {:induction false} BelowItself(s: Store, s1: Store, id: int)
    requires Tidy(s) && Extends(s, s1, Below(s, id))
    ensures forall x :: x in Below(s1, id) ==> x >= s.next || x in Below(s, id)
  {
    forall x | x in Below(s1, id) && x < s.next ensures x in Below(s, id) {
      DescendsStable(s, s1, Below(s, id), id, x);
    }
  }

  /** One sub-context: insert the row, look its id up by content, import into the row found. */
  lemma {:induction false} LoadOneDecodes(s: Store, t: Tree, id: int)
    requires Tidy(s) && id < s.next
    ensures var s2 := LoadOne(s, t, id); Imported(s, s2, id) && DirsAt(s2, id) == DirsAt(s, id)
    ensures var grown := Children(s, id) + [Blank(t)]; var m := FirstTwin(grown, t);
            m < |grown| && Children(LoadOne(s, t, id), id) == grown[m := Absorbed(grown[m], t)]
    decreases t, 2
  {
    var s1 := WithRow(s, RowFor(s, id, t));
    JustInserted(s, id, t);
    RowInserted(s, id, t);
    RowDecodes(s, id, t);
    LookupIsFirstTwin(s1, id, t);
    var m := FirstTwin(Children(s1, id), t);
    var j := KidsAt(s1, id)[m];
    var s2 := Load(s1, t, j.id);
    KidsInfo(s1, id);
    LoadDecodes(s1, t, j);
    DecodeAllAt(s1, KidsAt(s1, id), id, m);
    ChildReplaced(s1, s2, id, m, Absorbed(Decode(s1, j), t));
    BelowKid(s, s1, id, j.id, iset{id});
    DescendsFromSelf(s.ctxs, id);
    assert Extends(s, s1, Below(s, id));
    ExtendsTrans(s, s1, s2, Below(s, id), Below(s1, j.id));
  }
}

/** What process_ctx of conf2sql.pl does to the tables, as a function, and how tables decode. */
module Store {
  import opened Prelude
  import opened Document
  import opened Tables
  import opened Ancestry

  /** A directive together with the context the map table puts it in. */
  datatype Located = Located(ctxId: int, dir: Directive)

  /** The tables up to the choice of directive ids; `next` is the next context id. */
  datatype Store = Store(ctxs: seq<CtxRow>, dirs: seq<Located>, next: int)

  function Locate(id: int): Directive -> Located { (d: Directive) => Located(id, d) }

  function At(id: int): Located -> bool { (l: Located) => l.ctxId == id }

  function DirectiveOf(): Located -> Directive { (l: Located) => l.dir }

  function LocatedOf(): Placed -> Located { (p: Placed) => Located(p.ctxId, DirOf(p.conf)) }

  function StoreOf(v: View, next: int): Store {
    Store(v.ctxs, Map(LocatedOf(), v.placed), next)
  }

  /** `WHERE type = ? AND value = ? AND parent_id = ?`; a NULL column equals nothing. */
  function Matches(typ: string, value: string, parent: int): CtxRow -> bool {
    (r: CtxRow) => r.typ == Some(typ) && r.value == Some(value) && r.parent == Some(parent)
  }

  function RowFor(s: Store, id: int, t: Tree): CtxRow {
    CtxRow(s.next, Some(id), Some(t.typ), Some(t.value))
  }

  function WithRow(s: Store, r: CtxRow): Store {
    Store(s.ctxs + [r], s.dirs, s.next + 1)
  }

  function WithDirs(s: Store, id: int, ds: seq<Directive>): Store {
    Store(s.ctxs, s.dirs + Map(Locate(id), ds), s.next)
  }

  /** The first hit of the content lookup that follows an insert. */
  function LookedUp(s: Store, t: Tree, id: int): CtxRow
    requires Filter(Matches(t.typ, t.value, id), s.ctxs) != []
  {
    Filter(Matches(t.typ, t.value, id), s.ctxs)[0]
  }

  lemma {:induction false} JustInserted(s: Store, id: int, t: Tree)
    ensures Filter(Matches(t.typ, t.value, id), WithRow(s, RowFor(s, id, t)).ctxs) != []
  {
    assert RowFor(s, id, t) in Filter(Matches(t.typ, t.value, id), WithRow(s, RowFor(s, id, t)).ctxs);
  }

  /** It is the first row with that type, that value and that parent. */
  lemma {:induction false} LookupHits(rows: seq<CtxRow>, typ: string, value: string, parent: int) returns (i: nat)
    requires Filter(Matches(typ, value, parent), rows) != []
    ensures i < |rows| && rows[i] == Filter(Matches(typ, value, parent), rows)[0]
    ensures rows[i].typ == Some(typ) && rows[i].value == Some(value) && rows[i].parent == Some(parent)
    ensures forall j :: 0 <= j < i ==>
              rows[j].typ != Some(typ) || rows[j].value != Some(value) || rows[j].parent != Some(parent)
  {
    if Matches(typ, value, parent)(rows[0]) {
      i := 0;
    } else {
      i := LookupHits(rows[1..], typ, value, parent);
      i := i + 1;
    }
  }

  function Load(s: Store, t: Tree, id: int): Store
    decreases t, 1
  {
    LoadAll(WithDirs(s, id, t.dirs), t.kids, id)
  }

  /** One sub-context: its row goes in, and its content goes where the content lookup points. */
  function LoadOne(s: Store, t: Tree, id: int): Store
    decreases t, 2
  {
    var s1 := WithRow(s, RowFor(s, id, t));
    JustInserted(s, id, t);
    Load(s1, t, LookedUp(s1, t, id).id)
  }

  function LoadAll(s: Store, kids: seq<Tree>, id: int): Store
    decreases kids, 0
  {
    if kids == [] then s else LoadAll(LoadOne(s, kids[0], id), kids[1..], id)
  }

  // ----- decoding

  /** The shape of tables filled by imports: parents come before their children. */
  ghost predicate Tidy(s: Store) {
    && UniqueIds(s.ctxs)
    && (forall r :: r in s.ctxs ==> r.id < s.next)
    && (forall r :: r in s.ctxs && r.parent.Some? ==> r.parent.value < r.id && r.typ.Some? && r.value.Some?)
    && (forall l :: l in s.dirs ==> l.ctxId < s.next)
  }

  function KidsAt(s: Store, id: int): seq<CtxRow> { Filter(ChildOf(id), s.ctxs) }

  function DirsAt(s: Store, id: int): seq<Directive> { Map(DirectiveOf(), Filter(At(id), s.dirs)) }

  function TypeOf(r: CtxRow): string {
    match r.typ case None => "" case Some(t) => t
  }

  /** The tree below a stored context, in table order. */
  ghost function Decode(s: Store, r: CtxRow): Tree
    requires Tidy(s) && r.id < s.next
    decreases s.next - r.id, 1, 0
  {
    Tree(TypeOf(r), ValueOf(r), DirsAt(s, r.id), DecodeAll(s, KidsAt(s, r.id), r.id))
  }

  ghost function DecodeAll(s: Store, rows: seq<CtxRow>, floor: int): (ts: seq<Tree>)
    requires Tidy(s) && floor < s.next && forall r :: r in rows ==> floor < r.id < s.next
    ensures |ts| == |rows|
    decreases s.next - floor, 0, |rows|
  {
    if rows == [] then [] else [Decode(s, rows[0])] + DecodeAll(s, rows[1..], floor)
  }

  lemma {:induction false} DecodeAllAt(s: Store, rows: seq<CtxRow>, floor: int, i: nat)
    requires Tidy(s) && floor < s.next && (forall r :: r in rows ==> floor < r.id < s.next) && i < |rows|
    ensures DecodeAll(s, rows, floor)[i] == Decode(s, rows[i])
    decreases i
  {
    if i > 0 {
      DecodeAllAt(s, rows[1..], floor, i - 1);
    }
  }

  lemma {:induction false} DecodeAllSame(s: Store, s1: Store, rows: seq<CtxRow>, floor: int)
    requires Tidy(s) && Tidy(s1) && floor < s.next <= s1.next && forall r :: r in rows ==> floor < r.id < s.next
    requires forall r :: r in rows ==> Decode(s1, r) == Decode(s, r)
    ensures DecodeAll(s1, rows, floor) == DecodeAll(s, rows, floor)
  {
    if rows != [] {
      DecodeAllSame(s, s1, rows[1..], floor);
    }
  }

  // ----- what an import leaves alone

  /** `s1` is `s` with fresh rows and directives, attached only below `touched` or to each other. */
  ghost predicate Extends(s: Store, s1: Store, touched: iset<int>) {
    && s.next <= s1.next && s.ctxs <= s1.ctxs && s.dirs <= s1.dirs
    && (forall r :: r in s1.ctxs[|s.ctxs|..] ==>
          r.id >= s.next && r.parent.Some? && (r.parent.value >= s.next || r.parent.value in touched))
    && (forall l :: l in s1.dirs[|s.dirs|..] ==> l.ctxId >= s.next || l.ctxId in touched)
  }

  ghost function Below(s: Store, id: int): iset<int> {
    iset x | Descends(s.ctxs, id, x)
  }

  lemma {:induction false} ExtendsTrans(s: Store, s1: Store, s2: Store, touched: iset<int>, touched1: iset<int>)
    requires Extends(s, s1, touched) && Extends(s1, s2, touched1)
    requires forall x :: x in touched1 ==> x >= s.next || x in touched
    ensures Extends(s, s2, touched)
  {
    var n, m := |s.ctxs|, |s.dirs|;
    assert s2.ctxs[n..] == s1.ctxs[n..] + s2.ctxs[|s1.ctxs|..];
    assert s2.dirs[m..] == s1.dirs[m..] + s2.dirs[|s1.dirs|..];
  }

  lemma {:induction false} Untouched(s: Store, s1: Store, touched: iset<int>, id: int)
    requires Extends(s, s1, touched) && id < s.next && id !in touched
    ensures KidsAt(s1, id) == KidsAt(s, id) && DirsAt(s1, id) == DirsAt(s, id)
  {
    var rows, dirs := s1.ctxs[|s.ctxs|..], s1.dirs[|s.dirs|..];
    assert s1.ctxs == s.ctxs + rows && s1.dirs == s.dirs + dirs;
    FilterConcat(ChildOf(id), s.ctxs, rows);
    FilterNone(ChildOf(id), rows);
    FilterConcat(At(id), s.dirs, dirs);
    FilterNone(At(id), dirs);
  }

  /** Ancestors of stored contexts have smaller ids. */
  lemma {:induction false} UpDecreases(s: Store, x: int, n: nat)
    requires Tidy(s) && Up(s.ctxs, x, n).Some?
    ensures Up(s.ctxs, x, n).value <= x && (n > 0 ==> Up(s.ctxs, x, n).value < x)
    decreases n
  {
    if n > 0 {
      var r := ParentHasRow(s.ctxs, x);
      UpDecreases(s, r.parent.value, n - 1);
    }
  }

  lemma {:induction false} TidyAcyclic(s: Store, id: int)
    requires Tidy(s)
    ensures !OwnAncestor(s.ctxs, id)
  {
    forall n: nat | n > 0 ensures Up(s.ctxs, id, n) != Some(id) {
      if Up(s.ctxs, id, n).Some? {
        UpDecreases(s, id, n);
      }
    }
  }

  lemma {:induction false} KidsInfo(s: Store, id: int)
    requires Tidy(s)
    ensures forall r :: r in KidsAt(s, id) ==> r in s.ctxs && id < r.id < s.next && ParentOf(s.ctxs, r.id) == Some(id)
    ensures forall i, j :: 0 <= i < j < |KidsAt(s, id)| ==> KidsAt(s, id)[i].id != KidsAt(s, id)[j].id
  {
    var kids := KidsAt(s, id);
    forall r | r in kids ensures ParentOf(s.ctxs, r.id) == Some(id) {
      ParentOfRow(s.ctxs, r);
    }
    FilterNoDup(ChildOf(id), s.ctxs);
    forall i, j | 0 <= i < j < |kids| ensures kids[i].id != kids[j].id {
      assert kids[i] != kids[j] && kids[i] in s.ctxs && kids[j] in s.ctxs;
      if kids[i].id == kids[j].id {
        SameRow(View(s.ctxs, []), kids[i], kids[j]);
      }
    }
  }

  lemma {:induction false} DescendsFromSelf(ctxs: seq<CtxRow>, id: int)
    ensures Descends(ctxs, id, id)
  {
    assert Up(ctxs, id, 0) == Some(id);
  }

  lemma {:induction false} DescendsVia(ctxs: seq<CtxRow>, id: int, kid: int, x: int)
    requires ParentOf(ctxs, kid) == Some(id) && Descends(ctxs, kid, x)
    ensures Descends(ctxs, id, x)
  {
    var m: nat :| Up(ctxs, x, m) == Some(kid);
    UpAdd(ctxs, x, m, kid, 1);
    UpStep(ctxs, kid, id, 0);
  }

  ghost predicate Apart(s: Store, id: int, touched: iset<int>) {
    forall x :: Descends(s.ctxs, id, x) ==> x !in touched
  }

  lemma {:induction false} ApartKid(s: Store, id: int, kid: int, touched: iset<int>)
    requires Apart(s, id, touched) && ParentOf(s.ctxs, kid) == Some(id)
    ensures Apart(s, kid, touched)
  {
    forall x | Descends(s.ctxs, kid, x) ensures x !in touched {
      DescendsVia(s.ctxs, id, kid, x);
    }
  }

  lemma {:induction false} DecodeLocal(s: Store, s1: Store, r: CtxRow)
    requires Tidy(s) && Tidy(s1) && r.id < s.next <= s1.next
    requires KidsAt(s1, r.id) == KidsAt(s, r.id) && DirsAt(s1, r.id) == DirsAt(s, r.id)
    requires forall k :: k in KidsAt(s, r.id) ==> r.id < k.id < s.next && Decode(s1, k) == Decode(s, k)
    ensures Decode(s1, r) == Decode(s, r)
  {
    DecodeAllSame(s, s1, KidsAt(s, r.id), r.id);
  }

  /** A subtree no touched context belongs to decodes as before. */
  lemma {:induction false} FrameDecode(s: Store, s1: Store, touched: iset<int>, r: CtxRow)
    requires Tidy(s) && Tidy(s1) && Extends(s, s1, touched) && r.id < s.next
    requires Apart(s, r.id, touched)
    ensures Decode(s1, r) == Decode(s, r)
    decreases s.next - r.id
  {
    DescendsFromSelf(s.ctxs, r.id);
    Untouched(s, s1, touched, r.id);
    KidsInfo(s, r.id);
    forall k | k in KidsAt(s, r.id) ensures Decode(s1, k) == Decode(s, k) {
      ApartKid(s, r.id, k.id, touched);
      FrameDecode(s, s1, touched, k);
    }
    DecodeLocal(s, s1, r);
  }

  // ----- ancestors survive an import

  lemma {:induction false} ParentStable(xs: seq<CtxRow>, ys: seq<CtxRow>, x: int)
    requires forall r :: r in ys ==> r.id != x
    ensures ParentOf(xs + ys, x) == ParentOf(xs, x)
  {
    if xs == [] {
      assert xs + ys == ys;
      NoParent(ys, x);
    } else {
      assert (xs + ys)[1..] == xs[1..] + ys;
      ParentStable(xs[1..], ys, x);
    }
  }

  lemma {:induction false} NoParent(ys: seq<CtxRow>, x: int)
    requires forall r :: r in ys ==> r.id != x
    ensures ParentOf(ys, x) == None
  {
    if ys != [] {
      NoParent(ys[1..], x);
    }
  }

  lemma {:induction false} UpStable(s: Store, s1: Store, touched: iset<int>, x: int, n: nat)
    requires Tidy(s) && Extends(s, s1, touched) && x < s.next
    ensures Up(s1.ctxs, x, n) == Up(s.ctxs, x, n)
    decreases n
  {
    if n > 0 {
      assert s1.ctxs == s.ctxs + s1.ctxs[|s.ctxs|..];
      ParentStable(s.ctxs, s1.ctxs[|s.ctxs|..], x);
      if ParentOf(s.ctxs, x).Some? {
        var r := ParentHasRow(s.ctxs, x);
        UpStable(s, s1, touched, r.parent.value, n - 1);
      }
    }
  }

  lemma {:induction false} DescendsStable(s: Store, s1: Store, touched: iset<int>, id: int, x: int)
    requires Tidy(s) && Extends(s, s1, touched) && x < s.next
    ensures Descends(s1.ctxs, id, x) <==> Descends(s.ctxs, id, x)
  {
    forall n: nat {
      UpStable(s, s1, touched, x, n);
    }
  }
}

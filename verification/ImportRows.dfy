/** Which rows an import inserts: one per context, one directive row per directive, in source order. */
module ImportRows {
  import opened Prelude
  import opened Document
  import opened Tables
  import opened Store

  /** All directives of a tree, in the order the script writes them. */
  function AllDirectives(t: Tree): seq<Directive>
    decreases t, 1
  {
    t.dirs + DirectivesBelow(t.kids)
  }

  function DirectivesBelow(ts: seq<Tree>): seq<Directive>
    decreases ts, 0
  {
    if ts == [] then [] else AllDirectives(ts[0]) + DirectivesBelow(ts[1..])
  }

  /** Type and value of every context below the root, parents first. */
  function Headers(t: Tree): seq<(string, string)>
    decreases t, 1
  {
    HeadersBelow(t.kids)
  }

  function HeadersBelow(ts: seq<Tree>): seq<(string, string)>
    decreases ts, 0
  {
    if ts == [] then [] else [(ts[0].typ, ts[0].value)] + Headers(ts[0]) + HeadersBelow(ts[1..])
  }

  function HeaderOf(): CtxRow -> (string, string) { (r: CtxRow) => (TypeOf(r), ValueOf(r)) }

  /** Directives and context headers of a store, in table order. */
  function Written(s: Store): (seq<Directive>, seq<(string, string)>) {
    (Map(DirectiveOf(), s.dirs), Map(HeaderOf(), s.ctxs))
  }

  ghost predicate Adds(s: Store, s1: Store, ds: seq<Directive>, hs: seq<(string, string)>) {
    Written(s1) == (Written(s).0 + ds, Written(s).1 + hs) && s1.next == s.next + |hs|
  }

  lemma {:induction false} AddsTrans(
      s: Store, s1: Store, s2: Store,
      ds: seq<Directive>, hs: seq<(string, string)>, es: seq<Directive>, gs: seq<(string, string)>)
    requires Adds(s, s1, ds, hs) && Adds(s1, s2, es, gs)
    ensures Adds(s, s2, ds + es, hs + gs)
  {
    assert (Written(s).0 + ds) + es == Written(s).0 + (ds + es);
    assert (Written(s).1 + hs) + gs == Written(s).1 + (hs + gs);
  }

  /** Nothing of the source is lost or written twice, even where siblings collapse onto one id. */
  lemma {:induction false} ImportWritesAll(s: Store, t: Tree, id: int)
    ensures Adds(s, Load(s, t, id), AllDirectives(t), Headers(t))
    decreases t, 1
  {
    var s1 := WithDirs(s, id, t.dirs);
    MapConcat(DirectiveOf(), s.dirs, Map(Locate(id), t.dirs));
    assert Map(DirectiveOf(), Map(Locate(id), t.dirs)) == t.dirs;
    assert Written(s).1 + [] == Written(s).1;
    assert Adds(s, s1, t.dirs, []);
    ImportWritesAllBelow(s1, t.kids, id);
    AddsTrans(s, s1, Load(s, t, id), t.dirs, [], DirectivesBelow(t.kids), HeadersBelow(t.kids));
    assert [] + HeadersBelow(t.kids) == Headers(t);
  }

  lemma {:induction false} ImportWritesAllBelow(s: Store, kids: seq<Tree>, id: int)
    ensures Adds(s, LoadAll(s, kids, id), DirectivesBelow(kids), HeadersBelow(kids))
    decreases kids, 0
  {
    if kids == [] {
      assert Written(s).0 + [] == Written(s).0 && Written(s).1 + [] == Written(s).1;
    } else {
      var t := kids[0];
      var r := RowFor(s, id, t);
      var s1 := WithRow(s, r);
      JustInserted(s, id, t);
      MapConcat(HeaderOf(), s.ctxs, [r]);
      assert Map(HeaderOf(), [r]) == [(t.typ, t.value)];
      assert Written(s).0 + [] == Written(s).0;
      assert Adds(s, s1, [], [(t.typ, t.value)]);
      var hit := LookedUp(s1, t, id).id;
      ImportWritesAll(s1, t, hit);
      AddsTrans(s, s1, LoadOne(s, t, id), [], [(t.typ, t.value)], AllDirectives(t), Headers(t));
      assert [] + AllDirectives(t) == AllDirectives(t);
      ImportWritesAllBelow(LoadOne(s, t, id), kids[1..], id);
      AddsTrans(s, LoadOne(s, t, id), LoadAll(s, kids, id), AllDirectives(t), [(t.typ, t.value)] + Headers(t),
                DirectivesBelow(kids[1..]), HeadersBelow(kids[1..]));
    }
  }
}

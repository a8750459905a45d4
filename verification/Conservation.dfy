/** Every directive joined to a reachable context is pushed exactly once, under its own context. */
module Conservation {
  import opened Prelude
  import opened Document
  import opened Tables
  import opened Ancestry
  import opened Walk
  import opened Termination

  /** The join rows a walk pushed, each with the context it was pushed under. */
  function Joined(v: Visit): seq<Placed>
    decreases v, 1
  {
    if v.Skipped? || v.dirs.Error? then []
    else Map(Place(v.id), v.dirs.rows) + if v.kids.Error? then [] else JoinedAll(v.kids.rows)
  }

  function JoinedAll(vs: seq<Visit>): seq<Placed>
    decreases vs, 0
  {
    if vs == [] then [] else Joined(vs[0]) + JoinedAll(vs[1..])
  }

  function DirAt(): Placed -> Directive { (p: Placed) => DirOf(p.conf) }

  /** The directive lines of a document. */
  function DirectivesIn(ts: seq<Token>): seq<Directive> {
    if ts == [] then [] else (if ts[0].Dir? then [ts[0].dir] else []) + DirectivesIn(ts[1..])
  }

  lemma {:induction false} DirectivesInConcat(ts: seq<Token>, us: seq<Token>)
    ensures DirectivesIn(ts + us) == DirectivesIn(ts) + DirectivesIn(us)
  {
    if ts == [] {
      assert ts + us == us;
    } else {
      var head := if ts[0].Dir? then [ts[0].dir] else [];
      assert (ts + us)[0] == ts[0] && (ts + us)[1..] == ts[1..] + us;
      DirectivesInConcat(ts[1..], us);
      assert DirectivesIn(ts + us) == head + (DirectivesIn(ts[1..]) + DirectivesIn(us));
    }
  }

  lemma {:induction false} DirectivesInDirs(ds: seq<Directive>)
    ensures DirectivesIn(DirTokens(ds)) == ds
  {
    if ds != [] {
      DirectivesInDirs(ds[1..]);
      assert DirTokens(ds)[1..] == DirTokens(ds[1..]);
    }
  }

  lemma {:induction false} DirectivesInCall(open: seq<Token>, ds: seq<Directive>, kids: seq<Token>, close: seq<Token>)
    requires DirectivesIn(open) == [] && DirectivesIn(close) == []
    ensures DirectivesIn(open + DirTokens(ds)) == ds
    ensures DirectivesIn(open + DirTokens(ds) + kids + close) == ds + DirectivesIn(kids)
  {
    DirectivesInDirs(ds);
    DirectivesInConcat(open, DirTokens(ds));
    DirectivesInConcat(open + DirTokens(ds), kids);
    DirectivesInConcat(open + DirTokens(ds) + kids, close);
  }

  lemma {:induction false} OwnDirectives(v: Visit)
    requires v.Visited? && v.dirs.Rows?
    ensures Map(DirAt(), Map(Place(v.id), v.dirs.rows)) == Map(DirOf, v.dirs.rows)
  {
  }

  lemma {:induction false} PushedAreJoined(v: Visit, isbase: bool)
    ensures DirectivesIn(Emit(v, isbase)) == Map(DirAt(), Joined(v))
    decreases v, 1
  {
    assert DirectivesIn(OpenTokens(v, isbase)) == [] && DirectivesIn(CloseTokens(v, isbase)) == [];
    if v.Visited? && v.dirs.Rows? {
      OwnDirectives(v);
      var ds := Map(DirOf, v.dirs.rows);
      if v.kids.Rows? {
        PushedAreJoinedAll(v.kids.rows);
        DirectivesInCall(OpenTokens(v, isbase), ds, EmitAll(v.kids.rows), CloseTokens(v, isbase));
        MapConcat(DirAt(), Map(Place(v.id), v.dirs.rows), JoinedAll(v.kids.rows));
      } else {
        DirectivesInCall(OpenTokens(v, isbase), ds, [], []);
        assert Joined(v) == Map(Place(v.id), v.dirs.rows);
      }
    }
  }

  lemma {:induction false} PushedAreJoinedAll(vs: seq<Visit>)
    ensures DirectivesIn(EmitAll(vs)) == Map(DirAt(), JoinedAll(vs))
    decreases vs, 0
  {
    if vs != [] {
      PushedAreJoined(vs[0], false);
      PushedAreJoinedAll(vs[1..]);
      DirectivesInConcat(Emit(vs[0], false), EmitAll(vs[1..]));
      MapConcat(DirAt(), Joined(vs[0]), JoinedAll(vs[1..]));
    }
  }

  /** The join rows of the given contexts, context by context. */
  function JoinedBy(v: View, ids: seq<int>): seq<Placed> {
    if ids == [] then [] else Filter(InContext(ids[0]), v.placed) + JoinedBy(v, ids[1..])
  }

  lemma {:induction false} JoinedByConcat(v: View, xs: seq<int>, ys: seq<int>)
    ensures JoinedBy(v, xs + ys) == JoinedBy(v, xs) + JoinedBy(v, ys)
  {
    if xs == [] {
      assert xs + ys == ys;
    } else {
      assert (xs + ys)[1..] == xs[1..] + ys;
      JoinedByConcat(v, xs[1..], ys);
    }
  }

  lemma {:induction false} WalkJoins(s: Server, v: View, id: int, d: nat)
    requires Honest(s, v) && AllSucceed(s) && UniqueIds(v.ctxs) && HaltsWithin(s, id, d)
    ensures multiset(Joined(Explore(s, id, d))) == multiset(JoinedBy(v, Visits(Explore(s, id, d))))
    decreases d, 0
  {
    KeyIsUnique(s, v, id);
    var vs := ExploreAll(s, s.kids(id).rows, d - 1);
    WalkJoinsAll(s, v, s.kids(id).rows, d - 1);
    OwnJoins(s, v, id);
    assert Visits(Explore(s, id, d))[1..] == VisitsAll(vs);
    assert Joined(Explore(s, id, d)) == Map(Place(id), s.confs(id).rows) + JoinedAll(vs);
  }

  lemma {:induction false} OwnJoins(s: Server, v: View, id: int)
    requires Honest(s, v) && s.confs(id).Rows?
    ensures multiset(Map(Place(id), s.confs(id).rows)) == multiset(Filter(InContext(id), v.placed))
  {
    MapMultiset(Place(id), s.confs(id).rows, JoinRows(v, id));
    assert forall p :: p in Filter(InContext(id), v.placed) ==> p.ctxId == id && Place(id)(ConfOf()(p)) == p;
    assert Map(Place(id), JoinRows(v, id)) == Filter(InContext(id), v.placed);
  }

  lemma {:induction false} WalkJoinsAll(s: Server, v: View, rows: seq<CtxRow>, d: nat)
    requires Honest(s, v) && AllSucceed(s) && UniqueIds(v.ctxs)
    requires forall r :: r in rows ==> HaltsWithin(s, r.id, d)
    ensures multiset(JoinedAll(ExploreAll(s, rows, d))) == multiset(JoinedBy(v, VisitsAll(ExploreAll(s, rows, d))))
    decreases d, 1, |rows|
  {
    if rows != [] {
      WalkJoins(s, v, rows[0].id, d);
      WalkJoinsAll(s, v, rows[1..], d);
      JoinedByConcat(v, Visits(Explore(s, rows[0].id, d)), VisitsAll(ExploreAll(s, rows[1..], d)));
      assert ExploreAll(s, rows, d)[1..] == ExploreAll(s, rows[1..], d);
    }
  }

  lemma {:induction false} JoinedByCount(v: View, ids: seq<int>, p: Placed)
    requires NoDup(ids)
    ensures multiset(JoinedBy(v, ids))[p] == if p.ctxId in ids then multiset(v.placed)[p] else 0
  {
    if ids != [] {
      assert forall i :: 0 <= i < |ids[1..]| ==> ids[1..][i] == ids[i + 1];
      FilterCount(InContext(ids[0]), v.placed, p);
      JoinedByCount(v, ids[1..], p);
      assert p.ctxId in ids <==> p.ctxId == ids[0] || p.ctxId in ids[1..];
      assert ids[0] !in ids[1..];
    }
  }

  ghost function Under(v: View, base: int): Placed -> bool {
    (p: Placed) => Descends(v.ctxs, base, p.ctxId)
  }

  /**
   * The directive lines of a successful walk are the join rows of the base and its descendants:
   * none is lost, pushed twice or pushed under another context.
   */
  lemma {:induction false} DirectivesConserved(s: Server, v: View, base: int, d: nat)
    requires Honest(s, v) && AllSucceed(s) && UniqueIds(v.ctxs) && HaltsWithin(s, base, d)
    ensures multiset(Joined(Explore(s, base, d))) == multiset(Filter(Under(v, base), v.placed))
    ensures multiset(DirectivesIn(Emit(Explore(s, base, d), true))) ==
            multiset(Map(DirAt(), Filter(Under(v, base), v.placed)))
  {
    var visit := Explore(s, base, d);
    ExactlyOnce(s, v, base, d);
    WalkJoins(s, v, base, d);
    forall p ensures multiset(Joined(visit))[p] == multiset(Filter(Under(v, base), v.placed))[p] {
      JoinedByCount(v, Visits(visit), p);
      FilterCount(Under(v, base), v.placed, p);
    }
    PushedAreJoined(visit, true);
    MapMultiset(DirAt(), Joined(visit), Filter(Under(v, base), v.placed));
  }
}

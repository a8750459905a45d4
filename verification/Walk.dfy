/** Tables to text, as mod_conf_sql.c does it. */
module Walk {
  import opened Prelude
  import opened Document
  import opened Tables

  /**
   * The database as the C module meets it: each SELECT either fails or answers rows. The three
   * functions are the type/value query, the directive join and the child list of a context id.
   */
  datatype Server = Server(
    key: int -> Reply<CtxRow>,
    confs: int -> Reply<ConfRow>,
    kids: int -> Reply<CtxRow>)

  /** Every answer holds exactly the qualifying rows, in any order. */
  ghost predicate Honest(s: Server, v: View) {
    && (forall id :: s.key(id).Rows? ==> multiset(s.key(id).rows) == multiset(KeyRows(v, id)))
    && (forall id :: s.confs(id).Rows? ==> multiset(s.confs(id).rows) == multiset(JoinRows(v, id)))
    && (forall id :: s.kids(id).Rows? ==> multiset(s.kids(id).rows) == multiset(KidRows(v, id)))
  }

  ghost predicate AllSucceed(s: Server) {
    forall id :: s.key(id).Rows? && s.confs(id).Rows? && s.kids(id).Rows?
  }

  /** The server that answers every SELECT in table order. */
  function InOrder(v: View): (s: Server)
    ensures Honest(s, v) && AllSucceed(s)
  {
    Server(id => Rows(KeyRows(v, id)), id => Rows(JoinRows(v, id)), id => Rows(KidRows(v, id)))
  }

  predicate KeyOk(s: Server, id: int) {
    s.key(id).Rows? && |s.key(id).rows| <= 1
  }

  /** The child rows the walk of `id` recurses into. */
  function NextRows(s: Server, id: int): seq<CtxRow> {
    if KeyOk(s, id) && s.confs(id).Rows? && s.kids(id).Rows? then s.kids(id).rows else []
  }

  /** The recursion started at `id` is at most `d` calls deep. */
  ghost predicate HaltsWithin(s: Server, id: int, d: nat)
    decreases d
  {
    d > 0 && forall r :: r in NextRows(s, id) ==> HaltsWithin(s, r.id, d - 1)
  }

  ghost predicate Halts(s: Server, id: int) {
    exists d: nat :: HaltsWithin(s, id, d)
  }

  lemma {:induction false} HaltsLonger(s: Server, id: int, d: nat, e: nat)
    requires HaltsWithin(s, id, d) && d <= e
    ensures HaltsWithin(s, id, e)
    decreases d
  {
    forall r | r in NextRows(s, id) ensures HaltsWithin(s, r.id, e - 1) {
      HaltsLonger(s, r.id, d - 1, e - 1);
    }
  }

  // ----- the tree of calls of one walk

  /** One call of sqlconf_read_ctx: Skipped when its first SELECT fails or returns several rows. */
  datatype Visit =
    | Skipped(id: int)
    | Visited(id: int, key: Option<CtxRow>, dirs: Reply<ConfRow>, kids: Reply<Visit>)

  ghost function Explore(s: Server, id: int, d: nat): (v: Visit)
    requires HaltsWithin(s, id, d)
    ensures v.id == id
    decreases d, 0
  {
    if !KeyOk(s, id) then Skipped(id)
    else
      var key := if s.key(id).rows == [] then None else Some(s.key(id).rows[0]);
      if s.confs(id).Error? then Visited(id, key, Error, Error)
      else if s.kids(id).Error? then Visited(id, key, s.confs(id), Error)
      else Visited(id, key, s.confs(id), Rows(ExploreAll(s, s.kids(id).rows, d - 1)))
  }

  ghost function ExploreAll(s: Server, rows: seq<CtxRow>, d: nat): (vs: seq<Visit>)
    requires forall r :: r in rows ==> HaltsWithin(s, r.id, d)
    ensures |vs| == |rows|
    ensures forall i :: 0 <= i < |rows| ==> vs[i] == Explore(s, rows[i].id, d)
    decreases d, |rows|
  {
    if rows == [] then [] else [Explore(s, rows[0].id, d)] + ExploreAll(s, rows[1..], d)
  }

  lemma {:induction false} ExploreSame(s: Server, id: int, d: nat, e: nat)
    requires HaltsWithin(s, id, d) && HaltsWithin(s, id, e)
    ensures Explore(s, id, d) == Explore(s, id, e)
    decreases d
  {
    if KeyOk(s, id) && s.confs(id).Rows? && s.kids(id).Rows? {
      var rows := s.kids(id).rows;
      forall i | 0 <= i < |rows| ensures Explore(s, rows[i].id, d - 1) == Explore(s, rows[i].id, e - 1) {
        ExploreSame(s, rows[i].id, d - 1, e - 1);
      }
      assert ExploreAll(s, rows, d - 1) == ExploreAll(s, rows, e - 1);
    }
  }

  // ----- the lines one walk pushes

  predicate Tagged(v: Visit, isbase: bool) {
    v.Visited? && !isbase && v.key.Some? && v.key.value.typ.Some?
  }

  function ConfTokens(cs: seq<ConfRow>): (ts: seq<Token>)
    ensures |ts| == |cs|
  {
    DirTokens(Map(DirOf, cs))
  }

  function OpenTokens(v: Visit, isbase: bool): seq<Token> {
    if Tagged(v, isbase) then [Open(v.key.value.typ.value, ValueOf(v.key.value))] else []
  }

  function CloseTokens(v: Visit, isbase: bool): seq<Token> {
    if Tagged(v, isbase) then [Close(v.key.value.typ.value)] else []
  }

  /** The lines pushed by a call, in order; a failing later SELECT leaves out the close tag. */
  function Emit(v: Visit, isbase: bool): seq<Token>
    decreases v, 1
  {
    if v.Skipped? then []
    else if v.dirs.Error? then OpenTokens(v, isbase)
    else if v.kids.Error? then OpenTokens(v, isbase) + ConfTokens(v.dirs.rows)
    else OpenTokens(v, isbase) + ConfTokens(v.dirs.rows) + EmitAll(v.kids.rows) + CloseTokens(v, isbase)
  }

  function EmitAll(vs: seq<Visit>): seq<Token>
    decreases vs, 0
  {
    if vs == [] then [] else Emit(vs[0], false) + EmitAll(vs[1..])
  }

  /** An error or several rows for the type and value: the context is skipped, with nothing pushed. */
  lemma {:induction false} AmbiguousSkips(s: Server, id: int, d: nat, isbase: bool)
    requires HaltsWithin(s, id, d) && (s.key(id).Error? || |s.key(id).rows| > 1)
    ensures Explore(s, id, d).Skipped? && Emit(Explore(s, id, d), isbase) == []
  {
  }

  /**
   * Otherwise the directives follow the open tag, the children follow the directives, and the close
   * tag comes last; the base and a context without a type have no tags, and what comes after a
   * failing SELECT is left out.
   */
  lemma {:induction false} CallPushes(s: Server, id: int, d: nat, isbase: bool)
    requires HaltsWithin(s, id, d) && s.key(id).Rows? && |s.key(id).rows| <= 1
    ensures var rows, lines := s.key(id).rows, Emit(Explore(s, id, d), isbase);
            var tagged := !isbase && rows != [] && rows[0].typ.Some?;
            var open := if tagged then [Open(rows[0].typ.value, ValueOf(rows[0]))] else [];
            var close := if tagged then [Close(rows[0].typ.value)] else [];
            && (s.confs(id).Error? ==> lines == open)
            && (s.confs(id).Rows? && s.kids(id).Error? ==> lines == open + ConfTokens(s.confs(id).rows))
            && (s.confs(id).Rows? && s.kids(id).Rows? ==>
                  && (forall r :: r in s.kids(id).rows ==> HaltsWithin(s, r.id, d - 1))
                  && lines == open + ConfTokens(s.confs(id).rows)
                              + EmitAll(ExploreAll(s, s.kids(id).rows, d - 1)) + close)
  {
  }

  /** The call returned 0. */
  predicate Succeeded(v: Visit) {
    v.Visited? && v.dirs.Rows? && v.kids.Rows?
  }

  lemma {:induction false} EmitAllConcat(vs: seq<Visit>, ws: seq<Visit>)
    ensures EmitAll(vs + ws) == EmitAll(vs) + EmitAll(ws)
  {
    if vs == [] {
      assert vs + ws == ws;
    } else {
      assert (vs + ws)[1..] == vs[1..] + ws;
      EmitAllConcat(vs[1..], ws);
    }
  }

  lemma {:induction false} EmitNext(vs: seq<Visit>, i: nat)
    requires i < |vs|
    ensures EmitAll(vs[..i + 1]) == EmitAll(vs[..i]) + Emit(vs[i], false)
  {
    assert vs[..i + 1] == vs[..i] + [vs[i]];
    EmitAllConcat(vs[..i], [vs[i]]);
    assert EmitAll([vs[i]]) == Emit(vs[i], false) + EmitAll([]);
  }
}

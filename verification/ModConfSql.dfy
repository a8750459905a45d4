/** mod_conf_sql.c itself: its globals, the reading functions, and the callbacks of its fake file. */
module ModConfSql {
  import opened Prelude
  import opened Document
  import opened Tables
  import opened Ancestry
  import opened Walk
  import opened Termination
  import opened Cursor

  /** The rows of the base query: the given id, or else the contexts with a NULL parent. */
  function BaseRows(table: seq<CtxRow>, baseId: Option<int>): seq<CtxRow> {
    match baseId
    case None => Filter(IsRoot(), table)
    case Some(id) => Filter(RowIs(id), table)
  }

  /**
   * `v` shows rows of the context table `table`, whose ids are unique: all of them, or those a
   * where clause accepts. The base query carries no where clause and sees the whole table.
   */
  ghost predicate Shows(v: View, table: seq<CtxRow>) {
    UniqueIds(v.ctxs) && UniqueIds(table) && forall r :: r in v.ctxs ==> r in table
  }

  /** The document when the base query answers `rows`: empty unless there is exactly one row. */
  ghost function DocumentOf(s: Server, rows: seq<CtxRow>, d: nat): seq<string>
    requires |rows| == 1 ==> HaltsWithin(s, rows[0].id, d)
  {
    if |rows| == 1 then RenderAll(Emit(Explore(s, rows[0].id, d), true)) else []
  }

  /** `r` is the one row with the given id or, without one, the one row with a NULL parent. */
  ghost predicate Only(table: seq<CtxRow>, baseId: Option<int>, r: CtxRow) {
    && r in table && (if baseId.Some? then r.id == baseId.value else r.parent == None)
    && forall x :: x in table && x != r ==> if baseId.Some? then x.id != baseId.value else x.parent.Some?
  }

  lemma {:induction false} BaseRowsAre(table: seq<CtxRow>, baseId: Option<int>, rows: seq<CtxRow>)
    requires UniqueIds(table) && multiset(rows) == multiset(BaseRows(table, baseId))
    ensures NoDup(rows)
    ensures forall x :: x in rows <==> x in table && if baseId.Some? then x.id == baseId.value else x.parent.None?
  {
    MultisetMember(rows, BaseRows(table, baseId));
    FilterNoDup(if baseId.Some? then RowIs(baseId.value) else IsRoot(), table);
    MultisetNoDup(BaseRows(table, baseId));
    MultisetNoDup(rows);
  }

  lemma {:induction false} AllSame<T>(xs: seq<T>, x: T)
    requires NoDup(xs) && xs != [] && forall y :: y in xs ==> y == x
    ensures xs == [x]
  {
    NoDupCardinality(xs, {x});
    assert xs[0] in xs;
  }

  /** There is such a row exactly when the base query answers it alone. */
  lemma {:induction false} OneBaseRow(table: seq<CtxRow>, baseId: Option<int>, rows: seq<CtxRow>)
    requires UniqueIds(table) && multiset(rows) == multiset(BaseRows(table, baseId))
    ensures forall r :: Only(table, baseId, r) <==> rows == [r]
  {
    BaseRowsAre(table, baseId, rows);
    forall r ensures Only(table, baseId, r) <==> rows == [r] {
      if Only(table, baseId, r) {
        assert r in rows;
        AllSame(rows, r);
      }
      if rows == [r] {
        assert r in rows && forall x :: x in rows ==> x == r;
      }
    }
  }

  /**
   * The document is that of the one row with the given id or else with a NULL parent, and empty
   * when there is no such row or more than one.
   */
  lemma {:induction false} BaseDocument(
      s: Server, v: View, table: seq<CtxRow>, baseId: Option<int>, rows: seq<CtxRow>)
    requires Honest(s, v) && Shows(v, table) && multiset(rows) == multiset(BaseRows(table, baseId))
    requires baseId.Some? ==> !OwnAncestor(v.ctxs, baseId.value)
    ensures |rows| == 1 ==> HaltsWithin(s, rows[0].id, |v.ctxs| + 1)
    ensures forall r :: Only(table, baseId, r) ==>
              && HaltsWithin(s, r.id, |v.ctxs| + 1)
              && DocumentOf(s, rows, |v.ctxs| + 1) == RenderAll(Emit(Explore(s, r.id, |v.ctxs| + 1), true))
    ensures (forall r :: !Only(table, baseId, r)) ==> DocumentOf(s, rows, |v.ctxs| + 1) == []
  {
    OneBaseRow(table, baseId, rows);
    if |rows| == 1 {
      BaseTerminates(s, rows[0], rows, v, table, baseId);
      assert rows == [rows[0]];
    }
  }

  class ConfSql {
    var built: bool           // sqlconf_conf is not NULL
    var lines: seq<string>    // sqlconf_conf
    var confi: nat            // sqlconf_confi
    var pool: bool            // sqlconf_conf_pool is not NULL

    function Globals(): State
      reads this
    {
      State(built, lines, confi, pool)
    }

    constructor ()
      ensures Globals() == INITIAL
    {
      built, lines, confi, pool := false, [], 0, false;
    }

    method ReadConf(s: Server, id: int) returns (ok: bool)
      modifies `lines
      ensures ok == s.confs(id).Rows?
      ensures ok ==> lines == old(lines) + RenderAll(ConfTokens(s.confs(id).rows))
      ensures !ok ==> lines == old(lines)
    {
      var res := s.confs(id);
      if res.Error? {
        return false;
      }
      ghost var pushed := RenderAll(ConfTokens(res.rows));
      for i := 0 to |res.rows|
        invariant lines == old(lines) + pushed[..i]
      {
        var str := res.rows[i].name + " " + res.rows[i].value + "\n";
        assert str == pushed[i];
        lines := lines + [str];
      }
      assert pushed[..|res.rows|] == pushed;
      return true;
    }

    method ReadCtxCtxs(s: Server, id: int, ghost d: nat) returns (ok: bool)
      requires s.kids(id).Rows? ==> forall r :: r in s.kids(id).rows ==> HaltsWithin(s, r.id, d)
      modifies `lines
      ensures ok == s.kids(id).Rows?
      ensures ok ==> lines == old(lines) + RenderAll(EmitAll(ExploreAll(s, s.kids(id).rows, d)))
      ensures !ok ==> lines == old(lines)
      decreases d, 1
    {
      var res := s.kids(id);
      if res.Error? {
        return false;
      }
      ghost var visits := ExploreAll(s, res.rows, d);
      ghost var before := lines;
      for i := 0 to |res.rows|
        invariant lines == before + RenderAll(EmitAll(visits[..i]))
      {
        var _ := ReadCtx(s, res.rows[i].id, false, d);
        EmitNext(visits, i);
        PushLines(before, EmitAll(visits[..i]), Emit(visits[i], false));
      }
      assert visits[..|res.rows|] == visits;
      return true;
    }

    /**
     * sqlconf_read_ctx. It terminates because the recursion is at most `d` deep, and what it
     * pushes is what the tree of its calls says, failures included.
     */
    method ReadCtx(s: Server, id: int, isbase: bool, ghost d: nat) returns (ok: bool)
      requires HaltsWithin(s, id, d)
      modifies `lines
      ensures ok == Succeeded(Explore(s, id, d))
      ensures ok <==> s.key(id).Rows? && |s.key(id).rows| <= 1 && s.confs(id).Rows? && s.kids(id).Rows?
      ensures s.key(id).Error? || |s.key(id).rows| > 1 ==> lines == old(lines)
      ensures lines == old(lines) + RenderAll(Emit(Explore(s, id, d), isbase))
      decreases d, 0
    {
      ghost var v := Explore(s, id, d);
      ghost var before := lines;
      var res := s.key(id);
      if res.Error? || |res.rows| > 1 {
        return false;
      }
      var key := if res.rows == [] then None else res.rows[0].typ;
      assert Tagged(v, isbase) == (key.Some? && !isbase);
      ghost var open := OpenTokens(v, isbase);
      if key.Some? && !isbase {
        var value := ValueOf(res.rows[0]);
        lines := lines + ["<" + key.value + (if |value| > 0 then " " + value else "") + ">\n"];
        assert lines[|before|..] == RenderAll(open);
      }
      assert lines == before + RenderAll(open);
      ok := ReadConf(s, id);
      if !ok {
        return false;
      }
      PushLines(before, open, ConfTokens(s.confs(id).rows));
      ok := ReadCtxCtxs(s, id, d - 1);
      if !ok {
        return false;
      }
      PushLines(before, open + ConfTokens(v.dirs.rows), EmitAll(v.kids.rows));
      if key.Some? && !isbase {
        lines := lines + ["</" + key.value + ">\n"];
        assert RenderAll(CloseTokens(v, isbase)) == ["</" + key.value + ">\n"];
      } else {
        assert lines == lines + RenderAll(CloseTokens(v, isbase));
      }
      PushLines(before, open + ConfTokens(v.dirs.rows) + EmitAll(v.kids.rows), CloseTokens(v, isbase));
      return true;
    }

    /**
     * sqlconf_read_db: `connected` and `closes` are the outcomes of the connection set-up and of
     * closing it, `base` the answer to the base query. A base context that is not its own
     * ancestor is all the termination of the walk needs; a context with a NULL parent never is.
     */
    method ReadDb(
        s: Server, base: Reply<CtxRow>, connected: bool, closes: bool,
        ghost v: View, ghost table: seq<CtxRow>, ghost baseId: Option<int>) returns (ok: bool)
      requires Honest(s, v) && Shows(v, table)
      requires base.Rows? ==> multiset(base.rows) == multiset(BaseRows(table, baseId))
      requires baseId.Some? ==> !OwnAncestor(v.ctxs, baseId.value)
      modifies `built, `lines
      ensures ok == (connected && base.Rows? && closes)
      ensures !connected || base.Error? ==> Globals() == old(Globals())
      ensures connected && base.Rows? ==>
                && built
                && (|base.rows| == 1 ==> HaltsWithin(s, base.rows[0].id, |v.ctxs| + 1))
                && lines == DocumentOf(s, base.rows, |v.ctxs| + 1)
    {
      if !connected {
        return false;
      }
      if base.Error? {
        return false;
      }
      built, lines := true, [];
      if |base.rows| == 1 {
        BaseTerminates(s, base.rows[0], base.rows, v, table, baseId);
        var _ := ReadCtx(s, base.rows[0].id, true, |v.ctxs| + 1);
      }
      return closes;
    }

    method Open(
        uriOk: bool, s: Server, base: Reply<CtxRow>, connected: bool, closes: bool,
        ghost v: View, ghost table: seq<CtxRow>, ghost baseId: Option<int>) returns (ok: bool, ghost db: Outcome)
      requires Honest(s, v) && Shows(v, table)
      requires base.Rows? ==> multiset(base.rows) == multiset(BaseRows(table, baseId))
      requires baseId.Some? ==> !OwnAncestor(v.ctxs, baseId.value)
      requires Sound(Globals())
      modifies this
      ensures Sound(Globals()) && Globals() == Next(old(Globals()), Event.Open(uriOk, db)).0
      ensures ok == Next(old(Globals()), Event.Open(uriOk, db)).1.Done?
      ensures ok <==> uriOk && (old(built) || (connected && base.Rows? && closes))
      ensures uriOk && !old(built) && connected && base.Rows? ==>
                && (|base.rows| == 1 ==> HaltsWithin(s, base.rows[0].id, |v.ctxs| + 1))
                && db == Built(DocumentOf(s, base.rows, |v.ctxs| + 1), closes)
      ensures !(uriOk && !old(built) && connected && base.Rows?) ==> db == Unread
    {
      db := Unread;
      pool := true;
      if !uriOk {
        return false, db;
      }
      if !built {
        ok := ReadDb(s, base, connected, closes, v, table, baseId);
        db := if connected && base.Rows? then Built(lines, closes) else Unread;
        if !ok {
          return false, db;
        }
      }
      return true, db;
    }

    /** One read into a buffer longer than the line. */
    method Read(buflen: nat) returns (r: Result)
      requires confi < |lines| ==> |lines[confi]| < buflen
      modifies `confi
      ensures (Globals(), r) == Next(old(Globals()), Event.Read)
    {
      if !built {
        return Failed;
      }
      if confi < |lines| {
        var line := lines[confi];
        confi := confi + 1;
        return Line(line);
      }
      return Eof;
    }

    method Close() returns (r: Result)
      ensures (Globals(), r) == Next(old(Globals()), Event.Close)
    {
      return Done;
    }

    method Postparse()
      modifies this
      ensures Globals() == Next(old(Globals()), Event.Postparse).0
    {
      if pool {
        pool := false;
        built, lines := false, [];
        confi := 0;
      }
    }
  }

  lemma {:induction false} BaseTerminates(
      s: Server, r: CtxRow, rows: seq<CtxRow>, v: View, table: seq<CtxRow>, baseId: Option<int>)
    requires Honest(s, v) && Shows(v, table) && r in rows
    requires multiset(rows) == multiset(BaseRows(table, baseId))
    requires baseId.Some? ==> !OwnAncestor(v.ctxs, baseId.value)
    ensures HaltsWithin(s, r.id, |v.ctxs| + 1)
  {
    MultisetMember(rows, BaseRows(table, baseId));
    if baseId.None? && ParentOf(v.ctxs, r.id).Some? {
      var x := ParentHasRow(v.ctxs, r.id);
      SameRow(View(table, []), x, r);
      assert false;
    }
    BaseHalts(s, v, r.id);
  }
}

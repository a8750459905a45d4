/** The database conf2sql.pl writes to, with the lookups it makes. */
module Sql {
  import opened Prelude
  import opened Document
  import opened Tables
  import opened Store

  function ConfIds(confs: seq<ConfRow>): set<int> { set c | c in confs :: c.id }

  function CtxIds(ctxs: seq<CtxRow>): set<int> { set r | r in ctxs :: r.id }

  ghost predicate UniqueConfs(confs: seq<ConfRow>) {
    forall i, j :: 0 <= i < j < |confs| ==> confs[i].id != confs[j].id
  }

  // ----- which matching directive row a lookup returns does not matter

  lemma {:induction false} JoinFresh(confs: seq<ConfRow>, c: ConfRow, maps: seq<MapRow>)
    requires forall m :: m in maps ==> m.confId != c.id
    ensures Join(confs + [c], maps) == Join(confs, maps)
  {
    if maps != [] {
      JoinFresh(confs, c, maps[1..]);
      FilterConcat(HasId(maps[0].confId), confs, [c]);
      assert Filter(HasId(maps[0].confId), [c]) == [];
    }
  }

  lemma {:induction false} JoinSnoc(confs: seq<ConfRow>, maps: seq<MapRow>, m: MapRow)
    ensures Join(confs, maps + [m]) == Join(confs, maps) + Map(Place(m.ctxId), Filter(HasId(m.confId), confs))
  {
    if maps == [] {
      assert maps + [m] == [m] && Join(confs, [m][1..]) == [];
    } else {
      assert (maps + [m])[1..] == maps[1..] + [m];
      JoinSnoc(confs, maps[1..], m);
    }
  }

  lemma {:induction false} OnlyOne(confs: seq<ConfRow>, c: ConfRow)
    requires UniqueConfs(confs) && c in confs
    ensures Filter(HasId(c.id), confs) == [c]
  {
    if confs[0] == c {
      assert forall x :: x in confs[1..] ==> !HasId(c.id)(x);
      FilterNone(HasId(c.id), confs[1..]);
    } else {
      assert c in confs[1..] && confs[0].id != c.id by {
        var i :| 0 <= i < |confs| && confs[i] == c;
        assert confs[1..][i - 1] == c;
      }
      assert forall i :: 0 <= i < |confs| - 1 ==> confs[1..][i] == confs[i + 1];
      OnlyOne(confs[1..], c);
    }
  }

  /**
   * After inserting a directive row, mapping a context to ANY row with that name and value, be it
   * shared with other contexts or repeated in this one, adds one join row with that directive.
   */
  lemma {:induction false} SharedRowHarmless(
      confs: seq<ConfRow>, maps: seq<MapRow>, newRow: ConfRow, hit: ConfRow, ctxId: int)
    requires UniqueConfs(confs + [newRow]) && hit in confs + [newRow] && DirOf(hit) == DirOf(newRow)
    requires forall m :: m in maps ==> m.confId in ConfIds(confs)
    ensures Join(confs + [newRow], maps + [MapRow(hit.id, ctxId)]) == Join(confs, maps) + [Placed(ctxId, hit)]
    ensures Map(LocatedOf(), Join(confs + [newRow], maps + [MapRow(hit.id, ctxId)])) ==
            Map(LocatedOf(), Join(confs, maps)) + [Located(ctxId, DirOf(newRow))]
  {
    var all := confs + [newRow];
    UnmappedRow(confs, maps, newRow);
    JoinSnoc(all, maps, MapRow(hit.id, ctxId));
    OnlyOne(all, hit);
    assert Map(Place(ctxId), [hit]) == [Placed(ctxId, hit)];
    MapConcat(LocatedOf(), Join(confs, maps), [Placed(ctxId, hit)]);
  }

  /** A directive row that is not mapped to a context is not seen by the readers. */
  lemma {:induction false} UnmappedRow(confs: seq<ConfRow>, maps: seq<MapRow>, newRow: ConfRow)
    requires UniqueConfs(confs + [newRow]) && forall m :: m in maps ==> m.confId in ConfIds(confs)
    ensures Join(confs + [newRow], maps) == Join(confs, maps)
  {
    var all := confs + [newRow];
    forall m | m in maps ensures m.confId != newRow.id {
      var c :| c in confs && c.id == m.confId;
      var i :| 0 <= i < |confs| && confs[i] == c;
      assert all[i] == c && all[|confs|] == newRow;
    }
    JoinFresh(confs, newRow, maps);
  }

  /** The join has a row for a directive and a context exactly when the map table pairs their ids. */
  lemma {:induction false} JoinIff(confs: seq<ConfRow>, maps: seq<MapRow>, c: ConfRow, ctxId: int)
    ensures Placed(ctxId, c) in Join(confs, maps) <==> c in confs && MapRow(c.id, ctxId) in maps
  {
    if maps != [] {
      var m, rest := maps[0], maps[1..];
      JoinIff(confs, rest, c, ctxId);
      var rows := Filter(HasId(m.confId), confs);
      assert maps == [m] + rest;
      assert Placed(ctxId, c) in Map(Place(m.ctxId), rows) <==> m == MapRow(c.id, ctxId) && c in confs by {
        if c in rows && m.ctxId == ctxId {
          var i :| 0 <= i < |rows| && rows[i] == c;
          assert Map(Place(m.ctxId), rows)[i] == Placed(ctxId, c);
        }
      }
    }
  }

  // ----- the database

  class Database {
    var ctxs: seq<CtxRow>
    var confs: seq<ConfRow>
    var maps: seq<MapRow>
    var nextCtx: int   // the next auto-increment ids
    var nextConf: int

    /** Keys are unique and below the counters, and every map row refers to existing rows. */
    ghost predicate Valid()
      reads this
    {
      && UniqueIds(ctxs) && (forall r :: r in ctxs ==> 1 <= r.id < nextCtx)
      && UniqueConfs(confs) && (forall c :: c in confs ==> 1 <= c.id < nextConf)
      && (forall m :: m in maps ==> m.confId in ConfIds(confs) && m.ctxId in CtxIds(ctxs))
      && nextCtx >= 1 && nextConf >= 1
    }

    function Contents(): View
      reads this
    {
      View(ctxs, Join(confs, maps))
    }

    /** The tables up to the choice of directive ids. */
    ghost function Stored(): Store
      reads this
    {
      StoreOf(Contents(), nextCtx)
    }

    constructor ()
      ensures Valid() && ctxs == [] && confs == [] && maps == []
    {
      ctxs, confs, maps, nextCtx, nextConf := [], [], [], 1, 1;
    }

    /** `DELETE FROM` all three tables; the id counters go on. */
    method DeleteAll()
      requires Valid()
      modifies this
      ensures Valid() && ctxs == [] && confs == [] && maps == []
      ensures nextCtx == old(nextCtx)
    {
      ctxs, confs, maps := [], [], [];
    }

    method InsertCtx(parent: Option<int>, typ: Option<string>, value: Option<string>)
      requires Valid()
      modifies this
      ensures Valid()
      ensures Stored() == WithRow(old(Stored()), CtxRow(old(nextCtx), parent, typ, value))
    {
      var r := CtxRow(nextCtx, parent, typ, value);
      assert CtxIds(ctxs + [r]) == CtxIds(ctxs) + {r.id};
      ctxs, nextCtx := ctxs + [r], nextCtx + 1;
    }

    /** `SELECT id FROM ctx WHERE type = ? AND value = ? AND parent_id = ?`, first row. */
    method FindCtx(typ: string, value: string, parent: int) returns (id: int)
      requires Filter(Matches(typ, value, parent), ctxs) != []
      ensures id == Filter(Matches(typ, value, parent), ctxs)[0].id
      ensures exists r :: r in ctxs && r.id == id
                && r.typ == Some(typ) && r.value == Some(value) && r.parent == Some(parent)
      ensures id in CtxIds(ctxs)
    {
      var rows := Filter(Matches(typ, value, parent), ctxs);
      assert rows[0] in ctxs;
      id := rows[0].id;
    }

    /** `SELECT id FROM ctx WHERE type = 'default' AND value IS NULL`, first row. */
    method FindRoot() returns (id: int)
      requires |ctxs| == 1 && ctxs[0].typ == Some("default") && ctxs[0].value == None
      ensures id == ctxs[0].id
    {
      var rows := Filter((r: CtxRow) => r.typ == Some("default") && r.value == None, ctxs);
      assert ctxs[0] in rows;
      id := rows[0].id;
    }

    /** `INSERT INTO conf (name, value)`; the tables are joined to nothing new yet. */
    method InsertConf(d: Directive)
      requires Valid()
      modifies this`confs, this`nextConf
      ensures Valid()
      ensures confs == old(confs) + [ConfRow(old(nextConf), d.name, d.value)]
    {
      var c := ConfRow(nextConf, d.name, d.value);
      assert ConfIds(confs + [c]) == ConfIds(confs) + {c.id};
      confs, nextConf := confs + [c], nextConf + 1;
    }

    /** `SELECT id FROM conf WHERE name = ? AND value = ?`: some matching row, none in particular. */
    method FindConf(d: Directive) returns (id: int)
      requires exists c :: c in confs && DirOf(c) == d
      ensures exists c :: c in confs && DirOf(c) == d && id == c.id
    {
      var c :| c in confs && DirOf(c) == d;
      id := c.id;
    }

    method InsertMap(confId: int, ctxId: int)
      requires Valid() && confId in ConfIds(confs) && ctxId in CtxIds(ctxs)
      modifies this`maps
      ensures Valid() && maps == old(maps) + [MapRow(confId, ctxId)]
    {
      maps := maps + [MapRow(confId, ctxId)];
    }
  }
}

/** The three tables, their inner join, and the row selections the programs ask for. */
module Tables {
  import opened Prelude
  import opened Document

  /** A row of the context table. The type and the value may be NULL, a root has a NULL parent. */
  datatype CtxRow = CtxRow(id: int, parent: Option<int>, typ: Option<string>, value: Option<string>)

  /** A row of the directive table. */
  datatype ConfRow = ConfRow(id: int, name: string, value: string)

  /** A row of the map table: directive `confId` belongs to context `ctxId`. */
  datatype MapRow = MapRow(confId: int, ctxId: int)

  /** A row of the join of directives and map. */
  datatype Placed = Placed(ctxId: int, conf: ConfRow)

  /** What the readers can see of a database: its contexts and the joined directives. */
  datatype View = View(ctxs: seq<CtxRow>, placed: seq<Placed>)

  function HasId(id: int): ConfRow -> bool { (c: ConfRow) => c.id == id }

  function InContext(id: int): Placed -> bool { (p: Placed) => p.ctxId == id }

  function RowIs(id: int): CtxRow -> bool { (r: CtxRow) => r.id == id }

  function ChildOf(id: int): CtxRow -> bool { (r: CtxRow) => r.parent == Some(id) }

  function IsRoot(): CtxRow -> bool { (r: CtxRow) => r.parent.None? }

  function ConfOf(): Placed -> ConfRow { (p: Placed) => p.conf }

  function DirOf(c: ConfRow): Directive { Directive(c.name, c.value) }

  function Place(ctxId: int): ConfRow -> Placed { (c: ConfRow) => Placed(ctxId, c) }

  /** `confs INNER JOIN maps ON confs.id = maps.conf_id`, in map row order. */
  function Join(confs: seq<ConfRow>, maps: seq<MapRow>): seq<Placed> {
    if maps == [] then []
    else Map(Place(maps[0].ctxId), Filter(HasId(maps[0].confId), confs)) + Join(confs, maps[1..])
  }

  /** `SELECT type, value FROM ctx WHERE id = ?`. */
  function KeyRows(v: View, id: int): seq<CtxRow> { Filter(RowIs(id), v.ctxs) }

  /** `SELECT id FROM ctx WHERE parent_id = ?`. */
  function KidRows(v: View, id: int): seq<CtxRow> { Filter(ChildOf(id), v.ctxs) }

  /** `SELECT name, value FROM conf INNER JOIN map ... WHERE map.ctx_id = ?`. */
  function JoinRows(v: View, id: int): seq<ConfRow> { Map(ConfOf(), Filter(InContext(id), v.placed)) }

  ghost predicate UniqueIds(ctxs: seq<CtxRow>) {
    forall i, j :: 0 <= i < j < |ctxs| ==> ctxs[i].id != ctxs[j].id
  }

  lemma {:induction false} SameRow(v: View, a: CtxRow, b: CtxRow)
    requires UniqueIds(v.ctxs) && a in v.ctxs && b in v.ctxs && a.id == b.id
    ensures a == b
  {
  }

  /** A NULL value reads as the empty string. */
  function ValueOf(r: CtxRow): string {
    match r.value case None => "" case Some(s) => s
  }
}

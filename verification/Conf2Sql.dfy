/** conf2sql.pl: from a configuration file to the tables. */
module Conf2Sql {
  import opened Prelude
  import opened Document
  import opened Tables
  import opened Store
  import opened Attempt
  import opened Sql
  import opened ConfLines
  import opened ConfParser

  /** The script's record of a context; its lists grow as lines are read. */
  class Context {
    var typ: string
    var value: string
    var directives: seq<Directive>
    var contexts: seq<Context>

    constructor (typ: string, value: string)
      ensures this.typ == typ && this.value == value && directives == [] && contexts == []
    {
      this.typ, this.value, directives, contexts := typ, value, [], [];
    }
  }

  /** `objs` are finished contexts with the trees `ts`. */
  ghost predicate Shaped(objs: seq<Context>, ts: seq<Tree>, shape: map<Context, Tree>) {
    |objs| == |ts| && forall j :: 0 <= j < |objs| ==> objs[j] in shape && shape[objs[j]] == ts[j]
  }

  ghost predicate Finished(o: Context, t: Tree, shape: map<Context, Tree>)
    reads o
  {
    o.typ == t.typ && o.value == t.value && o.directives == t.dirs && Shaped(o.contexts, t.kids, shape)
  }

  /** Every context in `shape` is the root of exactly that tree. */
  ghost predicate Frozen(shape: map<Context, Tree>)
    reads shape.Keys
  {
    forall o :: o in shape ==> Finished(o, shape[o], shape)
  }

  /** The reading half of the script: the current context and the stack around it. */
  class Reader {
    var ctx: Context
    var ctxs: seq<Context>
    ghost var stack: Stack
    ghost var shape: map<Context, Tree>

    ghost function Frames(): seq<Frame>
      reads this
    {
      [stack.ctx] + stack.outer
    }

    /** Context `k` of the stack holds what its frame says, and then the context inside it. */
    ghost predicate Holds(k: nat)
      requires k < |ctxs| == |stack.outer| + 1
      reads this, ctxs
    {
      var o, f, n := ctxs[k], Frames()[k], |ctxs[k].contexts|;
      && o.typ == f.typ && o.value == f.value && o.directives == f.dirs
      && if k == 0 then Shaped(o.contexts, f.kids, shape)
         else n > 0 && o.contexts[n - 1] == ctxs[k - 1] && Shaped(o.contexts[..n - 1], f.kids, shape)
    }

    ghost predicate Valid()
      reads this, ctxs, shape.Keys
    {
      && |ctxs| == |stack.outer| + 1 && ctx == ctxs[0]
      && (forall i, j :: 0 <= i < j < |ctxs| ==> ctxs[i] != ctxs[j])
      && (forall o :: o in ctxs ==> o !in shape)
      && Frozen(shape)
      && forall k :: 0 <= k < |ctxs| ==> Holds(k)
    }

    constructor ()
      ensures Valid() && stack == START && fresh(ctx) && ctxs == [ctx] && shape == map[]
    {
      var root := new Context("default", "");
      ctx, ctxs, stack, shape := root, [root], START, map[];
    }

    method AddDirective(d: Directive)
      requires Valid()
      modifies this, ctx
      ensures Valid() && ctx == old(ctx) && ctxs == old(ctxs) && shape == old(shape)
      ensures Some(stack) == Step(old(stack), Dir(d))
    {
      ctx.directives := ctx.directives + [d];
      stack := Step(stack, Dir(d)).value;
      forall k | 0 <= k < |ctxs| ensures Holds(k) {
        assert old(Holds(k));
        assert k > 0 ==> ctxs[k] != ctx && Frames()[k] == old(Frames()[k]);
        assert stack.ctx.kids == old(stack.ctx.kids);
      }
    }

    method OpenContext(typ: string, value: string)
      requires Valid()
      modifies this, ctx
      ensures Valid() && fresh(ctx) && ctxs == [ctx] + old(ctxs) && shape == old(shape)
      ensures Some(stack) == Step(old(stack), Open(typ, value))
    {
      var sub := new Context(typ, value);
      ghost var before := ctxs;
      ctx.contexts := ctx.contexts + [sub];
      ctxs := [sub] + ctxs;
      ctx := sub;
      stack := Step(stack, Open(typ, value)).value;
      assert Holds(0);
      forall k | 1 <= k < |ctxs| ensures Holds(k) {
        assert old(Holds(k - 1));
        assert ctxs[k] == before[k - 1] && Frames()[k] == old(Frames()[k - 1]);
        if k == 1 {
          assert ctxs[1].contexts[..|ctxs[1].contexts| - 1] == old(ctx.contexts);
        } else {
          assert ctxs[k] != before[0];
        }
      }
    }

    /** A close tag; false is the script dying, with nothing changed. */
    method CloseContext(typ: string) returns (ok: bool)
      requires Valid()
      modifies this
      ensures Valid() && ok == Step(old(stack), Close(typ)).Some?
      ensures ok ==> Some(stack) == Step(old(stack), Close(typ))
      ensures !ok ==> stack == old(stack)
      ensures ctxs == if ok && |old(ctxs)| > 1 then old(ctxs[1..]) else old(ctxs)
      ensures shape.Keys <= old(shape.Keys) + {old(ctx)}
    {
      if typ != ctx.typ {
        assert Holds(0);
        return false;
      }
      assert Holds(0);
      if |ctxs| > 1 {
        assert Holds(1);
        ghost var inner := ctx;
        shape := shape[ctx := Seal(stack.ctx)];
        ctxs := ctxs[1..];
        stack := Step(stack, Close(typ)).value;
        ctx := ctxs[0];
        assert Finished(inner, shape[inner], shape);
        forall o | o in shape ensures Finished(o, shape[o], shape) {
          assert o != inner ==> old(Finished(o, shape[o], shape));
        }
        forall k | 0 <= k < |ctxs| ensures Holds(k) {
          assert old(Holds(k + 1));
          assert ctxs[k] == old(ctxs[k + 1]);
        }
      }
      return true;
    }

    /** One logical line: an opening tag, a closing tag, or else a directive. */
    method TakeLine(line: string) returns (ok: bool)
      requires Valid()
      modifies this, ctx
      ensures Valid() && ok == Step(old(stack), Classify(line)).Some?
      ensures ok ==> Some(stack) == Step(old(stack), Classify(line))
      ensures forall o :: o in ctxs ==> o in old(ctxs) || fresh(o)
    {
      ok := true;
      if |line| >= 2 && line[0] == '<' && line[1] != '/' {
        var tag := OpenOf(line);
        OpenContext(tag.typ, tag.value);
      } else if |line| >= 2 && line[0] == '<' {
        var tag := CloseOf(line);
        ok := CloseContext(tag.typ);
      } else {
        AddDirective(NameValueOf(line).dir);
      }
    }

    /** The main loop: true when the input ended, false when the script died. */
    method ReadFile(f: File) returns (ok: bool)
      requires Valid() && stack == START && |ctxs| == 1
      modifies this, ctx
      ensures Valid()
      ensures ok == Run(START, Tokens(f)).Some?
      ensures ok ==> Some(stack) == Run(START, Tokens(f))
    {
      var rest := f;
      while rest.lines != []
        invariant Valid()
        invariant forall o :: o in ctxs ==> o == old(ctx) || fresh(o)
        invariant Run(START, Tokens(f)) == Run(stack, Tokens(rest))
        decreases |rest.lines|
      {
        ghost var start := rest;
        var line := rest.lines[0];
        rest := Advance(rest);
        if IsComment(line) || IsBlank(line) {
          continue;
        }
        line := Trim(line);
        line, rest := JoinContinuations(line, rest);
        NextToken(start, line, rest);
        RunStep(stack, Classify(line), Tokens(rest));
        assert ctxs[0] in ctxs;
        ok := TakeLine(line);
        if !ok {
          return false;
        }
      }
      return true;
    }
  }

  /** Concatenate the following lines for as long as the line ends in a continuation mark. */
  method JoinContinuations(first: string, f: File) returns (line: string, rest: File)
    ensures (line, rest) == Joined(first, f)
  {
    line, rest := first, f;
    while Continues(line)
      invariant Joined(line, rest) == Joined(first, f)
      decreases |rest.lines|, |rest.tail|, |line|
    {
      line := line[..|line| - 1] + Trim(NextLine(rest));
      rest := Advance(rest);
    }
  }

  lemma {:induction false} NextToken(f: File, line: string, rest: File)
    requires f.lines != [] && !IsComment(f.lines[0]) && !IsBlank(f.lines[0])
    requires Joined(Trim(f.lines[0]), Advance(f)) == (line, rest)
    ensures Tokens(f) == [Classify(line)] + Tokens(rest)
  {
  }

  // ----- the writing half

  /**
   * One directive: insert it, look its id up by content, and map it to the context. The map table
   * takes no NULL, so without a context id the script dies there.
   */
  method PlaceDirective(db: Database, d: Directive, ctxId: Option<int>) returns (alive: bool)
    requires db.Valid() && (ctxId.Some? ==> ctxId.value in CtxIds(db.ctxs))
    modifies db
    ensures db.Valid() && db.ctxs == old(db.ctxs) && alive == ctxId.Some?
    ensures db.Stored() == if alive then WithDirs(old(db.Stored()), ctxId.value, [d]) else old(db.Stored())
  {
    ghost var confs, maps := db.confs, db.maps;
    db.InsertConf(d);
    ghost var newRow := db.confs[|confs|];
    assert newRow in db.confs && DirOf(newRow) == d;
    var confId := db.FindConf(d);
    ghost var hit :| hit in db.confs && DirOf(hit) == d && confId == hit.id;
    if ctxId.None? {
      UnmappedRow(confs, maps, newRow);
      return false;
    }
    db.InsertMap(confId, ctxId.value);
    SharedRowHarmless(confs, maps, newRow, hit, ctxId.value);
    assert Map(Locate(ctxId.value), [d]) == [Located(ctxId.value, d)];
    return true;
  }

  lemma {:induction false} WithDirsSnoc(s: Store, id: int, ds: seq<Directive>, i: nat)
    requires i < |ds|
    ensures WithDirs(WithDirs(s, id, ds[..i]), id, [ds[i]]) == WithDirs(s, id, ds[..i + 1])
  {
  }

  lemma {:induction false} WithNoDirs(s: Store, id: int)
    ensures WithDirs(s, id, []) == s
  {
  }

  /** One sub-context: insert its row, look the id up by content, and process it under that id. */
  method AddSubContext(db: Database, sub: Context, ctxId: Option<int>, ghost shape: map<Context, Tree>)
      returns (alive: bool)
    requires db.Valid() && Frozen(shape) && sub in shape
    modifies db
    ensures db.Valid() && CtxIds(old(db.ctxs)) <= CtxIds(db.ctxs)
    ensures (db.Stored(), alive) == ProcessOne(old(db.Stored()), shape[sub], ctxId)
    decreases shape[sub], 1
  {
    ghost var t, before := shape[sub], db.Stored();
    assert Finished(sub, t, shape);
    var typ, value := Some(sub.typ), Some(sub.value);
    if sub.typ == "" {
      typ, value := None, None;
    }
    db.InsertCtx(ctxId, typ, value);
    assert db.Stored() == WithRow(before, RowUnder(before, ctxId, t));
    assert CtxIds(old(db.ctxs)) <= CtxIds(db.ctxs);
    var subId := None;
    if typ.Some? && ctxId.Some? {
      JustInserted(before, ctxId.value, t);
      var id := db.FindCtx(sub.typ, sub.value, ctxId.value);
      subId := Some(id);
    }
    alive := ProcessCtx(db, sub, subId, shape);
  }

  /**
   * process_ctx: the tables afterwards, and whether the script is still alive, are what Process
   * says, whichever directive rows were hit.
   */
  method ProcessCtx(db: Database, ctx: Context, ctxId: Option<int>, ghost shape: map<Context, Tree>)
      returns (alive: bool)
    requires db.Valid() && (ctxId.Some? ==> ctxId.value in CtxIds(db.ctxs))
    requires Frozen(shape) && ctx in shape
    modifies db
    ensures db.Valid() && CtxIds(old(db.ctxs)) <= CtxIds(db.ctxs)
    ensures (db.Stored(), alive) == Process(old(db.Stored()), shape[ctx], ctxId)
    decreases shape[ctx], 0
  {
    ghost var t, s := shape[ctx], db.Stored();
    assert Finished(ctx, t, shape);
    for i := 0 to |ctx.directives|
      invariant db.Valid() && db.ctxs == old(db.ctxs)
      invariant i > 0 ==> ctxId.Some?
      invariant db.Stored() == if i > 0 then WithDirs(s, ctxId.value, t.dirs[..i]) else s
    {
      alive := PlaceDirective(db, ctx.directives[i], ctxId);
      if !alive {
        return false;
      }
      WithNoDirs(s, ctxId.value);
      WithDirsSnoc(s, ctxId.value, t.dirs, i);
    }
    assert t.dirs[..|t.dirs|] == t.dirs;
    ghost var s0 := db.Stored();
    if ctxId.Some? {
      WithNoDirs(s, ctxId.value);
    }
    assert Process(s, t, ctxId) == ProcessAll(s0, t.kids, ctxId);
    for i := 0 to |ctx.contexts|
      invariant db.Valid() && CtxIds(old(db.ctxs)) <= CtxIds(db.ctxs)
      invariant ProcessAll(db.Stored(), t.kids[i..], ctxId) == ProcessAll(s0, t.kids, ctxId)
    {
      assert shape[ctx.contexts[i]] == t.kids[i] && t.kids[i] in t.kids;
      assert t.kids[i..][1..] == t.kids[i + 1..];
      alive := AddSubContext(db, ctx.contexts[i], ctxId, shape);
      if !alive {
        return false;
      }
    }
    return true;
  }

  /** Tables holding just the default context. */
  function RootRow(id: int): CtxRow { CtxRow(id, None, Some("default"), None) }

  function RootStore(id: int): Store { Store([RootRow(id)], [], id + 1) }

  /** Empty the tables and insert the default context. */
  method ResetTables(db: Database) returns (rootId: int)
    requires db.Valid()
    modifies db
    ensures db.Valid() && db.Stored() == RootStore(old(db.nextCtx))
    ensures db.ctxs == [CtxRow(old(db.nextCtx), None, Some("default"), None)] && db.Contents().placed == []
    ensures rootId == old(db.nextCtx) && rootId in CtxIds(db.ctxs)
  {
    db.DeleteAll();
    db.InsertCtx(None, Some("default"), None);
    assert db.ctxs == [RootRow(old(db.nextCtx))];
    rootId := db.FindRoot();
    assert db.ctxs[0] in db.ctxs;
  }

  /**
   * The whole script. When it dies on the input the tables are untouched; otherwise the context
   * that was current when the input ended is processed into a fresh default context.
   */
  method Import(f: File, db: Database) returns (ok: bool)
    requires db.Valid()
    modifies db
    ensures db.Valid()
    ensures Run(START, Tokens(f)).None? ==> !ok && db.Contents() == old(db.Contents())
    ensures Run(START, Tokens(f)).Some? ==>
              (db.Stored(), ok) ==
              Process(RootStore(old(db.nextCtx)), Seal(Run(START, Tokens(f)).value.ctx), Some(old(db.nextCtx)))
  {
    var reader := new Reader();
    ok := reader.ReadFile(f);
    if !ok {
      return false;
    }
    ghost var shape := reader.shape[reader.ctx := Seal(reader.stack.ctx)];
    SealedFrozen(reader);
    var rootId := ResetTables(db);
    ok := ProcessCtx(db, reader.ctx, Some(rootId), shape);
  }

  lemma {:induction false} SealedFrozen(reader: Reader)
    requires reader.Valid()
    ensures Frozen(reader.shape[reader.ctx := Seal(reader.stack.ctx)])
  {
    var shape := reader.shape[reader.ctx := Seal(reader.stack.ctx)];
    assert reader.Holds(0);
    forall o | o in shape ensures Finished(o, shape[o], shape) {
      assert o != reader.ctx ==> Finished(o, reader.shape[o], reader.shape);
    }
  }
}

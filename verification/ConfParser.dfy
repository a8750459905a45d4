/** The context stack of conf2sql.pl as a machine on lines, and the grammar it recognises. */
module ConfParser {
  import opened Prelude
  import opened Document

  /** An open context: what has been read of it so far. */
  datatype Frame = Frame(typ: string, value: string, dirs: seq<Directive>, kids: seq<Tree>)

  /** The current context and the contexts around it, innermost first. */
  datatype Stack = Stack(ctx: Frame, outer: seq<Frame>)

  const ROOT := Frame("default", "", [], [])
  const START := Stack(ROOT, [])

  function Seal(f: Frame): Tree { Tree(f.typ, f.value, f.dirs, f.kids) }

  function Grow(f: Frame, dirs: seq<Directive>, kids: seq<Tree>): Frame {
    Frame(f.typ, f.value, f.dirs + dirs, f.kids + kids)
  }

  /** One line; None is the script dying on an improperly nested context. */
  function Step(s: Stack, t: Token): Option<Stack> {
    match t
    case Dir(d) => Some(Stack(Grow(s.ctx, [d], []), s.outer))
    case Open(typ, value) => Some(Stack(Frame(typ, value, [], []), [s.ctx] + s.outer))
    case Close(typ) =>
      if typ != s.ctx.typ then None
      else if s.outer != [] then Some(Stack(Grow(s.outer[0], [], [Seal(s.ctx)]), s.outer[1..]))
      else Some(s)
  }

  function Run(s: Stack, ts: seq<Token>): Option<Stack>
    decreases |ts|
  {
    if ts == [] then Some(s)
    else match Step(s, ts[0])
      case None => None
      case Some(s1) => Run(s1, ts[1..])
  }

  lemma {:induction false} RunStep(s: Stack, t: Token, ts: seq<Token>)
    ensures Run(s, [t] + ts) == if Step(s, t).None? then None else Run(Step(s, t).value, ts)
  {
  }

  // ----- when it dies, and where it ends

  /** The types of the contexts that are open, innermost first, without the root's. */
  function Types(s: Stack): seq<string>
    decreases |s.outer|
  {
    if s.outer == [] then [] else [s.ctx.typ] + Types(Stack(s.outer[0], s.outer[1..]))
  }

  /** The type of the outermost context. */
  function RootType(s: Stack): string {
    if s.outer == [] then s.ctx.typ else s.outer[|s.outer| - 1].typ
  }

  /**
   * The open contexts (innermost first) after reading `ts`; None once a close does not match. A
   * close of the root with nothing else open is skipped.
   */
  function OpenTypes(root: string, stack: seq<string>, ts: seq<Token>): Option<seq<string>>
    decreases |ts|
  {
    if ts == [] then Some(stack)
    else match ts[0]
      case Open(typ, _) => OpenTypes(root, [typ] + stack, ts[1..])
      case Dir(_) => OpenTypes(root, stack, ts[1..])
      case Close(typ) =>
        if stack != [] && stack[0] == typ then OpenTypes(root, stack[1..], ts[1..])
        else if stack == [] && typ == root then OpenTypes(root, stack, ts[1..])
        else None
  }

  /**
   * Over any document the stack holds exactly the contexts that are open, and the script dies
   * exactly when a close does not match the innermost open context.
   */
  lemma {:induction false} StackIsOpenContexts(s: Stack, ts: seq<Token>)
    ensures Run(s, ts).None? <==> OpenTypes(RootType(s), Types(s), ts).None?
    ensures Run(s, ts).Some? ==> OpenTypes(RootType(s), Types(s), ts) == Some(Types(Run(s, ts).value))
    decreases |ts|
  {
    if ts != [] && Step(s, ts[0]).Some? {
      StepTypes(s, ts[0]);
      StackIsOpenContexts(Step(s, ts[0]).value, ts[1..]);
    }
  }

  lemma {:induction false} StepTypes(s: Stack, t: Token)
    requires Step(s, t).Some?
    ensures var s1 := Step(s, t).value;
            && RootType(s1) == RootType(s)
            && Types(s1) == match t
                            case Dir(_) => Types(s)
                            case Open(typ, _) => [typ] + Types(s)
                            case Close(_) => if s.outer == [] then [] else Types(s)[1..]
    ensures t.Close? ==> t.typ == if s.outer == [] then RootType(s) else Types(s)[0]
  {
  }

  lemma {:induction false} ReplayOpens(root: string, stack: seq<string>, ts: seq<Token>)
    ensures Replay(stack, ts).Some? ==> OpenTypes(root, stack, ts) == Replay(stack, ts)
    ensures Close(root) !in ts ==> OpenTypes(root, stack, ts) == Replay(stack, ts)
    decreases |ts|
  {
    if ts != [] {
      match ts[0]
      case Open(typ, _) => ReplayOpens(root, [typ] + stack, ts[1..]);
      case Dir(_) => ReplayOpens(root, stack, ts[1..]);
      case Close(typ) =>
        if stack != [] && stack[0] == typ {
          ReplayOpens(root, stack[1..], ts[1..]);
        }
    }
  }

  /**
   * A well nested document is read to its end and back to the root; without a closing tag of the
   * default context, only a well nested one is.
   */
  lemma {:induction false} WellNestedParses(ts: seq<Token>)
    ensures WellNested(ts) ==> Run(START, ts).Some? && Run(START, ts).value.outer == []
    ensures Close("default") !in ts ==>
              (WellNested(ts) <==> Run(START, ts).Some? && Run(START, ts).value.outer == [])
  {
    StackIsOpenContexts(START, ts);
    ReplayOpens("default", [], ts);
  }

  // ----- the grammar, by recursive descent

  datatype Body = Body(dirs: seq<Directive>, kids: seq<Tree>)

  function Add(f: Frame, b: Body): Frame { Grow(f, b.dirs, b.kids) }

  /**
   * The longest well-nested block: directives and complete contexts, up to a close that belongs
   * to an outer context, an unfinished context, or the end. The document level skips its own close.
   */
  function Block(ts: seq<Token>, top: bool): (r: (Body, seq<Token>))
    ensures |r.1| <= |ts|
    decreases |ts|
  {
    if ts == [] then (Body([], []), [])
    else match ts[0]
      case Dir(d) =>
        var r := Block(ts[1..], top);
        (Body([d] + r.0.dirs, r.0.kids), r.1)
      case Open(typ, value) =>
        var inner := Block(ts[1..], false);
        if inner.1 != [] && inner.1[0] == Close(typ) then
          var r := Block(inner.1[1..], top);
          (Body(r.0.dirs, [Tree(typ, value, inner.0.dirs, inner.0.kids)] + r.0.kids), r.1)
        else (Body([], []), ts)
      case Close(typ) =>
        if top && typ == "default" then Block(ts[1..], top) else (Body([], []), ts)
  }

  lemma {:induction false} AddParts(f: Frame, d: Directive, kid: Tree, b: Body)
    ensures Add(f, Body([], [])) == f
    ensures Add(Grow(f, [d], []), b) == Add(f, Body([d] + b.dirs, b.kids))
    ensures Add(Grow(f, [], [kid]), b) == Add(f, Body(b.dirs, [kid] + b.kids))
  {
  }

  /** The machine reads a block into the current context, in source order. */
  lemma {:induction false} RunReadsBlock(s: Stack, ts: seq<Token>)
    requires s.outer == [] ==> s.ctx.typ == "default"
    ensures var r := Block(ts, s.outer == []); Run(s, ts) == Run(Stack(Add(s.ctx, r.0), s.outer), r.1)
    decreases |ts|
  {
    var top, f := s.outer == [], s.ctx;
    if ts == [] {
      AddParts(f, Directive("", ""), Seal(f), Body([], []));
    } else if ts[0].Dir? {
      AddParts(f, ts[0].dir, Seal(f), Block(ts[1..], top).0);
      RunReadsBlock(Stack(Grow(f, [ts[0].dir], []), s.outer), ts[1..]);
    } else if ts[0].Open? {
      var inner := Block(ts[1..], false);
      var g := Frame(ts[0].typ, ts[0].value, [], []);
      var s1 := Stack(g, [f] + s.outer);
      if inner.1 != [] && inner.1[0] == Close(ts[0].typ) {
        RunReadsBlock(s1, ts[1..]);
        RunCloses(s, ts[0], inner.0, inner.1);
        var kid := Tree(ts[0].typ, ts[0].value, inner.0.dirs, inner.0.kids);
        AddParts(f, Directive("", ""), kid, Block(inner.1[1..], top).0);
        RunReadsBlock(Stack(Grow(f, [], [kid]), s.outer), inner.1[1..]);
      } else {
        AddParts(f, Directive("", ""), Seal(f), Body([], []));
      }
    } else {
      AddParts(f, Directive("", ""), Seal(f), Body([], []));
      if top && ts[0].typ == "default" {
        RunReadsBlock(s, ts[1..]);
      }
    }
  }

  lemma {:induction false} RunCloses(s: Stack, open: Token, b: Body, after: seq<Token>)
    requires open.Open? && after != [] && after[0] == Close(open.typ)
    ensures Run(Stack(Add(Frame(open.typ, open.value, [], []), b), [s.ctx] + s.outer), after) ==
            Run(Stack(Grow(s.ctx, [], [Tree(open.typ, open.value, b.dirs, b.kids)]), s.outer), after[1..])
  {
    var g := Add(Frame(open.typ, open.value, [], []), b);
    assert Seal(g) == Tree(open.typ, open.value, b.dirs, b.kids);
    assert ([s.ctx] + s.outer)[1..] == s.outer;
  }

  /** Where a block stops: at the end, at an outer close, or at a context that is never finished. */
  lemma {:induction false} BlockStops(ts: seq<Token>, top: bool)
    ensures var rest := Block(ts, top).1;
            rest != [] ==> !rest[0].Dir? && (top ==> rest[0] != Close("default")) && (rest[0].Open? ==> Unfinished(rest))
    decreases |ts|
  {
    if ts != [] {
      if ts[0].Open? {
        var after := Block(ts[1..], false).1;
        if after != [] && after[0] == Close(ts[0].typ) {
          BlockStops(after[1..], top);
        }
      } else {
        BlockStops(ts[1..], top);
      }
    }
  }

  predicate Unfinished(ts: seq<Token>)
    requires ts != [] && ts[0].Open?
  {
    var after := Block(ts[1..], false).1;
    after == [] || after[0] != Close(ts[0].typ)
  }

  /** Running into an unfinished context dies or ends above where it started. */
  lemma {:induction false} UnfinishedStaysOpen(s: Stack, ts: seq<Token>)
    requires ts != [] && ts[0].Open? && Unfinished(ts)
    ensures Run(s, ts).None? || |Run(s, ts).value.outer| > |s.outer|
    decreases |ts|
  {
    var f := Frame(ts[0].typ, ts[0].value, [], []);
    var inner := Block(ts[1..], false);
    RunReadsBlock(Stack(f, [s.ctx] + s.outer), ts[1..]);
    BlockStops(ts[1..], false);
    if inner.1 != [] && inner.1[0].Open? {
      UnfinishedStaysOpen(Stack(Add(f, inner.0), [s.ctx] + s.outer), inner.1);
    }
  }

  /** The script ends in the root context exactly on complete documents, with the grammar's tree. */
  lemma {:induction false} ParsesIff(ts: seq<Token>)
    ensures Block(ts, true).1 == [] ==> Run(START, ts) == Some(Stack(Add(ROOT, Block(ts, true).0), []))
    ensures Block(ts, true).1 != [] ==> Run(START, ts).None? || Run(START, ts).value.outer != []
  {
    var r := Block(ts, true);
    RunReadsBlock(START, ts);
    BlockStops(ts, true);
    if r.1 != [] && r.1[0].Open? {
      UnfinishedStaysOpen(Stack(Add(ROOT, r.0), []), r.1);
    }
  }

  // ----- printed trees

  lemma {:induction false} RunDirs(s: Stack, ds: seq<Directive>, ts: seq<Token>)
    ensures Run(s, DirTokens(ds) + ts) == Run(Stack(Grow(s.ctx, ds, []), s.outer), ts)
    decreases |ds|
  {
    AddParts(s.ctx, Directive("", ""), Seal(s.ctx), Body([], []));
    if ds == [] {
      assert DirTokens(ds) + ts == ts;
    } else {
      assert DirTokens(ds) + ts == [Dir(ds[0])] + (DirTokens(ds[1..]) + ts);
      RunStep(s, Dir(ds[0]), DirTokens(ds[1..]) + ts);
      RunDirs(Stack(Grow(s.ctx, [ds[0]], []), s.outer), ds[1..], ts);
      AddParts(s.ctx, ds[0], Seal(s.ctx), Body(ds[1..], []));
      assert [ds[0]] + ds[1..] == ds;
    }
  }

  lemma {:induction false} RunPrinted(s: Stack, t: Tree, ts: seq<Token>)
    ensures Run(s, Print(t) + ts) == Run(Stack(Grow(s.ctx, [], [t]), s.outer), ts)
    decreases t, 2
  {
    var open, closing := Open(t.typ, t.value), [Close(t.typ)] + ts;
    assert Print(t) + ts == [open] + (PrintBody(t) + closing);
    RunStep(s, open, PrintBody(t) + closing);
    RunPrintedBody(Stack(Frame(t.typ, t.value, [], []), [s.ctx] + s.outer), t, closing);
    assert closing[1..] == ts;
    RunCloses(s, open, Body(t.dirs, t.kids), closing);
  }

  lemma {:induction false} RunPrintedBody(s: Stack, t: Tree, ts: seq<Token>)
    ensures Run(s, PrintBody(t) + ts) == Run(Stack(Grow(s.ctx, t.dirs, t.kids), s.outer), ts)
    decreases t, 1
  {
    var rest := PrintAll(t.kids) + ts;
    assert PrintBody(t) + ts == DirTokens(t.dirs) + rest;
    RunDirs(s, t.dirs, rest);
    RunPrintedAll(Stack(Grow(s.ctx, t.dirs, []), s.outer), t.kids, ts);
    assert Grow(Grow(s.ctx, t.dirs, []), [], t.kids) == Grow(s.ctx, t.dirs, t.kids);
  }

  lemma {:induction false} RunPrintedAll(s: Stack, kids: seq<Tree>, ts: seq<Token>)
    ensures Run(s, PrintAll(kids) + ts) == Run(Stack(Grow(s.ctx, [], kids), s.outer), ts)
    decreases kids, 0
  {
    AddParts(s.ctx, Directive("", ""), Seal(s.ctx), Body([], []));
    if kids == [] {
      assert PrintAll(kids) + ts == ts;
    } else {
      var rest := PrintAll(kids[1..]) + ts;
      assert PrintAll(kids) + ts == Print(kids[0]) + rest;
      RunPrinted(s, kids[0], rest);
      RunPrintedAll(Stack(Grow(s.ctx, [], [kids[0]]), s.outer), kids[1..], ts);
      AddParts(s.ctx, Directive("", ""), kids[0], Body([], kids[1..]));
      assert [kids[0]] + kids[1..] == kids;
    }
  }

  /** Parsing the printed body of a tree gives its directives and sub-contexts. */
  lemma {:induction false} PrintedParses(t: Tree)
    ensures Run(START, PrintBody(t)) == Some(Stack(Frame("default", "", t.dirs, t.kids), []))
  {
    RunPrintedBody(START, t, []);
    assert PrintBody(t) + [] == PrintBody(t);
    assert [] + t.dirs == t.dirs && [] + t.kids == t.kids;
  }
}

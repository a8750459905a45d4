/** A configuration document: the tree, the stream of lines it is written as, and nesting. */
module Document {
  import opened Prelude

  datatype Directive = Directive(name: string, value: string)

  /** A context with its directives and its sub-contexts; an absent value is the empty string. */
  datatype Tree = Tree(typ: string, value: string, dirs: seq<Directive>, kids: seq<Tree>)

  /** One line of configuration text, before it is spelled out. */
  datatype Token = Open(typ: string, value: string) | Dir(dir: Directive) | Close(typ: string)

  /** The text of a line, as the C module pushes it. */
  function Render(t: Token): string {
    match t
    case Open(typ, value) => "<" + typ + (if |value| > 0 then " " + value else "") + ">\n"
    case Dir(d) => d.name + " " + d.value + "\n"
    case Close(typ) => "</" + typ + ">\n"
  }

  function RenderAll(ts: seq<Token>): seq<string> {
    Map(Render, ts)
  }

  /** Pushing the lines of `us` after those of `ts`. */
  lemma {:induction false} PushLines(before: seq<string>, ts: seq<Token>, us: seq<Token>)
    ensures before + RenderAll(ts) + RenderAll(us) == before + RenderAll(ts + us)
  {
  }

  function DirTokens(ds: seq<Directive>): (ts: seq<Token>)
    ensures |ts| == |ds|
  {
    Map(d => Dir(d), ds)
  }

  // ----- the recursive printer: directives first, then the sub-contexts

  function Print(t: Tree): seq<Token>
    decreases t, 1
  {
    [Open(t.typ, t.value)] + PrintBody(t) + [Close(t.typ)]
  }

  function PrintBody(t: Tree): seq<Token>
    decreases t, 0
  {
    DirTokens(t.dirs) + PrintAll(t.kids)
  }

  function PrintAll(ts: seq<Tree>): seq<Token>
    decreases ts, 0
  {
    if ts == [] then [] else Print(ts[0]) + PrintAll(ts[1..])
  }

  // ----- nesting

  /** The open contexts (innermost first) after reading `ts`; None once a close does not match. */
  function Replay(stack: seq<string>, ts: seq<Token>): Option<seq<string>>
    decreases |ts|
  {
    if ts == [] then Some(stack)
    else match ts[0]
      case Open(typ, _) => Replay([typ] + stack, ts[1..])
      case Dir(_) => Replay(stack, ts[1..])
      case Close(typ) => if stack != [] && stack[0] == typ then Replay(stack[1..], ts[1..]) else None
  }

  predicate WellNested(ts: seq<Token>) {
    Replay([], ts) == Some([])
  }

  lemma {:induction false} ReplayConcat(stack: seq<string>, ts: seq<Token>, us: seq<Token>)
    ensures Replay(stack, ts + us) ==
            match Replay(stack, ts) { case None => None case Some(s) => Replay(s, us) }
    decreases |ts|
  {
    if ts == [] {
      assert ts + us == us;
    } else {
      assert (ts + us)[1..] == ts[1..] + us;
      match ts[0]
      case Open(typ, _) => ReplayConcat([typ] + stack, ts[1..], us);
      case Dir(_) => ReplayConcat(stack, ts[1..], us);
      case Close(typ) =>
        if stack != [] && stack[0] == typ {
          ReplayConcat(stack[1..], ts[1..], us);
        }
    }
  }

  lemma {:induction false} ReplayDirs(stack: seq<string>, ds: seq<Directive>)
    ensures Replay(stack, DirTokens(ds)) == Some(stack)
  {
    if ds != [] {
      ReplayDirs(stack, ds[1..]);
      assert DirTokens(ds)[1..] == DirTokens(ds[1..]);
    }
  }
}

/** The tree a run of the parser builds holds what the lines said, and nothing else. */
module ParsedTree {
  import opened Prelude
  import opened Document
  import opened ConfParser
  import opened PlainLines

  // ----- properties of single lines

  /** `p` holds of everything the stack has read. */
  predicate StackAll(p: Token -> bool, s: Stack)
    decreases |s.outer|
  {
    && BodyAll(p, Seal(s.ctx))
    && (s.outer != [] ==> p(Open(s.ctx.typ, s.ctx.value)) && StackAll(p, Stack(s.outer[0], s.outer[1..])))
  }

  lemma {:induction false} GrowAll(p: Token -> bool, f: Frame, ds: seq<Directive>, ks: seq<Tree>)
    ensures BodyAll(p, Seal(Grow(f, ds, ks))) <==>
            BodyAll(p, Seal(f)) && (forall d :: d in ds ==> p(Dir(d)))
            && (forall k :: k in ks ==> p(Open(k.typ, k.value)) && BodyAll(p, k))
  {
  }

  lemma {:induction false} StepAll(p: Token -> bool, s: Stack, t: Token)
    requires Step(s, t).Some?
    ensures StackAll(p, Step(s, t).value) <==> StackAll(p, s) && (t.Close? || p(t))
  {
    var s1 := Step(s, t).value;
    match t
    case Dir(d) => GrowAll(p, s.ctx, [d], []);
    case Open(_, _) => assert Stack(s1.outer[0], s1.outer[1..]) == s;
    case Close(_) =>
      if s.outer != [] {
        GrowAll(p, s.outer[0], [], [Seal(s.ctx)]);
      }
  }

  /** What the stack holds at the end is what it held before and what the lines said. */
  lemma {:induction false} RunAll(p: Token -> bool, s: Stack, ts: seq<Token>)
    requires Run(s, ts).Some?
    ensures StackAll(p, Run(s, ts).value) <==> StackAll(p, s) && forall t :: t in ts ==> t.Close? || p(t)
    decreases |ts|
  {
    if ts != [] {
      StepAll(p, s, ts[0]);
      RunAll(p, Step(s, ts[0]).value, ts[1..]);
      assert forall t :: t in ts <==> t == ts[0] || t in ts[1..];
    }
  }

  lemma {:induction false} ParsedAll(p: Token -> bool, ts: seq<Token>, root: Frame)
    requires Run(START, ts) == Some(Stack(root, []))
    ensures BodyAll(p, Seal(root)) <==> forall t :: t in ts ==> t.Close? || p(t)
  {
    RunAll(p, START, ts);
  }

  /** So what holds of a tree's contents holds of its printed lines, and the other way round. */
  lemma {:induction false} PrintedAll(p: Token -> bool, t: Tree)
    ensures BodyAll(p, t) <==> forall x :: x in PrintBody(t) ==> x.Close? || p(x)
  {
    PrintedParses(t);
    ParsedAll(p, PrintBody(t), Frame("default", "", t.dirs, t.kids));
    assert BodyAll(p, t) <==> BodyAll(p, Tree("default", "", t.dirs, t.kids));
  }

  // ----- sums over lines

  function Total(w: Token -> nat, ts: seq<Token>): nat {
    if ts == [] then 0 else w(ts[0]) + Total(w, ts[1..])
  }

  lemma {:induction false} TotalConcat(w: Token -> nat, ts: seq<Token>, us: seq<Token>)
    ensures Total(w, ts + us) == Total(w, ts) + Total(w, us)
  {
    if ts == [] {
      assert ts + us == us;
    } else {
      assert (ts + us)[1..] == ts[1..] + us;
      TotalConcat(w, ts[1..], us);
    }
  }

  lemma {:induction false} TotalOne(w: Token -> nat, t: Token)
    ensures Total(w, [t]) == w(t)
  {
    assert [t][1..] == [];
  }

  /** The sum over the lines it takes to write down what the stack holds. */
  function Measure(w: Token -> nat, s: Stack): nat
    decreases |s.outer|
  {
    Total(w, PrintBody(Seal(s.ctx)))
    + if s.outer == [] then 0 else w(Open(s.ctx.typ, s.ctx.value)) + Measure(w, Stack(s.outer[0], s.outer[1..]))
  }

  lemma {:induction false} DirMeasure(w: Token -> nat, f: Frame, d: Directive)
    ensures Total(w, PrintBody(Seal(Grow(f, [d], [])))) == Total(w, PrintBody(Seal(f))) + w(Dir(d))
  {
    var kids := PrintAll(f.kids);
    assert f.kids + [] == f.kids && DirTokens(f.dirs + [d]) == DirTokens(f.dirs) + [Dir(d)];
    TotalConcat(w, DirTokens(f.dirs), kids);
    TotalConcat(w, DirTokens(f.dirs) + [Dir(d)], kids);
    TotalConcat(w, DirTokens(f.dirs), [Dir(d)]);
    TotalOne(w, Dir(d));
  }

  lemma {:induction false} PrintAllSnoc(ts: seq<Tree>, t: Tree)
    ensures PrintAll(ts + [t]) == PrintAll(ts) + Print(t)
  {
    if ts == [] {
      assert ts + [t] == [t] && [t][1..] == [];
    } else {
      assert (ts + [t])[1..] == ts[1..] + [t];
      PrintAllSnoc(ts[1..], t);
    }
  }

  lemma {:induction false} KidMeasure(w: Token -> nat, f: Frame, k: Tree)
    ensures Total(w, PrintBody(Seal(Grow(f, [], [k])))) ==
            Total(w, PrintBody(Seal(f))) + w(Open(k.typ, k.value)) + Total(w, PrintBody(k)) + w(Close(k.typ))
  {
    assert f.dirs + [] == f.dirs;
    PrintAllSnoc(f.kids, k);
    assert PrintBody(Seal(Grow(f, [], [k]))) == PrintBody(Seal(f)) + Print(k);
    TotalConcat(w, PrintBody(Seal(f)), Print(k));
    TotalConcat(w, [Open(k.typ, k.value)] + PrintBody(k), [Close(k.typ)]);
    TotalConcat(w, [Open(k.typ, k.value)], PrintBody(k));
    TotalOne(w, Open(k.typ, k.value));
    TotalOne(w, Close(k.typ));
  }

  lemma {:induction false} StepMeasure(w: Token -> nat, s: Stack, t: Token)
    requires Step(s, t).Some?
    ensures Measure(w, Step(s, t).value) <= Measure(w, s) + w(t)
  {
    var s1 := Step(s, t).value;
    match t
    case Dir(d) => DirMeasure(w, s.ctx, d);
    case Open(_, _) => assert Stack(s1.outer[0], s1.outer[1..]) == s && PrintBody(Seal(s1.ctx)) == [];
    case Close(_) =>
      if s.outer != [] {
        KidMeasure(w, s.outer[0], Seal(s.ctx));
      }
  }

  lemma {:induction false} RunMeasure(w: Token -> nat, s: Stack, ts: seq<Token>)
    requires Run(s, ts).Some?
    ensures Measure(w, Run(s, ts).value) <= Measure(w, s) + Total(w, ts)
    decreases |ts|
  {
    if ts != [] {
      StepMeasure(w, s, ts[0]);
      RunMeasure(w, Step(s, ts[0]).value, ts[1..]);
    }
  }

  /** Printing what was read takes no more than was read. */
  lemma {:induction false} ParsedTotal(w: Token -> nat, ts: seq<Token>, root: Frame)
    requires Run(START, ts) == Some(Stack(root, []))
    ensures Total(w, PrintBody(Seal(root))) <= Total(w, ts)
  {
    RunMeasure(w, START, ts);
    assert PrintBody(Seal(ROOT)) == [];
  }
}

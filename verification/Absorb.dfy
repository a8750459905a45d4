/**
 * What importing a context means for the stored tree. conf2sql.pl finds the id of a freshly
 * inserted sub-context again by its content, so a sub-context lands in the first stored sibling
 * with the same type and value, which need not be the row just inserted.
 */
module Absorb {
  import opened Document

  function Blank(t: Tree): Tree { Tree(t.typ, t.value, [], []) }

  predicate Twins(a: Tree, b: Tree) { a.typ == b.typ && a.value == b.value }

  /** The first tree of `ts` with the type and value of `t`; |ts| when there is none. */
  function FirstTwin(ts: seq<Tree>, t: Tree): (i: nat)
    ensures i <= |ts|
    ensures i < |ts| ==> Twins(ts[i], t)
    ensures forall j :: 0 <= j < i ==> !Twins(ts[j], t)
  {
    if ts == [] || Twins(ts[0], t) then 0 else 1 + FirstTwin(ts[1..], t)
  }

  /** The stored tree `acc` after the content of `t` was imported into it. */
  function Absorbed(acc: Tree, t: Tree): Tree
    decreases t, 1
  {
    Tree(acc.typ, acc.value, acc.dirs + t.dirs, AbsorbedAll(acc.kids, t.kids))
  }

  function AbsorbedAll(acc: seq<Tree>, kids: seq<Tree>): (r: seq<Tree>)
    ensures |r| == |acc| + |kids|
    decreases kids, 0
  {
    if kids == [] then acc
    else
      var grown := acc + [Blank(kids[0])];
      assert Twins(grown[|acc|], kids[0]);
      var i := FirstTwin(grown, kids[0]);
      AbsorbedAll(grown[i := Absorbed(grown[i], kids[0])], kids[1..])
  }

  // ----- when the import is faithful

  predicate Empty(t: Tree) { t.dirs == [] && t.kids == [] }

  /** Every context with an earlier sibling of the same type and value is empty, at all levels. */
  predicate LaterTwinsEmpty(t: Tree) {
    && (forall i, j :: 0 <= i < j < |t.kids| && Twins(t.kids[i], t.kids[j]) ==> Empty(t.kids[j]))
    && (forall k :: k in t.kids ==> LaterTwinsEmpty(k))
  }

  /** All siblings differ in type or value, at all levels. */
  predicate SiblingsDiffer(t: Tree) {
    && (forall i, j :: 0 <= i < j < |t.kids| ==>
          t.kids[i].typ != t.kids[j].typ || t.kids[i].value != t.kids[j].value)
    && (forall k :: k in t.kids ==> SiblingsDiffer(k))
  }

  lemma {:induction false} SiblingsDifferSuffices(t: Tree)
    requires SiblingsDiffer(t)
    ensures LaterTwinsEmpty(t)
  {
    forall k | k in t.kids ensures LaterTwinsEmpty(k) {
      SiblingsDifferSuffices(k);
    }
  }

  lemma {:induction false} AbsorbedKeepsNames(acc: seq<Tree>, kids: seq<Tree>, p: nat)
    requires p < |acc| + |kids|
    ensures Twins(AbsorbedAll(acc, kids)[p], (acc + kids)[p])
    decreases |kids|
  {
    if kids != [] {
      var grown := acc + [Blank(kids[0])];
      assert Twins(grown[|acc|], kids[0]);
      var i := FirstTwin(grown, kids[0]);
      AbsorbedKeepsNames(grown[i := Absorbed(grown[i], kids[0])], kids[1..], p);
    }
  }

  /** A stored sibling that has an earlier twin never receives anything. */
  lemma {:induction false} ShadowedUntouched(acc: seq<Tree>, kids: seq<Tree>, q: nat, p: nat)
    requires q < p < |acc| && Twins(acc[q], acc[p])
    ensures AbsorbedAll(acc, kids)[p] == acc[p]
    decreases |kids|
  {
    if kids != [] {
      var grown := acc + [Blank(kids[0])];
      assert Twins(grown[|acc|], kids[0]);
      var i := FirstTwin(grown, kids[0]);
      assert i != p by { assert Twins(grown[p], kids[0]) ==> Twins(grown[q], kids[0]); }
      ShadowedUntouched(grown[i := Absorbed(grown[i], kids[0])], kids[1..], q, p);
    }
  }

  /** So a later twin is stored empty. */
  lemma {:induction false} LaterTwinStoredEmpty(acc: seq<Tree>, kids: seq<Tree>, q: nat, p: nat)
    requires q < |acc| + p && p < |kids| && Twins((acc + kids)[q], kids[p])
    ensures AbsorbedAll(acc, kids)[|acc| + p] == Blank(kids[p])
    decreases p
  {
    var grown := acc + [Blank(kids[0])];
    assert Twins(grown[|acc|], kids[0]);
    var i := FirstTwin(grown, kids[0]);
    var next := grown[i := Absorbed(grown[i], kids[0])];
    assert forall x :: 0 <= x < |grown| ==> Twins(next[x], (acc + kids)[x]);
    if p == 0 {
      assert Twins(grown[q], kids[0]) && i <= q;
      ShadowedUntouched(next, kids[1..], q, |acc|);
    } else {
      assert q >= |next| ==> (next + kids[1..])[q] == (acc + kids)[q];
      LaterTwinStoredEmpty(next, kids[1..], q, p - 1);
    }
  }

  lemma {:induction false} AbsorbEmpty(acc: Tree, t: Tree)
    requires Empty(t)
    ensures Absorbed(acc, t) == acc
  {
  }

  /** No context of `kids` that is not empty has a twin before it, in `acc` or in `kids`. */
  predicate TwinsEmpty(acc: seq<Tree>, kids: seq<Tree>) {
    forall q, p :: 0 <= q < |acc| + p && 0 <= p < |kids| && Twins((acc + kids)[q], kids[p]) ==> Empty(kids[p])
  }

  /** Importing the first of such contexts just appends it. */
  lemma {:induction false} AbsorbFirst(acc: seq<Tree>, kids: seq<Tree>)
    requires kids != [] && TwinsEmpty(acc, kids)
    ensures var next := acc + [Absorbed(Blank(kids[0]), kids[0])];
            AbsorbedAll(acc, kids) == AbsorbedAll(next, kids[1..]) && TwinsEmpty(next, kids[1..])
  {
    var grown := acc + [Blank(kids[0])];
    assert Twins(grown[|acc|], kids[0]);
    var i := FirstTwin(grown, kids[0]);
    var next := grown[i := Absorbed(grown[i], kids[0])];
    if i < |acc| {
      assert Twins((acc + kids)[i], kids[0]);
      AbsorbEmpty(grown[i], kids[0]);
      AbsorbEmpty(Blank(kids[0]), kids[0]);
    }
    assert next == acc + [Absorbed(Blank(kids[0]), kids[0])];
    forall q, p | 0 <= q < |next| + p && 0 <= p < |kids[1..]| && Twins((next + kids[1..])[q], kids[1..][p])
      ensures Empty(kids[1..][p])
    {
      assert Twins((acc + kids)[q], kids[p + 1]);
    }
  }

  /** If all later twins are empty, each context is imported on its own, into a blank row. */
  lemma {:induction false} AbsorbedApart(acc: seq<Tree>, kids: seq<Tree>, p: nat)
    requires TwinsEmpty(acc, kids) && p < |acc| + |kids|
    ensures AbsorbedAll(acc, kids)[p] == if p < |acc| then acc[p] else Absorbed(Blank(kids[p - |acc|]), kids[p - |acc|])
    decreases |kids|
  {
    if kids != [] {
      AbsorbFirst(acc, kids);
      AbsorbedApart(acc + [Absorbed(Blank(kids[0]), kids[0])], kids[1..], p);
    }
  }

  lemma {:induction false} TwinsStoredEmpty(kids: seq<Tree>)
    requires AbsorbedAll([], kids) == kids
    ensures TwinsEmpty([], kids)
  {
    assert [] + kids == kids;
    forall i, j | 0 <= i < j < |kids| && Twins(kids[i], kids[j]) ensures Empty(kids[j]) {
      LaterTwinStoredEmpty([], kids, i, j);
    }
  }

  ghost predicate EachFaithful(kids: seq<Tree>) {
    forall p :: 0 <= p < |kids| ==> Absorbed(Blank(kids[p]), kids[p]) == kids[p]
  }

  lemma {:induction false} KidsFaithfulIff(kids: seq<Tree>)
    requires TwinsEmpty([], kids)
    ensures AbsorbedAll([], kids) == kids <==> EachFaithful(kids)
  {
    forall p | 0 <= p < |kids| ensures AbsorbedAll([], kids)[p] == Absorbed(Blank(kids[p]), kids[p]) {
      AbsorbedApart([], kids, p);
    }
  }

  lemma {:induction false} FaithfulBelow(t: Tree)
    ensures Absorbed(Blank(t), t) == t <==> AbsorbedAll([], t.kids) == t.kids
  {
  }

  lemma {:induction false} TwinsEmptyMeans(kids: seq<Tree>)
    ensures TwinsEmpty([], kids) <==>
            forall i, j :: 0 <= i < j < |kids| && Twins(kids[i], kids[j]) ==> Empty(kids[j])
  {
    assert [] + kids == kids;
  }

  lemma {:induction false} FaithfulIf(t: Tree)
    requires LaterTwinsEmpty(t)
    ensures Absorbed(Blank(t), t) == t
  {
    TwinsEmptyMeans(t.kids);
    forall p | 0 <= p < |t.kids| ensures Absorbed(Blank(t.kids[p]), t.kids[p]) == t.kids[p] {
      assert t.kids[p] in t.kids;
      FaithfulIf(t.kids[p]);
    }
    KidsFaithfulIff(t.kids);
    FaithfulBelow(t);
  }

  lemma {:induction false} FaithfulOnlyIf(t: Tree)
    requires Absorbed(Blank(t), t) == t
    ensures LaterTwinsEmpty(t)
  {
    FaithfulBelow(t);
    TwinsStoredEmpty(t.kids);
    TwinsEmptyMeans(t.kids);
    KidsFaithfulIff(t.kids);
    forall p | 0 <= p < |t.kids| ensures LaterTwinsEmpty(t.kids[p]) {
      FaithfulOnlyIf(t.kids[p]);
    }
  }

  /** Importing into a blank row stores exactly the source tree if and only if later twins are empty. */
  lemma {:induction false} FaithfulIff(t: Tree)
    ensures Absorbed(Blank(t), t) == t <==> LaterTwinsEmpty(t)
  {
    if LaterTwinsEmpty(t) {
      FaithfulIf(t);
    }
    if Absorbed(Blank(t), t) == t {
      FaithfulOnlyIf(t);
    }
  }

  /** Two <A> siblings where the second has a directive: the directive ends up in the first. */
  lemma {:induction false} TwinsCollapse()
    ensures var d := Directive("Umask", "022");
            var t := Tree("default", "", [], [Tree("A", "", [], []), Tree("A", "", [d], [])]);
            Absorbed(Blank(t), t) == Tree("default", "", [], [Tree("A", "", [d], []), Tree("A", "", [], [])])
  {
    var d := Directive("Umask", "022");
    var a, b := Tree("A", "", [], []), Tree("A", "", [d], []);
    AbsorbEmpty(a, a);
    assert FirstTwin([] + [Blank(a)], a) == 0;
    assert ([] + [Blank(a)])[0 := Absorbed(a, a)] == [a];
    assert FirstTwin([a] + [Blank(b)], b) == 0;
    assert Absorbed(a, b) == b;
    assert ([a] + [Blank(b)])[0 := b] == [b, a];
    assert [a, b][1..] == [b] && [b][1..] == [];
    assert AbsorbedAll([], [a, b]) == AbsorbedAll([a], [b]) == AbsorbedAll([b, a], []);
  }
}

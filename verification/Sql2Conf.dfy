/** sql2conf.pl: from the tables back to a configuration file, independently of the C module. */
module Sql2Conf {
  import opened Prelude
  import opened Document
  import opened Tables
  import opened Store
  import opened Walk
  import opened Termination
  import opened WalkDocument
  import opened Spelling

  // ----- the tree it builds

  /** The script's tree of a walk in table order; an undefined type or value is "". */
  function Fetched(v: Visit): Tree
    decreases v, 1
  {
    if v.Visited? && v.dirs.Rows? && v.kids.Rows? then
      Tree(
        if v.key.Some? then TypeOf(v.key.value) else "",
        if v.key.Some? then ValueOf(v.key.value) else "",
        Map(DirOf, v.dirs.rows), FetchedAll(v.kids.rows))
    else Tree("", "", [], [])
  }

  function FetchedAll(vs: seq<Visit>): (ts: seq<Tree>)
    ensures |ts| == |vs|
    decreases vs, 0
  {
    if vs == [] then [] else [Fetched(vs[0])] + FetchedAll(vs[1..])
  }

  lemma {:induction false} FetchedIsTreeOf(v: Visit)
    requires Typed(v) && NoneSkipped(v)
    ensures Fetched(v) == TreeOf(v)
    decreases v, 1
  {
    FetchedAllIsTreesOf(v.kids.rows);
  }

  lemma {:induction false} FetchedAllIsTreesOf(vs: seq<Visit>)
    requires TypedAll(vs) && NoneSkippedAll(vs)
    ensures FetchedAll(vs) == TreesOf(vs)
    decreases vs, 0
  {
    if vs != [] {
      FetchedIsTreeOf(vs[0]);
      FetchedAllIsTreesOf(vs[1..]);
    }
  }

  lemma {:induction false} FetchedAllAt(vs: seq<Visit>, i: nat)
    requires i < |vs|
    ensures FetchedAll(vs)[i] == Fetched(vs[i])
    decreases i
  {
    if i > 0 {
      FetchedAllAt(vs[1..], i - 1);
    }
  }

  /** The visits of the children of `id`, in table order. */
  ghost function KidVisits(v: View, id: int, d: nat): (vs: seq<Visit>)
    requires UniqueIds(v.ctxs) && HaltsWithin(InOrder(v), id, d)
    ensures |vs| == |KidRows(v, id)|
  {
    KeyIsUnique(InOrder(v), v, id);
    ExploreAll(InOrder(v), KidRows(v, id), d - 1)
  }

  lemma {:induction false} KidVisit(v: View, id: int, d: nat, i: nat)
    requires UniqueIds(v.ctxs) && HaltsWithin(InOrder(v), id, d) && i < |KidRows(v, id)|
    ensures KidRows(v, id)[i] in v.ctxs && d > 0
    ensures HaltsWithin(InOrder(v), KidRows(v, id)[i].id, d - 1)
    ensures KidVisits(v, id, d)[i] == Explore(InOrder(v), KidRows(v, id)[i].id, d - 1)
  {
    KeyIsUnique(InOrder(v), v, id);
    assert KidRows(v, id)[i] in KidRows(v, id);
  }

  lemma {:induction false} KidFetched(v: View, id: int, d: nat, i: nat)
    requires UniqueIds(v.ctxs) && HaltsWithin(InOrder(v), id, d) && i < |KidRows(v, id)|
    ensures KidRows(v, id)[i] in v.ctxs && d > 0
    ensures HaltsWithin(InOrder(v), KidRows(v, id)[i].id, d - 1)
    ensures FetchedFrom(v, KidRows(v, id)[i].id, d - 1) == FetchedAll(KidVisits(v, id, d))[i]
  {
    KidVisit(v, id, d, i);
    FetchedAllAt(KidVisits(v, id, d), i);
  }

  ghost function FetchedFrom(v: View, id: int, d: nat): Tree
    requires HaltsWithin(InOrder(v), id, d)
  {
    Fetched(Explore(InOrder(v), id, d))
  }

  /** What a walk in table order fetches of one context. */
  lemma {:induction false} FetchedParts(v: View, id: int, d: nat)
    requires UniqueIds(v.ctxs) && HaltsWithin(InOrder(v), id, d)
    ensures var rows := KeyRows(v, id);
            FetchedFrom(v, id, d) ==
            Tree(if rows == [] then "" else TypeOf(rows[0]), if rows == [] then "" else ValueOf(rows[0]),
                 Map(DirOf, JoinRows(v, id)), FetchedAll(KidVisits(v, id, d)))
  {
    KeyIsUnique(InOrder(v), v, id);
  }

  method GetCtxDirectives(v: View, id: int) returns (directives: seq<Directive>)
    ensures directives == Map(DirOf, JoinRows(v, id))
  {
    var rows := JoinRows(v, id);
    directives := [];
    for i := 0 to |rows|
      invariant directives == Map(DirOf, rows)[..i]
    {
      directives := directives + [Directive(rows[i].name, rows[i].value)];
    }
  }

  method GetCtxCtxs(v: View, id: int) returns (ids: seq<int>)
    ensures |ids| == |KidRows(v, id)| && forall i :: 0 <= i < |ids| ==> ids[i] == KidRows(v, id)[i].id
  {
    var rows := KidRows(v, id);
    ids := [];
    for i := 0 to |rows|
      invariant |ids| == i && forall j :: 0 <= j < i ==> ids[j] == rows[j].id
    {
      ids := ids + [rows[i].id];
    }
  }

  /** The context a call of get_ctx is about: without an id, the first one with a NULL parent. */
  function Asked(v: View, given: int): Option<int> {
    if given != 0 then Some(given)
    else if Filter(IsRoot(), v.ctxs) == [] then None
    else Some(Filter(IsRoot(), v.ctxs)[0].id)
  }

  ghost predicate IdsFromOne(v: View) {
    forall r :: r in v.ctxs ==> r.id >= 1
  }

  /** get_ctx; ids start at 1, so that no child is taken for a missing id. */
  method GetCtx(v: View, given: int, ghost d: nat) returns (t: Tree)
    requires UniqueIds(v.ctxs) && IdsFromOne(v)
    requires Asked(v, given).Some? ==> HaltsWithin(InOrder(v), Asked(v, given).value, d)
    ensures Asked(v, given).Some? ==> t == FetchedFrom(v, Asked(v, given).value, d)
    ensures Asked(v, given).None? ==> t == Tree("", "", [], [])
    ensures given != 0 ==> t == FetchedFrom(v, given, d)
    ensures given == 0 ==>
              var roots := Filter(IsRoot(), v.ctxs);
              t == if roots == [] then Tree("", "", [], []) else FetchedFrom(v, roots[0].id, d)
    decreases d, 1
  {
    var id := given;
    if id == 0 {
      var roots := Filter(IsRoot(), v.ctxs);
      if roots == [] {
        return Tree("", "", [], []);
      }
      id := roots[0].id;
    }
    t := GetCtxAt(v, id, d);
  }

  /** The rest of get_ctx, once it has an id. */
  method GetCtxAt(v: View, id: int, ghost d: nat) returns (t: Tree)
    requires UniqueIds(v.ctxs) && IdsFromOne(v) && HaltsWithin(InOrder(v), id, d)
    ensures t == FetchedFrom(v, id, d)
    decreases d, 0
  {
    var rows := KeyRows(v, id);
    var typ := if rows == [] then "" else TypeOf(rows[0]);
    var value := if rows == [] then "" else ValueOf(rows[0]);
    var directives := GetCtxDirectives(v, id);
    var ids := GetCtxCtxs(v, id);
    var contexts := [];
    ghost var trees := FetchedAll(KidVisits(v, id, d));
    for i := 0 to |ids|
      invariant contexts == trees[..i]
    {
      TakeNext(trees, i);
      KidFetched(v, id, d, i);
      var kid := GetCtx(v, ids[i], d - 1);
      contexts := contexts + [kid];
    }
    FetchedParts(v, id, d);
    t := Tree(typ, value, directives, contexts);
  }

  // ----- printing it

  /** Perl's truth of a string. */
  predicate True(s: string) { s != "" && s != "0" }

  function ShowDirs(ds: seq<Directive>, indent: nat): seq<string> {
    if ds == [] then [] else [Spaces(indent) + ds[0].name + " " + ds[0].value] + ShowDirs(ds[1..], indent)
  }

  function Header(t: Tree): string {
    "<" + t.typ + (if True(t.value) then " " + t.value else "") + ">"
  }

  function ShowCtxs(ts: seq<Tree>, indent: nat): seq<string> {
    if ts == [] then []
    else ["", Spaces(indent) + Header(ts[0])] + ShowDirs(ts[0].dirs, indent + 2) + ShowCtxs(ts[0].kids, indent + 2)
         + [Spaces(indent) + "</" + ts[0].typ + ">"] + ShowCtxs(ts[1..], indent)
  }

  function ShowConf(t: Tree): seq<string> {
    ShowDirs(t.dirs, 0) + ShowCtxs(t.kids, 0)
  }

  lemma {:induction false} ShowFirst(before: seq<string>, ts: seq<Tree>, indent: nat)
    requires ts != []
    ensures before + [""] + [Spaces(indent) + Header(ts[0])] + ShowDirs(ts[0].dirs, indent + 2)
            + ShowCtxs(ts[0].kids, indent + 2) + [Spaces(indent) + "</" + ts[0].typ + ">"] + ShowCtxs(ts[1..], indent)
            == before + ShowCtxs(ts, indent)
  {
    var open := Spaces(indent) + Header(ts[0]);
    Regroup(before, "", open, ShowDirs(ts[0].dirs, indent + 2), ShowCtxs(ts[0].kids, indent + 2),
            [Spaces(indent) + "</" + ts[0].typ + ">"], ShowCtxs(ts[1..], indent));
  }

  lemma {:induction false} Regroup(
      before: seq<string>, a: string, b: string, c: seq<string>, d: seq<string>, e: seq<string>, f: seq<string>)
    ensures before + [a] + [b] + c + d + e + f == before + ([a, b] + c + d + e + f)
  {
    assert [a] + [b] == [a, b];
    assert before + [a] + [b] == before + [a, b];
    assert before + [a, b] + c == before + ([a, b] + c);
    assert before + ([a, b] + c) + d == before + ([a, b] + c + d);
    assert before + ([a, b] + c + d) + e == before + ([a, b] + c + d + e);
  }

  lemma {:induction false} ShowBoth(before: seq<string>, a: seq<string>, b: seq<string>)
    ensures before + a + b == before + (a + b)
  {
  }

  /** Standard output, as the lines printed so far. */
  class Stdout {
    var lines: seq<string>

    constructor ()
      ensures lines == []
    {
      lines := [];
    }

    method PrintDirectives(ds: seq<Directive>, indent: nat)
      modifies this
      ensures lines == old(lines) + ShowDirs(ds, indent)
    {
      for i := 0 to |ds|
        invariant lines + ShowDirs(ds[i..], indent) == old(lines) + ShowDirs(ds, indent)
      {
        assert ds[i..][1..] == ds[i + 1..];
        lines := lines + [Spaces(indent) + ds[i].name + " " + ds[i].value];
      }
    }

    method PrintCtxs(ts: seq<Tree>, indent: nat)
      modifies this
      ensures lines == old(lines) + ShowCtxs(ts, indent)
      decreases ts
    {
      for i := 0 to |ts|
        invariant lines + ShowCtxs(ts[i..], indent) == old(lines) + ShowCtxs(ts, indent)
      {
        ghost var before := lines;
        assert ts[i..][1..] == ts[i + 1..];
        lines := lines + [""];
        var header := "<" + ts[i].typ + (if True(ts[i].value) then " " + ts[i].value else "") + ">";
        lines := lines + [Spaces(indent) + header];
        PrintDirectives(ts[i].dirs, indent + 2);
        PrintCtxs(ts[i].kids, indent + 2);
        lines := lines + [Spaces(indent) + "</" + ts[i].typ + ">"];
        ShowFirst(before, ts[i..], indent);
      }
    }

    method PrintConf(t: Tree)
      modifies this
      ensures lines == old(lines) + ShowConf(t)
    {
      ghost var before := lines;
      PrintDirectives(t.dirs, 0);
      PrintCtxs(t.kids, 0);
      ShowBoth(before, ShowDirs(t.dirs, 0), ShowCtxs(t.kids, 0));
    }
  }

  // ----- the layout

  /** A line two columns further right; empty lines stay empty. */
  function Deeper(line: string): string { if line == "" then "" else "  " + line }

  lemma {:induction false} TwoDeeper(n: nat, line: string)
    requires Spaces(n) + line != ""
    ensures Deeper(Spaces(n) + line) == Spaces(n + 2) + line
  {
    assert Spaces(n + 2) == " " + (" " + Spaces(n)) == "  " + Spaces(n);
    assert "  " + (Spaces(n) + line) == "  " + Spaces(n) + line;
  }

  lemma {:induction false} DirsDeeper(ds: seq<Directive>, indent: nat)
    ensures ShowDirs(ds, indent + 2) == Map(Deeper, ShowDirs(ds, indent))
  {
    if ds != [] {
      var line := ds[0].name + " " + ds[0].value;
      DirsDeeper(ds[1..], indent);
      assert Spaces(indent) + ds[0].name + " " + ds[0].value == Spaces(indent) + line;
      assert Spaces(indent + 2) + ds[0].name + " " + ds[0].value == Spaces(indent + 2) + line;
      TwoDeeper(indent, line);
      MapConcat(Deeper, [Spaces(indent) + line], ShowDirs(ds[1..], indent));
      assert Map(Deeper, [Spaces(indent) + line]) == [Spaces(indent + 2) + line];
    }
  }

  lemma {:induction false} TagsDeeper(t: Tree, indent: nat)
    ensures Map(Deeper, ["", Spaces(indent) + Header(t)]) == ["", Spaces(indent + 2) + Header(t)]
    ensures Map(Deeper, [Spaces(indent) + "</" + t.typ + ">"]) == [Spaces(indent + 2) + "</" + t.typ + ">"]
  {
    var close := "</" + t.typ + ">";
    TwoDeeper(indent, Header(t));
    TwoDeeper(indent, close);
    assert Spaces(indent) + "</" + t.typ + ">" == Spaces(indent) + close;
    assert Spaces(indent + 2) + "</" + t.typ + ">" == Spaces(indent + 2) + close;
  }

  lemma {:induction false} CtxsDeeper(ts: seq<Tree>, indent: nat)
    ensures ShowCtxs(ts, indent + 2) == Map(Deeper, ShowCtxs(ts, indent))
    decreases ts
  {
    if ts != [] {
      var t := ts[0];
      TagsDeeper(t, indent);
      DirsDeeper(t.dirs, indent + 2);
      CtxsDeeper(t.kids, indent + 2);
      CtxsDeeper(ts[1..], indent);
      MapFive(["", Spaces(indent) + Header(t)], ShowDirs(t.dirs, indent + 2), ShowCtxs(t.kids, indent + 2),
              [Spaces(indent) + "</" + t.typ + ">"], ShowCtxs(ts[1..], indent));
    }
  }

  lemma {:induction false} MapFive(a: seq<string>, b: seq<string>, c: seq<string>, d: seq<string>, e: seq<string>)
    ensures Map(Deeper, a + b + c + d + e) ==
            Map(Deeper, a) + Map(Deeper, b) + Map(Deeper, c) + Map(Deeper, d) + Map(Deeper, e)
  {
    MapConcat(Deeper, a, b);
    MapConcat(Deeper, a + b, c);
    MapConcat(Deeper, a + b + c, d);
    MapConcat(Deeper, a + b + c + d, e);
  }

  lemma {:induction false} ConfDeeper(t: Tree)
    ensures Map(Deeper, ShowConf(t)) == ShowDirs(t.dirs, 2) + ShowCtxs(t.kids, 2)
  {
    DirsDeeper(t.dirs, 0);
    CtxsDeeper(t.kids, 0);
    MapConcat(Deeper, ShowDirs(t.dirs, 0), ShowCtxs(t.kids, 0));
  }

  lemma {:induction false} ShowOne(t: Tree)
    ensures ShowCtxs([t], 0) == ["", Header(t)] + ShowDirs(t.dirs, 2) + ShowCtxs(t.kids, 2) + ["</" + t.typ + ">"]
  {
    var a, b, c := ["", Spaces(0) + Header(t)], ShowDirs(t.dirs, 2), ShowCtxs(t.kids, 2);
    var d := [Spaces(0) + "</" + t.typ + ">"];
    assert ShowCtxs([t][1..], 0) == [];
    assert ShowCtxs([t], 0) == a + b + c + d + [];
    assert Spaces(0) + Header(t) == Header(t) && Spaces(0) + "</" + t.typ + ">" == "</" + t.typ + ">";
  }

  /**
   * A context is printed as an empty line, its header, what would be printed for it as a root, moved
   * right by two columns, and its closing tag.
   */
  lemma {:induction false} ContextLayout(t: Tree)
    ensures ShowCtxs([t], 0) == ["", Header(t)] + Map(Deeper, ShowConf(t)) + ["</" + t.typ + ">"]
  {
    ConfDeeper(t);
    ShowOne(t);
    ShowBoth(["", Header(t)], ShowDirs(t.dirs, 2), ShowCtxs(t.kids, 2));
  }
}

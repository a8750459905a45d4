/** Which parameter values are accepted, and that a rendered value is read back. */
module ParamRoundTrip {
  import opened Prelude
  import opened CStrings
  import opened UrlDecode
  import opened Param

  // ----- rendering and reading back

  function JoinColumns(cols: seq<string>): string
    requires cols != []
  {
    if |cols| == 1 then cols[0] else cols[0] + "," + JoinColumns(cols[1..])
  }

  predicate PlainColumns(cols: seq<string>) {
    forall i :: 0 <= i < |cols| ==> ':' !in cols[i] && ',' !in cols[i]
  }

  /** A parameter value as the documentation writes it; a clause without columns needs two colons. */
  function Render(table: string, cols: Option<seq<string>>, where: Option<string>): string
    requires cols.Some? ==> cols.value != []
  {
    table
    + (if cols.Some? then ":" + JoinColumns(cols.value) else if where.Some? then ":" else "")
    + (if where.Some? then ":" + where.value else "")
  }

  lemma {:induction false} ColumnsNext(n: nat, col: string, rest: string)
    requires n >= 1 && ',' !in col && Columns(n, rest).Some?
    ensures Columns(n + 1, col + [','] + rest) == Some([col] + Columns(n, rest).value)
  {
    CutAfter(col, ',', rest);
  }

  lemma {:induction false} JoinedPlain(cols: seq<string>)
    requires cols != [] && PlainColumns(cols)
    ensures ':' !in JoinColumns(cols) && (|cols| > 1 ==> JoinColumns(cols) != "")
    decreases |cols|
  {
    if |cols| > 1 {
      assert forall i :: 0 <= i < |cols| - 1 ==> cols[1..][i] == cols[i + 1];
      JoinedPlain(cols[1..]);
    }
  }

  lemma {:induction false} ColumnsReadBack(cols: seq<string>)
    requires cols != [] && PlainColumns(cols)
    ensures Columns(|cols|, JoinColumns(cols)) == Some(cols)
    ensures ':' !in JoinColumns(cols) && (|cols| > 1 ==> JoinColumns(cols) != "")
  {
    JoinedPlain(cols);
    ColumnsGiven(cols);
  }

  /** A column text, and what stands behind it. */
  lemma {:induction false} RestReadsBack(n: nat, table: string, cols: seq<string>, where: Option<string>)
    requires n >= 2 && |cols| == n && PlainColumns(cols)
    requires where.Some? ==> WherePrefix(where.value)
    ensures Rest(n, table, if where.Some? then JoinColumns(cols) + [':'] + where.value else JoinColumns(cols)) ==
            Some(Params(Some(table), Some(cols), if where.Some? then Some(Clause(where.value)) else None))
  {
    if where.Some? {
      PrefixAccepted(where.value);
    }
    ColumnsReadBack(cols);
    CutAfter(JoinColumns(cols), ':', if where.Some? then where.value else "");
  }

  /** What a rendered value stands for. */
  function Meant(table: string, cols: Option<seq<string>>, where: Option<string>): Params {
    Params(Some(table), cols, if where.Some? then Some(Clause(where.value)) else None)
  }

  predicate Renderable(n: nat, table: string, cols: Option<seq<string>>, where: Option<string>) {
    && n >= 2 && ':' !in table && (table != "" || cols.Some? || where.Some?)
    && (cols.Some? ==> |cols.value| == n && PlainColumns(cols.value))
    && (where.Some? ==> WherePrefix(where.value))
  }

  /** Behind the table and its colon, a rendered value has columns, or a second colon, or both. */
  lemma {:induction false} RenderedCut(n: nat, table: string, cols: Option<seq<string>>, where: Option<string>)
    requires Renderable(n, table, cols, where) && (cols.Some? || where.Some?)
    ensures var cut := Cut(Render(table, cols, where), ':');
            && cut.Some? && cut.value.0 == table && cut.value.1 != ""
            && Rest(n, table, cut.value.1) == Some(Meant(table, cols, where))
  {
    var value := Render(table, cols, where);
    if where.Some? {
      PrefixAccepted(where.value);
    }
    if cols.None? {
      assert value == table + [':'] + (":" + where.value);
      CutAfter(table, ':', ":" + where.value);
      CutAfter("", ':', where.value);
      assert "" + [':'] + where.value == ":" + where.value;
    } else {
      var rest := if where.Some? then JoinColumns(cols.value) + [':'] + where.value else JoinColumns(cols.value);
      assert value == table + [':'] + rest;
      CutAfter(table, ':', rest);
      ColumnsReadBack(cols.value);
      RestReadsBack(n, table, cols.value, where);
    }
  }

  /**
   * Each parser reads a rendered value back: the table, each column, and the decoded clause, even
   * if the clause holds more colons. The stored length counts the NUL here.
   */
  lemma {:induction false} ParamReadsBack(n: nat, table: string, cols: Option<seq<string>>, where: Option<string>)
    requires Renderable(n, table, cols, where)
    ensures var value := Render(table, cols, where);
            Grammar(n, Some(value), |value| + 1) == Some(Meant(table, cols, where))
  {
    if cols.None? && where.None? {
      CutAfter(table, ':', "");
      assert Render(table, cols, where) == table && table[..|table|] == table;
    } else {
      RenderedCut(n, table, cols, where);
      assert Render(table, cols, where) != "";
    }
  }

  /**
   * Under the lengths uri.c stores, which do not count the NUL, a rendered value is read back
   * exactly when it has at least two characters and is not a bare table name for the map.
   */
  lemma {:induction false} ParamReadsBackFromUri(n: nat, table: string, cols: Option<seq<string>>, where: Option<string>)
    requires Renderable(n, table, cols, where)
    ensures var value := Render(table, cols, where);
            Grammar(n, Some(value), |value|) == Some(Meant(table, cols, where))
            <==> |value| >= 2 && (n == 2 ==> cols.Some? || where.Some?)
  {
    var value := Render(table, cols, where);
    if cols.None? && where.None? {
      CutAfter(table, ':', "");
      assert value == table;
      if |value| >= 2 {
        assert |table[..|table| - 1]| != |table|;
      }
    } else {
      RenderedCut(n, table, cols, where);
    }
  }

  /**
   * The last parameter of a URI is stored with a length beyond its end. With a clause it is read
   * back all the same, because the searches end at the two colons in front of the clause.
   */
  lemma {:induction false} LastParamReadsBack(n: nat, table: string, cols: Option<seq<string>>, where: string, vsz: nat)
    requires Renderable(n, table, cols, Some(where)) && vsz > |Render(table, cols, Some(where))|
    ensures StoredAs(Render(table, cols, Some(where)), vsz)
    ensures Grammar(n, Some(Render(table, cols, Some(where))), vsz) == Some(Meant(table, cols, Some(where)))
  {
    RenderedCut(n, table, cols, Some(where));
    RenderedColons(n, table, cols, where);
  }

  lemma {:induction false} RenderedColons(n: nat, table: string, cols: Option<seq<string>>, where: string)
    requires Renderable(n, table, cols, Some(where))
    ensures TwoColons(Render(table, cols, Some(where)))
  {
    var value := Render(table, cols, Some(where));
    var text := if cols.Some? then JoinColumns(cols.value) else "";
    assert value == table + [':'] + (text + [':'] + where);
    CutAfter(table, ':', text + [':'] + where);
    assert (text + [':'] + where)[|text|] == ':';
  }

  /** The clause of an encoded text is that text behind its prefix, which keeps its spelling. */
  lemma {:induction false} EncodedClause(prefix: string, ps: seq<LegalPiece>)
    requires |prefix| == 6 && WherePrefix(prefix) && '\0' !in Meaning(ps)
    ensures WherePrefix(prefix + Spell(ps)) && Clause(prefix + Spell(ps)) == prefix + Meaning(ps)
  {
    var d := prefix + Meaning(ps);
    PrefixLetters(prefix);
    PlainTextDecodes(prefix, Spell(ps));
    DecodesAnyEncoding(ps);
    assert (prefix + Spell(ps))[..6] == prefix;
    assert forall i :: 0 <= i < 6 ==> (prefix + Spell(ps))[i] == prefix[i];
    assert '\0' !in d;
    StrlenIs(d, |d|);
    assert d[..|d|] == d;
  }

  lemma {:induction false} PrefixLetters(prefix: string)
    requires |prefix| == 6 && WherePrefix(prefix)
    ensures '\0' !in prefix && '%' !in prefix && '+' !in prefix
  {
    assert prefix == [prefix[0], prefix[1], prefix[2], prefix[3], prefix[4], prefix[5]];
  }

  // ----- exactly which values are accepted

  /** Only the last column holds commas. */
  predicate CommasLast(cols: seq<string>) {
    forall i :: 0 <= i < |cols| - 1 ==> ',' !in cols[i]
  }

  lemma {:induction false} CommasLastRest(cols: seq<string>)
    requires |cols| > 1 && CommasLast(cols)
    ensures CommasLast(cols[1..]) && ',' !in cols[0]
  {
    assert forall i :: 0 <= i < |cols| - 1 ==> cols[1..][i] == cols[i + 1];
  }

  lemma {:induction false} ColumnsGiven(cols: seq<string>)
    requires cols != [] && CommasLast(cols)
    ensures Columns(|cols|, JoinColumns(cols)) == Some(cols)
    decreases |cols|
  {
    if |cols| > 1 {
      var rest := JoinColumns(cols[1..]);
      CommasLastRest(cols);
      ColumnsGiven(cols[1..]);
      assert JoinColumns(cols) == cols[0] + [','] + rest;
      ColumnsNext(|cols| - 1, cols[0], rest);
      assert [cols[0]] + cols[1..] == cols;
    } else {
      assert [cols[0]] == cols;
    }
  }

  lemma {:induction false} OneMore(col: string, cols: seq<string>)
    requires ',' !in col && cols != [] && CommasLast(cols)
    ensures CommasLast([col] + cols) && JoinColumns([col] + cols) == col + "," + JoinColumns(cols)
  {
    assert ([col] + cols)[1..] == cols;
  }

  lemma {:induction false} ColumnsFound(n: nat, text: string)
    requires n >= 1 && Columns(n, text).Some?
    ensures var cols := Columns(n, text).value; |cols| == n && JoinColumns(cols) == text && CommasLast(cols)
    decreases n
  {
    if n > 1 {
      var cut := Cut(text, ',').value;
      ColumnsFound(n - 1, cut.1);
      OneMore(cut.0, Columns(n - 1, cut.1).value);
      assert text == cut.0 + "," + cut.1;
    }
  }

  /** `n` columns: the text cut at its first n - 1 commas; the last column may hold more of them. */
  lemma {:induction false} ColumnsIff(n: nat, text: string, cols: seq<string>)
    requires n >= 1
    ensures Columns(n, text) == Some(cols) <==>
            |cols| == n && JoinColumns(cols) == text && forall i :: 0 <= i < n - 1 ==> ',' !in cols[i]
  {
    if Columns(n, text).Some? {
      ColumnsFound(n, text);
    }
    if |cols| == n && CommasLast(cols) {
      ColumnsGiven(cols);
    }
  }

  function Commas(text: string): nat {
    if text == "" then 0 else (if text[0] == ',' then 1 else 0) + Commas(text[1..])
  }

  lemma {:induction false} CommasCut(text: string)
    ensures var cut := Cut(text, ',');
            if cut.None? then Commas(text) == 0 else Commas(text) == 1 + Commas(cut.value.1)
  {
    if text != "" && text[0] != ',' {
      CommasCut(text[1..]);
      var cut := Cut(text[1..], ',');
      if cut.Some? {
        assert text[IndexOf(text, ',') + 1..] == cut.value.1;
      }
    } else if text != "" {
      assert text[0 + 1..] == text[1..];
    }
  }

  /** A text has `n` columns exactly when it has at least n - 1 commas. */
  lemma {:induction false} EnoughCommas(n: nat, text: string)
    requires n >= 1
    ensures Columns(n, text).Some? <==> Commas(text) >= n - 1
    decreases n
  {
    if n > 1 {
      CommasCut(text);
      if Cut(text, ',').Some? {
        EnoughCommas(n - 1, Cut(text, ',').value.1);
      }
    }
  }

  /** Without a colon the whole value is the table, if it is not empty. */
  lemma {:induction false} BareTable(n: nat, table: string)
    requires n >= 2 && ':' !in table
    ensures Grammar(n, Some(table), |table| + 1) == Some(if table == "" then NOTHING else Params(Some(table), None, None))
    ensures Grammar(n, None, |table|) == Some(NOTHING)
  {
    CutAfter(table, ':', "");
    assert table[..|table|] == table;
  }

  /** With one colon there must be enough columns behind it. */
  lemma {:induction false} ColumnsAcceptedIff(n: nat, table: string, text: string)
    requires n >= 2 && ':' !in table && ':' !in text
    ensures var value := table + ":" + text;
            Grammar(n, Some(value), |value| + 1) ==
            if Commas(text) >= n - 1 then Some(Params(Some(table), Columns(n, text), None)) else None
  {
    assert table + ":" + text == table + [':'] + text;
    CutAfter(table, ':', text);
    CutAfter(text, ':', "");
    EnoughCommas(n, text);
  }

  /**
   * With two colons there must be enough columns between them or nothing, and a clause with its
   * prefix behind them; anything else is rejected.
   */
  lemma {:induction false} ClauseAcceptedIff(n: nat, table: string, text: string, clause: string)
    requires n >= 2 && ':' !in table && ':' !in text
    ensures var value := table + ":" + (text + ":" + clause);
            Grammar(n, Some(value), |value| + 1) ==
            if (text == "" || Commas(text) >= n - 1) && WherePrefix(clause) then
              Some(Params(Some(table), if text == "" then None else Columns(n, text), Some(Clause(clause))))
            else None
  {
    var rest := text + ":" + clause;
    assert table + ":" + rest == table + [':'] + rest && rest == text + [':'] + clause;
    CutAfter(table, ':', rest);
    CutAfter(text, ':', clause);
    EnoughCommas(n, text);
    PrefixAccepted(clause);
  }

  /**
   * Under the lengths uri.c stores, a value of one character is ignored, the map loses a character of
   * a bare table name, a colon at the end is ignored, and all else is as with the NUL counted.
   */
  lemma {:induction false} UriLengths(n: nat, value: string)
    requires n >= 2
    ensures |value| < 2 ==> Grammar(n, Some(value), |value|) == Some(NOTHING)
    ensures |value| >= 2 && ':' !in value ==>
              Grammar(n, Some(value), |value|) ==
              Some(Params(Some(if n == 2 then value[..|value| - 1] else value), None, None))
    ensures forall table :: |table| >= 1 && ':' !in table && value == table + ":" ==>
              Grammar(n, Some(value), |value|) == Some(Params(Some(table), None, None))
    ensures |value| >= 2 && ':' in value[..|value| - 1] ==>
              Grammar(n, Some(value), |value|) == Grammar(n, Some(value), |value| + 1)
  {
    if ':' !in value {
      CutAfter(value, ':', "");
    }
    forall table | |table| >= 1 && ':' !in table && value == table + ":"
      ensures Grammar(n, Some(value), |value|) == Some(Params(Some(table), None, None))
    {
      assert value == table + [':'] + "";
      CutAfter(table, ':', "");
    }
    if |value| >= 2 && ':' in value[..|value| - 1] {
      var i :| 0 <= i < |value| - 1 && value[..|value| - 1][i] == ':';
      assert value[i] == ':' && IndexOf(value, ':') <= i;
    }
  }
}

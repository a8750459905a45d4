/** What conf2sql.pl reads a line as, whichever way it is spaced. */
module LineLaws {
  import opened Prelude
  import opened Document
  import opened ConfLines
  import opened PlainLines
  import opened NormalForm

  /** The characters \s stands for: blank, tab, newline, carriage return, vertical tab, form feed. */
  const BLANKS := " \t\n\r\U{0B}\U{0C}"

  predicate OfBlanks(s: string) { forall c :: c in s ==> c in BLANKS }

  predicate Solid(s: string) { forall c :: c in s ==> c !in BLANKS }

  lemma {:induction false} BlanksAreSpaces(c: char)
    ensures c in BLANKS <==> IsSpace(c)
  {
    assert BLANKS == [' ', '\t', '\n', '\r', '\U{0B}', '\U{0C}'];
    assert BLANKS[0] == ' ' && BLANKS[1] == '\t' && BLANKS[2] == '\n';
    assert BLANKS[3] == '\r' && BLANKS[4] == '\U{0B}' && BLANKS[5] == '\U{0C}';
  }

  lemma {:induction false} SolidNoSpace(s: string)
    ensures Solid(s) <==> NoSpace(s)
    ensures OfBlanks(s) <==> Blanks(s)
  {
    forall c {
      BlanksAreSpaces(c);
    }
    if Blanks(s) {
      forall c | c in s ensures IsSpace(c) {
        var i :| 0 <= i < |s| && s[i] == c;
      }
    } else {
      assert exists i :: 0 <= i < |s| && !IsSpace(s[i]) && s[i] in s;
    }
  }

  // ----- blanks around a line, empty lines, comments

  lemma {:induction false} TrimLeftPad(pad: string, s: string)
    requires Blanks(pad)
    ensures TrimLeft(pad + s) == TrimLeft(s)
  {
    if pad == "" {
      assert pad + s == s;
    } else {
      assert (pad + s)[1..] == pad[1..] + s;
      TrimLeftPad(pad[1..], s);
    }
  }

  lemma {:induction false} TrimRightPad(s: string, pad: string)
    requires Blanks(pad)
    ensures TrimRight(s + pad) == TrimRight(s)
  {
    if pad == "" {
      assert s + pad == s;
    } else {
      assert (s + pad)[..|s + pad| - 1] == s + pad[..|pad| - 1];
      TrimRightPad(s, pad[..|pad| - 1]);
    }
  }

  lemma {:induction false} TrimLeftInner(s: string, pad: string)
    requires Blanks(pad)
    ensures TrimLeft(s + pad) == if TrimLeft(s) == "" then "" else TrimLeft(s) + pad
  {
    if s == "" {
      assert s + pad == pad;
      TrimLeftBlanks(pad);
    } else if IsSpace(s[0]) {
      assert (s + pad)[1..] == s[1..] + pad;
      TrimLeftInner(s[1..], pad);
    }
  }

  lemma {:induction false} TrimPads(before: string, s: string, after: string)
    requires Blanks(before) && Blanks(after)
    ensures Trim(before + s + after) == Trim(s)
  {
    assert before + s + after == before + (s + after);
    TrimLeftPad(before, s + after);
    TrimLeftInner(s, after);
    TrimRightPad(TrimLeft(s), after);
  }

  /** Whether a line is blank or a comment shows in the trimmed line. */
  lemma {:induction false} SkippedByTrim(raw: string)
    ensures IsBlank(raw) <==> Trim(raw) == ""
    ensures IsComment(raw) <==> Trim(raw) != "" && Trim(raw)[0] == '#'
  {
    TrimLeftSuffix(raw);
    TrimRightPrefix(TrimLeft(raw));
  }

  ghost predicate SameTrimmed(f: File, g: File) {
    && |f.lines| == |g.lines| && Trim(f.tail) == Trim(g.tail)
    && forall i :: 0 <= i < |f.lines| ==> Trim(f.lines[i]) == Trim(g.lines[i])
  }

  lemma {:induction false} SameJoined(line: string, f: File, g: File)
    requires SameTrimmed(f, g)
    ensures Joined(line, f).0 == Joined(line, g).0 && SameTrimmed(Joined(line, f).1, Joined(line, g).1)
    decreases |f.lines|, |f.tail| + |g.tail|, |line|
  {
    if Continues(line) {
      assert SameTrimmed(Advance(f), Advance(g));
      SameJoined(line[..|line| - 1] + Trim(NextLine(f)), Advance(f), Advance(g));
    }
  }

  lemma {:induction false} SameLogical(f: File, g: File)
    requires SameTrimmed(f, g)
    ensures Logical(f) == Logical(g)
    decreases |f.lines|
  {
    if f.lines != [] {
      SkippedByTrim(f.lines[0]);
      SkippedByTrim(g.lines[0]);
      assert SameTrimmed(Advance(f), Advance(g));
      SameJoined(Trim(f.lines[0]), Advance(f), Advance(g));
      SameLogical(
        if IsComment(f.lines[0]) || IsBlank(f.lines[0]) then Advance(f) else Joined(Trim(f.lines[0]), Advance(f)).1,
        if IsComment(f.lines[0]) || IsBlank(f.lines[0]) then Advance(g) else Joined(Trim(f.lines[0]), Advance(g)).1);
    }
  }

  /** Blanks of any kind before and after any line of a file do not matter. */
  lemma {:induction false} PaddingIgnored(f: File, before: seq<string>, after: seq<string>)
    requires |before| == |f.lines| == |after|
    requires forall i :: 0 <= i < |f.lines| ==> OfBlanks(before[i]) && OfBlanks(after[i])
    ensures var padded := seq(|f.lines|, i requires 0 <= i < |f.lines| => before[i] + f.lines[i] + after[i]);
            Tokens(File(padded, f.tail)) == Tokens(f)
  {
    var padded := seq(|f.lines|, i requires 0 <= i < |f.lines| => before[i] + f.lines[i] + after[i]);
    forall i | 0 <= i < |f.lines| ensures Trim(padded[i]) == Trim(f.lines[i]) {
      SolidNoSpace(before[i]);
      SolidNoSpace(after[i]);
      TrimPads(before[i], f.lines[i], after[i]);
    }
    SameLogical(File(padded, f.tail), f);
  }

  /** Blank lines and comments, indented or not, are skipped. */
  lemma {:induction false} SkippedLines(pad: string, text: string, f: File)
    requires OfBlanks(pad)
    ensures Tokens(File([pad] + f.lines, f.tail)) == Tokens(f)
    ensures Tokens(File([pad + "#" + text] + f.lines, f.tail)) == Tokens(f)
  {
    SolidNoSpace(pad);
    TrimLeftBlanks(pad);
    assert pad + "#" + text == pad + ("#" + text);
    TrimLeftPad(pad, "#" + text);
    assert ([pad] + f.lines)[1..] == f.lines && ([pad + "#" + text] + f.lines)[1..] == f.lines;
  }

  /** What follows the last newline is not read. */
  lemma {:induction false} UnterminatedLineIgnored(text: string)
    requires '\n' !in text
    ensures Split(text) == File([], text) && Tokens(Split(text)) == []
  {
    if text != "" {
      UnterminatedLineIgnored(text[1..]);
    }
  }

  // ----- the parts of a line

  /** A directive is a name, blanks of any kind and number, and the rest; a lone '<' is a name. */
  lemma {:induction false} DirectiveLine(name: string, blanks: string, value: string)
    requires name != "" && Solid(name) && (name[0] != '<' || name + blanks + value == "<")
    requires OfBlanks(blanks) && (blanks == "" ==> value == "") && (value != "" ==> value[0] !in BLANKS)
    ensures Classify(name + blanks + value) == Dir(Directive(name, value))
  {
    var line, after := name + blanks + value, blanks + value;
    assert line == name + after;
    SolidNoSpace(name);
    SolidNoSpace(blanks);
    if value != "" {
      BlanksAreSpaces(value[0]);
    }
    if after != "" {
      assert blanks[0] in blanks;
    }
    WordBefore(name, after);
    assert line[|name|..] == after;
    TrimLeftPad(blanks, value);
    TrimLeftNone(value);
  }

  /** A closing tag: the type up to the first blank, and anything behind it up to a final '>'. */
  lemma {:induction false} ClosingTag(typ: string, text: string)
    requires typ != "" && Solid(typ) && (text == "" || text[0] in BLANKS)
    ensures Classify("</" + typ + text + ">") == Close(typ)
  {
    var line, after := "</" + typ + text + ">", text + ">";
    SolidNoSpace(typ);
    if text == "" {
      assert line[2..] == (typ + ">") + "";
      BlanksAreSpaces('>');
      assert NoSpace(typ + ">");
      WordBefore(typ + ">", "");
      assert (typ + ">")[..|typ|] == typ;
    } else {
      BlanksAreSpaces(text[0]);
      assert line[2..] == typ + after;
      WordBefore(typ, after);
    }
  }

  /** Without a final '>', or with nothing or a blank behind the '/', its type is undefined. */
  lemma {:induction false} BadClosingTag(text: string)
    requires text == "" || text[|text| - 1] != '>' || text[0] in BLANKS || text == ">"
    ensures Classify("</" + text) == Close("")
  {
    var line := "</" + text;
    assert line[2..] == text;
    if text != "" && text[0] in BLANKS {
      BlanksAreSpaces(text[0]);
    } else if text == ">" {
      WordBefore(text, "");
      assert text + "" == text;
    }
  }

  lemma {:induction false} SpacedMatch(line: string, n: nat, blanks: string, value: string, after: string)
    requires 0 < n < |line| && line[1 + n..] == blanks + (value + ">" + after)
    requires Blanks(blanks) && (value != "" ==> !IsSpace(value[0])) && '>' !in after
    ensures MatchOpen(line, n) == Some((line[1..1 + n], value))
  {
    var rest := value + ">" + after;
    TrimLeftPad(blanks, rest);
    TrimLeftNone(rest);
    assert rest[|value|] == '>';
    forall j | |value| < j < |rest| ensures rest[j] != '>' {
      assert rest[j] == after[j - |value| - 1];
    }
    MatchAt(line, n, rest, |value|);
    assert rest[..|value|] == value;
  }

  lemma {:induction false} SpacedOpen(typ: string, blanks: string, value: string, after: string)
    requires typ != "" && NoSpace(typ) && blanks != "" && Blanks(blanks)
    requires (value != "" ==> !IsSpace(value[0])) && '>' !in after
    ensures OpenOf("<" + typ + blanks + value + ">" + after) == Open(typ, value)
  {
    var line, behind := "<" + typ + blanks + value + ">" + after, blanks + (value + ">" + after);
    assert line[1..] == typ + behind;
    WordBefore(typ, behind);
    assert line[1..1 + |typ|] == typ && line[1 + |typ|..] == behind;
    SpacedMatch(line, |typ|, blanks, value, after);
  }

  /**
   * An opening tag with blanks behind the type: the value runs to the last '>' of the line, which
   * anything may follow.
   */
  lemma {:induction false} OpeningTag(typ: string, blanks: string, value: string, after: string)
    requires typ != "" && Solid(typ) && typ[0] != '/' && blanks != "" && OfBlanks(blanks)
    requires (value != "" ==> value[0] !in BLANKS) && '>' !in after
    ensures Classify("<" + typ + blanks + value + ">" + after) == Open(typ, value)
  {
    var line := "<" + typ + blanks + value + ">" + after;
    SolidNoSpace(typ);
    SolidNoSpace(blanks);
    if value != "" {
      BlanksAreSpaces(value[0]);
    }
    assert line[1] == typ[0];
    SpacedOpen(typ, blanks, value, after);
  }

  lemma {:induction false} NoMatchBehind(line: string, n: nat, k: nat)
    requires 0 < k <= n < |line| && '>' !in line[1 + k..]
    ensures MatchOpen(line, n) == MatchOpen(line, k - 1)
    decreases n
  {
    TrimLeftSuffix(line[1 + n..]);
    assert line[1 + n..] == line[1 + k..][n - k..];
    if n > k {
      NoMatchBehind(line, n - 1, k);
    }
  }

  lemma {:induction false} GluedMatch(typ: string, after: string)
    requires typ != "" && NoSpace(typ) && '>' !in after
    ensures var line := "<" + typ + ">" + after; MatchOpen(line, |typ|) == Some((typ, ""))
  {
    var line, n, rest := "<" + typ + ">" + after, |typ|, ">" + after;
    assert line[1..1 + n] == typ && line[1 + n..] == rest;
    TrimLeftNone(rest);
    forall j | 0 < j < |rest| ensures rest[j] != '>' {
      assert rest[j] == after[j - 1];
    }
    MatchAt(line, n, rest, 0);
    assert rest[..0] == "";
  }

  lemma {:induction false} GluedOpen(typ: string, after: string)
    requires typ != "" && NoSpace(typ) && '>' !in after
    ensures OpenOf("<" + typ + ">" + after) == Open(typ, "")
  {
    var line, n := "<" + typ + ">" + after, |typ|;
    assert line[1..] == (typ + ">") + after;
    WordAtLeast(typ + ">", after);
    assert line[1 + (n + 1)..] == after;
    NoMatchBehind(line, |Word(line[1..])|, n + 1);
    GluedMatch(typ, after);
  }

  /** Without blanks before the last '>', the type runs up to that '>'. */
  lemma {:induction false} OpeningTagWithoutValue(typ: string, after: string)
    requires typ != "" && Solid(typ) && typ[0] != '/' && '>' !in after
    ensures Classify("<" + typ + ">" + after) == Open(typ, "")
  {
    var line := "<" + typ + ">" + after;
    SolidNoSpace(typ);
    assert line[1] == typ[0];
    GluedOpen(typ, after);
  }

  lemma {:induction false} WordAtLeast(w: string, rest: string)
    requires NoSpace(w)
    ensures |Word(w + rest)| >= |w|
  {
    if w != "" {
      assert (w + rest)[1..] == w[1..] + rest;
      WordAtLeast(w[1..], rest);
    }
  }

  /** A tag without '>', or with a blank or just '>' behind the '<', is not recognised. */
  lemma {:induction false} BadOpeningTag(text: string)
    requires text != "" && text[0] != '/'
    requires '>' !in text || text[0] in BLANKS || (text[0] == '>' && '>' !in text[1..])
    ensures Classify("<" + text) == Open("", "")
  {
    var line := "<" + text;
    assert line[1..] == text;
    if text[0] in BLANKS {
      BlanksAreSpaces(text[0]);
    } else {
      BlanksAreSpaces('>');
      BlanksAreSpaces(text[0]);
      assert line[2..] == text[1..];
      assert '>' !in line[2..];
      if |Word(text)| >= 1 {
        NoMatchBehind(line, |Word(text)|, 1);
      }
    }
  }

  // ----- continuation lines

  /** One more physical line: its indentation, and its text before the mark. */
  datatype Piece = Piece(pad: string, text: string)

  /** The physical lines behind a first line that ends in a mark; the last one has none. */
  function Physical(ps: seq<Piece>): seq<string> {
    if ps == [] then []
    else [ps[0].pad + ps[0].text + if |ps| == 1 then "" else "\\"] + Physical(ps[1..])
  }

  function Texts(ps: seq<Piece>): string {
    if ps == [] then "" else ps[0].text + Texts(ps[1..])
  }

  /** Indentation of any kind; texts that do not start with a blank; an end that is not a mark or a blank. */
  predicate Pieces(ps: seq<Piece>) {
    && ps != []
    && (forall i :: 0 <= i < |ps| ==> OfBlanks(ps[i].pad) && (ps[i].text != "" ==> ps[i].text[0] !in BLANKS))
    && var last := ps[|ps| - 1].text; last != "" && last[|last| - 1] !in BLANKS && last[|last| - 1] != '\\'
  }

  lemma {:induction false} PiecesRest(ps: seq<Piece>)
    requires Pieces(ps) && |ps| > 1
    ensures Pieces(ps[1..])
  {
    assert forall i :: 0 <= i < |ps| - 1 ==> ps[1..][i] == ps[i + 1];
  }

  lemma {:induction false} TextsFirst(line: string, ps: seq<Piece>)
    requires ps != []
    ensures line + Texts(ps) == line + ps[0].text + Texts(ps[1..])
  {
  }

  lemma {:induction false} TrimWhole(pad: string, s: string)
    requires Blanks(pad) && s != "" && !IsSpace(s[0]) && !IsSpace(s[|s| - 1])
    ensures Trim(pad + s) == s
  {
    TrimLeftPad(pad, s);
    TrimLeftNone(s);
  }

  lemma {:induction false} JoinedOne(line: string, raw: string, text: string, rest: seq<string>, tail: string)
    requires Trim(raw) == text
    ensures Joined(line + "\\", File([raw] + rest, tail)) == Joined(line + text, File(rest, tail))
  {
    var marked, f := line + "\\", File([raw] + rest, tail);
    assert marked[..|marked| - 1] == line;
    assert Advance(f).lines == rest;
  }

  /** What a piece adds to the line before it. */
  lemma {:induction false} PieceText(p: Piece, mark: string)
    requires OfBlanks(p.pad) && (p.text != "" ==> p.text[0] !in BLANKS)
    requires mark == "\\" || (mark == "" && p.text != "" && p.text[|p.text| - 1] !in BLANKS)
    ensures Trim(p.pad + p.text + mark) == p.text + mark
  {
    SolidNoSpace(p.pad);
    BlanksAreSpaces('\\');
    if p.text != "" {
      BlanksAreSpaces(p.text[0]);
      BlanksAreSpaces(p.text[|p.text| - 1]);
    }
    assert p.pad + p.text + mark == p.pad + (p.text + mark);
    TrimWhole(p.pad, p.text + mark);
  }

  /** The first piece is appended, with its mark if it has one. */
  lemma {:induction false} JoinedFirst(line: string, ps: seq<Piece>, rest: seq<string>, tail: string)
    requires Pieces(ps)
    ensures var mark := if |ps| == 1 then "" else "\\";
            Joined(line + "\\", File(Physical(ps) + rest, tail)) ==
            Joined(line + ps[0].text + mark, File(Physical(ps[1..]) + rest, tail))
  {
    var p := ps[0];
    var mark := if |ps| == 1 then "" else "\\";
    var behind := Physical(ps[1..]) + rest;
    PieceText(p, mark);
    assert Physical(ps) + rest == [p.pad + p.text + mark] + behind;
    JoinedOne(line, p.pad + p.text + mark, p.text + mark, behind, tail);
    assert line + (p.text + mark) == line + p.text + mark;
  }

  /** All the text of the continuation lines is kept, and nothing else. */
  lemma {:induction false} JoinedPieces(line: string, ps: seq<Piece>, rest: seq<string>, tail: string)
    requires Pieces(ps)
    ensures Joined(line + "\\", File(Physical(ps) + rest, tail)) == (line + Texts(ps), File(rest, tail))
    decreases |ps|
  {
    JoinedFirst(line, ps, rest, tail);
    TextsFirst(line, ps);
    if |ps| == 1 {
      LastPiece(line, ps, rest, tail);
    } else {
      PiecesRest(ps);
      JoinedPieces(line + ps[0].text, ps[1..], rest, tail);
    }
  }

  lemma {:induction false} LastPiece(line: string, ps: seq<Piece>, rest: seq<string>, tail: string)
    requires Pieces(ps) && |ps| == 1
    ensures Joined(line + ps[0].text + "", File(Physical(ps[1..]) + rest, tail)) == (line + Texts(ps), File(rest, tail))
  {
    var text := ps[0].text;
    var whole := line + text;
    assert Texts(ps[1..]) == "" && Texts(ps) == text;
    assert Physical(ps[1..]) + rest == rest;
    assert line + text + "" == whole && whole[|whole| - 1] == text[|text| - 1];
  }

  predicate Starts(line: string) { line != "" && line[0] !in BLANKS && line[0] != '#' }

  lemma {:induction false} FirstLogical(line: string, f: File)
    requires Starts(line) && line[|line| - 1] !in BLANKS
    ensures var r := Joined(line, f);
            Tokens(File([line] + f.lines, f.tail)) == [Classify(r.0)] + Tokens(r.1)
  {
    BlanksAreSpaces(line[0]);
    BlanksAreSpaces(line[|line| - 1]);
    TrimLeftNone(line);
    assert ([line] + f.lines)[1..] == f.lines;
    var r := Joined(line, f);
    assert Logical(File([line] + f.lines, f.tail)) == [r.0] + Logical(r.1);
    MapConcat(Classify, [r.0], Logical(r.1));
    assert Map(Classify, [r.0]) == [Classify(r.0)];
  }

  lemma {:induction false} BrokenFirst(line: string, ps: seq<Piece>, rest: seq<string>, tail: string)
    requires Starts(line) && Pieces(ps)
    ensures Tokens(File([line + "\\"] + (Physical(ps) + rest), tail)) ==
            [Classify(line + Texts(ps))] + Tokens(File(rest, tail))
  {
    BlanksAreSpaces('\\');
    JoinedPieces(line, ps, rest, tail);
    FirstLogical(line + "\\", File(Physical(ps) + rest, tail));
  }

  lemma {:induction false} UnbrokenFirst(line: string, rest: seq<string>, tail: string)
    requires Starts(line) && line[|line| - 1] !in BLANKS && line[|line| - 1] != '\\'
    ensures Tokens(File([line] + rest, tail)) == [Classify(line)] + Tokens(File(rest, tail))
  {
    FirstLogical(line, File(rest, tail));
  }

  /**
   * A line broken by marks, any number of times and with indented pieces, reads as the unbroken
   * line, and what follows reads as it would behind that.
   */
  lemma {:induction false} BrokenLine(line: string, ps: seq<Piece>, rest: seq<string>, tail: string)
    requires Starts(line) && Pieces(ps)
    ensures Tokens(File([line + "\\"] + (Physical(ps) + rest), tail)) == Tokens(File([line + Texts(ps)] + rest, tail))
  {
    TextsEnd(ps);
    BrokenFirst(line, ps, rest, tail);
    UnbrokenFirst(line + Texts(ps), rest, tail);
  }

  lemma {:induction false} TextsEnd(ps: seq<Piece>)
    requires Pieces(ps)
    ensures Texts(ps) != ""
    ensures var last := Texts(ps)[|Texts(ps)| - 1]; last !in BLANKS && last != '\\'
    decreases |ps|
  {
    if |ps| == 1 {
      assert Texts(ps[1..]) == "";
    } else {
      PiecesRest(ps);
      TextsEnd(ps[1..]);
      assert Texts(ps)[|Texts(ps)| - 1] == Texts(ps[1..])[|Texts(ps[1..])| - 1];
    }
  }

  /** A mark before the unterminated last line joins that too; before the end it is dropped. */
  lemma {:induction false} BrokenAtEnd(line: string, text: string)
    requires Starts(line) && text != "" && text[0] !in BLANKS
    requires text[|text| - 1] !in BLANKS && text[|text| - 1] != '\\'
    ensures Tokens(File([line + "\\"], text)) == Tokens(File([line + text], ""))
  {
    var whole, marked := line + text, line + "\\";
    BlanksAreSpaces('\\');
    BlanksAreSpaces(text[0]);
    BlanksAreSpaces(text[|text| - 1]);
    TrimWhole("", text);
    assert "" + text == text;
    assert marked[..|marked| - 1] == line;
    assert Advance(File([], text)) == File([], "");
    assert whole[|whole| - 1] == text[|text| - 1];
    FirstLogical(marked, File([], text));
    FirstLogical(whole, File([], ""));
    assert [marked] + [] == [marked] && [whole] + [] == [whole];
    assert Joined(whole, File([], "")) == (whole, File([], ""));
  }
}

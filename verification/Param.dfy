/** The conf, ctx and map parameters of param.c: three instances of one grammar. */
module Param {
  import opened Prelude
  import opened CStrings
  import opened UrlDecode

  // ----- the grammar: table[:column,...,column][:where=...]

  datatype Params = Params(table: Option<string>, cols: Option<seq<string>>, where: Option<string>)

  const NOTHING := Params(None, None, None)

  /** `n` columns separated by commas; the last one takes everything that is left. */
  function Columns(n: nat, text: string): Option<seq<string>>
    requires n >= 1
    decreases n
  {
    if n == 1 then Some([text])
    else match Cut(text, ',')
      case None => None
      case Some(cut) =>
        match Columns(n - 1, cut.1)
        case None => None
        case Some(cols) => Some([cut.0] + cols)
  }

  function Upper(c: char): char {
    if 'a' <= c <= 'z' then (c as int - 32) as char else c
  }

  /** strncasecmp with "where=". */
  predicate SaysWhere(s: string) {
    |s| >= 6 && forall i :: 0 <= i < 6 ==> Upper(s[i]) == "WHERE="[i]
  }

  /** A clause starts with "where=", each letter in either case. */
  predicate WherePrefix(s: string) {
    && |s| >= 6 && (s[0] == 'w' || s[0] == 'W') && (s[1] == 'h' || s[1] == 'H') && (s[2] == 'e' || s[2] == 'E')
    && (s[3] == 'r' || s[3] == 'R') && (s[4] == 'e' || s[4] == 'E') && s[5] == '='
  }

  lemma {:induction false} LetterIs(c: char, lower: char, upper: char)
    requires 'a' <= lower <= 'z' && upper as int == lower as int - 32
    ensures Upper(c) == upper <==> c == lower || c == upper
  {
  }

  lemma {:induction false} PrefixAccepted(s: string)
    ensures SaysWhere(s) <==> WherePrefix(s)
  {
    if |s| >= 6 {
      LetterIs(s[0], 'w', 'W');
      LetterIs(s[1], 'h', 'H');
      LetterIs(s[2], 'e', 'E');
      LetterIs(s[3], 'r', 'R');
      LetterIs(s[4], 'e', 'E');
      assert Upper(s[5]) == '=' <==> s[5] == '=';
      var w := "WHERE=";
      assert w[0] == 'W' && w[1] == 'H' && w[2] == 'E' && w[3] == 'R' && w[4] == 'E' && w[5] == '=';
    }
  }

  /** The decoded clause, prefix included, as a C string. */
  function Clause(s: string): string {
    Decoded(s)[..Strlen(Decoded(s))]
  }

  predicate TwoColons(s: string) { Cut(s, ':').Some? && ':' in Cut(s, ':').value.1 }

  /**
   * A value is stored with its length, which counts the terminating NUL or not. The last parameter
   * of a URI is stored with a larger one; that is harmless where both colons the parsers look for
   * are found inside the value.
   */
  predicate StoredAs(s: string, vsz: nat) {
    vsz == |s| + 1 || vsz == |s| || (vsz > |s| && TwoColons(s))
  }

  /**
   * The grammar with `n` columns for a value stored under length `vsz`; None is EINVAL. The map
   * parser, the one with two columns, drops the last counted character of a bare table name.
   */
  function Grammar(n: nat, value: Option<string>, vsz: nat): Option<Params>
    requires n >= 2 && (value.Some? ==> StoredAs(value.value, vsz))
  {
    if value.None? || vsz < 2 then Some(NOTHING)
    else match Cut(value.value, ':')
      case None => Some(Params(Some(if n == 2 then value.value[..vsz - 1] else value.value), None, None))
      case Some(cut) =>
        if cut.1 == "" && vsz == |value.value| then Some(Params(Some(cut.0), None, None))
        else Rest(n, cut.0, cut.1)
  }

  /** What follows the first colon: columns, unless a second colon comes at once, and a clause. */
  function Rest(n: nat, table: string, rest: string): Option<Params>
    requires n >= 2
  {
    match Cut(rest, ':')
    case None =>
      (match Columns(n, rest)
       case None => None
       case Some(cols) => Some(Params(Some(table), Some(cols), None)))
    case Some(cut) =>
      if cut.0 == "" then WithClause(table, None, cut.1)
      else
        match Columns(n, cut.0)
        case None => None
        case Some(cols) => WithClause(table, Some(cols), cut.1)
  }

  function WithClause(table: string, cols: Option<seq<string>>, s: string): Option<Params> {
    if SaysWhere(s) then Some(Params(Some(table), cols, Some(Clause(s)))) else None
  }

  // ----- reading it off a NUL-terminated buffer

  /** The first `c` between two positions; the second one when there is none. */
  function Find(buf: string, off: nat, end: nat, c: char): (i: nat)
    requires off <= end <= |buf|
    ensures off <= i <= end && (i < end ==> buf[i] == c)
    ensures forall j :: off <= j < i ==> buf[j] != c
    decreases end - off
  {
    if off < end && buf[off] != c then Find(buf, off + 1, end, c) else off
  }

  ghost predicate Occurs(buf: string, from: nat, c: char) {
    exists i :: from <= i < |buf| && buf[i] == c
  }

  /** memchr stops at the first hit; up to there, or else in all, it stays inside the buffer. */
  function Memchr(buf: string, off: nat, n: nat, c: char): Option<nat>
    requires off <= |buf| && (off + n <= |buf| || Occurs(buf, off, c))
  {
    var end := if off + n <= |buf| then off + n else |buf|;
    var i := Find(buf, off, end, c);
    if i == end then None else Some(i)
  }

  /** pstrndup: at most `n` characters, stopping at a NUL. */
  function Strndup(buf: string, off: nat, n: nat): string
    requires off + n <= |buf|
  {
    buf[off..off + n][..Strlen(buf[off..off + n])]
  }

  ghost predicate CString(buf: string) {
    buf != "" && Strlen(buf) == |buf| - 1
  }

  /** What pstrndup copies from a range of a C string. */
  lemma {:induction false} RangeText(buf: string, off: nat, n: nat)
    requires CString(buf) && off + n <= |buf|
    ensures Strndup(buf, off, n) ==
            if off + n <= |buf| - 1 then buf[off..off + n] else if n == 0 then "" else buf[off..|buf| - 1]
  {
  }

  /** Where memchr finds a character of that text. */
  lemma {:induction false} RangeFind(buf: string, off: nat, n: nat, c: char)
    requires CString(buf) && off + n <= |buf| && c != '\0'
    ensures var t := Strndup(buf, off, n);
            Memchr(buf, off, n, c) == if IndexOf(t, c) == |t| then None else Some(off + IndexOf(t, c))
  {
    var t := Strndup(buf, off, n);
    var i := Find(buf, off, off + n, c);
    RangeText(buf, off, n);
    assert t == buf[off..off + |t|] && |t| <= n;
    assert off + |t| < off + n ==> buf[off + |t|] == '\0' && off + n == |buf|;
    IndexOfIs(t, c, if i < off + n then i - off else |t|);
  }

  lemma {:induction false} SubRange(buf: string, off: nat, n: nat, k: nat)
    requires CString(buf) && off + n <= |buf| && k <= |Strndup(buf, off, n)|
    ensures k <= n && Strndup(buf, off, k) == Strndup(buf, off, n)[..k]
    ensures Strndup(buf, off + k, n - k) == Strndup(buf, off, n)[k..]
  {
    RangeText(buf, off, n);
    RangeText(buf, off, k);
    RangeText(buf, off + k, n - k);
  }

  /** One column up to the next comma of the range, and the range that is left. */
  method TakeColumn(buf: string, off: nat, n: nat) returns (col: Option<string>, off1: nat, n1: nat)
    requires CString(buf) && off + n <= |buf|
    ensures off <= off1 && off1 + n1 == off + n
    ensures Cut(Strndup(buf, off, n), ',') == if col.None? then None else Some((col.value, Strndup(buf, off1, n1)))
  {
    RangeFind(buf, off, n, ',');
    ghost var t := Strndup(buf, off, n);
    var ptr := Memchr(buf, off, n, ',');
    if ptr.None? {
      return None, off, n;
    }
    var sz := ptr.value - off;
    SubRange(buf, off, n, sz);
    SubRange(buf, off, n, sz + 1);
    col := Some(Strndup(buf, off, sz));
    off1, n1 := ptr.value + 1, n - sz - 1;
  }

  /** Where the counted length runs past the buffer, the search ends before its end. */
  lemma {:induction false} MemchrInside(buf: string, off: nat, n: nat, c: char)
    requires off <= |buf| < off + n && Occurs(buf, off, c)
    ensures Memchr(buf, off, n, c).Some? && Memchr(buf, off, |buf| - off, c) == Memchr(buf, off, n, c)
  {
  }

  /**
   * The colon search restarted at offset len(last column) lands on the colon after the columns:
   * there is none among the columns, and they are at least as long as the last of them.
   */
  lemma {:induction false} RestartFindsDelimiter(buf: string, v: nat, vsz: nat, last: nat)
    requires v <= |buf| && (v + vsz <= |buf| || Occurs(buf, v, ':')) && last <= vsz
    requires if Memchr(buf, v, vsz, ':').Some? then v + last <= Memchr(buf, v, vsz, ':').value else v + vsz <= |buf|
    ensures v + last <= |buf| && (v + vsz <= |buf| || Occurs(buf, v + last, ':'))
    ensures Memchr(buf, v + last, vsz - last, ':') == Memchr(buf, v, vsz, ':')
  {
  }

  /** The clause after the colon at `ptr`. */
  method TakeWhere(buf: string, ptr: nat) returns (where: Option<string>)
    requires CString(buf) && ptr < |buf| - 1
    ensures var s := buf[ptr + 1..|buf| - 1]; where == if WherePrefix(s) then Some(Clause(s)) else None
  {
    var s := Strndup(buf, ptr + 1, |buf| - ptr - 1);
    RangeText(buf, ptr + 1, |buf| - ptr - 1);
    PrefixAccepted(s);
    if !SaysWhere(s) {
      return None;
    }
    var dst, wheresz := Decode(s, |s|);
    where := Some(dst[..wheresz]);
    assert dst[..wheresz] == Clause(s);
  }

  // ----- the three parsers

  /** No value, an empty one, or just a table name, of which `sz` characters are copied. */
  method TakeShort(value: Option<string>, total: nat, sz: nat) returns (done: Option<Params>)
    requires value.Some? ==> '\0' !in value.value && StoredAs(value.value, total) && sz <= total
    ensures done.None? <==> value.Some? && total >= 2 && Cut(value.value, ':').Some?
    ensures done.Some? ==>
              done.value == if value.None? || total < 2 then NOTHING
                            else Params(Some(if sz <= |value.value| then value.value[..sz] else value.value), None, None)
  {
    if value.None? || total < 2 {
      return Some(NOTHING);
    }
    if IndexOf(value.value, ':') < |value.value| {
      return None;
    }
    var buf := value.value + "\0";
    StrlenIs(buf, |value.value|);
    RangeText(buf, 0, sz);
    assert buf[0..|value.value|] == value.value;
    assert sz <= |value.value| ==> buf[0..sz] == value.value[..sz];
    done := Some(Params(Some(Strndup(buf, 0, sz)), None, None));
  }

  /**
   * The steps before the columns: the table up to the first colon, then the second colon if there
   * is one. The column text runs to it, or to the end of the buffer with its NUL.
   */
  method TakeHead(value: string, total: nat)
      returns (buf: string, table: string, v: nat, vsz: nat, ptr: Option<nat>, colsz: nat)
    requires '\0' !in value && Cut(value, ':').Some? && StoredAs(value, total)
    ensures buf == value + "\0" && v == IndexOf(value, ':') + 1 && v + vsz == total
    ensures CString(buf) && table == value[..v - 1]
    ensures Headed(value, v, vsz, ptr, colsz)
  {
    buf := value + "\0";
    StrlenIs(buf, |value|);
    FirstColon(value, total);
    ptr := Memchr(buf, 0, total, ':');
    var sz := ptr.value;
    RangeText(buf, 0, sz);
    table := Strndup(buf, 0, sz);
    v, vsz := ptr.value + 1, total - sz - 1;
    RestReachable(value, v, vsz);
    ptr := Memchr(buf, v, vsz, ':');
    if ptr.Some? {
      colsz := 0;
      if ptr.value != v {
        colsz := ptr.value - v;
      }
    } else {
      colsz := vsz;
    }
  }

  lemma {:induction false} FirstColon(value: string, total: nat)
    requires Cut(value, ':').Some? && StoredAs(value, total)
    ensures Occurs(value + "\0", 0, ':')
    ensures Memchr(value + "\0", 0, total, ':') == Some(IndexOf(value, ':'))
  {
    assert (value + "\0")[IndexOf(value, ':')] == ':';
  }

  /** The search for the second colon stays inside the buffer. */
  lemma {:induction false} RestReachable(value: string, v: nat, vsz: nat)
    requires Cut(value, ':').Some? && v == IndexOf(value, ':') + 1 && StoredAs(value, v + vsz)
    ensures v + vsz <= |value| + 1 || Occurs(value + "\0", v, ':')
  {
    if v + vsz > |value| + 1 {
      var i :| 0 <= i < |value[v..]| && value[v..][i] == ':';
      assert (value + "\0")[v + i] == ':';
    }
  }

  /** The state of the parsers before the columns: the second colon and the length of the columns. */
  ghost predicate Headed(value: string, v: nat, vsz: nat, ptr: Option<nat>, colsz: nat) {
    && '\0' !in value && Cut(value, ':').Some?
    && v == IndexOf(value, ':') + 1 && StoredAs(value, v + vsz)
    && (v + vsz <= |value| + 1 || Occurs(value + "\0", v, ':'))
    && ptr == Memchr(value + "\0", v, vsz, ':')
    && colsz == if ptr.Some? then ptr.value - v else vsz
  }

  lemma {:induction false} RestText(value: string, v: nat, vsz: nat)
    requires '\0' !in value && v <= |value| <= v + vsz <= |value| + 1
    ensures CString(value + "\0") && Strndup(value + "\0", v, vsz) == value[v..]
  {
    var buf := value + "\0";
    StrlenIs(buf, |value|);
    RangeText(buf, v, vsz);
    assert buf[v..|value|] == value[v..];
  }

  lemma {:induction false} RestOfBuffer(value: string, v: nat, vsz: nat)
    requires '\0' !in value && v <= |value| <= v + vsz <= |value| + 1
    ensures CString(value + "\0") && Strndup(value + "\0", v, vsz) == value[v..]
    ensures Memchr(value + "\0", v, vsz, ':') ==
            if IndexOf(value[v..], ':') == |value[v..]| then None else Some(v + IndexOf(value[v..], ':'))
  {
    RestText(value, v, vsz);
    RangeFind(value + "\0", v, vsz, ':');
  }

  /** Where the stored length runs past the buffer, the searches end before its end. */
  lemma {:induction false} HeadedInside(value: string, v: nat, vsz: nat, ptr: Option<nat>, colsz: nat) returns (inside: nat)
    requires Headed(value, v, vsz, ptr, colsz)
    ensures inside <= vsz && |value| <= v + inside <= |value| + 1 && Headed(value, v, inside, ptr, colsz)
    ensures ptr.None? ==> inside == vsz
  {
    inside := vsz;
    if v + vsz > |value| + 1 {
      inside := |value| + 1 - v;
      MemchrInside(value + "\0", v, vsz, ':');
    }
  }

  lemma {:induction false} CutAt(value: string, v: nat, k: nat)
    requires v <= |value| && k == IndexOf(value[v..], ':') < |value[v..]|
    ensures Cut(value[v..], ':') == Some((value[v..][..k], (value + "\0")[v + k + 1..|value|]))
  {
    assert (value + "\0")[v + k + 1..|value|] == value[v..][k + 1..];
  }

  lemma {:induction false} SecondColon(value: string, v: nat, n: nat, k: nat)
    requires '\0' !in value && v <= |value| <= v + n <= |value| + 1
    requires Memchr(value + "\0", v, n, ':') == Some(v + k)
    ensures v + k < |value| && Strndup(value + "\0", v, k) == value[v..][..k]
    ensures Cut(value[v..], ':') == Some((value[v..][..k], (value + "\0")[v + k + 1..|value|]))
  {
    RestOfBuffer(value, v, n);
    CutAt(value, v, k);
    RangeText(value + "\0", v, k);
    assert (value + "\0")[v..v + k] == value[v..][..k];
  }

  lemma {:induction false} RestMeans(value: string, v: nat, n: nat, ptr: Option<nat>, colsz: nat)
    requires '\0' !in value && v <= |value| <= v + n <= |value| + 1
    requires ptr == Memchr(value + "\0", v, n, ':') && colsz == if ptr.Some? then ptr.value - v else n
    ensures colsz <= n
    ensures ptr.None? ==> Strndup(value + "\0", v, colsz) == value[v..] && Cut(value[v..], ':') == None
    ensures ptr.Some? ==>
              && ptr.value < |value| && (colsz == 0 <==> Strndup(value + "\0", v, colsz) == "")
              && Cut(value[v..], ':') ==
                 Some((Strndup(value + "\0", v, colsz), (value + "\0")[ptr.value + 1..|value|]))
  {
    RestOfBuffer(value, v, n);
    if ptr.Some? {
      SecondColon(value, v, n, colsz);
    }
  }

  /** What those steps mean for the text after the first colon. */
  lemma {:induction false} HeadMeans(value: string, v: nat, vsz: nat, ptr: Option<nat>, colsz: nat)
    requires Headed(value, v, vsz, ptr, colsz)
    ensures Cut(value, ':') == Some((value[..v - 1], value[v..]))
    ensures CString(value + "\0") && colsz <= vsz && v + colsz <= |value| + 1
    ensures ptr.None? ==> v + vsz <= |value| + 1 && Strndup(value + "\0", v, colsz) == value[v..]
    ensures ptr.Some? ==> v <= ptr.value < |value| && (colsz == 0 <==> Strndup(value + "\0", v, colsz) == "")
    ensures Cut(value[v..], ':') ==
            if ptr.None? then None
            else Some((Strndup(value + "\0", v, colsz), (value + "\0")[ptr.value + 1..|value|]))
  {
    HeadIsCString(value);
    var inside := HeadedInside(value, v, vsz, ptr, colsz);
    RestMeans(value, v, inside, ptr, colsz);
  }

  /** The columns in the range, and the length of the last one. */
  method ConfColumns(buf: string, v: nat, colsz: nat) returns (cols: Option<seq<string>>, last: nat)
    requires CString(buf) && v + colsz <= |buf|
    ensures cols == Columns(3, Strndup(buf, v, colsz)) && last <= colsz
  {
    var id, off, sz := TakeColumn(buf, v, colsz);
    if id.None? {
      return None, 0;
    }
    var name;
    name, off, sz := TakeColumn(buf, off, sz);
    if name.None? {
      return None, 0;
    }
    cols, last := Some([id.value] + ([name.value] + [Strndup(buf, off, sz)])), sz;
  }

  method CtxColumns(buf: string, v: nat, colsz: nat) returns (cols: Option<seq<string>>, last: nat)
    requires CString(buf) && v + colsz <= |buf|
    ensures cols == Columns(4, Strndup(buf, v, colsz)) && last <= colsz
  {
    var id, off, sz := TakeColumn(buf, v, colsz);
    if id.None? {
      return None, 0;
    }
    var parentId;
    parentId, off, sz := TakeColumn(buf, off, sz);
    if parentId.None? {
      return None, 0;
    }
    var typ;
    typ, off, sz := TakeColumn(buf, off, sz);
    if typ.None? {
      return None, 0;
    }
    cols, last := Some([id.value] + ([parentId.value] + ([typ.value] + [Strndup(buf, off, sz)]))), sz;
  }

  method MapColumns(buf: string, v: nat, colsz: nat) returns (cols: Option<seq<string>>, last: nat)
    requires CString(buf) && v + colsz <= |buf|
    ensures cols == Columns(2, Strndup(buf, v, colsz)) && last <= colsz
  {
    var confId, off, sz := TakeColumn(buf, v, colsz);
    if confId.None? {
      return None, 0;
    }
    cols, last := Some([confId.value] + [Strndup(buf, off, sz)]), sz;
  }

  /** What the parsers answer once they have the columns and the second colon. */
  function Answer(
      buf: string, table: string, ptr: Option<nat>, colsz: nat, cols: Option<seq<string>>): Option<Params>
    requires ptr.Some? ==> ptr.value < |buf| - 1
  {
    if colsz != 0 && cols.None? then None
    else if ptr.None? then Some(Params(Some(table), cols, None))
    else WithClause(table, cols, buf[ptr.value + 1..|buf| - 1])
  }

  /** The steps together are the grammar. */
  lemma {:induction false} Assemble(
      n: nat, value: string, v: nat, vsz: nat, ptr: Option<nat>, colsz: nat, cols: Option<seq<string>>)
    requires n >= 2 && v + vsz >= 2 && Headed(value, v, vsz, ptr, colsz) && v + colsz <= |value| + 1
    requires cols == if colsz == 0 then None else Columns(n, Strndup(value + "\0", v, colsz))
    requires ptr.Some? ==> ptr.value < |value|
    ensures Grammar(n, Some(value), v + vsz) == Answer(value + "\0", value[..v - 1], ptr, colsz, cols)
  {
    HeadMeans(value, v, vsz, ptr, colsz);
  }

  method ParseConf(value: Option<string>, total: nat) returns (r: Option<Params>)
    requires value.Some? ==> '\0' !in value.value && StoredAs(value.value, total)
    ensures r == Grammar(3, value, total)
  {
    r := TakeShort(value, total, total);
    if r.Some? {
      assert value.Some? ==> value.value[..|value.value|] == value.value;
      return r;
    }
    var buf, table, v, vsz, ptr, colsz := TakeHead(value.value, total);
    HeadMeans(value.value, v, vsz, ptr, colsz);
    var cols, last := None, 0;
    if colsz != 0 {
      cols, last := ConfColumns(buf, v, colsz);
    }
    r := TakeTail(value.value, table, v, vsz, ptr, colsz, cols, last);
    Assemble(3, value.value, v, vsz, ptr, colsz, cols);
  }

  method ParseCtx(value: Option<string>, total: nat) returns (r: Option<Params>)
    requires value.Some? ==> '\0' !in value.value && StoredAs(value.value, total)
    ensures r == Grammar(4, value, total)
  {
    r := TakeShort(value, total, total);
    if r.Some? {
      assert value.Some? ==> value.value[..|value.value|] == value.value;
      return r;
    }
    var buf, table, v, vsz, ptr, colsz := TakeHead(value.value, total);
    HeadMeans(value.value, v, vsz, ptr, colsz);
    var cols, last := None, 0;
    if colsz != 0 {
      cols, last := CtxColumns(buf, v, colsz);
    }
    r := TakeTail(value.value, table, v, vsz, ptr, colsz, cols, last);
    Assemble(4, value.value, v, vsz, ptr, colsz, cols);
  }

  /** The map parser copies one character less of a bare table name. */
  method ParseMap(value: Option<string>, total: nat) returns (r: Option<Params>)
    requires value.Some? ==> '\0' !in value.value && StoredAs(value.value, total)
    ensures r == Grammar(2, value, total)
  {
    r := TakeShort(value, total, if total > 0 then total - 1 else 0);
    if r.Some? {
      return r;
    }
    var buf, table, v, vsz, ptr, colsz := TakeHead(value.value, total);
    HeadMeans(value.value, v, vsz, ptr, colsz);
    var cols, last := None, 0;
    if colsz != 0 {
      cols, last := MapColumns(buf, v, colsz);
    }
    r := TakeTail(value.value, table, v, vsz, ptr, colsz, cols, last);
    Assemble(2, value.value, v, vsz, ptr, colsz, cols);
  }

  /** The steps after the columns: the second colon is searched for again, then the clause. */
  method TakeTail(
      value: string, table: string, v: nat, vsz: nat, colon: Option<nat>, colsz: nat,
      cols: Option<seq<string>>, last: nat) returns (r: Option<Params>)
    requires Headed(value, v, vsz, colon, colsz) && v + colsz <= |value| + 1
    requires (colon.Some? ==> colon.value < |value|) && last <= colsz
    ensures r == Answer(value + "\0", table, colon, colsz, cols)
  {
    var buf, ptr := value + "\0", colon;
    HeadIsCString(value);
    if colsz != 0 {
      if cols.None? {
        return None;
      }
      RestartInValue(value, v, vsz, colon, colsz, last);
      ptr := Memchr(buf, v + last, vsz - last, ':');
    }
    r := TakeClause(buf, table, cols, ptr);
  }

  lemma {:induction false} HeadIsCString(value: string)
    requires '\0' !in value
    ensures CString(value + "\0")
  {
    StrlenIs(value + "\0", |value|);
  }

  lemma {:induction false} RestartInValue(
      value: string, v: nat, vsz: nat, ptr: Option<nat>, colsz: nat, last: nat)
    requires Headed(value, v, vsz, ptr, colsz) && v + colsz <= |value| + 1 && last <= colsz
    ensures last <= vsz && v + last <= |value| + 1
    ensures v + vsz <= |value| + 1 || Occurs(value + "\0", v + last, ':')
    ensures Memchr(value + "\0", v + last, vsz - last, ':') == ptr
  {
    HeadMeans(value, v, vsz, ptr, colsz);
    RestartFindsDelimiter(value + "\0", v, vsz, last);
  }

  /** The clause, if there is a second colon. */
  method TakeClause(buf: string, table: string, cols: Option<seq<string>>, ptr: Option<nat>) returns (r: Option<Params>)
    requires CString(buf) && (ptr.Some? ==> ptr.value < |buf| - 1)
    ensures ptr.None? ==> r == Some(Params(Some(table), cols, None))
    ensures ptr.Some? ==> r == WithClause(table, cols, buf[ptr.value + 1..|buf| - 1])
  {
    if ptr.None? {
      return Some(Params(Some(table), cols, None));
    }
    PrefixAccepted(buf[ptr.value + 1..|buf| - 1]);
    var where := TakeWhere(buf, ptr.value);
    if where.None? {
      return None;
    }
    r := Some(Params(Some(table), cols, where));
  }
}

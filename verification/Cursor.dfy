/** The fake file of mod_conf_sql.c as a state machine: open, read, close and the postparse event. */
module Cursor {

  /** The module's globals: whether the line array exists, its lines, the read index, the pool. */
  datatype State = State(built: bool, lines: seq<string>, cursor: nat, pool: bool)

  const INITIAL := State(false, [], 0, false)

  /** What reading the database comes to: nothing built, or an array built and then closed or not. */
  datatype Outcome = Unread | Built(lines: seq<string>, closed: bool)

  datatype Event =
    | Open(uriOk: bool, db: Outcome)
    | Read
    | Close
    | Postparse

  datatype Result = Done | Failed | Line(text: string) | Eof

  function Next(s: State, e: Event): (State, Result) {
    match e
    case Open(uriOk, db) =>
      var started := s.(pool := true);
      if !uriOk then (started, Failed)
      else if s.built then (started, Done)
      else (match db
            case Unread => (started, Failed)
            case Built(lines, closed) =>
              (started.(built := true, lines := lines), if closed then Done else Failed))
    case Read =>
      if !s.built then (s, Failed)
      else if s.cursor < |s.lines| then (s.(cursor := s.cursor + 1), Line(s.lines[s.cursor]))
      else (s, Eof)
    case Close => (s, Done)
    case Postparse => (if s.pool then INITIAL else s, Done)
  }

  /**
   * An open succeeds exactly with a good URI and an array that is there already or is now built and
   * the connection closed. It never moves the cursor nor replaces an array.
   */
  lemma {:induction false} OpenSucceedsIff(s: State, uriOk: bool, db: Outcome)
    ensures var (t, r) := Next(s, Open(uriOk, db));
            && (r == Done <==> uriOk && (s.built || (db.Built? && db.closed)))
            && (r != Done ==> r == Failed)
            && t.pool && t.cursor == s.cursor
            && (t.built <==> s.built || (uriOk && db.Built?))
            && t.lines == if !s.built && uriOk && db.Built? then db.lines else s.lines
  {
  }

  /** A read fails without an array, reports the end behind it, and else returns the next line. */
  lemma {:induction false} ReadReturns(s: State)
    ensures var (t, r) := Next(s, Read);
            && (r == Failed <==> !s.built)
            && (r == Eof <==> s.built && s.cursor >= |s.lines|)
            && (s.built && s.cursor < |s.lines| ==> r == Line(s.lines[s.cursor]) && t == s.(cursor := s.cursor + 1))
            && (!r.Line? ==> t == s)
  {
  }

  /** Closing changes nothing, and a postparse frees everything if there is a pool. */
  lemma {:induction false} CloseAndPostparse(s: State)
    ensures Next(s, Close) == (s, Done)
    ensures Next(s, Postparse).1 == Done
    ensures s.pool ==> var t := Next(s, Postparse).0; !t.built && t.lines == [] && t.cursor == 0 && !t.pool
    ensures !s.pool ==> Next(s, Postparse).0 == s
  {
  }

  /**
   * Where the array was built but the connection failed to close, the open fails and the array
   * stays: the next open with a good URI succeeds, whatever the database, and reads deliver it all.
   */
  lemma {:induction false} FailedCloseKeepsArray(s: State, lines: seq<string>, db: Outcome)
    requires Sound(s) && !s.built
    ensures Next(s, Open(true, Built(lines, false))).1 == Failed
    ensures var t := Next(s, Open(true, Built(lines, false))).0;
            && Next(t, Open(true, db)).1 == Done
            && Delivered(Next(t, Open(true, db)).0, Reads(|lines|)) == lines
  {
    var t := Next(s, Open(true, Built(lines, false))).0;
    ReadsDeliverEverything(Next(t, Open(true, db)).0);
  }

  predicate Sound(s: State) {
    && s.cursor <= |s.lines|
    && (s.built ==> s.pool)
    && (!s.built ==> s.lines == [] && s.cursor == 0)
  }

  function After(s: State, es: seq<Event>): State
    decreases |es|
  {
    if es == [] then s else After(Next(s, es[0]).0, es[1..])
  }

  /** The lines the reads of a run return, in order. */
  function Delivered(s: State, es: seq<Event>): seq<string>
    decreases |es|
  {
    if es == [] then []
    else
      var r := Next(s, es[0]);
      (if r.1.Line? then [r.1.text] else []) + Delivered(r.0, es[1..])
  }

  lemma {:induction false} StepSound(s: State, e: Event)
    requires Sound(s)
    ensures Sound(Next(s, e).0)
    ensures e.Postparse? ==> Next(s, e).0 == INITIAL.(pool := Next(s, e).0.pool) && !Next(s, e).0.pool
  {
  }

  /** The cursor stays within the array in every run. */
  lemma {:induction false} RunSound(s: State, es: seq<Event>)
    requires Sound(s)
    ensures Sound(After(s, es))
    decreases |es|
  {
    if es != [] {
      StepSound(s, es[0]);
      RunSound(Next(s, es[0]).0, es[1..]);
    }
  }

  lemma {:induction false} StepDelivers(s: State, e: Event)
    requires Sound(s) && !e.Postparse?
    ensures var (t, r) := Next(s, e);
            && Sound(t) && (s.built ==> t.built && t.lines == s.lines)
            && t.cursor == s.cursor + (if r.Line? then 1 else 0)
            && (r.Line? ==> s.built && s.cursor < |s.lines| && r.text == s.lines[s.cursor])
  {
  }

  /**
   * Between two postparse events the reads deliver a contiguous piece of one document: whatever
   * is opened and closed in between, no line is skipped, reordered or delivered twice.
   */
  lemma {:induction false} DeliversInOrder(s: State, es: seq<Event>)
    requires Sound(s) && Postparse !in es
    ensures var t := After(s, es);
            && Sound(t) && s.cursor <= t.cursor
            && (s.built ==> t.built && t.lines == s.lines)
            && Delivered(s, es) == t.lines[s.cursor..t.cursor]
    decreases |es|
  {
    if es != [] {
      var (t, r) := Next(s, es[0]);
      StepDelivers(s, es[0]);
      DeliversInOrder(t, es[1..]);
      var u := After(t, es[1..]);
      if r.Line? {
        assert u.lines == s.lines;
        assert u.lines[s.cursor..u.cursor] == [s.lines[s.cursor]] + u.lines[t.cursor..u.cursor];
      }
    }
  }

  /** From a fresh start, that piece is a prefix of the document. */
  lemma {:induction false} DeliversPrefix(es: seq<Event>)
    requires Postparse !in es
    ensures Delivered(INITIAL, es) <= After(INITIAL, es).lines
  {
    DeliversInOrder(INITIAL, es);
  }

  function Reads(n: nat): (es: seq<Event>)
    ensures |es| == n && Postparse !in es
  {
    if n == 0 then [] else [Read] + Reads(n - 1)
  }

  /** As many reads as there are lines left deliver all of them; the next one reports the end. */
  lemma {:induction false} ReadsDeliverEverything(s: State)
    requires Sound(s) && s.built
    ensures Delivered(s, Reads(|s.lines| - s.cursor)) == s.lines[s.cursor..]
    ensures Next(After(s, Reads(|s.lines| - s.cursor)), Read).1 == Eof
    decreases |s.lines| - s.cursor
  {
    var n := |s.lines| - s.cursor;
    if n > 0 {
      assert Reads(n)[1..] == Reads(n - 1);
      ReadsDeliverEverything(Next(s, Read).0);
    }
  }

  /** Once a read has reported the end of the file, every read does until the next postparse. */
  lemma {:induction false} EofIsSticky(s: State, es: seq<Event>)
    requires Sound(s) && Next(s, Read).1 == Eof && Postparse !in es
    ensures Delivered(s, es) == [] && Next(After(s, es), Read).1 == Eof
    decreases |es|
  {
    if es != [] {
      var t := Next(s, es[0]).0;
      StepSound(s, es[0]);
      assert t.built && t.lines == s.lines && t.cursor == s.cursor;
      EofIsSticky(t, es[1..]);
    }
  }

  lemma {:induction false} RunConcat(s: State, es: seq<Event>, fs: seq<Event>)
    ensures After(s, es + fs) == After(After(s, es), fs)
    ensures Delivered(s, es + fs) == Delivered(s, es) + Delivered(After(s, es), fs)
    decreases |es|
  {
    if es == [] {
      assert es + fs == fs;
    } else {
      assert (es + fs)[1..] == es[1..] + fs;
      RunConcat(Next(s, es[0]).0, es[1..], fs);
    }
  }

  /** Whatever happened before a postparse, what follows it starts over. */
  lemma {:induction false} PostparseForgets(es: seq<Event>, fs: seq<Event>)
    ensures After(INITIAL, es + [Postparse] + fs) == After(INITIAL, fs)
    ensures Delivered(INITIAL, es + [Postparse] + fs) == Delivered(INITIAL, es) + Delivered(INITIAL, fs)
  {
    RunSound(INITIAL, es);
    RunConcat(INITIAL, es + [Postparse], fs);
    RunConcat(INITIAL, es, [Postparse]);
    var s := After(INITIAL, es);
    StepSound(s, Postparse);
    assert After(s, [Postparse]) == Next(s, Postparse).0 by {
      assert After(Next(s, Postparse).0, []) == Next(s, Postparse).0;
      assert [Postparse][1..] == [];
    }
    assert Delivered(s, [Postparse]) == [] by { assert [Postparse][1..] == []; }
  }
}

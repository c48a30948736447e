/** Result cursors over whole runs: how many there are, which one is the last, and which rows they serve. */
module SessionCursors {
  import opened Bytes
  import opened Session
  import opened SessionRuns
  import opened Wrappers

  // ---------- The cursor table ----------

  /** As long as query ids have not wrapped around: at most 64 cursors, ids below the next one, and the
      last id is the largest live one. */
  ghost predicate TableOk(s: SessionState) {
    && s.nextQid >= 0 && |s.cursors| <= MAX_BOLT_CURSORS
    && (forall q | q in s.cursors :: 0 <= q < s.nextQid)
    && (if s.cursors == map[] then s.lastQid == None
        else s.lastQid.Some? && IsGreatest(s.cursors.Keys, s.lastQid.value))
  }

  lemma OpenKeepsTable(s: SessionState, rows: seq<Row>)
    requires TableOk(s) && s.nextQid < 0x7FFF_FFFF_FFFF_FFFF
    ensures TableOk(OpenCursor(s, rows))
    ensures OpenCursor(s, rows).nextQid == s.nextQid + 1
    ensures var lost := s.cursors.Keys - OpenCursor(s, rows).cursors.Keys;
      lost == if |s.cursors| == MAX_BOLT_CURSORS then {Least(s.cursors.Keys)} else {}
  {
    var s' := OpenCursor(s, rows);
    var kept := if |s.cursors| == MAX_BOLT_CURSORS then s.cursors - {Least(s.cursors.Keys)} else s.cursors;
    assert kept.Keys == s.cursors.Keys - (if |s.cursors| == MAX_BOLT_CURSORS then {Least(s.cursors.Keys)} else {});
    assert s.cursors.Keys == kept.Keys + (if |s.cursors| == MAX_BOLT_CURSORS then {Least(s.cursors.Keys)} else {});
    assert |s.cursors.Keys| == |s.cursors| && |kept.Keys| == |kept|;
    assert s'.cursors.Keys == kept.Keys + {s.nextQid};
    assert |s'.cursors.Keys| == |s'.cursors|;
    assert IsGreatest(s'.cursors.Keys, s.nextQid);
  }

  lemma AdvanceKeepsTable(s: SessionState, qid: i64, n: i64)
    requires TableOk(s) && WellIndexed(s) && qid in s.cursors
    ensures TableOk(Advance(s, qid, n)) && Advance(s, qid, n).nextQid == s.nextQid
    ensures s.cursors.Keys - {qid} <= Advance(s, qid, n).cursors.Keys <= s.cursors.Keys
  {
    hide CursorLimit;
    var left := s.cursors - {qid};
    assert left.Keys == s.cursors.Keys - {qid};
    assert |left.Keys| == |left| && |s.cursors.Keys| == |s.cursors|;
    var s' := Advance(s, qid, n);
    if qid in s'.cursors {
      assert s'.cursors.Keys == s.cursors.Keys;
      assert |s'.cursors.Keys| == |s'.cursors|;
    } else {
      assert s'.cursors == left;
      if s.lastQid != Some(qid) {
        assert s.lastQid.value in left.Keys;
      }
    }
  }

  lemma PageTable(s: SessionState, msg: Message)
    requires (msg.Pull? || msg.Discard?) && WellIndexed(s) && TableOk(s)
    ensures TableOk(StepPage(s, msg).session) && StepPage(s, msg).session.nextQid == s.nextQid
  {
    hide Records, Advance, TableOk;
    var qid := CursorQid(s, msg.qid);
    if qid.Some? && qid.value in s.cursors {
      AdvanceKeepsTable(s, qid.value, msg.n);
    }
  }

  /** The message is a query that succeeds. */
  predicate Opens(s: SessionState, msg: Message, ans: Answers) {
    msg.Run? && !AuthenticationRequired(s) && !SwitchesDatabase(s, msg.database) && ans.run.Rows?
  }

  /** The four things a message can do to the cursor table. */
  lemma StepByKind(s: SessionState, msg: Message, ans: Answers)
    requires WellIndexed(s)
    ensures var s' := Step(s, msg, ans).session;
      if msg.Pull? || msg.Discard? then s' == StepPage(s, msg).session
      else if Opens(s, msg, ans) then s' == OpenCursor(s, ans.run.rows)
      else if msg.Reset? then s'.cursors == map[] && s'.lastQid == None && s'.nextQid == s.nextQid
      else s'.cursors == s.cursors && s'.lastQid == s.lastQid && s'.nextQid == s.nextQid
  {
    hide OpenCursor, StepPage, WellIndexed, AuthenticationRequired, SwitchesDatabase, RunCalls, RollbackCalls, BeginDatabase;
  }

  lemma TableOfCursors(s: SessionState, s': SessionState)
    requires TableOk(s) && s'.nextQid == s.nextQid
    requires (s'.cursors == map[] && s'.lastQid == None) || (s'.cursors == s.cursors && s'.lastQid == s.lastQid)
    ensures TableOk(s')
  {
  }

  lemma StepKeepsTable(s: SessionState, msg: Message, ans: Answers)
    requires Well(s) && TableOk(s) && s.nextQid < 0x7FFF_FFFF_FFFF_FFFF
    ensures TableOk(Step(s, msg, ans).session)
    ensures s.nextQid <= Step(s, msg, ans).session.nextQid <= s.nextQid + 1
  {
    hide Step, OpenCursor, StepPage, Well, TableOk, AuthenticationRequired, SwitchesDatabase;
    WellIsIndexed(s);
    StepByKind(s, msg, ans);
    if msg.Pull? || msg.Discard? {
      PageTable(s, msg);
    } else if Opens(s, msg, ans) {
      OpenKeepsTable(s, ans.run.rows);
    } else {
      TableOfCursors(s, Step(s, msg, ans).session);
    }
  }

  /** The cursor table is in order after every run of fewer than 2^63 messages. */
  lemma {:induction false} TableIsKept(s: SessionState, inputs: seq<Input>)
    requires Well(s) && TableOk(s) && s.nextQid + |inputs| <= 0x7FFF_FFFF_FFFF_FFFF
    ensures TableOk(After(s, inputs)) && After(s, inputs).nextQid <= s.nextQid + |inputs|
    decreases |inputs|
  {
    hide Step, Well, TableOk;
    if inputs != [] {
      WellIsIndexed(s);
      StepKeepsWell(s, inputs[0].msg, inputs[0].answers);
      StepKeepsTable(s, inputs[0].msg, inputs[0].answers);
      TableIsKept(Step(s, inputs[0].msg, inputs[0].answers).session, inputs[1..]);
    }
  }

  /** How a cursor goes: by RESET, by serving its last row, or as the oldest of 64. */
  lemma CursorsLeaveForAReason(s: SessionState, msg: Message, ans: Answers, q: i64)
    requires Well(s) && TableOk(s) && s.nextQid < 0x7FFF_FFFF_FFFF_FFFF
    requires q in s.cursors && q !in Step(s, msg, ans).session.cursors
    ensures || msg.Reset?
            || (Opens(s, msg, ans) && |s.cursors| == MAX_BOLT_CURSORS && q == Least(s.cursors.Keys))
            || ((msg.Pull? || msg.Discard?) && CursorQid(s, msg.qid) == Some(q)
                && s.cursors[q].index + |Slice(s.cursors[q], msg.n)| == |s.cursors[q].rows|)
  {
    hide Step, OpenCursor, StepPage, Well, TableOk, Least, AuthenticationRequired, SwitchesDatabase, Slice;
    WellIsIndexed(s);
    StepByKind(s, msg, ans);
    if Opens(s, msg, ans) {
      OpenKeepsTable(s, ans.run.rows);
      assert q in s.cursors.Keys - OpenCursor(s, ans.run.rows).cursors.Keys;
    } else if msg.Pull? || msg.Discard? {
      PageLeaves(s, msg, q);
    }
  }

  lemma PageLeaves(s: SessionState, msg: Message, q: i64)
    requires WellIndexed(s) && (msg.Pull? || msg.Discard?) && q in s.cursors && q !in StepPage(s, msg).session.cursors
    ensures CursorQid(s, msg.qid) == Some(q) && s.cursors[q].index + |Slice(s.cursors[q], msg.n)| == |s.cursors[q].rows|
  {
    hide Records, Greatest, CursorLimit;
  }

  // ---------- The rows a cursor serves ----------

  datatype Paging = Start(qid: i64, rows: seq<Row>) | Take(qid: i64, taken: seq<Row>, last: bool)

  /** What one message does to a cursor: start it, or take rows from it. */
  function PagingOf(s: SessionState, msg: Message, ans: Answers): seq<Paging>
    requires WellIndexed(s)
  {
    match msg
    case Run(_, database) =>
      if AuthenticationRequired(s) || SwitchesDatabase(s, database) || !ans.run.Rows? then [] else [Start(s.nextQid, ans.run.rows)]
    case Pull(n, qid) => PageOf(s, n, qid)
    case Discard(n, qid) => PageOf(s, n, qid)
    case _ => []
  }

  function PageOf(s: SessionState, n: i64, qid: i64): seq<Paging>
    requires WellIndexed(s)
  {
    var q := CursorQid(s, qid);
    if q == None || q.value !in s.cursors then []
    else
      var c := s.cursors[q.value];
      [Take(q.value, Slice(c, n), c.index + |Slice(c, n)| == |c.rows|)]
  }

  ghost function Trace(s: SessionState, inputs: seq<Input>): seq<Paging>
    requires Well(s)
    decreases |inputs|
  {
    hide Step, PagingOf;
    if inputs == [] then []
    else
      StepKeepsWell(s, inputs[0].msg, inputs[0].answers);
      PagingOf(s, inputs[0].msg, inputs[0].answers)
      + Trace(Step(s, inputs[0].msg, inputs[0].answers).session, inputs[1..])
  }

  /** All rows taken from cursor `q`, in order. */
  function Taken(trace: seq<Paging>, q: i64): seq<Row> {
    if trace == [] then []
    else
      var e := trace[|trace| - 1];
      Taken(trace[..|trace| - 1], q) + if e.Take? && e.qid == q then e.taken else []
  }

  predicate Finished(trace: seq<Paging>, q: i64) {
    exists i | 0 <= i < |trace| :: trace[i].Take? && trace[i].qid == q && trace[i].last
  }

  /** Every cursor starts once, and what has been taken from it is the first part of its rows: all of them
      when it is finished, and up to its index while it lives. */
  ghost predicate Served(trace: seq<Paging>, q: i64, rows: seq<Row>) {
    Taken(trace, q) <= rows && (Finished(trace, q) ==> Taken(trace, q) == rows)
  }

  ghost predicate TraceOk(s: SessionState, trace: seq<Paging>)
    requires WellIndexed(s)
  {
    && (forall i | 0 <= i < |trace| :: trace[i].qid < s.nextQid)
    && (forall i, j | 0 <= i < j < |trace| && trace[i].Start? && trace[j].Start? :: trace[i].qid != trace[j].qid)
    && (forall i | 0 <= i < |trace| && trace[i].Start? :: Served(trace, trace[i].qid, trace[i].rows))
    && (forall q | q in s.cursors ::
          && (exists i :: 0 <= i < |trace| && trace[i] == Start(q, s.cursors[q].rows))
          && Taken(trace, q) == s.cursors[q].rows[..s.cursors[q].index] && !Finished(trace, q))
  }

  lemma TakenNothing(trace: seq<Paging>, q: i64)
    requires forall i | 0 <= i < |trace| :: trace[i].qid < q
    ensures Taken(trace, q) == [] && !Finished(trace, q)
  {
  }

  lemma FinishedStep(trace: seq<Paging>, e: Paging, q: i64)
    ensures Finished(trace + [e], q) <==> Finished(trace, q) || (e.Take? && e.qid == q && e.last)
    ensures Taken(trace + [e], q) == Taken(trace, q) + if e.Take? && e.qid == q then e.taken else []
  {
    assert (trace + [e])[..|trace|] == trace && (trace + [e])[|trace|] == e;
    if Finished(trace, q) {
      var i :| 0 <= i < |trace| && trace[i].Take? && trace[i].qid == q && trace[i].last;
      assert (trace + [e])[i] == trace[i];
    }
  }

  /** Starting a cursor leaves the history of every cursor alone. */
  lemma StartMoves(trace: seq<Paging>, qid: i64, rows: seq<Row>, q: i64)
    ensures Taken(trace + [Start(qid, rows)], q) == Taken(trace, q)
    ensures Finished(trace + [Start(qid, rows)], q) <==> Finished(trace, q)
  {
    hide Taken, Finished;
    FinishedStep(trace, Start(qid, rows), q);
    assert Taken(trace, q) + [] == Taken(trace, q);
  }

  lemma OpenMoves(s: SessionState, rows: seq<Row>)
    requires s.nextQid < 0x7FFF_FFFF_FFFF_FFFF
    ensures var s' := OpenCursor(s, rows);
      && s'.nextQid == s.nextQid + 1 && s.nextQid in s'.cursors && s'.cursors[s.nextQid] == Cursor(rows, 0)
      && forall q | q in s'.cursors && q != s.nextQid :: q in s.cursors && s'.cursors[q] == s.cursors[q]
  {
    hide Least;
  }

  lemma StartKeepsTrace(s: SessionState, trace: seq<Paging>, rows: seq<Row>)
    requires WellIndexed(s) && TraceOk(s, trace) && s.nextQid < 0x7FFF_FFFF_FFFF_FFFF
    ensures WellIndexed(OpenCursor(s, rows))
    ensures TraceOk(OpenCursor(s, rows), trace + [Start(s.nextQid, rows)])
  {
    hide Taken, Finished, OpenCursor;
    OpenOnlyOpens(s, rows);
    OpenMoves(s, rows);
    var s', e := OpenCursor(s, rows), Start(s.nextQid, rows);
    var trace' := trace + [e];
    TakenNothing(trace, s.nextQid);
    forall q: i64 ensures Taken(trace', q) == Taken(trace, q) && (Finished(trace', q) <==> Finished(trace, q)) {
      StartMoves(trace, s.nextQid, rows, q);
    }
    assert forall i | 0 <= i < |trace| :: trace'[i] == trace[i];
    forall q | q in s'.cursors ensures exists i :: 0 <= i < |trace'| && trace'[i] == Start(q, s'.cursors[q].rows) {
      if q == s.nextQid {
        assert trace'[|trace|] == e;
      } else {
        var i :| 0 <= i < |trace| && trace[i] == Start(q, s.cursors[q].rows);
        assert trace'[i] == trace[i];
      }
    }
  }

  /** Taking rows from cursor `q` moves its history on and leaves the others alone. */
  lemma TakeMoves(trace: seq<Paging>, c: Cursor, q: i64, end: nat, p: i64)
    requires c.index <= end <= |c.rows| && Taken(trace, q) == c.rows[..c.index] && !Finished(trace, q)
    ensures var trace' := trace + [Take(q, c.rows[c.index..end], end == |c.rows|)];
      if p == q then Taken(trace', p) == c.rows[..end] && (Finished(trace', p) <==> end == |c.rows|)
      else Taken(trace', p) == Taken(trace, p) && (Finished(trace', p) <==> Finished(trace, p))
  {
    hide Taken, Finished;
    FinishedStep(trace, Take(q, c.rows[c.index..end], end == |c.rows|), p);
    assert Taken(trace, p) + [] == Taken(trace, p);
    assert c.rows[..c.index] + c.rows[c.index..end] == c.rows[..end];
  }

  /** What `Advance` does to the cursors. */
  lemma AdvanceMoves(s: SessionState, q: i64, n: i64)
    requires WellIndexed(s) && q in s.cursors
    ensures var c, s' := s.cursors[q], Advance(s, q, n);
      var end := c.index + |Slice(c, n)|;
      && c.index <= end <= |c.rows| && Slice(c, n) == c.rows[c.index..end] && s'.nextQid == s.nextQid
      && s'.cursors == if end < |c.rows| then s.cursors[q := Cursor(c.rows, end)] else s.cursors - {q}
  {
    hide Greatest, CursorLimit;
  }

  lemma TakeKeepsTrace(s: SessionState, trace: seq<Paging>, q: i64, n: i64)
    requires WellIndexed(s) && TraceOk(s, trace) && q in s.cursors
    ensures WellIndexed(Advance(s, q, n))
    ensures var c := s.cursors[q];
      TraceOk(Advance(s, q, n), trace + [Take(q, Slice(c, n), c.index + |Slice(c, n)| == |c.rows|)])
  {
    hide Taken, Finished, Slice, Advance, Served;
    AdvanceMoves(s, q, n);
    var c := s.cursors[q];
    var end := c.index + |Slice(c, n)|;
    var e := Take(q, Slice(c, n), end == |c.rows|);
    var start :| 0 <= start < |trace| && trace[start] == Start(q, c.rows);
    forall p: i64
      ensures p == q ==> Taken(trace + [e], p) == c.rows[..end] && (Finished(trace + [e], p) <==> end == |c.rows|)
      ensures p != q ==> Taken(trace + [e], p) == Taken(trace, p) && (Finished(trace + [e], p) <==> Finished(trace, p))
    {
      TakeMoves(trace, c, q, end, p);
    }
    StartsStay(s, trace, q, start, e, end);
    CursorsStay(s, Advance(s, q, n), trace, q, e, end);
  }

  lemma CursorsStay(s: SessionState, s': SessionState, trace: seq<Paging>, q: i64, e: Paging, end: nat)
    requires WellIndexed(s) && TraceOk(s, trace) && q in s.cursors && e.Take? && e.qid == q
    requires s.cursors[q].index <= end <= |s.cursors[q].rows|
    requires s'.cursors == if end < |s.cursors[q].rows| then s.cursors[q := Cursor(s.cursors[q].rows, end)] else s.cursors - {q}
    requires Taken(trace + [e], q) == s.cursors[q].rows[..end]
    requires Finished(trace + [e], q) <==> end == |s.cursors[q].rows|
    requires forall p | p != q :: Taken(trace + [e], p) == Taken(trace, p) && (Finished(trace + [e], p) <==> Finished(trace, p))
    ensures WellIndexed(s')
    ensures forall p | p in s'.cursors ::
      && (exists i :: 0 <= i < |trace + [e]| && (trace + [e])[i] == Start(p, s'.cursors[p].rows))
      && Taken(trace + [e], p) == s'.cursors[p].rows[..s'.cursors[p].index] && !Finished(trace + [e], p)
  {
    hide Taken, Finished, Served;
    forall p | p in s'.cursors
      ensures exists i :: 0 <= i < |trace + [e]| && (trace + [e])[i] == Start(p, s'.cursors[p].rows)
    {
      var i :| 0 <= i < |trace| && trace[i] == Start(p, s.cursors[p].rows);
      assert (trace + [e])[i] == trace[i];
    }
  }

  lemma StartsStay(s: SessionState, trace: seq<Paging>, q: i64, start: nat, e: Paging, end: nat)
    requires WellIndexed(s) && TraceOk(s, trace) && q in s.cursors && e.Take? && e.qid == q
    requires start < |trace| && trace[start] == Start(q, s.cursors[q].rows)
    requires s.cursors[q].index <= end <= |s.cursors[q].rows|
    requires Taken(trace + [e], q) == s.cursors[q].rows[..end]
    requires Finished(trace + [e], q) <==> end == |s.cursors[q].rows|
    requires forall p | p != q :: Taken(trace + [e], p) == Taken(trace, p) && (Finished(trace + [e], p) <==> Finished(trace, p))
    ensures forall i | 0 <= i < |trace + [e]| && (trace + [e])[i].Start? ::
      Served(trace + [e], (trace + [e])[i].qid, (trace + [e])[i].rows)
  {
    hide Taken, Finished;
    forall i | 0 <= i < |trace + [e]| && (trace + [e])[i].Start?
      ensures Served(trace + [e], (trace + [e])[i].qid, (trace + [e])[i].rows)
    {
      assert (trace + [e])[i] == trace[i];
      if trace[i].qid == q {
        assert i == start;
      } else {
        assert Served(trace, trace[i].qid, trace[i].rows);
      }
    }
  }

  lemma StepKeepsTrace(s: SessionState, trace: seq<Paging>, msg: Message, ans: Answers)
    requires Well(s) && TableOk(s) && TraceOk(s, trace) && s.nextQid < 0x7FFF_FFFF_FFFF_FFFF
    ensures WellIndexed(Step(s, msg, ans).session)
    ensures TraceOk(Step(s, msg, ans).session, trace + PagingOf(s, msg, ans))
  {
    hide Step, OpenCursor, StepPage, TableOk, TraceOk, Well, AuthenticationRequired, SwitchesDatabase, Advance, Slice;
    WellIsIndexed(s);
    StepKeepsWell(s, msg, ans);
    StepByKind(s, msg, ans);
    WellIsIndexed(Step(s, msg, ans).session);
    assert trace + [] == trace;
    if msg.Pull? || msg.Discard? {
      PageIsAdvance(s, msg);
      var q := CursorQid(s, msg.qid);
      if q.Some? && q.value in s.cursors {
        TakeKeepsTrace(s, trace, q.value, msg.n);
      }
    } else if Opens(s, msg, ans) {
      StartKeepsTrace(s, trace, ans.run.rows);
    } else {
      TraceOfCursors(s, Step(s, msg, ans).session, trace);
    }
  }

  lemma PageIsAdvance(s: SessionState, msg: Message)
    requires WellIndexed(s) && (msg.Pull? || msg.Discard?)
    ensures var q := CursorQid(s, msg.qid);
      StepPage(s, msg).session == if q.Some? && q.value in s.cursors then Advance(s, q.value, msg.n) else s
  {
    hide Advance, Slice, Records;
  }

  lemma TraceOfCursors(s: SessionState, s': SessionState, trace: seq<Paging>)
    requires WellIndexed(s) && WellIndexed(s') && TraceOk(s, trace) && s'.nextQid == s.nextQid
    requires s'.cursors == map[] || s'.cursors == s.cursors
    ensures TraceOk(s', trace)
  {
    hide Taken, Finished, Served;
  }

  lemma {:induction false} RunKeepsTrace(s: SessionState, trace: seq<Paging>, inputs: seq<Input>)
    requires Well(s) && TableOk(s) && WellIndexed(s) && TraceOk(s, trace)
    requires s.nextQid + |inputs| <= 0x7FFF_FFFF_FFFF_FFFF
    ensures WellIndexed(After(s, inputs))
    ensures TraceOk(After(s, inputs), trace + Trace(s, inputs))
    decreases |inputs|
  {
    hide Step, Well, TableOk, TraceOk, PagingOf, WellIndexed;
    if inputs == [] {
      assert trace + [] == trace;
    } else {
      var msg, ans := inputs[0].msg, inputs[0].answers;
      StepKeepsWell(s, msg, ans);
      StepKeepsTable(s, msg, ans);
      StepKeepsTrace(s, trace, msg, ans);
      var s' := Step(s, msg, ans).session;
      RunKeepsTrace(s', trace + PagingOf(s, msg, ans), inputs[1..]);
      assert (trace + PagingOf(s, msg, ans)) + Trace(s', inputs[1..]) == trace + Trace(s, inputs);
    }
  }

  /** Under any interleaving of RUN, PULL, DISCARD and everything else, each cursor is started once, the
      slices taken from it are consecutive parts of its rows, and they are all its rows once it is finished. */
  lemma RowsAreServedOnce(authEnabled: bool, counted: bool, inputs: seq<Input>)
    requires |inputs| <= 0x7FFF_FFFF_FFFF_FFFF
    ensures var trace := Trace(NewSession(authEnabled, counted), inputs);
      && (forall i | 0 <= i < |trace| && trace[i].Start? :: Served(trace, trace[i].qid, trace[i].rows))
      && (forall i, j | 0 <= i < j < |trace| && trace[i].Start? && trace[j].Start? :: trace[i].qid != trace[j].qid)
    ensures var s := After(NewSession(authEnabled, counted), inputs);
      TableOk(s) && forall q | q in s.cursors ::
        Taken(Trace(NewSession(authEnabled, counted), inputs), q) == s.cursors[q].rows[..s.cursors[q].index]
  {
    hide Step, Well, TableOk, Trace, After, Taken, Served;
    var s := NewSession(authEnabled, counted);
    NewIsWell(authEnabled, counted);
    EmptyTable(authEnabled, counted);
    RunKeepsTrace(s, [], inputs);
    TableIsKept(s, inputs);
    assert [] + Trace(s, inputs) == Trace(s, inputs);
  }

  lemma EmptyTable(authEnabled: bool, counted: bool)
    ensures TableOk(NewSession(authEnabled, counted)) && TraceOk(NewSession(authEnabled, counted), [])
  {
  }

  lemma OnlyOneIsLeast(ks: set<i64>, greatest: i64)
    requires greatest in ks && |ks| > 1 && forall k | k in ks :: k <= greatest
    ensures Least(ks) < greatest
  {
    assert |ks - {greatest}| == |ks| - 1;
    var other :| other in ks - {greatest};
    assert Least(ks) <= other;
  }

  /** Past 2^63 queries the ids wrap around, and the last cursor is no longer the one with the largest id. */
  lemma WrappingBreaksTheTable(s: SessionState, rows: seq<Row>)
    requires TableOk(s) && s.nextQid == 0x7FFF_FFFF_FFFF_FFFF
    ensures var s' := OpenCursor(OpenCursor(s, rows), rows);
      s'.lastQid.Some? && s'.lastQid.value in s'.cursors && !IsGreatest(s'.cursors.Keys, s'.lastQid.value)
  {
    var s1 := OpenCursor(s, rows);
    var s2 := OpenCursor(s1, rows);
    assert |s1.cursors| == |s1.cursors.Keys|;
    if |s1.cursors| == MAX_BOLT_CURSORS {
      OnlyOneIsLeast(s1.cursors.Keys, s.nextQid);
    }
    assert s.nextQid in s2.cursors;
  }

  /** The client sees exactly the rows that a PULL takes, and a summary that says whether more are left. */
  lemma PullAnswersWithTheSlice(s: SessionState, n: i64, qid: i64, ans: Answers)
    requires Well(s) && CursorQid(s, qid).Some? && CursorQid(s, qid).value in s.cursors
    ensures var e := PageOf(s, n, qid)[0];
      && Step(s, Pull(n, qid), ans).outcome == Ok(Records(e.taken) + [Session.Served(!e.last)])
      && Step(s, Discard(n, qid), ans).outcome == Ok([Session.Served(!e.last)])
      && Step(s, Pull(n, qid), ans).session == Step(s, Discard(n, qid), ans).session
  {
    hide Records, Advance;
    assert [] + [Session.Served(!PageOf(s, n, qid)[0].last)] == [Session.Served(!PageOf(s, n, qid)[0].last)];
  }
}

/** What holds over every sequence of messages that a session handles. */
module SessionRuns {
  import opened Session
  import opened Wrappers

  datatype Input = Input(msg: Message, answers: Answers)

  /** What every session keeps: with authentication on, being authenticated means having a principal; the
      guard of the counter is held exactly while a transaction is; no cursor is past its rows. */
  ghost predicate Well(s: SessionState) {
    && WellIndexed(s)
    && (if s.authEnabled then s.authenticated <==> s.principal.Some? else s.authenticated && s.principal == None)
    && (s.guard <==> s.counted && s.transaction.Some?)
  }

  lemma NewIsWell(authEnabled: bool, counted: bool)
    ensures Well(NewSession(authEnabled, counted))
  {
  }

  lemma PageOnlyPages(s: SessionState, msg: Message)
    requires (msg.Pull? || msg.Discard?) && WellIndexed(s)
    ensures WellIndexed(StepPage(s, msg).session) && StepPage(s, msg).calls == []
    ensures var s' := StepPage(s, msg).session; s' == s.(cursors := s'.cursors, lastQid := s'.lastQid)
  {
    hide Records;
  }

  lemma OpenOnlyOpens(s: SessionState, rows: seq<Row>)
    requires WellIndexed(s)
    ensures WellIndexed(OpenCursor(s, rows))
    ensures var s' := OpenCursor(s, rows);
      s' == s.(cursors := s'.cursors, lastQid := s'.lastQid, nextQid := s'.nextQid)
  {
  }

  lemma StepKeepsWell(s: SessionState, msg: Message, ans: Answers)
    requires Well(s)
    ensures Well(Step(s, msg, ans).session)
    ensures Step(s, msg, ans).session.authEnabled == s.authEnabled && Step(s, msg, ans).session.counted == s.counted
  {
    hide OpenCursor, StepPage, RunDatabase, BeginDatabase, RollbackCalls, RunCalls, SwitchesDatabase;
    if msg.Pull? || msg.Discard? {
      PageOnlyPages(s, msg);
    } else if msg.Run? && ans.run.Rows? {
      OpenOnlyOpens(s, ans.run.rows);
    }
  }

  ghost function After(s: SessionState, inputs: seq<Input>): (r: SessionState)
    requires Well(s)
    ensures Well(r) && r.authEnabled == s.authEnabled && r.counted == s.counted
    decreases |inputs|
  {
    hide Step;
    if inputs == [] then s
    else
      StepKeepsWell(s, inputs[0].msg, inputs[0].answers);
      After(Step(s, inputs[0].msg, inputs[0].answers).session, inputs[1..])
  }

  /** The executor's calls during a run. */
  ghost function CallsOf(s: SessionState, inputs: seq<Input>): seq<Call>
    requires Well(s)
    decreases |inputs|
  {
    hide Step;
    if inputs == [] then []
    else
      StepKeepsWell(s, inputs[0].msg, inputs[0].answers);
      Step(s, inputs[0].msg, inputs[0].answers).calls
      + CallsOf(Step(s, inputs[0].msg, inputs[0].answers).session, inputs[1..])
  }

  // ---------- The order of the executor's calls ----------

  datatype Phase = Idle | Within(tx: Transaction) | Broken

  function Accept(p: Phase, c: Call): Phase {
    match c
    case BeginCall(_, _, answer) =>
      if p != Idle then Broken else if answer.Some? then Within(answer.value) else Idle
    case RunCall(_, tx, _, _) => if p == (if tx.Some? then Within(tx.value) else Idle) then p else Broken
    case CommitCall(tx) => if p == Within(tx) then Idle else Broken
    case RollbackCall(tx) => if p == Within(tx) then Idle else Broken
  }

  function AcceptAll(p: Phase, calls: seq<Call>): Phase
    decreases |calls|
  {
    if calls == [] then p else AcceptAll(Accept(p, calls[0]), calls[1..])
  }

  lemma {:induction false} AcceptAppend(p: Phase, a: seq<Call>, b: seq<Call>)
    ensures AcceptAll(p, a + b) == AcceptAll(AcceptAll(p, a), b)
    decreases |a|
  {
    if a == [] {
      assert a + b == b;
    } else {
      assert (a + b)[1..] == a[1..] + b;
      AcceptAppend(Accept(p, a[0]), a[1..], b);
    }
  }

  function PhaseOf(s: SessionState): Phase {
    if s.transaction.Some? then Within(s.transaction.value) else Idle
  }

  lemma QueryAccepted(s: SessionState, msg: Message, ans: Answers)
    requires msg.Run?
    ensures AcceptAll(PhaseOf(s), StepRun(s, msg, ans).calls) == PhaseOf(StepRun(s, msg, ans).session)
  {
    hide RunDatabase, OpenCursor;
    if ans.run.Rows? {
      assert OpenCursor(s, ans.run.rows).transaction == s.transaction by { OpenKeepsTransaction(s, ans.run.rows); }
    } else if ans.run.ExecutionFailed? && s.transaction.Some? {
      AcceptAppend(PhaseOf(s), RunCalls(s, msg), RollbackCalls(s));
    }
  }

  lemma OpenKeepsTransaction(s: SessionState, rows: seq<Row>)
    ensures OpenCursor(s, rows).transaction == s.transaction
  {
    hide Least;
  }

  lemma TransactionAccepted(s: SessionState, msg: Message, ans: Answers)
    requires WellIndexed(s) && !msg.Run? && !msg.Pull? && !msg.Discard?
    ensures AcceptAll(PhaseOf(s), Step(s, msg, ans).calls) == PhaseOf(Step(s, msg, ans).session)
  {
    hide WellIndexed, BeginDatabase;
  }

  lemma StepAccepted(s: SessionState, msg: Message, ans: Answers)
    requires WellIndexed(s)
    ensures AcceptAll(PhaseOf(s), Step(s, msg, ans).calls) == PhaseOf(Step(s, msg, ans).session)
  {
    hide StepHello, StepLogon, StepRun, StepPage, StepBegin, StepCommit, StepRollback, StepReset, Accept;
    if msg.Pull? || msg.Discard? {
      PageOnlyPages(s, msg);
    } else if msg.Run? {
      QueryAccepted(s, msg, ans);
    } else {
      TransactionAccepted(s, msg, ans);
    }
  }

  lemma {:induction false} RunAccepted(s: SessionState, inputs: seq<Input>)
    requires Well(s)
    ensures AcceptAll(PhaseOf(s), CallsOf(s, inputs)) == PhaseOf(After(s, inputs))
    decreases |inputs|
  {
    hide Step, PhaseOf, AcceptAll, Well;
    if inputs == [] {
      AcceptNone(PhaseOf(s));
    } else {
      var msg, ans := inputs[0].msg, inputs[0].answers;
      StepKeepsWell(s, msg, ans);
      WellIsIndexed(s);
      StepAccepted(s, msg, ans);
      var stepped := Step(s, msg, ans);
      RunAccepted(stepped.session, inputs[1..]);
      AcceptAppend(PhaseOf(s), stepped.calls, CallsOf(stepped.session, inputs[1..]));
    }
  }

  lemma AcceptNone(p: Phase)
    ensures AcceptAll(p, []) == p
  {
  }

  lemma WellIsIndexed(s: SessionState)
    requires Well(s)
    ensures WellIndexed(s)
  {
  }

  predicate Begins(c: Call) { c.BeginCall? && c.answer.Some? }

  predicate Ends(c: Call) { c.CommitCall? || c.RollbackCall? }

  /** Just before call `k` the transaction `tx` is open: it was begun, and no other was begun and none ended since. */
  ghost predicate OpenAt(log: seq<Call>, k: nat, tx: Transaction)
    requires k <= |log|
  {
    exists b | 0 <= b < k :: Begins(log[b]) && log[b].answer == Some(tx)
      && forall m | b < m < k :: !Begins(log[m]) && !Ends(log[m])
  }

  /** Just before call `k` every transaction begun has ended. */
  ghost predicate NoneOpenAt(log: seq<Call>, k: nat)
    requires k <= |log|
  {
    forall b | 0 <= b < k && Begins(log[b]) :: exists m :: b < m < k && Ends(log[m])
  }

  /** Transactions never overlap, and every call made in a transaction is made while it is open. */
  ghost predicate Orderly(log: seq<Call>) {
    forall k | 0 <= k < |log| :: InOrder(log, k)
  }

  ghost predicate InOrder(log: seq<Call>, k: nat)
    requires k < |log|
  {
    match log[k]
    case BeginCall(_, _, _) => NoneOpenAt(log, k)
    case RunCall(_, tx, _, _) => if tx.Some? then OpenAt(log, k, tx.value) else NoneOpenAt(log, k)
    case CommitCall(tx) => OpenAt(log, k, tx)
    case RollbackCall(tx) => OpenAt(log, k, tx)
  }

  ghost predicate InPhase(log: seq<Call>, k: nat, p: Phase)
    requires k <= |log|
  {
    match p case Idle => NoneOpenAt(log, k) case Within(tx) => OpenAt(log, k, tx) case Broken => false
  }

  lemma OpenIsNotNone(log: seq<Call>, k: nat, tx: Transaction)
    requires k <= |log| && OpenAt(log, k, tx)
    ensures !NoneOpenAt(log, k)
  {
    var b :| 0 <= b < k && Begins(log[b]) && log[b].answer == Some(tx)
             && forall m | b < m < k :: !Begins(log[m]) && !Ends(log[m]);
    assert !exists m :: b < m < k && Ends(log[m]);
  }

  lemma InPhaseStep(log: seq<Call>, k: nat, p: Phase)
    requires k < |log| && InPhase(log, k, p) && Accept(p, log[k]) != Broken
    ensures InPhase(log, k + 1, Accept(p, log[k]))
  {
    var c := log[k];
    if Begins(c) {
      assert OpenAt(log, k + 1, c.answer.value);
    } else if p.Within? && !Ends(c) {
      var b :| 0 <= b < k && Begins(log[b]) && log[b].answer == Some(p.tx)
               && forall m | b < m < k :: !Begins(log[m]) && !Ends(log[m]);
      assert forall m | b < m < k + 1 :: !Begins(log[m]) && !Ends(log[m]);
      assert OpenAt(log, k + 1, p.tx);
    } else {
      forall b | 0 <= b < k + 1 && Begins(log[b]) ensures exists m :: b < m < k + 1 && Ends(log[m]) {
        if p.Within? {
          assert b < k && Ends(log[k]);
        } else {
          var m :| b < m < k && Ends(log[m]);
          assert b < m < k + 1 && Ends(log[m]);
        }
      }
      assert NoneOpenAt(log, k + 1);
    }
  }

  lemma {:induction false} BrokenStaysBroken(calls: seq<Call>)
    ensures AcceptAll(Broken, calls) == Broken
    decreases |calls|
  {
    if calls != [] {
      BrokenStaysBroken(calls[1..]);
    }
  }

  lemma {:induction false} AcceptedIsOrderly(log: seq<Call>, k: nat, p: Phase)
    requires k <= |log| && InPhase(log, k, p) && AcceptAll(p, log[k..]) != Broken
    ensures forall j | k <= j < |log| :: InOrder(log, j)
    ensures InPhase(log, |log|, AcceptAll(p, log[k..]))
    decreases |log| - k
  {
    hide OpenAt, NoneOpenAt;
    if k < |log| {
      assert log[k..][0] == log[k] && log[k..][1..] == log[k + 1..];
      var next := Accept(p, log[k]);
      if next == Broken {
        BrokenStaysBroken(log[k + 1..]);
      } else {
        InPhaseStep(log, k, p);
        AcceptedIsOrderly(log, k + 1, next);
      }
    } else {
      assert log[k..] == [];
    }
  }

  /** Over any run of a new session the executor sees transactions one after the other; the one still open
      at the end, if any, is the one the session holds. */
  lemma TransactionsNeverOverlap(authEnabled: bool, counted: bool, inputs: seq<Input>)
    ensures var s := NewSession(authEnabled, counted);
      Orderly(CallsOf(s, inputs)) && InPhase(CallsOf(s, inputs), |CallsOf(s, inputs)|, PhaseOf(After(s, inputs)))
  {
    hide Step, After, CallsOf, Accept, AcceptAll, Well, OpenAt;
    NewIsWell(authEnabled, counted);
    var s := NewSession(authEnabled, counted);
    var log := CallsOf(s, inputs);
    RunAccepted(s, inputs);
    assert log[0..] == log;
    AcceptedIsOrderly(log, 0, Idle);
  }

  // ---------- Authentication ----------

  /** Only rollbacks are made without a principal when authentication is on. */
  predicate Attributed(c: Call) {
    match c
    case BeginCall(principal, _, _) => principal.Some?
    case RunCall(principal, _, _, _) => principal.Some?
    case _ => true
  }

  lemma CallsNeedLogin(s: SessionState, msg: Message, ans: Answers)
    requires Well(s) && s.authEnabled
    ensures forall c | c in Step(s, msg, ans).calls :: Attributed(c) && (!c.RollbackCall? ==> s.authenticated && s.principal.Some?)
  {
    hide OpenCursor, Advance, Slice, Records;
  }

  /** With authentication on, every begin and every query in any run is made for a principal. */
  lemma {:induction false} EveryCallIsAttributed(s: SessionState, inputs: seq<Input>)
    requires Well(s) && s.authEnabled
    ensures forall c | c in CallsOf(s, inputs) :: Attributed(c)
    decreases |inputs|
  {
    hide Step, Well, Attributed;
    if inputs != [] {
      StepKeepsWell(s, inputs[0].msg, inputs[0].answers);
      WellIsIndexed(s);
      CallsNeedLogin(s, inputs[0].msg, inputs[0].answers);
      EveryCallIsAttributed(Step(s, inputs[0].msg, inputs[0].answers).session, inputs[1..]);
    }
  }
}

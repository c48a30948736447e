/**
 What a session calls and replies, in terms of the messages before: who is logged in, which transaction the
 executor's log has open, and which database was asked for last; and what it does with its cursors.
 */
module SessionHistory {
  import opened Bytes
  import opened Session
  import opened SessionCursors
  import opened SessionRuns
  import opened Wrappers

  // ---------- The history of a message ----------

  /** What happened at message `i`. */
  ghost function At(s: SessionState, inputs: seq<Input>, i: nat): Stepped
    requires Well(s) && i < |inputs|
  {
    Step(After(s, inputs[..i]), inputs[i].msg, inputs[i].answers)
  }

  /** The principal that the last of HELLO, LOGON and LOGOFF left, with authentication on; a LOGON that fails
      leaves the login as it was. */
  function LoggedIn(inputs: seq<Input>, i: nat): Option<Principal>
    requires i <= |inputs|
  {
    if i == 0 then None
    else
      var msg, login := inputs[i - 1].msg, inputs[i - 1].answers.login;
      if msg.Logoff? then None
      else if msg.Hello? then if msg.credentials.Some? && login.Ok? then Some(login.value) else None
      else if msg.Logon? && msg.username.Some? && msg.password.Some? && login.Ok? then Some(login.value)
      else LoggedIn(inputs, i - 1)
  }

  /** The session may make calls: a principal is logged in, or authentication is off. */
  predicate Admitted(authEnabled: bool, inputs: seq<Input>, i: nat)
    requires i <= |inputs|
  {
    !authEnabled || LoggedIn(inputs, i).Some?
  }

  function Caller(authEnabled: bool, inputs: seq<Input>, i: nat): Option<Principal>
    requires i <= |inputs|
  {
    if authEnabled then LoggedIn(inputs, i) else None
  }

  /** Before message `i` the executor has the transaction open. */
  ghost predicate Open(s: SessionState, inputs: seq<Input>, i: nat, tx: Transaction)
    requires Well(s) && i <= |inputs|
  {
    var log := CallsOf(s, inputs[..i]); OpenAt(log, |log|, tx)
  }

  ghost predicate NoneOpen(s: SessionState, inputs: seq<Input>, i: nat)
    requires Well(s) && i <= |inputs|
  {
    var log := CallsOf(s, inputs[..i]); NoneOpenAt(log, |log|)
  }

  /** The database of the last HELLO, or of the last transaction begun if that came later. */
  ghost function Database(s: SessionState, inputs: seq<Input>, i: nat): Option<string>
    requires Well(s) && i <= |inputs|
  {
    if i == 0 then None
    else if inputs[i - 1].msg.Hello? then inputs[i - 1].msg.database
    else if exists c | c in At(s, inputs, i - 1).calls :: Begins(c) then
      var c :| c in At(s, inputs, i - 1).calls && Begins(c);
      Some(c.answer.value.database)
    else Database(s, inputs, i - 1)
  }

  // ---------- The history determines the state ----------

  lemma {:induction false} AfterOneMore(s: SessionState, inputs: seq<Input>, x: Input)
    requires Well(s)
    ensures WellIndexed(After(s, inputs))
    ensures After(s, inputs + [x]) == Step(After(s, inputs), x.msg, x.answers).session
    ensures CallsOf(s, inputs + [x]) == CallsOf(s, inputs) + Step(After(s, inputs), x.msg, x.answers).calls
    decreases |inputs|
  {
    hide Step, Well, WellIndexed;
    WellIsIndexed(s);
    if inputs == [] {
      assert [] + [x] == [x] && [x][1..] == [];
      StepKeepsWell(s, x.msg, x.answers);
      assert CallsOf(s, [x]) == Step(s, x.msg, x.answers).calls + [];
    } else {
      StepKeepsWell(s, inputs[0].msg, inputs[0].answers);
      assert (inputs + [x])[1..] == inputs[1..] + [x];
      AfterOneMore(Step(s, inputs[0].msg, inputs[0].answers).session, inputs[1..], x);
    }
  }

  lemma AtOne(s: SessionState, inputs: seq<Input>, i: nat)
    requires Well(s) && i < |inputs|
    ensures WellIndexed(After(s, inputs[..i]))
    ensures After(s, inputs[..i + 1]) == At(s, inputs, i).session
    ensures CallsOf(s, inputs[..i + 1]) == CallsOf(s, inputs[..i]) + At(s, inputs, i).calls
  {
    hide Step, Well;
    assert inputs[..i + 1] == inputs[..i] + [inputs[i]];
    AfterOneMore(s, inputs[..i], inputs[i]);
  }

  /** What a message does to the login. */
  lemma LoginStep(s: SessionState, msg: Message, ans: Answers)
    requires Well(s) && s.authEnabled
    ensures Step(s, msg, ans).session.principal ==
      if msg.Logoff? then None
      else if msg.Hello? then if msg.credentials.Some? && ans.login.Ok? then Some(ans.login.value) else None
      else if msg.Logon? && msg.username.Some? && msg.password.Some? && ans.login.Ok? then Some(ans.login.value)
      else s.principal
  {
    hide OpenCursor, StepPage;
    if msg.Pull? || msg.Discard? {
      PageOnlyPages(s, msg);
    } else if msg.Run? && ans.run.Rows? {
      OpenOnlyOpens(s, ans.run.rows);
    }
  }

  /** What a message does to the session's database. */
  lemma DatabaseStep(s: SessionState, msg: Message, ans: Answers)
    requires Well(s)
    ensures var stepped := Step(s, msg, ans);
      if msg.Hello? then stepped.session.database == msg.database && stepped.calls == []
      else if exists c | c in stepped.calls :: Begins(c) then
        forall c | c in stepped.calls && Begins(c) :: stepped.session.database == Some(c.answer.value.database)
      else stepped.session.database == s.database
  {
    hide OpenCursor, StepPage;
    if msg.Pull? || msg.Discard? {
      PageOnlyPages(s, msg);
    } else if msg.Run? && ans.run.Rows? {
      OpenOnlyOpens(s, ans.run.rows);
    } else if msg.Begin? {
      BeginShape(s, msg, ans);
    }
  }

  lemma BeginShape(s: SessionState, msg: Message, ans: Answers)
    requires msg.Begin? && WellIndexed(s)
    ensures |Step(s, msg, ans).calls| <= 1
    ensures var stepped := Step(s, msg, ans);
      if stepped.calls != [] && Begins(stepped.calls[0]) then
        stepped.calls[0] in stepped.calls && stepped.session.database == Some(stepped.calls[0].answer.value.database)
      else stepped.session.database == s.database
  {
    hide WellIndexed;
  }

  lemma {:induction false} LoginIs(authEnabled: bool, counted: bool, inputs: seq<Input>, i: nat)
    requires i <= |inputs|
    ensures Well(NewSession(authEnabled, counted))
    ensures var s := After(NewSession(authEnabled, counted), inputs[..i]);
      && s.authEnabled == authEnabled && s.principal == Caller(authEnabled, inputs, i)
      && (AuthenticationRequired(s) <==> !Admitted(authEnabled, inputs, i))
  {
    hide Step;
    NewIsWell(authEnabled, counted);
    var s := NewSession(authEnabled, counted);
    if i > 0 {
      LoginIs(authEnabled, counted, inputs, i - 1);
      AtOne(s, inputs, i - 1);
      if authEnabled {
        LoginStep(After(s, inputs[..i - 1]), inputs[i - 1].msg, inputs[i - 1].answers);
      }
    }
  }

  lemma {:induction false} DatabaseIs(authEnabled: bool, counted: bool, inputs: seq<Input>, i: nat)
    requires i <= |inputs|
    ensures Well(NewSession(authEnabled, counted))
    ensures After(NewSession(authEnabled, counted), inputs[..i]).database == Database(NewSession(authEnabled, counted), inputs, i)
  {
    hide Step, Well;
    NewIsWell(authEnabled, counted);
    var s := NewSession(authEnabled, counted);
    if i > 0 {
      DatabaseIs(authEnabled, counted, inputs, i - 1);
      AtOne(s, inputs, i - 1);
      DatabaseStep(After(s, inputs[..i - 1]), inputs[i - 1].msg, inputs[i - 1].answers);
    }
  }

  lemma OneIsOpen(log: seq<Call>, k: nat, tx: Transaction, tx': Transaction)
    requires k <= |log| && OpenAt(log, k, tx) && OpenAt(log, k, tx')
    ensures tx == tx'
  {
  }

  /** The executor has a transaction open exactly while the session holds it. */
  lemma OpenIsHeld(authEnabled: bool, counted: bool, inputs: seq<Input>, i: nat)
    requires i <= |inputs|
    ensures Well(NewSession(authEnabled, counted))
    ensures var s := NewSession(authEnabled, counted);
      && (forall tx :: Open(s, inputs, i, tx) <==> After(s, inputs[..i]).transaction == Some(tx))
      && (NoneOpen(s, inputs, i) <==> After(s, inputs[..i]).transaction == None)
  {
    hide OpenAt, NoneOpenAt, Step, After, CallsOf, Orderly;
    NewIsWell(authEnabled, counted);
    var s := NewSession(authEnabled, counted);
    TransactionsNeverOverlap(authEnabled, counted, inputs[..i]);
    var log, held := CallsOf(s, inputs[..i]), After(s, inputs[..i]).transaction;
    if held.Some? {
      OpenIsNotNone(log, |log|, held.value);
      forall tx | OpenAt(log, |log|, tx) ensures tx == held.value {
        OneIsOpen(log, |log|, tx, held.value);
      }
    } else {
      forall tx ensures !OpenAt(log, |log|, tx) {
        if OpenAt(log, |log|, tx) {
          OpenIsNotNone(log, |log|, tx);
        }
      }
    }
  }

  // ---------- Calls and replies ----------

  /** The calls of a message that an admitted session of `caller` handles while the transaction is open. */
  function CallsWithin(msg: Message, ans: Answers, caller: Option<Principal>, tx: Transaction): seq<Call> {
    match msg
    case Run(query, database) =>
      if database.Some? && database.value != tx.database then []
      else
        [RunCall(caller, Some(tx), tx.database, query)] + (if ans.run.ExecutionFailed? then [RollbackCall(tx)] else [])
    case Commit => [CommitCall(tx)]
    case Rollback => [RollbackCall(tx)]
    case Reset => [RollbackCall(tx)]
    case Logoff => [RollbackCall(tx)]
    case _ => []
  }

  /** And while none is open; `database` is what was asked for last. */
  function CallsOutside(msg: Message, ans: Answers, caller: Option<Principal>, database: Option<string>): seq<Call> {
    var default := if database.Some? then database.value else "copperdb";
    match msg
    case Run(query, requested) =>
      [RunCall(caller, None, if requested.Some? then requested.value else default, query)]
    case Begin(requested) =>
      [BeginCall(caller, if requested.Some? then requested.value else default,
                 if ans.begin.Ok? then Some(ans.begin.value) else None)]
    case _ => []
  }

  /** A session that is not admitted only rolls back. */
  function CallsRefused(msg: Message, tx: Option<Transaction>): seq<Call> {
    if (msg.Reset? || msg.Logoff?) && tx.Some? then [RollbackCall(tx.value)] else []
  }

  /** The calls of message `i`, with `tx` open. */
  lemma CallsInTransaction(authEnabled: bool, counted: bool, inputs: seq<Input>, i: nat, tx: Transaction)
    requires i < |inputs| && Well(NewSession(authEnabled, counted)) && Open(NewSession(authEnabled, counted), inputs, i, tx)
    ensures At(NewSession(authEnabled, counted), inputs, i).calls ==
      if Admitted(authEnabled, inputs, i)
      then CallsWithin(inputs[i].msg, inputs[i].answers, Caller(authEnabled, inputs, i), tx)
      else CallsRefused(inputs[i].msg, Some(tx))
  {
    hide Step, Open, NoneOpen, Admitted, Caller, CallsWithin, CallsRefused, AuthenticationRequired;
    LoginIs(authEnabled, counted, inputs, i);
    OpenIsHeld(authEnabled, counted, inputs, i);
    AtOne(NewSession(authEnabled, counted), inputs, i);
    StepCallsWithin(After(NewSession(authEnabled, counted), inputs[..i]), inputs[i].msg, inputs[i].answers, tx);
  }

  lemma StepCallsWithin(s: SessionState, msg: Message, ans: Answers, tx: Transaction)
    requires WellIndexed(s) && s.transaction == Some(tx)
    ensures Step(s, msg, ans).calls ==
      if AuthenticationRequired(s) then CallsRefused(msg, Some(tx)) else CallsWithin(msg, ans, s.principal, tx)
  {
    hide OpenCursor, StepPage, WellIndexed;
    if msg.Pull? || msg.Discard? {
      PageOnlyPages(s, msg);
    }
  }

  /** The calls of message `i`, with no transaction open. */
  lemma CallsOutsideTransaction(authEnabled: bool, counted: bool, inputs: seq<Input>, i: nat)
    requires i < |inputs| && Well(NewSession(authEnabled, counted)) && NoneOpen(NewSession(authEnabled, counted), inputs, i)
    ensures var s := NewSession(authEnabled, counted);
      At(s, inputs, i).calls ==
      if Admitted(authEnabled, inputs, i)
      then CallsOutside(inputs[i].msg, inputs[i].answers, Caller(authEnabled, inputs, i), Database(s, inputs, i))
      else []
  {
    hide Step, Open, NoneOpen, Admitted, Caller, Database, CallsOutside, AuthenticationRequired;
    LoginIs(authEnabled, counted, inputs, i);
    DatabaseIs(authEnabled, counted, inputs, i);
    OpenIsHeld(authEnabled, counted, inputs, i);
    AtOne(NewSession(authEnabled, counted), inputs, i);
    StepCallsOutside(After(NewSession(authEnabled, counted), inputs[..i]), inputs[i].msg, inputs[i].answers);
  }

  lemma StepCallsOutside(s: SessionState, msg: Message, ans: Answers)
    requires WellIndexed(s) && s.transaction == None
    ensures Step(s, msg, ans).calls == if AuthenticationRequired(s) then [] else CallsOutside(msg, ans, s.principal, s.database)
  {
    hide OpenCursor, StepPage, WellIndexed;
    if msg.Pull? || msg.Discard? {
      PageOnlyPages(s, msg);
    }
  }

  /** Either nothing is open, or one transaction is. */
  lemma OneOrNoneOpen(authEnabled: bool, counted: bool, inputs: seq<Input>, i: nat)
    requires i <= |inputs|
    ensures Well(NewSession(authEnabled, counted))
    ensures var s := NewSession(authEnabled, counted);
      NoneOpen(s, inputs, i) <==> forall tx :: !Open(s, inputs, i, tx)
  {
    hide Open, NoneOpen;
    OpenIsHeld(authEnabled, counted, inputs, i);
    var held := After(NewSession(authEnabled, counted), inputs[..i]).transaction;
    if held.Some? {
      assert Open(NewSession(authEnabled, counted), inputs, i, held.value);
    }
  }

  /** A transaction is committed exactly by a COMMIT of an admitted session while it is open. */
  lemma CommittedExactlyByCommit(authEnabled: bool, counted: bool, inputs: seq<Input>, i: nat, tx: Transaction)
    requires i < |inputs| && Well(NewSession(authEnabled, counted))
    ensures var s := NewSession(authEnabled, counted);
      CommitCall(tx) in At(s, inputs, i).calls <==>
        inputs[i].msg.Commit? && Admitted(authEnabled, inputs, i) && Open(s, inputs, i, tx)
  {
    hide At, Open, NoneOpen, Admitted;
    SomeOpenOrNone(authEnabled, counted, inputs, i);
  }

  /** A transaction is rolled back exactly by RESET, LOGOFF, ROLLBACK or a query that fails, while it is open. */
  lemma RolledBackExactly(authEnabled: bool, counted: bool, inputs: seq<Input>, i: nat, tx: Transaction)
    requires i < |inputs| && Well(NewSession(authEnabled, counted))
    ensures var s, msg := NewSession(authEnabled, counted), inputs[i].msg;
      RollbackCall(tx) in At(s, inputs, i).calls <==>
        Open(s, inputs, i, tx)
        && (|| msg.Reset? || msg.Logoff?
            || (Admitted(authEnabled, inputs, i)
                && (msg.Rollback?
                    || (msg.Run? && inputs[i].answers.run.ExecutionFailed?
                        && (msg.database == None || msg.database == Some(tx.database))))))
  {
    hide At, Open, NoneOpen, Admitted;
    SomeOpenOrNone(authEnabled, counted, inputs, i);
  }

  /** The calls of a message, with the open transaction named. */
  lemma SomeOpenOrNone(authEnabled: bool, counted: bool, inputs: seq<Input>, i: nat)
    requires i < |inputs| && Well(NewSession(authEnabled, counted))
    ensures var s, calls := NewSession(authEnabled, counted), At(NewSession(authEnabled, counted), inputs, i).calls;
      || (NoneOpen(s, inputs, i) && (forall tx :: !Open(s, inputs, i, tx))
          && calls == if Admitted(authEnabled, inputs, i)
                      then CallsOutside(inputs[i].msg, inputs[i].answers, Caller(authEnabled, inputs, i), Database(s, inputs, i))
                      else [])
      || exists tx :: Open(s, inputs, i, tx) && (forall tx' | Open(s, inputs, i, tx') :: tx' == tx)
          && calls == if Admitted(authEnabled, inputs, i)
                      then CallsWithin(inputs[i].msg, inputs[i].answers, Caller(authEnabled, inputs, i), tx)
                      else CallsRefused(inputs[i].msg, Some(tx))
  {
    hide At, Open, NoneOpen, Admitted, Caller, Database, CallsWithin, CallsOutside, CallsRefused;
    OneOrNoneOpen(authEnabled, counted, inputs, i);
    OpenIsHeld(authEnabled, counted, inputs, i);
    var s := NewSession(authEnabled, counted);
    if NoneOpen(s, inputs, i) {
      CallsOutsideTransaction(authEnabled, counted, inputs, i);
    } else {
      var tx :| Open(s, inputs, i, tx);
      CallsInTransaction(authEnabled, counted, inputs, i, tx);
    }
  }

  // ---------- Replies ----------

  /** The reply to HELLO and LOGON. */
  function LoginReply(authEnabled: bool, msg: Message, ans: Answers): Reply
    requires msg.Hello? || msg.Logon?
  {
    var given := if msg.Hello? then msg.credentials.Some? else msg.username.Some? && msg.password.Some?;
    if !authEnabled || (given && ans.login.Ok?) || (msg.Hello? && !given) then Success
    else Failure("Neo.ClientError.Security.Unauthorized")
  }

  function RunReply(ans: Answers, qid: Option<i64>): Result<seq<Reply>, SessionError> {
    match ans.run
    case Rows(_) => Ok([Opened(qid)])
    case ExecutionFailed(code) => Ok([Failure(code)])
    case TaskFailed => Err(ExecutorTaskFailed)
  }

  /** The replies of an admitted session to the other messages that ask for no rows, while the transaction is open. */
  function RepliesWithin(msg: Message, ans: Answers, tx: Transaction, qid: i64): Result<seq<Reply>, SessionError> {
    match msg
    case Run(_, database) =>
      if database.Some? && database.value != tx.database
      then Ok([Failure("Neo.ClientError.Transaction.TransactionAccessedConcurrently")])
      else RunReply(ans, Some(qid))
    case Begin(_) => Ok([Failure("Neo.ClientError.Transaction.TransactionStartFailed")])
    case Commit => Ok([if ans.commit.Ok? then Committed(ans.commit.value) else Failure(ans.commit.error)])
    case Rollback =>
      Ok([if ans.rollback.Ok? then Success else Failure("Neo.ClientError.Transaction.TransactionRollbackFailed")])
    case _ => Ok([Success])
  }

  function RepliesOutside(msg: Message, ans: Answers): Result<seq<Reply>, SessionError> {
    match msg
    case Run(_, _) => RunReply(ans, None)
    case Begin(_) => Ok([if ans.begin.Ok? then Success else Failure("Neo.ClientError.Transaction.TransactionStartFailed")])
    case Commit => Ok([Failure("Neo.ClientError.Transaction.TransactionNotFound")])
    case _ => Ok([Success])
  }

  function RepliesRefused(msg: Message): Result<seq<Reply>, SessionError> {
    Ok([if msg.Reset? || msg.Logoff? then Success else Failure("Neo.ClientError.Security.Unauthorized")])
  }

  predicate AsksForRows(msg: Message) { msg.Pull? || msg.Discard? }

  predicate LogsIn(msg: Message) { msg.Hello? || msg.Logon? }

  lemma StepReplies(s: SessionState, msg: Message, ans: Answers)
    requires WellIndexed(s) && !AsksForRows(msg)
    ensures Step(s, msg, ans).outcome ==
      if LogsIn(msg) then Ok([LoginReply(s.authEnabled, msg, ans)])
      else if AuthenticationRequired(s) then RepliesRefused(msg)
      else if s.transaction.Some? then RepliesWithin(msg, ans, s.transaction.value, s.nextQid)
      else RepliesOutside(msg, ans)
  {
    hide OpenCursor, WellIndexed, RunDatabase, BeginDatabase, RollbackCalls;
  }

  /** How many queries have been answered before message `i`. */
  ghost function QueriesBefore(s: SessionState, inputs: seq<Input>, i: nat): (n: nat)
    requires Well(s) && i <= |inputs|
    ensures n <= i
  {
    if i == 0 then 0
    else QueriesBefore(s, inputs, i - 1) + if AnswersQuery(At(s, inputs, i - 1)) then 1 else 0
  }

  predicate AnswersQuery(stepped: Stepped) {
    stepped.outcome.Ok? && |stepped.outcome.value| == 1 && stepped.outcome.value[0].Opened?
  }

  lemma OpensExactlyQueries(s: SessionState, msg: Message, ans: Answers)
    requires WellIndexed(s)
    ensures AnswersQuery(Step(s, msg, ans)) <==> Opens(s, msg, ans)
  {
    hide OpenCursor, WellIndexed, Advance, Slice;
    if !AsksForRows(msg) {
      StepReplies(s, msg, ans);
    }
  }

  /** Query ids count the queries, until they wrap around. */
  lemma {:induction false} QidsCount(authEnabled: bool, counted: bool, inputs: seq<Input>, i: nat)
    requires i <= |inputs| && i < 0x8000_0000_0000_0000
    ensures Well(NewSession(authEnabled, counted))
    ensures var s := NewSession(authEnabled, counted);
      After(s, inputs[..i]).nextQid == QueriesBefore(s, inputs, i)
  {
    hide Step, Well, OpenCursor, StepPage, AnswersQuery, Opens;
    NewIsWell(authEnabled, counted);
    var s := NewSession(authEnabled, counted);
    if i > 0 {
      QidsCount(authEnabled, counted, inputs, i - 1);
      AtOne(s, inputs, i - 1);
      var before, msg, ans := After(s, inputs[..i - 1]), inputs[i - 1].msg, inputs[i - 1].answers;
      OpensExactlyQueries(before, msg, ans);
      StepByKind(before, msg, ans);
      QidSteps(before, msg, ans);
    }
  }

  lemma QidSteps(s: SessionState, msg: Message, ans: Answers)
    requires WellIndexed(s) && s.nextQid < 0x7FFF_FFFF_FFFF_FFFF
    ensures Step(s, msg, ans).session.nextQid == s.nextQid + if Opens(s, msg, ans) then 1 else 0
  {
    hide Step, WellIndexed, Opens, Least, StepPage;
    StepByKind(s, msg, ans);
    if AsksForRows(msg) {
      PageOnlyPages(s, msg);
      PagesOpenNothing(s, msg, ans);
    }
  }

  lemma PagesOpenNothing(s: SessionState, msg: Message, ans: Answers)
    requires AsksForRows(msg)
    ensures !Opens(s, msg, ans)
  {
  }

  /** The replies to message `i`, if it asks for no rows. */
  lemma RepliesAre(authEnabled: bool, counted: bool, inputs: seq<Input>, i: nat)
    requires i < |inputs| && i < 0x8000_0000_0000_0000 && !AsksForRows(inputs[i].msg)
    ensures Well(NewSession(authEnabled, counted))
    ensures var s, msg, ans := NewSession(authEnabled, counted), inputs[i].msg, inputs[i].answers;
      var outcome := At(s, inputs, i).outcome;
      && (LogsIn(msg) ==> outcome == Ok([LoginReply(authEnabled, msg, ans)]))
      && (!LogsIn(msg) && !Admitted(authEnabled, inputs, i) ==> outcome == RepliesRefused(msg))
      && (!LogsIn(msg) && Admitted(authEnabled, inputs, i) && NoneOpen(s, inputs, i) ==> outcome == RepliesOutside(msg, ans))
      && (forall tx | !LogsIn(msg) && Admitted(authEnabled, inputs, i) && Open(s, inputs, i, tx) ::
            outcome == RepliesWithin(msg, ans, tx, QueriesBefore(s, inputs, i)))
  {
    hide Step, Open, NoneOpen, Admitted, Caller, RepliesRefused, RepliesOutside, RepliesWithin, LoginReply, QueriesBefore,
      AuthenticationRequired;
    LoginIs(authEnabled, counted, inputs, i);
    OpenIsHeld(authEnabled, counted, inputs, i);
    QidsCount(authEnabled, counted, inputs, i);
    AtOne(NewSession(authEnabled, counted), inputs, i);
    StepReplies(After(NewSession(authEnabled, counted), inputs[..i]), inputs[i].msg, inputs[i].answers);
  }

  /** The client is told of a commit exactly by the message that made it, once the executor has confirmed it. */
  lemma ToldExactlyWhenCommitted(authEnabled: bool, counted: bool, inputs: seq<Input>, i: nat, bookmark: string)
    requires i < |inputs| && Well(NewSession(authEnabled, counted))
    ensures var at := At(NewSession(authEnabled, counted), inputs, i);
      (at.outcome.Ok? && Committed(bookmark) in at.outcome.value)
      <==> (exists tx :: CommitCall(tx) in at.calls) && inputs[i].answers.commit == Ok(bookmark)
  {
    hide Step, After;
    var s := NewSession(authEnabled, counted);
    AtOne(s, inputs, i);
    StepTells(After(s, inputs[..i]), inputs[i].msg, inputs[i].answers, bookmark);
  }

  lemma StepTells(s: SessionState, msg: Message, ans: Answers, bookmark: string)
    requires WellIndexed(s)
    ensures var stepped := Step(s, msg, ans);
      (stepped.outcome.Ok? && Committed(bookmark) in stepped.outcome.value)
      <==> (exists tx :: CommitCall(tx) in stepped.calls) && ans.commit == Ok(bookmark)
  {
    hide OpenCursor, WellIndexed, Advance, Slice, RunDatabase, BeginDatabase;
    if msg.Commit? && !AuthenticationRequired(s) && s.transaction.Some? {
      assert CommitCall(s.transaction.value) in Step(s, msg, ans).calls;
    }
  }

  function Told(stepped: Stepped): Option<string> {
    if stepped.outcome.Ok? && |stepped.outcome.value| == 1 && stepped.outcome.value[0].Committed?
    then Some(stepped.outcome.value[0].bookmark) else None
  }

  /** The bookmark of the last commit that the client was told of. */
  ghost function LastTold(s: SessionState, inputs: seq<Input>, i: nat): Option<string>
    requires Well(s) && i <= |inputs|
  {
    if i == 0 then None
    else if Told(At(s, inputs, i - 1)).Some? then Told(At(s, inputs, i - 1))
    else LastTold(s, inputs, i - 1)
  }

  lemma BookmarkStep(s: SessionState, msg: Message, ans: Answers)
    requires WellIndexed(s)
    ensures var stepped := Step(s, msg, ans);
      stepped.session.lastBookmark == if Told(stepped).Some? then Told(stepped) else s.lastBookmark
  {
    hide OpenCursor, WellIndexed, Advance, Slice, RunDatabase, BeginDatabase, RollbackCalls;
    if AsksForRows(msg) {
      PageOnlyPages(s, msg);
    } else if msg.Run? && ans.run.Rows? {
      OpenOnlyOpens(s, ans.run.rows);
    }
  }

  /** The session remembers that bookmark. */
  lemma {:induction false} BookmarkIs(authEnabled: bool, counted: bool, inputs: seq<Input>, i: nat)
    requires i <= |inputs|
    ensures Well(NewSession(authEnabled, counted))
    ensures var s := NewSession(authEnabled, counted);
      After(s, inputs[..i]).lastBookmark == LastTold(s, inputs, i)
  {
    hide Step, Well;
    NewIsWell(authEnabled, counted);
    var s := NewSession(authEnabled, counted);
    if i > 0 {
      BookmarkIs(authEnabled, counted, inputs, i - 1);
      AtOne(s, inputs, i - 1);
      BookmarkStep(After(s, inputs[..i - 1]), inputs[i - 1].msg, inputs[i - 1].answers);
    }
  }

  // ---------- Rows ----------

  /** How many of the rows left a request for `n` takes: `n` of them, or all if `n` is negative or too many. */
  function Taken(n: i64, left: nat): (k: nat)
    ensures k <= left
  {
    if 0 <= n <= left then n else left
  }

  /** A request for rows names a cursor, or the last one by -1. */
  function Named(s: SessionState, qid: i64): Option<i64> {
    if qid == -1 then s.lastQid else Some(qid)
  }

  /** PULL answers with the next rows, as many as asked for, and then says whether more are left; DISCARD skips them.
      A cursor that has no more rows is gone. */
  lemma PageIs(s: SessionState, msg: Message, ans: Answers, n: i64, qid: i64)
    requires WellIndexed(s) && (msg == Pull(n, qid) || msg == Discard(n, qid))
    ensures var q, stepped := Named(s, qid), Step(s, msg, ans);
      if q == None || q.value !in s.cursors then
        stepped == Stepped(s, Ok([Failure("Neo.ClientError.Request.Invalid")]), [])
      else
        var rows, index := s.cursors[q.value].rows, s.cursors[q.value].index;
        var end := index + Taken(n, |rows| - index);
        && stepped.outcome.Ok? && stepped.calls == []
        && IsPage(stepped.outcome.value, if msg.Pull? then rows[index..end] else [], end < |rows|)
        && stepped.session.cursors == if end < |rows| then s.cursors[q.value := Cursor(rows, end)] else s.cursors - {q.value}
  {
    hide Greatest, Advance, Records;
    var q := Named(s, qid);
    if q.Some? && q.value in s.cursors {
      AdvanceMoves(s, q.value, n);
      assert |Slice(s.cursors[q.value], n)| == Taken(n, |s.cursors[q.value].rows| - s.cursors[q.value].index);
    }
  }

  /** A record for every row, and then whether there is more. */
  predicate IsPage(replies: seq<Reply>, rows: seq<Row>, more: bool) {
    && |replies| == |rows| + 1 && replies[|rows|] == Served(more)
    && forall i | 0 <= i < |rows| :: replies[i] == Record(rows[i])
  }

  /** A query that is answered opens a cursor on its rows, which is then the last one; the oldest of 64 makes room. */
  lemma QueryOpens(s: SessionState, msg: Message, ans: Answers)
    requires WellIndexed(s) && AnswersQuery(Step(s, msg, ans))
    ensures ans.run.Rows? && var s' := Step(s, msg, ans).session;
      && s'.lastQid == Some(s.nextQid)
      && s.nextQid in s'.cursors && s'.cursors[s.nextQid] == Cursor(ans.run.rows, 0)
      && (forall q | q != s.nextQid :: q in s'.cursors <==>
            q in s.cursors && !(|s.cursors| == 64 && forall other | other in s.cursors :: q <= other))
      && (forall q | q in s'.cursors && q != s.nextQid :: s'.cursors[q] == s.cursors[q])
  {
    hide Step, WellIndexed, AnswersQuery, StepPage;
    OpensExactlyQueries(s, msg, ans);
    StepByKind(s, msg, ans);
    if AsksForRows(msg) {
      PagesOpenNothing(s, msg, ans);
    }
  }
}

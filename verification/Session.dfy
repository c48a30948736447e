/**
 One Bolt session: what a message does to it, and the calls it makes to the query executor.
 `Step` is the specification; class BoltSession handles messages the way the server does.
 */
module Session {
  import opened Bytes
  import opened Wrappers

  const MAX_BOLT_CURSORS: nat := 64
  const DEFAULT_DATABASE := "copperdb"

  type Row = seq<byte>

  datatype Principal = Principal(name: string)

  datatype Transaction = Transaction(id: int, database: string)

  /** The rows of a query, and how many of them have been served. */
  datatype Cursor = Cursor(rows: seq<Row>, index: nat)

  /** A decoded message, with the parts of its metadata that the session looks at. */
  datatype Message =
    | Hello(database: Option<string>, credentials: Option<(string, string)>)
    | Logon(username: Option<string>, password: Option<string>)
    | Logoff
    | Run(query: string, database: Option<string>)
    | Pull(n: i64, qid: i64)
    | Discard(n: i64, qid: i64)
    | Begin(database: Option<string>)
    | Commit
    | Rollback
    | Reset
    | Route

  datatype RunAnswer = Rows(rows: seq<Row>) | ExecutionFailed(code: string) | TaskFailed

  /** What the authentication provider and the executor answer while a message is handled; a provider that
      is not configured answers with an error. */
  datatype Answers = Answers(
    login: Result<Principal, string>,
    run: RunAnswer,
    begin: Result<Transaction, string>,
    commit: Result<string, string>,
    rollback: Result<(), string>)

  datatype Reply =
    | Record(row: Row)
    | Success
    | Opened(qid: Option<i64>)
    | Served(hasMore: bool)
    | Committed(bookmark: string)
    | Failure(code: string)

  /** A call to the executor; `answer` is the transaction it hands out. */
  datatype Call =
    | BeginCall(principal: Option<Principal>, database: string, answer: Option<Transaction>)
    | RunCall(principal: Option<Principal>, transaction: Option<Transaction>, database: string, query: string)
    | CommitCall(tx: Transaction)
    | RollbackCall(tx: Transaction)

  /** The executor's task broke down: the one way a decoded message is not answered by the session itself. */
  datatype SessionError = ExecutorTaskFailed

  /** `counted` is whether the session has runtime counters, `guard` whether it holds the guard of the
      active-transactions counter. */
  datatype SessionState = SessionState(
    authEnabled: bool,
    authenticated: bool,
    principal: Option<Principal>,
    database: Option<string>,
    cursors: map<i64, Cursor>,
    lastQid: Option<i64>,
    nextQid: i64,
    lastBookmark: Option<string>,
    transaction: Option<Transaction>,
    counted: bool,
    guard: bool)

  function NewSession(authEnabled: bool, counted: bool): SessionState {
    SessionState(authEnabled, !authEnabled, None, None, map[], None, 0, None, None, counted, false)
  }

  datatype Stepped = Stepped(session: SessionState, outcome: Result<seq<Reply>, SessionError>, calls: seq<Call>)

  // ---------- Failure codes ----------

  const UNAUTHORIZED := "Neo.ClientError.Security.Unauthorized"
  const CONCURRENT_ACCESS := "Neo.ClientError.Transaction.TransactionAccessedConcurrently"
  const INVALID_REQUEST := "Neo.ClientError.Request.Invalid"
  const START_FAILED := "Neo.ClientError.Transaction.TransactionStartFailed"
  const NOT_FOUND := "Neo.ClientError.Transaction.TransactionNotFound"
  const ROLLBACK_FAILED := "Neo.ClientError.Transaction.TransactionRollbackFailed"

  // ---------- Parts of the session ----------

  predicate AuthenticationRequired(s: SessionState) {
    s.authEnabled && !s.authenticated
  }

  function WithTransaction(s: SessionState, tx: Transaction): SessionState {
    s.(transaction := Some(tx), guard := s.counted)
  }

  function WithoutTransaction(s: SessionState): SessionState {
    s.(transaction := None, guard := false)
  }

  function RollbackCalls(s: SessionState): seq<Call> {
    match s.transaction case None => [] case Some(tx) => [RollbackCall(tx)]
  }

  function Authenticate(s: SessionState, ans: Answers): Stepped {
    match ans.login
    case Ok(p) => Stepped(s.(principal := Some(p), authenticated := true), Ok([Success]), [])
    case Err(_) => Stepped(s, Ok([Failure(UNAUTHORIZED)]), [])
  }

  function WrappingSuccessor(i: i64): i64 {
    if i == 0x7FFF_FFFF_FFFF_FFFF then -0x8000_0000_0000_0000 else i + 1
  }

  predicate IsLeast(ks: set<i64>, k: i64) {
    k in ks && forall j | j in ks :: k <= j
  }

  predicate IsGreatest(ks: set<i64>, k: i64) {
    k in ks && forall j | j in ks :: j <= k
  }

  lemma {:induction false} LeastExists(ks: set<i64>)
    requires ks != {}
    ensures exists k :: IsLeast(ks, k)
    decreases |ks|
  {
    var x :| x in ks;
    if ks == {x} {
      assert IsLeast(ks, x);
    } else {
      LeastExists(ks - {x});
      var k :| IsLeast(ks - {x}, k);
      assert ks == (ks - {x}) + {x};
      assert IsLeast(ks, if k <= x then k else x);
    }
  }

  lemma {:induction false} GreatestExists(ks: set<i64>)
    requires ks != {}
    ensures exists k :: IsGreatest(ks, k)
    decreases |ks|
  {
    var x :| x in ks;
    if ks == {x} {
      assert IsGreatest(ks, x);
    } else {
      GreatestExists(ks - {x});
      var k :| IsGreatest(ks - {x}, k);
      assert ks == (ks - {x}) + {x};
      assert IsGreatest(ks, if k >= x then k else x);
    }
  }

  function Least(ks: set<i64>): (k: i64)
    requires ks != {}
    ensures IsLeast(ks, k)
  {
    LeastExists(ks);
    var k :| IsLeast(ks, k);
    k
  }

  function Greatest(ks: set<i64>): (r: Option<i64>)
    ensures ks == {} <==> r == None
    ensures r.Some? ==> IsGreatest(ks, r.value)
  {
    if ks == {} then None
    else
      GreatestExists(ks);
      var k :| IsGreatest(ks, k);
      Some(k)
  }

  // ---------- Cursors ----------

  /** At the cap the oldest cursor makes room. */
  function OpenCursor(s: SessionState, rows: seq<Row>): SessionState {
    var kept := if |s.cursors| == MAX_BOLT_CURSORS then s.cursors - {Least(s.cursors.Keys)} else s.cursors;
    s.(cursors := kept[s.nextQid := Cursor(rows, 0)], lastQid := Some(s.nextQid), nextQid := WrappingSuccessor(s.nextQid))
  }

  function CursorQid(s: SessionState, qid: i64): Option<i64> {
    if qid == -1 then s.lastQid else Some(qid)
  }

  /** How many of `remaining` rows are asked for; a negative number asks for all. */
  function CursorLimit(n: i64, remaining: nat): (k: nat)
    ensures k <= remaining
  {
    if n < 0 || n > remaining then remaining else n
  }

  function Records(rows: seq<Row>): (r: seq<Reply>)
    ensures |r| == |rows| && forall i | 0 <= i < |rows| :: r[i] == Record(rows[i])
  {
    seq(|rows|, i requires 0 <= i < |rows| => Record(rows[i]))
  }

  /** The rows of cursor `qid` that a request for `n` takes. */
  function Slice(c: Cursor, n: i64): seq<Row>
    requires c.index <= |c.rows|
  {
    c.rows[c.index..c.index + CursorLimit(n, |c.rows| - c.index)]
  }

  /** A cursor that has served everything goes away. */
  function Advance(s: SessionState, qid: i64, n: i64): SessionState
    requires qid in s.cursors && s.cursors[qid].index <= |s.cursors[qid].rows|
  {
    var c := s.cursors[qid];
    var end := c.index + CursorLimit(n, |c.rows| - c.index);
    if end < |c.rows| then s.(cursors := s.cursors[qid := c.(index := end)])
    else
      var left := s.cursors - {qid};
      s.(cursors := left, lastQid := if s.lastQid == Some(qid) then Greatest(left.Keys) else s.lastQid)
  }

  // ---------- Messages ----------

  predicate WellIndexed(s: SessionState) {
    forall q | q in s.cursors :: s.cursors[q].index <= |s.cursors[q].rows|
  }

  function StepHello(s: SessionState, msg: Message, ans: Answers): Stepped
    requires msg.Hello?
  {
    var greeted := s.(authenticated := !s.authEnabled, principal := None, database := msg.database);
    if s.authEnabled && msg.credentials.Some? then Authenticate(greeted, ans) else Stepped(greeted, Ok([Success]), [])
  }

  function StepLogon(s: SessionState, msg: Message, ans: Answers): Stepped
    requires msg.Logon?
  {
    if !s.authEnabled then Stepped(s, Ok([Success]), [])
    else if msg.username.Some? && msg.password.Some? then Authenticate(s, ans)
    else Stepped(s, Ok([Failure(UNAUTHORIZED)]), [])
  }

  predicate SwitchesDatabase(s: SessionState, requested: Option<string>) {
    s.transaction.Some? && requested.Some? && requested.value != s.transaction.value.database
  }

  function RunDatabase(s: SessionState, requested: Option<string>): string {
    if s.transaction.Some? then s.transaction.value.database
    else if requested.Some? then requested.value
    else if s.database.Some? then s.database.value
    else DEFAULT_DATABASE
  }

  /** The call a RUN makes, unless it is refused first. */
  function RunCalls(s: SessionState, msg: Message): seq<Call>
    requires msg.Run?
  {
    if AuthenticationRequired(s) || SwitchesDatabase(s, msg.database) then []
    else [RunCall(s.principal, s.transaction, RunDatabase(s, msg.database), msg.query)]
  }

  function StepRun(s: SessionState, msg: Message, ans: Answers): Stepped
    requires msg.Run?
  {
    if AuthenticationRequired(s) then Stepped(s, Ok([Failure(UNAUTHORIZED)]), [])
    else if SwitchesDatabase(s, msg.database) then Stepped(s, Ok([Failure(CONCURRENT_ACCESS)]), [])
    else
      var calls := RunCalls(s, msg);
      match ans.run
      case Rows(rows) =>
        Stepped(OpenCursor(s, rows), Ok([Opened(if s.transaction.Some? then Some(s.nextQid) else None)]), calls)
      case ExecutionFailed(code) =>
        Stepped(WithoutTransaction(s), Ok([Failure(code)]), calls + RollbackCalls(s))
      case TaskFailed => Stepped(s, Err(ExecutorTaskFailed), calls)
  }

  function StepPage(s: SessionState, msg: Message): Stepped
    requires (msg.Pull? || msg.Discard?) && WellIndexed(s)
  {
    var qid := CursorQid(s, msg.qid);
    if qid == None || qid.value !in s.cursors then Stepped(s, Ok([Failure(INVALID_REQUEST)]), [])
    else
      var c := s.cursors[qid.value];
      var rows := Slice(c, msg.n);
      var records := if msg.Pull? then Records(rows) else [];
      Stepped(Advance(s, qid.value, msg.n), Ok(records + [Served(c.index + |rows| < |c.rows|)]), [])
  }

  function BeginDatabase(s: SessionState, requested: Option<string>): string {
    if requested.Some? then requested.value else if s.database.Some? then s.database.value else DEFAULT_DATABASE
  }

  function StepBegin(s: SessionState, msg: Message, ans: Answers): Stepped
    requires msg.Begin?
  {
    if AuthenticationRequired(s) then Stepped(s, Ok([Failure(UNAUTHORIZED)]), [])
    else if s.transaction.Some? then Stepped(s, Ok([Failure(START_FAILED)]), [])
    else
      var database := BeginDatabase(s, msg.database);
      match ans.begin
      case Ok(tx) =>
        Stepped(WithTransaction(s.(database := Some(tx.database)), tx), Ok([Success]),
                [BeginCall(s.principal, database, Some(tx))])
      case Err(_) => Stepped(s, Ok([Failure(START_FAILED)]), [BeginCall(s.principal, database, None)])
  }

  function StepCommit(s: SessionState, ans: Answers): Stepped {
    if AuthenticationRequired(s) then Stepped(s, Ok([Failure(UNAUTHORIZED)]), [])
    else if s.transaction == None then Stepped(s, Ok([Failure(NOT_FOUND)]), [])
    else
      var calls := [CommitCall(s.transaction.value)];
      match ans.commit
      case Ok(bookmark) =>
        Stepped(WithoutTransaction(s).(lastBookmark := Some(bookmark)), Ok([Committed(bookmark)]), calls)
      case Err(code) => Stepped(WithoutTransaction(s), Ok([Failure(code)]), calls)
  }

  function StepRollback(s: SessionState, ans: Answers): Stepped {
    if AuthenticationRequired(s) then Stepped(s, Ok([Failure(UNAUTHORIZED)]), [])
    else if s.transaction == None then Stepped(s, Ok([Success]), [])
    else
      Stepped(WithoutTransaction(s), Ok([if ans.rollback.Ok? then Success else Failure(ROLLBACK_FAILED)]), RollbackCalls(s))
  }

  function StepReset(s: SessionState): Stepped {
    Stepped(WithoutTransaction(s).(cursors := map[], lastQid := None), Ok([Success]), RollbackCalls(s))
  }

  function Step(s: SessionState, msg: Message, ans: Answers): Stepped
    requires WellIndexed(s)
  {
    match msg
    case Hello(_, _) => StepHello(s, msg, ans)
    case Logon(_, _) => StepLogon(s, msg, ans)
    case Logoff =>
      Stepped(WithoutTransaction(s).(authenticated := !s.authEnabled, principal := None), Ok([Success]), RollbackCalls(s))
    case Run(_, _) => StepRun(s, msg, ans)
    case Pull(_, _) => StepPage(s, msg)
    case Discard(_, _) => StepPage(s, msg)
    case Begin(_) => StepBegin(s, msg, ans)
    case Commit => StepCommit(s, ans)
    case Rollback => StepRollback(s, ans)
    case Reset => StepReset(s)
    case Route => Stepped(s, Ok([if AuthenticationRequired(s) then Failure(UNAUTHORIZED) else Success]), [])
  }
}

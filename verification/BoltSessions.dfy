/** The session object of the server: it handles one message at a time, in place. */
module BoltSessions {
  import opened Bytes
  import opened Session
  import opened Wrappers

  class BoltRuntimeCounters {
    var activeTransactions: int

    constructor ()
      ensures activeTransactions == 0
    {
      activeTransactions := 0;
    }
  }

  class BoltSession {
    const authEnabled: bool
    const counters: BoltRuntimeCounters?
    var authenticated: bool
    var principal: Option<Principal>
    var database: Option<string>
    var cursors: map<i64, Cursor>
    var lastQid: Option<i64>
    var nextQid: i64
    var lastBookmark: Option<string>
    var transaction: Option<Transaction>
    var guard: bool

    constructor (authEnabled: bool, counters: BoltRuntimeCounters?)
      ensures View() == NewSession(authEnabled, counters != null) && this.counters == counters
    {
      this.authEnabled, this.counters := authEnabled, counters;
      authenticated, principal, database := !authEnabled, None, None;
      cursors, lastQid, nextQid, lastBookmark := map[], None, 0, None;
      transaction, guard := None, false;
    }

    ghost function View(): SessionState
      reads this
    {
      SessionState(authEnabled, authenticated, principal, database, cursors, lastQid, nextQid, lastBookmark, transaction,
                   counters != null, guard)
    }

    /** The guard of the counter is held exactly while a transaction is. */
    ghost predicate Guarded()
      reads this
    {
      guard <==> counters != null && transaction.Some?
    }

    /** What this session adds to the counter of active transactions. */
    ghost function Share(): int
      reads this
    {
      if guard then 1 else 0
    }

    method SetTransaction(tx: Transaction)
      requires Guarded()
      modifies this`transaction, this`guard, counters
      ensures View() == WithTransaction(old(View()), tx)
      ensures counters != null ==> counters.activeTransactions - Share() == old(counters.activeTransactions - Share())
    {
      if counters != null {
        counters.activeTransactions := counters.activeTransactions + 1;
        if guard {
          counters.activeTransactions := counters.activeTransactions - 1;
        }
      }
      guard := counters != null;
      transaction := Some(tx);
    }

    method TakeTransaction() returns (tx: Option<Transaction>)
      requires Guarded()
      modifies this`transaction, this`guard, counters
      ensures tx == old(transaction) && View() == WithoutTransaction(old(View()))
      ensures counters != null ==> counters.activeTransactions - Share() == old(counters.activeTransactions - Share())
    {
      if guard {
        counters.activeTransactions := counters.activeTransactions - 1;
        guard := false;
      }
      tx := transaction;
      transaction := None;
    }

    method RollbackActiveTransaction() returns (calls: seq<Call>)
      requires Guarded()
      modifies this`transaction, this`guard, counters
      ensures calls == RollbackCalls(old(View())) && View() == WithoutTransaction(old(View()))
      ensures counters != null ==> counters.activeTransactions - Share() == old(counters.activeTransactions - Share())
    {
      var tx := TakeTransaction();
      calls := if tx.Some? then [RollbackCall(tx.value)] else [];
    }

    method AuthenticateSession(login: Result<Principal, string>) returns (ok: bool)
      modifies this`principal, this`authenticated
      ensures ok == login.Ok?
      ensures View() == if login.Ok? then old(View()).(principal := Some(login.value), authenticated := true) else old(View())
    {
      if login.Ok? {
        principal := Some(login.value);
        authenticated := true;
      }
      ok := login.Ok?;
    }

    method StoreCursor(rows: seq<Row>) returns (qid: i64)
      modifies this`cursors, this`lastQid, this`nextQid
      ensures qid == old(nextQid) && View() == OpenCursor(old(View()), rows)
    {
      if |cursors| == MAX_BOLT_CURSORS {
        cursors := cursors - {Least(cursors.Keys)};
      }
      qid := nextQid;
      nextQid := WrappingSuccessor(nextQid);
      cursors := cursors[qid := Cursor(rows, 0)];
      lastQid := Some(qid);
    }

    method ProcessRun(msg: Message, ans: Answers) returns (outcome: Result<seq<Reply>, SessionError>, calls: seq<Call>)
      requires msg.Run? && Guarded()
      modifies this, counters
      ensures Stepped(View(), outcome, calls) == StepRun(old(View()), msg, ans)
      ensures counters != null ==> counters.activeTransactions - Share() == old(counters.activeTransactions - Share())
    {
      hide OpenCursor;
      if authEnabled && !authenticated {
        return Ok([Failure(UNAUTHORIZED)]), [];
      }
      if transaction.Some? && msg.database.Some? && msg.database.value != transaction.value.database {
        return Ok([Failure(CONCURRENT_ACCESS)]), [];
      }
      var db := if transaction.Some? then Some(transaction.value.database)
                else if msg.database.Some? then msg.database else database;
      calls := [RunCall(principal, transaction, if db.Some? then db.value else DEFAULT_DATABASE, msg.query)];
      match ans.run
      case TaskFailed =>
        return Err(ExecutorTaskFailed), calls;
      case Rows(rows) =>
        var qid := StoreCursor(rows);
        return Ok([Opened(if transaction.Some? then Some(qid) else None)]), calls;
      case ExecutionFailed(code) =>
        var rollbacks := RollbackActiveTransaction();
        return Ok([Failure(code)]), calls + rollbacks;
    }

    method ProcessPage(msg: Message) returns (outcome: Result<seq<Reply>, SessionError>)
      requires (msg.Pull? || msg.Discard?) && WellIndexed(View())
      modifies this`cursors, this`lastQid
      ensures Stepped(View(), outcome, []) == StepPage(old(View()), msg)
    {
      var qid := if msg.qid == -1 then lastQid else Some(msg.qid);
      if qid == None || qid.value !in cursors {
        return Ok([Failure(INVALID_REQUEST)]);
      }
      var q := qid.value;
      var cursor := cursors[q];
      var end := cursor.index + CursorLimit(msg.n, |cursor.rows| - cursor.index);
      var replies := if msg.Pull? then Records(cursor.rows[cursor.index..end]) else [];
      cursors := cursors[q := cursor.(index := end)];
      var hasMore := end < |cursor.rows|;
      if !hasMore {
        assert old(cursors) - {q} == cursors - {q};
        cursors := cursors - {q};
        if lastQid == Some(q) {
          lastQid := Greatest(cursors.Keys);
        }
      }
      return Ok(replies + [Served(hasMore)]);
    }

    method ProcessBegin(msg: Message, ans: Answers) returns (outcome: Result<seq<Reply>, SessionError>, calls: seq<Call>)
      requires msg.Begin? && Guarded()
      modifies this, counters
      ensures Stepped(View(), outcome, calls) == StepBegin(old(View()), msg, ans)
      ensures counters != null ==> counters.activeTransactions - Share() == old(counters.activeTransactions - Share())
    {
      if authEnabled && !authenticated {
        return Ok([Failure(UNAUTHORIZED)]), [];
      }
      if transaction.Some? {
        return Ok([Failure(START_FAILED)]), [];
      }
      var db := if msg.database.Some? then msg.database.value else if database.Some? then database.value else DEFAULT_DATABASE;
      match ans.begin
      case Ok(tx) =>
        calls := [BeginCall(principal, db, Some(tx))];
        database := Some(tx.database);
        SetTransaction(tx);
        return Ok([Success]), calls;
      case Err(_) =>
        return Ok([Failure(START_FAILED)]), [BeginCall(principal, db, None)];
    }

    method ProcessCommit(ans: Answers) returns (outcome: Result<seq<Reply>, SessionError>, calls: seq<Call>)
      requires Guarded()
      modifies this, counters
      ensures Stepped(View(), outcome, calls) == StepCommit(old(View()), ans)
      ensures counters != null ==> counters.activeTransactions - Share() == old(counters.activeTransactions - Share())
    {
      if authEnabled && !authenticated {
        return Ok([Failure(UNAUTHORIZED)]), [];
      }
      var tx := TakeTransaction();
      if tx == None {
        return Ok([Failure(NOT_FOUND)]), [];
      }
      calls := [CommitCall(tx.value)];
      match ans.commit
      case Ok(bookmark) =>
        lastBookmark := Some(bookmark);
        return Ok([Committed(bookmark)]), calls;
      case Err(code) =>
        return Ok([Failure(code)]), calls;
    }

    method ProcessRollback(ans: Answers) returns (outcome: Result<seq<Reply>, SessionError>, calls: seq<Call>)
      requires Guarded()
      modifies this, counters
      ensures Stepped(View(), outcome, calls) == StepRollback(old(View()), ans)
      ensures counters != null ==> counters.activeTransactions - Share() == old(counters.activeTransactions - Share())
    {
      if authEnabled && !authenticated {
        return Ok([Failure(UNAUTHORIZED)]), [];
      }
      var tx := TakeTransaction();
      if tx == None {
        return Ok([Success]), [];
      }
      return Ok([if ans.rollback.Ok? then Success else Failure(ROLLBACK_FAILED)]), [RollbackCall(tx.value)];
    }

    method ProcessHello(msg: Message, ans: Answers) returns (outcome: Result<seq<Reply>, SessionError>)
      requires msg.Hello?
      modifies this`authenticated, this`principal, this`database
      ensures Stepped(View(), outcome, []) == StepHello(old(View()), msg, ans)
    {
      authenticated := !authEnabled;
      principal := None;
      database := msg.database;
      if authEnabled && msg.credentials.Some? {
        var ok := AuthenticateSession(ans.login);
        return Ok([if ok then Success else Failure(UNAUTHORIZED)]);
      }
      return Ok([Success]);
    }

    method ProcessLogon(msg: Message, ans: Answers) returns (outcome: Result<seq<Reply>, SessionError>)
      requires msg.Logon?
      modifies this`authenticated, this`principal
      ensures Stepped(View(), outcome, []) == StepLogon(old(View()), msg, ans)
    {
      if !authEnabled {
        return Ok([Success]);
      }
      if msg.username.Some? && msg.password.Some? {
        var ok := AuthenticateSession(ans.login);
        return Ok([if ok then Success else Failure(UNAUTHORIZED)]);
      }
      return Ok([Failure(UNAUTHORIZED)]);
    }

    /** One message; the counter of active transactions moves with this session's share of it. */
    method ProcessMessage(msg: Message, ans: Answers) returns (outcome: Result<seq<Reply>, SessionError>, calls: seq<Call>)
      requires Guarded() && WellIndexed(View())
      modifies this, counters
      ensures Stepped(View(), outcome, calls) == Step(old(View()), msg, ans)
      ensures counters != null ==> counters.activeTransactions - Share() == old(counters.activeTransactions - Share())
    {
      hide StepRun, StepPage, StepBegin, StepCommit, StepRollback, StepHello, StepLogon;
      calls := [];
      match msg
      case Hello(_, _) =>
        outcome := ProcessHello(msg, ans);
      case Logon(_, _) =>
        outcome := ProcessLogon(msg, ans);
      case Logoff =>
        calls := RollbackActiveTransaction();
        authenticated := !authEnabled;
        principal := None;
        outcome := Ok([Success]);
      case Run(_, _) =>
        outcome, calls := ProcessRun(msg, ans);
      case Pull(_, _) =>
        outcome := ProcessPage(msg);
      case Discard(_, _) =>
        outcome := ProcessPage(msg);
      case Begin(_) =>
        outcome, calls := ProcessBegin(msg, ans);
      case Commit =>
        outcome, calls := ProcessCommit(ans);
      case Rollback =>
        outcome, calls := ProcessRollback(ans);
      case Reset =>
        calls := RollbackActiveTransaction();
        cursors := map[];
        lastQid := None;
        outcome := Ok([Success]);
      case Route =>
        outcome := Ok([if authEnabled && !authenticated then Failure(UNAUTHORIZED) else Success]);
    }

    /** The session goes away; a guard it still holds goes with it. */
    method Drop()
      requires Guarded()
      modifies this`guard, counters
      ensures !guard
      ensures counters != null ==> counters.activeTransactions == old(counters.activeTransactions - Share())
    {
      if guard {
        counters.activeTransactions := counters.activeTransactions - 1;
        guard := false;
      }
    }
  }
}

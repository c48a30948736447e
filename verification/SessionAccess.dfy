/** Whom the executor's calls are made for and whom rows are served to, over every sequence of messages. */
module SessionAccess {
  import opened Session
  import opened SessionCursors
  import opened SessionRuns
  import opened Wrappers

  // ---------- A transaction and the principal that began it ----------

  function Beginner(owner: Option<Principal>, c: Call): Option<Principal> {
    if Begins(c) then c.principal else owner
  }

  /** The principal of the last transaction begun in `calls`, or `owner` if none is. */
  function LastBeginner(owner: Option<Principal>, calls: seq<Call>): Option<Principal>
    decreases |calls|
  {
    if calls == [] then owner else LastBeginner(Beginner(owner, calls[0]), calls[1..])
  }

  /** A call made in a transaction, in a session of `principal`, is made for the owner of the transaction. */
  predicate MadeFor(c: Call, principal: Option<Principal>, owner: Option<Principal>) {
    match c
    case RunCall(caller, tx, _, _) => tx.Some? ==> caller == owner
    case CommitCall(_) => principal == owner
    case _ => true
  }

  /** Whatever message comes next, the query or commit it makes is made for the owner. */
  ghost predicate ServesOwner(s: SessionState, owner: Option<Principal>)
    requires WellIndexed(s)
  {
    forall msg, ans, c | c in Step(s, msg, ans).calls :: MadeFor(c, s.principal, owner)
  }

  /** Somebody else than the owner is logged in while the transaction is held. */
  predicate Foreign(s: SessionState, owner: Option<Principal>) {
    s.transaction.Some? && !AuthenticationRequired(s) && s.principal != owner
  }

  predicate HasCredentials(msg: Message) {
    (msg.Hello? && msg.credentials.Some?) || (msg.Logon? && msg.username.Some? && msg.password.Some?)
  }

  /** HELLO or LOGON logs somebody else in than the owner of the transaction held. */
  predicate TakesOver(s: SessionState, owner: Option<Principal>, msg: Message, ans: Answers) {
    s.authEnabled && s.transaction.Some? && HasCredentials(msg) && ans.login.Ok? && Some(ans.login.value) != owner
  }

  lemma CallsAreMadeFor(s: SessionState, owner: Option<Principal>, msg: Message, ans: Answers, c: Call)
    requires WellIndexed(s) && !Foreign(s, owner) && c in Step(s, msg, ans).calls
    ensures MadeFor(c, s.principal, owner)
  {
    hide OpenCursor, Advance, Slice, Records, WellIndexed, RunDatabase;
  }

  lemma ServesOwnerExactly(s: SessionState, owner: Option<Principal>)
    requires WellIndexed(s)
    ensures ServesOwner(s, owner) <==> !Foreign(s, owner)
  {
    hide WellIndexed, MadeFor, Step;
    if !Foreign(s, owner) {
      forall msg, ans, c | c in Step(s, msg, ans).calls ensures MadeFor(c, s.principal, owner) {
        CallsAreMadeFor(s, owner, msg, ans, c);
      }
    } else {
      ForeignQuery(s, owner);
    }
  }

  lemma ForeignQuery(s: SessionState, owner: Option<Principal>)
    requires WellIndexed(s) && Foreign(s, owner)
    ensures exists msg, ans, c :: c in Step(s, msg, ans).calls && !MadeFor(c, s.principal, owner)
  {
    hide WellIndexed;
    var msg, ans := Run("", None), Answers(Err(""), TaskFailed, Err(""), Err(""), Err(""));
    var c := RunCall(s.principal, s.transaction, RunDatabase(s, None), "");
    assert Step(s, msg, ans).calls == [c];
    assert c in Step(s, msg, ans).calls && !MadeFor(c, s.principal, owner);
  }

  lemma StepOwner(s: SessionState, owner: Option<Principal>, msg: Message, ans: Answers)
    requires Well(s) && !Foreign(s, owner)
    ensures var stepped := Step(s, msg, ans);
      Foreign(stepped.session, LastBeginner(owner, stepped.calls)) <==> TakesOver(s, owner, msg, ans)
  {
    hide OpenCursor, StepPage;
    if msg.Pull? || msg.Discard? {
      PageOnlyPages(s, msg);
    } else if msg.Run? && ans.run.Rows? {
      OpenOnlyOpens(s, ans.run.rows);
    }
  }

  /** At every point of a run calls are made for the owner of the transaction held there. */
  ghost predicate AlwaysServesOwner(s: SessionState, owner: Option<Principal>, inputs: seq<Input>)
    requires Well(s)
    decreases |inputs|
  {
    hide Step;
    if inputs == [] then ServesOwner(s, owner)
    else
      StepKeepsWell(s, inputs[0].msg, inputs[0].answers);
      var stepped := Step(s, inputs[0].msg, inputs[0].answers);
      ServesOwner(s, owner) && AlwaysServesOwner(stepped.session, LastBeginner(owner, stepped.calls), inputs[1..])
  }

  ghost predicate NeverTakenOver(s: SessionState, owner: Option<Principal>, inputs: seq<Input>)
    requires Well(s)
    decreases |inputs|
  {
    hide Step;
    if inputs == [] then true
    else
      StepKeepsWell(s, inputs[0].msg, inputs[0].answers);
      var stepped := Step(s, inputs[0].msg, inputs[0].answers);
      && !TakesOver(s, owner, inputs[0].msg, inputs[0].answers)
      && NeverTakenOver(stepped.session, LastBeginner(owner, stepped.calls), inputs[1..])
  }

  /** The queries and the commit of a transaction are made for the principal that began it, at every point of
      a run, exactly if nobody else logs in while a transaction is held. */
  lemma {:induction false} OwnersAreServedIff(s: SessionState, owner: Option<Principal>, inputs: seq<Input>)
    requires Well(s)
    ensures AlwaysServesOwner(s, owner, inputs) <==> !Foreign(s, owner) && NeverTakenOver(s, owner, inputs)
    decreases |inputs|
  {
    hide Step, Well, Foreign, TakesOver, LastBeginner, ServesOwner;
    WellIsIndexed(s);
    ServesOwnerExactly(s, owner);
    if inputs != [] && !Foreign(s, owner) {
      var msg, ans := inputs[0].msg, inputs[0].answers;
      StepKeepsWell(s, msg, ans);
      StepOwner(s, owner, msg, ans);
      var stepped := Step(s, msg, ans);
      OwnersAreServedIff(stepped.session, LastBeginner(owner, stepped.calls), inputs[1..]);
    }
  }

  /** Every query of a transaction in the log was made for the principal of the begin before it. */
  predicate OwnersKept(owner: Option<Principal>, calls: seq<Call>)
    decreases |calls|
  {
    calls == []
    || (&& (calls[0].RunCall? && calls[0].transaction.Some? ==> calls[0].principal == owner)
        && OwnersKept(Beginner(owner, calls[0]), calls[1..]))
  }

  lemma {:induction false} OwnersAppend(owner: Option<Principal>, a: seq<Call>, b: seq<Call>)
    ensures OwnersKept(owner, a + b) <==> OwnersKept(owner, a) && OwnersKept(LastBeginner(owner, a), b)
    ensures LastBeginner(owner, a + b) == LastBeginner(LastBeginner(owner, a), b)
    decreases |a|
  {
    if a == [] {
      assert a + b == b;
    } else {
      assert (a + b)[1..] == a[1..] + b;
      OwnersAppend(Beginner(owner, a[0]), a[1..], b);
    }
  }

  lemma OneCallKeepsOwners(owner: Option<Principal>, calls: seq<Call>)
    requires |calls| == 1 || (|calls| == 2 && calls[1].RollbackCall?)
    requires calls[0].RunCall? && calls[0].transaction.Some? ==> calls[0].principal == owner
    ensures OwnersKept(owner, calls)
  {
    if |calls| == 2 {
      assert calls[1..] == [calls[1]] && calls[1..][1..] == [];
    } else {
      assert calls[1..] == [];
    }
  }

  lemma StepKeepsOwners(s: SessionState, owner: Option<Principal>, msg: Message, ans: Answers)
    requires WellIndexed(s) && ServesOwner(s, owner)
    ensures OwnersKept(owner, Step(s, msg, ans).calls)
  {
    hide OpenCursor, StepPage, WellIndexed;
    var calls := Step(s, msg, ans).calls;
    if msg.Pull? || msg.Discard? {
      PageOnlyPages(s, msg);
    }
    if calls != [] {
      assert calls[0] in calls;
      assert MadeFor(calls[0], s.principal, owner);
      OneCallKeepsOwners(owner, calls);
    }
  }

  lemma {:induction false} LogKeepsOwners(s: SessionState, owner: Option<Principal>, inputs: seq<Input>)
    requires Well(s) && !Foreign(s, owner) && NeverTakenOver(s, owner, inputs)
    ensures OwnersKept(owner, CallsOf(s, inputs))
    decreases |inputs|
  {
    hide Step, Well, Foreign, TakesOver, LastBeginner, ServesOwner, OwnersKept;
    if inputs == [] {
      NoCallsKeepOwners(owner);
    } else {
      var msg, ans := inputs[0].msg, inputs[0].answers;
      WellIsIndexed(s);
      StepKeepsWell(s, msg, ans);
      ServesOwnerExactly(s, owner);
      StepOwner(s, owner, msg, ans);
      StepKeepsOwners(s, owner, msg, ans);
      var stepped := Step(s, msg, ans);
      var owner' := LastBeginner(owner, stepped.calls);
      LogKeepsOwners(stepped.session, owner', inputs[1..]);
      OwnersAppend(owner, stepped.calls, CallsOf(stepped.session, inputs[1..]));
    }
  }

  lemma NoCallsKeepOwners(owner: Option<Principal>)
    ensures OwnersKept(owner, [])
  {
  }

  /** A LOGON that the authentication provider accepts. */
  function LogonOf(p: Principal, ans: Answers): Input {
    Input(Logon(Some(p.name), Some("")), ans.(login := Ok(p)))
  }

  /** The session lets `b` query in the transaction that `a` began. */
  lemma TakeoverHappens(counted: bool, a: Principal, b: Principal, tx: Transaction, query: string, ans: Answers)
    requires ans.begin == Ok(tx) && ans.run.Rows? && a != b
    ensures var s, inputs := NewSession(true, counted),
                             [LogonOf(a, ans), Input(Begin(None), ans), LogonOf(b, ans), Input(Run(query, None), ans)];
      && CallsOf(s, inputs) == [BeginCall(Some(a), DEFAULT_DATABASE, Some(tx)), RunCall(Some(b), Some(tx), tx.database, query)]
      && !OwnersKept(None, CallsOf(s, inputs))
  {
    hide OpenCursor, Advance, Slice, Records, Well;
    var s := NewSession(true, counted);
    var inputs := [LogonOf(a, ans), Input(Begin(None), ans), LogonOf(b, ans), Input(Run(query, None), ans)];
    NewIsWell(true, counted);
    StepKeepsWell(s, inputs[0].msg, inputs[0].answers);
    var s1 := Step(s, inputs[0].msg, inputs[0].answers).session;
    StepKeepsWell(s1, inputs[1].msg, inputs[1].answers);
    var s2 := Step(s1, inputs[1].msg, inputs[1].answers).session;
    StepKeepsWell(s2, inputs[2].msg, inputs[2].answers);
    var s3 := Step(s2, inputs[2].msg, inputs[2].answers).session;
    assert inputs[1..][1..][1..] == [inputs[3]] && inputs[1..][1..][1..][1..] == [];
    assert CallsOf(s3, [inputs[3]]) == [RunCall(Some(b), Some(tx), tx.database, query)];
    assert CallsOf(s2, inputs[1..][1..]) == [RunCall(Some(b), Some(tx), tx.database, query)];
  }

  // ---------- Rows and the login ----------

  /** Whatever message comes next, rows are answered only to an authenticated session. */
  ghost predicate ServesUsersOnly(s: SessionState)
    requires WellIndexed(s)
  {
    forall msg, ans | AnswersRows(Step(s, msg, ans)) :: !AuthenticationRequired(s)
  }

  ghost predicate AnswersRows(stepped: Stepped) {
    stepped.outcome.Ok? && exists i | 0 <= i < |stepped.outcome.value| :: stepped.outcome.value[i].Record?
  }

  predicate HasRowsLeft(s: SessionState) {
    exists q | q in s.cursors :: s.cursors[q].index < |s.cursors[q].rows|
  }

  /** Nobody is logged in, and a cursor has rows left. */
  predicate Exposed(s: SessionState) {
    AuthenticationRequired(s) && HasRowsLeft(s)
  }

  /** LOGOFF, or HELLO without a successful login, of a session whose cursors have rows left. */
  predicate Abandons(s: SessionState, msg: Message, ans: Answers) {
    && s.authEnabled && s.authenticated && HasRowsLeft(s)
    && (msg.Logoff? || (msg.Hello? && !(msg.credentials.Some? && ans.login.Ok?)))
  }

  lemma RowsComeFromCursors(s: SessionState, msg: Message, ans: Answers)
    requires WellIndexed(s) && AnswersRows(Step(s, msg, ans))
    ensures msg.Pull? && HasRowsLeft(s)
  {
    hide OpenCursor, Advance;
  }

  lemma ExposedRowsAreServed(s: SessionState)
    requires WellIndexed(s) && Exposed(s) && -1 !in s.cursors
    ensures exists msg, ans :: AnswersRows(Step(s, msg, ans)) && AuthenticationRequired(s)
  {
    hide OpenCursor, Advance, WellIndexed;
    var q :| q in s.cursors && s.cursors[q].index < |s.cursors[q].rows|;
    var msg, ans := Pull(-1, q), Answers(Err(""), TaskFailed, Err(""), Err(""), Err(""));
    assert Step(s, msg, ans).outcome.value[0].Record?;
  }

  lemma ServesUsersExactly(s: SessionState)
    requires WellIndexed(s)
    ensures !Exposed(s) ==> ServesUsersOnly(s)
    ensures TableOk(s) && ServesUsersOnly(s) ==> !Exposed(s)
  {
    hide Step, WellIndexed, HasRowsLeft, AnswersRows;
    forall msg, ans | AnswersRows(Step(s, msg, ans)) && !Exposed(s) ensures !AuthenticationRequired(s) {
      RowsComeFromCursors(s, msg, ans);
    }
    if Exposed(s) && TableOk(s) {
      ExposedRowsAreServed(s);
    }
  }

  lemma PagesLeaveNoMore(s: SessionState, msg: Message)
    requires (msg.Pull? || msg.Discard?) && WellIndexed(s) && HasRowsLeft(StepPage(s, msg).session)
    ensures HasRowsLeft(s)
  {
    hide Advance, Records, Slice;
    var qid := CursorQid(s, msg.qid);
    if qid.Some? && qid.value in s.cursors {
      AdvanceMoves(s, qid.value, msg.n);
    }
  }

  /** What a message does to the login. */
  lemma LoginByKind(s: SessionState, msg: Message, ans: Answers)
    requires WellIndexed(s)
    ensures var s' := Step(s, msg, ans).session;
      s'.authEnabled == s.authEnabled
      && s'.authenticated == if msg.Logoff? then !s.authEnabled
                             else if msg.Hello? then !s.authEnabled || (msg.credentials.Some? && ans.login.Ok?)
                             else if s.authEnabled && HasCredentials(msg) && ans.login.Ok? then true
                             else s.authenticated
  {
    hide OpenCursor, StepPage, WellIndexed;
    if msg.Pull? || msg.Discard? {
      PageOnlyPages(s, msg);
    } else if msg.Run? && ans.run.Rows? {
      OpenOnlyOpens(s, ans.run.rows);
    }
  }

  lemma StepExposed(s: SessionState, msg: Message, ans: Answers)
    requires Well(s) && !Exposed(s)
    ensures Exposed(Step(s, msg, ans).session) <==> Abandons(s, msg, ans)
  {
    hide Step, OpenCursor, StepPage, WellIndexed, HasRowsLeft, SwitchesDatabase;
    WellIsIndexed(s);
    StepByKind(s, msg, ans);
    LoginByKind(s, msg, ans);
    if msg.Pull? || msg.Discard? {
      PageOnlyPages(s, msg);
      if HasRowsLeft(StepPage(s, msg).session) {
        PagesLeaveNoMore(s, msg);
      }
    } else if msg.Reset? {
      NoCursorsNoRows(Step(s, msg, ans).session);
    } else if !Opens(s, msg, ans) {
      SameCursorsSameRows(s, Step(s, msg, ans).session);
    }
  }

  lemma NoCursorsNoRows(s: SessionState)
    requires s.cursors == map[]
    ensures !HasRowsLeft(s)
  {
  }

  lemma SameCursorsSameRows(s: SessionState, s': SessionState)
    requires s.cursors == s'.cursors
    ensures HasRowsLeft(s) <==> HasRowsLeft(s')
  {
  }

  ghost predicate AlwaysServesUsersOnly(s: SessionState, inputs: seq<Input>)
    requires Well(s)
    decreases |inputs|
  {
    hide Step;
    if inputs == [] then ServesUsersOnly(s)
    else
      StepKeepsWell(s, inputs[0].msg, inputs[0].answers);
      ServesUsersOnly(s) && AlwaysServesUsersOnly(Step(s, inputs[0].msg, inputs[0].answers).session, inputs[1..])
  }

  ghost predicate NeverAbandoned(s: SessionState, inputs: seq<Input>)
    requires Well(s)
    decreases |inputs|
  {
    hide Step;
    if inputs == [] then true
    else
      StepKeepsWell(s, inputs[0].msg, inputs[0].answers);
      && !Abandons(s, inputs[0].msg, inputs[0].answers)
      && NeverAbandoned(Step(s, inputs[0].msg, inputs[0].answers).session, inputs[1..])
  }

  /** With authentication on, rows are answered only to an authenticated session, at every point of a run,
      if no login is given up while a cursor has rows left; and only if, until query ids wrap around. */
  lemma {:induction false} UsersAreServedIff(s: SessionState, inputs: seq<Input>)
    requires Well(s)
    ensures !Exposed(s) && NeverAbandoned(s, inputs) ==> AlwaysServesUsersOnly(s, inputs)
    ensures TableOk(s) && s.nextQid + |inputs| <= 0x7FFF_FFFF_FFFF_FFFF && AlwaysServesUsersOnly(s, inputs)
      ==> !Exposed(s) && NeverAbandoned(s, inputs)
    decreases |inputs|
  {
    hide Step, Well, Exposed, Abandons, ServesUsersOnly, TableOk;
    WellIsIndexed(s);
    ServesUsersExactly(s);
    if inputs != [] && !Exposed(s) {
      var msg, ans := inputs[0].msg, inputs[0].answers;
      StepKeepsWell(s, msg, ans);
      StepExposed(s, msg, ans);
      UsersAreServedIff(Step(s, msg, ans).session, inputs[1..]);
      if TableOk(s) && s.nextQid < 0x7FFF_FFFF_FFFF_FFFF {
        StepKeepsTable(s, msg, ans);
      }
    }
  }

  /** Every run of a new session, until query ids wrap around. */
  lemma NewSessionServesUsersIff(counted: bool, inputs: seq<Input>)
    requires |inputs| <= 0x7FFF_FFFF_FFFF_FFFF
    ensures Well(NewSession(true, counted))
    ensures AlwaysServesUsersOnly(NewSession(true, counted), inputs) <==> NeverAbandoned(NewSession(true, counted), inputs)
  {
    hide AlwaysServesUsersOnly, NeverAbandoned;
    NewIsWell(true, counted);
    UsersAreServedIff(NewSession(true, counted), inputs);
  }

  /** The rows of a query stay on offer after LOGOFF. */
  lemma AbandonedRowsAreServed(counted: bool, a: Principal, query: string, rows: seq<Row>, ans: Answers)
    requires ans.run == Rows(rows) && rows != []
    ensures Well(NewSession(true, counted))
    ensures var s' := After(NewSession(true, counted), [LogonOf(a, ans), Input(Run(query, None), ans), Input(Logoff, ans)]);
      AuthenticationRequired(s') && Step(s', Pull(-1, -1), ans).outcome == Ok(Records(rows) + [Served(false)])
  {
    hide Records, Well;
    var s := NewSession(true, counted);
    var inputs := [LogonOf(a, ans), Input(Run(query, None), ans), Input(Logoff, ans)];
    NewIsWell(true, counted);
    StepKeepsWell(s, inputs[0].msg, inputs[0].answers);
    var s1 := Step(s, inputs[0].msg, inputs[0].answers).session;
    StepKeepsWell(s1, inputs[1].msg, inputs[1].answers);
    var s2 := Step(s1, inputs[1].msg, inputs[1].answers).session;
    StepKeepsWell(s2, inputs[2].msg, inputs[2].answers);
    var s3 := Step(s2, inputs[2].msg, inputs[2].answers).session;
    assert inputs[1..][1..] == [inputs[2]] && inputs[1..][1..][1..] == [];
    assert After(s2, [inputs[2]]) == s3;
    assert After(s, inputs) == s3;
    assert Slice(Cursor(rows, 0), -1) == rows;
  }
}

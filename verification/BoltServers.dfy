/** A server with many sessions that share one counter of active transactions. */
module BoltServers {
  import opened BoltSessions
  import opened Session
  import opened SessionRuns
  import opened Wrappers

  class BoltServer {
    const authEnabled: bool
    const counters: BoltRuntimeCounters
    var sessions: map<int, BoltSession>

    constructor (authEnabled: bool)
      ensures Valid() && sessions == map[] && fresh(counters)
    {
      this.authEnabled := authEnabled;
      counters := new BoltRuntimeCounters();
      sessions := map[];
    }

    /** The sessions that hold a transaction. */
    ghost function Holding(): set<int>
      reads this, sessions.Values
    {
      set i | i in sessions && sessions[i].transaction.Some?
    }

    /** The counter is the number of sessions that hold a transaction. */
    ghost predicate Valid()
      reads this, counters, sessions.Values
    {
      && (forall i | i in sessions :: sessions[i].counters == counters && sessions[i].Guarded() && Well(sessions[i].View()))
      && (forall i, j | i in sessions && j in sessions && i != j :: sessions[i] != sessions[j])
      && counters.activeTransactions == |Holding()|
    }

    method Connect(id: int)
      requires Valid() && id !in sessions
      modifies this`sessions
      ensures Valid() && sessions.Keys == old(sessions.Keys) + {id} && Holding() == old(Holding())
    {
      var session := new BoltSession(authEnabled, counters);
      sessions := sessions[id := session];
      NewIsWell(authEnabled, true);
      assert Holding() == old(Holding());
    }

    method Handle(id: int, msg: Message, ans: Answers) returns (outcome: Result<seq<Reply>, SessionError>, calls: seq<Call>)
      requires Valid() && id in sessions
      modifies sessions[id], counters
      ensures Valid() && sessions == old(sessions)
      ensures Stepped(sessions[id].View(), outcome, calls) == Step(old(sessions[id].View()), msg, ans)
      ensures Holding() - {id} == old(Holding()) - {id}
    {
      hide Step;
      var session := sessions[id];
      ghost var before := session.View();
      StepKeepsWell(before, msg, ans);
      outcome, calls := session.ProcessMessage(msg, ans);
      assert Well(session.View());
      assert forall i | i in sessions && i != id :: sessions[i] != session;
      Recount(old(Holding()), Holding(), id);
    }

    method Disconnect(id: int)
      requires Valid() && id in sessions
      modifies this`sessions, sessions[id], counters
      ensures Valid() && sessions == old(sessions) - {id} && Holding() == old(Holding()) - {id}
    {
      hide Well;
      var session := sessions[id];
      sessions := sessions - {id};
      assert forall i | i in sessions :: sessions[i] == old(sessions)[i] && sessions[i] != session;
      session.Drop();
      assert forall i | i in sessions :: sessions[i].View() == old(sessions[i].View()) && sessions[i].Guarded();
      assert Holding() == old(Holding()) - {id};
      Recount(old(Holding()), Holding(), id);
    }
  }

  lemma Recount(before: set<int>, after: set<int>, id: int)
    requires before - {id} == after - {id}
    ensures |after| - (if id in after then 1 else 0) == |before| - (if id in before then 1 else 0)
  {
    assert before == (before - {id}) + (if id in before then {id} else {});
    assert after == (after - {id}) + (if id in after then {id} else {});
  }
}

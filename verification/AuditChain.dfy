/** When the audit chain verifies after any run of one log, and what is never lost. */
module AuditChain {
  import opened Audit
  import opened Wrappers

  // ---------- Loading ----------

  lemma LogSequence(h: Hasher, log: seq<Event>, i: nat)
    requires Verifies(h, log) && i < |log|
    ensures log[i].sequence == i + 1
  {
    assert Linked(h, log, i);
  }

  /** Every loaded event stands in the log, at the place its number says. */
  lemma LoadedInLog(h: Hasher, records: map<Key, Event>, log: seq<Event>, events: seq<Event>, i: nat)
    requires Verifies(h, log) && Holds(records, log) && Loads(records, events) && i < |events|
    ensures 1 <= events[i].sequence <= |log| && log[events[i].sequence - 1] == events[i]
  {
    hide Linked, Verifies;
    var k := KeyOf(events[i]);
    var j :| 0 <= j < |log| && KeyOf(log[j]) == k;
    LogSequence(h, log, j);
  }

  lemma LoadedIncrease(h: Hasher, records: map<Key, Event>, log: seq<Event>, events: seq<Event>, i: nat, j: nat)
    requires Verifies(h, log) && Holds(records, log) && Loads(records, events) && i < j < |events|
    ensures events[i].sequence < events[j].sequence
  {
    hide Linked, Verifies, Holds;
    LoadedInLog(h, records, log, events, i);
    LoadedInLog(h, records, log, events, j);
  }

  lemma {:induction false} LoadedPlaces(h: Hasher, records: map<Key, Event>, log: seq<Event>, events: seq<Event>, n: nat)
    requires Verifies(h, log) && Holds(records, log) && Loads(records, events) && n <= |events| && n <= |log|
    ensures forall i | 0 <= i < n :: events[i] == log[i]
  {
    hide Linked, Verifies, Holds, Loads;
    if n > 0 {
      LoadedPlaces(h, records, log, events, n - 1);
      LoadedInLog(h, records, log, events, n - 1);
      LogSequence(h, log, n - 1);
      if n > 1 {
        LogSequence(h, log, n - 2);
        LoadedIncrease(h, records, log, events, n - 2, n - 1);
      }
      var i := LogIsLoaded(h, records, log, events, n - 1);
      if i < n - 1 {
        LogSequence(h, log, i);
      } else if n - 1 < i {
        LoadedIncrease(h, records, log, events, n - 1, i);
      }
    }
  }

  lemma LogIsLoaded(h: Hasher, records: map<Key, Event>, log: seq<Event>, events: seq<Event>, j: nat) returns (i: nat)
    requires Holds(records, log) && Loads(records, events) && j < |log|
    ensures i < |events| && events[i] == log[j]
  {
    assert KeyOf(log[j]) in records;
    i :| 0 <= i < |events| && events[i] == records[KeyOf(log[j])];
  }

  /** However the store returns them, a verified chain's records load in its order. */
  lemma LoadIsTheLog(h: Hasher, records: map<Key, Event>, log: seq<Event>, events: seq<Event>)
    requires Verifies(h, log) && Holds(records, log) && Loads(records, events)
    ensures events == log
  {
    hide Linked, Verifies, Holds;
    var n := if |events| <= |log| then |events| else |log|;
    LoadedPlaces(h, records, log, events, n);
    if |events| < |log| {
      var i := LogIsLoaded(h, records, log, events, |log| - 1);
      LogSequence(h, log, |log| - 1);
      LogSequence(h, log, i);
      assert false;
    }
    if |log| < |events| {
      LoadedInLog(h, records, log, events, |log|);
      assert false;
    }
  }

  lemma SpoiledDoesNotVerify(h: Hasher, c: Chain, log: seq<Event>, events: seq<Event>)
    requires Fits(h, c, Spoiled, log) && Loads(c.records, events)
    ensures !Verifies(h, events)
  {
    hide Verifies, Linked;
    var j, k :| j in c.records && k in c.records && j != k && j.sequence == k.sequence;
    var a :| 0 <= a < |events| && events[a] == c.records[j];
    var b :| 0 <= b < |events| && events[b] == c.records[k];
    assert KeyOf(events[a]) == j && KeyOf(events[b]) == k;
    if Verifies(h, events) {
      LogSequence(h, events, a);
      LogSequence(h, events, b);
      assert false;
    }
  }

  // ---------- One step ----------

  /** The events in order after a step. */
  ghost function NextLog(h: Hasher, c: Chain, health: Health, op: Op, log: seq<Event>): seq<Event> {
    match op
    case Reload(_) => log
    case Write(e, outcome) =>
      if outcome == NotStored || health.Spoiled? then log
      else if health.Owing? && log != [] then log[..|log| - 1] + [Sealed(h, c, e)]
      else log + [Sealed(h, c, e)]
  }

  lemma Extended(h: Hasher, log: seq<Event>, s: Event)
    requires Verifies(h, log) && s.sequence == |log| + 1 && s.previousHash == HashBefore(log, |log|)
    requires s.hash == Some(HashEvent(h, s))
    ensures Verifies(h, log + [s])
  {
    forall i | 0 <= i < |log + [s]| ensures Linked(h, log + [s], i) {
      if i < |log| {
        assert Linked(h, log, i);
      }
    }
  }

  lemma HoldsOneMore(h: Hasher, records: map<Key, Event>, log: seq<Event>, s: Event)
    requires Holds(records, log) && Verifies(h, log) && s.sequence == |log| + 1
    ensures Holds(records[KeyOf(s) := s], log + [s])
  {
    hide Verifies, Linked;
    forall i | 0 <= i < |log| ensures KeyOf(log[i]) != KeyOf(s) {
      LogSequence(h, log, i);
    }
    var records' := records[KeyOf(s) := s];
    forall k | k in records' ensures exists i :: 0 <= i < |log + [s]| && KeyOf((log + [s])[i]) == k {
      if k == KeyOf(s) {
        assert (log + [s])[|log|] == s;
      } else {
        var i :| 0 <= i < |log| && KeyOf(log[i]) == k;
        assert (log + [s])[i] == log[i];
      }
    }
  }

  /** Writing the owed event's id and time again replaces it. */
  lemma HoldsReplaced(h: Hasher, records: map<Key, Event>, log: seq<Event>, s: Event)
    requires log != [] && Holds(records, log) && Verifies(h, log) && KeyOf(log[|log| - 1]) == KeyOf(s)
    ensures Holds(records[KeyOf(s) := s], log[..|log| - 1] + [s])
  {
    hide Verifies, Linked;
    var n := |log| - 1;
    var log' := log[..n] + [s];
    LogSequence(h, log, n);
    forall i | 0 <= i < n ensures KeyOf(log[i]) != KeyOf(s) && log'[i] == log[i] {
      LogSequence(h, log, i);
    }
    assert log'[n] == s;
    var records' := records[KeyOf(s) := s];
    forall k | k in records' ensures exists i :: 0 <= i < |log'| && KeyOf(log'[i]) == k {
      if k != KeyOf(s) {
        var i :| 0 <= i < |log| && KeyOf(log[i]) == k;
        assert i < n && log'[i] == log[i];
      }
    }
  }

  lemma WriteInOrder(h: Hasher, c: Chain, e: Event, outcome: WriteOutcome, log: seq<Event>)
    requires Fits(h, c, InOrder, log) && outcome != NotStored
    ensures Fits(h, Written(h, c, e, outcome), NextHealth(InOrder, Write(e, outcome)), log + [Sealed(h, c, e)])
  {
    hide Verifies, Linked, Holds, Sealed;
    var s := Sealed(h, c, e);
    Extended(h, log, s);
    HoldsOneMore(h, c.records, log, s);
    assert (log + [s])[..|log|] == log;
    assert HashBefore(log + [s], |log|) == HashBefore(log, |log|);
  }

  lemma WriteOwing(h: Hasher, c: Chain, e: Event, outcome: WriteOutcome, timestamp: int, id: string, log: seq<Event>)
    requires Fits(h, c, Owing(timestamp, id), log) && outcome != NotStored && e.timestamp == timestamp && e.id == id
    ensures Fits(h, Written(h, c, e, outcome), NextHealth(Owing(timestamp, id), Write(e, outcome)),
                 log[..|log| - 1] + [Sealed(h, c, e)])
  {
    hide Verifies, Linked, Holds, Sealed;
    var s, n := Sealed(h, c, e), |log| - 1;
    var log' := log[..n] + [s];
    AllLinked(h, log);
    PrefixVerifies(h, log, n);
    assert HashBefore(log[..n], n) == HashBefore(log, n) == HashBefore(log', n);
    Extended(h, log[..n], s);
    HoldsReplaced(h, c.records, log, s);
  }

  lemma AllLinked(h: Hasher, log: seq<Event>)
    requires Verifies(h, log)
    ensures forall i | 0 <= i < |log| :: Linked(h, log, i)
  {
  }

  lemma WriteSpoils(h: Hasher, c: Chain, e: Event, outcome: WriteOutcome, timestamp: int, id: string, log: seq<Event>)
    requires Fits(h, c, Owing(timestamp, id), log) && outcome != NotStored && (e.timestamp != timestamp || e.id != id)
    ensures Fits(h, Written(h, c, e, outcome), Spoiled, log)
  {
    hide Verifies, Linked, Sealed;
    var c', j, k := Written(h, c, e, outcome), KeyOf(log[|log| - 1]), KeyOf(Sealed(h, c, e));
    assert j in c'.records && k in c'.records && j != k && j.sequence == k.sequence;
  }

  lemma ReloadFits(h: Hasher, c: Chain, health: Health, events: seq<Event>, log: seq<Event>)
    requires Fits(h, c, health, log) && Loads(c.records, events)
    ensures Fits(h, Reloaded(c.records, events), NextHealth(health, Reload(events)), log)
  {
    hide Verifies, Linked, Holds, Loads;
    if !health.Spoiled? {
      LoadIsTheLog(h, c.records, log, events);
      if log != [] {
        LogSequence(h, log, |log| - 1);
      }
    }
  }

  lemma StepFits(h: Hasher, c: Chain, health: Health, op: Op, log: seq<Event>)
    requires Fits(h, c, health, log) && Enabled(c, op)
    ensures Fits(h, Apply(h, c, op), NextHealth(health, op), NextLog(h, c, health, op, log))
  {
    hide Verifies, Linked, Holds, Loads, Sealed;
    match op
    case Reload(events) => ReloadFits(h, c, health, events, log);
    case Write(e, outcome) =>
      if outcome != NotStored {
        match health
        case InOrder => WriteInOrder(h, c, e, outcome, log);
        case Owing(timestamp, id) =>
          if e.timestamp == timestamp && e.id == id {
            WriteOwing(h, c, e, outcome, timestamp, id, log);
          } else {
            WriteSpoils(h, c, e, outcome, timestamp, id, log);
          }
        case Spoiled =>
          var j, k :| j in c.records && k in c.records && j != k && j.sequence == k.sequence;
          assert j in Written(h, c, e, outcome).records && k in Written(h, c, e, outcome).records;
      }
  }

  // ---------- Whole runs ----------

  function ApplyAll(h: Hasher, c: Chain, ops: seq<Op>): Chain
    decreases |ops|
  {
    if ops == [] then c else ApplyAll(h, Apply(h, c, ops[0]), ops[1..])
  }

  ghost predicate Possible(h: Hasher, c: Chain, ops: seq<Op>)
    decreases |ops|
  {
    ops != [] ==> Enabled(c, ops[0]) && Possible(h, Apply(h, c, ops[0]), ops[1..])
  }

  function HealthAfter(health: Health, ops: seq<Op>): Health
    decreases |ops|
  {
    if ops == [] then health else HealthAfter(NextHealth(health, ops[0]), ops[1..])
  }

  lemma {:induction false} RunFits(h: Hasher, c: Chain, health: Health, ops: seq<Op>, log: seq<Event>)
    returns (end: seq<Event>)
    requires Fits(h, c, health, log) && Possible(h, c, ops)
    ensures Fits(h, ApplyAll(h, c, ops), HealthAfter(health, ops), end)
    decreases |ops|
  {
    hide Fits, Apply, NextHealth;
    if ops == [] {
      end := log;
    } else {
      StepFits(h, c, health, ops[0], log);
      end := RunFits(h, Apply(h, c, ops[0]), NextHealth(health, ops[0]), ops[1..], NextLog(h, c, health, ops[0], log));
    }
  }

  const EMPTY := Chain(map[], 1, None)

  /** After any run of one log on an empty store, whatever order the store returns: the chain verifies exactly
      when no write stored a second event under the number of one whose write had failed after storing. */
  lemma ChainVerifiesIff(h: Hasher, ops: seq<Op>, events: seq<Event>)
    requires Possible(h, EMPTY, ops) && Loads(ApplyAll(h, EMPTY, ops).records, events)
    ensures Verifies(h, events) <==> HealthAfter(InOrder, ops) != Spoiled
  {
    hide Verifies, Linked, Holds, Loads, Possible, ApplyAll, HealthAfter;
    EmptyFits(h);
    var c, health := ApplyAll(h, EMPTY, ops), HealthAfter(InOrder, ops);
    var log := RunFits(h, EMPTY, InOrder, ops, []);
    if health.Spoiled? {
      SpoiledDoesNotVerify(h, c, log, events);
    } else {
      LoadIsTheLog(h, c.records, log, events);
    }
  }

  lemma EmptyFits(h: Hasher)
    ensures Fits(h, EMPTY, InOrder, [])
  {
  }

  predicate WritesAreClean(ops: seq<Op>) {
    forall i | 0 <= i < |ops| :: ops[i].Write? ==> ops[i].outcome != StoredNotFlushed
  }

  /** In particular it verifies whenever failed writes store nothing. */
  lemma {:induction false} CleanFailuresKeepTheChain(ops: seq<Op>)
    requires WritesAreClean(ops)
    ensures HealthAfter(InOrder, ops) == InOrder
    decreases |ops|
  {
    if ops != [] {
      assert NextHealth(InOrder, ops[0]) == InOrder;
      CleanFailuresKeepTheChain(ops[1..]);
    }
  }

  /** A failed flush and a write of another event after it: the chain no longer verifies. */
  lemma FailedFlushSpoils(h: Hasher, a: Event, b: Event, events: seq<Event>)
    requires a.id != b.id
    requires var ops := [Write(a, StoredNotFlushed), Write(b, Stored)];
      Possible(h, EMPTY, ops) && Loads(ApplyAll(h, EMPTY, ops).records, events)
    ensures !Verifies(h, events)
  {
    hide Verifies, Loads, Possible, ApplyAll;
    var ops := [Write(a, StoredNotFlushed), Write(b, Stored)];
    ChainVerifiesIff(h, ops, events);
    assert ops[1..] == [Write(b, Stored)] && ops[1..][1..] == [];
    assert HealthAfter(InOrder, ops) == HealthAfter(Owing(a.timestamp, a.id), ops[1..]) == HealthAfter(Spoiled, []);
  }

  // ---------- Nothing acknowledged is lost ----------

  ghost predicate Numbered(c: Chain) {
    forall k | k in c.records :: KeyOf(c.records[k]) == k
  }

  /** `e` is stored, and its number is used up. */
  ghost predicate Kept(c: Chain, e: Event) {
    KeyOf(e) in c.records && c.records[KeyOf(e)] == e && e.sequence < c.nextSequence
  }

  lemma StepKeeps(h: Hasher, c: Chain, op: Op, e: Event)
    requires Numbered(c) && Kept(c, e) && Enabled(c, op)
    ensures Numbered(Apply(h, c, op)) && Kept(Apply(h, c, op), e)
  {
    hide Sealed;
    if op.Reload? {
      var i :| 0 <= i < |op.events| && op.events[i] == c.records[KeyOf(e)];
      assert op.events[i].sequence <= op.events[|op.events| - 1].sequence;
    }
  }

  lemma {:induction false} KeptStays(h: Hasher, c: Chain, ops: seq<Op>, e: Event)
    requires Numbered(c) && Kept(c, e) && Possible(h, c, ops)
    ensures Kept(ApplyAll(h, c, ops), e)
    decreases |ops|
  {
    hide Numbered, Kept, Apply, Enabled;
    if ops != [] {
      StepKeeps(h, c, ops[0], e);
      KeptStays(h, Apply(h, c, ops[0]), ops[1..], e);
    }
  }

  lemma SuccessIsKept(h: Hasher, c: Chain, e: Event)
    requires Numbered(c)
    ensures Numbered(Written(h, c, e, Stored)) && Kept(Written(h, c, e, Stored), Sealed(h, c, e))
  {
    hide Sealed;
  }

  lemma StepNumbers(h: Hasher, c: Chain, op: Op)
    requires Numbered(c)
    ensures Numbered(Apply(h, c, op))
  {
    hide Sealed;
  }

  lemma {:induction false} SuccessStays(h: Hasher, c: Chain, ops: seq<Op>, i: nat)
    requires Numbered(c) && Possible(h, c, ops) && i < |ops| && ops[i].Write? && ops[i].outcome == Stored
    ensures Kept(ApplyAll(h, c, ops), Sealed(h, ApplyAll(h, c, ops[..i]), ops[i].event))
    decreases i
  {
    hide Numbered, Kept, Enabled, Sealed;
    if i == 0 {
      SuccessIsKept(h, c, ops[0].event);
      KeptStays(h, Apply(h, c, ops[0]), ops[1..], Sealed(h, c, ops[0].event));
    } else {
      StepNumbers(h, c, ops[0]);
      assert ops[..i][0] == ops[0] && ops[..i][1..] == ops[1..][..i - 1];
      SuccessStays(h, Apply(h, c, ops[0]), ops[1..], i - 1);
    }
  }

  /** Whatever a run does before and after, restarts and failing writes included: the event that a successful
      write sealed is in the store at the end, unchanged. */
  lemma AcknowledgedIsKept(h: Hasher, ops: seq<Op>, i: nat)
    requires Possible(h, EMPTY, ops) && i < |ops| && ops[i].Write? && ops[i].outcome == Stored
    ensures var e := Sealed(h, ApplyAll(h, EMPTY, ops[..i]), ops[i].event);
      KeyOf(e) in ApplyAll(h, EMPTY, ops).records && ApplyAll(h, EMPTY, ops).records[KeyOf(e)] == e
  {
    hide Possible, ApplyAll, Sealed;
    SuccessStays(h, EMPTY, ops, i);
  }
}

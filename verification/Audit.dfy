/**
 The audit log: events chained by hashes, kept in a store that returns them in any order. The log itself
 only remembers the next sequence number and the last hash.
 */
module Audit {
  import opened Wrappers

  type Hash = string

  /** `content` is everything else an event says. */
  datatype Event = Event(
    id: string,
    timestamp: int,
    content: string,
    sequence: nat,
    previousHash: Option<Hash>,
    hash: Option<Hash>)

  /** The hash of an event's canonical form; only events without their own hash are given to it. */
  type Hasher = Event -> Hash

  ghost predicate CollisionFree(h: Hasher) {
    forall a, b :: h(a) == h(b) ==> a == b
  }

  function HashEvent(h: Hasher, e: Event): Hash {
    h(e.(hash := None))
  }

  /** What the node of an event is named by. */
  datatype Key = Key(timestamp: int, sequence: nat, id: string)

  function KeyOf(e: Event): Key {
    Key(e.timestamp, e.sequence, e.id)
  }

  // ---------- Verification ----------

  function HashBefore(events: seq<Event>, i: nat): Option<Hash>
    requires i <= |events|
  {
    if i == 0 then None else events[i - 1].hash
  }

  /** The event at `i` is the next one of the chain. */
  predicate Linked(h: Hasher, events: seq<Event>, i: nat)
    requires i < |events|
  {
    && events[i].sequence == i + 1 && events[i].previousHash == HashBefore(events, i)
    && events[i].hash == Some(HashEvent(h, events[i]))
  }

  ghost predicate Verifies(h: Hasher, events: seq<Event>) {
    forall i | 0 <= i < |events| :: Linked(h, events, i)
  }

  /** Events are numbered from 1, the first one has no hash before it, every other one the hash of the event before it,
      and each its own, of everything it says. */
  predicate InPlace(h: Hasher, events: seq<Event>, i: nat)
    requires i < |events|
  {
    && events[i].sequence == i + 1
    && (if i == 0 then events[i].previousHash == None else events[i].previousHash == events[i - 1].hash)
    && events[i].hash == Some(h(Event(events[i].id, events[i].timestamp, events[i].content, i + 1, events[i].previousHash, None)))
  }

  lemma LinkedIsInPlace(h: Hasher, events: seq<Event>, i: nat)
    requires i < |events|
    ensures Linked(h, events, i) <==> InPlace(h, events, i)
  {
    if events[i].sequence == i + 1 {
      assert events[i].(hash := None)
          == Event(events[i].id, events[i].timestamp, events[i].content, i + 1, events[i].previousHash, None);
    }
  }

  /** A chain verifies exactly if every event is in its place. */
  lemma VerifiesIsInPlace(h: Hasher, events: seq<Event>)
    ensures Verifies(h, events) <==> forall i | 0 <= i < |events| :: InPlace(h, events, i)
  {
    hide Linked, InPlace;
    forall i | 0 <= i < |events| ensures Linked(h, events, i) <==> InPlace(h, events, i) {
      LinkedIsInPlace(h, events, i);
    }
  }

  datatype ChainError = SequenceGap(id: string) | PreviousHashMismatch(id: string) | HashMismatch(id: string)

  datatype ChainVerification = ChainVerification(valid: bool, checked: nat, error: Option<ChainError>)

  /** Either the whole chain verifies, or `checked` is the first event that does not link. */
  method VerifyEvents(h: Hasher, events: seq<Event>) returns (r: ChainVerification)
    ensures r.valid <==> Verifies(h, events)
    ensures r.valid ==> r.checked == |events| && r.error == None
    ensures !r.valid ==> r.checked < |events| && Verifies(h, events[..r.checked]) && !Linked(h, events, r.checked)
    ensures !r.valid ==> r.error == Some(
      if events[r.checked].sequence != r.checked + 1 then SequenceGap(events[r.checked].id)
      else if events[r.checked].previousHash != HashBefore(events, r.checked) then PreviousHashMismatch(events[r.checked].id)
      else HashMismatch(events[r.checked].id))
  {
    var previousHash: Option<Hash> := None;
    for i := 0 to |events|
      invariant forall j | 0 <= j < i :: Linked(h, events, j)
      invariant previousHash == HashBefore(events, i)
    {
      var event := events[i];
      assert Linked(h, events, i) <==> event.sequence == i + 1 && event.previousHash == previousHash
                                       && event.hash == Some(HashEvent(h, event));
      if event.sequence != i + 1 {
        PrefixVerifies(h, events, i);
        return ChainVerification(false, i, Some(SequenceGap(event.id)));
      }
      if event.previousHash != previousHash {
        PrefixVerifies(h, events, i);
        return ChainVerification(false, i, Some(PreviousHashMismatch(event.id)));
      }
      if event.hash != Some(HashEvent(h, event)) {
        PrefixVerifies(h, events, i);
        return ChainVerification(false, i, Some(HashMismatch(event.id)));
      }
      previousHash := event.hash;
    }
    return ChainVerification(true, |events|, None);
  }

  lemma PrefixVerifies(h: Hasher, events: seq<Event>, n: nat)
    requires n <= |events| && forall j | 0 <= j < n :: Linked(h, events, j)
    ensures Verifies(h, events[..n])
  {
    forall j | 0 <= j < n ensures Linked(h, events[..n], j) {
      assert Linked(h, events, j);
    }
  }

  // ---------- Writing ----------

  /** A write may fail before anything is stored, or after: storing and flushing are two steps. */
  datatype WriteOutcome = Stored | NotStored | StoredNotFlushed

  datatype AuditError = StorageFailed

  /** The records in the store, and what the log remembers. */
  datatype Chain = Chain(records: map<Key, Event>, nextSequence: nat, previousHash: Option<Hash>)

  /** An event as it goes into the chain. */
  function Sealed(h: Hasher, c: Chain, e: Event): (s: Event)
    ensures s.id == e.id && s.timestamp == e.timestamp && s.sequence == c.nextSequence
    ensures s.previousHash == c.previousHash && s.hash == Some(HashEvent(h, s))
  {
    var linked := e.(sequence := c.nextSequence, previousHash := c.previousHash);
    linked.(hash := Some(HashEvent(h, linked)))
  }

  /** The event as it is stored: an id and a time if it had none, the next number, the hash of the event before it,
      and its own. */
  ghost predicate Seals(h: Hasher, event: Event, freshId: string, now: int, sequence: nat, previous: Option<Hash>, s: Event) {
    && s.id == (if event.id == "" then freshId else event.id) && s.timestamp == (if event.timestamp == 0 then now else event.timestamp)
    && s.content == event.content && s.sequence == sequence && s.previousHash == previous
    && s.hash == Some(h(Event(s.id, s.timestamp, s.content, sequence, previous, None)))
  }

  /** Only a write without any error moves the chain on. */
  function Written(h: Hasher, c: Chain, e: Event, outcome: WriteOutcome): Chain {
    var s := Sealed(h, c, e);
    match outcome
    case Stored => Chain(c.records[KeyOf(s) := s], c.nextSequence + 1, s.hash)
    case NotStored => c
    case StoredNotFlushed => c.(records := c.records[KeyOf(s) := s])
  }

  /** The store's records, each once, by sequence number; events with the same number may come either way. */
  ghost predicate Loads(records: map<Key, Event>, events: seq<Event>) {
    && (forall i, j | 0 <= i < j < |events| :: events[i].sequence <= events[j].sequence)
    && (forall i, j | 0 <= i < j < |events| :: KeyOf(events[i]) != KeyOf(events[j]))
    && (forall i | 0 <= i < |events| :: KeyOf(events[i]) in records && records[KeyOf(events[i])] == events[i])
    && (forall k | k in records :: exists i :: 0 <= i < |events| && events[i] == records[k])
  }

  function Reloaded(records: map<Key, Event>, events: seq<Event>): Chain {
    if events == [] then Chain(records, 1, None)
    else Chain(records, events[|events| - 1].sequence + 1, events[|events| - 1].hash)
  }

  /** The store: audit records beside the data they are about. */
  class AuditStore {
    var records: map<Key, Event>
    var data: map<string, string>

    constructor ()
      ensures records == map[] && data == map[]
    {
      records, data := map[], map[];
    }
  }

  class AuditLog {
    const storage: AuditStore
    const enabled: bool
    const hash: Hasher
    var nextSequence: nat
    var previousHash: Option<Hash>

    ghost function View(): Chain
      reads this, storage
    {
      Chain(storage.records, nextSequence, previousHash)
    }

    /** `events` is what loading the store returns. */
    constructor (storage: AuditStore, enabled: bool, hash: Hasher, events: seq<Event>)
      requires Loads(storage.records, events)
      ensures this.storage == storage && this.enabled == enabled && this.hash == hash
      ensures View() == Reloaded(storage.records, events)
    {
      this.storage, this.enabled, this.hash := storage, enabled, hash;
      nextSequence := if events == [] then 1 else events[|events| - 1].sequence + 1;
      previousHash := if events == [] then None else events[|events| - 1].hash;
    }

    /** Opening a log loads the store; if that fails there is no log. */
    static method Open(storage: AuditStore, enabled: bool, hash: Hasher, loaded: Result<seq<Event>, AuditError>)
      returns (r: Result<AuditLog, AuditError>)
      requires loaded.Ok? ==> Loads(storage.records, loaded.value)
      ensures loaded.Err? ==> r == Err(loaded.error)
      ensures loaded.Ok? ==> r.Ok? && fresh(r.value)
      ensures loaded.Ok? ==> r.value.storage == storage && r.value.enabled == enabled && r.value.hash == hash
      ensures loaded.Ok? ==> r.value.View() == Reloaded(storage.records, loaded.value)
    {
      if loaded.Err? {
        return Err(loaded.error);
      }
      var log := new AuditLog(storage, enabled, hash, loaded.value);
      return Ok(log);
    }

    /** An event without id or time is given them. */
    function Completed(event: Event, freshId: string, now: int): Event {
      event.(id := if event.id == "" then freshId else event.id,
             timestamp := if event.timestamp == 0 then now else event.timestamp)
    }

    method Record(event: Event, freshId: string, now: int, outcome: WriteOutcome) returns (r: Result<Event, AuditError>)
      modifies this`nextSequence, this`previousHash, storage`records
      ensures !enabled ==> r == Ok(event) && View() == old(View())
      ensures enabled ==> View() == Written(hash, old(View()), Completed(event, freshId, now), outcome)
      ensures enabled ==> r == if outcome == Stored then Ok(Sealed(hash, old(View()), Completed(event, freshId, now)))
                               else Err(StorageFailed)
      ensures enabled && outcome == Stored ==>
                && Seals(hash, event, freshId, now, old(nextSequence), old(previousHash), r.value)
                && storage.records == old(storage.records)[Key(r.value.timestamp, r.value.sequence, r.value.id) := r.value]
                && nextSequence == old(nextSequence) + 1 && previousHash == r.value.hash
    {
      if !enabled {
        return Ok(event);
      }
      var e := Completed(event, freshId, now);
      e := e.(sequence := nextSequence, previousHash := previousHash);
      e := e.(hash := Some(HashEvent(hash, e)));
      if outcome != NotStored {
        storage.records := storage.records[KeyOf(e) := e];
      }
      if outcome != Stored {
        return Err(StorageFailed);
      }
      nextSequence := nextSequence + 1;
      previousHash := e.hash;
      return Ok(e);
    }

    /** The event and the staged data are stored together or not at all. */
    method CommitTransactionWithEvent(staged: map<string, string>, event: Event, freshId: string, now: int,
                                      outcome: WriteOutcome)
      returns (r: Result<Event, AuditError>)
      modifies this`nextSequence, this`previousHash, storage
      ensures storage.data == if outcome == NotStored then old(storage.data) else old(storage.data) + staged
      ensures !enabled ==> View() == old(View()) && r == if outcome == Stored then Ok(event) else Err(StorageFailed)
      ensures enabled ==> View() == Written(hash, old(View()), Completed(event, freshId, now), outcome)
      ensures enabled ==> r == if outcome == Stored then Ok(Sealed(hash, old(View()), Completed(event, freshId, now)))
                               else Err(StorageFailed)
      ensures enabled && outcome == Stored ==>
                && Seals(hash, event, freshId, now, old(nextSequence), old(previousHash), r.value)
                && storage.records == old(storage.records)[Key(r.value.timestamp, r.value.sequence, r.value.id) := r.value]
                && nextSequence == old(nextSequence) + 1 && previousHash == r.value.hash
    {
      if !enabled {
        if outcome != NotStored {
          storage.data := storage.data + staged;
        }
        return if outcome == Stored then Ok(event) else Err(StorageFailed);
      }
      var e := Completed(event, freshId, now);
      e := e.(sequence := nextSequence, previousHash := previousHash);
      e := e.(hash := Some(HashEvent(hash, e)));
      if outcome != NotStored {
        storage.data := storage.data + staged;
        storage.records := storage.records[KeyOf(e) := e];
      }
      if outcome != Stored {
        return Err(StorageFailed);
      }
      nextSequence := nextSequence + 1;
      previousHash := e.hash;
      return Ok(e);
    }
  }

  // ---------- Equal chains ----------

  lemma {:induction false} SameHashSameChain(h: Hasher, a: seq<Event>, b: seq<Event>)
    requires CollisionFree(h) && Verifies(h, a) && Verifies(h, b) && a != [] && b != []
    requires a[|a| - 1].hash == b[|b| - 1].hash
    ensures a == b
    decreases |a|
  {
    var m, n := |a| - 1, |b| - 1;
    assert Linked(h, a, m) && Linked(h, b, n);
    assert a[m] == b[n];
    if m > 0 {
      PrefixVerifies(h, a, m);
      PrefixVerifies(h, b, n);
      SameHashSameChain(h, a[..m], b[..n]);
    }
    assert a == a[..m] + [a[m]] && b == b[..n] + [b[n]];
  }

  // ---------- Runs of one log ----------

  /** A write with an id and a time, or a restart that loads the store again. */
  datatype Op = Write(event: Event, outcome: WriteOutcome) | Reload(events: seq<Event>)

  ghost predicate Enabled(c: Chain, op: Op) {
    op.Reload? ==> Loads(c.records, op.events)
  }

  function Apply(h: Hasher, c: Chain, op: Op): Chain {
    match op
    case Write(e, outcome) => Written(h, c, e, outcome)
    case Reload(events) => Reloaded(c.records, events)
  }

  /** What the writes so far mean for the chain: in order; owing an event that was stored though its write
      failed; or holding two events with one number. */
  datatype Health = InOrder | Owing(timestamp: int, id: string) | Spoiled

  /** Only the outcomes, ids and times of the writes matter: an owed event is settled by a restart, or by
      writing the same id and time again. */
  function NextHealth(health: Health, op: Op): Health {
    match op
    case Reload(_) => if health.Owing? then InOrder else health
    case Write(e, outcome) =>
      if health.Spoiled? || outcome == NotStored then health
      else if health.Owing? && (health.timestamp != e.timestamp || health.id != e.id) then Spoiled
      else if outcome == Stored then InOrder
      else Owing(e.timestamp, e.id)
  }

  /** The records are exactly the events of `log`. */
  ghost predicate Holds(records: map<Key, Event>, log: seq<Event>) {
    && (forall i | 0 <= i < |log| :: KeyOf(log[i]) in records && records[KeyOf(log[i])] == log[i])
    && (forall k | k in records :: exists i :: 0 <= i < |log| && KeyOf(log[i]) == k)
  }

  /** The chain is in the state that its health says, and `log` are its events in order. */
  ghost predicate Fits(h: Hasher, c: Chain, health: Health, log: seq<Event>) {
    && (forall k | k in c.records :: KeyOf(c.records[k]) == k)
    && match health
       case Spoiled => exists j, k :: j in c.records && k in c.records && j != k && j.sequence == k.sequence
       case InOrder => Verifies(h, log) && Holds(c.records, log) && c.nextSequence == |log| + 1
                       && c.previousHash == HashBefore(log, |log|)
       case Owing(timestamp, id) => log != [] && Verifies(h, log) && Holds(c.records, log) && c.nextSequence == |log|
                                    && c.previousHash == HashBefore(log, |log| - 1)
                                    && KeyOf(log[|log| - 1]) == Key(timestamp, |log|, id)
  }
}

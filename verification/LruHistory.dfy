/** What a lookup answers, in terms of the calls made before it. */
module LruHistory {
  import opened Bytes
  import opened Lru
  import opened Wrappers

  // ---------- Histories ----------

  /** The call takes the key out of the cache, or everything. */
  predicate Drops<V>(op: Op<V>, key: u64) {
    match op
    case OpRemove(k) => k == key
    case OpClear => true
    case OpSetEnabled(enabled) => !enabled
    case OpSetPolicy(maxSize, _) => maxSize == 0
    case _ => false
  }

  predicate Puts<V>(op: Op<V>, key: u64) {
    op.OpPut? && op.key == key
  }

  predicate Gets<V>(op: Op<V>, key: u64) {
    op.OpGet? && op.key == key
  }

  /** Call `j` puts the key, and no later call before `i` puts or drops it. */
  predicate LastPut<V>(calls: seq<Call<V>>, key: u64, j: nat, i: nat)
    requires j < i <= |calls|
  {
    Puts(calls[j].op, key) && forall k | j < k < i :: !Puts(calls[k].op, key) && !Drops(calls[k].op, key)
  }

  /** The policy's time to live before call `i`. */
  function TtlBefore<V>(ttl: Option<nat>, calls: seq<Call<V>>, i: nat): Option<nat>
    requires i <= |calls|
  {
    if i == 0 then ttl
    else if calls[i - 1].op.OpSetPolicy? then calls[i - 1].op.ttl
    else TtlBefore(ttl, calls, i - 1)
  }

  predicate Fresh(since: nat, ttl: Option<nat>, now: nat) {
    ttl.Some? ==> now <= since + ttl.value
  }

  /** Call `i` puts its key, or asks for it and is answered. */
  predicate IsUse<V>(answers: seq<Option<V>>, calls: seq<Call<V>>, i: nat)
    requires i < |calls| == |answers|
  {
    calls[i].op.OpPut? || (calls[i].op.OpGet? && answers[i].Some?)
  }

  /** The other keys used between two calls. */
  ghost function Others<V>(answers: seq<Option<V>>, calls: seq<Call<V>>, u: nat, i: nat, key: u64): set<u64>
    requires i <= |calls| == |answers|
  {
    set n | u < n < i && IsUse(answers, calls, n) && calls[n].op.key != key :: calls[n].op.key
  }

  lemma OthersStep<V>(answers: seq<Option<V>>, calls: seq<Call<V>>, u: nat, i: nat, key: u64)
    requires u < i < |calls| == |answers|
    ensures Others(answers, calls, u, i + 1, key)
         == Others(answers, calls, u, i, key)
            + if IsUse(answers, calls, i) && calls[i].op.key != key then {calls[i].op.key} else {}
  {
  }

  // ---------- Runs by their prefixes ----------

  lemma {:induction false} RunOneMore<V>(c: Cache<V>, calls: seq<Call<V>>, call: Call<V>)
    ensures Run(c, calls + [call]) == Step(Run(c, calls), call)
    decreases |calls|
  {
    hide Step;
    if calls == [] {
      assert [call][1..] == [];
    } else {
      assert (calls + [call])[1..] == calls[1..] + [call];
      RunOneMore(Step(c, calls[0]), calls[1..], call);
    }
  }

  lemma RunStep<V>(c: Cache<V>, calls: seq<Call<V>>, n: nat)
    requires n < |calls|
    ensures Run(c, calls[..n + 1]) == Step(Run(c, calls[..n]), calls[n])
  {
    assert calls[..n + 1] == calls[..n] + [calls[n]];
    RunOneMore(c, calls[..n], calls[n]);
  }

  lemma {:induction false} AnswerAt<V>(c: Cache<V>, calls: seq<Call<V>>, i: nat)
    requires i < |calls|
    ensures Answers(c, calls)[i] == if calls[i].op.OpGet? then Get(Run(c, calls[..i]), calls[i].op.key, calls[i].now).1 else None
    decreases i
  {
    hide Get, Step;
    if i > 0 {
      AnswerAt(Step(c, calls[0]), calls[1..], i - 1);
      assert calls[..i][0] == calls[0] && calls[..i][1..] == calls[1..][..i - 1];
    }
  }

  // ---------- The row of a key ----------

  lemma {:induction false} FindWithout<V>(rows: seq<Row<V>>, other: u64, key: u64)
    ensures Find(Without(rows, other), key) == if key == other then None else Find(rows, key)
  {
    if rows != [] {
      FindWithout(rows[1..], other, key);
    }
  }

  lemma FindCons<V>(row: Row<V>, rows: seq<Row<V>>, key: u64)
    ensures Find([row] + rows, key) == if row.key == key then Some(row) else Find(rows, key)
  {
    assert ([row] + rows)[1..] == rows;
  }

  lemma {:induction false} FindPrefix<V>(rows: seq<Row<V>>, n: nat, key: u64)
    requires n <= |rows|
    ensures Find(rows[..n], key) == None || Find(rows[..n], key) == Find(rows, key)
  {
    if n > 0 {
      FindPrefix(rows[1..], n - 1, key);
      assert rows[..n][1..] == rows[1..][..n - 1];
    }
  }

  lemma RoomFinds<V>(rows: seq<Row<V>>, capacity: nat, other: u64, key: u64)
    requires key != other
    ensures var r := Find(MakeRoom(rows, capacity, other), key); r == None || r == Find(rows, key)
  {
    FindWithout(rows, other, key);
    if rows != [] {
      FindPrefix(rows, |rows| - 1, key);
    }
  }

  /** A call that does not put the key leaves its row alone or takes it out. */
  lemma RowStays<V>(c: Cache<V>, call: Call<V>, key: u64)
    requires !Puts(call.op, key)
    ensures var r := Find(Step(c, call).rows, key); r == None || r == Find(c.rows, key)
    ensures Drops(call.op, key) ==> Find(Step(c, call).rows, key) == None
  {
    hide MakeRoom, Find, Without, Expired;
    NoRow<V>(key);
    match call.op
    case OpGet(k) =>
      FindWithout(c.rows, k, key);
      if Find(c.rows, k).Some? {
        FindNone(c.rows, k);
        FindCons(Find(c.rows, k).value, Without(c.rows, k), key);
      }
    case OpPut(k, value) =>
      RoomFinds(c.rows, c.capacity, k, key);
      FindCons(Row(k, value, call.now), MakeRoom(c.rows, c.capacity, k), key);
    case OpRemove(k) => FindWithout(c.rows, k, key);
    case OpSetPolicy(maxSize, _) =>
      if maxSize < |c.rows| {
        FindPrefix(c.rows, maxSize, key);
      }
    case _ =>
  }

  lemma NoRow<V>(key: u64)
    ensures Find<V>([], key) == None
  {
  }

  lemma PutRow<V>(c: Cache<V>, call: Call<V>, key: u64)
    requires Puts(call.op, key) && (!c.enabled ==> c.rows == [])
    ensures Find(Step(c, call).rows, key) == if c.enabled then Some(Row(key, call.op.value, call.now)) else None
  {
    FindCons(Row(key, call.op.value, call.now), MakeRoom(c.rows, c.capacity, key), key);
  }

  // ---------- Soundness ----------

  /** The row a key has was made by its last put, with nothing that puts or drops the key since. */
  lemma {:induction false} RowIsLastPut<V>(c: Cache<V>, calls: seq<Call<V>>, key: u64, i: nat) returns (j: nat)
    requires WellFormed(c) && c.rows == [] && i <= |calls| && Find(Run(c, calls[..i]).rows, key).Some?
    ensures j < i && LastPut(calls, key, j, i)
    ensures Find(Run(c, calls[..i]).rows, key) == Some(Row(key, calls[j].op.value, calls[j].now))
  {
    hide Step, Find;
    j := 0;
    if i == 0 {
      NoRow<V>(key);
    } else {
      var before := Run(c, calls[..i - 1]);
      RunStep(c, calls, i - 1);
      RunWellFormed(c, calls[..i - 1]);
      if Puts(calls[i - 1].op, key) {
        PutRow(before, calls[i - 1], key);
        j := i - 1;
      } else {
        RowStays(before, calls[i - 1], key);
        j := RowIsLastPut(c, calls, key, i - 1);
      }
    }
  }

  lemma {:induction false} TtlIs<V>(c: Cache<V>, calls: seq<Call<V>>, i: nat)
    requires i <= |calls|
    ensures Run(c, calls[..i]).ttl == TtlBefore(c.ttl, calls, i)
  {
    if i > 0 {
      RunStep(c, calls, i - 1);
      TtlIs(c, calls, i - 1);
    }
  }

  /** A lookup answers only with the value of the last put of the key, and only if nothing dropped the key since
      and the time to live, counted from that put, is not over. */
  lemma AnswersAreLastPuts<V>(c: Cache<V>, calls: seq<Call<V>>, i: nat) returns (j: nat)
    requires WellFormed(c) && c.rows == [] && i < |calls| && calls[i].op.OpGet? && Answers(c, calls)[i].Some?
    ensures j < i && LastPut(calls, calls[i].op.key, j, i)
    ensures Answers(c, calls)[i] == Some(calls[j].op.value)
    ensures Fresh(calls[j].now, TtlBefore(c.ttl, calls, i), calls[i].now)
  {
    hide Find, Run, LastPut;
    AnswerAt(c, calls, i);
    TtlIs(c, calls, i);
    j := RowIsLastPut(c, calls, calls[i].op.key, i);
  }

  // ---------- Completeness ----------

  /** The keys in front of the key's row. */
  function Ahead<V>(rows: seq<Row<V>>, key: u64): set<u64> {
    if rows == [] || rows[0].key == key then {} else {rows[0].key} + Ahead(rows[1..], key)
  }

  lemma {:induction false} AheadWithout<V>(rows: seq<Row<V>>, other: u64, key: u64)
    requires key != other && DistinctKeys(rows)
    ensures Ahead(Without(rows, other), key) == Ahead(rows, key) - {other}
  {
    if rows != [] {
      UnconsDistinct(rows);
      AheadWithout(rows[1..], other, key);
      if rows[0].key == other {
        AheadKeys(rows[1..], key);
      }
    }
  }

  lemma {:induction false} AheadKeys<V>(rows: seq<Row<V>>, key: u64)
    requires DistinctKeys(rows)
    ensures forall k | k in Ahead(rows, key) :: k != key && exists row :: row in rows && row.key == k
    ensures |Ahead(rows, key)| <= |rows| && (Find(rows, key).Some? ==> |Ahead(rows, key)| < |rows|)
  {
    if rows != [] && rows[0].key != key {
      UnconsDistinct(rows);
      AheadKeys(rows[1..], key);
      assert rows == [rows[0]] + rows[1..];
    }
  }

  lemma AheadCons<V>(row: Row<V>, rows: seq<Row<V>>, key: u64)
    ensures Ahead([row] + rows, key) == if row.key == key then {} else {row.key} + Ahead(rows, key)
  {
    assert ([row] + rows)[1..] == rows;
  }

  /** Dropping the last row either keeps a key and what is in front of it, or the key was the last of all. */
  lemma {:induction false} AheadOfPrefix<V>(rows: seq<Row<V>>, key: u64)
    requires DistinctKeys(rows) && Find(rows, key).Some?
    ensures var shorter := rows[..|rows| - 1];
      if Find(shorter, key).Some? then Ahead(shorter, key) == Ahead(rows, key) else |Ahead(rows, key)| == |rows| - 1
  {
    hide DistinctKeys;
    var shorter := rows[..|rows| - 1];
    UnconsDistinct(rows);
    if |rows| == 1 {
      NoRow<V>(key);
    } else {
      assert shorter[0] == rows[0] && shorter[1..] == rows[1..][..|rows[1..]| - 1];
      if rows[0].key != key {
        AheadKeys(rows[1..], key);
        AheadOfPrefix(rows[1..], key);
        OneMoreAhead(rows, key);
      }
    }
  }

  lemma OneMoreAhead<V>(rows: seq<Row<V>>, key: u64)
    requires rows != [] && DistinctKeys(rows) && rows[0].key != key
    ensures |Ahead(rows, key)| == 1 + |Ahead(rows[1..], key)|
  {
    UnconsDistinct(rows);
    AheadKeys(rows[1..], key);
    assert rows[0].key !in Ahead(rows[1..], key);
  }

  function Cap<V>(c: Cache<V>): nat {
    if c.capacity == 0 then 1 else c.capacity
  }

  /** The key that a call uses. */
  function UsedBy<V>(c: Cache<V>, call: Call<V>): set<u64> {
    match call.op
    case OpPut(k, _) => {k}
    case OpGet(k) => if Get(c, k, call.now).1.Some? then {k} else {}
    case _ => {}
  }

  /** How a call on other keys moves a key: at most the used key comes in front of it, or it is evicted, and then
      as many other keys as the cache holds are in front. */
  ghost predicate Moves<V>(c: Cache<V>, call: Call<V>, key: u64) {
    var c', ahead := Step(c, call), Ahead(c.rows, key) + UsedBy(c, call);
    if Find(c'.rows, key).Some? then Find(c'.rows, key) == Find(c.rows, key) && Ahead(c'.rows, key) <= ahead
    else key !in ahead && |ahead| >= Cap(c)
  }

  lemma GetMoves<V>(c: Cache<V>, call: Call<V>, key: u64)
    requires WellFormed(c) && c.enabled && Find(c.rows, key).Some? && call.op.OpGet? && call.op.key != key
    ensures Moves(c, call, key) && Find(Step(c, call).rows, key).Some?
    ensures c.ttl == None ==> Ahead(Step(c, call).rows, key) == Ahead(c.rows, key) + UsedBy(c, call)
  {
    hide Find, Without, Ahead, DistinctKeys;
    var k := call.op.key;
    FindNone(c.rows, k);
    FindWithout(c.rows, k, key);
    AheadWithout(c.rows, k, key);
    if Find(c.rows, k).Some? {
      FindCons(Find(c.rows, k).value, Without(c.rows, k), key);
      AheadCons(Find(c.rows, k).value, Without(c.rows, k), key);
    }
  }

  lemma PutMoves<V>(c: Cache<V>, call: Call<V>, key: u64)
    requires WellFormed(c) && c.enabled && Find(c.rows, key).Some? && call.op.OpPut? && call.op.key != key
    ensures Moves(c, call, key)
    ensures Find(Step(c, call).rows, key).Some? ==> Ahead(Step(c, call).rows, key) == Ahead(c.rows, key) + UsedBy(c, call)
  {
    hide Find, Without, Ahead, DistinctKeys;
    var k := call.op.key;
    var room := MakeRoom(c.rows, c.capacity, k);
    FindCons(Row(k, call.op.value, call.now), room, key);
    AheadCons(Row(k, call.op.value, call.now), room, key);
    AheadKeys(c.rows, key);
    FindNone(c.rows, k);
    if Find(c.rows, k).Some? {
      FindWithout(c.rows, k, key);
      AheadWithout(c.rows, k, key);
    } else if |c.rows| >= c.capacity && c.rows != [] {
      FindPrefix(c.rows, |c.rows| - 1, key);
      AheadOfPrefix(c.rows, key);
      NotAhead(c.rows, k, key);
    }
  }

  lemma NotAhead<V>(rows: seq<Row<V>>, k: u64, key: u64)
    requires DistinctKeys(rows) && Find(rows, k) == None
    ensures k !in Ahead(rows, key) && |Ahead(rows, key) + {k}| == |Ahead(rows, key)| + 1
  {
    AheadKeys(rows, key);
    FindNone(rows, k);
  }

  lemma OtherMoves<V>(c: Cache<V>, call: Call<V>, key: u64)
    requires WellFormed(c) && c.enabled && Find(c.rows, key).Some? && !call.op.OpPut? && !call.op.OpGet?
    requires !Drops(call.op, key) && !call.op.OpSetPolicy?
    ensures Moves(c, call, key) && Find(Step(c, call).rows, key).Some?
  {
    hide Find, Ahead, DistinctKeys;
    if call.op.OpRemove? {
      FindWithout(c.rows, call.op.key, key);
      AheadWithout(c.rows, call.op.key, key);
    }
  }

  /** A lookup of the key that finds it fresh puts it in front. */
  lemma HitMoves<V>(c: Cache<V>, call: Call<V>, key: u64)
    requires WellFormed(c) && c.enabled && Find(c.rows, key).Some? && Gets(call.op, key)
    requires Fresh(Find(c.rows, key).value.insertedAt, c.ttl, call.now)
    ensures Find(Step(c, call).rows, key) == Find(c.rows, key) && Ahead(Step(c, call).rows, key) == {}
    ensures Get(c, key, call.now).1 == Some(Find(c.rows, key).value.value)
  {
    hide Find, Without, Ahead;
    FindNone(c.rows, key);
    FindCons(Find(c.rows, key).value, Without(c.rows, key), key);
    AheadCons(Find(c.rows, key).value, Without(c.rows, key), key);
  }

  // ---------- Runs ----------

  /** The policy stays, and the cache stays enabled. */
  predicate Undisturbed<V>(calls: seq<Call<V>>) {
    forall n | 0 <= n < |calls| :: !calls[n].op.OpSetPolicy? && (calls[n].op.OpSetEnabled? ==> calls[n].op.enabled)
  }

  lemma {:induction false} StaysEnabled<V>(c: Cache<V>, calls: seq<Call<V>>, n: nat)
    requires c.enabled && Undisturbed(calls) && n <= |calls|
    ensures var c' := Run(c, calls[..n]); c'.enabled && c'.capacity == c.capacity && c'.ttl == c.ttl
  {
    if n > 0 {
      RunStep(c, calls, n - 1);
      StaysEnabled(c, calls, n - 1);
    }
  }

  /** From a use of the key on it stays while fewer other keys than the capacity are used. */
  lemma {:induction false} StaysResident<V>(c: Cache<V>, calls: seq<Call<V>>, key: u64, row: Row<V>, u: nat, i: nat, n: nat)
    requires WellFormed(c) && c.enabled && Undisturbed(calls) && u < n <= i <= |calls|
    requires Find(Run(c, calls[..u + 1]).rows, key) == Some(row) && Ahead(Run(c, calls[..u + 1]).rows, key) == {}
    requires forall k | u < k < i :: !Puts(calls[k].op, key) && !Drops(calls[k].op, key)
    requires forall k | u < k < i && Gets(calls[k].op, key) :: Fresh(row.insertedAt, c.ttl, calls[k].now)
    requires |Others(Answers(c, calls), calls, u, i, key)| < Cap(c)
    ensures Find(Run(c, calls[..n]).rows, key) == Some(row)
    ensures Ahead(Run(c, calls[..n]).rows, key) <= Others(Answers(c, calls), calls, u, n, key)
  {
    hide Step, Find, Ahead, Get, Others, IsUse, Run, WellFormed;
    if n > u + 1 {
      StaysResident(c, calls, key, row, u, i, n - 1);
      var before, call := Run(c, calls[..n - 1]), calls[n - 1];
      RunStep(c, calls, n - 1);
      RunWellFormed(c, calls[..n - 1]);
      StaysEnabled(c, calls, n - 1);
      AnswerAt(c, calls, n - 1);
      StepOthers(c, calls, key, u, n - 1);
      if Gets(call.op, key) {
        HitMoves(before, call, key);
      } else {
        StepMoves(before, call, key);
        OthersGrow(Answers(c, calls), calls, u, n, i, key);
        NotEvicted(before, call, key, Others(Answers(c, calls), calls, u, n, key), Cap(c));
      }
    }
  }

  lemma StepOthers<V>(c: Cache<V>, calls: seq<Call<V>>, key: u64, u: nat, n: nat)
    requires u < n < |calls|
    ensures Others(Answers(c, calls), calls, u, n + 1, key)
         == Others(Answers(c, calls), calls, u, n, key) + (UsedBy(Run(c, calls[..n]), calls[n]) - {key})
  {
    hide Step, Get, Others, Run;
    AnswerAt(c, calls, n);
    OthersStep(Answers(c, calls), calls, u, n, key);
  }

  lemma StepMoves<V>(c: Cache<V>, call: Call<V>, key: u64)
    requires WellFormed(c) && c.enabled && Find(c.rows, key).Some? && !Gets(call.op, key) && !Puts(call.op, key)
    requires !Drops(call.op, key) && !call.op.OpSetPolicy?
    ensures Moves(c, call, key) && key !in UsedBy(c, call)
  {
    hide Moves, WellFormed, Get, Find;
    match call.op
    case OpGet(_) => GetMoves(c, call, key);
    case OpPut(_, _) => PutMoves(c, call, key);
    case _ => OtherMoves(c, call, key);
  }

  lemma NotEvicted<V>(c: Cache<V>, call: Call<V>, key: u64, others: set<u64>, cap: nat)
    requires Moves(c, call, key) && Ahead(c.rows, key) + UsedBy(c, call) <= others && |others| < cap <= Cap(c)
    ensures Find(Step(c, call).rows, key) == Find(c.rows, key) && Ahead(Step(c, call).rows, key) <= others
  {
    hide Step, Find, Ahead, UsedBy;
    var ahead := Ahead(c.rows, key) + UsedBy(c, call);
    assert others == ahead + (others - ahead);
  }

  lemma OthersGrow<V>(answers: seq<Option<V>>, calls: seq<Call<V>>, u: nat, n: nat, i: nat, key: u64)
    requires n <= i <= |calls| == |answers|
    ensures Others(answers, calls, u, n, key) <= Others(answers, calls, u, i, key)
    ensures |Others(answers, calls, u, n, key)| <= |Others(answers, calls, u, i, key)|
  {
    var a, b := Others(answers, calls, u, n, key), Others(answers, calls, u, i, key);
    assert b == a + (b - a);
  }

  lemma {:induction false} RowSincePut<V>(c: Cache<V>, calls: seq<Call<V>>, key: u64, j: nat, n: nat)
    requires WellFormed(c) && c.enabled && Undisturbed(calls) && j < n <= |calls| && LastPut(calls, key, j, n)
    ensures var r := Find(Run(c, calls[..n]).rows, key); r == None || r == Some(Row(key, calls[j].op.value, calls[j].now))
    ensures n == j + 1 ==> Find(Run(c, calls[..n]).rows, key).Some?
  {
    hide Step, Find, Run, WellFormed;
    RunStep(c, calls, n - 1);
    StaysEnabled(c, calls, n - 1);
    if n == j + 1 {
      PutRow(Run(c, calls[..j]), calls[j], key);
    } else {
      RowSincePut(c, calls, key, j, n - 1);
      RowStays(Run(c, calls[..n - 1]), calls[n - 1], key);
    }
  }

  /** A use of the key leaves it in front. */
  lemma UseMoves<V>(c: Cache<V>, call: Call<V>, key: u64)
    requires WellFormed(c) && c.enabled && (Puts(call.op, key) || (Gets(call.op, key) && Get(c, key, call.now).1.Some?))
    ensures Find(Step(c, call).rows, key).Some? && Ahead(Step(c, call).rows, key) == {}
  {
    hide Find, Ahead, Without, MakeRoom;
    if Puts(call.op, key) {
      PutRow(c, call, key);
      AheadCons(Row(key, call.op.value, call.now), MakeRoom(c.rows, c.capacity, key), key);
    } else {
      HitMoves(c, call, key);
    }
  }

  lemma AfterUse<V>(c: Cache<V>, calls: seq<Call<V>>, key: u64, u: nat)
    requires WellFormed(c) && c.enabled && Undisturbed(calls) && u < |calls|
    requires IsUse(Answers(c, calls), calls, u) && calls[u].op.key == key
    ensures var rows := Run(c, calls[..u + 1]).rows; Find(rows, key).Some? && Ahead(rows, key) == {}
  {
    hide Step, Find, Ahead, Get, Run, WellFormed;
    RunStep(c, calls, u);
    RunWellFormed(c, calls[..u]);
    StaysEnabled(c, calls, u);
    AnswerAt(c, calls, u);
    UseMoves(Run(c, calls[..u]), calls[u], key);
  }

  /** A lookup answers with the last put value while the time to live is not over, if since some use of the key
      fewer other keys were used than the cache holds. */
  lemma HitsWhileThereIsRoom<V>(c: Cache<V>, calls: seq<Call<V>>, key: u64, j: nat, u: nat, i: nat)
    requires WellFormed(c) && c.enabled && Undisturbed(calls) && j <= u < i < |calls|
    requires Gets(calls[i].op, key) && LastPut(calls, key, j, i)
    requires IsUse(Answers(c, calls), calls, u) && calls[u].op.key == key
    requires forall k | u < k <= i && Gets(calls[k].op, key) :: Fresh(calls[j].now, c.ttl, calls[k].now)
    requires |Others(Answers(c, calls), calls, u, i, key)| < Cap(c)
    ensures Answers(c, calls)[i] == Some(calls[j].op.value)
  {
    hide Step, Find, Ahead, Get, Run, Others, WellFormed, IsUse;
    var row := Row(key, calls[j].op.value, calls[j].now);
    AfterUse(c, calls, key, u);
    RowSincePut(c, calls, key, j, u + 1);
    StaysResident(c, calls, key, row, u, i, i);
    RunWellFormed(c, calls[..i]);
    StaysEnabled(c, calls, i);
    AnswerAt(c, calls, i);
    HitMoves(Run(c, calls[..i]), calls[i], key);
  }

  // ---------- Gets and puts alone ----------

  predicate OnlyGetsAndPuts<V>(calls: seq<Call<V>>) {
    forall n | 0 <= n < |calls| :: calls[n].op.OpGet? || calls[n].op.OpPut?
  }

  /** Resident with exactly the keys used since in front, or evicted when these were as many as the cache holds. */
  ghost predicate Placed<V>(c: Cache<V>, key: u64, others: set<u64>, cap: nat) {
    if Find(c.rows, key).Some? then Ahead(c.rows, key) == others else |others| >= cap
  }

  lemma PlacedStep<V>(c: Cache<V>, call: Call<V>, key: u64, others: set<u64>)
    requires WellFormed(c) && c.enabled && c.ttl == None && (call.op.OpGet? || call.op.OpPut?)
    requires Placed(c, key, others, Cap(c)) && !Puts(call.op, key)
    requires Gets(call.op, key) ==> Get(c, key, call.now).1 == None
    ensures Placed(Step(c, call), key, others + (UsedBy(c, call) - {key}), Cap(c))
  {
    hide Find, Ahead, Without, MakeRoom, WellFormed;
    if Find(c.rows, key).Some? {
      assert UsedBy(c, call) - {key} == UsedBy(c, call);
      if call.op.OpGet? && call.op.key != key {
        GetMoves(c, call, key);
      } else if call.op.OpPut? {
        PutMoves(c, call, key);
      }
    } else {
      RowStays(c, call, key);
      MoreOthers(others, UsedBy(c, call) - {key});
    }
  }

  lemma MoreOthers(a: set<u64>, b: set<u64>)
    ensures |a| <= |a + b|
  {
    assert a + b == a + (b - a);
  }

  lemma {:induction false} StaysPlaced<V>(c: Cache<V>, calls: seq<Call<V>>, key: u64, u: nat, n: nat)
    requires WellFormed(c) && c.enabled && c.ttl == None && OnlyGetsAndPuts(calls) && Undisturbed(calls) && u < n <= |calls|
    requires IsUse(Answers(c, calls), calls, u) && calls[u].op.key == key
    requires forall k | u < k < n :: !(IsUse(Answers(c, calls), calls, k) && calls[k].op.key == key)
    ensures Placed(Run(c, calls[..n]), key, Others(Answers(c, calls), calls, u, n, key), Cap(c))
  {
    hide Step, Find, Ahead, Get, Run, Others, WellFormed, UsedBy;
    if n == u + 1 {
      AfterUse(c, calls, key, u);
      NoOthers(Answers(c, calls), calls, u, key);
    } else {
      StaysPlaced(c, calls, key, u, n - 1);
      RunStep(c, calls, n - 1);
      RunWellFormed(c, calls[..n - 1]);
      StaysEnabled(c, calls, n - 1);
      AnswerAt(c, calls, n - 1);
      StepOthers(c, calls, key, u, n - 1);
      PlacedStep(Run(c, calls[..n - 1]), calls[n - 1], key, Others(Answers(c, calls), calls, u, n - 1, key));
    }
  }

  lemma NoOthers<V>(answers: seq<Option<V>>, calls: seq<Call<V>>, u: nat, key: u64)
    requires u < |calls| == |answers|
    ensures Others(answers, calls, u, u + 1, key) == {}
  {
  }

  /** Without a time to live, and with gets and puts alone, a lookup answers if and only if fewer other keys were used
      since the key's last use than the cache holds. */
  lemma HitsExactlyWhileThereIsRoom<V>(c: Cache<V>, calls: seq<Call<V>>, key: u64, u: nat, i: nat)
    requires WellFormed(c) && c.enabled && c.ttl == None && OnlyGetsAndPuts(calls) && u < i < |calls|
    requires Gets(calls[i].op, key) && IsUse(Answers(c, calls), calls, u) && calls[u].op.key == key
    requires forall k | u < k < i :: !(IsUse(Answers(c, calls), calls, k) && calls[k].op.key == key)
    ensures Answers(c, calls)[i].Some? <==> |Others(Answers(c, calls), calls, u, i, key)| < Cap(c)
  {
    hide Step, Find, Ahead, Run, Others, IsUse;
    StaysPlaced(c, calls, key, u, i);
    RunWellFormed(c, calls[..i]);
    StaysEnabled(c, calls, i);
    AnswerAt(c, calls, i);
    AheadKeys(Run(c, calls[..i]).rows, key);
  }

  /** A new cache is empty, enabled, and holds 1000 entries unless it is told how many. */
  lemma NewHolds<V>(maxSize: nat, ttl: Option<nat>)
    ensures var c := New<V>(maxSize, ttl);
      WellFormed(c) && c.enabled && c.rows == [] && c.ttl == ttl && Cap(c) == if maxSize == 0 then 1000 else maxSize
  {
  }

  // ---------- Counters ----------

  /** How many lookups are answered, or are not. */
  function Lookups<V>(answers: seq<Option<V>>, calls: seq<Call<V>>, answered: bool): nat
    requires |answers| == |calls|
    decreases |calls|
  {
    if calls == [] then 0
    else
      (if calls[0].op.OpGet? && answers[0].Some? == answered then 1 else 0) + Lookups(answers[1..], calls[1..], answered)
  }

  lemma StepCounts<V>(c: Cache<V>, call: Call<V>)
    ensures var hit := call.op.OpGet? && Get(c, call.op.key, call.now).1.Some?;
      && Step(c, call).hits == c.hits + (if hit then 1 else 0)
      && Step(c, call).misses == c.misses + if call.op.OpGet? && !hit then 1 else 0
  {
    hide Find, Without, MakeRoom;
  }

  /** The hits counted are the lookups answered, and the misses the others. */
  lemma {:induction false} HitsAreAnswers<V>(c: Cache<V>, calls: seq<Call<V>>)
    ensures Run(c, calls).hits == c.hits + Lookups(Answers(c, calls), calls, true)
    ensures Run(c, calls).misses == c.misses + Lookups(Answers(c, calls), calls, false)
    decreases |calls|
  {
    hide Step, Get;
    if calls != [] {
      StepCounts(c, calls[0]);
      HitsAreAnswers(Step(c, calls[0]), calls[1..]);
      assert Answers(c, calls)[1..] == Answers(Step(c, calls[0]), calls[1..]);
    }
  }

  // ---------- A smaller capacity ----------

  lemma {:induction false} InPrefixIff<V>(rows: seq<Row<V>>, n: nat, key: u64)
    requires DistinctKeys(rows) && n <= |rows| && Find(rows, key).Some?
    ensures Find(rows[..n], key).Some? <==> |Ahead(rows, key)| < n
  {
    hide DistinctKeys;
    if n == 0 {
      NoRow<V>(key);
    } else {
      UnconsDistinct(rows);
      assert rows[..n][0] == rows[0] && rows[..n][1..] == rows[1..][..n - 1];
      if rows[0].key != key {
        OneMoreAhead(rows, key);
        InPrefixIff(rows[1..], n - 1, key);
      }
    }
  }

  /** Setting a smaller capacity keeps the keys used last. */
  lemma ShrinkingKeepsRecent<V>(c: Cache<V>, calls: seq<Call<V>>, key: u64, u: nat, maxSize: nat, at: nat, now: nat)
    requires WellFormed(c) && c.enabled && c.ttl == None && OnlyGetsAndPuts(calls) && u < |calls| && maxSize > 0
    requires IsUse(Answers(c, calls), calls, u) && calls[u].op.key == key
    requires forall k | u < k < |calls| :: !(IsUse(Answers(c, calls), calls, k) && calls[k].op.key == key)
    ensures var all := calls + [Call(OpSetPolicy(maxSize, None), at), Call(OpGet(key), now)];
      var others := |Others(Answers(c, calls), calls, u, |calls|, key)|;
      Answers(c, all)[|calls| + 1].Some? <==> others < Cap(c) && others < maxSize
  {
    hide Step, Find, Ahead, Run, Others, IsUse, DistinctKeys;
    var n := |calls|;
    StaysPlaced(c, calls, key, u, n);
    RunWellFormed(c, calls);
    StaysEnabled(c, calls, n);
    assert calls[..n] == calls;
    AnswerBehind(c, calls, Call(OpSetPolicy(maxSize, None), at), Call(OpGet(key), now));
    AheadKeys(Run(c, calls).rows, key);
    PolicyStep(Run(c, calls), maxSize, at, key);
  }

  lemma AnswerBehind<V>(c: Cache<V>, calls: seq<Call<V>>, first: Call<V>, second: Call<V>)
    requires second.op.OpGet?
    ensures Answers(c, calls + [first, second])[|calls| + 1] == Get(Step(Run(c, calls), first), second.op.key, second.now).1
  {
    hide Step, Get, Run;
    var all := calls + [first, second];
    AnswerAt(c, all, |calls| + 1);
    RunStep(c, all, |calls|);
    assert all[..|calls|] == calls;
  }

  lemma PolicyStep<V>(c: Cache<V>, maxSize: nat, at: nat, key: u64)
    requires WellFormed(c) && maxSize > 0
    ensures var c' := Step(c, Call(OpSetPolicy(maxSize, None), at));
      && c'.enabled && c'.ttl == None
      && (Find(c'.rows, key).Some? <==> Find(c.rows, key).Some? && |Ahead(c.rows, key)| < maxSize)
  {
    hide Find, Ahead, DistinctKeys;
    var n := if maxSize < |c.rows| then maxSize else |c.rows|;
    assert c.rows[..|c.rows|] == c.rows;
    FindPrefix(c.rows, n, key);
    AheadKeys(c.rows, key);
    if Find(c.rows, key).Some? {
      InPrefixIff(c.rows, n, key);
    }
  }

  // ---------- The sink ----------

  function WriteRun<V>(c: Cache<V>, sink: map<u64, V>, writes: seq<Write<V>>): (Cache<V>, map<u64, V>)
    decreases |writes|
  {
    if writes == [] then (c, sink)
    else
      var (c', sink') := WriteThrough(c, sink, writes[0].call, writes[0].answer);
      WriteRun(c', sink', writes[1..])
  }

  function CallsOf<V>(writes: seq<Write<V>>): (calls: seq<Call<V>>)
    ensures |calls| == |writes| && forall i | 0 <= i < |writes| :: calls[i] == writes[i].call
  {
    seq(|writes|, i requires 0 <= i < |writes| => writes[i].call)
  }

  /** While the sink takes every write, the cache in front of it goes through the same calls. */
  lemma {:induction false} AcceptedRunIsRun<V>(c: Cache<V>, sink: map<u64, V>, writes: seq<Write<V>>)
    requires forall i | 0 <= i < |writes| :: writes[i].answer == Accepted
    ensures WriteRun(c, sink, writes).0 == Run(c, CallsOf(writes))
    decreases |writes|
  {
    hide Step, SinkAfter;
    if writes != [] {
      var (c', sink') := WriteThrough(c, sink, writes[0].call, writes[0].answer);
      AcceptedRunIsRun(c', sink', writes[1..]);
      assert CallsOf(writes)[1..] == CallsOf(writes[1..]);
    }
  }

  /** Write `i` is stored, and it puts, removes or clears the key. */
  predicate StoresKey<V>(w: Write<V>, key: u64) {
    w.answer != Refused && (Puts(w.call.op, key) || (w.call.op.OpRemove? && w.call.op.key == key) || w.call.op.OpClear?)
  }

  /** The sink holds a key exactly if the last stored write of the key put it, and then with that value. */
  lemma {:induction false} SinkHoldsLastPut<V>(c: Cache<V>, sink: map<u64, V>, writes: seq<Write<V>>, key: u64, j: nat)
    requires j < |writes| && StoresKey(writes[j], key) && forall k | j < k < |writes| :: !StoresKey(writes[k], key)
    ensures var sink' := WriteRun(c, sink, writes).1;
      if Puts(writes[j].call.op, key) then key in sink' && sink'[key] == writes[j].call.op.value else key !in sink'
    decreases |writes|
  {
    hide Step;
    var (c', sink') := WriteThrough(c, sink, writes[0].call, writes[0].answer);
    if j > 0 {
      SinkHoldsLastPut(c', sink', writes[1..], key, j - 1);
    } else {
      SinkKeepsKey(c', sink', writes[1..], key);
    }
  }

  lemma {:induction false} SinkKeepsKey<V>(c: Cache<V>, sink: map<u64, V>, writes: seq<Write<V>>, key: u64)
    requires forall k | 0 <= k < |writes| :: !StoresKey(writes[k], key)
    ensures var sink' := WriteRun(c, sink, writes).1;
      (key in sink' <==> key in sink) && (key in sink ==> sink'[key] == sink[key])
    decreases |writes|
  {
    hide Step;
    if writes != [] {
      var (c', sink') := WriteThrough(c, sink, writes[0].call, writes[0].answer);
      SinkKeepsKey(c', sink', writes[1..], key);
    }
  }
}

/**
 The query cache as a plain list, most recently used entry first, and what holds over whole runs.
 Module QueryCaches ties the map-and-deque cache to this list.
 */
module Lru {
  import opened Wrappers
  import opened Bytes

  datatype Row<+V> = Row(key: u64, value: V, insertedAt: nat)

  datatype Cache<+V> = Cache(
    rows: seq<Row<V>>,
    capacity: nat,
    ttl: Option<nat>,
    enabled: bool,
    hits: nat,
    misses: nat,
    evictions: nat)

  const DEFAULT_QUERY_CACHE_SIZE: nat := 1000

  function New<V>(maxSize: nat, ttl: Option<nat>): Cache<V> {
    Cache([], if maxSize == 0 then DEFAULT_QUERY_CACHE_SIZE else maxSize, ttl, true, 0, 0, 0)
  }

  function Find<V>(rows: seq<Row<V>>, key: u64): Option<Row<V>> {
    if rows == [] then None
    else if rows[0].key == key then Some(rows[0])
    else Find(rows[1..], key)
  }

  function Without<V>(rows: seq<Row<V>>, key: u64): (r: seq<Row<V>>)
    ensures |r| <= |rows|
  {
    if rows == [] then []
    else if rows[0].key == key then Without(rows[1..], key)
    else [rows[0]] + Without(rows[1..], key)
  }

  /** `elapsed() > ttl`; a clock that went backwards counts as no time. */
  predicate Expired<V>(row: Row<V>, ttl: Option<nat>, now: nat) {
    ttl.Some? && now > row.insertedAt && now - row.insertedAt > ttl.value
  }

  function Get<V>(c: Cache<V>, key: u64, now: nat): (Cache<V>, Option<V>) {
    if !c.enabled then (c.(misses := c.misses + 1), None) else
    match Find(c.rows, key)
    case None => (c.(misses := c.misses + 1), None)
    case Some(row) =>
      if Expired(row, c.ttl, now) then
        (c.(rows := Without(c.rows, key), evictions := c.evictions + 1, misses := c.misses + 1), None)
      else
        (c.(rows := [row] + Without(c.rows, key), hits := c.hits + 1), Some(row.value))
  }

  /** The rows a put leaves behind the new one: the old row of the key goes, or the last row of a full list. */
  function MakeRoom<V>(rows: seq<Row<V>>, capacity: nat, key: u64): seq<Row<V>> {
    if Find(rows, key).Some? then Without(rows, key)
    else if |rows| >= capacity && rows != [] then rows[..|rows| - 1]
    else rows
  }

  function Put<V>(c: Cache<V>, key: u64, value: V, now: nat): Cache<V> {
    if !c.enabled then c else
    c.(rows := [Row(key, value, now)] + MakeRoom(c.rows, c.capacity, key),
       evictions := c.evictions + if Find(c.rows, key).None? && |c.rows| >= c.capacity && c.rows != [] then 1 else 0)
  }

  function Remove<V>(c: Cache<V>, key: u64): Cache<V> {
    c.(rows := Without(c.rows, key))
  }

  function Clear<V>(c: Cache<V>): Cache<V> {
    c.(rows := [])
  }

  function SetEnabled<V>(c: Cache<V>, enabled: bool): Cache<V> {
    c.(enabled := enabled, rows := if enabled then c.rows else [])
  }

  function SetPolicy<V>(c: Cache<V>, maxSize: nat, ttl: Option<nat>): Cache<V> {
    var c' := c.(ttl := ttl, enabled := maxSize > 0, capacity := maxSize);
    if maxSize == 0 then c'.(rows := [])
    else if |c.rows| > maxSize then
      c'.(rows := c.rows[..maxSize], evictions := c.evictions + (|c.rows| - maxSize))
    else c'
  }

  // ---------- Runs ----------

  datatype Op<+V> =
    | OpGet(key: u64)
    | OpPut(key: u64, value: V)
    | OpRemove(key: u64)
    | OpClear
    | OpSetEnabled(enabled: bool)
    | OpSetPolicy(maxSize: nat, ttl: Option<nat>)

  datatype Call<+V> = Call(op: Op<V>, now: nat)

  function Step<V>(c: Cache<V>, call: Call<V>): Cache<V> {
    match call.op
    case OpGet(key) => Get(c, key, call.now).0
    case OpPut(key, value) => Put(c, key, value, call.now)
    case OpRemove(key) => Remove(c, key)
    case OpClear => Clear(c)
    case OpSetEnabled(enabled) => SetEnabled(c, enabled)
    case OpSetPolicy(maxSize, ttl) => SetPolicy(c, maxSize, ttl)
  }

  function Run<V>(c: Cache<V>, calls: seq<Call<V>>): Cache<V>
    decreases |calls|
  {
    if calls == [] then c else Run(Step(c, calls[0]), calls[1..])
  }

  /** What the gets of a run answer; other calls answer nothing. */
  function Answers<V>(c: Cache<V>, calls: seq<Call<V>>): (r: seq<Option<V>>)
    ensures |r| == |calls|
    decreases |calls|
  {
    if calls == [] then []
    else
      [if calls[0].op.OpGet? then Get(c, calls[0].op.key, calls[0].now).1 else None]
      + Answers(Step(c, calls[0]), calls[1..])
  }

  // ---------- The representation invariant ----------

  ghost predicate DistinctKeys<V>(rows: seq<Row<V>>) {
    forall i, j | 0 <= i < j < |rows| :: rows[i].key != rows[j].key
  }

  ghost predicate WellFormed<V>(c: Cache<V>) {
    && DistinctKeys(c.rows)
    && |c.rows| <= (if c.capacity == 0 then 1 else c.capacity)
    && (!c.enabled ==> c.rows == [])
  }

  lemma ConsDistinct<V>(row: Row<V>, rows: seq<Row<V>>)
    requires DistinctKeys(rows) && forall r | r in rows :: r.key != row.key
    ensures DistinctKeys([row] + rows)
  {
  }

  lemma UnconsDistinct<V>(rows: seq<Row<V>>)
    requires rows != [] && DistinctKeys(rows)
    ensures DistinctKeys(rows[1..]) && forall r | r in rows[1..] :: r.key != rows[0].key
  {
  }

  /** `Without` drops the one row of the key and keeps every other, in order. */
  lemma {:induction false} WithoutDistinct<V>(rows: seq<Row<V>>, key: u64)
    requires DistinctKeys(rows)
    ensures DistinctKeys(Without(rows, key))
    ensures forall row | row in Without(rows, key) :: row in rows && row.key != key
    ensures forall row | row in rows && row.key != key :: row in Without(rows, key)
    ensures |Without(rows, key)| == |rows| - (if Find(rows, key).Some? then 1 else 0)
  {
    hide DistinctKeys;
    if rows != [] {
      var rest := rows[1..];
      assert rows == [rows[0]] + rest;
      UnconsDistinct(rows);
      WithoutDistinct(rest, key);
      if rows[0].key == key {
        FindNone(rest, key);
      } else {
        ConsDistinct(rows[0], Without(rest, key));
        assert Without(rows, key) == [rows[0]] + Without(rest, key);
      }
    }
  }

  lemma {:induction false} FindNone<V>(rows: seq<Row<V>>, key: u64)
    ensures Find(rows, key).None? <==> forall row | row in rows :: row.key != key
    ensures Find(rows, key).Some? ==> Find(rows, key).value in rows && Find(rows, key).value.key == key
    ensures Find(rows, key).None? ==> Without(rows, key) == rows
  {
    if rows != [] {
      FindNone(rows[1..], key);
      assert rows == [rows[0]] + rows[1..];
    }
  }

  lemma GetWellFormed<V>(c: Cache<V>, key: u64, now: nat)
    requires WellFormed(c)
    ensures WellFormed(Get(c, key, now).0)
  {
    hide DistinctKeys;
    FindNone(c.rows, key);
    WithoutDistinct(c.rows, key);
    if Find(c.rows, key).Some? {
      ConsDistinct(Find(c.rows, key).value, Without(c.rows, key));
      assert DistinctKeys([Find(c.rows, key).value] + Without(c.rows, key));
    }
  }

  lemma RoomDistinct<V>(rows: seq<Row<V>>, capacity: nat, key: u64)
    requires DistinctKeys(rows) && |rows| <= (if capacity == 0 then 1 else capacity)
    ensures var r := MakeRoom(rows, capacity, key);
      DistinctKeys(r) && (forall row | row in r :: row.key != key) && |r| + 1 <= (if capacity == 0 then 1 else capacity)
  {
    FindNone(rows, key);
    WithoutDistinct(rows, key);
  }

  lemma PutWellFormed<V>(c: Cache<V>, key: u64, value: V, now: nat)
    requires WellFormed(c)
    ensures WellFormed(Put(c, key, value, now))
  {
    hide DistinctKeys, MakeRoom, Find;
    RoomDistinct(c.rows, c.capacity, key);
    ConsDistinct(Row(key, value, now), MakeRoom(c.rows, c.capacity, key));
  }

  lemma StepWellFormed<V>(c: Cache<V>, call: Call<V>)
    requires WellFormed(c)
    ensures WellFormed(Step(c, call))
  {
    hide Get, Put;
    match call.op
    case OpGet(key) => GetWellFormed(c, key, call.now);
    case OpPut(key, value) => PutWellFormed(c, key, value, call.now);
    case OpRemove(key) => WithoutDistinct(c.rows, key);
    case _ =>
  }

  lemma {:induction false} RunWellFormed<V>(c: Cache<V>, calls: seq<Call<V>>)
    requires WellFormed(c)
    ensures WellFormed(Run(c, calls))
    decreases |calls|
  {
    hide Step;
    if calls != [] {
      StepWellFormed(c, calls[0]);
      RunWellFormed(Step(c, calls[0]), calls[1..]);
    }
  }

  /** A cache set to capacity 0 and then enabled again holds one entry more than its capacity. */
  lemma CapacityZeroHoldsOne<V>(maxSize: nat, ttl: Option<nat>, key: u64, value: V, now: nat)
    ensures var calls := [Call(OpSetPolicy(0, ttl), now), Call(OpSetEnabled(true), now), Call(OpPut(key, value), now)];
      var c := Run(New(maxSize, ttl), calls); c.capacity == 0 && |c.rows| == 1
  {
    var calls := [Call(OpSetPolicy(0, ttl), now), Call(OpSetEnabled(true), now), Call(OpPut(key, value), now)];
    var c0: Cache<V> := New(maxSize, ttl);
    var c1 := Step(c0, calls[0]);
    var c2 := Step(c1, calls[1]);
    var c3 := Step(c2, calls[2]);
    assert calls[1..][1..] == calls[2..] && calls[2..][1..] == calls[3..] == [];
    assert Run(c2, calls[2..]) == Run(c3, calls[3..]) == c3;
    assert Run(c1, calls[1..]) == c3;
  }

  // ---------- Counters ----------

  datatype Tally = Tally(gets: nat, inserts: nat, dropped: nat)

  /** Calls of get, puts of keys that were not resident, and keys dropped other than by eviction. */
  function Count<V>(t: Tally, c: Cache<V>, call: Call<V>): Tally {
    match call.op
    case OpGet(_) => t.(gets := t.gets + 1)
    case OpPut(key, _) => if c.enabled && Find(c.rows, key).None? then t.(inserts := t.inserts + 1) else t
    case OpRemove(key) => if Find(c.rows, key).Some? then t.(dropped := t.dropped + 1) else t
    case OpClear => t.(dropped := t.dropped + |c.rows|)
    case OpSetEnabled(enabled) => if enabled then t else t.(dropped := t.dropped + |c.rows|)
    case OpSetPolicy(maxSize, _) => if maxSize == 0 then t.(dropped := t.dropped + |c.rows|) else t
  }

  function CountRun<V>(t: Tally, c: Cache<V>, calls: seq<Call<V>>): Tally
    decreases |calls|
  {
    if calls == [] then t else CountRun(Count(t, c, calls[0]), Step(c, calls[0]), calls[1..])
  }

  ghost predicate Balanced<V>(t: Tally, c: Cache<V>) {
    && c.hits + c.misses == t.gets
    && t.inserts == |c.rows| + c.evictions + t.dropped
  }

  lemma StepBalanced<V>(t: Tally, c: Cache<V>, call: Call<V>)
    requires WellFormed(c) && Balanced(t, c)
    ensures Balanced(Count(t, c, call), Step(c, call))
  {
    match call.op
    case OpGet(key) => WithoutDistinct(c.rows, key);
    case OpPut(key, _) => WithoutDistinct(c.rows, key);
    case OpRemove(key) => WithoutDistinct(c.rows, key);
    case _ =>
  }

  lemma {:induction false} RunBalanced<V>(t: Tally, c: Cache<V>, calls: seq<Call<V>>)
    requires WellFormed(c) && Balanced(t, c)
    ensures Balanced(CountRun(t, c, calls), Run(c, calls))
    decreases |calls|
  {
    hide Step, Count, Balanced, WellFormed;
    if calls != [] {
      StepWellFormed(c, calls[0]);
      StepBalanced(t, c, calls[0]);
      RunBalanced(Count(t, c, calls[0]), Step(c, calls[0]), calls[1..]);
    }
  }

  /** From a new cache, every get is a hit or a miss, and every key inserted is resident, evicted or dropped. */
  lemma CountersAddUp<V>(maxSize: nat, ttl: Option<nat>, calls: seq<Call<V>>)
    ensures Balanced(CountRun(Tally(0, 0, 0), New(maxSize, ttl), calls), Run(New(maxSize, ttl), calls))
    ensures WellFormed(Run(New(maxSize, ttl), calls))
  {
    RunBalanced(Tally(0, 0, 0), New(maxSize, ttl), calls);
    RunWellFormed(New(maxSize, ttl), calls);
  }

  // ---------- Inclusion ----------

  /** `a` is `b` with some rows left out. */
  ghost predicate Subsequence<V>(a: seq<Row<V>>, b: seq<Row<V>>)
    decreases |b|
  {
    a == [] || (b != [] && ((a[0] == b[0] && Subsequence(a[1..], b[1..])) || Subsequence(a, b[1..])))
  }

  lemma {:induction false} SubsequenceMember<V>(a: seq<Row<V>>, b: seq<Row<V>>)
    requires Subsequence(a, b)
    ensures |a| <= |b| && forall row | row in a :: row in b
    decreases |b|
  {
    if a != [] {
      assert b == [b[0]] + b[1..] && a == [a[0]] + a[1..];
      if a[0] == b[0] && Subsequence(a[1..], b[1..]) {
        SubsequenceMember(a[1..], b[1..]);
      } else {
        SubsequenceMember(a, b[1..]);
      }
    }
  }

  /** The last row of the longer list may go if the shorter one gives up its last row or is shorter. */
  lemma {:induction false} SubsequenceDropLast<V>(a: seq<Row<V>>, b: seq<Row<V>>)
    requires Subsequence(a, b) && a != []
    ensures Subsequence(a[..|a| - 1], b[..|b| - 1])
    decreases |b|
  {
    SubsequenceMember(a, b);
    if |a| > 1 {
      if a[0] == b[0] && Subsequence(a[1..], b[1..]) {
        SubsequenceDropLast(a[1..], b[1..]);
        SubsequenceMember(a[1..], b[1..]);
        assert a[..|a| - 1][1..] == a[1..][..|a| - 2] && b[..|b| - 1][1..] == b[1..][..|b| - 2];
      } else {
        SubsequenceDropLast(a, b[1..]);
        SubsequenceMember(a, b[1..]);
        assert b[..|b| - 1][1..] == b[1..][..|b| - 2];
      }
    }
  }

  lemma {:induction false} SubsequencePrefix<V>(a: seq<Row<V>>, b: seq<Row<V>>)
    requires Subsequence(a, b) && a != []
    ensures Subsequence(a[..|a| - 1], b)
    decreases |b|
  {
    if a[0] == b[0] && Subsequence(a[1..], b[1..]) {
      if |a| > 1 {
        SubsequencePrefix(a[1..], b[1..]);
        assert a[..|a| - 1][1..] == a[1..][..|a| - 2];
      }
    } else {
      SubsequencePrefix(a, b[1..]);
    }
  }

  lemma {:induction false} SubsequenceWithout<V>(a: seq<Row<V>>, b: seq<Row<V>>, key: u64)
    requires Subsequence(a, b)
    ensures Subsequence(Without(a, key), Without(b, key))
    decreases |b|
  {
    if a != [] {
      if a[0] == b[0] && Subsequence(a[1..], b[1..]) {
        SubsequenceWithout(a[1..], b[1..], key);
        ConsSubsequence(b[0], Without(a[1..], key), Without(b[1..], key));
      } else {
        SubsequenceWithout(a, b[1..], key);
        SkipSubsequence(b[0], Without(a, key), Without(b[1..], key));
      }
    }
  }

  lemma ConsSubsequence<V>(row: Row<V>, a: seq<Row<V>>, b: seq<Row<V>>)
    requires Subsequence(a, b)
    ensures Subsequence([row] + a, [row] + b)
  {
    assert ([row] + a)[1..] == a && ([row] + b)[1..] == b;
  }

  lemma SkipSubsequence<V>(row: Row<V>, a: seq<Row<V>>, b: seq<Row<V>>)
    requires Subsequence(a, b)
    ensures Subsequence(a, [row] + b)
  {
    assert ([row] + b)[1..] == b;
  }

  /** The small cache holds a subsequence of the large one, and never lags it by more than the
      difference of the capacities. */
  ghost predicate Included<V>(small: Cache<V>, large: Cache<V>) {
    && WellFormed(small) && WellFormed(large)
    && 1 <= small.capacity <= large.capacity
    && small.ttl == large.ttl && small.enabled == large.enabled
    && Subsequence(small.rows, large.rows)
    && |large.rows| - |small.rows| <= large.capacity - small.capacity
    && small.hits + small.misses == large.hits + large.misses
    && small.hits <= large.hits
  }

  lemma SameRow<V>(a: seq<Row<V>>, b: seq<Row<V>>, key: u64)
    requires Subsequence(a, b) && DistinctKeys(b) && Find(a, key).Some?
    ensures Find(b, key) == Find(a, key)
  {
    FindNone(a, key);
    FindNone(b, key);
    SubsequenceMember(a, b);
    var x, y := Find(a, key).value, Find(b, key).value;
    var i :| 0 <= i < |b| && b[i] == x;
    var j :| 0 <= j < |b| && b[j] == y;
    assert i == j;
  }

  lemma GetIncluded<V>(small: Cache<V>, large: Cache<V>, key: u64, now: nat)
    requires Included(small, large)
    ensures var (s, x) := Get(small, key, now);
      var (l, y) := Get(large, key, now);
      Included(s, l) && (x.Some? ==> y == x)
  {
    GetWellFormed(small, key, now);
    GetWellFormed(large, key, now);
    hide DistinctKeys;
    SubsequenceMember(small.rows, large.rows);
    SubsequenceWithout(small.rows, large.rows, key);
    WithoutDistinct(small.rows, key);
    WithoutDistinct(large.rows, key);
    FindNone(small.rows, key);
    if Find(small.rows, key).Some? {
      SameRow(small.rows, large.rows, key);
      var row := Find(small.rows, key).value;
      ConsSubsequence(row, Without(small.rows, key), Without(large.rows, key));
    } else if Find(large.rows, key).Some? {
      SkipSubsequence(Find(large.rows, key).value, small.rows, Without(large.rows, key));
    }
  }

  lemma WithoutLength<V>(rows: seq<Row<V>>, key: u64)
    requires DistinctKeys(rows)
    ensures |Without(rows, key)| == |rows| - (if Find(rows, key).Some? then 1 else 0)
    ensures Find(rows, key).None? ==> Without(rows, key) == rows
  {
    hide DistinctKeys, Without, Find;
    WithoutDistinct(rows, key);
    FindNone(rows, key);
  }

  lemma SubsequenceLength<V>(a: seq<Row<V>>, b: seq<Row<V>>)
    requires Subsequence(a, b)
    ensures |a| <= |b|
  {
    hide Subsequence;
    SubsequenceMember(a, b);
  }

  /** Room is made on both sides without losing inclusion; where the lists differ in being full,
      the difference of the capacities pays. */
  lemma RoomIncluded<V>(a: seq<Row<V>>, m: nat, b: seq<Row<V>>, n: nat, key: u64)
    requires Subsequence(a, b) && DistinctKeys(a) && DistinctKeys(b)
    requires |a| <= m <= n && 1 <= m && |b| <= n && |b| - |a| <= n - m
    ensures var a', b' := MakeRoom(a, m, key), MakeRoom(b, n, key);
      Subsequence(a', b') && |b'| - |a'| <= n - m
  {
    hide DistinctKeys, Without, Find, Subsequence;
    SubsequenceWithout(a, b, key);
    SubsequenceLength(a, b);
    WithoutLength(a, key);
    WithoutLength(b, key);
    if Find(a, key).Some? {
      SameRow(a, b, key);
    } else if |a| >= m {
      SubsequencePrefix(a, b);
      SubsequencePrefix(a, Without(b, key));
      SubsequenceDropLast(a, b);
    }
  }

  lemma PutIncluded<V>(small: Cache<V>, large: Cache<V>, key: u64, value: V, now: nat)
    requires Included(small, large)
    ensures Included(Put(small, key, value, now), Put(large, key, value, now))
  {
    hide DistinctKeys, MakeRoom, Find, Subsequence;
    PutWellFormed(small, key, value, now);
    PutWellFormed(large, key, value, now);
    RoomIncluded(small.rows, small.capacity, large.rows, large.capacity, key);
    ConsSubsequence(Row(key, value, now),
                    MakeRoom(small.rows, small.capacity, key), MakeRoom(large.rows, large.capacity, key));
  }

  predicate SharedOp<V>(op: Op<V>) { !op.OpSetPolicy? }

  lemma StepIncluded<V>(small: Cache<V>, large: Cache<V>, call: Call<V>)
    requires Included(small, large) && SharedOp(call.op)
    ensures Included(Step(small, call), Step(large, call))
  {
    StepWellFormed(small, call);
    StepWellFormed(large, call);
    match call.op
    case OpGet(key) => GetIncluded(small, large, key, call.now);
    case OpPut(key, value) => PutIncluded(small, large, key, value, call.now);
    case OpRemove(key) =>
      SubsequenceMember(small.rows, large.rows);
      SubsequenceWithout(small.rows, large.rows, key);
      WithoutDistinct(small.rows, key);
      WithoutDistinct(large.rows, key);
      if Find(small.rows, key).Some? {
        SameRow(small.rows, large.rows, key);
      }
    case _ =>
  }

  /** Under the same calls every hit of the smaller cache is the same hit of the larger one. */
  lemma {:induction false} Inclusion<V>(small: Cache<V>, large: Cache<V>, calls: seq<Call<V>>)
    requires Included(small, large) && forall call | call in calls :: SharedOp(call.op)
    ensures Included(Run(small, calls), Run(large, calls))
    ensures forall i | 0 <= i < |calls| && Answers(small, calls)[i].Some? ::
      Answers(large, calls)[i] == Answers(small, calls)[i]
    decreases |calls|
  {
    hide Step, Get, Included;
    if calls != [] {
      StepIncluded(small, large, calls[0]);
      Inclusion(Step(small, calls[0]), Step(large, calls[0]), calls[1..]);
      if calls[0].op.OpGet? {
        GetIncluded(small, large, calls[0].op.key, calls[0].now);
      }
    }
  }

  /** Two new caches of which one is at least as large. */
  lemma NewCachesIncluded<V>(m: nat, n: nat, ttl: Option<nat>)
    requires 1 <= m <= n
    ensures Included(New<V>(m, ttl), New<V>(n, ttl))
  {
  }

  // ---------- Writing through to a sink ----------

  /** A sink that reports an error may have stored the write all the same. */
  datatype SinkAnswer = Accepted | Refused | StoredButFailed

  function SinkAfter<V>(sink: map<u64, V>, op: Op<V>): map<u64, V> {
    match op
    case OpPut(key, value) => sink[key := value]
    case OpRemove(key) => sink - {key}
    case OpClear => map[]
    case _ => sink
  }

  predicate IsWrite<V>(op: Op<V>) { op.OpPut? || op.OpRemove? || op.OpClear? }

  /** One call on a cache in front of a sink: a put, remove or clear goes to the sink first, and an error
      leaves the cache alone. */
  function WriteThrough<V>(c: Cache<V>, sink: map<u64, V>, call: Call<V>, answer: SinkAnswer): (Cache<V>, map<u64, V>) {
    (if IsWrite(call.op) && answer != Accepted then c else Step(c, call),
     if answer == Refused then sink else SinkAfter(sink, call.op))
  }

  /** Every cached value is the sink's. */
  ghost predicate Coherent<V>(c: Cache<V>, sink: map<u64, V>) {
    && WellFormed(c)
    && forall row | row in c.rows :: row.key in sink && sink[row.key] == row.value
  }

  /** The write changes the sink's value of a cached key. */
  ghost predicate Conflicts<V>(c: Cache<V>, op: Op<V>) {
    match op
    case OpPut(key, value) => Find(c.rows, key).Some? && Find(c.rows, key).value.value != value
    case OpRemove(key) => Find(c.rows, key).Some?
    case OpClear => c.rows != []
    case _ => false
  }

  /** The sink takes a write that conflicts with the cache, and reports an error. */
  ghost predicate LeavesStale<V>(c: Cache<V>, call: Call<V>, answer: SinkAnswer) {
    answer == StoredButFailed && Conflicts(c, call.op)
  }

  lemma CoherentGet<V>(c: Cache<V>, sink: map<u64, V>, key: u64, now: nat)
    requires Coherent(c, sink)
    ensures Coherent(Get(c, key, now).0, sink)
    ensures var answer := Get(c, key, now).1; answer.Some? ==> key in sink && sink[key] == answer.value
  {
    GetWellFormed(c, key, now);
    FindNone(c.rows, key);
    WithoutDistinct(c.rows, key);
  }

  lemma CoherentWrite<V>(c: Cache<V>, sink: map<u64, V>, call: Call<V>)
    requires Coherent(c, sink)
    ensures Coherent(Step(c, call), SinkAfter(sink, call.op))
  {
    StepWellFormed(c, call);
    match call.op
    case OpGet(key) => CoherentGet(c, sink, key, call.now);
    case OpPut(key, value) =>
      FindNone(c.rows, key);
      WithoutDistinct(c.rows, key);
    case OpRemove(key) =>
      FindNone(c.rows, key);
      WithoutDistinct(c.rows, key);
    case _ =>
  }

  /** A write that the sink takes and the cache does not. */
  lemma StaleExactly<V>(c: Cache<V>, sink: map<u64, V>, op: Op<V>)
    requires Coherent(c, sink)
    ensures Coherent(c, SinkAfter(sink, op)) <==> !Conflicts(c, op)
  {
    match op
    case OpPut(key, value) => FindNone(c.rows, key);
    case OpRemove(key) => FindNone(c.rows, key);
    case OpClear =>
      if c.rows != [] {
        assert c.rows[0] in c.rows;
      }
    case _ =>
  }

  lemma CoherentStep<V>(c: Cache<V>, sink: map<u64, V>, call: Call<V>, answer: SinkAnswer)
    requires Coherent(c, sink)
    ensures var (c', sink') := WriteThrough(c, sink, call, answer); Coherent(c', sink') <==> !LeavesStale(c, call, answer)
  {
    hide Coherent, Step;
    CoherentWrite(c, sink, call);
    StaleExactly(c, sink, call.op);
  }

  datatype Write<+V> = Write(call: Call<V>, answer: SinkAnswer)

  /** At every point of a run the cache agrees with the sink. */
  ghost predicate AlwaysCoherent<V>(c: Cache<V>, sink: map<u64, V>, writes: seq<Write<V>>)
    decreases |writes|
  {
    Coherent(c, sink)
    && (writes != [] ==>
          var (c', sink') := WriteThrough(c, sink, writes[0].call, writes[0].answer);
          AlwaysCoherent(c', sink', writes[1..]))
  }

  ghost predicate NeverStale<V>(c: Cache<V>, sink: map<u64, V>, writes: seq<Write<V>>)
    decreases |writes|
  {
    writes != [] ==>
      var (c', sink') := WriteThrough(c, sink, writes[0].call, writes[0].answer);
      !LeavesStale(c, writes[0].call, writes[0].answer) && NeverStale(c', sink', writes[1..])
  }

  /** Over any run the cache agrees with the sink throughout exactly if the sink never stored, and reported as
      failed, a write to a cached key that changed its value. */
  lemma {:induction false} RunCoherentIff<V>(c: Cache<V>, sink: map<u64, V>, writes: seq<Write<V>>)
    requires Coherent(c, sink)
    ensures AlwaysCoherent(c, sink, writes) <==> NeverStale(c, sink, writes)
    decreases |writes|
  {
    hide Coherent, WriteThrough, LeavesStale;
    if writes != [] {
      var (c', sink') := WriteThrough(c, sink, writes[0].call, writes[0].answer);
      CoherentStep(c, sink, writes[0].call, writes[0].answer);
      if Coherent(c', sink') {
        RunCoherentIff(c', sink', writes[1..]);
      } else {
        assert !AlwaysCoherent(c', sink', writes[1..]);
      }
    }
  }

  /** In particular it does over any run of accepted and refused writes. */
  lemma {:induction false} RunCoherent<V>(c: Cache<V>, sink: map<u64, V>, writes: seq<Write<V>>)
    requires Coherent(c, sink) && forall w | w in writes :: w.answer != StoredButFailed
    ensures AlwaysCoherent(c, sink, writes)
    decreases |writes|
  {
    hide Coherent, WriteThrough;
    if writes != [] {
      var (c', sink') := WriteThrough(c, sink, writes[0].call, writes[0].answer);
      CoherentStep(c, sink, writes[0].call, writes[0].answer);
      assert writes[0] in writes;
      RunCoherent(c', sink', writes[1..]);
    }
  }
}

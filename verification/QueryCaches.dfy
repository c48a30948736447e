/** The query cache as the server keeps it: a map, a recency queue and counters, tied to module Lru. */
module QueryCaches {
  import opened Wrappers
  import opened Bytes
  import opened Lru

  datatype CacheEntry<+V> = CacheEntry(value: V, insertedAt: nat)

  /** The queue without the key, as `retain` leaves it. */
  function Retain(order: seq<u64>, key: u64): seq<u64> {
    if order == [] then []
    else if order[0] == key then Retain(order[1..], key)
    else [order[0]] + Retain(order[1..], key)
  }

  /** The list that a map and a queue stand for. */
  function Rows<V>(order: seq<u64>, entries: map<u64, CacheEntry<V>>): (r: seq<Row<V>>)
    requires forall k | k in order :: k in entries
    ensures |r| == |order|
  {
    if order == [] then []
    else [Row(order[0], entries[order[0]].value, entries[order[0]].insertedAt)] + Rows(order[1..], entries)
  }

  ghost predicate Matching<V>(order: seq<u64>, entries: map<u64, CacheEntry<V>>) {
    && (forall k :: k in order <==> k in entries)
    && (forall i, j | 0 <= i < j < |order| :: order[i] != order[j])
  }

  lemma {:induction false} RowsFind<V>(order: seq<u64>, entries: map<u64, CacheEntry<V>>, key: u64)
    requires forall k | k in order :: k in entries
    ensures Find(Rows(order, entries), key) ==
      if key in order then Some(Row(key, entries[key].value, entries[key].insertedAt)) else None
  {
    if order != [] {
      RowsFind(order[1..], entries, key);
      assert order == [order[0]] + order[1..];
      assert Rows(order, entries)[1..] == Rows(order[1..], entries);
    }
  }

  lemma {:induction false} RetainMembers(order: seq<u64>, key: u64)
    requires forall i, j | 0 <= i < j < |order| :: order[i] != order[j]
    ensures forall k :: k in Retain(order, key) <==> k in order && k != key
    ensures forall i, j | 0 <= i < j < |Retain(order, key)| :: Retain(order, key)[i] != Retain(order, key)[j]
  {
    if order != [] {
      RetainMembers(order[1..], key);
      assert order == [order[0]] + order[1..];
      assert order[0] !in order[1..];
    }
  }

  /** Only the entries of the keys in the queue matter to the list. */
  lemma {:induction false} RowsAgree<V>(order: seq<u64>, a: map<u64, CacheEntry<V>>, b: map<u64, CacheEntry<V>>)
    requires forall k | k in order :: k in a && k in b && a[k] == b[k]
    ensures Rows(order, a) == Rows(order, b)
  {
    if order != [] {
      RowsAgree(order[1..], a, b);
    }
  }

  lemma {:induction false} RowsRetain<V>(order: seq<u64>, entries: map<u64, CacheEntry<V>>, key: u64)
    requires forall k | k in order :: k in entries
    ensures forall k | k in Retain(order, key) :: k in entries
    ensures Rows(Retain(order, key), entries) == Without(Rows(order, entries), key)
  {
    if order != [] {
      RowsRetain(order[1..], entries, key);
      assert Rows(order, entries)[1..] == Rows(order[1..], entries);
      if order[0] != key {
        assert ([order[0]] + Retain(order[1..], key))[1..] == Retain(order[1..], key);
      }
    }
  }

  lemma {:induction false} RowsTake<V>(order: seq<u64>, entries: map<u64, CacheEntry<V>>, n: nat)
    requires (forall k | k in order :: k in entries) && n <= |order|
    ensures Rows(order[..n], entries) == Rows(order, entries)[..n]
  {
    if n > 0 {
      RowsTake(order[1..], entries, n - 1);
      assert order[..n][1..] == order[1..][..n - 1];
    }
  }

  /** A queue that lists the keys of a map once each is as long as the map. */
  lemma {:induction false} MatchingSize<V>(order: seq<u64>, entries: map<u64, CacheEntry<V>>)
    requires Matching(order, entries)
    ensures |order| == |entries|
  {
    if order == [] {
      assert entries.Keys == {};
    } else {
      var rest := entries - {order[0]};
      assert order == [order[0]] + order[1..];
      assert entries.Keys == rest.Keys + {order[0]};
      MatchingSize(order[1..], rest);
    }
  }

  /** Taking a key out of queue and map takes its row out of the list. */
  lemma DropKey<V>(order: seq<u64>, entries: map<u64, CacheEntry<V>>, key: u64)
    requires Matching(order, entries)
    ensures Matching(Retain(order, key), entries - {key})
    ensures Rows(Retain(order, key), entries - {key}) == Without(Rows(order, entries), key)
  {
    RetainMembers(order, key);
    RowsRetain(order, entries, key);
    RowsAgree(Retain(order, key), entries, entries - {key});
  }

  lemma DropLast<V>(order: seq<u64>, entries: map<u64, CacheEntry<V>>)
    requires Matching(order, entries) && order != []
    ensures var last := |order| - 1;
      && Matching(order[..last], entries - {order[last]})
      && Rows(order[..last], entries - {order[last]}) == Rows(order, entries)[..last]
  {
    var last := |order| - 1;
    RowsTake(order, entries, last);
    RowsAgree(order[..last], entries, entries - {order[last]});
  }

  lemma PushFront<V>(order: seq<u64>, entries: map<u64, CacheEntry<V>>, key: u64, entry: CacheEntry<V>)
    requires Matching(order, entries) && key !in entries
    ensures Matching([key] + order, entries[key := entry])
    ensures Rows([key] + order, entries[key := entry]) == [Row(key, entry.value, entry.insertedAt)] + Rows(order, entries)
  {
    var all := [key] + order;
    assert all[1..] == order;
    assert forall k :: k in all <==> k == key || k in order;
    RowsAgree(order, entries, entries[key := entry]);
  }

  /** A resident key moved to the front, with a new entry or its old one. */
  lemma MoveFront<V>(order: seq<u64>, entries: map<u64, CacheEntry<V>>, key: u64, entry: CacheEntry<V>)
    requires Matching(order, entries) && key in entries
    ensures Matching([key] + Retain(order, key), entries[key := entry])
    ensures Rows([key] + Retain(order, key), entries[key := entry])
         == [Row(key, entry.value, entry.insertedAt)] + Without(Rows(order, entries), key)
  {
    hide Matching, Rows;
    DropKey(order, entries, key);
    PushFront(Retain(order, key), entries - {key}, key, entry);
    assert (entries - {key})[key := entry] == entries[key := entry];
  }

  class QueryCache<V> {
    var entries: map<u64, CacheEntry<V>>
    var order: seq<u64>
    var maxSize: nat
    var ttl: Option<nat>
    var enabled: bool
    var hits: nat
    var misses: nat
    var evictions: nat

    /** The queue is a duplicate-free permutation of the keys of the map. */
    ghost predicate Valid()
      reads this
    {
      Matching(order, entries)
    }

    ghost function View(): Cache<V>
      requires Valid()
      reads this
    {
      Cache(Rows(order, entries), maxSize, ttl, enabled, hits, misses, evictions)
    }

    constructor (maxSize: nat, ttl: Option<nat>)
      ensures Valid() && View() == New(maxSize, ttl)
    {
      entries := map[];
      order := [];
      this.maxSize := if maxSize == 0 then DEFAULT_QUERY_CACHE_SIZE else maxSize;
      this.ttl := ttl;
      enabled := true;
      hits, misses, evictions := 0, 0, 0;
    }

    method Get(key: u64, now: nat) returns (r: Option<V>)
      requires Valid()
      modifies this
      ensures Valid() && (View(), r) == Lru.Get(old(View()), key, now)
    {
      if !enabled {
        misses := misses + 1;
        return None;
      }
      RowsFind(order, entries, key);
      assert key in order <==> key in entries;
      hide Matching, Rows, Find, Retain, Without;
      if key in entries {
        var entry := entries[key];
        if ttl.Some? && now > entry.insertedAt && now - entry.insertedAt > ttl.value {
          Discard(key);
          evictions := evictions + 1;
          misses := misses + 1;
          return None;
        }
        Touch(key);
        hits := hits + 1;
        return Some(entry.value);
      }
      misses := misses + 1;
      return None;
    }

    /** Take the key out of map and queue. */
    method Discard(key: u64)
      requires Valid()
      modifies this`entries, this`order
      ensures Valid() && View() == old(View()).(rows := Without(old(View()).rows, key))
    {
      DropKey(order, entries, key);
      hide Matching, Rows, Retain, Without;
      entries := entries - {key};
      order := Retain(order, key);
    }

    /** Move a resident key to the front. */
    method Touch(key: u64)
      requires Valid() && key in entries
      modifies this`order
      ensures Valid()
      ensures View() == old(View()).(
        rows := [Row(key, entries[key].value, entries[key].insertedAt)] + Without(old(View()).rows, key))
    {
      MoveFront(order, entries, key, entries[key]);
      hide Matching, Rows, Retain, Without;
      assert entries[key := entries[key]] == entries;
      order := Retain(order, key);
      order := [key] + order;
    }

    /** Drop the least recently used entry. */
    method EvictLast()
      requires Valid() && order != []
      modifies this
      ensures Valid() && order == old(order)[..|old(order)| - 1] && entries.Keys <= old(entries).Keys
      ensures View() == old(View()).(rows := old(View()).rows[..|old(order)| - 1], evictions := old(evictions) + 1)
    {
      DropLast(order, entries);
      hide Matching, Rows;
      entries := entries - {order[|order| - 1]};
      order := order[..|order| - 1];
      evictions := evictions + 1;
    }

    method Put(key: u64, value: V, now: nat)
      requires Valid()
      modifies this
      ensures Valid() && View() == Lru.Put(old(View()), key, value, now)
    {
      if !enabled {
        return;
      }
      MatchingSize(order, entries);
      RowsFind(order, entries, key);
      assert key in order <==> key in entries;
      hide Matching, Rows, Find, Retain, Without;
      if key in entries {
        Refresh(key, value, now);
      } else {
        if |entries| >= maxSize && order != [] {
          EvictLast();
        }
        Admit(key, value, now);
      }
    }

    method Refresh(key: u64, value: V, now: nat)
      requires Valid() && key in entries
      modifies this`entries, this`order
      ensures Valid()
      ensures View() == old(View()).(rows := [Row(key, value, now)] + Without(old(View()).rows, key))
    {
      MoveFront(order, entries, key, CacheEntry(value, now));
      hide Matching, Rows, Retain, Without;
      order := Retain(order, key);
      Insert(key, value, now);
    }

    method Admit(key: u64, value: V, now: nat)
      requires Valid() && key !in entries
      modifies this`entries, this`order
      ensures Valid() && View() == old(View()).(rows := [Row(key, value, now)] + old(View()).rows)
    {
      PushFront(order, entries, key, CacheEntry(value, now));
      hide Matching, Rows;
      Insert(key, value, now);
    }

    /** `map.insert` and `push_front`. */
    method Insert(key: u64, value: V, now: nat)
      modifies this`entries, this`order
      ensures entries == old(entries)[key := CacheEntry(value, now)] && order == [key] + old(order)
    {
      entries := entries[key := CacheEntry(value, now)];
      order := [key] + order;
    }

    method Remove(key: u64)
      requires Valid()
      modifies this
      ensures Valid() && View() == Lru.Remove(old(View()), key)
    {
      RowsFind(order, entries, key);
      FindNone(Rows(order, entries), key);
      assert key in order <==> key in entries;
      hide Matching, Rows, Find, Retain, Without;
      if key in entries {
        Discard(key);
      }
    }

    method Clear()
      requires Valid()
      modifies this
      ensures Valid() && View() == Lru.Clear(old(View()))
    {
      entries := map[];
      order := [];
    }

    method SetEnabled(on: bool)
      requires Valid()
      modifies this
      ensures Valid() && View() == Lru.SetEnabled(old(View()), on)
    {
      enabled := on;
      if !on {
        entries := map[];
        order := [];
      }
    }

    method SetPolicy(maxSize: nat, ttl: Option<nat>)
      requires Valid()
      modifies this
      ensures Valid() && View() == Lru.SetPolicy(old(View()), maxSize, ttl)
    {
      this.ttl := ttl;
      enabled := maxSize > 0;
      this.maxSize := maxSize;
      if !enabled {
        entries := map[];
        order := [];
        return;
      }
      ghost var start := View();
      MatchingSize(order, entries);
      assert start.rows[..|start.rows|] == start.rows;
      hide Matching, Rows;
      while |entries| > this.maxSize
        invariant Valid() && |order| == |entries| <= |start.rows| && this.maxSize == maxSize
        invariant |order| == |start.rows| || |order| >= maxSize
        invariant View() == start.(rows := start.rows[..|order|],
                                   evictions := start.evictions + (|start.rows| - |order|))
        decreases |entries|
      {
        if order == [] {
          break;
        }
        ghost var n := |order|;
        EvictLast();
        assert start.rows[..n][..n - 1] == start.rows[..n - 1];
        MatchingSize(order, entries);
      }
    }
  }

  /** A cache in front of a sink that is written first. */
  class WriteThroughQueryCache<V(==)> {
    const cache: QueryCache<V>
    var sink: map<u64, V>

    ghost predicate Valid()
      reads this, cache
    {
      cache.Valid()
    }

    ghost predicate InStep()
      requires Valid()
      reads this, cache
    {
      Coherent(cache.View(), sink)
    }

    constructor (maxSize: nat, ttl: Option<nat>, sink: map<u64, V>)
      ensures Valid() && InStep() && fresh(cache) && this.sink == sink && cache.View() == New(maxSize, ttl)
    {
      cache := new QueryCache(maxSize, ttl);
      this.sink := sink;
    }

    /** While cache and sink are in step a cached read is a read of the sink. */
    method Get(key: u64, now: nat) returns (r: Option<V>)
      requires Valid()
      modifies cache
      ensures Valid() && (cache.View(), r) == Lru.Get(old(cache.View()), key, now)
      ensures old(InStep()) ==> InStep() && (r.Some? ==> key in sink && r.value == sink[key])
    {
      if InStep() {
        CoherentGet(cache.View(), sink, key, now);
      }
      r := cache.Get(key, now);
    }

    method Put(key: u64, value: V, now: nat, answer: SinkAnswer) returns (ok: bool)
      requires Valid()
      modifies this, cache
      ensures Valid() && ok == (answer == Accepted)
      ensures (cache.View(), sink) == WriteThrough(old(cache.View()), old(sink), Call(OpPut(key, value), now), answer)
      ensures old(InStep()) ==> (InStep() <==> !LeavesStale(old(cache.View()), Call(OpPut(key, value), now), answer))
    {
      if InStep() {
        CoherentStep(cache.View(), sink, Call(OpPut(key, value), now), answer);
      }
      if answer != Refused {
        sink := sink[key := value];
      }
      if answer != Accepted {
        return false;
      }
      cache.Put(key, value, now);
      return true;
    }

    method Remove(key: u64, answer: SinkAnswer) returns (ok: bool)
      requires Valid()
      modifies this, cache
      ensures Valid() && ok == (answer == Accepted)
      ensures (cache.View(), sink) == WriteThrough(old(cache.View()), old(sink), Call(OpRemove(key), 0), answer)
      ensures old(InStep()) ==> (InStep() <==> !LeavesStale(old(cache.View()), Call(OpRemove(key), 0), answer))
    {
      if InStep() {
        CoherentStep(cache.View(), sink, Call(OpRemove(key), 0), answer);
      }
      if answer != Refused {
        sink := sink - {key};
      }
      if answer != Accepted {
        return false;
      }
      cache.Remove(key);
      return true;
    }

    method Clear(answer: SinkAnswer) returns (ok: bool)
      requires Valid()
      modifies this, cache
      ensures Valid() && ok == (answer == Accepted)
      ensures (cache.View(), sink) == WriteThrough(old(cache.View()), old(sink), Call(OpClear, 0), answer)
      ensures old(InStep()) ==> (InStep() <==> !LeavesStale(old(cache.View()), Call(OpClear, 0), answer))
    {
      if InStep() {
        CoherentStep(cache.View(), sink, Call(OpClear, 0), answer);
      }
      if answer != Refused {
        sink := map[];
      }
      if answer != Accepted {
        return false;
      }
      cache.Clear();
      return true;
    }
  }
}

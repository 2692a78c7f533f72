/**
 * The store as it is implemented: fields updated in place, a running memory counter, and a lazily
 * maintained expiry heap with stale pairs and compaction. Each method is proved to act on the
 * ordered map exactly as the corresponding function of CacheModel.
 */
module StoreEngine {
  import opened Base
  import opened Decimal
  import opened CacheModel
  import opened SweepLaws
  import opened LruLaws

  /** A scheduled expiry. The heap is a multiset of these from which a least deadline is popped. */
  type Pair = (int, Key)

  const HEAP_SLACK: nat := 1024
  const HEAP_FACTOR: nat := 4

  /** Each entry with a deadline has its exact pair in the heap; stale pairs are allowed. */
  ghost predicate Covers(heap: multiset<Pair>, m: map<Key, Entry>) {
    forall k :: k in m && m[k].deadline.Some? ==> (m[k].deadline.value, k) in heap
  }

  /** Every pair of the heap is the deadline of its key. */
  ghost predicate NoneStale(heap: multiset<Pair>, m: map<Key, Entry>) {
    forall p :: p in heap ==> p.1 in m && m[p.1].deadline == Some(p.0)
  }

  predicate Least(p: Pair, heap: multiset<Pair>) {
    p in heap && forall q :: q in heap ==> p.0 <= q.0
  }

  lemma {:induction false} LeastExists(heap: multiset<Pair>)
    requires |heap| > 0
    ensures exists p :: Least(p, heap)
    decreases |heap|
  {
    var p :| p in heap;
    var rest := heap - multiset{p};
    assert heap == rest + multiset{p};
    if |rest| == 0 {
      assert Least(p, heap);
    } else {
      LeastExists(rest);
      var r :| Least(r, rest);
      var best := if p.0 <= r.0 then p else r;
      assert forall q :: q in heap ==> q == p || q in rest;
      assert Least(best, heap);
    }
  }

  class Store {
    const maxmemory: nat
    const lru: bool
    const glob: (Key, Bytes) -> bool
    var order: seq<Key>
    var entries: map<Key, Entry>
    var heap: multiset<Pair>
    var usedMemory: int
    var writes: nat
    var evicted: seq<Key>
    /** The largest number of keys ever held. */
    ghost var peak: nat

    ghost function State(): Cache
      reads this
    {
      Cache(order, entries)
    }

    function Cfg(): Config {
      Config(maxmemory, lru, glob)
    }

    /** The ordered map is well formed and the memory counter is the sum of the entry sizes. */
    ghost predicate Consistent()
      reads this
    {
      && WF(State())
      && usedMemory == Used(State())
      && |order| <= peak
    }

    ghost predicate HeapBounded()
      reads this
    {
      |heap| <= 4 * peak + 1024
    }

    ghost predicate Valid()
      reads this
    {
      Consistent() && HeapBounded() && Covers(heap, entries)
    }

    constructor (maxmemory: nat, lru: bool, glob: (Key, Bytes) -> bool)
      ensures Valid() && State() == EMPTY && Cfg() == Config(maxmemory, lru, glob)
      ensures evicted == [] && writes == 0
    {
      this.maxmemory, this.lru, this.glob := maxmemory, lru, glob;
      order, entries, heap := [], map[], multiset{};
      usedMemory, writes, evicted, peak := 0, 0, [], 0;
    }

    method OverLimit() returns (over: bool)
      requires Consistent()
      ensures over == Over(State(), Cfg())
    {
      over := maxmemory > 0 && usedMemory > maxmemory;
    }

    /** `_remove`: nothing happens if the key is absent. */
    method RemoveKey(k: Key)
      requires Consistent()
      modifies this`order, this`entries, this`usedMemory
      ensures Consistent() && State() == Remove(old(State()), k)
    {
      if k !in entries {
        RemoveAbsent(State(), k);
        return;
      }
      UsedRemove(State(), k);
      RestrictWF(State(), entries.Keys - {k});
      usedMemory := usedMemory - entries[k].size;
      order := Keep(order, entries.Keys - {k});
      entries := map x | x in entries && x in entries.Keys - {k} :: entries[x];
    }

    /** `_put`: replace or add an entry and move its key to the recent end. */
    method PutEntry(k: Key, v: Bytes, deadline: Option<int>)
      requires Consistent()
      modifies this`order, this`entries, this`usedMemory, this`peak
      ensures Consistent() && old(peak) <= peak
      ensures State() == Put(old(State()), k, NewEntry(k, v, deadline))
    {
      var e := NewEntry(k, v, deadline);
      UsedPut(State(), k, e);
      PutWF(State(), k, e);
      if k in entries {
        usedMemory := usedMemory - entries[k].size;
      }
      usedMemory := usedMemory + e.size;
      order := Keep(order, entries.Keys - {k}) + [k];
      entries := entries[k := e];
      peak := if |order| > peak then |order| else peak;
    }

    /** `_schedule`: push the pair, and rebuild the heap from the map when too many are stale. */
    method Schedule(k: Key, deadline: int)
      requires Consistent() && HeapBounded()
      requires k in entries && entries[k].deadline == Some(deadline)
      requires Covers(heap, entries - {k})
      modifies this`heap
      ensures Covers(heap, entries) && |heap| <= 4 * |order| + 1024
      ensures |old(heap)| < 4 * |order| + 1024 ==> heap == old(heap) + multiset{(deadline, k)}
      ensures |old(heap)| >= 4 * |order| + 1024 ==> NoneStale(heap, entries)
    {
      heap := heap + multiset{(deadline, k)};
      assert Covers(heap, entries) by {
        forall x | x in entries && entries[x].deadline.Some? ensures (entries[x].deadline.value, x) in heap {
          if x != k {
            assert x in entries - {k};
          }
        }
      }
      if |heap| > HEAP_FACTOR * |order| + HEAP_SLACK {
        var rebuilt: multiset<Pair> := multiset{};
        for i := 0 to |order|
          invariant |rebuilt| <= i && NoneStale(rebuilt, entries)
          invariant forall j :: 0 <= j < i && entries[order[j]].deadline.Some? ==>
                      (entries[order[j]].deadline.value, order[j]) in rebuilt
        {
          if entries[order[i]].deadline.Some? {
            rebuilt := rebuilt + multiset{(entries[order[i]].deadline.value, order[i])};
          }
        }
        heap := rebuilt;
      }
    }

    /** One round of the sweep: pop a least pair and remove its entry unless the pair is stale. */
    method PopDue(now: int) returns (hit: bool)
      requires Valid() && exists p :: p in heap && p.0 <= now
      modifies this`order, this`entries, this`usedMemory, this`heap
      ensures Valid() && |heap| < old(|heap|)
      ensures !hit ==> State() == old(State())
      ensures hit ==> |order| == old(|order|) - 1
      ensures hit ==>
                exists k :: k in old(entries) && Expired(old(entries)[k], now) && State() == Remove(old(State()), k)
    {
      LeastExists(heap);
      var top: Pair :| Least(top, heap);
      heap := heap - multiset{top};
      hit := top.1 in entries && entries[top.1].deadline == Some(top.0);
      if hit {
        KeepWithoutLength(order, top.1, entries.Keys - {top.1});
        RemoveKey(top.1);
      }
    }

    /** `sweep_expired`: pop due pairs, ignoring stale ones, until none is due. */
    method SweepExpired(now: int) returns (removed: nat)
      requires Valid()
      modifies this`order, this`entries, this`usedMemory, this`heap
      ensures Valid() && State() == Prune(old(State()), now)
      ensures removed == |old(order)| - |order|
    {
      removed := 0;
      while exists p :: p in heap && p.0 <= now
        invariant Valid()
        invariant Prune(State(), now) == Prune(old(State()), now)
        invariant removed == |old(order)| - |order|
        decreases |heap|
      {
        ghost var before := State();
        var hit := PopDue(now);
        if hit {
          ghost var k :| k in before.entries && Expired(before.entries[k], now) && State() == Remove(before, k);
          PruneDropIfExpired(before, k, now);
          removed := removed + 1;
        }
      }
      SweptAll(heap, entries, now);
      RestrictAll(State(), LiveKeys(State(), now));
    }

    /** Remove the least recently used key and record it. */
    method EvictOldest()
      requires Valid() && order != []
      modifies this`order, this`entries, this`usedMemory, this`evicted
      ensures Valid() && State() == DropOldest(old(State())) && evicted == old(evicted) + [old(order)[0]]
    {
      var k := order[0];
      DropOldestIsRemove(State());
      RemoveKey(k);
      evicted := evicted + [k];
    }

    /** The loop of `_evict`. */
    method EvictWhileOver()
      requires Valid()
      modifies this`order, this`entries, this`usedMemory, this`evicted
      ensures Valid()
      ensures State() == EvictLoop(old(State()), Cfg()).cache
      ensures evicted == old(evicted) + EvictLoop(old(State()), Cfg()).victims
    {
      ghost var goal := EvictLoop(State(), Cfg());
      var over := OverLimit();
      while over && |order| > 1
        invariant Valid() && over == Over(State(), Cfg())
        invariant EvictionLeft(State(), evicted, old(evicted), goal, Cfg())
        decreases |order|
      {
        EvictionStep(State(), evicted, old(evicted), goal, Cfg());
        EvictOldest();
        over := OverLimit();
      }
    }

    /** `_evict`: sweep, then drop least recently used keys while over the cap. */
    method EvictLru(now: int)
      requires Valid()
      modifies this`order, this`entries, this`usedMemory, this`heap, this`evicted
      ensures Valid()
      ensures State() == Evict(old(State()), Cfg(), now).cache
      ensures evicted == old(evicted) + Evict(old(State()), Cfg(), now).victims
    {
      var over := OverLimit();
      if !lru || !over {
        return;
      }
      var _ := SweepExpired(now);
      EvictWhileOver();
    }

    method Set(k: Key, v: Bytes, ttl: Option<int>, now: int)
      requires Valid()
      modifies this
      ensures Valid() && writes == old(writes) + 1
      ensures State() == DoSet(old(State()), Cfg(), k, v, ttl, now).cache
      ensures evicted == old(evicted) + DoSet(old(State()), Cfg(), k, v, ttl, now).evicted
    {
      writes := writes + 1;
      PutTimed(k, v, Deadline(ttl, now));
      EvictLru(now);
    }

    /** Write an entry and schedule its deadline. */
    method PutTimed(k: Key, v: Bytes, deadline: Option<int>)
      requires Valid()
      modifies this`order, this`entries, this`usedMemory, this`peak, this`heap
      ensures Valid() && State() == Put(old(State()), k, NewEntry(k, v, deadline))
    {
      PutEntry(k, v, deadline);
      if deadline.Some? {
        Schedule(k, deadline.value);
      }
    }

    /** The lazy removal every keyed operation performs on an expired entry. */
    method DropExpired(k: Key, now: int)
      requires Valid()
      modifies this`order, this`entries, this`usedMemory
      ensures Valid() && State() == DropIfExpired(old(State()), k, now)
    {
      if k in entries && Expired(entries[k], now) {
        RemoveKey(k);
      }
    }

    /** Write a counter's text under the deadline it has, which is already scheduled, then evict. */
    method PutCount(k: Key, n: int, now: int)
      requires Valid()
      modifies this
      ensures Valid() && writes == old(writes) + 1
      ensures State() == WriteCount(old(State()), Cfg(), k, n, now).cache
      ensures evicted == old(evicted) + WriteCount(old(State()), Cfg(), k, n, now).evicted
    {
      writes := writes + 1;
      var kept := if k in entries then entries[k].deadline else None;
      PutEntry(k, IntText(n), kept);
      assert State() == Put(old(State()), k, NewEntry(k, IntText(n), kept));
      EvictLru(now);
    }

    method Incr(k: Key, delta: int, now: int) returns (reply: Reply)
      requires Valid()
      modifies this
      ensures Valid() && writes == old(writes) + (if reply.Number? then 1 else 0)
      ensures State() == DoIncr(old(State()), Cfg(), k, delta, now).cache
      ensures reply == DoIncr(old(State()), Cfg(), k, delta, now).reply
      ensures evicted == old(evicted) + DoIncr(old(State()), Cfg(), k, delta, now).evicted
    {
      DropExpired(k, now);
      reply := Counted(if k in entries then Some(entries[k].value) else None, delta);
      if reply.Number? {
        PutCount(k, reply.n, now);
      }
    }

    method Delete(k: Key, now: int) returns (reply: bool)
      requires Valid()
      modifies this`order, this`entries, this`usedMemory
      ensures Valid()
      ensures State() == DoDelete(old(State()), k, now).cache && Flag(reply) == DoDelete(old(State()), k, now).reply
    {
      if k !in entries {
        return false;
      }
      var expired := Expired(entries[k], now);
      RemoveKey(k);
      reply := !expired;
    }

    /** `expire`; an absolute deadline is `ExpireAtUnix` with the wall clock equal to the model's clock. */
    method Expire(k: Key, ttl: int, now: int) returns (reply: bool)
      requires Valid()
      modifies this`order, this`entries, this`usedMemory, this`heap
      ensures Valid()
      ensures State() == DoExpireAt(old(State()), k, now + ttl, now).cache
      ensures Flag(reply) == DoExpireAt(old(State()), k, now + ttl, now).reply
    {
      if k !in entries {
        return false;
      }
      if Expired(entries[k], now) {
        RemoveKey(k);
        return false;
      }
      UsedRevise(State(), k, entries[k].(deadline := Some(now + ttl)));
      entries := entries[k := entries[k].(deadline := Some(now + ttl))];
      Schedule(k, now + ttl);
      reply := true;
    }

    method ExpireAtUnix(k: Key, deadline: int, now: int) returns (reply: bool)
      requires Valid()
      modifies this`order, this`entries, this`usedMemory, this`heap
      ensures Valid()
      ensures State() == DoExpireAt(old(State()), k, deadline, now).cache
      ensures Flag(reply) == DoExpireAt(old(State()), k, deadline, now).reply
    {
      reply := Expire(k, deadline - now, now);
    }

    method Persist(k: Key, now: int) returns (reply: bool)
      requires Valid()
      modifies this`order, this`entries, this`usedMemory
      ensures Valid()
      ensures State() == DoPersist(old(State()), k, now).cache && Flag(reply) == DoPersist(old(State()), k, now).reply
    {
      DropExpired(k, now);
      if k !in entries || entries[k].deadline.None? {
        return false;
      }
      UsedRevise(State(), k, entries[k].(deadline := None));
      entries := entries[k := entries[k].(deadline := None)];
      reply := true;
    }

    method Flush()
      requires Valid()
      modifies this`order, this`entries, this`usedMemory, this`heap
      ensures Valid() && State() == EMPTY
    {
      order, entries, heap, usedMemory := [], map[], multiset{}, 0;
    }

    method Get(k: Key, now: int) returns (reply: Option<Bytes>)
      requires Valid()
      modifies this`order, this`entries, this`usedMemory
      ensures Valid() && State() == DoGet(old(State()), k, now).cache
      ensures DoGet(old(State()), k, now).reply == if reply.Some? then Found(reply.value) else Missing
      ensures reply == if k in old(entries) && (old(entries)[k].deadline.Some? ==> now < old(entries)[k].deadline.value)
                       then Some(old(entries)[k].value) else None
    {
      if k !in entries {
        return None;
      }
      if Expired(entries[k], now) {
        RemoveKey(k);
        return None;
      }
      UsedPut(State(), k, entries[k]);
      PutWF(State(), k, entries[k]);
      PutLength(State(), k, entries[k]);
      order := Keep(order, entries.Keys - {k}) + [k];
      assert entries == entries[k := entries[k]];
      reply := Some(entries[k].value);
    }

    method TimeToLive(k: Key, now: int) returns (reply: Reply)
      requires Valid()
      modifies this`order, this`entries, this`usedMemory
      ensures Valid() && State() == DoTtl(old(State()), k, now).cache && reply == DoTtl(old(State()), k, now).reply
    {
      DropExpired(k, now);
      if k !in entries {
        return Missing;
      }
      match entries[k].deadline {
        case None => reply := Persistent;
        case Some(d) => reply := Remaining(if d - now > 0 then d - now else 0);
      }
    }

    method KeyList(now: int) returns (keys: seq<Key>)
      requires Valid()
      modifies this`order, this`entries, this`usedMemory, this`heap
      ensures Valid() && State() == Prune(old(State()), now) && keys == State().order
    {
      var _ := SweepExpired(now);
      keys := order;
    }

    method Length(now: int) returns (n: nat)
      requires Valid()
      modifies this`order, this`entries, this`usedMemory, this`heap
      ensures Valid() && State() == Prune(old(State()), now) && n == |State().order|
    {
      var _ := SweepExpired(now);
      n := |order|;
    }

    method TakeSnapshot(now: int) returns (rows: seq<Item>)
      requires Valid()
      modifies this`order, this`entries, this`usedMemory, this`heap
      ensures Valid() && State() == Prune(old(State()), now)
      ensures rows == SnapshotRows(order, entries, now)
    {
      var _ := SweepExpired(now);
      rows := Rows(now);
    }

    method Rows(now: int) returns (rows: seq<Item>)
      requires Valid()
      ensures rows == SnapshotRows(order, entries, now)
    {
      rows := [];
      ghost var goal := SnapshotRows(order, entries, now);
      assert order[0..] == order;
      for i := 0 to |order|
        invariant rows + SnapshotRows(order[i..], entries, now) == goal
      {
        var e := entries[order[i]];
        SnapshotNext(order, entries, now, i);
        if e.deadline.Some? && e.deadline.value <= now {
          continue;
        }
        Regroup(rows, [Row(order[i], e, now)], SnapshotRows(order[i + 1..], entries, now));
        rows := rows + [Row(order[i], e, now)];
      }
    }

    method DrainEvictions() returns (keys: seq<Key>)
      modifies this`evicted
      ensures keys == old(evicted) && evicted == []
    {
      keys, evicted := evicted, [];
    }
  }

  lemma SnapshotNext(o: seq<Key>, m: map<Key, Entry>, now: int, i: nat)
    requires i < |o| && o[i] in m
    ensures SnapshotRows(o[i..], m, now) ==
              (if Expired(m[o[i]], now) then [] else [Row(o[i], m[o[i]], now)]) + SnapshotRows(o[i + 1..], m, now)
  {
    assert o[i..][1..] == o[i + 1..];
  }

  /** What is left of an eviction round: the victims drained so far and those to come make up the goal. */
  ghost predicate EvictionLeft(c: Cache, drained: seq<Key>, before: seq<Key>, goal: Eviction, cfg: Config) {
    EvictLoop(c, cfg).cache == goal.cache && drained + EvictLoop(c, cfg).victims == before + goal.victims
  }

  lemma EvictionStep(c: Cache, drained: seq<Key>, before: seq<Key>, goal: Eviction, cfg: Config)
    requires MustEvict(c, cfg) && EvictionLeft(c, drained, before, goal, cfg)
    ensures EvictionLeft(DropOldest(c), drained + [c.order[0]], before, goal, cfg)
  {
    assert drained + ([c.order[0]] + EvictLoop(DropOldest(c), cfg).victims) ==
           drained + [c.order[0]] + EvictLoop(DropOldest(c), cfg).victims;
  }

  /** When no pair is due, covered entries are all alive. */
  lemma SweptAll(heap: multiset<Pair>, m: map<Key, Entry>, now: int)
    requires Covers(heap, m) && !exists p :: p in heap && p.0 <= now
    ensures forall k :: k in m ==> !Expired(m[k], now)
  {
    forall k | k in m ensures !Expired(m[k], now) {
      assert m[k].deadline.Some? ==> (m[k].deadline.value, k) in heap;
    }
  }
}

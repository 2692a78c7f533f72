/**
 * Memory and eviction in numbers: what an entry is charged, and which keys a write evicts, told from the
 * lengths of keys and values.
 */
module Footprints {
  import opened Base
  import opened Decimal
  import opened CacheModel
  import opened SweepLaws
  import opened LruLaws
  import opened Commands
  import opened TimedMap

  /** 96 bytes for each entry, and the bytes of its key and its value. */
  function Footprint(o: seq<Key>, m: map<Key, Entry>): nat
    requires forall k :: k in o ==> k in m
  {
    if o == [] then 0 else 96 + |o[0]| + |m[o[0]].value| + Footprint(o[1..], m)
  }

  lemma {:induction false} TotalIsFootprint(o: seq<Key>, m: map<Key, Entry>)
    requires forall k :: k in o ==> k in m && m[k].size == Cost(k, m[k].value)
    ensures TotalSize(o, m) == Footprint(o, m)
  {
    if o != [] {
      TotalIsFootprint(o[1..], m);
    }
  }

  /** The memory in use is the sum of what the entries are charged. */
  lemma UsedIsFootprint(c: Cache)
    requires WF(c)
    ensures Used(c) == Footprint(c.order, c.entries)
  {
    TotalIsFootprint(c.order, c.entries);
  }

  /** The keys from position `n` on must give way: they exceed the limit, and there is more than one. */
  predicate TooMuch(c: Cache, limit: nat, n: nat)
    requires n <= |c.order| && forall k :: k in c.order ==> k in c.entries
  {
    Footprint(c.order[n..], c.entries) > limit && |c.order| - n > 1
  }

  lemma NewestIsTail(c: Cache, cfg: Config, n: nat)
    requires WF(c) && n <= |c.order| && cfg.maxmemory > 0
    ensures MustEvict(Newest(c, n), cfg) <==> TooMuch(c, cfg.maxmemory, n)
  {
    var tail := Newest(c, n);
    forall k | k in tail.order ensures k in tail.entries && tail.entries[k] == c.entries[k] {
    }
    TotalIsFootprint(tail.order, tail.entries);
    SameFootprint(c.order[n..], tail.entries, c.entries);
  }

  lemma {:induction false} SameFootprint(o: seq<Key>, m: map<Key, Entry>, n: map<Key, Entry>)
    requires forall k :: k in o ==> k in m && k in n && m[k] == n[k]
    ensures Footprint(o, m) == Footprint(o, n)
  {
    if o != [] {
      SameFootprint(o[1..], m, n);
    }
  }

  /** The victims are the oldest keys, as few as leave the rest within the limit or a single key. */
  ghost predicate FewestOldest(c: Cache, limit: nat, victims: seq<Key>) {
    && (forall k :: k in c.order ==> k in c.entries)
    && |victims| <= |c.order| && victims == c.order[..|victims|] && !TooMuch(c, limit, |victims|)
    && forall n :: 0 <= n < |victims| ==> TooMuch(c, limit, n)
  }

  /**
   * An eviction round, in numbers. It evicts nothing under noeviction, without a limit, or while the memory
   * in use is within it; otherwise the oldest keys that are alive, as few as will do.
   */
  lemma EvictsFewestOldest(c: Cache, cfg: Config, now: int)
    requires WF(c)
    ensures var victims := Evict(c, cfg, now).victims;
            if !cfg.lru || cfg.maxmemory == 0 || Footprint(c.order, c.entries) <= cfg.maxmemory then
              victims == [] && Evict(c, cfg, now).cache == c
            else FewestOldest(Prune(c, now), cfg.maxmemory, victims)
  {
    UsedIsFootprint(c);
    if cfg.lru && Over(c, cfg) {
      var p := Prune(c, now);
      var victims := Evict(c, cfg, now).victims;
      RestrictWF(c, LiveKeys(c, now));
      ShortestSufficientPrefix(p, cfg);
      NewestIsTail(p, cfg, |victims|);
      forall n | 0 <= n < |victims| ensures TooMuch(p, cfg.maxmemory, n) {
        assert MustEvict(Newest(p, n), cfg);
        NewestIsTail(p, cfg, n);
      }
    }
  }
}

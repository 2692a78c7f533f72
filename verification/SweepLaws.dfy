/**
 * Lazy expiry is unobservable: the lazy store answers every operation as an eager store would, so
 * neither the moment nor the number of expiry sweeps can be noticed.
 */
module SweepLaws {
  import opened Base
  import opened Decimal
  import opened CacheModel

  /** Two caches with the same unexpired entries in the same order. */
  ghost predicate Same(c: Cache, d: Cache, now: int) {
    Prune(c, now) == Prune(d, now)
  }

  lemma PruneTwice(c: Cache, s: int, t: int)
    requires WF(c) && s <= t
    ensures Prune(Prune(c, s), t) == Prune(c, t)
  {
    var later := LiveKeys(Prune(c, s), t);
    RestrictRestrict(c, LiveKeys(c, s), later);
    RestrictSame(c, LiveKeys(c, s) * later, LiveKeys(c, t));
  }

  lemma SameLater(c: Cache, d: Cache, s: int, t: int)
    requires WF(c) && WF(d) && s <= t && Same(c, d, s)
    ensures Same(c, d, t)
  {
    PruneTwice(c, s, t);
    PruneTwice(d, s, t);
  }

  lemma SameLookup(c: Cache, d: Cache, k: Key, now: int)
    requires WF(c) && WF(d) && Same(c, d, now)
    ensures IsLive(c, k, now) <==> IsLive(d, k, now)
    ensures IsLive(c, k, now) ==> c.entries[k] == d.entries[k]
  {
    assert IsLive(c, k, now) <==> k in Prune(c, now).entries;
    assert IsLive(d, k, now) <==> k in Prune(d, now).entries;
  }

  /* ----- each building block acts on the unexpired part alone ----- */

  lemma PruneRemove(c: Cache, k: Key, now: int)
    requires WF(c)
    ensures Prune(Remove(c, k), now) == Restrict(Prune(c, now), LiveKeys(c, now) - {k})
  {
    var left := c.entries.Keys - {k};
    RestrictWF(c, left);
    RestrictRestrict(c, left, LiveKeys(Remove(c, k), now));
    RestrictRestrict(c, LiveKeys(c, now), LiveKeys(c, now) - {k});
    RestrictSame(c, left * LiveKeys(Remove(c, k), now), LiveKeys(c, now) * (LiveKeys(c, now) - {k}));
  }

  lemma PruneDropIfExpired(c: Cache, k: Key, now: int)
    requires WF(c)
    ensures Prune(DropIfExpired(c, k, now), now) == Prune(c, now)
  {
    if k in c.entries && Expired(c.entries[k], now) {
      PruneRemove(c, k, now);
      RestrictWF(c, LiveKeys(c, now));
      RestrictAll(Prune(c, now), LiveKeys(c, now) - {k});
    }
  }

  lemma PrunePutOrder(c: Cache, k: Key, e: Entry, now: int)
    requires WF(c)
    ensures Prune(Put(c, k, e), now).order ==
              Keep(c.order, LiveKeys(c, now) - {k}) + (if Expired(e, now) then [] else [k])
  {
    var live := LiveKeys(Put(c, k, e), now);
    var head := c.entries.Keys - {k};
    KeepAppend(Keep(c.order, head), [k], live);
    assert Keep([k], live) == if Expired(e, now) then [] else [k];
    KeepKeep(c.order, head, live);
    KeepSame(c.order, head * live, LiveKeys(c, now) - {k});
  }

  lemma KeepLive(c: Cache, k: Key, now: int)
    ensures Keep(c.order, LiveKeys(c, now) - {k}) == Keep(Prune(c, now).order, LiveKeys(c, now) - {k})
  {
    KeepKeep(c.order, LiveKeys(c, now), LiveKeys(c, now) - {k});
    assert LiveKeys(c, now) * (LiveKeys(c, now) - {k}) == LiveKeys(c, now) - {k};
  }

  /** Pruning after a write: the unexpired rest in its order, then the written key if it is alive. */
  lemma PrunePut(c: Cache, k: Key, e: Entry, now: int)
    requires WF(c)
    ensures Prune(Put(c, k, e), now).order ==
              Keep(Prune(c, now).order, LiveKeys(c, now) - {k}) + (if Expired(e, now) then [] else [k])
    ensures Prune(Put(c, k, e), now).entries ==
              if Expired(e, now) then Prune(c, now).entries - {k} else Prune(c, now).entries[k := e]
  {
    PrunePutOrder(c, k, e, now);
    KeepLive(c, k, now);
    PruneEntries(c, now);
    PruneEntries(Put(c, k, e), now);
    LiveEntriesUpdate(c.entries, k, e, now);
  }

  /** Pruning after a change in place: the key goes if its new deadline has passed, else stays put. */
  lemma PruneRevise(c: Cache, k: Key, e: Entry, now: int)
    requires WF(c) && IsLive(c, k, now)
    ensures Prune(Revise(c, k, e), now).order ==
              (if Expired(e, now) then Keep(Prune(c, now).order, LiveKeys(c, now) - {k}) else Prune(c, now).order)
    ensures Prune(Revise(c, k, e), now).entries ==
              if Expired(e, now) then Prune(c, now).entries - {k} else Prune(c, now).entries[k := e]
  {
    var r := Revise(c, k, e);
    PruneEntries(c, now);
    PruneEntries(r, now);
    LiveEntriesUpdate(c.entries, k, e, now);
    KeepLive(c, k, now);
    KeepSame(c.order, LiveKeys(r, now), if Expired(e, now) then LiveKeys(c, now) - {k} else LiveKeys(c, now));
  }

  lemma SameKeys(c: Cache, d: Cache, now: int)
    requires Same(c, d, now)
    ensures LiveKeys(c, now) == LiveKeys(d, now)
  {
    assert LiveKeys(c, now) == Prune(c, now).entries.Keys;
    assert LiveKeys(d, now) == Prune(d, now).entries.Keys;
  }

  lemma SamePut(c: Cache, d: Cache, k: Key, e: Entry, now: int)
    requires WF(c) && WF(d) && Same(c, d, now)
    ensures Same(Put(c, k, e), Put(d, k, e), now)
  {
    SameKeys(c, d, now);
    PrunePut(c, k, e, now);
    PrunePut(d, k, e, now);
  }

  lemma SameRevise(c: Cache, d: Cache, k: Key, e: Entry, now: int)
    requires WF(c) && WF(d) && Same(c, d, now) && IsLive(c, k, now) && IsLive(d, k, now)
    ensures Same(Revise(c, k, e), Revise(d, k, e), now)
  {
    SameKeys(c, d, now);
    PruneRevise(c, k, e, now);
    PruneRevise(d, k, e, now);
  }

  lemma SameRemove(c: Cache, d: Cache, k: Key, now: int)
    requires WF(c) && WF(d) && Same(c, d, now)
    ensures Same(Remove(c, k), Remove(d, k), now)
  {
    SameKeys(c, d, now);
    PruneRemove(c, k, now);
    PruneRemove(d, k, now);
  }

  lemma RemoveAbsent(c: Cache, k: Key)
    requires WF(c) && k !in c.entries
    ensures Remove(c, k) == c
  {
    RestrictAll(c, c.entries.Keys - {k});
  }

  lemma SameDrop(c: Cache, d: Cache, k: Key, now: int)
    requires WF(c) && WF(d) && Same(c, d, now)
    ensures Same(DropIfExpired(c, k, now), DropIfExpired(d, k, now), now)
    ensures WF(DropIfExpired(c, k, now)) && WF(DropIfExpired(d, k, now))
  {
    PruneDropIfExpired(c, k, now);
    PruneDropIfExpired(d, k, now);
    DropIfExpiredWF(c, k, now);
    DropIfExpiredWF(d, k, now);
  }

  /* ----- memory ----- */

  lemma {:induction false} TotalSizeSame(o: seq<Key>, m: map<Key, Entry>, n: map<Key, Entry>)
    requires forall k :: k in o ==> SizeAt(m, k) == SizeAt(n, k)
    ensures TotalSize(o, m) == TotalSize(o, n)
  {
    if o != [] {
      TotalSizeSame(o[1..], m, n);
    }
  }

  lemma {:induction false} TotalSizeKeep(o: seq<Key>, m: map<Key, Entry>, ks: set<Key>)
    ensures TotalSize(Keep(o, ks), m) <= TotalSize(o, m)
  {
    if o != [] {
      TotalSizeKeep(o[1..], m, ks);
    }
  }

  /** Dropping entries never increases the memory in use. */
  lemma UsedRestrict(c: Cache, ks: set<Key>)
    ensures Used(Restrict(c, ks)) <= Used(c)
  {
    TotalSizeKeep(c.order, c.entries, ks);
    TotalSizeSame(Keep(c.order, ks), c.entries, Restrict(c, ks).entries);
  }

  lemma {:induction false} EvictLoopLive(c: Cache, cfg: Config, now: int)
    requires WF(c) && c.entries.Keys == LiveKeys(c, now)
    ensures var r := EvictLoop(c, cfg).cache;
            r.entries.Keys == LiveKeys(r, now) && Prune(r, now) == r
    decreases |c.order|
  {
    if Over(c, cfg) && |c.order| > 1 {
      DropOldestIsRemove(c);
      EvictLoopLive(DropOldest(c), cfg, now);
    } else {
      RestrictAll(c, LiveKeys(c, now));
    }
  }

  /** Eviction depends only on the unexpired part: it sweeps before it chooses victims. */
  lemma EvictFromLive(c: Cache, cfg: Config, now: int)
    requires WF(c) && cfg.lru
    ensures Evict(c, cfg, now).victims == EvictLoop(Prune(c, now), cfg).victims
    ensures Prune(Evict(c, cfg, now).cache, now) == EvictLoop(Prune(c, now), cfg).cache
  {
    UsedRestrict(c, LiveKeys(c, now));
    RestrictWF(c, LiveKeys(c, now));
    assert Prune(c, now).entries.Keys == LiveKeys(c, now) == LiveKeys(Prune(c, now), now);
    EvictLoopLive(Prune(c, now), cfg, now);
  }

  lemma SameEvict(c: Cache, d: Cache, cfg: Config, now: int)
    requires WF(c) && WF(d) && Same(c, d, now)
    ensures Evict(c, cfg, now).victims == Evict(d, cfg, now).victims
    ensures Same(Evict(c, cfg, now).cache, Evict(d, cfg, now).cache, now)
  {
    if cfg.lru {
      EvictFromLive(c, cfg, now);
      EvictFromLive(d, cfg, now);
    }
  }

  lemma SameWrite(c: Cache, d: Cache, cfg: Config, k: Key, v: Bytes, deadline: Option<int>, now: int)
    requires WF(c) && WF(d) && Same(c, d, now)
    ensures var e := NewEntry(k, v, deadline);
            Evict(Put(c, k, e), cfg, now).victims == Evict(Put(d, k, e), cfg, now).victims &&
            Same(Evict(Put(c, k, e), cfg, now).cache, Evict(Put(d, k, e), cfg, now).cache, now)
  {
    var e := NewEntry(k, v, deadline);
    SamePut(c, d, k, e, now);
    PutWF(c, k, e);
    PutWF(d, k, e);
    SameEvict(Put(c, k, e), Put(d, k, e), cfg, now);
  }

  lemma SameIncr(c0: Cache, d0: Cache, cfg: Config, k: Key, delta: int, now: int)
    requires WF(c0) && WF(d0) && Same(c0, d0, now)
    ensures SameOut(DoIncr(c0, cfg, k, delta, now), DoIncr(d0, cfg, k, delta, now), now)
  {
    var c, d := DropIfExpired(c0, k, now), DropIfExpired(d0, k, now);
    SameDrop(c0, d0, k, now);
    SameLookup(c, d, k, now);
    DropLeavesLive(c0, k, now);
    DropLeavesLive(d0, k, now);
    var out, other := DoIncr(c0, cfg, k, delta, now), DoIncr(d0, cfg, k, delta, now);
    assert out.reply == other.reply;
    if out.reply.Number? {
      var kept := if k in c.entries then c.entries[k].deadline else None;
      var e := NewEntry(k, IntText(out.reply.n), kept);
      assert out == Out(Evict(Put(c, k, e), cfg, now).cache, out.reply, Evict(Put(c, k, e), cfg, now).victims);
      assert other == Out(Evict(Put(d, k, e), cfg, now).cache, out.reply, Evict(Put(d, k, e), cfg, now).victims);
      SameWrite(c, d, cfg, k, IntText(out.reply.n), kept, now);
    }
  }

  lemma DropLeavesLive(c: Cache, k: Key, now: int)
    ensures k in DropIfExpired(c, k, now).entries <==> IsLive(c, k, now)
    ensures k in DropIfExpired(c, k, now).entries ==> IsLive(DropIfExpired(c, k, now), k, now)
  {
  }

  ghost predicate SameOut(a: Out, b: Out, now: int) {
    a.reply == b.reply && a.evicted == b.evicted && Same(a.cache, b.cache, now)
  }

  lemma SameDelete(c: Cache, d: Cache, k: Key, now: int)
    requires WF(c) && WF(d) && Same(c, d, now)
    ensures SameOut(DoDelete(c, k, now), DoDelete(d, k, now), now)
  {
    SameLookup(c, d, k, now);
    SameRemove(c, d, k, now);
    if k !in c.entries { RemoveAbsent(c, k); }
    if k !in d.entries { RemoveAbsent(d, k); }
  }

  lemma SameExpireAt(c: Cache, d: Cache, k: Key, deadline: int, now: int)
    requires WF(c) && WF(d) && Same(c, d, now)
    ensures SameOut(DoExpireAt(c, k, deadline, now), DoExpireAt(d, k, deadline, now), now)
  {
    SameLookup(c, d, k, now);
    SameDrop(c, d, k, now);
    if IsLive(c, k, now) {
      SameRevise(c, d, k, c.entries[k].(deadline := Some(deadline)), now);
    }
  }

  lemma SamePersist(c: Cache, d: Cache, k: Key, now: int)
    requires WF(c) && WF(d) && Same(c, d, now)
    ensures SameOut(DoPersist(c, k, now), DoPersist(d, k, now), now)
  {
    SameLookup(c, d, k, now);
    SameDrop(c, d, k, now);
    if IsLive(c, k, now) {
      SameRevise(c, d, k, c.entries[k].(deadline := None), now);
    }
  }

  lemma SameTtl(c: Cache, d: Cache, k: Key, now: int)
    requires WF(c) && WF(d) && Same(c, d, now)
    ensures SameOut(DoTtl(c, k, now), DoTtl(d, k, now), now)
  {
    SameLookup(c, d, k, now);
    SameDrop(c, d, k, now);
  }

  lemma SameGet(c: Cache, d: Cache, k: Key, now: int)
    requires WF(c) && WF(d) && Same(c, d, now)
    ensures SameOut(DoGet(c, k, now), DoGet(d, k, now), now)
  {
    SameLookup(c, d, k, now);
    SameDrop(c, d, k, now);
    if IsLive(c, k, now) {
      SamePut(c, d, k, c.entries[k], now);
    }
  }

  /** An operation cannot tell two caches apart that differ only in expired entries. */
  lemma SameStep(c: Cache, d: Cache, cfg: Config, op: Op, now: int)
    requires WF(c) && WF(d) && Same(c, d, now)
    ensures SameOut(Step(c, cfg, op, now), Step(d, cfg, op, now), now)
  {
    match op {
      case Set(k, v, ttl) => SameWrite(c, d, cfg, k, v, Deadline(ttl, now), now);
      case Incr(k, delta) => SameIncr(c, d, cfg, k, delta, now);
      case Delete(k) => SameDelete(c, d, k, now);
      case ExpireAt(k, deadline) => SameExpireAt(c, d, k, deadline, now);
      case Persist(k) => SamePersist(c, d, k, now);
      case Get(k) => SameGet(c, d, k, now);
      case Ttl(k) => SameTtl(c, d, k, now);
      case _ =>
    }
  }

  /* ----- whole runs ----- */

  datatype Observation = Observation(reply: Reply, evicted: seq<Key>)

  /** What callers see: replies and drained evictions of everything but the sweeps. */
  function Trace(c: Cache, cfg: Config, run: seq<Timed>): seq<Observation> {
    if run == [] then []
    else
      var before, last := run[..|run| - 1], run[|run| - 1];
      var out := Step(After(c, cfg, before), cfg, last.op, last.now);
      Trace(c, cfg, before) + (if last.op.Sweep? then [] else [Observation(out.reply, out.evicted)])
  }

  function WithoutSweeps(run: seq<Timed>): seq<Timed> {
    if run == [] then []
    else
      var before, last := run[..|run| - 1], run[|run| - 1];
      if last.op.Sweep? then WithoutSweeps(before) else WithoutSweeps(before) + [last]
  }

  ghost predicate NotAfter(run: seq<Timed>, now: int) {
    forall i :: 0 <= i < |run| ==> run[i].now <= now
  }

  lemma SameAfterSweep(lazy: Cache, eager: Cache, cfg: Config, s: int, now: int)
    requires WF(lazy) && WF(eager) && Same(lazy, eager, s) && s <= now
    ensures Same(Step(lazy, cfg, Sweep, s).cache, eager, now)
  {
    PruneTwice(lazy, s, s);
    RestrictWF(lazy, LiveKeys(lazy, s));
    SameLater(Prune(lazy, s), eager, s, now);
  }

  lemma SameAfterStep(lazy: Cache, eager: Cache, cfg: Config, op: Op, s: int, now: int)
    requires WF(lazy) && WF(eager) && Same(lazy, eager, s) && s <= now
    ensures Same(Step(lazy, cfg, op, s).cache, Step(eager, cfg, op, s).cache, now)
    ensures Step(lazy, cfg, op, s).reply == Step(eager, cfg, op, s).reply
    ensures Step(lazy, cfg, op, s).evicted == Step(eager, cfg, op, s).evicted
  {
    SameStep(lazy, eager, cfg, op, s);
    StepWF(lazy, cfg, op, s);
    StepWF(eager, cfg, op, s);
    SameLater(Step(lazy, cfg, op, s).cache, Step(eager, cfg, op, s).cache, s, now);
  }

  /** Erasing every sweep from a run changes nothing a caller sees, nor what is alive afterwards. */
  lemma {:induction false} SweepsUnobservable(c: Cache, cfg: Config, run: seq<Timed>, now: int)
    requires WF(c) && Chronological(run) && NotAfter(run, now)
    ensures Trace(c, cfg, run) == Trace(c, cfg, WithoutSweeps(run))
    ensures Same(After(c, cfg, run), After(c, cfg, WithoutSweeps(run)), now)
  {
    if run != [] {
      var before, last := run[..|run| - 1], run[|run| - 1];
      SweepsUnobservable(c, cfg, before, last.now);
      var erased := WithoutSweeps(before);
      AfterWF(c, cfg, before);
      AfterWF(c, cfg, erased);
      if last.op.Sweep? {
        SameAfterSweep(After(c, cfg, before), After(c, cfg, erased), cfg, last.now, now);
      } else {
        SameAfterStep(After(c, cfg, before), After(c, cfg, erased), cfg, last.op, last.now, now);
        assert (erased + [last])[..|erased|] == erased;
      }
    }
  }

  /** Any two runs that differ only in where and how often they sweep are indistinguishable. */
  lemma SweepTimingUnobservable(c: Cache, cfg: Config, a: seq<Timed>, b: seq<Timed>)
    requires WF(c) && Chronological(a) && Chronological(b) && WithoutSweeps(a) == WithoutSweeps(b)
    ensures Trace(c, cfg, a) == Trace(c, cfg, b)
  {
    SweepsUnobservable(c, cfg, a, if a == [] then 0 else a[|a| - 1].now);
    SweepsUnobservable(c, cfg, b, if b == [] then 0 else b[|b| - 1].now);
  }
}

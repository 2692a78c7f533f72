/** The logged and replicated forms of SET mean what the original SET did, and where they do not. */
module SetForms {
  import opened Base
  import opened Decimal
  import opened CacheModel
  import opened LruLaws
  import opened Commands
  import opened TimedReplay
  import opened Rewrite

  /* ----- a write after a lookup, and a write followed by a new deadline ----- */

  lemma KeepTwice(o: seq<Key>, ks: set<Key>, k: Key)
    requires k !in ks
    ensures Keep(Keep(o, ks), ks) == Keep(o, ks) && Keep(Keep(o, ks) + [k], ks) == Keep(o, ks)
  {
    KeepKeep(o, ks, ks);
    assert ks * ks == ks;
    KeepAppend(Keep(o, ks), [k], ks);
    assert Keep([k], ks) == [];
    assert Keep(o, ks) + [] == Keep(o, ks);
  }

  /** Writing a key forgets what was there and where it was. */
  lemma PutForgets(c: Cache, d: Cache, k: Key, e: Entry)
    requires d.entries.Keys - {k} == c.entries.Keys - {k} && d.entries - {k} == c.entries - {k}
    requires Keep(d.order, d.entries.Keys - {k}) == Keep(c.order, c.entries.Keys - {k})
    ensures Put(d, k, e) == Put(c, k, e)
  {
    assert d.entries[k := e] == (d.entries - {k})[k := e];
    assert c.entries[k := e] == (c.entries - {k})[k := e];
  }

  lemma PutTwice(c: Cache, k: Key, first: Entry, e: Entry)
    ensures Put(Put(c, k, first), k, e) == Put(c, k, e)
  {
    var others := c.entries.Keys - {k};
    assert c.entries[k := first].Keys - {k} == others;
    assert c.entries[k := first] - {k} == c.entries - {k};
    KeepTwice(c.order, others, k);
    PutForgets(c, Put(c, k, first), k, e);
  }

  lemma PutAfterRemove(c: Cache, k: Key, e: Entry)
    ensures Put(Remove(c, k), k, e) == Put(c, k, e)
  {
    var others := c.entries.Keys - {k};
    assert Remove(c, k).entries == c.entries - {k};
    assert Remove(c, k).entries.Keys - {k} == others;
    KeepTwice(c.order, others, k);
    PutForgets(c, Remove(c, k), k, e);
  }

  /** A lookup of the key leaves no trace once the key is written. */
  lemma PutAfterGet(c: Cache, k: Key, e: Entry, now: int)
    ensures Put(DoGet(c, k, now).cache, k, e) == Put(c, k, e)
  {
    if IsLive(c, k, now) {
      PutTwice(c, k, c.entries[k], e);
    } else if k in c.entries {
      PutAfterRemove(c, k, e);
    }
  }

  /** The entry a SET writes. */
  function SetEntry(o: SetOptions, now: int): Entry {
    NewEntry(o.key, o.value, Deadline(o.ttl, now))
  }

  /** A SET that takes effect is a plain write and its eviction round. */
  lemma EffectiveSet(c: Cache, cfg: Config, o: SetOptions, now: int)
    requires ExecSet(c, cfg, o, now).writes > 0
    ensures var eff := ExecSet(c, cfg, o, now); var r := Evict(Put(c, o.key, SetEntry(o, now)), cfg, now);
            eff.cache == r.cache && eff.evicted == r.victims
  {
    var e := SetEntry(o, now);
    var first := DoGet(c, o.key, now).cache;
    PutAfterGet(c, o.key, e, now);
    PutAfterGet(first, o.key, e, now);
  }

  lemma DropOldestRevise(c: Cache, k: Key, e: Entry)
    requires WF(c) && |c.order| > 1 && k == c.order[|c.order| - 1]
    ensures DropOldest(Revise(c, k, e)) == Revise(DropOldest(c), k, e)
  {
    assert k != c.order[0];
    assert c.entries[k := e] - {c.order[0]} == (c.entries - {c.order[0]})[k := e];
  }

  /** Changing the most recent entry without changing its size changes nothing about an eviction. */
  lemma {:induction false} EvictLoopRevise(c: Cache, cfg: Config, k: Key, e: Entry)
    requires WF(c) && c.order != [] && k == c.order[|c.order| - 1] && e.size == c.entries[k].size
    ensures EvictLoop(Revise(c, k, e), cfg) ==
            Eviction(Revise(EvictLoop(c, cfg).cache, k, e), EvictLoop(c, cfg).victims)
    decreases |c.order|
  {
    UsedRevise(c, k, e);
    if MustEvict(c, cfg) {
      DropOldestRevise(c, k, e);
      DropOldestIsRemove(c);
      EvictLoopRevise(DropOldest(c), cfg, k, e);
    }
  }

  lemma RestrictRevise(c: Cache, ks: set<Key>, k: Key, e: Entry)
    requires k in c.entries && k in ks
    ensures Restrict(Revise(c, k, e), ks) == Revise(Restrict(c, ks), k, e)
  {
    assert Restrict(Revise(c, k, e), ks).entries == Restrict(c, ks).entries[k := e];
  }

  lemma PruneRevise(c: Cache, k: Key, e: Entry, now: int)
    requires IsLive(c, k, now) && !Expired(e, now)
    ensures Prune(Revise(c, k, e), now) == Revise(Prune(c, now), k, e)
  {
    assert LiveKeys(Revise(c, k, e), now) == LiveKeys(c, now);
    RestrictRevise(c, LiveKeys(c, now), k, e);
  }

  lemma LastIsKept(o: seq<Key>, ks: set<Key>)
    requires o != [] && o[|o| - 1] in ks
    ensures var kept := Keep(o, ks); kept != [] && kept[|kept| - 1] == o[|o| - 1]
  {
    var k := o[|o| - 1];
    assert o == o[..|o| - 1] + [k];
    KeepAppend(o[..|o| - 1], [k], ks);
    assert Keep([k], ks) == [k];
  }

  lemma EvictRevise(p: Cache, cfg: Config, k: Key, e: Entry, now: int)
    requires WF(p) && IsLive(p, k, now) && p.order != [] && k == p.order[|p.order| - 1]
    requires e.size == p.entries[k].size && !Expired(e, now)
    ensures Evict(Revise(p, k, e), cfg, now) ==
            Eviction(Revise(Evict(p, cfg, now).cache, k, e), Evict(p, cfg, now).victims)
  {
    UsedRevise(p, k, e);
    if cfg.lru && Over(p, cfg) {
      PruneRevise(p, k, e, now);
      PrunedLast(p, k, now);
      EvictLoopRevise(Prune(p, now), cfg, k, e);
    }
  }

  /** The most recent key, if alive, is the most recent after a sweep. */
  lemma PrunedLast(p: Cache, k: Key, now: int)
    requires WF(p) && IsLive(p, k, now) && p.order != [] && k == p.order[|p.order| - 1]
    ensures var q := Prune(p, now);
            WF(q) && q.order != [] && k == q.order[|q.order| - 1] && q.entries[k] == p.entries[k]
  {
    RestrictWF(p, LiveKeys(p, now));
    LastIsKept(p.order, LiveKeys(p, now));
  }

  /** A write whose entry gets its deadline afterwards evicts the same keys and leaves the same cache. */
  lemma WriteThenDeadline(c: Cache, cfg: Config, k: Key, v: Bytes, deadline: int, now: int)
    requires WF(c) && now < deadline
    ensures var bare := Evict(Put(c, k, NewEntry(k, v, None)), cfg, now); var e := NewEntry(k, v, Some(deadline));
            Evict(Put(c, k, e), cfg, now) == Eviction(Revise(bare.cache, k, e), bare.victims)
  {
    var f, e := NewEntry(k, v, None), NewEntry(k, v, Some(deadline));
    PutWF(c, k, f);
    assert Put(c, k, e) == Revise(Put(c, k, f), k, e);
    EvictRevise(Put(c, k, f), cfg, k, e, now);
  }

  /* ----- the log form ----- */

  lemma PlainSetEffect(c: Cache, cfg: Config, o: SetOptions, now: int)
    requires !o.nx && !o.xx && !o.get
    ensures var eff := ExecSet(c, cfg, o, now); var r := Evict(Put(c, o.key, SetEntry(o, now)), cfg, now);
            eff == Effect(r.cache, OK, r.victims, 1)
  {
    EffectiveSet(c, cfg, o, now);
  }

  /**
   * Under any memory cap: whenever a SET takes effect, its log form run at the same instant leaves the
   * very same cache - entries, deadlines and order - and evicts the same keys, and the key holds the
   * value and the deadline of the SET.
   */
  lemma AofFormOfSet(c: Cache, cfg: Config, raw: Record, now: int)
    requires WF(c) && Parse(raw).Ok? && Parse(raw).cmd.CSet? && Dispatch(c, cfg, raw, now).writes > 0
    ensures var eff := Dispatch(c, cfg, raw, now); var o := Parse(raw).cmd.opts;
            && Replay(c, cfg, ToAof(raw, now), now) == eff.cache
            && ReplayEvicted(c, cfg, ToAof(raw, now), now) == eff.evicted
            && Holds(eff.cache, o.key, SetEntry(o, now))
  {
    var o := Parse(raw).cmd.opts;
    SetOptionsOf(raw);
    EffectiveSet(c, cfg, o, now);
    WrittenKeySurvives(c, cfg, o.key, SetEntry(o, now), now);
    AofFormReplays(c, cfg, raw, now);
  }

  /** The record of a SET without a time to live, replayed: one write and its eviction round. */
  lemma ReplayPlainForm(c: Cache, cfg: Config, k: Key, v: Bytes, recs: seq<Record>, now: int)
    requires WF(c) && recs == [SetRecord(k, v)]
    ensures var r := Evict(Put(c, k, NewEntry(k, v, None)), cfg, now);
            Replay(c, cfg, recs, now) == r.cache && ReplayEvicted(c, cfg, recs, now) == r.victims
  {
    ParseSetRecord(k, v);
    PlainSetEffect(c, cfg, Plain(k, v), now);
    ReplayOne(c, cfg, SetRecord(k, v), now);
    ReplayEvictedOne(c, cfg, SetRecord(k, v), now);
  }

  /** The two records of a SET with a time to live do the same. */
  lemma ReplayTimedForm(c: Cache, cfg: Config, k: Key, v: Bytes, deadline: int, recs: seq<Record>, now: int)
    requires WF(c) && now < deadline && recs == [SetRecord(k, v), ExpireAtRecord(k, deadline)]
    ensures var r := Evict(Put(c, k, NewEntry(k, v, Some(deadline))), cfg, now);
            Replay(c, cfg, recs, now) == r.cache && ReplayEvicted(c, cfg, recs, now) == r.victims
  {
    var f := NewEntry(k, v, None);
    ParseSetRecord(k, v);
    PlainSetEffect(c, cfg, Plain(k, v), now);
    WrittenKeySurvives(c, cfg, k, f, now);
    WriteThenDeadline(c, cfg, k, v, deadline, now);
    ReplayPair(c, Evict(Put(c, k, f), cfg, now), cfg, k, v, deadline, recs, now);
  }

  lemma ReplayPair(c: Cache, bare: Eviction, cfg: Config, k: Key, v: Bytes, deadline: int, recs: seq<Record>, now: int)
    requires Dispatch(c, cfg, SetRecord(k, v), now) == Effect(bare.cache, OK, bare.victims, 1)
    requires Holds(bare.cache, k, NewEntry(k, v, None)) && recs == [SetRecord(k, v), ExpireAtRecord(k, deadline)]
    ensures Replay(c, cfg, recs, now) == Revise(bare.cache, k, NewEntry(k, v, Some(deadline)))
    ensures ReplayEvicted(c, cfg, recs, now) == bare.victims
  {
    var set_, exp := SetRecord(k, v), ExpireAtRecord(k, deadline);
    ReplayKeyExpire(bare.cache, cfg, k, NewEntry(k, v, Some(deadline)), now);
    ReplayOne(c, cfg, set_, now);
    ReplayEvictedOne(c, cfg, set_, now);
    ReplayTwo(c, cfg, set_, exp, now);
    assert [set_, exp] == [set_] + [exp];
    ReplayEvictedAppend(c, cfg, [set_], [exp], now);
    ReplayEvictedOne(bare.cache, cfg, exp, now);
  }

  lemma AofFormReplays(c: Cache, cfg: Config, raw: Record, now: int)
    requires WF(c) && Parse(raw).Ok? && Parse(raw).cmd.CSet?
    ensures var o := Parse(raw).cmd.opts; var r := Evict(Put(c, o.key, SetEntry(o, now)), cfg, now);
            Replay(c, cfg, ToAof(raw, now), now) == r.cache && ReplayEvicted(c, cfg, ToAof(raw, now), now) == r.victims
  {
    var o, recs := Parse(raw).cmd.opts, ToAof(raw, now);
    SetOptionsOf(raw);
    if o.ttl.None? {
      ReplayPlainForm(c, cfg, o.key, o.value, recs, now);
    } else {
      ReplayTimedForm(c, cfg, o.key, o.value, now + o.ttl.value, recs, now);
    }
  }

  predicate Holds(c: Cache, k: Key, e: Entry) {
    k in c.entries && c.entries[k] == e
  }

  /** A SET that parses has a positive time to live, or none. */
  lemma SetOptionsOf(raw: Record)
    requires Parse(raw).Ok? && Parse(raw).cmd.CSet?
    ensures ValidOptions(Parse(raw).cmd.opts)
  {
    ParsedSetReprints(raw[1..]);
  }

  /** The replicated form carries a millisecond count that must fit 64 bits. */
  predicate FitsReplication(o: SetOptions) {
    o.ttl.None? || o.ttl.value <= INT64_MAX
  }

  /** What the replicated form of a parsed SET means to the replica. */
  lemma ReplicatedSetParses(raw: Record)
    requires Parse(raw).Ok? && Parse(raw).cmd.CSet?
    ensures var o := Parse(raw).cmd.opts;
            if FitsReplication(o) then Parse(ToReplication(raw)) == Ok(CSet(Plain(o.key, o.value).(ttl := o.ttl)))
            else Parse(ToReplication(raw)).Fail?
  {
    var o := Parse(raw).cmd.opts;
    SetOptionsOf(raw);
    if o.ttl.None? {
      ParseSetRecord(o.key, o.value);
    } else {
      ParseSetPx(o.key, o.value, o.ttl.value);
    }
  }

  /**
   * Whatever the caps and the contents of the two stores: after an effective SET the primary holds the
   * entry written, and after its replicated form, run at the same instant, the replica does if and only
   * if the time to live fits 64 bits in milliseconds - or the replica already held that very entry.
   * A form that does not fit is refused and changes nothing.
   */
  lemma ReplicationFormOfSet(c: Cache, cfg: Config, r: Cache, rcfg: Config, raw: Record, now: int)
    requires WF(c) && WF(r) && Parse(raw).Ok? && Parse(raw).cmd.CSet? && Dispatch(c, cfg, raw, now).writes > 0
    ensures var o := Parse(raw).cmd.opts; var e := SetEntry(o, now);
            var eff := Dispatch(r, rcfg, ToReplication(raw), now);
            && Holds(Dispatch(c, cfg, raw, now).cache, o.key, e)
            && (Holds(eff.cache, o.key, e) <==> FitsReplication(o) || Holds(r, o.key, e))
            && (eff.reply.Error? <==> !FitsReplication(o))
            && (eff.reply.Error? ==> eff.cache == r && eff.evicted == [])
  {
    var o := Parse(raw).cmd.opts;
    SetOptionsOf(raw);
    EffectiveSet(c, cfg, o, now);
    WrittenKeySurvives(c, cfg, o.key, SetEntry(o, now), now);
    ReplicatedSetParses(raw);
    if FitsReplication(o) {
      PlainSetEffect(r, rcfg, Plain(o.key, o.value).(ttl := o.ttl), now);
      WrittenKeySurvives(r, rcfg, o.key, SetEntry(o, now), now);
    }
  }

  /** On the same store a replicated form that fits does exactly what the SET did, evictions included. */
  lemma ReplicationFormSameStore(c: Cache, cfg: Config, raw: Record, now: int)
    requires WF(c) && Parse(raw).Ok? && Parse(raw).cmd.CSet? && Dispatch(c, cfg, raw, now).writes > 0
    requires FitsReplication(Parse(raw).cmd.opts)
    ensures var eff, rep := Dispatch(c, cfg, raw, now), Dispatch(c, cfg, ToReplication(raw), now);
            rep.cache == eff.cache && rep.evicted == eff.evicted && rep.writes == 1
  {
    var o := Parse(raw).cmd.opts;
    EffectiveSet(c, cfg, o, now);
    ReplicatedSetParses(raw);
    PlainSetEffect(c, cfg, Plain(o.key, o.value).(ttl := o.ttl), now);
  }

  /** Normalising for replication twice is normalising once. */
  lemma ReplicationFormIdempotent(raw: Record)
    ensures ToReplication(ToReplication(raw)) == ToReplication(raw)
  {
    if Parse(raw).Ok? && Parse(raw).cmd.CSet? {
      SetOptionsOf(raw);
      ReplicatedSetParses(raw);
    }
  }

  lemma ParseLargestEx(k: Key, v: Bytes)
    ensures Parse(["SET", k, v, "EX", IntText(INT64_MAX)]) == Ok(CSet(Plain(k, v).(ttl := Some(1000 * INT64_MAX))))
  {
    var raw := ["SET", k, v, "EX", IntText(INT64_MAX)];
    var o := Plain(k, v).(ttl := Some(1000 * INT64_MAX));
    assert raw[1..] == PrintSet(o) by {
      assert 1000 * INT64_MAX / 1000 == INT64_MAX;
    }
    ParsePrintSet(o);
    UpperFixed("SET");
  }

  /** A SET with the largest EX takes effect on the primary and is refused by every replica. */
  lemma LargestExRefusedByReplica(k: Key, v: Bytes, now: int)
    ensures var raw := ["SET", k, v, "EX", IntText(INT64_MAX)];
            Dispatch(EMPTY, UNLIMITED, raw, now).writes == 1 &&
            Dispatch(EMPTY, UNLIMITED, ToReplication(raw), now).reply.Error?
  {
    var raw := ["SET", k, v, "EX", IntText(INT64_MAX)];
    ParseLargestEx(k, v);
    PlainSetEffect(EMPTY, UNLIMITED, Plain(k, v).(ttl := Some(1000 * INT64_MAX)), now);
    ReplicatedSetParses(raw);
  }

  /**
   * A counter incremented shortly before its deadline comes back from the log as a permanent key:
   * the increment is a hazard and the replay is not faithful.
   */
  lemma IncrementBeforeDeadlineIsResurrected()
    ensures var run := [Request(["SET", "k", "5", "PX", IntText(10)], 0), Request(["INCR", "k"], 5)];
            HazardAt(RunState(UNLIMITED, run[..1]), run[1].raw, run[1].now, 20) && !Faithful(UNLIMITED, run, 20)
  {
    var set10, incr := ["SET", "k", "5", "PX", IntText(10)], ["INCR", "k"];
    var run := [Request(set10, 0), Request(incr, 5)];
    var c := RunState(UNLIMITED, run[..1]);
    assert set10 == SetRecord("k", "5") + ["PX", IntText(10)];
    ParseSetPx("k", "5", 10);
    assert run[..1] == [Request(set10, 0)];
    assert run[..1][..0] == [];
    assert RunState(UNLIMITED, []) == EMPTY;
    assert c == Dispatch(EMPTY, UNLIMITED, set10, 0).cache;
    assert c == ExecSet(EMPTY, UNLIMITED, Plain("k", "5").(ttl := Some(10)), 0).cache;
    assert "k" in c.entries && c.entries["k"] == NewEntry("k", "5", Some(10));
    ParseIncr("k");
    assert StoredInt("5") == Some(5);
    assert Faithful(UNLIMITED, run[..1], 20) by { ReplayRestoresLive(UNLIMITED, run[..1], 20); }
    ExtendFaithful(UNLIMITED, run, 20);
  }

  lemma ParseIncr(k: Key)
    ensures Parse(["INCR", k]) == Ok(CIncrBy(k, 1))
  {
    UpperFixed("INCR");
    assert "INCR"[0] == 'I' && "MSET"[0] == 'M';
    assert ["INCR", k][1..] == [k];
  }
}

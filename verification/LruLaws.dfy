/** Memory accounting, the memory cap, the choice of victims and the meaning of the key order. */
module LruLaws {
  import opened Base
  import opened Decimal
  import opened CacheModel
  import opened SweepLaws

  /* ----- sizes ----- */

  lemma {:induction false} TotalSizeAppend(p: seq<Key>, q: seq<Key>, m: map<Key, Entry>)
    ensures TotalSize(p + q, m) == TotalSize(p, m) + TotalSize(q, m)
  {
    if p == [] {
      assert p + q == q;
    } else {
      TotalSizeAppend(p[1..], q, m);
      assert (p + q)[1..] == p[1..] + q;
    }
  }

  lemma {:induction false} TotalSizeWithout(o: seq<Key>, m: map<Key, Entry>, k: Key, ks: set<Key>)
    requires Distinct(o) && (forall x :: x in o ==> (x in ks <==> x != k))
    ensures TotalSize(Keep(o, ks), m) == TotalSize(o, m) - (if k in o then SizeAt(m, k) else 0)
  {
    if o != [] {
      TotalSizeWithout(o[1..], m, k, ks);
      assert o[0] !in o[1..];
    }
  }

  /** Removing a key frees exactly the size recorded in its entry. */
  lemma UsedRemove(c: Cache, k: Key)
    requires WF(c)
    ensures Used(Remove(c, k)) == Used(c) - SizeAt(c.entries, k)
  {
    var ks := c.entries.Keys - {k};
    TotalSizeWithout(c.order, c.entries, k, ks);
    TotalSizeSame(Keep(c.order, ks), c.entries, Remove(c, k).entries);
  }

  /** Writing a key replaces the size of its old entry, if any, by that of the new one. */
  lemma UsedPut(c: Cache, k: Key, e: Entry)
    requires WF(c)
    ensures Used(Put(c, k, e)) == Used(c) - SizeAt(c.entries, k) + e.size
  {
    var ks := c.entries.Keys - {k};
    TotalSizeWithout(c.order, c.entries, k, ks);
    TotalSizeSame(Keep(c.order, ks), c.entries, c.entries[k := e]);
    TotalSizeAppend(Keep(c.order, ks), [k], c.entries[k := e]);
    assert TotalSize([k], c.entries[k := e]) == e.size;
  }

  lemma UsedRevise(c: Cache, k: Key, e: Entry)
    requires k in c.entries && e.size == c.entries[k].size
    ensures Used(Revise(c, k, e)) == Used(c)
  {
    TotalSizeSame(c.order, c.entries, Revise(c, k, e).entries);
  }

  /* ----- victims ----- */

  /** The cache without its `n` least recently used keys. */
  function Newest(c: Cache, n: nat): Cache
    requires n <= |c.order|
  {
    Cache(c.order[n..], map k | k in c.entries && k in c.order[n..] :: c.entries[k])
  }

  /** Eviction must go on: over the cap with more than one key left. */
  predicate MustEvict(c: Cache, cfg: Config) {
    Over(c, cfg) && |c.order| > 1
  }

  lemma NewestStep(c: Cache, n: nat)
    requires WF(c) && 0 < n <= |c.order|
    ensures Newest(DropOldest(c), n - 1) == Newest(c, n)
  {
    assert DropOldest(c).order[n - 1..] == c.order[n..];
  }

  /** Dropping `n` keys ends the need to evict, and dropping any fewer would not. */
  ghost predicate ShortestSufficient(c: Cache, cfg: Config, n: nat) {
    && n <= |c.order|
    && !MustEvict(Newest(c, n), cfg)
    && forall m: nat :: m < n ==> MustEvict(Newest(c, m), cfg)
  }

  lemma NewestNone(c: Cache)
    requires WF(c)
    ensures Newest(c, 0) == c
  {
    assert c.order[0..] == c.order;
  }

  lemma ShortestStep(c: Cache, cfg: Config, n: nat)
    requires WF(c) && MustEvict(c, cfg) && ShortestSufficient(DropOldest(c), cfg, n)
    ensures ShortestSufficient(c, cfg, n + 1)
  {
    NewestNone(c);
    NewestStep(c, n + 1);
    forall m: nat | m < n + 1 ensures MustEvict(Newest(c, m), cfg) {
      if m > 0 {
        NewestStep(c, m);
      }
    }
  }

  lemma PrefixStep(o: seq<Key>, tail: seq<Key>)
    requires o != [] && |tail| < |o| && tail == o[1..][..|tail|]
    ensures [o[0]] + tail == o[..|tail| + 1]
  {
  }

  lemma {:induction false} VictimsArePrefix(c: Cache, cfg: Config)
    requires WF(c)
    ensures |EvictLoop(c, cfg).victims| <= |c.order|
    ensures EvictLoop(c, cfg).victims == c.order[..|EvictLoop(c, cfg).victims|]
    ensures EvictLoop(c, cfg).cache == Newest(c, |EvictLoop(c, cfg).victims|)
    decreases |c.order|
  {
    if MustEvict(c, cfg) {
      var d := DropOldest(c);
      DropOldestIsRemove(c);
      VictimsArePrefix(d, cfg);
      var tail := EvictLoop(d, cfg).victims;
      PrefixStep(c.order, tail);
      NewestStep(c, |tail| + 1);
      assert EvictLoop(c, cfg) == Eviction(EvictLoop(d, cfg).cache, [c.order[0]] + tail);
    } else {
      NewestNone(c);
      assert EvictLoop(c, cfg) == Eviction(c, []);
    }
  }

  lemma {:induction false} VictimsAreShortest(c: Cache, cfg: Config)
    requires WF(c)
    ensures ShortestSufficient(c, cfg, |EvictLoop(c, cfg).victims|)
    decreases |c.order|
  {
    if MustEvict(c, cfg) {
      DropOldestIsRemove(c);
      VictimsAreShortest(DropOldest(c), cfg);
      ShortestStep(c, cfg, |EvictLoop(DropOldest(c), cfg).victims|);
    } else {
      NewestNone(c);
    }
  }

  /** The victims are the shortest sufficient prefix of the least-recently-used order. */
  lemma ShortestSufficientPrefix(c: Cache, cfg: Config)
    requires WF(c)
    ensures var r := EvictLoop(c, cfg);
            ShortestSufficient(c, cfg, |r.victims|) &&
            r.victims == c.order[..|r.victims|] && r.cache == Newest(c, |r.victims|)
  {
    VictimsArePrefix(c, cfg);
    VictimsAreShortest(c, cfg);
  }

  /* ----- the cap ----- */

  /** Under allkeys-lru with a cap, memory is within the cap or at most one key remains. */
  predicate WithinCap(c: Cache, cfg: Config) {
    cfg.lru ==> !MustEvict(c, cfg)
  }

  lemma WithinCapRestrict(c: Cache, cfg: Config, ks: set<Key>)
    requires WithinCap(c, cfg)
    ensures WithinCap(Restrict(c, ks), cfg)
  {
    UsedRestrict(c, ks);
  }

  lemma WithinCapEvict(c: Cache, cfg: Config, now: int)
    requires WF(c)
    ensures WithinCap(Evict(c, cfg, now).cache, cfg)
  {
    RestrictWF(c, LiveKeys(c, now));
    ShortestSufficientPrefix(Prune(c, now), cfg);
  }

  lemma PutLength(c: Cache, k: Key, e: Entry)
    requires WF(c) && k in c.entries
    ensures |Put(c, k, e).order| == |c.order|
  {
    KeepWithoutLength(c.order, k, c.entries.Keys - {k});
  }

  lemma {:induction false} KeepWithoutLength(o: seq<Key>, k: Key, ks: set<Key>)
    requires Distinct(o) && (forall x :: x in o ==> (x in ks <==> x != k))
    ensures |Keep(o, ks)| == |o| - (if k in o then 1 else 0)
  {
    if o != [] {
      KeepWithoutLength(o[1..], k, ks);
      assert o[0] !in o[1..];
    }
  }

  lemma WriteWithinCap(c: Cache, cfg: Config, k: Key, e: Entry, now: int)
    requires WF(c) && e.size == Cost(k, e.value)
    ensures WithinCap(Evict(Put(c, k, e), cfg, now).cache, cfg)
  {
    PutWF(c, k, e);
    WithinCapEvict(Put(c, k, e), cfg, now);
  }

  lemma ReviseWithinCap(c: Cache, cfg: Config, k: Key, e: Entry)
    requires WithinCap(c, cfg) && k in c.entries && e.size == c.entries[k].size
    ensures WithinCap(Revise(c, k, e), cfg)
  {
    UsedRevise(c, k, e);
  }

  lemma ExpireAtWithinCap(c: Cache, cfg: Config, k: Key, d: int, now: int)
    requires WithinCap(c, cfg)
    ensures WithinCap(DoExpireAt(c, k, d, now).cache, cfg)
  {
    WithinCapRestrict(c, cfg, c.entries.Keys - {k});
    if IsLive(c, k, now) {
      ReviseWithinCap(c, cfg, k, c.entries[k].(deadline := Some(d)));
    }
  }

  lemma PersistWithinCap(c: Cache, cfg: Config, k: Key, now: int)
    requires WithinCap(c, cfg)
    ensures WithinCap(DoPersist(c, k, now).cache, cfg)
  {
    WithinCapRestrict(c, cfg, c.entries.Keys - {k});
    if IsLive(c, k, now) {
      ReviseWithinCap(c, cfg, k, c.entries[k].(deadline := None));
    }
  }

  lemma GetWithinCap(c: Cache, cfg: Config, k: Key, now: int)
    requires WF(c) && WithinCap(c, cfg)
    ensures WithinCap(DoGet(c, k, now).cache, cfg)
  {
    WithinCapRestrict(c, cfg, c.entries.Keys - {k});
    if IsLive(c, k, now) {
      UsedPut(c, k, c.entries[k]);
      PutLength(c, k, c.entries[k]);
    }
  }

  /** Every operation leaves the store within its cap. */
  lemma StepWithinCap(c: Cache, cfg: Config, op: Op, now: int)
    requires WF(c) && WithinCap(c, cfg)
    ensures WithinCap(Step(c, cfg, op, now).cache, cfg)
  {
    match op {
      case Set(k, v, ttl) => WriteWithinCap(c, cfg, k, NewEntry(k, v, Deadline(ttl, now)), now);
      case Incr(k, delta) => IncrWithinCap(c, cfg, k, delta, now);
      case Delete(k) => WithinCapRestrict(c, cfg, c.entries.Keys - {k});
      case ExpireAt(k, d) => ExpireAtWithinCap(c, cfg, k, d, now);
      case Persist(k) => PersistWithinCap(c, cfg, k, now);
      case Get(k) => GetWithinCap(c, cfg, k, now);
      case Ttl(k) => WithinCapRestrict(c, cfg, c.entries.Keys - {k});
      case Flush =>
      case _ => WithinCapRestrict(c, cfg, LiveKeys(c, now));
    }
  }

  lemma IncrWithinCap(c0: Cache, cfg: Config, k: Key, delta: int, now: int)
    requires WF(c0) && WithinCap(c0, cfg)
    ensures WithinCap(DoIncr(c0, cfg, k, delta, now).cache, cfg)
  {
    var c := DropIfExpired(c0, k, now);
    DropIfExpiredWF(c0, k, now);
    WithinCapRestrict(c0, cfg, c0.entries.Keys - {k});
    var out := DoIncr(c0, cfg, k, delta, now);
    if out.reply.Number? {
      var e := NewEntry(k, IntText(out.reply.n), if k in c.entries then c.entries[k].deadline else None);
      assert out.cache == Evict(Put(c, k, e), cfg, now).cache;
      WriteWithinCap(c, cfg, k, e, now);
    } else {
      assert out.cache == c;
    }
  }

  /** In every reachable state the cap holds, whatever the operations and the clock. */
  lemma {:induction false} AlwaysWithinCap(cfg: Config, run: seq<Timed>)
    ensures WithinCap(After(EMPTY, cfg, run), cfg)
  {
    if run != [] {
      var before, last := run[..|run| - 1], run[|run| - 1];
      AlwaysWithinCap(cfg, before);
      AfterWF(EMPTY, cfg, before);
      StepWithinCap(After(EMPTY, cfg, before), cfg, last.op, last.now);
    }
  }

  lemma LastIsNewest(c: Cache, n: nat)
    requires WF(c) && n < |c.order|
    ensures var k := c.order[|c.order| - 1];
            k in Newest(c, n).entries && Newest(c, n).entries[k] == c.entries[k] && k !in c.order[..n]
  {
    assert c.order[n..][|c.order| - n - 1] == c.order[|c.order| - 1];
  }

  /** Eviction always spares the most recently used key. */
  lemma MostRecentSpared(c: Cache, cfg: Config)
    requires WF(c) && c.order != []
    ensures var r := EvictLoop(c, cfg); var k := c.order[|c.order| - 1];
            k in r.cache.entries && r.cache.entries[k] == c.entries[k] && k !in r.victims
  {
    ShortestSufficientPrefix(c, cfg);
    var n := |EvictLoop(c, cfg).victims|;
    if n > 0 {
      assert MustEvict(Newest(c, n - 1), cfg);
    }
    LastIsNewest(c, n);
  }

  /** A key just written with no deadline, or one still to come, survives its own eviction round. */
  lemma WrittenKeySurvives(c: Cache, cfg: Config, k: Key, e: Entry, now: int)
    requires WF(c) && e.size == Cost(k, e.value) && !Expired(e, now)
    ensures var r := Evict(Put(c, k, e), cfg, now);
            k in r.cache.entries && r.cache.entries[k] == e && k !in r.victims
  {
    var p := Put(c, k, e);
    PutWF(c, k, e);
    PrunePut(c, k, e, now);
    RestrictWF(p, LiveKeys(p, now));
    MostRecentSpared(Prune(p, now), cfg);
  }

  /* ----- the order is the order of last use ----- */

  /** The key an operation moves to the recent end, if any: written, incremented or found. */
  function Touched(op: Op, reply: Reply): Option<Key> {
    match op
    case Set(k, _, _) => Some(k)
    case Incr(k, _) => if reply.Number? then Some(k) else None
    case Get(k) => if reply.Found? then Some(k) else None
    case _ => None
  }

  /** Position in the run of the last operation that used the key; -1 if none did. */
  function LastUse(cfg: Config, run: seq<Timed>, k: Key): int {
    if run == [] then -1
    else
      var before, last := run[..|run| - 1], run[|run| - 1];
      var reply := Step(After(EMPTY, cfg, before), cfg, last.op, last.now).reply;
      if Touched(last.op, reply) == Some(k) then |run| - 1 else LastUse(cfg, before, k)
  }

  /** `sub` keeps a subsequence of the order of `c`. */
  ghost predicate SubOrder(sub: Cache, c: Cache) {
    sub.order == Keep(c.order, sub.entries.Keys)
  }

  lemma NewestSubOrder(c: Cache, n: nat)
    requires WF(c) && n <= |c.order|
    ensures SubOrder(Newest(c, n), c)
  {
    var ks := Newest(c, n).entries.Keys;
    assert c.order == c.order[..n] + c.order[n..];
    KeepAppend(c.order[..n], c.order[n..], ks);
    KeepNone(c.order[..n], ks);
    KeepAll(c.order[n..], ks);
  }

  lemma {:induction false} KeepNone(o: seq<Key>, ks: set<Key>)
    requires forall x :: x in o ==> x !in ks
    ensures Keep(o, ks) == []
  {
    if o != [] {
      KeepNone(o[1..], ks);
    }
  }

  lemma RestrictSubOrder(c: Cache, ks: set<Key>)
    requires WF(c)
    ensures SubOrder(Restrict(c, ks), c)
  {
    KeepSame(c.order, ks, Restrict(c, ks).entries.Keys);
  }

  lemma SubOrderTransitive(a: Cache, b: Cache, c: Cache)
    requires SubOrder(a, b) && SubOrder(b, c) && a.entries.Keys <= b.entries.Keys
    ensures SubOrder(a, c)
  {
    KeepKeep(c.order, b.entries.Keys, a.entries.Keys);
    assert b.entries.Keys * a.entries.Keys == a.entries.Keys;
  }

  lemma EvictSubOrder(c: Cache, cfg: Config, now: int)
    requires WF(c)
    ensures SubOrder(Evict(c, cfg, now).cache, c)
  {
    var p := Prune(c, now);
    RestrictWF(c, LiveKeys(c, now));
    RestrictSubOrder(c, LiveKeys(c, now));
    ShortestSufficientPrefix(p, cfg);
    var r := EvictLoop(p, cfg);
    NewestSubOrder(p, |r.victims|);
    SubOrderTransitive(r.cache, p, c);
    KeepAll(c.order, c.entries.Keys);
  }

  /** After a write the order is a subsequence of the other keys, then the written key if it is kept. */
  lemma WriteOrder(c: Cache, cfg: Config, k: Key, e: Entry, now: int)
    requires WF(c) && e.size == Cost(k, e.value)
    ensures var r := Evict(Put(c, k, e), cfg, now).cache;
            r.order == Keep(c.order, r.entries.Keys - {k}) + (if k in r.entries then [k] else [])
  {
    var p := Put(c, k, e);
    PutWF(c, k, e);
    EvictSubOrder(p, cfg, now);
    var r := Evict(p, cfg, now).cache;
    var head := c.entries.Keys - {k};
    var kept := r.entries.Keys;
    assert r.order == Keep(Keep(c.order, head) + [k], kept);
    KeepAppend(Keep(c.order, head), [k], kept);
    KeepKeep(c.order, head, kept);
    KeepSame(c.order, head * kept, kept - {k});
    assert Keep([k], kept) == if k in kept then [k] else [];
  }

  /** Shape of the order after any operation: untouched survivors in place, the touched key last. */
  ghost predicate OrderShape(c: Cache, r: Cache, touched: Option<Key>) {
    if touched.None? then r.order == Keep(c.order, r.entries.Keys)
    else
      var k := touched.value;
      r.order == Keep(c.order, r.entries.Keys - {k}) + (if k in r.entries then [k] else [])
  }

  lemma DropOrder(c: Cache, k: Key, now: int)
    requires WF(c)
    ensures SubOrder(DropIfExpired(c, k, now), c)
  {
    RestrictSubOrder(c, c.entries.Keys - {k});
    KeepAll(c.order, c.entries.Keys);
  }

  /** A write after dropping the expired key itself has the same shape. */
  lemma WriteOrderAfterDrop(c0: Cache, cfg: Config, k: Key, v: Bytes, d: Option<int>, now: int)
    requires WF(c0)
    ensures var r := Evict(Put(DropIfExpired(c0, k, now), k, NewEntry(k, v, d)), cfg, now).cache;
            r.order == Keep(c0.order, r.entries.Keys - {k}) + (if k in r.entries then [k] else [])
  {
    var c := DropIfExpired(c0, k, now);
    var e := NewEntry(k, v, d);
    DropIfExpiredWF(c0, k, now);
    DropOrder(c0, k, now);
    WriteOrder(c, cfg, k, e, now);
    PutWF(c, k, e);
    EvictKeys(Put(c, k, e), cfg, now);
    var ks := Evict(Put(c, k, e), cfg, now).cache.entries.Keys - {k};
    KeepKeep(c0.order, c.entries.Keys, ks);
    KeepSame(c0.order, c.entries.Keys * ks, ks);
  }

  lemma IncrOrder(c0: Cache, cfg: Config, k: Key, delta: int, now: int)
    requires WF(c0)
    ensures var out := DoIncr(c0, cfg, k, delta, now);
            OrderShape(c0, out.cache, Touched(Incr(k, delta), out.reply))
  {
    var c := DropIfExpired(c0, k, now);
    DropOrder(c0, k, now);
    var out := DoIncr(c0, cfg, k, delta, now);
    if out.reply.Number? {
      var kept := if k in c.entries then c.entries[k].deadline else None;
      var e := NewEntry(k, IntText(out.reply.n), kept);
      assert out.cache == Evict(Put(c, k, e), cfg, now).cache;
      WriteOrderAfterDrop(c0, cfg, k, IntText(out.reply.n), kept, now);
    } else {
      assert out.cache == c;
    }
  }

  lemma GetOrder(c: Cache, k: Key, now: int)
    requires WF(c)
    ensures var out := DoGet(c, k, now); OrderShape(c, out.cache, Touched(Get(k), out.reply))
  {
    DropOrder(c, k, now);
    if IsLive(c, k, now) {
      KeepSame(c.order, c.entries.Keys - {k}, Put(c, k, c.entries[k]).entries.Keys - {k});
    }
  }

  lemma ReviseOrder(c: Cache, k: Key, e: Entry)
    requires WF(c) && k in c.entries
    ensures SubOrder(Revise(c, k, e), c)
  {
    KeepAll(c.order, Revise(c, k, e).entries.Keys);
  }

  lemma EvictKeys(c: Cache, cfg: Config, now: int)
    requires WF(c)
    ensures Evict(c, cfg, now).cache.entries.Keys <= c.entries.Keys
  {
    RestrictWF(c, LiveKeys(c, now));
    ShortestSufficientPrefix(Prune(c, now), cfg);
  }

  /** Eviction leaves every entry it keeps as it was. */
  lemma EvictKeepsEntries(c: Cache, cfg: Config, now: int)
    requires WF(c)
    ensures var m := Evict(c, cfg, now).cache.entries; forall k :: k in m ==> k in c.entries && m[k] == c.entries[k]
  {
    RestrictWF(c, LiveKeys(c, now));
    ShortestSufficientPrefix(Prune(c, now), cfg);
  }

  lemma ExpireAtOrder(c: Cache, k: Key, d: int, now: int)
    requires WF(c)
    ensures SubOrder(DoExpireAt(c, k, d, now).cache, c)
  {
    DropOrder(c, k, now);
    if IsLive(c, k, now) {
      ReviseOrder(c, k, c.entries[k].(deadline := Some(d)));
    }
  }

  lemma PersistOrder(c: Cache, k: Key, now: int)
    requires WF(c)
    ensures SubOrder(DoPersist(c, k, now).cache, c)
  {
    DropOrder(c, k, now);
    KeepAll(c.order, c.entries.Keys);
    if IsLive(c, k, now) {
      ReviseOrder(c, k, c.entries[k].(deadline := None));
    }
  }

  lemma StepOrder(c: Cache, cfg: Config, op: Op, now: int)
    requires WF(c)
    ensures var out := Step(c, cfg, op, now); OrderShape(c, out.cache, Touched(op, out.reply))
  {
    match op {
      case Set(k, v, ttl) => WriteOrder(c, cfg, k, NewEntry(k, v, Deadline(ttl, now)), now);
      case Incr(k, delta) => IncrOrder(c, cfg, k, delta, now);
      case Delete(k) =>
        RestrictSubOrder(c, c.entries.Keys - {k});
        KeepAll(c.order, c.entries.Keys);
      case ExpireAt(k, d) => ExpireAtOrder(c, k, d, now);
      case Persist(k) => PersistOrder(c, k, now);
      case Get(k) => GetOrder(c, k, now);
      case Ttl(k) => DropOrder(c, k, now);
      case Flush =>
        KeepNone(c.order, {});
        assert EMPTY.entries.Keys == {};
      case _ => RestrictSubOrder(c, LiveKeys(c, now));
    }
  }

  ghost predicate SortedBy(o: seq<Key>, rank: Key -> int, bound: int) {
    && (forall i :: 0 <= i < |o| ==> 0 <= rank(o[i]) < bound)
    && (forall i, j :: 0 <= i < j < |o| ==> rank(o[i]) < rank(o[j]))
  }

  lemma {:induction false} KeepSorted(o: seq<Key>, ks: set<Key>, rank: Key -> int, bound: int)
    requires SortedBy(o, rank, bound)
    ensures SortedBy(Keep(o, ks), rank, bound)
  {
    if o != [] {
      KeepSorted(o[1..], ks, rank, bound);
      var tail := Keep(o[1..], ks);
      forall j | 0 <= j < |tail| ensures rank(o[0]) < rank(tail[j]) {
        assert tail[j] in o[1..];
      }
    }
  }

  ghost predicate SortedByUse(o: seq<Key>, cfg: Config, run: seq<Timed>) {
    SortedBy(o, k => LastUse(cfg, run, k), |run|)
  }

  /** In every reachable state the key order is exactly the order of last get, set or incr. */
  lemma {:induction false} OrderIsRecency(cfg: Config, run: seq<Timed>)
    ensures SortedByUse(After(EMPTY, cfg, run).order, cfg, run)
  {
    if run != [] {
      var before, last := run[..|run| - 1], run[|run| - 1];
      var c := After(EMPTY, cfg, before);
      OrderIsRecency(cfg, before);
      AfterWF(EMPTY, cfg, before);
      StepOrder(c, cfg, last.op, last.now);
      ExtendRecency(cfg, run, Step(c, cfg, last.op, last.now));
    }
  }

  lemma ExtendRecency(cfg: Config, run: seq<Timed>, out: Out)
    requires run != []
    requires var before, last := run[..|run| - 1], run[|run| - 1];
             && out == Step(After(EMPTY, cfg, before), cfg, last.op, last.now)
             && SortedByUse(After(EMPTY, cfg, before).order, cfg, before)
             && OrderShape(After(EMPTY, cfg, before), out.cache, Touched(last.op, out.reply))
    ensures SortedByUse(out.cache.order, cfg, run)
  {
    var before, last := run[..|run| - 1], run[|run| - 1];
    var touched := Touched(last.op, out.reply);
    var ks := if touched.Some? then out.cache.entries.Keys - {touched.value} else out.cache.entries.Keys;
    var was, now := (k => LastUse(cfg, before, k)), (k => LastUse(cfg, run, k));
    KeepSorted(After(EMPTY, cfg, before).order, ks, was, |run| - 1);
    forall k ensures now(k) == if touched == Some(k) then |run| - 1 else was(k) {
    }
    PromoteSorted(Keep(After(EMPTY, cfg, before).order, ks), touched, was, now, |run| - 1);
  }

  lemma PromoteSorted(kept: seq<Key>, touched: Option<Key>, was: Key -> int, now: Key -> int, bound: int)
    requires SortedBy(kept, was, bound) && (touched.Some? ==> touched.value !in kept) && bound >= 0
    requires forall k :: now(k) == if touched == Some(k) then bound else was(k)
    ensures SortedBy(kept, now, bound + 1)
    ensures touched.Some? ==> SortedBy(kept + [touched.value], now, bound + 1)
  {
    assert forall i :: 0 <= i < |kept| ==> kept[i] in kept;
  }
}

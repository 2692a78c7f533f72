/**
 * The store as a function of its inputs: an ordered map of entries with optional deadlines, a
 * least-recently-used order, a memory cap, and lazy removal of expired entries. Time is an integer
 * number of milliseconds and every operation takes one reading of the clock.
 */
module CacheModel {
  import opened Base
  import opened Decimal

  type Key = Bytes

  const ENTRY_OVERHEAD: nat := 96

  function Cost(k: Key, v: Bytes): nat {
    ENTRY_OVERHEAD + |k| + |v|
  }

  datatype Entry = Entry(value: Bytes, deadline: Option<int>, size: nat)

  function NewEntry(k: Key, v: Bytes, deadline: Option<int>): Entry {
    Entry(v, deadline, Cost(k, v))
  }

  predicate Expired(e: Entry, now: int) {
    e.deadline.Some? && e.deadline.value <= now
  }

  /** The ordered dictionary: keys from least to most recently used, and their entries. */
  datatype Cache = Cache(order: seq<Key>, entries: map<Key, Entry>)

  const EMPTY: Cache := Cache([], map[])

  /**
   * `maxmemory == 0` means no limit; `lru` is the allkeys-lru policy, otherwise noeviction. `glob` says
   * which keys match a pattern of KEYS; it may be any function.
   */
  datatype Config = Config(maxmemory: nat, lru: bool, glob: (Key, Bytes) -> bool)

  function AnyKey(key: Key, pattern: Bytes): bool {
    true
  }

  /** A store without a limit, where what KEYS lists is of no interest. */
  const UNLIMITED: Config := Config(0, true, AnyKey)

  ghost predicate Distinct(o: seq<Key>) {
    forall i, j :: 0 <= i < j < |o| ==> o[i] != o[j]
  }

  ghost predicate WF(c: Cache) {
    && Distinct(c.order)
    && (forall k :: k in c.order <==> k in c.entries)
    && (forall k :: k in c.entries ==> c.entries[k].size == Cost(k, c.entries[k].value))
  }

  /* ----- sub-caches ----- */

  /** The subsequence of `o` whose members are in `ks`. */
  function Keep(o: seq<Key>, ks: set<Key>): (r: seq<Key>)
    ensures |r| <= |o|
    ensures forall x :: x in r <==> x in o && x in ks
  {
    if o == [] then []
    else if o[0] in ks then [o[0]] + Keep(o[1..], ks)
    else Keep(o[1..], ks)
  }

  function Restrict(c: Cache, ks: set<Key>): Cache {
    Cache(Keep(c.order, ks), map k | k in c.entries && k in ks :: c.entries[k])
  }

  function LiveKeys(c: Cache, now: int): set<Key> {
    set k | k in c.entries && !Expired(c.entries[k], now)
  }

  /** The cache without its expired entries: what an eager store would hold. */
  function Prune(c: Cache, now: int): Cache {
    Restrict(c, LiveKeys(c, now))
  }

  function Remove(c: Cache, k: Key): Cache {
    Restrict(c, c.entries.Keys - {k})
  }

  /** Assign and `move_to_end`. */
  function Put(c: Cache, k: Key, e: Entry): Cache {
    Cache(Keep(c.order, c.entries.Keys - {k}) + [k], c.entries[k := e])
  }

  /** Change an entry in place, without moving it. */
  function Revise(c: Cache, k: Key, e: Entry): Cache {
    Cache(c.order, c.entries[k := e])
  }

  predicate IsLive(c: Cache, k: Key, now: int) {
    k in c.entries && !Expired(c.entries[k], now)
  }

  /** Drop the key if it is present but expired, as every keyed operation does on its way. */
  function DropIfExpired(c: Cache, k: Key, now: int): Cache {
    if k in c.entries && Expired(c.entries[k], now) then Remove(c, k) else c
  }

  /* ----- memory and eviction ----- */

  function SizeAt(m: map<Key, Entry>, k: Key): nat {
    if k in m then m[k].size else 0
  }

  /** Sum of the entry sizes along an order. */
  function TotalSize(o: seq<Key>, m: map<Key, Entry>): nat {
    if o == [] then 0 else SizeAt(m, o[0]) + TotalSize(o[1..], m)
  }

  function Used(c: Cache): nat {
    TotalSize(c.order, c.entries)
  }

  predicate Over(c: Cache, cfg: Config) {
    cfg.maxmemory > 0 && Used(c) > cfg.maxmemory
  }

  function DropOldest(c: Cache): Cache
    requires c.order != []
  {
    Cache(c.order[1..], c.entries - {c.order[0]})
  }

  datatype Eviction = Eviction(cache: Cache, victims: seq<Key>)

  function EvictLoop(c: Cache, cfg: Config): Eviction
    decreases |c.order|
  {
    if Over(c, cfg) && |c.order| > 1 then
      var later := EvictLoop(DropOldest(c), cfg);
      Eviction(later.cache, [c.order[0]] + later.victims)
    else
      Eviction(c, [])
  }

  function Evict(c: Cache, cfg: Config, now: int): Eviction {
    if !cfg.lru || !Over(c, cfg) then Eviction(c, []) else EvictLoop(Prune(c, now), cfg)
  }

  /* ----- operations ----- */

  datatype Reject = NotAnInteger | Overflow

  datatype Reply =
    | Done
    | Missing
    | Found(value: Bytes)
    | Flag(yes: bool)
    | Number(n: int)
    | Persistent
    | Remaining(ms: int)
    | KeyList(keys: seq<Key>)
    | Items(items: seq<Item>)
    | Rejected(why: Reject)

  /** One row of a snapshot: key, value and remaining time to live. */
  datatype Item = Item(key: Key, value: Bytes, ttl: Option<int>)

  datatype Op =
    | Set(key: Key, value: Bytes, ttl: Option<int>)
    | Incr(key: Key, delta: int)
    | Delete(key: Key)
    | ExpireAt(key: Key, deadline: int)
    | Persist(key: Key)
    | Get(key: Key)
    | Ttl(key: Key)
    | Flush
    | Keys
    | Snapshot
    | Length
    | Sweep

  datatype Out = Out(cache: Cache, reply: Reply, evicted: seq<Key>)

  function Deadline(ttl: Option<int>, now: int): Option<int> {
    if ttl.Some? then Some(now + ttl.value) else None
  }

  function DoSet(c: Cache, cfg: Config, k: Key, v: Bytes, ttl: Option<int>, now: int): Out {
    var r := Evict(Put(c, k, NewEntry(k, v, Deadline(ttl, now))), cfg, now);
    Out(r.cache, Done, r.victims)
  }

  /** The integer held by a stored value, if it is one and fits 64 bits. */
  function StoredInt(v: Bytes): Option<int> {
    match ParseInt(v)
    case None => None
    case Some(n) => if Int64(n) then Some(n) else None
  }

  function DoIncr(c0: Cache, cfg: Config, k: Key, delta: int, now: int): Out {
    var c := DropIfExpired(c0, k, now);
    var reply := Counted(if k in c.entries then Some(c.entries[k].value) else None, delta);
    if reply.Number? then WriteCount(c, cfg, k, reply.n, now) else Out(c, reply, [])
  }

  /** The new count for a stored text, or why there is none; an absent key counts from zero. */
  function Counted(stored: Option<Bytes>, delta: int): Reply {
    var current := if stored.Some? then StoredInt(stored.value) else Some(0);
    if current.None? then Rejected(NotAnInteger)
    else if !Int64(current.value + delta) then Rejected(Overflow)
    else Number(current.value + delta)
  }

  /** Store a number as decimal text, under the deadline the key already has. */
  function WriteCount(c: Cache, cfg: Config, k: Key, n: int, now: int): Out {
    var kept := if k in c.entries then c.entries[k].deadline else None;
    var r := Evict(Put(c, k, NewEntry(k, IntText(n), kept)), cfg, now);
    Out(r.cache, Number(n), r.victims)
  }

  function DoDelete(c: Cache, k: Key, now: int): Out {
    if k !in c.entries then Out(c, Flag(false), [])
    else Out(Remove(c, k), Flag(!Expired(c.entries[k], now)), [])
  }

  function DoExpireAt(c: Cache, k: Key, deadline: int, now: int): Out {
    if !IsLive(c, k, now) then Out(DropIfExpired(c, k, now), Flag(false), [])
    else Out(Revise(c, k, c.entries[k].(deadline := Some(deadline))), Flag(true), [])
  }

  function DoPersist(c: Cache, k: Key, now: int): Out {
    if !IsLive(c, k, now) then Out(DropIfExpired(c, k, now), Flag(false), [])
    else if c.entries[k].deadline.None? then Out(c, Flag(false), [])
    else Out(Revise(c, k, c.entries[k].(deadline := None)), Flag(true), [])
  }

  function DoGet(c: Cache, k: Key, now: int): Out {
    if !IsLive(c, k, now) then Out(DropIfExpired(c, k, now), Missing, [])
    else Out(Put(c, k, c.entries[k]), Found(c.entries[k].value), [])
  }

  function DoTtl(c: Cache, k: Key, now: int): Out {
    if !IsLive(c, k, now) then Out(DropIfExpired(c, k, now), Missing, [])
    else if c.entries[k].deadline.None? then Out(c, Persistent, [])
    else Out(c, Remaining(c.entries[k].deadline.value - now), [])
  }

  function SnapshotRows(o: seq<Key>, m: map<Key, Entry>, now: int): seq<Item> {
    if o == [] then []
    else if o[0] in m && !Expired(m[o[0]], now) then [Row(o[0], m[o[0]], now)] + SnapshotRows(o[1..], m, now)
    else SnapshotRows(o[1..], m, now)
  }

  function Row(k: Key, e: Entry, now: int): Item {
    Item(k, e.value, if e.deadline.Some? then Some(e.deadline.value - now) else None)
  }

  function Step(c: Cache, cfg: Config, op: Op, now: int): Out {
    match op
    case Set(k, v, ttl) => DoSet(c, cfg, k, v, ttl, now)
    case Incr(k, delta) => DoIncr(c, cfg, k, delta, now)
    case Delete(k) => DoDelete(c, k, now)
    case ExpireAt(k, d) => DoExpireAt(c, k, d, now)
    case Persist(k) => DoPersist(c, k, now)
    case Get(k) => DoGet(c, k, now)
    case Ttl(k) => DoTtl(c, k, now)
    case Flush => Out(EMPTY, Done, [])
    case Keys => Out(Prune(c, now), KeyList(Prune(c, now).order), [])
    case Snapshot => Out(Prune(c, now), Items(SnapshotRows(Prune(c, now).order, Prune(c, now).entries, now)), [])
    case Length => Out(Prune(c, now), Number(|Prune(c, now).order|), [])
    case Sweep => Out(Prune(c, now), Done, [])
  }

  /** The unexpired part of a map of entries. */
  function LiveEntries(m: map<Key, Entry>, now: int): map<Key, Entry> {
    map k | k in m && !Expired(m[k], now) :: m[k]
  }

  /* ----- runs ----- */

  datatype Timed = Timed(op: Op, now: int)

  /** The clock never goes back. */
  ghost predicate Chronological(run: seq<Timed>) {
    forall i, j :: 0 <= i <= j < |run| ==> run[i].now <= run[j].now
  }

  /** State after a run; the last step is applied last. */
  function After(c: Cache, cfg: Config, run: seq<Timed>): Cache {
    if run == [] then c
    else
      var last := run[|run| - 1];
      Step(After(c, cfg, run[..|run| - 1]), cfg, last.op, last.now).cache
  }

  /* ----- algebra of sub-caches ----- */

  lemma {:induction false} KeepKeep(o: seq<Key>, a: set<Key>, b: set<Key>)
    ensures Keep(Keep(o, a), b) == Keep(o, a * b)
  {
    if o != [] {
      KeepKeep(o[1..], a, b);
      if o[0] in a {
        assert ([o[0]] + Keep(o[1..], a))[1..] == Keep(o[1..], a);
      }
    }
  }

  lemma {:induction false} KeepAppend(p: seq<Key>, q: seq<Key>, a: set<Key>)
    ensures Keep(p + q, a) == Keep(p, a) + Keep(q, a)
  {
    if p == [] {
      assert p + q == q;
    } else {
      KeepAppend(p[1..], q, a);
      assert (p + q)[1..] == p[1..] + q && (p + q)[0] == p[0];
      if p[0] in a {
        Regroup([p[0]], Keep(p[1..], a), Keep(q, a));
      }
    }
  }

  lemma {:induction false} KeepSame(o: seq<Key>, a: set<Key>, b: set<Key>)
    requires forall x :: x in o ==> (x in a <==> x in b)
    ensures Keep(o, a) == Keep(o, b)
  {
    if o != [] {
      KeepSame(o[1..], a, b);
    }
  }

  lemma {:induction false} KeepAll(o: seq<Key>, a: set<Key>)
    requires forall x :: x in o ==> x in a
    ensures Keep(o, a) == o
  {
    if o != [] {
      KeepAll(o[1..], a);
    }
  }

  lemma {:induction false} KeepDistinct(o: seq<Key>, a: set<Key>)
    requires Distinct(o)
    ensures Distinct(Keep(o, a))
  {
    if o != [] {
      KeepDistinct(o[1..], a);
      assert o[0] !in o[1..];
    }
  }

  lemma RestrictRestrict(c: Cache, a: set<Key>, b: set<Key>)
    ensures Restrict(Restrict(c, a), b) == Restrict(c, a * b)
  {
    KeepKeep(c.order, a, b);
  }

  lemma RestrictSame(c: Cache, a: set<Key>, b: set<Key>)
    requires WF(c) && forall k :: k in c.entries ==> (k in a <==> k in b)
    ensures Restrict(c, a) == Restrict(c, b)
  {
    KeepSame(c.order, a, b);
  }

  lemma RestrictAll(c: Cache, a: set<Key>)
    requires WF(c) && c.entries.Keys <= a
    ensures Restrict(c, a) == c
  {
    KeepAll(c.order, a);
  }

  lemma PruneEntries(c: Cache, now: int)
    ensures Prune(c, now).entries == LiveEntries(c.entries, now)
    ensures LiveKeys(c, now) == LiveEntries(c.entries, now).Keys
  {
  }

  lemma LiveEntriesUpdate(m: map<Key, Entry>, k: Key, e: Entry, now: int)
    ensures LiveEntries(m[k := e], now) ==
              if Expired(e, now) then LiveEntries(m, now) - {k} else LiveEntries(m, now)[k := e]
  {
  }

  lemma RestrictWF(c: Cache, ks: set<Key>)
    requires WF(c)
    ensures WF(Restrict(c, ks))
  {
    KeepDistinct(c.order, ks);
  }

  lemma PutWF(c: Cache, k: Key, e: Entry)
    requires WF(c) && e.size == Cost(k, e.value)
    ensures WF(Put(c, k, e))
  {
    KeepDistinct(c.order, c.entries.Keys - {k});
  }

  lemma DropOldestIsRemove(c: Cache)
    requires WF(c) && c.order != []
    ensures DropOldest(c) == Remove(c, c.order[0]) && WF(DropOldest(c))
  {
    var k := c.order[0];
    var others := c.entries.Keys - {k};
    assert Keep(c.order, others) == c.order[1..] by {
      assert forall x :: x in c.order[1..] ==> x in c.order && x in others;
      KeepAll(c.order[1..], others);
    }
    assert c.entries - {k} == Remove(c, k).entries;
    RestrictWF(c, others);
  }

  lemma {:induction false} EvictLoopWF(c: Cache, cfg: Config)
    requires WF(c)
    ensures WF(EvictLoop(c, cfg).cache)
    decreases |c.order|
  {
    if Over(c, cfg) && |c.order| > 1 {
      DropOldestIsRemove(c);
      EvictLoopWF(DropOldest(c), cfg);
    }
  }

  lemma EvictWF(c: Cache, cfg: Config, now: int)
    requires WF(c)
    ensures WF(Evict(c, cfg, now).cache)
  {
    RestrictWF(c, LiveKeys(c, now));
    EvictLoopWF(Prune(c, now), cfg);
  }

  lemma DropIfExpiredWF(c: Cache, k: Key, now: int)
    requires WF(c)
    ensures WF(DropIfExpired(c, k, now))
  {
    RestrictWF(c, c.entries.Keys - {k});
  }

  /** Writing an entry and evicting keeps the ordered map well formed. */
  lemma WriteWF(c: Cache, cfg: Config, k: Key, v: Bytes, deadline: Option<int>, now: int)
    requires WF(c)
    ensures WF(Evict(Put(c, k, NewEntry(k, v, deadline)), cfg, now).cache)
  {
    PutWF(c, k, NewEntry(k, v, deadline));
    EvictWF(Put(c, k, NewEntry(k, v, deadline)), cfg, now);
  }

  lemma IncrWF(c0: Cache, cfg: Config, k: Key, delta: int, now: int)
    requires WF(c0)
    ensures WF(DoIncr(c0, cfg, k, delta, now).cache)
  {
    var c := DropIfExpired(c0, k, now);
    DropIfExpiredWF(c0, k, now);
    if DoIncr(c0, cfg, k, delta, now).reply.Number? {
      var n := DoIncr(c0, cfg, k, delta, now).reply.n;
      WriteWF(c, cfg, k, IntText(n), if k in c.entries then c.entries[k].deadline else None, now);
    }
  }

  lemma GetWF(c: Cache, k: Key, now: int)
    requires WF(c)
    ensures WF(DoGet(c, k, now).cache)
  {
    DropIfExpiredWF(c, k, now);
    if k in c.entries {
      PutWF(c, k, c.entries[k]);
    }
  }

  /** Every operation keeps the ordered map well formed. */
  lemma StepWF(c: Cache, cfg: Config, op: Op, now: int)
    requires WF(c)
    ensures WF(Step(c, cfg, op, now).cache)
  {
    match op {
      case Set(k, v, ttl) => WriteWF(c, cfg, k, v, Deadline(ttl, now), now);
      case Incr(k, delta) => IncrWF(c, cfg, k, delta, now);
      case Get(k) => GetWF(c, k, now);
      case Delete(k) => RestrictWF(c, c.entries.Keys - {k});
      case ExpireAt(k, _) => DropIfExpiredWF(c, k, now);
      case Persist(k) => DropIfExpiredWF(c, k, now);
      case Ttl(k) => DropIfExpiredWF(c, k, now);
      case Flush =>
      case _ => RestrictWF(c, LiveKeys(c, now));
    }
  }

  lemma {:induction false} AfterWF(c: Cache, cfg: Config, run: seq<Timed>)
    requires WF(c)
    ensures WF(After(c, cfg, run))
  {
    if run != [] {
      AfterWF(c, cfg, run[..|run| - 1]);
      var last := run[|run| - 1];
      StepWF(After(c, cfg, run[..|run| - 1]), cfg, last.op, last.now);
    }
  }
}

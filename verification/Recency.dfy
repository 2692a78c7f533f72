/**
 * Recency as clients see it: which keys a request uses, and that the order in which the store would evict
 * is, after any run of requests under any cap, the order in which the keys were last used.
 */
module Recency {
  import opened Base
  import opened Decimal
  import opened CacheModel
  import opened LruLaws
  import opened Commands
  import opened TimedReplay
  import opened Replication
  import opened Words
  import opened TimedMap
  import opened Tales
  import Resp

  /* ----- the reference: keys that were never used since, then the used ones by their last use ----- */

  /** The elements that do not occur again later, in order. */
  function LastUses(used: seq<Key>): seq<Key> {
    if used == [] then []
    else if used[0] in used[1..] then LastUses(used[1..])
    else [used[0]] + LastUses(used[1..])
  }

  /** The keys of an order that are not among those used. */
  function Without(o: seq<Key>, used: seq<Key>): seq<Key> {
    if o == [] then []
    else if o[0] in used then Without(o[1..], used)
    else [o[0]] + Without(o[1..], used)
  }

  /** An order after keys have been used, one after the other. */
  function ByUse(o: seq<Key>, used: seq<Key>): seq<Key> {
    Without(o, used) + LastUses(used)
  }

  /** Every key of `c` was there before or is used, and the order is that of last use. */
  ghost predicate Ordered(b: Cache, c: Cache, used: seq<Key>) {
    && c.order == Keep(ByUse(b.order, used), c.entries.Keys)
    && forall k :: k in c.entries ==> k in b.entries || k in used
  }

  /* ----- algebra ----- */

  lemma {:induction false} WithoutAppend(p: seq<Key>, q: seq<Key>, used: seq<Key>)
    ensures Without(p + q, used) == Without(p, used) + Without(q, used)
  {
    if p == [] {
      assert p + q == q;
    } else {
      assert (p + q)[1..] == p[1..] + q;
      WithoutAppend(p[1..], q, used);
    }
  }

  lemma {:induction false} WithoutTwice(o: seq<Key>, u: seq<Key>, v: seq<Key>)
    ensures Without(Without(o, u), v) == Without(o, u + v)
  {
    if o != [] {
      WithoutTwice(o[1..], u, v);
    }
  }

  lemma {:induction false} LastUsesAppend(u: seq<Key>, v: seq<Key>)
    ensures LastUses(u + v) == Without(LastUses(u), v) + LastUses(v)
  {
    if u == [] {
      assert u + v == v;
    } else {
      assert (u + v)[1..] == u[1..] + v;
      LastUsesAppend(u[1..], v);
    }
  }

  lemma ByUseAgain(o: seq<Key>, u: seq<Key>, v: seq<Key>)
    ensures ByUse(ByUse(o, u), v) == ByUse(o, u + v)
  {
    WithoutAppend(Without(o, u), LastUses(u), v);
    WithoutTwice(o, u, v);
    LastUsesAppend(u, v);
  }

  lemma {:induction false} KeepWithout(o: seq<Key>, used: seq<Key>, ks: set<Key>)
    ensures Keep(Without(o, used), ks) == Without(Keep(o, ks), used)
  {
    if o != [] {
      KeepWithout(o[1..], used, ks);
    }
  }

  lemma {:induction false} KeptWithout(o: seq<Key>, used: seq<Key>, a: set<Key>, b: set<Key>)
    requires forall k :: k in b && k !in used ==> k in a
    ensures Keep(Without(Keep(o, a), used), b) == Keep(Without(o, used), b)
  {
    if o != [] {
      KeptWithout(o[1..], used, a, b);
    }
  }

  /** Keys that are gone before they are used again play no part. */
  lemma KeptByUse(o: seq<Key>, used: seq<Key>, a: set<Key>, b: set<Key>)
    requires forall k :: k in b ==> k in a || k in used
    ensures Keep(ByUse(Keep(o, a), used), b) == Keep(ByUse(o, used), b)
  {
    KeepAppend(Without(Keep(o, a), used), LastUses(used), b);
    KeepAppend(Without(o, used), LastUses(used), b);
    KeptWithout(o, used, a, b);
  }

  lemma OrderedThen(a: Cache, b: Cache, c: Cache, u: seq<Key>, v: seq<Key>)
    requires Ordered(a, b, u) && Ordered(b, c, v)
    ensures Ordered(a, c, u + v)
  {
    KeptByUse(ByUse(a.order, u), v, b.entries.Keys, c.entries.Keys);
    ByUseAgain(a.order, u, v);
  }

  lemma {:induction false} WithoutNothing(o: seq<Key>)
    ensures Without(o, []) == o
  {
    if o != [] {
      WithoutNothing(o[1..]);
    }
  }

  /** What the store's operations do to the order, said with uses. */
  lemma ShapeIsOrdered(b: Cache, c: Cache, touched: Option<Key>)
    requires OrderShape(b, c, touched) && forall k :: k in c.entries ==> k in b.entries || touched == Some(k)
    ensures Ordered(b, c, if touched.Some? then [touched.value] else [])
  {
    if touched.None? {
      WithoutNothing(b.order);
      assert ByUse(b.order, []) == b.order;
    } else {
      var k := touched.value;
      assert LastUses([k]) == [k];
      KeepAppend(Without(b.order, [k]), [k], c.entries.Keys);
      OneOut(b.order, k, c.entries.Keys);
    }
  }

  lemma {:induction false} OneOut(o: seq<Key>, k: Key, ks: set<Key>)
    ensures Keep(Without(o, [k]), ks) == Keep(o, ks - {k})
  {
    if o != [] {
      OneOut(o[1..], k, ks);
    }
  }

  lemma SameOrdered(b: Cache, c: Cache)
    requires c.order == Keep(b.order, c.entries.Keys) && c.entries.Keys <= b.entries.Keys
    ensures Ordered(b, c, [])
  {
    ShapeIsOrdered(b, c, None);
  }

  /* ----- store operations ----- */

  lemma SetOrdered(c: Cache, cfg: Config, k: Key, v: Bytes, deadline: Option<int>, now: int)
    requires WF(c)
    ensures Ordered(c, Evict(Put(c, k, NewEntry(k, v, deadline)), cfg, now).cache, [k])
  {
    var e := NewEntry(k, v, deadline);
    PutWF(c, k, e);
    WriteOrder(c, cfg, k, e, now);
    EvictKeys(Put(c, k, e), cfg, now);
    ShapeIsOrdered(c, Evict(Put(c, k, e), cfg, now).cache, Some(k));
  }

  lemma GetOrdered(c: Cache, k: Key, now: int)
    requires WF(c)
    ensures Ordered(c, DoGet(c, k, now).cache, if k in On(c, now) then [k] else [])
  {
    ThereIs(c, k, now);
    GetOrder(c, k, now);
    ShapeIsOrdered(c, DoGet(c, k, now).cache, Touched(Get(k), DoGet(c, k, now).reply));
  }

  lemma DropOrdered(c: Cache, k: Key, now: int)
    requires WF(c)
    ensures Ordered(c, DropIfExpired(c, k, now), [])
  {
    DropOrder(c, k, now);
    SameOrdered(c, DropIfExpired(c, k, now));
  }

  /* ----- commands ----- */

  /** The keys named that are there, in the order they are named. */
  function NamedThere(m: Shelf, keys: seq<Key>): seq<Key> {
    if keys == [] then [] else (if keys[0] in m then [keys[0]] else []) + NamedThere(m, keys[1..])
  }

  function PairKeys(pairs: seq<(Key, Bytes)>): seq<Key> {
    seq(|pairs|, i requires 0 <= i < |pairs| => pairs[i].0)
  }

  /**
   * The keys a command uses, in order, when the store holds `m`: those it reads the value of, and those it
   * writes a value to. Deadlines are looked at and changed without using the key.
   */
  function UsedBy(m: Shelf, cmd: Command): seq<Key> {
    match cmd
    case CSet(o) => if o.key in m || Applies(o, At(m, o.key)) then [o.key] else []
    case CMset(pairs) => PairKeys(pairs)
    case CIncrBy(k, delta) => if SumAt(At(m, k), delta).Some? then [k] else []
    case CGet(k) => if k in m then [k] else []
    case CMget(keys) => NamedThere(m, keys)
    case CExists(keys) => NamedThere(m, keys)
    case _ => []
  }

  lemma UsedTwice(b: Cache, c: Cache, k: Key)
    requires Ordered(b, c, [k, k])
    ensures Ordered(b, c, [k])
  {
    assert [k, k] == [k] + [k];
    LastUsesAppend([k], [k]);
    assert LastUses([k]) == [k] && Without([k], [k]) == [];
    WithoutSame(b.order, [k, k], [k]);
  }

  lemma {:induction false} WithoutSame(o: seq<Key>, u: seq<Key>, v: seq<Key>)
    requires forall k :: k in u <==> k in v
    ensures Without(o, u) == Without(o, v)
  {
    if o != [] {
      WithoutSame(o[1..], u, v);
    }
  }

  /** Two uses of the same key, if any, are one. */
  lemma UsedAgain(a: Cache, b: Cache, c: Cache, k: Key, u: seq<Key>, v: seq<Key>)
    requires Ordered(a, b, u) && Ordered(b, c, v) && (u == [] || u == [k]) && (v == [] || v == [k])
    ensures Ordered(a, c, if u == [] && v == [] then [] else [k])
  {
    OrderedThen(a, b, c, u, v);
    if u == [k] && v == [k] {
      assert u + v == [k, k];
      UsedTwice(a, c, k);
    } else {
      assert u + v == if u == [] && v == [] then [] else [k];
    }
  }

  lemma ProbedOrdered(c: Cache, o: SetOptions, now: int)
    requires WF(c)
    ensures Ordered(c, Probed(c, o, now), if o.key in On(c, now) then [o.key] else [])
  {
    var k, first := o.key, DoGet(c, o.key, now).cache;
    var u := if k in On(c, now) then [k] else [];
    GetOrdered(c, k, now);
    if o.get {
      GetWF(c, k, now);
      GetOrdered(first, k, now);
      GetThere(c, k, k, now);
      UsedAgain(c, first, DoGet(first, k, now).cache, k, u, u);
    }
  }

  lemma SetUses(c: Cache, cfg: Config, o: SetOptions, now: int)
    requires WF(c)
    ensures Ordered(c, ExecSet(c, cfg, o, now).cache, UsedBy(On(c, now), CSet(o)))
  {
    var d := Probed(c, o, now);
    ProbedOrdered(c, o, now);
    ProbedThere(c, o, o.key, now);
    SetWrites(c, cfg, o, now);
    if Applies(o, There(c, o.key, now)) {
      SetOrdered(d, cfg, o.key, o.value, Deadline(o.ttl, now), now);
      UsedAgain(c, d, ExecSet(c, cfg, o, now).cache, o.key, if o.key in On(c, now) then [o.key] else [], [o.key]);
    }
  }

  lemma IncrUses(c: Cache, cfg: Config, k: Key, delta: int, now: int)
    requires WF(c)
    ensures Ordered(c, ExecIncr(c, cfg, k, delta, now).cache, UsedBy(On(c, now), CIncrBy(k, delta)))
  {
    IncrWrites(c, cfg, k, delta, now);
    DropOrdered(c, k, now);
    IncrUsed(c, cfg, k, delta, DropIfExpired(c, k, now), There(c, k, now), ExecIncr(c, cfg, k, delta, now), now);
  }

  lemma IncrUsed(c: Cache, cfg: Config, k: Key, delta: int, d: Cache, h: Option<Held>, eff: Effect, now: int)
    requires WF(d) && Ordered(c, d, []) && h == At(On(c, now), k)
    requires if SumAt(h, delta).Some? then
               var text, kept := IntText(SumAt(h, delta).value), if h.Some? then h.value.deadline else None;
               eff.cache == Evict(Put(d, k, NewEntry(k, text, kept)), cfg, now).cache
             else eff.cache == d
    ensures Ordered(c, eff.cache, UsedBy(On(c, now), CIncrBy(k, delta)))
  {
    if SumAt(h, delta).Some? {
      SetOrdered(d, cfg, k, IntText(SumAt(h, delta).value), if h.Some? then h.value.deadline else None, now);
      UsedAgain(c, d, eff.cache, k, [], [k]);
    }
  }

  lemma {:induction false} MsetUses(c: Cache, cfg: Config, pairs: seq<(Key, Bytes)>, now: int)
    requires WF(c)
    ensures Ordered(c, ExecMset(c, cfg, pairs, now).cache, PairKeys(pairs))
    decreases |pairs|
  {
    if pairs == [] {
      KeepAll(c.order, c.entries.Keys);
      SameOrdered(c, c);
      assert PairKeys(pairs) == [];
    } else {
      var d := DoSet(c, cfg, pairs[0].0, pairs[0].1, None, now).cache;
      SetOrdered(c, cfg, pairs[0].0, pairs[0].1, None, now);
      WriteWF(c, cfg, pairs[0].0, pairs[0].1, None, now);
      MsetUses(d, cfg, pairs[1..], now);
      OrderedThen(c, d, ExecMset(c, cfg, pairs, now).cache, [pairs[0].0], PairKeys(pairs[1..]));
      assert PairKeys(pairs) == [pairs[0].0] + PairKeys(pairs[1..]);
    }
  }

  lemma {:induction false} SameThere(m: Shelf, n: Shelf, keys: seq<Key>)
    requires forall k :: k in keys ==> (k in m <==> k in n)
    ensures NamedThere(m, keys) == NamedThere(n, keys)
  {
    if keys != [] {
      SameThere(m, n, keys[1..]);
    }
  }

  lemma {:induction false} MgetUses(c: Cache, keys: seq<Key>, now: int)
    requires WF(c)
    ensures Ordered(c, ExecMget(c, keys, now).0, NamedThere(On(c, now), keys))
    decreases |keys|
  {
    if keys == [] {
      KeepAll(c.order, c.entries.Keys);
      SameOrdered(c, c);
    } else {
      var d := DoGet(c, keys[0], now).cache;
      GetOrdered(c, keys[0], now);
      GetWF(c, keys[0], now);
      MgetUses(d, keys[1..], now);
      forall k | k in keys[1..] ensures k in On(c, now) <==> k in On(d, now) {
        GetThere(c, keys[0], k, now);
      }
      SameThere(On(c, now), On(d, now), keys[1..]);
      OrderedThen(c, d, ExecMget(c, keys, now).0, if keys[0] in On(c, now) then [keys[0]] else [],
                  NamedThere(On(c, now), keys[1..]));
    }
  }

  /** What it means that a command which left `r` used exactly its keys. */
  ghost predicate UsesKeys(c: Cache, r: Cache, cmd: Command, now: int) {
    Ordered(c, r, UsedBy(On(c, now), cmd))
  }

  lemma NothingUsed(c: Cache, r: Cache, cmd: Command, now: int)
    requires PartOf(r, c) && UsedBy(On(c, now), cmd) == []
    ensures UsesKeys(c, r, cmd, now)
  {
    SameOrdered(c, r);
  }

  /** What is left is part of what was there, in the same order. */
  ghost predicate PartOf(r: Cache, c: Cache) {
    SubOrder(r, c) && r.entries.Keys <= c.entries.Keys
  }

  lemma ExpireLeavesPart(c: Cache, k: Key, d: int, now: int)
    requires WF(c)
    ensures PartOf(DoExpireAt(c, k, d, now).cache, c)
  {
    ExpireAtOrder(c, k, d, now);
  }

  lemma PersistLeavesPart(c: Cache, k: Key, now: int)
    requires WF(c)
    ensures PartOf(DoPersist(c, k, now).cache, c)
  {
    PersistOrder(c, k, now);
  }

  lemma TtlLeavesPart(c: Cache, k: Key, now: int)
    requires WF(c)
    ensures PartOf(DoTtl(c, k, now).cache, c)
  {
    DropOrder(c, k, now);
    KeepAll(c.order, c.entries.Keys);
  }

  lemma {:induction false} DelLeavesPart(c: Cache, keys: seq<Key>, now: int)
    requires WF(c)
    ensures PartOf(ExecDel(c, keys, now).0, c)
    decreases |keys|
  {
    KeepAll(c.order, c.entries.Keys);
    if keys != [] {
      var d := DoDelete(c, keys[0], now).cache;
      RestrictSubOrder(c, c.entries.Keys - {keys[0]});
      RestrictWF(c, c.entries.Keys - {keys[0]});
      DelLeavesPart(d, keys[1..], now);
      SubOrderTransitive(ExecDel(c, keys, now).0, d, c);
    }
  }

  lemma FlushLeavesPart(c: Cache)
    ensures PartOf(EMPTY, c)
  {
    KeepNone(c.order, EMPTY.entries.Keys);
  }

  lemma PruneLeavesPart(c: Cache, now: int)
    requires WF(c)
    ensures PartOf(Prune(c, now), c)
  {
    RestrictSubOrder(c, LiveKeys(c, now));
  }

  lemma WholePart(c: Cache)
    requires WF(c)
    ensures PartOf(c, c)
  {
    KeepAll(c.order, c.entries.Keys);
  }

  lemma DeadlineLeavesPart(c: Cache, cfg: Config, cmd: Command, now: int)
    requires WF(c) && (cmd.CExpire? || cmd.CExpireAt? || cmd.CPersist? || cmd.CTtl?)
    ensures PartOf(Exec(c, cfg, cmd, now).cache, c)
  {
    match cmd {
      case CExpire(k, ms) => ExpireLeavesPart(c, k, now + ms, now);
      case CExpireAt(k, d) => ExpireLeavesPart(c, k, d, now);
      case CPersist(k) => PersistLeavesPart(c, k, now);
      case CTtl(k) => TtlLeavesPart(c, k, now);
    }
  }

  /** Commands that use no key leave part of what was there. */
  lemma QuietLeavesPart(c: Cache, cfg: Config, cmd: Command, now: int)
    requires WF(c) && !cmd.CSet? && !cmd.CMset? && !cmd.CIncrBy? && !cmd.CGet? && !cmd.CMget? && !cmd.CExists?
    ensures PartOf(Exec(c, cfg, cmd, now).cache, c)
  {
    match cmd {
      case CDel(keys) => DelLeavesPart(c, keys, now);
      case CFlush => FlushLeavesPart(c);
      case CPing(_) => WholePart(c);
      case CKeys(_) => PruneLeavesPart(c, now);
      case CDbsize => PruneLeavesPart(c, now);
      case _ => DeadlineLeavesPart(c, cfg, cmd, now);
    }
  }

  lemma QuietUses(c: Cache, cfg: Config, cmd: Command, now: int)
    requires WF(c) && !cmd.CSet? && !cmd.CMset? && !cmd.CIncrBy? && !cmd.CGet? && !cmd.CMget? && !cmd.CExists?
    ensures UsesKeys(c, Exec(c, cfg, cmd, now).cache, cmd, now)
  {
    QuietLeavesPart(c, cfg, cmd, now);
    NothingUsed(c, Exec(c, cfg, cmd, now).cache, cmd, now);
  }

  lemma ReadUses(c: Cache, cfg: Config, cmd: Command, now: int)
    requires WF(c) && (cmd.CGet? || cmd.CMget? || cmd.CExists?)
    ensures UsesKeys(c, Exec(c, cfg, cmd, now).cache, cmd, now)
  {
    match cmd {
      case CGet(k) => GetOrdered(c, k, now);
      case CMget(keys) => MgetUses(c, keys, now);
      case CExists(keys) => MgetUses(c, keys, now);
    }
  }

  lemma WriteUses(c: Cache, cfg: Config, cmd: Command, now: int)
    requires WF(c) && (cmd.CSet? || cmd.CMset? || cmd.CIncrBy?)
    ensures UsesKeys(c, Exec(c, cfg, cmd, now).cache, cmd, now)
  {
    match cmd {
      case CSet(o) => SetUses(c, cfg, o, now);
      case CMset(pairs) => MsetUses(c, cfg, pairs, now);
      case CIncrBy(k, delta) => IncrUses(c, cfg, k, delta, now);
    }
  }

  /** Every command uses exactly these keys, whatever it evicts. */
  lemma CommandUses(c: Cache, cfg: Config, cmd: Command, now: int)
    requires WF(c)
    ensures UsesKeys(c, Exec(c, cfg, cmd, now).cache, cmd, now)
  {
    if cmd.CSet? || cmd.CMset? || cmd.CIncrBy? {
      WriteUses(c, cfg, cmd, now);
    } else if cmd.CGet? || cmd.CMget? || cmd.CExists? {
      ReadUses(c, cfg, cmd, now);
    } else {
      QuietUses(c, cfg, cmd, now);
    }
  }

  /* ----- runs of requests ----- */

  /** The keys a request uses; none if its words say no command. */
  function RequestUses(c: Cache, raw: Record, now: int): seq<Key> {
    match Parse(raw)
    case Ok(cmd) => UsedBy(On(c, now), cmd)
    case Fail(_) => []
  }

  /** The keys used along a run, in order. */
  function UsedAlong(c: Cache, cfg: Config, run: seq<Request>): seq<Key> {
    if run == [] then []
    else
      var before, last := run[..|run| - 1], run[|run| - 1];
      UsedAlong(c, cfg, before) + RequestUses(PrimaryAfter(c, cfg, before), last.raw, last.now)
  }

  lemma RequestOrdered(c: Cache, cfg: Config, raw: Record, now: int)
    requires WF(c)
    ensures Ordered(c, Dispatch(c, cfg, raw, now).cache, RequestUses(c, raw, now))
  {
    if Parse(raw).Ok? {
      CommandUses(c, cfg, Parse(raw).cmd, now);
    } else {
      KeepAll(c.order, c.entries.Keys);
      SameOrdered(c, c);
    }
  }

  /** After any run of requests, under any cap, the store's order is the order of last use. */
  lemma {:induction false} RunOrdered(c: Cache, cfg: Config, run: seq<Request>)
    requires WF(c)
    ensures Ordered(c, PrimaryAfter(c, cfg, run), UsedAlong(c, cfg, run))
  {
    if run == [] {
      KeepAll(c.order, c.entries.Keys);
      SameOrdered(c, c);
    } else {
      var before, last := run[..|run| - 1], run[|run| - 1];
      var d := PrimaryAfter(c, cfg, before);
      RunOrdered(c, cfg, before);
      PrimaryWF(c, cfg, before);
      RequestOrdered(d, cfg, last.raw, last.now);
      OrderedThen(c, d, PrimaryAfter(c, cfg, run), UsedAlong(c, cfg, before), RequestUses(d, last.raw, last.now));
    }
  }

  /* ----- who is evicted ----- */

  /** The position of the last use of a key; -1 if it was never used. */
  function LastAt(used: seq<Key>, k: Key): int {
    if used == [] then -1
    else if used[|used| - 1] == k then |used| - 1
    else LastAt(used[..|used| - 1], k)
  }

  lemma {:induction false} LastUsesRanked(used: seq<Key>)
    ensures SortedBy(LastUses(used), k => LastAt(used, k), |used|)
  {
    if used != [] {
      var before, last := used[..|used| - 1], used[|used| - 1];
      var was, rank := (k => LastAt(before, k)), (k => LastAt(used, k));
      LastUsesRanked(before);
      assert used == before + [last];
      LastUsesAppend(before, [last]);
      assert LastUses([last]) == [last];
      var others := Without(LastUses(before), [last]);
      var ks := set k | k in LastUses(before) && k != last;
      WithoutIsKeep(LastUses(before), [last], ks);
      KeepSorted(LastUses(before), ks, was, |before|);
      PromoteSorted(others, Some(last), was, rank, |before|);
    }
  }

  lemma {:induction false} WithoutIsKeep(o: seq<Key>, used: seq<Key>, ks: set<Key>)
    requires forall k :: k in o ==> (k in ks <==> k !in used)
    ensures Without(o, used) == Keep(o, ks)
  {
    if o != [] {
      WithoutIsKeep(o[1..], used, ks);
    }
  }

  /** A store that began empty has its keys in the order of their last use. */
  lemma SortedByLastUse(c: Cache, used: seq<Key>)
    requires Ordered(EMPTY, c, used)
    ensures SortedBy(c.order, k => LastAt(used, k), |used|)
  {
    LastUsesRanked(used);
    assert ByUse([], used) == LastUses(used);
    KeepSorted(LastUses(used), c.entries.Keys, k => LastAt(used, k), |used|);
  }

  lemma RankedSplit(o: seq<Key>, n: nat, rank: Key -> int, bound: int, x: Key, y: Key)
    requires SortedBy(o, rank, bound) && n <= |o| && x in o[..n] && y in o[n..]
    ensures rank(x) < rank(y)
  {
    var i :| 0 <= i < n && o[i] == x;
    var j :| n <= j < |o| && o[j] == y;
  }

  lemma VictimsBeforeRest(q: Cache, cfg: Config, x: Key, y: Key)
    requires WF(q) && x in EvictLoop(q, cfg).victims && y in EvictLoop(q, cfg).cache.entries
    ensures var n := |EvictLoop(q, cfg).victims|; n <= |q.order| && x in q.order[..n] && y in q.order[n..]
  {
    ShortestSufficientPrefix(q, cfg);
  }

  lemma EvictedCameFirst(p: Cache, cfg: Config, now: int, rank: Key -> int, bound: int, x: Key, y: Key)
    requires WF(p) && SortedBy(p.order, rank, bound)
    requires x in Evict(p, cfg, now).victims && y in Evict(p, cfg, now).cache.entries
    ensures rank(x) < rank(y)
  {
    var q := Prune(p, now);
    RestrictWF(p, LiveKeys(p, now));
    KeepSorted(p.order, LiveKeys(p, now), rank, bound);
    VictimsBeforeRest(q, cfg, x, y);
    RankedSplit(q.order, |EvictLoop(q, cfg).victims|, rank, bound, x, y);
  }

  /** The store on which a command that writes one key runs its eviction round. */
  ghost predicate EvictsFrom(c: Cache, p: Cache, cfg: Config, cmd: Command, eff: Effect, now: int) {
    && WF(p) && UsesKeys(c, p, cmd, now)
    && eff.cache == Evict(p, cfg, now).cache && eff.evicted == Evict(p, cfg, now).victims
  }

  lemma PutOrdered(c: Cache, d: Cache, k: Key, v: Bytes, deadline: Option<int>, u: seq<Key>, now: int)
    requires WF(d) && Ordered(c, d, u) && (u == [] || u == [k])
    ensures var p := Put(d, k, NewEntry(k, v, deadline)); WF(p) && Ordered(c, p, [k])
  {
    PutWF(d, k, NewEntry(k, v, deadline));
    SetOrdered(d, UNLIMITED, k, v, deadline, now);
    UsedAgain(c, d, Put(d, k, NewEntry(k, v, deadline)), k, u, [k]);
  }

  lemma OneUsed(c: Cache, p: Cache, cfg: Config, cmd: Command, k: Key, eff: Effect, now: int)
    requires WF(p) && Ordered(c, p, [k]) && UsedBy(On(c, now), cmd) == [k]
    requires eff.cache == Evict(p, cfg, now).cache && eff.evicted == Evict(p, cfg, now).victims
    ensures EvictsFrom(c, p, cfg, cmd, eff, now)
  {
  }

  lemma SetEvictsFrom(c: Cache, cfg: Config, o: SetOptions, now: int) returns (p: Cache)
    requires WF(c) && ExecSet(c, cfg, o, now).evicted != []
    ensures EvictsFrom(c, p, cfg, CSet(o), ExecSet(c, cfg, o, now), now)
  {
    var d := Probed(c, o, now);
    SetWrites(c, cfg, o, now);
    ProbedThere(c, o, o.key, now);
    ProbedOrdered(c, o, now);
    PutOrdered(c, d, o.key, o.value, Deadline(o.ttl, now), if o.key in On(c, now) then [o.key] else [], now);
    p := Put(d, o.key, NewEntry(o.key, o.value, Deadline(o.ttl, now)));
    OneUsed(c, p, cfg, CSet(o), o.key, ExecSet(c, cfg, o, now), now);
  }

  lemma IncrEvictsFrom(c: Cache, cfg: Config, k: Key, delta: int, now: int) returns (p: Cache)
    requires WF(c) && ExecIncr(c, cfg, k, delta, now).evicted != []
    ensures EvictsFrom(c, p, cfg, CIncrBy(k, delta), ExecIncr(c, cfg, k, delta, now), now)
  {
    IncrWrites(c, cfg, k, delta, now);
    DropOrdered(c, k, now);
    p := CountEvictsFrom(c, cfg, k, delta, DropIfExpired(c, k, now), There(c, k, now), ExecIncr(c, cfg, k, delta, now), now);
  }

  lemma CountEvictsFrom(c: Cache, cfg: Config, k: Key, delta: int, d: Cache, h: Option<Held>, eff: Effect, now: int)
    returns (p: Cache)
    requires WF(d) && Ordered(c, d, []) && h == At(On(c, now), k) && SumAt(h, delta).Some?
    requires var text, kept := IntText(SumAt(h, delta).value), if h.Some? then h.value.deadline else None;
             var r := Evict(Put(d, k, NewEntry(k, text, kept)), cfg, now);
             eff.cache == r.cache && eff.evicted == r.victims
    ensures EvictsFrom(c, p, cfg, CIncrBy(k, delta), eff, now)
  {
    var text, kept := IntText(SumAt(h, delta).value), if h.Some? then h.value.deadline else None;
    PutOrdered(c, d, k, text, kept, [], now);
    p := Put(d, k, NewEntry(k, text, kept));
    OneUsed(c, p, cfg, CIncrBy(k, delta), k, eff, now);
  }

  /**
   * Least recently used, for clients: after any run of requests from an empty store, every key that a SET
   * or an increment evicts was last used before every key that stays.
   */
  lemma LeastRecentlyUsedGo(cfg: Config, run: seq<Request>, raw: Record, cmd: Command, now: int, x: Key, y: Key)
    requires Says(raw, cmd) && (cmd.CSet? || cmd.CIncrBy?)
    requires var eff := Dispatch(PrimaryAfter(EMPTY, cfg, run), cfg, raw, now);
             x in eff.evicted && y in eff.cache.entries
    ensures var used := UsedAlong(EMPTY, cfg, run + [Request(raw, now)]); LastAt(used, x) < LastAt(used, y)
  {
    var d, all := PrimaryAfter(EMPTY, cfg, run), run + [Request(raw, now)];
    var used := UsedAlong(EMPTY, cfg, all);
    assert all[..|all| - 1] == run;
    Understood(raw, cmd, d, cfg, now);
    RunOrdered(EMPTY, cfg, run);
    PrimaryWF(EMPTY, cfg, run);
    var p;
    if cmd.CSet? {
      p := SetEvictsFrom(d, cfg, cmd.opts, now);
    } else {
      p := IncrEvictsFrom(d, cfg, cmd.key, cmd.delta, now);
    }
    OrderedThen(EMPTY, d, p, UsedAlong(EMPTY, cfg, run), UsedBy(On(d, now), cmd));
    SortedByLastUse(p, used);
    EvictedCameFirst(p, cfg, now, k => LastAt(used, k), |used|, x, y);
  }
}

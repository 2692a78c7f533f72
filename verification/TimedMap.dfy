/**
 * The reference that every store is measured against: a bare map from keys to values with deadlines, with
 * no order, no memory and no lazy removal. What a command leaves at a key depends on what was at that key
 * alone, and what it answers depends on what was in the map; the store agrees with both under any cap,
 * except that keys it evicted are gone.
 */
module TimedMap {
  import opened Base
  import opened Decimal
  import opened CacheModel
  import opened SweepLaws
  import opened LruLaws
  import opened Counters
  import opened Commands
  import opened TimedReplay
  import Resp

  datatype Held = Held(value: Bytes, deadline: Option<int>)

  type Shelf = map<Key, Held>

  predicate NotYet(now: int, deadline: Option<int>) {
    deadline.None? || now < deadline.value
  }

  /** What a store holds at a moment, whether or not expired entries are still lying about. */
  function On(c: Cache, now: int): Shelf {
    map k | k in c.entries && NotYet(now, c.entries[k].deadline) :: Held(c.entries[k].value, c.entries[k].deadline)
  }

  function At(m: Shelf, k: Key): Option<Held> {
    if k in m then Some(m[k]) else None
  }

  /** What the store holds at one key. */
  function There(c: Cache, k: Key, now: int): Option<Held> {
    At(On(c, now), k)
  }

  /** What is left of something held when the clock reads `now`. */
  function Lasting(h: Option<Held>, now: int): Option<Held> {
    if h.Some? && NotYet(now, h.value.deadline) then h else None
  }

  /* ----- what a command leaves at a key ----- */

  /** The value of the last pair with this key. */
  function LastPair(pairs: seq<(Key, Bytes)>, k: Key): Option<Bytes> {
    if pairs == [] then None
    else if pairs[|pairs| - 1].0 == k then Some(pairs[|pairs| - 1].1)
    else LastPair(pairs[..|pairs| - 1], k)
  }

  lemma {:induction false} LastPairIs(pairs: seq<(Key, Bytes)>, k: Key, i: nat)
    requires i < |pairs| && pairs[i].0 == k && forall j :: i < j < |pairs| ==> pairs[j].0 != k
    ensures LastPair(pairs, k) == Some(pairs[i].1)
    decreases |pairs|
  {
    if i < |pairs| - 1 {
      LastPairIs(pairs[..|pairs| - 1], k, i);
    }
  }

  lemma {:induction false} LastPairNone(pairs: seq<(Key, Bytes)>, k: Key)
    requires forall i :: 0 <= i < |pairs| ==> pairs[i].0 != k
    ensures LastPair(pairs, k) == None
  {
    if pairs != [] {
      LastPairNone(pairs[..|pairs| - 1], k);
    }
  }

  /** The integer a key stands for: zero if it is absent, nothing if its text is no 64-bit integer. */
  function CountAt(h: Option<Held>): Option<int> {
    if h.None? then Some(0)
    else match ParseInt(h.value.value)
      case Some(n) => if -9223372036854775808 <= n <= 9223372036854775807 then Some(n) else None
      case None => None
  }

  /** The sum, if there is one and it has 64 bits. */
  function SumAt(h: Option<Held>, delta: int): Option<int> {
    match CountAt(h)
    case Some(n) => if -9223372036854775808 <= n + delta <= 9223372036854775807 then Some(n + delta) else None
    case None => None
  }

  /** The conditions of a SET hold. */
  predicate Applies(o: SetOptions, h: Option<Held>) {
    (o.nx ==> h.None?) && (o.xx ==> h.Some?)
  }

  function KeyAfter(h: Option<Held>, cmd: Command, k: Key, now: int): Option<Held> {
    match cmd
    case CSet(o) =>
      if o.key == k && Applies(o, h)
      then Lasting(Some(Held(o.value, if o.ttl.Some? then Some(now + o.ttl.value) else None)), now)
      else h
    case CMset(pairs) =>
      (match LastPair(pairs, k)
       case Some(v) => Some(Held(v, None))
       case None => h)
    case CDel(keys) => if k in keys then None else h
    case CIncrBy(x, delta) =>
      if x == k && SumAt(h, delta).Some?
      then Some(Held(IntText(SumAt(h, delta).value), if h.Some? then h.value.deadline else None))
      else h
    case CExpire(x, ms) => if x == k && h.Some? then Lasting(Some(Held(h.value.value, Some(now + ms))), now) else h
    case CExpireAt(x, d) => if x == k && h.Some? then Lasting(Some(Held(h.value.value, Some(d))), now) else h
    case CPersist(x) => if x == k && h.Some? then Some(Held(h.value.value, None)) else h
    case CFlush => None
    case _ => h
  }

  /**
   * At key `k` the command left what the reference says, or nothing because it evicted the key; only an
   * MSET can leave a key that it evicted.
   */
  ghost predicate LeftAt(c: Cache, cmd: Command, eff: Effect, k: Key, now: int) {
    var left, want := There(eff.cache, k, now), KeyAfter(There(c, k, now), cmd, k, now);
    && (left == want || (left.None? && k in eff.evicted))
    && (k in eff.evicted && !cmd.CMset? ==> left.None?)
  }

  lemma ThereIs(c: Cache, k: Key, now: int)
    ensures There(c, k, now) ==
              if IsLive(c, k, now) then Some(Held(c.entries[k].value, c.entries[k].deadline)) else None
  {
  }

  lemma VictimIsGone(q: Cache, cfg: Config, k: Key)
    requires WF(q) && k in EvictLoop(q, cfg).victims
    ensures k !in EvictLoop(q, cfg).cache.entries
  {
    ShortestSufficientPrefix(q, cfg);
    EvictLoopWF(q, cfg);
    InOnePart(q.order, |EvictLoop(q, cfg).victims|, k);
  }

  lemma InOnePart(o: seq<Key>, n: nat, k: Key)
    requires Distinct(o) && n <= |o| && k in o[..n]
    ensures k !in o[n..]
  {
    var i :| 0 <= i < n && o[i] == k;
    forall j | 0 <= j < |o[n..]| ensures o[n..][j] != k {
      assert o[n..][j] == o[n + j];
    }
  }

  lemma EvictedNothing(p: Cache, cfg: Config, k: Key, now: int)
    requires WF(p) && k in Evict(p, cfg, now).victims
    ensures There(Evict(p, cfg, now).cache, k, now) == None
  {
    RestrictWF(p, LiveKeys(p, now));
    VictimIsGone(Prune(p, now), cfg, k);
  }

  /** An eviction round keeps what is there, except for its victims, of which nothing is there. */
  lemma EvictThere(p: Cache, cfg: Config, k: Key, now: int)
    requires WF(p)
    ensures var r := Evict(p, cfg, now);
            There(r.cache, k, now) == if k in r.victims then None else There(p, k, now)
  {
    var r := Evict(p, cfg, now);
    if k in r.victims {
      EvictedNothing(p, cfg, k, now);
    } else {
      EvictKeepsEntries(p, cfg, now);
      if IsLive(p, k, now) {
        EvictKeeps(p, cfg, k, now);
      }
    }
  }

  lemma PutThere(c: Cache, k: Key, e: Entry, x: Key, now: int)
    ensures There(Put(c, k, e), x, now) ==
              if x == k then Lasting(Some(Held(e.value, e.deadline)), now) else There(c, x, now)
  {
  }

  lemma WriteThere(c: Cache, cfg: Config, k: Key, v: Bytes, deadline: Option<int>, x: Key, now: int)
    requires WF(c)
    ensures var r := Evict(Put(c, k, NewEntry(k, v, deadline)), cfg, now);
            There(r.cache, x, now) ==
              if x in r.victims then None
              else if x == k then Lasting(Some(Held(v, deadline)), now) else There(c, x, now)
  {
    var e := NewEntry(k, v, deadline);
    PutWF(c, k, e);
    PutThere(c, k, e, x, now);
    EvictThere(Put(c, k, e), cfg, x, now);
  }

  lemma GetThere(c: Cache, k: Key, x: Key, now: int)
    ensures There(DoGet(c, k, now).cache, x, now) == There(c, x, now)
  {
  }

  /** One write and its eviction round, after steps that changed nothing of what was there. */
  lemma LeftByWrite(c: Cache, d: Cache, cfg: Config, cmd: Command, eff: Effect, x: Key, v: Bytes,
                    deadline: Option<int>, k: Key, now: int)
    requires WF(d) && There(d, k, now) == There(c, k, now)
    requires var r := Evict(Put(d, x, NewEntry(x, v, deadline)), cfg, now);
             eff.cache == r.cache && eff.evicted == r.victims
    requires KeyAfter(There(c, k, now), cmd, k, now) ==
             if k == x then Lasting(Some(Held(v, deadline)), now) else There(c, k, now)
    ensures LeftAt(c, cmd, eff, k, now)
  {
    WriteThere(d, cfg, x, v, deadline, k, now);
  }

  /** The cache after the lookups of a SET. */
  function Probed(c: Cache, o: SetOptions, now: int): Cache {
    var first := DoGet(c, o.key, now).cache;
    if o.get then DoGet(first, o.key, now).cache else first
  }

  lemma ProbedThere(c: Cache, o: SetOptions, k: Key, now: int)
    requires WF(c)
    ensures WF(Probed(c, o, now)) && There(Probed(c, o, now), k, now) == There(c, k, now)
  {
    var first := DoGet(c, o.key, now).cache;
    GetThere(c, o.key, k, now);
    GetThere(first, o.key, k, now);
    GetWF(c, o.key, now);
    GetWF(first, o.key, now);
  }

  lemma SetWrites(c: Cache, cfg: Config, o: SetOptions, now: int)
    ensures var eff := ExecSet(c, cfg, o, now); var d := Probed(c, o, now);
            if Applies(o, There(c, o.key, now)) then
              var r := Evict(Put(d, o.key, NewEntry(o.key, o.value, Deadline(o.ttl, now))), cfg, now);
              eff.cache == r.cache && eff.evicted == r.victims && eff.writes == 1
            else eff.cache == d && eff.evicted == [] && eff.writes == 0
  {
    ThereIs(c, o.key, now);
  }

  lemma SetLeftAt(c: Cache, d: Cache, cfg: Config, o: SetOptions, eff: Effect, k: Key, now: int)
    requires WF(d) && There(d, k, now) == There(c, k, now)
    requires if Applies(o, There(c, o.key, now)) then
               var r := Evict(Put(d, o.key, NewEntry(o.key, o.value, Deadline(o.ttl, now))), cfg, now);
               eff.cache == r.cache && eff.evicted == r.victims
             else eff.cache == d && eff.evicted == []
    ensures LeftAt(c, CSet(o), eff, k, now)
  {
    if Applies(o, There(c, o.key, now)) {
      LeftByWrite(c, d, cfg, CSet(o), eff, o.key, o.value, Deadline(o.ttl, now), k, now);
    }
  }

  lemma SetLeft(c: Cache, cfg: Config, o: SetOptions, k: Key, now: int)
    requires WF(c)
    ensures LeftAt(c, CSet(o), ExecSet(c, cfg, o, now), k, now)
  {
    ProbedThere(c, o, k, now);
    SetWrites(c, cfg, o, now);
    SetLeftAt(c, Probed(c, o, now), cfg, o, ExecSet(c, cfg, o, now), k, now);
  }

  lemma DropThere(c: Cache, k: Key, x: Key, now: int)
    ensures There(DropIfExpired(c, k, now), x, now) == There(c, x, now)
  {
  }

  lemma CountIsStored(c: Cache, k: Key, now: int)
    ensures var d := DropIfExpired(c, k, now);
            There(c, k, now) == if k in d.entries then Some(Held(d.entries[k].value, d.entries[k].deadline)) else None
  {
  }

  /** The sum as the store computes it. */
  lemma CountedIsSum(h: Option<Held>, delta: int)
    ensures Counted(if h.Some? then Some(h.value.value) else None, delta) ==
              if CountAt(h).None? then Rejected(NotAnInteger)
              else if SumAt(h, delta).None? then Rejected(Overflow) else Number(SumAt(h, delta).value)
  {
  }

  lemma IncrOutcome(c: Cache, cfg: Config, k: Key, delta: int, now: int)
    requires WF(c)
    ensures var out := DoIncr(c, cfg, k, delta, now); var h := There(c, k, now); var d := DropIfExpired(c, k, now);
            WF(d) &&
            (if CountAt(h).None? then out == Out(d, Rejected(NotAnInteger), [])
             else if SumAt(h, delta).None? then out == Out(d, Rejected(Overflow), [])
             else
               var n := SumAt(h, delta).value;
               var r := Evict(Put(d, k, NewEntry(k, IntText(n), if h.Some? then h.value.deadline else None)), cfg, now);
               out == Out(r.cache, Number(n), r.victims))
  {
    DropIfExpiredWF(c, k, now);
    CountIsStored(c, k, now);
    CountedIsSum(There(c, k, now), delta);
  }

  lemma IncrEffect(c: Cache, cfg: Config, k: Key, delta: int, now: int)
    ensures var out, eff := DoIncr(c, cfg, k, delta, now), ExecIncr(c, cfg, k, delta, now);
            eff.cache == out.cache && eff.evicted == out.evicted
  {
  }

  lemma IncrWrites(c: Cache, cfg: Config, k: Key, delta: int, now: int)
    requires WF(c)
    ensures var eff, h, d := ExecIncr(c, cfg, k, delta, now), There(c, k, now), DropIfExpired(c, k, now);
            WF(d) &&
            if SumAt(h, delta).Some? then
              var text, kept := IntText(SumAt(h, delta).value), if h.Some? then h.value.deadline else None;
              var r := Evict(Put(d, k, NewEntry(k, text, kept)), cfg, now);
              eff.cache == r.cache && eff.evicted == r.victims
            else eff.cache == d && eff.evicted == []
  {
    IncrOutcome(c, cfg, k, delta, now);
    IncrEffect(c, cfg, k, delta, now);
  }

  lemma StillThere(c: Cache, k: Key, now: int)
    ensures There(c, k, now).Some? ==> Lasting(There(c, k, now), now) == There(c, k, now)
  {
  }

  lemma IncrLeft(c: Cache, cfg: Config, x: Key, delta: int, k: Key, now: int)
    requires WF(c)
    ensures LeftAt(c, CIncrBy(x, delta), ExecIncr(c, cfg, x, delta, now), k, now)
  {
    var h, d := There(c, x, now), DropIfExpired(c, x, now);
    IncrWrites(c, cfg, x, delta, now);
    DropThere(c, x, k, now);
    if SumAt(h, delta).Some? {
      StillThere(c, x, now);
      var kept := if h.Some? then h.value.deadline else None;
      LeftByWrite(c, d, cfg, CIncrBy(x, delta), ExecIncr(c, cfg, x, delta, now), x, IntText(SumAt(h, delta).value), kept,
                  k, now);
    }
  }

  lemma {:induction false} LastPairFirst(pairs: seq<(Key, Bytes)>, k: Key)
    requires pairs != []
    ensures LastPair(pairs, k) ==
              if LastPair(pairs[1..], k).Some? then LastPair(pairs[1..], k)
              else if pairs[0].0 == k then Some(pairs[0].1) else None
    decreases |pairs|
  {
    var n := |pairs| - 1;
    if n > 0 && pairs[n].0 != k {
      LastPairFirst(pairs[..n], k);
      assert pairs[1..][..n - 1] == pairs[..n][1..];
    }
  }

  lemma {:induction false} MsetLeft(c: Cache, cfg: Config, pairs: seq<(Key, Bytes)>, k: Key, now: int)
    requires WF(c)
    ensures LeftAt(c, CMset(pairs), ExecMset(c, cfg, pairs, now), k, now)
    decreases |pairs|
  {
    if pairs != [] {
      var x, v := pairs[0].0, pairs[0].1;
      var out := DoSet(c, cfg, x, v, None, now);
      WriteThere(c, cfg, x, v, None, k, now);
      WriteWF(c, cfg, x, v, None, now);
      MsetLeft(out.cache, cfg, pairs[1..], k, now);
      LastPairFirst(pairs, k);
    }
  }

  lemma {:induction false} DelLeft(c: Cache, keys: seq<Key>, k: Key, now: int)
    ensures There(ExecDel(c, keys, now).0, k, now) == if k in keys then None else There(c, k, now)
    decreases |keys|
  {
    if keys != [] {
      DelLeft(DoDelete(c, keys[0], now).cache, keys[1..], k, now);
    }
  }

  lemma {:induction false} MgetThere(c: Cache, keys: seq<Key>, k: Key, now: int)
    ensures There(ExecMget(c, keys, now).0, k, now) == There(c, k, now)
    decreases |keys|
  {
    if keys != [] {
      GetThere(c, keys[0], k, now);
      MgetThere(DoGet(c, keys[0], now).cache, keys[1..], k, now);
    }
  }

  lemma ReadLeft(c: Cache, cfg: Config, cmd: Command, k: Key, now: int)
    requires !IsWrite(cmd)
    ensures LeftAt(c, cmd, Exec(c, cfg, cmd, now), k, now)
  {
    match cmd {
      case CGet(x) => GetThere(c, x, k, now);
      case CMget(keys) => MgetThere(c, keys, k, now);
      case CExists(keys) => MgetThere(c, keys, k, now);
      case CTtl(x) => DropThere(c, x, k, now);
      case _ =>
    }
  }

  lemma ExpiryLeft(c: Cache, cfg: Config, cmd: Command, k: Key, now: int)
    requires cmd.CExpire? || cmd.CExpireAt? || cmd.CPersist?
    ensures LeftAt(c, cmd, Exec(c, cfg, cmd, now), k, now)
  {
    DropThere(c, cmd.key, k, now);
    ThereIs(c, cmd.key, now);
  }

  /** Every command, under any cap, at every key. */
  lemma CommandLeft(c: Cache, cfg: Config, cmd: Command, k: Key, now: int)
    requires WF(c)
    ensures LeftAt(c, cmd, Exec(c, cfg, cmd, now), k, now)
  {
    match cmd {
      case CSet(o) => SetLeft(c, cfg, o, k, now);
      case CMset(pairs) => MsetLeft(c, cfg, pairs, k, now);
      case CDel(keys) => DelLeft(c, keys, k, now);
      case CIncrBy(x, delta) => IncrLeft(c, cfg, x, delta, k, now);
      case CFlush =>
      case CExpire(_, _) => ExpiryLeft(c, cfg, cmd, k, now);
      case CExpireAt(_, _) => ExpiryLeft(c, cfg, cmd, k, now);
      case CPersist(_) => ExpiryLeft(c, cfg, cmd, k, now);
      case _ => ReadLeft(c, cfg, cmd, k, now);
    }
  }

  /* ----- what a command answers ----- */

  function ValueAt(h: Option<Held>): Value {
    if h.Some? then Resp.Bulk(h.value.value) else Resp.Nil
  }

  /** The keys named that are there, each once. */
  function Named(keys: seq<Key>, m: Shelf): set<Key> {
    set k | k in keys && k in m
  }

  /** The positions of keys that are there. */
  function Hits(keys: seq<Key>, m: Shelf): set<nat> {
    set i: nat | i < |keys| && keys[i] in m
  }

  /** The keys that are there and match the pattern, if one is given. */
  function Matching(m: Shelf, cfg: Config, pattern: Option<Bytes>): set<Key> {
    set k | k in m && (pattern.Some? ==> cfg.glob(k, pattern.value))
  }

  /** Seconds left, rounded up; -1 for ever, -2 for a key that is not there. */
  predicate SecondsLeft(h: Option<Held>, now: int, n: int) {
    if h.None? then n == -2
    else if h.value.deadline.None? then n == -1
    else 1000 * (n - 1) < h.value.deadline.value - now <= 1000 * n
  }

  /**
   * The answer of a command to a map that holds `m`; `order` is the order of use of the store that holds it,
   * which KEYS alone shows.
   */
  ghost predicate Answered(m: Shelf, order: seq<Key>, cfg: Config, cmd: Command, now: int, reply: Value) {
    match cmd
    case CSet(o) =>
      reply == if o.get then ValueAt(At(m, o.key))
               else if Applies(o, At(m, o.key)) then Resp.Simple("OK") else Resp.Nil
    case CMset(_) => reply == Resp.Simple("OK")
    case CFlush => reply == Resp.Simple("OK")
    case CDel(keys) => reply == Resp.Int(|Named(keys, m)|)
    case CIncrBy(k, delta) =>
      reply == (match SumAt(At(m, k), delta)
                case Some(n) => Resp.Int(n)
                case None =>
                  if CountAt(At(m, k)).None? then Resp.Error("ERR " + "value is not an integer or out of range")
                  else Resp.Error("ERR increment or decrement would overflow"))
    case CExpire(k, _) => reply == Resp.Int(if k in m then 1 else 0)
    case CExpireAt(k, _) => reply == Resp.Int(if k in m then 1 else 0)
    case CPersist(k) => reply == Resp.Int(if k in m && m[k].deadline.Some? then 1 else 0)
    case CGet(k) => reply == ValueAt(At(m, k))
    case CMget(keys) =>
      reply.Arr? && |reply.items| == |keys| && forall i :: 0 <= i < |keys| ==> reply.items[i] == ValueAt(At(m, keys[i]))
    case CExists(keys) => reply == Resp.Int(|Hits(keys, m)|)
    case CTtl(k) => reply.Int? && SecondsLeft(At(m, k), now, reply.n)
    case CKeys(pattern) =>
      reply.Arr? && |reply.items| == |Keep(order, Matching(m, cfg, pattern))| &&
      forall i :: 0 <= i < |reply.items| ==> reply.items[i] == Resp.Bulk(Keep(order, Matching(m, cfg, pattern))[i])
    case CDbsize => reply == Resp.Int(|m|)
    case CPing(text) => reply == if text.Some? then Resp.Bulk(text.value) else Resp.Simple("PONG")
  }

  lemma LookedThere(c: Cache, k: Key, now: int)
    ensures Looked(DoGet(c, k, now).reply) == ValueAt(There(c, k, now))
    ensures DoGet(c, k, now).reply.Found? <==> There(c, k, now).Some?
  {
  }

  lemma SetAnswer(c: Cache, cfg: Config, o: SetOptions, now: int)
    ensures Answered(On(c, now), c.order, cfg, CSet(o), now, ExecSet(c, cfg, o, now).reply)
  {
    var first := DoGet(c, o.key, now).cache;
    LookedThere(c, o.key, now);
    LookedThere(first, o.key, now);
    GetThere(c, o.key, o.key, now);
  }

  lemma IncrAnswer(c: Cache, cfg: Config, k: Key, delta: int, now: int)
    requires WF(c)
    ensures Answered(On(c, now), c.order, cfg, CIncrBy(k, delta), now, ExecIncr(c, cfg, k, delta, now).reply)
  {
    IncrOutcome(c, cfg, k, delta, now);
  }

  lemma OnDeleted(c: Cache, k: Key, now: int)
    ensures On(DoDelete(c, k, now).cache, now) == On(c, now) - {k}
    ensures DoDelete(c, k, now).reply == Flag(k in On(c, now))
  {
  }

  lemma NamedFirst(keys: seq<Key>, m: Shelf)
    requires keys != []
    ensures |Named(keys, m)| == |Named(keys[1..], m - {keys[0]})| + if keys[0] in m then 1 else 0
  {
    var all, rest := Named(keys, m), Named(keys[1..], m - {keys[0]});
    assert keys[0] !in rest;
    assert all == if keys[0] in m then rest + {keys[0]} else rest;
  }

  /** DEL counts each key once, however often it is named. */
  lemma {:induction false} DelCounts(c: Cache, keys: seq<Key>, now: int)
    ensures ExecDel(c, keys, now).1 == |Named(keys, On(c, now))|
    decreases |keys|
  {
    if keys == [] {
      assert Named(keys, On(c, now)) == {};
    } else {
      OnDeleted(c, keys[0], now);
      DelCounts(DoDelete(c, keys[0], now).cache, keys[1..], now);
      NamedFirst(keys, On(c, now));
    }
  }

  lemma {:induction false} MgetAnswer(c: Cache, keys: seq<Key>, now: int)
    ensures var vs := ExecMget(c, keys, now).1;
            |vs| == |keys| && forall i :: 0 <= i < |keys| ==> vs[i] == ValueAt(There(c, keys[i], now))
    decreases |keys|
  {
    if keys != [] {
      var d := DoGet(c, keys[0], now).cache;
      LookedThere(c, keys[0], now);
      MgetAnswer(d, keys[1..], now);
      forall i | 0 < i < |keys| ensures ExecMget(c, keys, now).1[i] == ValueAt(There(c, keys[i], now)) {
        GetThere(c, keys[0], keys[i], now);
        assert keys[1..][i - 1] == keys[i];
      }
    }
  }

  lemma {:induction false} CountFoundLast(values: seq<Value>, v: Value)
    ensures CountFound(values + [v]) == CountFound(values) + (if v.Bulk? then 1 else 0)
  {
    if values == [] {
      assert [v][1..] == [] && values + [v] == [v];
    } else {
      assert (values + [v])[1..] == values[1..] + [v];
      CountFoundLast(values[1..], v);
    }
  }

  lemma HitsLast(keys: seq<Key>, m: Shelf)
    requires keys != []
    ensures var n := |keys| - 1; |Hits(keys, m)| == |Hits(keys[..n], m)| + (if keys[n] in m then 1 else 0)
  {
    var n: nat := |keys| - 1;
    var before, all := Hits(keys[..n], m), Hits(keys, m);
    assert n !in before;
    assert all == if keys[n] in m then before + {n} else before;
  }

  /** EXISTS counts positions, so a key named twice counts twice. */
  lemma {:induction false} ExistsCounts(keys: seq<Key>, m: Shelf, values: seq<Value>)
    requires |values| == |keys| && forall i :: 0 <= i < |keys| ==> values[i] == ValueAt(At(m, keys[i]))
    ensures CountFound(values) == |Hits(keys, m)|
    decreases |keys|
  {
    if keys == [] {
      assert Hits(keys, m) == {};
    } else {
      var n := |keys| - 1;
      ExistsCounts(keys[..n], m, values[..n]);
      assert values == values[..n] + [values[n]];
      CountFoundLast(values[..n], values[n]);
      HitsLast(keys, m);
    }
  }

  lemma {:induction false} ListedIsKeep(o: seq<Key>, cfg: Config, pattern: Option<Bytes>, ks: set<Key>)
    requires forall k :: k in o ==> (k in ks <==> (pattern.Some? ==> cfg.glob(k, pattern.value)))
    ensures Listed(o, cfg, pattern) == Keep(o, ks)
  {
    if o != [] {
      ListedIsKeep(o[1..], cfg, pattern, ks);
    }
  }

  lemma {:induction false} BulksAt(args: seq<Bytes>)
    ensures forall i :: 0 <= i < |args| ==> Resp.AsBulks(args)[i] == Resp.Bulk(args[i])
  {
    if args != [] {
      BulksAt(args[1..]);
    }
  }

  lemma KeysAnswer(c: Cache, cfg: Config, pattern: Option<Bytes>, now: int)
    ensures Answered(On(c, now), c.order, cfg, CKeys(pattern), now, Exec(c, cfg, CKeys(pattern), now).reply)
  {
    var live, ks := LiveKeys(c, now), Matching(On(c, now), cfg, pattern);
    ListedIsKeep(Prune(c, now).order, cfg, pattern, ks);
    KeepKeep(c.order, live, ks);
    assert live * ks == ks;
    BulksAt(Keep(c.order, ks));
  }

  lemma {:induction false} DistinctCount(o: seq<Key>)
    requires Distinct(o)
    ensures |set k | k in o| == |o|
  {
    if o == [] {
      assert (set k | k in o) == {};
    } else {
      var n := |o| - 1;
      DistinctCount(o[..n]);
      assert o == o[..n] + [o[n]];
      assert (set k | k in o) == (set k | k in o[..n]) + {o[n]};
    }
  }

  lemma DbsizeAnswer(c: Cache, now: int)
    requires WF(c)
    ensures |Prune(c, now).order| == |On(c, now)|
  {
    var p := Prune(c, now);
    RestrictWF(c, LiveKeys(c, now));
    DistinctCount(p.order);
    assert (set k | k in p.order) == On(c, now).Keys;
  }

  lemma TtlSeconds(c: Cache, cfg: Config, k: Key, now: int)
    ensures Answered(On(c, now), c.order, cfg, CTtl(k), now, TtlAnswer(DoTtl(c, k, now).reply))
  {
    ThereIs(c, k, now);
  }

  /**
   * Whatever the cap, and however many expired entries the store still has: the answer to a command is
   * the reference's answer to what is there.
   */
  lemma CommandAnswered(c: Cache, cfg: Config, cmd: Command, now: int)
    requires WF(c)
    ensures Answered(On(c, now), c.order, cfg, cmd, now, Exec(c, cfg, cmd, now).reply)
  {
    match cmd {
      case CSet(o) => SetAnswer(c, cfg, o, now);
      case CMset(pairs) => MsetReply(c, cfg, pairs, now);
      case CDel(keys) => DelCounts(c, keys, now);
      case CIncrBy(k, delta) => IncrAnswer(c, cfg, k, delta, now);
      case CGet(k) => LookedThere(c, k, now);
      case CMget(keys) => MgetAnswer(c, keys, now);
      case CExists(keys) =>
        MgetAnswer(c, keys, now);
        ExistsCounts(keys, On(c, now), ExecMget(c, keys, now).1);
      case CKeys(pattern) => KeysAnswer(c, cfg, pattern, now);
      case CDbsize => DbsizeAnswer(c, now);
      case CTtl(k) => TtlSeconds(c, cfg, k, now);
      case _ =>
    }
  }

  /* ----- the operations of the store ----- */

  /** The row of a snapshot for something held. */
  function RowOf(k: Key, h: Held, now: int): Item {
    Item(k, h.value, if h.deadline.Some? then Some(h.deadline.value - now) else None)
  }

  /** The rows of a snapshot: what is there, in the order of use, with the time each has left. */
  ghost predicate Shows(m: Shelf, order: seq<Key>, rows: seq<Item>, now: int) {
    var keys := Keep(order, m.Keys);
    |rows| == |keys| && forall i :: 0 <= i < |keys| ==> rows[i] == RowOf(keys[i], m[keys[i]], now)
  }

  /** The answer of a store operation, from what is there. */
  ghost predicate Tells(m: Shelf, order: seq<Key>, op: Op, now: int, reply: Reply) {
    match op
    case Get(k) => reply == if k in m then Found(m[k].value) else Missing
    case Delete(k) => reply == Flag(k in m)
    case ExpireAt(k, _) => reply == Flag(k in m)
    case Persist(k) => reply == Flag(k in m && m[k].deadline.Some?)
    case Ttl(k) =>
      reply == if k !in m then Missing else if m[k].deadline.None? then Persistent
               else Remaining(m[k].deadline.value - now)
    case Incr(k, delta) =>
      reply == (match SumAt(At(m, k), delta)
                case Some(n) => Number(n)
                case None => Rejected(if CountAt(At(m, k)).None? then NotAnInteger else Overflow))
    case Keys => reply == KeyList(Keep(order, m.Keys))
    case Length => reply == Number(|m|)
    case Snapshot => reply.Items? && Shows(m, order, reply.items, now)
    case _ => reply == Done
  }

  lemma {:induction false} RowsOfLive(o: seq<Key>, m: map<Key, Entry>, now: int)
    requires forall k :: k in o ==> k in m && !Expired(m[k], now)
    ensures var rows := SnapshotRows(o, m, now);
            |rows| == |o| && forall i :: 0 <= i < |o| ==> rows[i] == Row(o[i], m[o[i]], now)
  {
    if o != [] {
      RowsOfLive(o[1..], m, now);
    }
  }

  lemma PrunedOrder(c: Cache, now: int)
    ensures Prune(c, now).order == Keep(c.order, On(c, now).Keys)
  {
    assert LiveKeys(c, now) == On(c, now).Keys;
  }

  lemma RowsShow(m: Shelf, order: seq<Key>, keys: seq<Key>, entries: map<Key, Entry>, rows: seq<Item>, now: int)
    requires keys == Keep(order, m.Keys) && |rows| == |keys|
    requires forall k :: k in keys ==> k in entries && k in m && m[k] == Held(entries[k].value, entries[k].deadline)
    requires forall i :: 0 <= i < |keys| ==> rows[i] == Row(keys[i], entries[keys[i]], now)
    ensures Shows(m, order, rows, now)
  {
  }

  lemma PrunedIsOn(c: Cache, now: int)
    ensures var p := Prune(c, now); forall k :: k in On(c, now) <==> k in p.entries && !Expired(p.entries[k], now)
    ensures var p := Prune(c, now);
            forall k :: k in p.entries ==> On(c, now)[k] == Held(p.entries[k].value, p.entries[k].deadline)
  {
  }

  lemma SnapshotTells(c: Cache, now: int)
    requires WF(c)
    ensures Shows(On(c, now), c.order, SnapshotRows(Prune(c, now).order, Prune(c, now).entries, now), now)
  {
    var o, m := Prune(c, now).order, Prune(c, now).entries;
    PrunedIsOn(c, now);
    PrunedOrder(c, now);
    RowsOfLive(o, m, now);
    RowsShow(On(c, now), c.order, o, m, SnapshotRows(o, m, now), now);
  }

  /** Every operation of the store answers from what is there, and under any cap. */
  lemma StepTells(c: Cache, cfg: Config, op: Op, now: int)
    requires WF(c)
    ensures Tells(On(c, now), c.order, op, now, Step(c, cfg, op, now).reply)
  {
    match op {
      case Incr(k, delta) => IncrOutcome(c, cfg, k, delta, now);
      case Keys => PrunedOrder(c, now);
      case Length => DbsizeAnswer(c, now);
      case Snapshot => SnapshotTells(c, now);
      case Get(k) => ThereIs(c, k, now);
      case _ =>
    }
  }

  /** What a store operation leaves at a key, evictions apart. */
  function OpAfter(h: Option<Held>, op: Op, k: Key, now: int): Option<Held> {
    match op
    case Set(x, v, ttl) =>
      if x == k then Lasting(Some(Held(v, if ttl.Some? then Some(now + ttl.value) else None)), now) else h
    case Incr(x, delta) => KeyAfter(h, CIncrBy(x, delta), k, now)
    case Delete(x) => if x == k then None else h
    case ExpireAt(x, d) => KeyAfter(h, CExpireAt(x, d), k, now)
    case Persist(x) => KeyAfter(h, CPersist(x), k, now)
    case Flush => None
    case _ => h
  }

  /** At key `k` the operation left what the reference says, or nothing if it evicted the key. */
  ghost predicate OpLeft(c: Cache, op: Op, out: Out, k: Key, now: int) {
    There(out.cache, k, now) == if k in out.evicted then None else OpAfter(There(c, k, now), op, k, now)
  }

  lemma SetOpLeaves(c: Cache, cfg: Config, x: Key, v: Bytes, ttl: Option<int>, k: Key, now: int)
    requires WF(c)
    ensures OpLeft(c, Set(x, v, ttl), DoSet(c, cfg, x, v, ttl, now), k, now)
  {
    WriteThere(c, cfg, x, v, Deadline(ttl, now), k, now);
  }

  lemma IncrOpLeaves(c: Cache, cfg: Config, x: Key, delta: int, k: Key, now: int)
    requires WF(c)
    ensures OpLeft(c, Incr(x, delta), DoIncr(c, cfg, x, delta, now), k, now)
  {
    IncrLeft(c, cfg, x, delta, k, now);
    IncrEffect(c, cfg, x, delta, now);
  }

  lemma ExpiryOpLeaves(c: Cache, cfg: Config, op: Op, k: Key, now: int)
    requires op.ExpireAt? || op.Persist?
    ensures OpLeft(c, op, Step(c, cfg, op, now), k, now)
  {
    DropThere(c, op.key, k, now);
    ThereIs(c, op.key, now);
  }

  lemma OtherOpLeaves(c: Cache, cfg: Config, op: Op, k: Key, now: int)
    requires !op.Set? && !op.Incr? && !op.ExpireAt? && !op.Persist?
    ensures OpLeft(c, op, Step(c, cfg, op, now), k, now)
  {
    match op {
      case Delete(x) => OnDeleted(c, x, now);
      case Get(x) => GetThere(c, x, k, now);
      case Ttl(x) => DropThere(c, x, k, now);
      case _ =>
    }
  }

  /** Every operation leaves at a key what the reference leaves, or nothing if it evicted it. */
  lemma StepLeaves(c: Cache, cfg: Config, op: Op, k: Key, now: int)
    requires WF(c)
    ensures OpLeft(c, op, Step(c, cfg, op, now), k, now)
  {
    match op {
      case Set(x, v, ttl) => SetOpLeaves(c, cfg, x, v, ttl, k, now);
      case Incr(x, delta) => IncrOpLeaves(c, cfg, x, delta, k, now);
      case ExpireAt(_, _) => ExpiryOpLeaves(c, cfg, op, k, now);
      case Persist(_) => ExpiryOpLeaves(c, cfg, op, k, now);
      case _ => OtherOpLeaves(c, cfg, op, k, now);
    }
  }
}

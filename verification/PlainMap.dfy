/**
 * The reference that a store without deadlines is measured against: a bare map from keys to values,
 * with no clock, no order and no memory.
 */
module PlainMap {
  import opened Base
  import opened Decimal
  import opened CacheModel
  import opened Commands
  import opened TimedReplay

  type Contents = map<Key, Bytes>

  function Values(c: Cache): Contents {
    map k | k in c.entries :: c.entries[k].value
  }

  ghost predicate TtlFree(c: Cache) {
    forall k :: k in c.entries ==> c.entries[k].deadline.None?
  }

  /** A command that sets no deadline. */
  predicate TtlFreeCommand(cmd: Command) {
    !cmd.CExpire? && !cmd.CExpireAt? && (cmd.CSet? ==> cmd.opts.ttl.None?)
  }

  predicate TtlFreeRecord(raw: Record) {
    Parse(raw).Ok? ==> TtlFreeCommand(Parse(raw).cmd)
  }

  function PlainMset(m: Contents, pairs: seq<(Key, Bytes)>): Contents
    decreases |pairs|
  {
    if pairs == [] then m else PlainMset(m[pairs[0].0 := pairs[0].1], pairs[1..])
  }

  function PlainIncr(m: Contents, k: Key, delta: int): Contents {
    var current := if k in m then StoredInt(m[k]) else Some(0);
    if current.None? || !Int64(current.value + delta) then m else m[k := IntText(current.value + delta)]
  }

  function PlainExec(m: Contents, cmd: Command): Contents {
    match cmd
    case CSet(o) => if (o.nx && o.key in m) || (o.xx && o.key !in m) then m else m[o.key := o.value]
    case CMset(pairs) => PlainMset(m, pairs)
    case CDel(keys) => m - (set k | k in keys)
    case CIncrBy(k, delta) => PlainIncr(m, k, delta)
    case CFlush => map[]
    case _ => m
  }

  function PlainDispatch(m: Contents, raw: Record): Contents {
    match Parse(raw)
    case Fail(_) => m
    case Ok(cmd) => PlainExec(m, cmd)
  }

  function PlainRun(m: Contents, recs: seq<Record>): Contents {
    if recs == [] then m else PlainDispatch(PlainRun(m, recs[..|recs| - 1]), recs[|recs| - 1])
  }

  lemma {:induction false} PlainRunAppend(m: Contents, a: seq<Record>, b: seq<Record>)
    ensures PlainRun(m, a + b) == PlainRun(PlainRun(m, a), b)
  {
    if b == [] {
      assert a + b == a;
    } else {
      assert (a + b)[..|a + b| - 1] == a + b[..|b| - 1];
      PlainRunAppend(m, a, b[..|b| - 1]);
    }
  }

  /* ----- an uncapped store without deadlines is the plain map ----- */

  lemma PlainGet(c: Cache, k: Key, now: int)
    requires TtlFree(c)
    ensures DoGet(c, k, now).cache.entries == c.entries
    ensures DoGet(c, k, now).reply.Found? <==> k in c.entries
  {
    if k in c.entries {
      assert c.entries[k := c.entries[k]] == c.entries;
    }
  }

  /** A SET without a deadline changes the entries in one of two ways. */
  lemma SetEntries(c: Cache, cfg: Config, o: SetOptions, now: int)
    requires TtlFree(c) && o.ttl.None? && cfg.maxmemory == 0
    ensures var eff := ExecSet(c, cfg, o, now);
            var refused := (o.nx && o.key in c.entries) || (o.xx && o.key !in c.entries);
            && (eff.writes > 0 <==> !refused)
            && eff.cache.entries == if refused then c.entries else c.entries[o.key := NewEntry(o.key, o.value, None)]
  {
    PlainGet(c, o.key, now);
    PlainGet(DoGet(c, o.key, now).cache, o.key, now);
  }

  lemma ValuesAfterWrite(c: Cache, d: Cache, k: Key, v: Bytes)
    requires TtlFree(c) && d.entries == c.entries[k := NewEntry(k, v, None)]
    ensures TtlFree(d) && Values(d) == Values(c)[k := v]
  {
  }

  lemma PlainSet(c: Cache, cfg: Config, o: SetOptions, now: int)
    requires TtlFree(c) && o.ttl.None? && cfg.maxmemory == 0
    ensures var eff := ExecSet(c, cfg, o, now);
            && TtlFree(eff.cache) && Values(eff.cache) == PlainExec(Values(c), CSet(o))
            && (eff.writes == 0 ==> Values(eff.cache) == Values(c))
            && (eff.writes > 0 ==> Values(eff.cache) == Values(c)[o.key := o.value])
  {
    SetEntries(c, cfg, o, now);
    var eff := ExecSet(c, cfg, o, now);
    if eff.writes > 0 {
      ValuesAfterWrite(c, eff.cache, o.key, o.value);
    } else {
      assert Values(eff.cache) == Values(c);
    }
  }

  lemma {:induction false} PlainMsetOf(c: Cache, cfg: Config, pairs: seq<(Key, Bytes)>, now: int)
    requires TtlFree(c) && cfg.maxmemory == 0
    ensures var eff := ExecMset(c, cfg, pairs, now);
            TtlFree(eff.cache) && Values(eff.cache) == PlainMset(Values(c), pairs)
    decreases |pairs|
  {
    if pairs != [] {
      var d := DoSet(c, cfg, pairs[0].0, pairs[0].1, None, now).cache;
      assert Values(d) == Values(c)[pairs[0].0 := pairs[0].1];
      PlainMsetOf(d, cfg, pairs[1..], now);
    }
  }

  lemma PlainDelete(c: Cache, k: Key, now: int)
    requires TtlFree(c)
    ensures TtlFree(DoDelete(c, k, now).cache) && Values(DoDelete(c, k, now).cache) == Values(c) - {k}
  {
  }

  lemma {:induction false} PlainDel(c: Cache, keys: seq<Key>, now: int)
    requires TtlFree(c)
    ensures TtlFree(ExecDel(c, keys, now).0)
    ensures Values(ExecDel(c, keys, now).0) == Values(c) - (set k | k in keys)
    decreases |keys|
  {
    if keys != [] {
      PlainDelete(c, keys[0], now);
      PlainDel(DoDelete(c, keys[0], now).cache, keys[1..], now);
      assert (set k | k in keys) == {keys[0]} + (set k | k in keys[1..]);
    }
  }

  lemma PlainIncrOf(c: Cache, cfg: Config, k: Key, delta: int, now: int)
    requires TtlFree(c) && cfg.maxmemory == 0
    ensures var eff := ExecIncr(c, cfg, k, delta, now);
            TtlFree(eff.cache) && Values(eff.cache) == PlainIncr(Values(c), k, delta) &&
            (eff.reply.Error? ==> eff.cache == c)
  {
  }

  lemma {:induction false} PlainMget(c: Cache, keys: seq<Key>, now: int)
    requires TtlFree(c)
    ensures ExecMget(c, keys, now).0.entries == c.entries
    decreases |keys|
  {
    if keys != [] {
      PlainGet(c, keys[0], now);
      PlainMget(DoGet(c, keys[0], now).cache, keys[1..], now);
    }
  }

  /** Reading never changes what a store without deadlines holds. */
  lemma PlainRead(c: Cache, cfg: Config, cmd: Command, now: int)
    requires TtlFree(c) && (!IsWrite(cmd) || cmd.CPersist?)
    ensures Exec(c, cfg, cmd, now).cache.entries == c.entries
  {
    match cmd {
      case CGet(k) => PlainGet(c, k, now);
      case CMget(keys) => PlainMget(c, keys, now);
      case CExists(keys) => PlainMget(c, keys, now);
      case CKeys(_) => PruneEntries(c, now);
      case CDbsize => PruneEntries(c, now);
      case _ =>
    }
  }

  /** Every command acts on an uncapped store without deadlines as it acts on the plain map. */
  lemma PlainExecOf(c: Cache, cfg: Config, cmd: Command, now: int)
    requires TtlFree(c) && TtlFreeCommand(cmd) && cfg.maxmemory == 0
    ensures var eff := Exec(c, cfg, cmd, now);
            TtlFree(eff.cache) && Values(eff.cache) == PlainExec(Values(c), cmd)
  {
    match cmd {
      case CSet(o) => PlainSet(c, cfg, o, now);
      case CMset(pairs) => PlainMsetOf(c, cfg, pairs, now);
      case CDel(keys) => PlainDel(c, keys, now);
      case CIncrBy(k, delta) => PlainIncrOf(c, cfg, k, delta, now);
      case CFlush =>
      case _ => PlainRead(c, cfg, cmd, now);
    }
  }

  lemma PlainDispatchOf(c: Cache, cfg: Config, raw: Record, now: int)
    requires TtlFree(c) && TtlFreeRecord(raw) && cfg.maxmemory == 0
    ensures TtlFree(Dispatch(c, cfg, raw, now).cache)
    ensures Values(Dispatch(c, cfg, raw, now).cache) == PlainDispatch(Values(c), raw)
  {
    if Parse(raw).Ok? {
      PlainExecOf(c, cfg, Parse(raw).cmd, now);
    }
  }

  lemma {:induction false} PlainReplay(c: Cache, cfg: Config, recs: seq<Record>, at: int)
    requires TtlFree(c) && cfg.maxmemory == 0 && forall i :: 0 <= i < |recs| ==> TtlFreeRecord(recs[i])
    ensures TtlFree(Replay(c, cfg, recs, at)) && Values(Replay(c, cfg, recs, at)) == PlainRun(Values(c), recs)
  {
    if recs != [] {
      PlainReplay(c, cfg, recs[..|recs| - 1], at);
      PlainDispatchOf(Replay(c, cfg, recs[..|recs| - 1], at), cfg, recs[|recs| - 1], at);
    }
  }

  /**
   * The records logged for a command carry the plain map from before it to after it; a command that
   * is not logged leaves the map alone. At most one record is logged.
   */
  lemma PlainLogged(c: Cache, cfg: Config, raw: Record, now: int)
    requires TtlFree(c) && TtlFreeRecord(raw) && cfg.maxmemory == 0
    ensures var recs := Logged(c, cfg, raw, now);
            |recs| <= 1 && (forall i :: 0 <= i < |recs| ==> TtlFreeRecord(recs[i])) &&
            PlainRun(Values(c), recs) == Values(Dispatch(c, cfg, raw, now).cache)
  {
    PlainDispatchOf(c, cfg, raw, now);
    var eff := Dispatch(c, cfg, raw, now);
    var recs := Logged(c, cfg, raw, now);
    PlainRunOne(Values(c), raw);
    if Parse(raw).Ok? {
      var cmd := Parse(raw).cmd;
      if cmd.CSet? {
        PlainSet(c, cfg, cmd.opts, now);
        var plain := SetRecord(cmd.opts.key, cmd.opts.value);
        ParseSetRecord(cmd.opts.key, cmd.opts.value);
        PlainRunOne(Values(c), plain);
      } else if !IsWrite(cmd) {
        PlainRead(c, cfg, cmd, now);
      } else if cmd.CIncrBy? {
        PlainIncrOf(c, cfg, cmd.key, cmd.delta, now);
      } else if cmd.CMset? {
        MsetReply(c, cfg, cmd.pairs, now);
      }
    }
  }

  lemma PlainRunOne(m: Contents, r: Record)
    ensures PlainRun(m, [r]) == PlainDispatch(m, r) && PlainRun(m, []) == m
  {
    assert [r][..0] == [];
    assert PlainRun(m, []) == m;
  }
}

/**
 * A primary with a memory cap and a replica without one: a full resync followed by the live stream
 * of commands and eviction DELs keeps their contents equal, and exactly when it does not.
 * Commands set no deadlines.
 */
module Replication {
  import opened Base
  import opened Decimal
  import opened CacheModel
  import opened LruLaws
  import opened Commands
  import opened TimedReplay
  import opened PlainMap
  import opened Rewrite

  /* ----- what the primary sends ----- */

  /** The messages the write path propagates for one command: its normal form, then its evictions. */
  function Messages(raw: Record, eff: Effect): seq<Record> {
    if Commits(raw, eff.reply) then
      (if TookEffect(raw, eff) then [ToReplication(raw)] else []) + DelRecords(eff.evicted)
    else []
  }

  /** Whole seconds of a remaining time, rounded past the end, as a snapshot sends it. */
  function SnapshotSeconds(ms: int): int {
    ms / 1000 + 1
  }

  function KeySnapshot(k: Key, e: Entry, now: int): seq<Record> {
    if e.deadline.None? then [SetRecord(k, e.value)]
    else [SetRecord(k, e.value), ["EXPIRE", k, IntText(SnapshotSeconds(e.deadline.value - now))]]
  }

  /** `build_snapshot_commands` along an order. */
  function SnapshotRecords(o: seq<Key>, m: map<Key, Entry>, now: int): seq<Record>
    requires forall k :: k in o ==> k in m
  {
    if o == [] then []
    else SnapshotRecords(o[..|o| - 1], m, now) + KeySnapshot(o[|o| - 1], m[o[|o| - 1]], now)
  }

  lemma {:induction false} SnapshotIsRewrite(o: seq<Key>, m: map<Key, Entry>, now: int)
    requires forall k :: k in o ==> k in m && m[k].deadline.None?
    ensures SnapshotRecords(o, m, now) == RewriteRecords(o, m)
  {
    if o != [] {
      SnapshotIsRewrite(o[..|o| - 1], m, now);
    }
  }

  /* ----- eviction without deadlines ----- */

  function KeySet(keys: seq<Key>): set<Key> {
    set k | k in keys
  }

  /** Without deadlines an eviction round removes its victims and nothing else. */
  lemma EvictEntries(c: Cache, cfg: Config, now: int)
    requires WF(c) && TtlFree(c)
    ensures Evict(c, cfg, now).cache.entries == c.entries - KeySet(Evict(c, cfg, now).victims)
  {
    if cfg.lru && Over(c, cfg) {
      RestrictAll(c, LiveKeys(c, now));
      ShortestSufficientPrefix(c, cfg);
      NewestEntries(c, |EvictLoop(c, cfg).victims|);
    }
  }

  lemma NewestEntries(c: Cache, n: nat)
    requires WF(c) && n <= |c.order|
    ensures Newest(c, n).entries == c.entries - KeySet(c.order[..n])
  {
    assert c.order == c.order[..n] + c.order[n..];
    forall k | k in c.entries ensures k in c.order[n..] <==> k !in KeySet(c.order[..n]) {
      assert k in c.order;
    }
  }

  lemma ValuesMinus(c: Cache, d: Cache, gone: set<Key>)
    requires d.entries == c.entries - gone
    ensures Values(d) == Values(c) - gone
  {
  }

  lemma ValuesPut(c: Cache, k: Key, e: Entry)
    ensures Values(Put(c, k, e)) == Values(c)[k := e.value]
  {
  }

  /** A write under the cap: the plain write, less the victims, which never include the written key. */
  lemma CappedWrite(c: Cache, cfg: Config, k: Key, v: Bytes, now: int)
    requires WF(c) && TtlFree(c)
    ensures var r := Evict(Put(c, k, NewEntry(k, v, None)), cfg, now);
            WF(r.cache) && TtlFree(r.cache) && k !in r.victims &&
            Values(r.cache) == Values(c)[k := v] - KeySet(r.victims)
  {
    var e := NewEntry(k, v, None);
    var r := Evict(Put(c, k, e), cfg, now);
    PutWF(c, k, e);
    WriteWF(c, cfg, k, v, None, now);
    EvictEntries(Put(c, k, e), cfg, now);
    WrittenKeySurvives(c, cfg, k, e, now);
    ValuesPut(c, k, e);
    ValuesMinus(Put(c, k, e), r.cache, KeySet(r.victims));
  }

  /** The effect of a command on the primary, in terms of the plain map and the keys evicted. */
  ghost predicate Residue(c: Cache, eff: Effect, cmd: Command) {
    && WF(eff.cache) && TtlFree(eff.cache)
    && Values(eff.cache) - KeySet(eff.evicted) == PlainExec(Values(c), cmd) - KeySet(eff.evicted)
  }

  /** A single write: plain result less the victims, so no victim is left. */
  lemma ResidueWrite(m: Contents, k: Key, v: Bytes, d: Cache, victims: seq<Key>)
    requires Values(d) == m[k := v] - KeySet(victims)
    ensures Values(d) - KeySet(victims) == m[k := v] - KeySet(victims)
    ensures KeySet(victims) !! d.entries.Keys
  {
    assert Values(d).Keys == d.entries.Keys;
  }

  lemma ProbeKeeps(c: Cache, o: SetOptions, now: int)
    requires WF(c) && TtlFree(c)
    ensures var first := DoGet(c, o.key, now).cache;
            var c1 := if o.get then DoGet(first, o.key, now).cache else first;
            WF(c1) && c1.entries == c.entries
  {
    var first := DoGet(c, o.key, now).cache;
    PlainGet(c, o.key, now);
    GetWF(c, o.key, now);
    PlainGet(first, o.key, now);
    GetWF(first, o.key, now);
  }

  lemma ResidueDoSet(c: Cache, cfg: Config, k: Key, v: Bytes, now: int)
    requires WF(c) && TtlFree(c)
    ensures var out := DoSet(c, cfg, k, v, None, now);
            WF(out.cache) && TtlFree(out.cache) && KeySet(out.evicted) !! out.cache.entries.Keys &&
            Values(out.cache) - KeySet(out.evicted) == Values(c)[k := v] - KeySet(out.evicted)
  {
    var out := DoSet(c, cfg, k, v, None, now);
    CappedWrite(c, cfg, k, v, now);
    ResidueWrite(Values(c), k, v, out.cache, out.evicted);
  }

  /** The conditions of a SET hold of some contents. */
  predicate SetApplies(m: Contents, o: SetOptions) {
    !(o.nx && o.key in m) && !(o.xx && o.key !in m)
  }

  /** What a SET does to the primary: its lookups change no entry, and then it writes or it does not. */
  lemma SetOutcome(c: Cache, cfg: Config, o: SetOptions, now: int)
    requires WF(c) && TtlFree(c) && o.ttl.None?
    ensures var eff := ExecSet(c, cfg, o, now);
            if SetApplies(Values(c), o) then
              eff.writes == 1 && WF(eff.cache) && TtlFree(eff.cache) && KeySet(eff.evicted) !! eff.cache.entries.Keys &&
              Values(eff.cache) - KeySet(eff.evicted) == Values(c)[o.key := o.value] - KeySet(eff.evicted)
            else eff.writes == 0 && eff.evicted == [] && WF(eff.cache) && eff.cache.entries == c.entries
  {
    var first := DoGet(c, o.key, now).cache;
    var c1 := if o.get then DoGet(first, o.key, now).cache else first;
    ProbeKeeps(c, o, now);
    PlainGet(c, o.key, now);
    if SetApplies(Values(c), o) {
      assert Values(c1) == Values(c);
      ResidueDoSet(c1, cfg, o.key, o.value, now);
    }
  }

  lemma ResidueSet(c: Cache, cfg: Config, o: SetOptions, now: int)
    requires WF(c) && TtlFree(c) && o.ttl.None?
    ensures Residue(c, ExecSet(c, cfg, o, now), CSet(o))
    ensures KeySet(ExecSet(c, cfg, o, now).evicted) !! ExecSet(c, cfg, o, now).cache.entries.Keys
  {
    SetOutcome(c, cfg, o, now);
  }

  lemma ResidueIncr(c: Cache, cfg: Config, k: Key, delta: int, now: int)
    requires WF(c) && TtlFree(c)
    ensures var eff := ExecIncr(c, cfg, k, delta, now);
            Residue(c, eff, CIncrBy(k, delta)) && KeySet(eff.evicted) !! eff.cache.entries.Keys &&
            (eff.reply.Error? ==> eff.cache == c && eff.evicted == [])
  {
    var out := DoIncr(c, cfg, k, delta, now);
    IncrWithoutDeadline(c, cfg, k, delta, now);
    if out.reply.Number? {
      CappedWrite(c, cfg, k, IntText(out.reply.n), now);
      ResidueWrite(Values(c), k, IntText(out.reply.n), out.cache, out.evicted);
    }
  }

  lemma IncrWithoutDeadline(c: Cache, cfg: Config, k: Key, delta: int, now: int)
    requires TtlFree(c)
    ensures var out := DoIncr(c, cfg, k, delta, now);
            if out.reply.Number? then
              var r := Evict(Put(c, k, NewEntry(k, IntText(out.reply.n), None)), cfg, now);
              out.cache == r.cache && out.evicted == r.victims &&
              PlainIncr(Values(c), k, delta) == Values(c)[k := IntText(out.reply.n)]
            else
              out.cache == c && out.evicted == [] && out.reply.Rejected? &&
              PlainIncr(Values(c), k, delta) == Values(c)
  {
  }

  /** Removing keys before or after an MSET makes no difference to the other keys. */
  lemma {:induction false} PlainMsetWithout(m: Contents, pairs: seq<(Key, Bytes)>, gone: set<Key>)
    ensures PlainMset(m - gone, pairs) - gone == PlainMset(m, pairs) - gone
    decreases |pairs|
  {
    if pairs != [] {
      var k, v := pairs[0].0, pairs[0].1;
      PlainMsetWithout((m - gone)[k := v], pairs[1..], gone);
      PlainMsetWithout(m[k := v], pairs[1..], gone);
      assert (m - gone)[k := v] - gone == m[k := v] - gone;
    }
  }

  lemma MinusUnion(m: Contents, a: set<Key>, b: set<Key>)
    ensures m - a - b == m - (a + b) && m - b - a == m - (a + b)
  {
  }

  lemma KeySetAppend(a: seq<Key>, b: seq<Key>)
    ensures KeySet(a + b) == KeySet(a) + KeySet(b)
  {
  }

  lemma {:induction false} ResidueMset(c: Cache, cfg: Config, pairs: seq<(Key, Bytes)>, now: int)
    requires WF(c) && TtlFree(c)
    ensures Residue(c, ExecMset(c, cfg, pairs, now), CMset(pairs))
    decreases |pairs|
  {
    if pairs != [] {
      var k, v := pairs[0].0, pairs[0].1;
      var out := DoSet(c, cfg, k, v, None, now);
      CappedWrite(c, cfg, k, v, now);
      ResidueMset(out.cache, cfg, pairs[1..], now);
      var later := ExecMset(out.cache, cfg, pairs[1..], now);
      var gone, goner := KeySet(out.evicted), KeySet(later.evicted);
      KeySetAppend(out.evicted, later.evicted);
      PlainMsetWithout(Values(c)[k := v], pairs[1..], gone);
      MinusUnion(Values(later.cache), gone, goner);
      MinusUnion(PlainMset(Values(out.cache), pairs[1..]), gone, goner);
      MinusUnion(PlainMset(Values(c)[k := v], pairs[1..]), gone, goner);
    }
  }

  lemma ResidueUnevicting(c: Cache, cfg: Config, cmd: Command, now: int)
    requires WF(c) && TtlFree(c) && TtlFreeCommand(cmd) && !cmd.CSet? && !cmd.CMset? && !cmd.CIncrBy?
    ensures Residue(c, Exec(c, cfg, cmd, now), cmd) && Exec(c, cfg, cmd, now).evicted == []
  {
    match cmd {
      case CDel(keys) =>
        ExecDelWF(c, keys, now);
        PlainDel(c, keys, now);
      case CFlush =>
      case _ => ResidueRead(c, cfg, cmd, now);
    }
  }

  lemma ResidueRead(c: Cache, cfg: Config, cmd: Command, now: int)
    requires WF(c) && TtlFree(c) && (!IsWrite(cmd) || cmd.CPersist?)
    ensures Residue(c, Exec(c, cfg, cmd, now), cmd) && Exec(c, cfg, cmd, now).evicted == []
  {
    var eff := Exec(c, cfg, cmd, now);
    ExecWF(c, cfg, cmd, now);
    PlainRead(c, cfg, cmd, now);
    assert PlainExec(Values(c), cmd) == Values(c);
    assert Values(eff.cache) == Values(c);
  }

  lemma ResidueOf(c: Cache, cfg: Config, cmd: Command, now: int)
    requires WF(c) && TtlFree(c) && TtlFreeCommand(cmd)
    ensures Residue(c, Exec(c, cfg, cmd, now), cmd)
    ensures !cmd.CMset? ==> KeySet(Exec(c, cfg, cmd, now).evicted) !! Exec(c, cfg, cmd, now).cache.entries.Keys
  {
    match cmd {
      case CSet(o) => ResidueSet(c, cfg, o, now);
      case CMset(pairs) => ResidueMset(c, cfg, pairs, now);
      case CIncrBy(k, delta) => ResidueIncr(c, cfg, k, delta, now);
      case _ => ResidueUnevicting(c, cfg, cmd, now);
    }
  }

  /* ----- what the replica does ----- */

  const REPLICA: Config := UNLIMITED

  /** The replica holds exactly what the primary holds. */
  ghost predicate InSync(p: Cache, r: Cache) {
    TtlFree(p) && TtlFree(r) && Values(p) == Values(r)
  }

  lemma {:induction false} ApplyDels(r: Cache, keys: seq<Key>, at: int)
    requires TtlFree(r)
    ensures TtlFree(Replay(r, REPLICA, DelRecords(keys), at))
    ensures Values(Replay(r, REPLICA, DelRecords(keys), at)) == Values(r) - KeySet(keys)
  {
    if keys != [] {
      var before, k := keys[..|keys| - 1], keys[|keys| - 1];
      ApplyDels(r, before, at);
      var mid := Replay(r, REPLICA, DelRecords(before), at);
      assert (DelRecords(before) + [DelRecord(k)])[..|DelRecords(before)|] == DelRecords(before);
      ParseDelRecord(k);
      PlainDel(mid, [k], at);
      assert KeySet(keys) == KeySet(before) + KeySet([k]);
      MinusUnion(Values(r), KeySet(before), KeySet([k]));
    }
  }

  /** The normal form of a command that took effect does to the replica what the command says. */
  lemma ApplyMain(r: Cache, raw: Record, eff: Effect, at: int)
    requires TtlFree(r) && TtlFreeRecord(raw) && TookEffect(raw, eff)
    requires Parse(raw).cmd.CSet? ==> SetApplies(Values(r), Parse(raw).cmd.opts)
    ensures var t := Replay(r, REPLICA, [ToReplication(raw)], at);
            TtlFree(t) && Values(t) == PlainExec(Values(r), Parse(raw).cmd)
  {
    ReplayOne(r, REPLICA, ToReplication(raw), at);
    if Parse(raw).cmd.CSet? {
      ParseSetRecord(Parse(raw).cmd.opts.key, Parse(raw).cmd.opts.value);
    }
    PlainDispatchOf(r, REPLICA, ToReplication(raw), at);
  }

  /** A command that was not propagated left the primary's contents alone, and evicted nothing. */
  lemma NotPropagated(p: Cache, cfg: Config, cmd: Command, now: int)
    requires WF(p) && TtlFree(p) && TtlFreeCommand(cmd)
    requires var eff := Exec(p, cfg, cmd, now); !IsWrite(cmd) || eff.reply.Error? || (cmd.CSet? && eff.writes == 0)
    ensures Values(Exec(p, cfg, cmd, now).cache) == Values(p) && Exec(p, cfg, cmd, now).evicted == []
  {
    match cmd {
      case CSet(o) =>
        SetOutcome(p, cfg, o, now);
        SetReply(p, cfg, o, now);
      case CIncrBy(k, delta) => ResidueIncr(p, cfg, k, delta, now);
      case CMset(pairs) => MsetReply(p, cfg, pairs, now);
      case CDel(_) =>
      case CPersist(_) =>
      case CFlush =>
      case _ => PlainRead(p, cfg, cmd, now);
    }
  }

  lemma SetReply(p: Cache, cfg: Config, o: SetOptions, now: int)
    ensures !ExecSet(p, cfg, o, now).reply.Error?
  {
  }

  lemma SetTookEffect(p: Cache, cfg: Config, o: SetOptions, now: int)
    requires TtlFree(p) && ExecSet(p, cfg, o, now).writes > 0
    ensures SetApplies(Values(p), o)
  {
    PlainGet(p, o.key, now);
  }

  /* ----- one command ----- */

  /** A key evicted in the course of the command is present when the command ends. */
  ghost predicate Clobbers(eff: Effect) {
    exists k :: k in eff.evicted && k in eff.cache.entries
  }

  lemma SubtractEvicted(final: Contents, plain: Contents, gone: set<Key>)
    requires final - gone == plain - gone
    ensures final == plain - gone <==> gone !! final.Keys
  {
    if gone !! final.Keys {
      assert final - gone == final;
    }
  }

  lemma ClobbersMeans(eff: Effect)
    ensures Clobbers(eff) <==> !(KeySet(eff.evicted) !! Values(eff.cache).Keys)
  {
    var gone, kept := KeySet(eff.evicted), Values(eff.cache).Keys;
    if !(gone !! kept) {
      var k :| k in gone && k in kept;
      assert k in eff.evicted && k in eff.cache.entries;
    }
    if Clobbers(eff) {
      var k :| k in eff.evicted && k in eff.cache.entries;
      assert k in gone && k in kept;
    }
  }

  lemma PropagatedStep(p: Cache, r: Cache, raw: Record, cmd: Command, eff: Effect, at: int)
    requires InSync(p, r) && TtlFreeRecord(raw) && Parse(raw) == Ok(cmd) && TookEffect(raw, eff) && Residue(p, eff, cmd)
    requires cmd.CSet? ==> SetApplies(Values(p), cmd.opts)
    ensures InSync(eff.cache, Replay(r, REPLICA, [ToReplication(raw)] + DelRecords(eff.evicted), at)) <==>
            !Clobbers(eff)
  {
    ApplyMain(r, raw, eff, at);
    var mid := Replay(r, REPLICA, [ToReplication(raw)], at);
    ApplyDels(mid, eff.evicted, at);
    ReplayAppend(r, REPLICA, [ToReplication(raw)], DelRecords(eff.evicted), at);
    SubtractEvicted(Values(eff.cache), PlainExec(Values(p), cmd), KeySet(eff.evicted));
    ClobbersMeans(eff);
  }

  lemma PropagateEffect(p: Cache, r: Cache, cfg: Config, raw: Record, now: int, at: int)
    requires WF(p) && InSync(p, r) && TtlFreeRecord(raw)
    ensures var eff := Dispatch(p, cfg, raw, now);
            InSync(eff.cache, Replay(r, REPLICA, Messages(raw, eff), at)) <==> !Clobbers(eff)
  {
    var eff := Dispatch(p, cfg, raw, now);
    match Parse(raw) {
      case Fail(_) =>
      case Ok(cmd) =>
        ResidueOf(p, cfg, cmd, now);
        if TookEffect(raw, eff) {
          if cmd.CSet? {
            SetTookEffect(p, cfg, cmd.opts, now);
          }
          PropagatedStep(p, r, raw, cmd, eff, at);
        } else {
          NotPropagated(p, cfg, cmd, now);
          assert Messages(raw, eff) == [];
        }
    }
  }

  /** Only MSET can do that: every other command writes one key, which its eviction spares. */
  lemma OnlyMsetClobbers(p: Cache, cfg: Config, raw: Record, now: int)
    requires WF(p) && TtlFree(p) && TtlFreeRecord(raw) && Clobbers(Dispatch(p, cfg, raw, now))
    ensures Parse(raw).Ok? && Parse(raw).cmd.CMset?
  {
    ClobbersMeans(Dispatch(p, cfg, raw, now));
    if Parse(raw).Ok? {
      ResidueOf(p, cfg, Parse(raw).cmd, now);
    }
  }

  /** Followed from state `c`: some pair writes `k`, and no later round evicts it. */
  predicate Regained(c: Cache, cfg: Config, pairs: seq<(Key, Bytes)>, k: Key, now: int)
    decreases |pairs|
  {
    pairs != [] &&
    (var out := DoSet(c, cfg, pairs[0].0, pairs[0].1, None, now);
     (pairs[0].0 == k && k !in ExecMset(out.cache, cfg, pairs[1..], now).evicted) ||
     Regained(out.cache, cfg, pairs[1..], k, now))
  }

  /**
   * An MSET brings back a key: some round evicts it, a later pair writes it, and no round after that
   * evicts it. A function of the state before the MSET and its pairs.
   */
  predicate BringsBack(c: Cache, cfg: Config, pairs: seq<(Key, Bytes)>, now: int)
    decreases |pairs|
  {
    pairs != [] &&
    (var out := DoSet(c, cfg, pairs[0].0, pairs[0].1, None, now);
     (exists k :: k in out.evicted && Regained(out.cache, cfg, pairs[1..], k, now)) ||
     BringsBack(out.cache, cfg, pairs[1..], now))
  }

  /** A key is there after an MSET iff a pair wrote it or it was there, and no round since evicted it. */
  lemma {:induction false} PresentAfterMset(c: Cache, cfg: Config, pairs: seq<(Key, Bytes)>, k: Key, now: int)
    requires WF(c) && TtlFree(c)
    ensures var eff := ExecMset(c, cfg, pairs, now);
            k in eff.cache.entries <==> Regained(c, cfg, pairs, k, now) || (k in c.entries && k !in eff.evicted)
    decreases |pairs|
  {
    if pairs != [] {
      var out := DoSet(c, cfg, pairs[0].0, pairs[0].1, None, now);
      CappedWrite(c, cfg, pairs[0].0, pairs[0].1, now);
      assert k in Values(out.cache) <==> (k == pairs[0].0 || k in Values(c)) && k !in out.evicted;
      PresentAfterMset(out.cache, cfg, pairs[1..], k, now);
    }
  }

  /** The pre-call condition is exact: an MSET ends with a key it evicted iff it brings one back. */
  lemma {:induction false} MsetClobbersIffBringsBack(c: Cache, cfg: Config, pairs: seq<(Key, Bytes)>, now: int)
    requires WF(c) && TtlFree(c)
    ensures Clobbers(ExecMset(c, cfg, pairs, now)) <==> BringsBack(c, cfg, pairs, now)
    decreases |pairs|
  {
    if pairs != [] {
      var out := DoSet(c, cfg, pairs[0].0, pairs[0].1, None, now);
      var later := ExecMset(out.cache, cfg, pairs[1..], now);
      CappedWrite(c, cfg, pairs[0].0, pairs[0].1, now);
      MsetClobbersIffBringsBack(out.cache, cfg, pairs[1..], now);
      forall k | k in out.evicted
        ensures k in later.cache.entries && k !in later.evicted ==> Regained(out.cache, cfg, pairs[1..], k, now)
        ensures Regained(out.cache, cfg, pairs[1..], k, now) ==> k in later.cache.entries
      {
        assert k !in Values(out.cache);
        PresentAfterMset(out.cache, cfg, pairs[1..], k, now);
      }
      ClobbersAppend(out, later);
    }
  }

  lemma ClobbersAppend(out: Out, later: Effect)
    ensures Clobbers(Effect(later.cache, OK, out.evicted + later.evicted, 1 + later.writes)) <==>
            Clobbers(later) || exists k :: k in out.evicted && k in later.cache.entries && k !in later.evicted
  {
    var all := Effect(later.cache, OK, out.evicted + later.evicted, 1 + later.writes);
    if Clobbers(later) {
      var k :| k in later.evicted && k in later.cache.entries;
      assert k in all.evicted;
    }
    if exists k :: k in out.evicted && k in later.cache.entries && k !in later.evicted {
      var k :| k in out.evicted && k in later.cache.entries && k !in later.evicted;
      assert k in all.evicted;
    }
  }

  /** The command is an MSET that brings back a key it evicted. */
  predicate MsetBringsBack(p: Cache, cfg: Config, raw: Record, now: int) {
    Parse(raw).Ok? && Parse(raw).cmd.CMset? && BringsBack(p, cfg, Parse(raw).cmd.pairs, now)
  }

  lemma ClobbersExactly(p: Cache, cfg: Config, raw: Record, now: int)
    requires WF(p) && TtlFree(p) && TtlFreeRecord(raw)
    ensures Clobbers(Dispatch(p, cfg, raw, now)) <==> MsetBringsBack(p, cfg, raw, now)
  {
    if Parse(raw).Ok? && Parse(raw).cmd.CMset? {
      MsetClobbersIffBringsBack(p, cfg, Parse(raw).cmd.pairs, now);
    } else if Clobbers(Dispatch(p, cfg, raw, now)) {
      OnlyMsetClobbers(p, cfg, raw, now);
    }
  }

  /**
   * From equal contents, a command on the primary and its messages on the replica leave equal
   * contents if and only if the command is not an MSET that brings back a key it evicted.
   */
  lemma PropagateStep(p: Cache, r: Cache, cfg: Config, raw: Record, now: int, at: int)
    requires WF(p) && InSync(p, r) && TtlFreeRecord(raw)
    ensures var eff := Dispatch(p, cfg, raw, now);
            InSync(eff.cache, Replay(r, REPLICA, Messages(raw, eff), at)) <==> !MsetBringsBack(p, cfg, raw, now)
  {
    PropagateEffect(p, r, cfg, raw, now, at);
    ClobbersExactly(p, cfg, raw, now);
  }

  /** The simple sufficient condition: no key evicted while writing one pair is written by a later pair. */
  predicate NeverRewritesEvicted(c: Cache, cfg: Config, pairs: seq<(Key, Bytes)>, now: int)
    decreases |pairs|
  {
    pairs == [] ||
    (var out := DoSet(c, cfg, pairs[0].0, pairs[0].1, None, now);
     (forall i :: 1 <= i < |pairs| ==> pairs[i].0 !in out.evicted) &&
     NeverRewritesEvicted(out.cache, cfg, pairs[1..], now))
  }

  lemma {:induction false} NeverWrittenNeverRegained(c: Cache, cfg: Config, pairs: seq<(Key, Bytes)>, k: Key, now: int)
    requires forall i :: 0 <= i < |pairs| ==> pairs[i].0 != k
    ensures !Regained(c, cfg, pairs, k, now)
    decreases |pairs|
  {
    if pairs != [] {
      NeverWrittenNeverRegained(DoSet(c, cfg, pairs[0].0, pairs[0].1, None, now).cache, cfg, pairs[1..], k, now);
    }
  }

  lemma {:induction false} SafeMsetBringsNothingBack(c: Cache, cfg: Config, pairs: seq<(Key, Bytes)>, now: int)
    requires NeverRewritesEvicted(c, cfg, pairs, now)
    ensures !BringsBack(c, cfg, pairs, now)
    decreases |pairs|
  {
    if pairs != [] {
      var out := DoSet(c, cfg, pairs[0].0, pairs[0].1, None, now);
      SafeMsetBringsNothingBack(out.cache, cfg, pairs[1..], now);
      forall k | k in out.evicted ensures !Regained(out.cache, cfg, pairs[1..], k, now) {
        NeverWrittenNeverRegained(out.cache, cfg, pairs[1..], k, now);
      }
    }
  }

  /* ----- resync and whole runs ----- */

  /** The records of a full resync. */
  function Resync(p: Cache, now: int): seq<Record>
    requires forall k :: k in p.order ==> k in p.entries
  {
    [["FLUSHDB"]] + SnapshotRecords(p.order, p.entries, now)
  }

  lemma ReplaySnapshot(p: Cache, at: int)
    requires WF(p)
    ensures Replay(EMPTY, REPLICA, RewriteRecords(p.order, p.entries), at) == p
  {
    assert p.order[..|p.order|] == p.order;
    ReplayPrefix(p, REPLICA, |p.order|, RewriteRecords(p.order, p.entries), at);
    assert Oldest(p, |p.order|) == p;
  }

  lemma ReplayFlush(r: Cache, at: int)
    ensures Replay(r, REPLICA, [["FLUSHDB"]], at) == EMPTY
  {
    ReplayOne(r, REPLICA, ["FLUSHDB"], at);
    ParseFlushRecord();
  }

  /** Whatever a replica held before, a resync gives it the primary's contents. */
  lemma ResyncGivesContents(p: Cache, r: Cache, now: int, at: int)
    requires WF(p) && TtlFree(p)
    ensures InSync(p, Replay(r, REPLICA, Resync(p, now), at))
  {
    var snapshot := RewriteRecords(p.order, p.entries);
    SnapshotIsRewrite(p.order, p.entries, now);
    ReplayAppend(r, REPLICA, [["FLUSHDB"]], snapshot, at);
    ReplayFlush(r, at);
    ReplaySnapshot(p, at);
  }

  /** The primary after commands run from state `p`. */
  function PrimaryAfter(p: Cache, cfg: Config, run: seq<Request>): Cache {
    if run == [] then p
    else Dispatch(PrimaryAfter(p, cfg, run[..|run| - 1]), cfg, run[|run| - 1].raw, run[|run| - 1].now).cache
  }

  function Stream(p: Cache, cfg: Config, run: seq<Request>): seq<Record> {
    if run == [] then []
    else
      var before, last := run[..|run| - 1], run[|run| - 1];
      Stream(p, cfg, before) + Messages(last.raw, Dispatch(PrimaryAfter(p, cfg, before), cfg, last.raw, last.now))
  }

  ghost predicate AllTtlFreeRequests(run: seq<Request>) {
    forall i :: 0 <= i < |run| ==> TtlFreeRecord(run[i].raw)
  }

  /** Command `n` of the run is an MSET that brings back a key it evicted. */
  ghost predicate BringsBackAt(p: Cache, cfg: Config, run: seq<Request>, n: nat)
    requires n < |run|
  {
    MsetBringsBack(PrimaryAfter(p, cfg, run[..n]), cfg, run[n].raw, run[n].now)
  }

  /** Replica contents after a resync from `p` and the messages of a run, from anything it held before. */
  ghost function ReplicaAfter(p: Cache, cfg: Config, r: Cache, run: seq<Request>, now: int, at: int): Cache
    requires forall k :: k in p.order ==> k in p.entries
  {
    Replay(r, REPLICA, Resync(p, now) + Stream(p, cfg, run), at)
  }

  lemma {:induction false} PrimaryWF(p: Cache, cfg: Config, run: seq<Request>)
    requires WF(p)
    ensures WF(PrimaryAfter(p, cfg, run))
  {
    if run != [] {
      PrimaryWF(p, cfg, run[..|run| - 1]);
      DispatchWF(PrimaryAfter(p, cfg, run[..|run| - 1]), cfg, run[|run| - 1].raw, run[|run| - 1].now);
    }
  }

  lemma ExtendSync(p: Cache, cfg: Config, r: Cache, run: seq<Request>, now: int, at: int)
    requires WF(p) && run != [] && AllTtlFreeRequests(run)
    requires InSync(PrimaryAfter(p, cfg, run[..|run| - 1]), ReplicaAfter(p, cfg, r, run[..|run| - 1], now, at))
    ensures InSync(PrimaryAfter(p, cfg, run), ReplicaAfter(p, cfg, r, run, now, at)) <==>
            !BringsBackAt(p, cfg, run, |run| - 1)
  {
    var before, last := run[..|run| - 1], run[|run| - 1];
    var o, q := PrimaryAfter(p, cfg, before), ReplicaAfter(p, cfg, r, before, now, at);
    PrimaryWF(p, cfg, before);
    PropagateStep(o, q, cfg, last.raw, last.now, at);
    var messages := Messages(last.raw, Dispatch(o, cfg, last.raw, last.now));
    Regroup(Resync(p, now), Stream(p, cfg, before), messages);
    ReplayAppend(r, REPLICA, Resync(p, now) + Stream(p, cfg, before), messages, at);
  }

  /** When nothing is brought back, primary and replica agree after the whole run. */
  lemma {:induction false} ReplicaAgrees(p: Cache, cfg: Config, r: Cache, run: seq<Request>, now: int, at: int)
    requires WF(p) && TtlFree(p) && AllTtlFreeRequests(run)
    requires forall n: nat :: n < |run| ==> !BringsBackAt(p, cfg, run, n)
    ensures InSync(PrimaryAfter(p, cfg, run), ReplicaAfter(p, cfg, r, run, now, at))
  {
    if run == [] {
      ResyncGivesContents(p, r, now, at);
      assert Resync(p, now) + [] == Resync(p, now);
    } else {
      var before := run[..|run| - 1];
      forall n: nat | n < |before| ensures !BringsBackAt(p, cfg, before, n) {
        assert before[..n] == run[..n];
        assert !BringsBackAt(p, cfg, run, n);
      }
      ReplicaAgrees(p, cfg, r, before, now, at);
      ExtendSync(p, cfg, r, run, now, at);
    }
  }

  ghost predicate SyncAt(p: Cache, cfg: Config, r: Cache, run: seq<Request>, now: int, at: int, n: nat)
    requires n <= |run| && forall k :: k in p.order ==> k in p.entries
  {
    InSync(PrimaryAfter(p, cfg, run[..n]), ReplicaAfter(p, cfg, r, run[..n], now, at))
  }

  lemma SyncUpTo(p: Cache, cfg: Config, r: Cache, run: seq<Request>, now: int, at: int, n: nat)
    requires WF(p) && TtlFree(p) && AllTtlFreeRequests(run) && n <= |run|
    requires forall m: nat :: m < |run| ==> !BringsBackAt(p, cfg, run, m)
    ensures SyncAt(p, cfg, r, run, now, at, n)
  {
    forall m: nat | m < n ensures !BringsBackAt(p, cfg, run[..n], m) {
      assert run[..n][..m] == run[..m];
      assert !BringsBackAt(p, cfg, run, m);
    }
    ReplicaAgrees(p, cfg, r, run[..n], now, at);
  }

  lemma SyncNext(p: Cache, cfg: Config, r: Cache, run: seq<Request>, now: int, at: int, n: nat)
    requires WF(p) && AllTtlFreeRequests(run) && n < |run| && SyncAt(p, cfg, r, run, now, at, n)
    ensures SyncAt(p, cfg, r, run, now, at, n + 1) <==> !BringsBackAt(p, cfg, run, n)
  {
    assert run[..n + 1][..n] == run[..n];
    ExtendSync(p, cfg, r, run[..n + 1], now, at);
    assert run[..n + 1][n] == run[n];
  }

  /**
   * A capped primary and an uncapped replica hold equal contents at every command boundary of a run
   * if and only if no MSET of the run brings back a key it evicted.
   */
  lemma ReplicaAgreesIffNothingBroughtBack(p: Cache, cfg: Config, r: Cache, run: seq<Request>, now: int, at: int)
    requires WF(p) && TtlFree(p) && AllTtlFreeRequests(run)
    ensures (forall n: nat :: n <= |run| ==> SyncAt(p, cfg, r, run, now, at, n)) <==>
            (forall n: nat :: n < |run| ==> !BringsBackAt(p, cfg, run, n))
  {
    if forall n: nat :: n < |run| ==> !BringsBackAt(p, cfg, run, n) {
      forall n: nat | n <= |run| ensures SyncAt(p, cfg, r, run, now, at, n) {
        SyncUpTo(p, cfg, r, run, now, at, n);
      }
    } else {
      var n: nat :| n < |run| && BringsBackAt(p, cfg, run, n);
      if SyncAt(p, cfg, r, run, now, at, n) {
        SyncNext(p, cfg, r, run, now, at, n);
      }
    }
  }

  ghost predicate SafeAt(p: Cache, cfg: Config, run: seq<Request>, n: nat)
    requires n < |run|
  {
    var parsed := Parse(run[n].raw);
    parsed.Ok? && parsed.cmd.CMset? ==>
      NeverRewritesEvicted(PrimaryAfter(p, cfg, run[..n]), cfg, parsed.cmd.pairs, run[n].now)
  }

  /** If no MSET of a run writes a key that one of its earlier pairs evicted, primary and replica always agree. */
  lemma ReplicaAgreesWhenMsetsAreSafe(p: Cache, cfg: Config, r: Cache, run: seq<Request>, now: int, at: int)
    requires WF(p) && TtlFree(p) && AllTtlFreeRequests(run)
    requires forall n: nat :: n < |run| ==> SafeAt(p, cfg, run, n)
    ensures forall n: nat :: n <= |run| ==> SyncAt(p, cfg, r, run, now, at, n)
  {
    forall n: nat | n < |run| ensures !BringsBackAt(p, cfg, run, n) {
      assert SafeAt(p, cfg, run, n);
      if Parse(run[n].raw).Ok? && Parse(run[n].raw).cmd.CMset? {
        SafeMsetBringsNothingBack(PrimaryAfter(p, cfg, run[..n]), cfg, Parse(run[n].raw).cmd.pairs, run[n].now);
      }
    }
    ReplicaAgreesIffNothingBroughtBack(p, cfg, r, run, now, at);
  }

  /* ----- the failing case is real ----- */

  /** Two entries of 98 bytes each do not fit in 150: writing one evicts the other. */
  lemma WriteEvictsOther(k: Key, v: Bytes, k2: Key, v2: Bytes, now: int)
    requires k != k2 && |k| == |v| == |k2| == |v2| == 1
    ensures var c := Cache([k], map[k := NewEntry(k, v, None)]);
            DoSet(c, Config(150, true, AnyKey), k2, v2, None, now) ==
            Out(Cache([k2], map[k2 := NewEntry(k2, v2, None)]), Done, [k])
  {
    var cfg := Config(150, true, AnyKey);
    var e, f := NewEntry(k, v, None), NewEntry(k2, v2, None);
    var c := Cache([k], map[k := e]);
    var d := Cache([k, k2], map[k := e, k2 := f]);
    KeepAll([k], {k});
    assert c.entries.Keys - {k2} == {k};
    assert Put(c, k2, f) == d by { assert Put(c, k2, f).entries == d.entries; }
    assert d.order[1..] == [k2];
    assert TotalSize([k2], d.entries) == 98;
    assert Used(d) == 196;
    assert WF(d);
    RestrictAll(d, LiveKeys(d, now));
    var last := DropOldest(d);
    assert last == Cache([k2], map[k2 := f]);
    assert [k2][1..] == [] && TotalSize([], last.entries) == 0;
    assert Used(last) == 98;
    assert EvictLoop(last, cfg) == Eviction(last, []);
    assert EvictLoop(d, cfg) == Eviction(last, [k]);
  }

  /** An MSET that evicts a key and writes it again leaves it on the primary and deletes it on the replica. */
  lemma MsetBringsBackEvictedKey(now: int)
    ensures var p := Cache(["x"], map["x" := NewEntry("x", "1", None)]);
            Clobbers(ExecMset(p, Config(150, true, AnyKey), [("b", "1"), ("x", "2")], now))
  {
    var cfg := Config(150, true, AnyKey);
    var pairs := [("b", "1"), ("x", "2")];
    var p := Cache(["x"], map["x" := NewEntry("x", "1", None)]);
    var q := Cache(["b"], map["b" := NewEntry("b", "1", None)]);
    assert "x"[0] != "b"[0];
    WriteEvictsOther("x", "1", "b", "1", now);
    WriteEvictsOther("b", "1", "x", "2", now);
    assert pairs[1..] == [("x", "2")];
    assert pairs[1..][1..] == [];
    var later := ExecMset(q, cfg, pairs[1..], now);
    var out := DoSet(q, cfg, "x", "2", None, now);
    assert ExecMset(out.cache, cfg, [], now) == Effect(out.cache, OK, [], 0);
    assert later.cache == out.cache;
    var eff := ExecMset(p, cfg, pairs, now);
    assert eff.cache == later.cache && eff.evicted == ["x"] + later.evicted;
    assert "x" in eff.evicted && "x" in eff.cache.entries;
  }
}

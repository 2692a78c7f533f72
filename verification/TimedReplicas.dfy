/**
 * Replication with deadlines. A replica that runs each message when it is sent agrees with a capped
 * primary on keys, values and deadlines, and exactly when it does not; a resync gives it every key with a
 * deadline that is late by less than a second, and exactly when it loses the deadline.
 */
module TimedReplicas {
  import opened Base
  import opened Decimal
  import opened CacheModel
  import opened SweepLaws
  import opened LruLaws
  import opened Commands
  import opened TimedReplay
  import opened SetForms
  import opened Replication
  import opened Words
  import opened TimedMap
  import opened Tales
  import Resp

  /* ----- the replicated form of every write ----- */

  /** The replicated form can be read: it is no SET, or its milliseconds have 64 bits. */
  predicate FormFits(cmd: Command) {
    cmd.CSet? ==> FitsReplication(cmd.opts)
  }

  /**
   * Whatever write took effect - EXPIRE, PEXPIRE, PEXPIREAT and PERSIST included, and SET if its time to
   * live fits - its replicated form, run at the same instant on the same store, leaves the same cache and
   * evicts the same keys.
   */
  lemma ReplicatedFormDoesTheSame(c: Cache, cfg: Config, raw: Record, now: int)
    requires WF(c) && TookEffect(raw, Dispatch(c, cfg, raw, now)) && FormFits(Parse(raw).cmd)
    ensures var eff, rep := Dispatch(c, cfg, raw, now), Dispatch(c, cfg, ToReplication(raw), now);
            rep.cache == eff.cache && rep.evicted == eff.evicted
  {
    if Parse(raw).cmd.CSet? {
      ReplicationFormSameStore(c, cfg, raw, now);
    }
  }

  /* ----- one request, with a replica that runs its messages at once ----- */

  /** What is there is the same. */
  ghost predicate AgreeNow(p: Cache, r: Cache, now: int) {
    On(p, now) == On(r, now)
  }

  lemma AgreeByKey(p: Cache, r: Cache, now: int)
    requires forall k :: There(p, k, now) == There(r, k, now)
    ensures AgreeNow(p, r, now)
  {
    forall k ensures k in On(p, now) <==> k in On(r, now) {
      assert There(p, k, now) == There(r, k, now);
    }
    forall k | k in On(p, now) ensures On(p, now)[k] == On(r, now)[k] {
      assert There(p, k, now) == There(r, k, now);
    }
  }

  lemma AgreeLater(p: Cache, r: Cache, s: int, t: int)
    requires AgreeNow(p, r, s) && s <= t
    ensures AgreeNow(p, r, t)
  {
    forall k ensures There(p, k, t) == There(r, k, t) {
      ThereLater(p, k, s, t);
      ThereLater(r, k, s, t);
    }
    AgreeByKey(p, r, t);
  }

  lemma {:induction false} DelsThere(r: Cache, keys: seq<Key>, k: Key, now: int)
    ensures There(Replay(r, REPLICA, DelRecords(keys), now), k, now) == if k in keys then None else There(r, k, now)
  {
    if keys != [] {
      var before, last := keys[..|keys| - 1], keys[|keys| - 1];
      DelsThere(r, before, k, now);
      var mid := Replay(r, REPLICA, DelRecords(before), now);
      assert (DelRecords(before) + [DelRecord(last)])[..|DelRecords(before)|] == DelRecords(before);
      ParseDelRecord(last);
      DelLeft(mid, [last], k, now);
      assert keys == before + [last];
    }
  }

  /** A replica evicts nothing, so it does what the reference does. */
  lemma ReplicaDoes(r: Cache, raw: Record, k: Key, now: int)
    requires WF(r)
    ensures There(Dispatch(r, REPLICA, raw, now).cache, k, now) == SaidAt(There(r, k, now), raw, k, now)
  {
    NothingEvicted(r, REPLICA, raw, now);
    SaidLeft(r, REPLICA, raw, k, now);
  }

  /** A write that was not sent changed nothing that was there, and evicted nothing. */
  lemma UnsentChangesNothing(p: Cache, cfg: Config, raw: Record, k: Key, now: int)
    requires WF(p) && !TookEffect(raw, Dispatch(p, cfg, raw, now))
    ensures var eff := Dispatch(p, cfg, raw, now); There(eff.cache, k, now) == There(p, k, now) && eff.evicted == []
  {
    var eff := Dispatch(p, cfg, raw, now);
    match Parse(raw) {
      case Fail(_) =>
      case Ok(cmd) =>
        CommandLeft(p, cfg, cmd, k, now);
        UnsentCommand(p, cfg, cmd, eff, now);
    }
  }

  lemma UnsentCommand(p: Cache, cfg: Config, cmd: Command, eff: Effect, now: int)
    requires WF(p) && eff == Exec(p, cfg, cmd, now)
    requires !IsWrite(cmd) || eff.reply.Error? || (cmd.CSet? && eff.writes == 0)
    ensures eff.evicted == [] && forall k :: KeyAfter(There(p, k, now), cmd, k, now) == There(p, k, now)
  {
    match cmd {
      case CSet(o) =>
        SetWrites(p, cfg, o, now);
        SetReply(p, cfg, o, now);
      case CIncrBy(k, delta) =>
        IncrOutcome(p, cfg, k, delta, now);
        CommandAnswered(p, cfg, cmd, now);
      case CMset(pairs) => MsetReply(p, cfg, pairs, now);
      case _ =>
    }
  }

  lemma AgreeAtKey(p: Cache, r: Cache, k: Key, now: int)
    requires AgreeNow(p, r, now)
    ensures There(p, k, now) == There(r, k, now)
  {
  }

  lemma SetApplied(p: Cache, cfg: Config, raw: Record, now: int)
    requires Parse(raw).Ok? && Parse(raw).cmd.CSet? && TookEffect(raw, Dispatch(p, cfg, raw, now))
    ensures Applies(Parse(raw).cmd.opts, There(p, Parse(raw).cmd.opts.key, now))
  {
    SetWrites(p, cfg, Parse(raw).cmd.opts, now);
  }

  /** Without its conditions, a SET that applies says the same. */
  lemma PlainSaysTheSame(h: Option<Held>, o: SetOptions, k: Key, now: int)
    requires k == o.key ==> Applies(o, h)
    ensures KeyAfter(h, CSet(Plain(o.key, o.value).(ttl := o.ttl)), k, now) == KeyAfter(h, CSet(o), k, now)
  {
  }

  lemma FormSays(p: Cache, cfg: Config, raw: Record, k: Key, now: int)
    requires TookEffect(raw, Dispatch(p, cfg, raw, now)) && FormFits(Parse(raw).cmd)
    ensures SaidAt(There(p, k, now), ToReplication(raw), k, now) == KeyAfter(There(p, k, now), Parse(raw).cmd, k, now)
  {
    if Parse(raw).cmd.CSet? {
      ReplicatedSetParses(raw);
      SetApplied(p, cfg, raw, now);
      PlainSaysTheSame(There(p, k, now), Parse(raw).cmd.opts, k, now);
    }
  }

  /** What a replica that agreed holds after the messages of a write that took effect. */
  lemma MessagesThere(r: Cache, form: Record, evicted: seq<Key>, k: Key, now: int)
    requires WF(r)
    ensures There(Replay(r, REPLICA, [form] + DelRecords(evicted), now), k, now) ==
              if k in evicted then None else SaidAt(There(r, k, now), form, k, now)
  {
    ReplayAppend(r, REPLICA, [form], DelRecords(evicted), now);
    ReplayOne(r, REPLICA, form, now);
    ReplicaDoes(r, form, k, now);
    DelsThere(Replay(r, REPLICA, [form], now), evicted, k, now);
  }

  /** A key is there after an MSET iff a pair wrote it or it was there, and no round since evicted it. */
  lemma {:induction false} ThereAfterMset(c: Cache, cfg: Config, pairs: seq<(Key, Bytes)>, k: Key, now: int)
    requires WF(c)
    ensures var eff := ExecMset(c, cfg, pairs, now);
            There(eff.cache, k, now).Some? <==>
            Regained(c, cfg, pairs, k, now) || (There(c, k, now).Some? && k !in eff.evicted)
    decreases |pairs|
  {
    if pairs != [] {
      var x, v := pairs[0].0, pairs[0].1;
      var out := DoSet(c, cfg, x, v, None, now);
      WriteThere(c, cfg, x, v, None, k, now);
      WrittenKeySurvives(c, cfg, x, NewEntry(x, v, None), now);
      WriteWF(c, cfg, x, v, None, now);
      ThereAfterMset(out.cache, cfg, pairs[1..], k, now);
    }
  }

  /** Some key that the effect evicted is there at its end. */
  ghost predicate EvictedIsThere(eff: Effect, now: int) {
    exists k :: k in eff.evicted && There(eff.cache, k, now).Some?
  }

  lemma EvictedTogether(out: Out, later: Effect, now: int)
    ensures EvictedIsThere(Effect(later.cache, OK, out.evicted + later.evicted, 1 + later.writes), now) <==>
            EvictedIsThere(later, now) ||
            exists k :: k in out.evicted && There(later.cache, k, now).Some? && k !in later.evicted
  {
    var all := Effect(later.cache, OK, out.evicted + later.evicted, 1 + later.writes);
    if EvictedIsThere(later, now) {
      var k :| k in later.evicted && There(later.cache, k, now).Some?;
      assert k in all.evicted;
    }
    if exists k :: k in out.evicted && There(later.cache, k, now).Some? && k !in later.evicted {
      var k :| k in out.evicted && There(later.cache, k, now).Some? && k !in later.evicted;
      assert k in all.evicted;
    }
  }

  /** The condition on the state before is exact with deadlines too. */
  lemma {:induction false} EvictedIsThereIffBroughtBack(c: Cache, cfg: Config, pairs: seq<(Key, Bytes)>, now: int)
    requires WF(c)
    ensures EvictedIsThere(ExecMset(c, cfg, pairs, now), now) <==> BringsBack(c, cfg, pairs, now)
    decreases |pairs|
  {
    if pairs != [] {
      var x, v := pairs[0].0, pairs[0].1;
      var out := DoSet(c, cfg, x, v, None, now);
      var later := ExecMset(out.cache, cfg, pairs[1..], now);
      WriteWF(c, cfg, x, v, None, now);
      EvictedIsThereIffBroughtBack(out.cache, cfg, pairs[1..], now);
      forall k | k in out.evicted
        ensures There(later.cache, k, now).Some? && k !in later.evicted ==> Regained(out.cache, cfg, pairs[1..], k, now)
        ensures Regained(out.cache, cfg, pairs[1..], k, now) ==> There(later.cache, k, now).Some?
      {
        WriteThere(c, cfg, x, v, None, k, now);
        ThereAfterMset(out.cache, cfg, pairs[1..], k, now);
      }
      EvictedTogether(out, later, now);
    }
  }

  /** The request is a SET that applies, whose replicated form is refused, and that changes its key. */
  predicate RefusedSet(p: Cache, raw: Record, now: int) {
    && Parse(raw).Ok? && Parse(raw).cmd.CSet? && !FitsReplication(Parse(raw).cmd.opts)
    && var o := Parse(raw).cmd.opts;
       Applies(o, There(p, o.key, now)) && There(p, o.key, now) != Some(Held(o.value, Some(now + o.ttl.value)))
  }

  /** Told from the state before: a request after which primary and replica differ. */
  predicate PartsNow(p: Cache, cfg: Config, raw: Record, now: int) {
    MsetBringsBack(p, cfg, raw, now) || RefusedSet(p, raw, now)
  }

  lemma ApplyingSetTakesEffect(p: Cache, cfg: Config, raw: Record, now: int)
    requires Parse(raw).Ok? && Parse(raw).cmd.CSet?
    ensures TookEffect(raw, Dispatch(p, cfg, raw, now)) <==>
            Applies(Parse(raw).cmd.opts, There(p, Parse(raw).cmd.opts.key, now))
  {
    SetWrites(p, cfg, Parse(raw).cmd.opts, now);
    SetReply(p, cfg, Parse(raw).cmd.opts, now);
  }

  lemma UnsentParts(p: Cache, cfg: Config, raw: Record, now: int)
    requires !TookEffect(raw, Dispatch(p, cfg, raw, now))
    ensures !PartsNow(p, cfg, raw, now)
  {
    if Parse(raw).Ok? && Parse(raw).cmd.CMset? {
      MsetReply(p, cfg, Parse(raw).cmd.pairs, now);
    }
    if Parse(raw).Ok? && Parse(raw).cmd.CSet? {
      ApplyingSetTakesEffect(p, cfg, raw, now);
    }
  }

  lemma UnsentStep(p: Cache, r: Cache, cfg: Config, raw: Record, now: int)
    requires WF(p) && AgreeNow(p, r, now) && !TookEffect(raw, Dispatch(p, cfg, raw, now))
    ensures var eff := Dispatch(p, cfg, raw, now); AgreeNow(eff.cache, Replay(r, REPLICA, Messages(raw, eff), now), now)
  {
    var eff := Dispatch(p, cfg, raw, now);
    forall k ensures There(eff.cache, k, now) == There(r, k, now) {
      UnsentChangesNothing(p, cfg, raw, k, now);
      AgreeAtKey(p, r, k, now);
    }
    UnsentChangesNothing(p, cfg, raw, [], now);
    assert Messages(raw, eff) == [];
    AgreeByKey(eff.cache, r, now);
  }

  /** What the evicted keys decide, when the form was understood. */
  lemma UnderstoodAgree(p: Cache, q: Cache, cmd: Command, eff: Effect, now: int)
    requires forall k :: LeftAt(p, cmd, eff, k, now)
    requires forall k :: There(q, k, now) == if k in eff.evicted then None else KeyAfter(There(p, k, now), cmd, k, now)
    ensures AgreeNow(eff.cache, q, now) <==> !EvictedIsThere(eff, now)
  {
    if !EvictedIsThere(eff, now) {
      forall k ensures There(eff.cache, k, now) == There(q, k, now) {
        assert LeftAt(p, cmd, eff, k, now);
      }
      AgreeByKey(eff.cache, q, now);
    } else {
      var k :| k in eff.evicted && There(eff.cache, k, now).Some?;
      assert There(q, k, now).None?;
    }
  }

  lemma PartsIffEvictedIsThere(p: Cache, cfg: Config, raw: Record, now: int)
    requires WF(p) && Parse(raw).Ok? && FormFits(Parse(raw).cmd)
    ensures PartsNow(p, cfg, raw, now) <==> EvictedIsThere(Dispatch(p, cfg, raw, now), now)
  {
    var cmd, eff := Parse(raw).cmd, Dispatch(p, cfg, raw, now);
    if cmd.CMset? {
      EvictedIsThereIffBroughtBack(p, cfg, cmd.pairs, now);
    } else {
      forall k | k in eff.evicted ensures There(eff.cache, k, now).None? {
        CommandLeft(p, cfg, cmd, k, now);
      }
    }
  }

  lemma UnderstoodStep(p: Cache, r: Cache, cfg: Config, raw: Record, now: int)
    requires WF(p) && WF(r) && AgreeNow(p, r, now)
    requires TookEffect(raw, Dispatch(p, cfg, raw, now)) && FormFits(Parse(raw).cmd)
    ensures var eff := Dispatch(p, cfg, raw, now);
            AgreeNow(eff.cache, Replay(r, REPLICA, Messages(raw, eff), now), now) <==> !PartsNow(p, cfg, raw, now)
  {
    var cmd, eff := Parse(raw).cmd, Dispatch(p, cfg, raw, now);
    var q := Replay(r, REPLICA, [ToReplication(raw)] + DelRecords(eff.evicted), now);
    forall k
      ensures LeftAt(p, cmd, eff, k, now)
      ensures There(q, k, now) == if k in eff.evicted then None else KeyAfter(There(p, k, now), cmd, k, now)
    {
      CommandLeft(p, cfg, cmd, k, now);
      MessagesThere(r, ToReplication(raw), eff.evicted, k, now);
      AgreeAtKey(p, r, k, now);
      FormSays(p, cfg, raw, k, now);
    }
    UnderstoodAgree(p, q, cmd, eff, now);
    PartsIffEvictedIsThere(p, cfg, raw, now);
  }

  /** A SET whose form is refused writes its key on the primary alone. */
  lemma RefusedAgree(p: Cache, q: Cache, o: SetOptions, eff: Effect, h: Held, now: int)
    requires forall k :: LeftAt(p, CSet(o), eff, k, now)
    requires forall k :: There(q, k, now) == if k in eff.evicted then None else There(p, k, now)
    requires There(eff.cache, o.key, now) == Some(h)
    ensures AgreeNow(eff.cache, q, now) <==> There(p, o.key, now) == Some(h)
  {
    assert LeftAt(p, CSet(o), eff, o.key, now);
    if There(p, o.key, now) == Some(h) {
      forall k ensures There(eff.cache, k, now) == There(q, k, now) {
        assert LeftAt(p, CSet(o), eff, k, now);
      }
      AgreeByKey(eff.cache, q, now);
    } else if AgreeNow(eff.cache, q, now) {
      AgreeAtKey(eff.cache, q, o.key, now);
    }
  }

  lemma SetIsThere(p: Cache, cfg: Config, o: SetOptions, now: int)
    requires WF(p) && Applies(o, There(p, o.key, now)) && o.ttl.Some? && o.ttl.value > 0
    ensures There(ExecSet(p, cfg, o, now).cache, o.key, now) == Some(Held(o.value, Some(now + o.ttl.value)))
  {
    var d := Probed(p, o, now);
    SetWrites(p, cfg, o, now);
    ProbedThere(p, o, o.key, now);
    WrittenKeySurvives(d, cfg, o.key, NewEntry(o.key, o.value, Deadline(o.ttl, now)), now);
  }

  lemma RefusedMessages(r: Cache, raw: Record, evicted: seq<Key>, k: Key, now: int)
    requires WF(r) && Parse(ToReplication(raw)).Fail?
    ensures There(Replay(r, REPLICA, [ToReplication(raw)] + DelRecords(evicted), now), k, now) ==
              if k in evicted then None else There(r, k, now)
  {
    MessagesThere(r, ToReplication(raw), evicted, k, now);
  }

  lemma RefusedKeys(p: Cache, r: Cache, cfg: Config, raw: Record, o: SetOptions, eff: Effect, q: Cache, now: int)
    requires WF(p) && WF(r) && AgreeNow(p, r, now) && Parse(ToReplication(raw)).Fail?
    requires eff == Exec(p, cfg, CSet(o), now)
    requires q == Replay(r, REPLICA, [ToReplication(raw)] + DelRecords(eff.evicted), now)
    ensures forall k :: LeftAt(p, CSet(o), eff, k, now)
    ensures forall k :: There(q, k, now) == if k in eff.evicted then None else There(p, k, now)
  {
    forall k ensures LeftAt(p, CSet(o), eff, k, now) {
      CommandLeft(p, cfg, CSet(o), k, now);
    }
    forall k ensures There(q, k, now) == if k in eff.evicted then None else There(p, k, now) {
      RefusedMessages(r, raw, eff.evicted, k, now);
      AgreeAtKey(p, r, k, now);
    }
  }

  lemma RefusedParts(p: Cache, cfg: Config, raw: Record, o: SetOptions, now: int)
    requires Parse(raw) == Ok(CSet(o)) && !FitsReplication(o) && Applies(o, There(p, o.key, now))
    ensures PartsNow(p, cfg, raw, now) <==> There(p, o.key, now) != Some(Held(o.value, Some(now + o.ttl.value)))
  {
  }

  lemma RefusedStep(p: Cache, r: Cache, cfg: Config, raw: Record, now: int)
    requires WF(p) && WF(r) && AgreeNow(p, r, now)
    requires TookEffect(raw, Dispatch(p, cfg, raw, now)) && !FormFits(Parse(raw).cmd)
    ensures var eff := Dispatch(p, cfg, raw, now);
            AgreeNow(eff.cache, Replay(r, REPLICA, Messages(raw, eff), now), now) <==> !PartsNow(p, cfg, raw, now)
  {
    var o, eff := Parse(raw).cmd.opts, Dispatch(p, cfg, raw, now);
    var q := Replay(r, REPLICA, [ToReplication(raw)] + DelRecords(eff.evicted), now);
    ReplicatedSetParses(raw);
    SetApplied(p, cfg, raw, now);
    SetOptionsOf(raw);
    SetIsThere(p, cfg, o, now);
    RefusedKeys(p, r, cfg, raw, o, eff, q, now);
    RefusedAgree(p, q, o, eff, Held(o.value, Some(now + o.ttl.value)), now);
    RefusedParts(p, cfg, raw, o, now);
  }

  /**
   * From stores that agree on what is there, deadlines included, a request on the capped primary and its
   * messages on the replica at that instant leave them agreeing if and only if the request is not an MSET
   * that brings back a key it evicted, nor a SET whose replicated form is refused and that changes its key.
   */
  lemma AgreeStep(p: Cache, r: Cache, cfg: Config, raw: Record, now: int)
    requires WF(p) && WF(r) && AgreeNow(p, r, now)
    ensures var eff := Dispatch(p, cfg, raw, now);
            AgreeNow(eff.cache, Replay(r, REPLICA, Messages(raw, eff), now), now) <==> !PartsNow(p, cfg, raw, now)
  {
    if !TookEffect(raw, Dispatch(p, cfg, raw, now)) {
      UnsentStep(p, r, cfg, raw, now);
      UnsentParts(p, cfg, raw, now);
    } else if FormFits(Parse(raw).cmd) {
      UnderstoodStep(p, r, cfg, raw, now);
    } else {
      RefusedStep(p, r, cfg, raw, now);
    }
  }

  /* ----- whole runs ----- */

  /** The replica after the messages of a run, each run at the instant of its request. */
  function ReplicaAlong(p: Cache, cfg: Config, r: Cache, run: seq<Request>): Cache {
    if run == [] then r
    else
      var before, last := run[..|run| - 1], run[|run| - 1];
      var eff := Dispatch(PrimaryAfter(p, cfg, before), cfg, last.raw, last.now);
      Replay(ReplicaAlong(p, cfg, r, before), REPLICA, Messages(last.raw, eff), last.now)
  }

  lemma {:induction false} ReplicaAlongWF(p: Cache, cfg: Config, r: Cache, run: seq<Request>)
    requires WF(r)
    ensures WF(ReplicaAlong(p, cfg, r, run))
  {
    if run != [] {
      var before, last := run[..|run| - 1], run[|run| - 1];
      ReplicaAlongWF(p, cfg, r, before);
      var eff := Dispatch(PrimaryAfter(p, cfg, before), cfg, last.raw, last.now);
      ReplayWF(ReplicaAlong(p, cfg, r, before), REPLICA, Messages(last.raw, eff), last.now);
    }
  }

  /** From when the agreement after `n` requests is meant: the last of them, or the beginning. */
  function Moment(run: seq<Request>, start: int, n: nat): int
    requires n <= |run|
  {
    if n == 0 then start else run[n - 1].now
  }

  /** After `n` requests, primary and replica agree, and so do they until the next one. */
  ghost predicate AgreeAfter(p: Cache, cfg: Config, r: Cache, run: seq<Request>, start: int, n: nat)
    requires n <= |run|
  {
    AgreeNow(PrimaryAfter(p, cfg, run[..n]), ReplicaAlong(p, cfg, r, run[..n]), Moment(run, start, n))
  }

  ghost predicate PartsAfter(p: Cache, cfg: Config, run: seq<Request>, n: nat)
    requires n < |run|
  {
    PartsNow(PrimaryAfter(p, cfg, run[..n]), cfg, run[n].raw, run[n].now)
  }

  predicate StepInTime(run: seq<Request>, start: int, n: nat)
    requires n < |run|
  {
    Moment(run, start, n) <= run[n].now
  }

  /** The clock never goes back, from `start` on. */
  ghost predicate Onward(run: seq<Request>, start: int) {
    forall n: nat :: n < |run| ==> StepInTime(run, start, n)
  }

  lemma AgreeNext(p: Cache, cfg: Config, r: Cache, run: seq<Request>, start: int, n: nat)
    requires WF(p) && WF(r) && n < |run| && Onward(run, start) && AgreeAfter(p, cfg, r, run, start, n)
    ensures AgreeAfter(p, cfg, r, run, start, n + 1) <==> !PartsAfter(p, cfg, run, n)
  {
    var c, q, raw, now := PrimaryAfter(p, cfg, run[..n]), ReplicaAlong(p, cfg, r, run[..n]), run[n].raw, run[n].now;
    PrimaryWF(p, cfg, run[..n]);
    ReplicaAlongWF(p, cfg, r, run[..n]);
    assert StepInTime(run, start, n);
    AgreeLater(c, q, Moment(run, start, n), now);
    AgreeStep(c, q, cfg, raw, now);
    assert run[..n + 1][..n] == run[..n];
  }

  lemma {:induction false} AgreeUpTo(p: Cache, cfg: Config, r: Cache, run: seq<Request>, start: int, n: nat)
    requires WF(p) && WF(r) && n <= |run| && Onward(run, start) && AgreeNow(p, r, start)
    requires forall m: nat :: m < |run| ==> !PartsAfter(p, cfg, run, m)
    ensures AgreeAfter(p, cfg, r, run, start, n)
  {
    if n > 0 {
      AgreeUpTo(p, cfg, r, run, start, n - 1);
      AgreeNext(p, cfg, r, run, start, n - 1);
    }
  }

  /**
   * A replica that agrees with a capped primary, deadlines included, and runs each message when it is sent,
   * agrees after every request of a run iff no request of the run parts them. Between requests keys expire
   * on both at the same moments.
   */
  lemma TimedRunAgreesIff(p: Cache, cfg: Config, r: Cache, run: seq<Request>, start: int)
    requires WF(p) && WF(r) && Onward(run, start) && AgreeNow(p, r, start)
    ensures (forall n: nat :: n <= |run| ==> AgreeAfter(p, cfg, r, run, start, n)) <==>
            (forall n: nat :: n < |run| ==> !PartsAfter(p, cfg, run, n))
  {
    if forall n: nat :: n < |run| ==> !PartsAfter(p, cfg, run, n) {
      forall n: nat | n <= |run| ensures AgreeAfter(p, cfg, r, run, start, n) {
        AgreeUpTo(p, cfg, r, run, start, n);
      }
    } else {
      var n: nat :| n < |run| && PartsAfter(p, cfg, run, n);
      if AgreeAfter(p, cfg, r, run, start, n) {
        AgreeNext(p, cfg, r, run, start, n);
      }
    }
  }

  /* ----- a resync with deadlines ----- */

  /** Whole seconds, so that the key outlives its deadline on the primary, by a second at most. */
  predicate LateByASecond(left: int, late: int) {
    left < late <= left + 1000
  }

  /** The seconds of a snapshot fit the 64 bits that EXPIRE reads. */
  predicate SnapshotFits(left: int) {
    left < 1000 * 9223372036854775807
  }

  /** What a replica holds, at `at`, of an entry that a snapshot at `now` sent. */
  ghost predicate Restored(h: Held, got: Option<Held>, now: int, at: int) {
    && got.Some? && got.value.value == h.value
    && (h.deadline.None? ==> got.value.deadline.None?)
    && (h.deadline.Some? ==>
          if SnapshotFits(h.deadline.value - now) then
            got.value.deadline.Some? && LateByASecond(h.deadline.value - now, got.value.deadline.value - at)
          else got.value.deadline.None?)
  }

  lemma ExpireWords(k: Key, n: int)
    ensures Parse(["EXPIRE", k, IntText(n)]) ==
              if -9223372036854775808 <= n <= 9223372036854775807 then Ok(CExpire(k, n * 1000)) else NOT_AN_INTEGER
  {
    var raw := ["EXPIRE", k, IntText(n)];
    IntTextRoundTrip(n);
    UpperFixed("EXPIRE");
    ExpiryNames(raw);
  }

  lemma SecondsAreLate(left: int)
    ensures LateByASecond(left, SnapshotSeconds(left) * 1000)
    ensures left > 0 ==> SnapshotSeconds(left) > 0
    ensures left > 0 ==> (SnapshotFits(left) <==> SnapshotSeconds(left) <= 9223372036854775807)
  {
  }

  lemma SetRecordThere(t: Cache, k: Key, v: Bytes, x: Key, at: int)
    requires WF(t)
    ensures var u := Dispatch(t, REPLICA, SetRecord(k, v), at).cache;
            WF(u) && There(u, x, at) == if x == k then Some(Held(v, None)) else There(t, x, at)
  {
    ParseSetRecord(k, v);
    ReplicaDoes(t, SetRecord(k, v), x, at);
    DispatchWF(t, REPLICA, SetRecord(k, v), at);
  }

  lemma ExpireSays(h: Option<Held>, k: Key, v: Bytes, n: int, x: Key, at: int)
    requires n > 0 && (x == k ==> h == Some(Held(v, None)))
    ensures SaidAt(h, ["EXPIRE", k, IntText(n)], x, at) ==
              if x == k && n <= 9223372036854775807 then Some(Held(v, Some(at + n * 1000))) else h
  {
    ExpireWords(k, n);
  }

  /** EXPIRE with seconds that fit sets the deadline, and is refused otherwise. */
  lemma ExpireThere(t: Cache, k: Key, v: Bytes, n: int, x: Key, at: int)
    requires WF(t) && n > 0 && There(t, k, at) == Some(Held(v, None))
    ensures There(Dispatch(t, REPLICA, ["EXPIRE", k, IntText(n)], at).cache, x, at) ==
              if x == k && n <= 9223372036854775807 then Some(Held(v, Some(at + n * 1000))) else There(t, x, at)
  {
    var raw := ["EXPIRE", k, IntText(n)];
    ReplicaDoes(t, raw, x, at);
    ExpireSays(There(t, x, at), k, v, n, x, at);
  }

  lemma TimedEntry(t: Cache, k: Key, v: Bytes, n: int, x: Key, at: int)
    requires WF(t) && n > 0
    ensures There(Replay(t, REPLICA, [SetRecord(k, v), ["EXPIRE", k, IntText(n)]], at), x, at) ==
              if x != k then There(t, x, at)
              else Some(Held(v, if n <= 9223372036854775807 then Some(at + n * 1000) else None))
  {
    SetRecordThere(t, k, v, x, at);
    SetRecordThere(t, k, v, k, at);
    ReplayTwo(t, REPLICA, SetRecord(k, v), ["EXPIRE", k, IntText(n)], at);
    ExpireThere(Dispatch(t, REPLICA, SetRecord(k, v), at).cache, k, v, n, x, at);
  }

  lemma LateDeadline(v: Bytes, d: int, now: int, at: int)
    requires now < d
    ensures var n := SnapshotSeconds(d - now);
            n > 0 && Restored(Held(v, Some(d)), Some(Held(v, if n <= 9223372036854775807 then Some(at + n * 1000) else None)),
                              now, at)
  {
    SecondsAreLate(d - now);
  }

  /** The records of one entry, run on a store that evicts nothing. */
  ghost predicate RestoresEntry(t: Cache, u: Cache, k: Key, h: Held, x: Key, now: int, at: int) {
    if x == k then Restored(h, There(u, x, at), now, at) else There(u, x, at) == There(t, x, at)
  }

  lemma PlainEntryRestored(t: Cache, k: Key, v: Bytes, x: Key, now: int, at: int)
    requires WF(t)
    ensures RestoresEntry(t, Replay(t, REPLICA, [SetRecord(k, v)], at), k, Held(v, None), x, now, at)
  {
    SetRecordThere(t, k, v, x, at);
    ReplayOne(t, REPLICA, SetRecord(k, v), at);
  }

  lemma TimedEntryRestored(t: Cache, k: Key, v: Bytes, d: int, x: Key, now: int, at: int, recs: seq<Record>)
    requires WF(t) && now < d && recs == [SetRecord(k, v), ["EXPIRE", k, IntText(SnapshotSeconds(d - now))]]
    ensures RestoresEntry(t, Replay(t, REPLICA, recs, at), k, Held(v, Some(d)), x, now, at)
  {
    LateDeadline(v, d, now, at);
    TimedEntry(t, k, v, SnapshotSeconds(d - now), x, at);
  }

  lemma EntryRestored(t: Cache, k: Key, e: Entry, x: Key, now: int, at: int)
    requires WF(t) && NotYet(now, e.deadline)
    ensures RestoresEntry(t, Replay(t, REPLICA, KeySnapshot(k, e, now), at), k, Held(e.value, e.deadline), x, now, at)
  {
    if e.deadline.None? {
      PlainEntryRestored(t, k, e.value, x, now, at);
    } else {
      TimedEntryRestored(t, k, e.value, e.deadline.value, x, now, at, KeySnapshot(k, e, now));
    }
  }

  /** Every entry has a deadline still to come, or none: what a snapshot is taken of. */
  ghost predicate AllLive(p: Cache, now: int) {
    forall k :: k in p.entries ==> NotYet(now, p.entries[k].deadline)
  }

  /** At one key: the keys in `o` are restored, and every other key holds what it held. */
  ghost predicate RestoresKeys(t: Cache, o: seq<Key>, m: map<Key, Entry>, u: Cache, k: Key, now: int, at: int)
    requires k in o ==> k in m
  {
    if k in o then Restored(Held(m[k].value, m[k].deadline), There(u, k, at), now, at)
    else There(u, k, at) == There(t, k, at)
  }

  lemma OneMoreRestored(t: Cache, before: seq<Key>, last: Key, m: map<Key, Entry>, u: Cache, w: Cache, k: Key, now: int,
                        at: int)
    requires last in m && last !in before && (k in before ==> k in m)
    requires RestoresKeys(t, before, m, u, k, now, at)
    requires RestoresEntry(u, w, last, Held(m[last].value, m[last].deadline), k, now, at)
    ensures RestoresKeys(t, before + [last], m, w, k, now, at)
  {
  }

  lemma {:induction false} SnapshotRestored(t: Cache, o: seq<Key>, m: map<Key, Entry>, k: Key, now: int, at: int)
    requires WF(t) && Distinct(o) && forall x :: x in o ==> x in m && NotYet(now, m[x].deadline)
    ensures RestoresKeys(t, o, m, Replay(t, REPLICA, SnapshotRecords(o, m, now), at), k, now, at)
  {
    if o == [] {
      assert SnapshotRecords(o, m, now) == [];
    } else {
      var before, last := o[..|o| - 1], o[|o| - 1];
      var recs := SnapshotRecords(before, m, now);
      SnapshotRestored(t, before, m, k, now, at);
      ReplayAppend(t, REPLICA, recs, KeySnapshot(last, m[last], now), at);
      ReplayWF(t, REPLICA, recs, at);
      EntryRestored(Replay(t, REPLICA, recs, at), last, m[last], k, now, at);
      OneMoreRestored(t, before, last, m, Replay(t, REPLICA, recs, at),
                      Replay(Replay(t, REPLICA, recs, at), REPLICA, KeySnapshot(last, m[last], now), at), k, now, at);
      assert o == before + [last];
    }
  }

  /**
   * A resync with deadlines, whatever the replica held: it holds exactly the keys of the primary, with
   * their values; a key without a deadline has none, and a deadline comes back late by at most a second,
   * never early - if and only if its whole seconds fit the 64 bits that EXPIRE reads, else it is lost and
   * the key stays for ever.
   */
  lemma ResyncWithDeadlines(p: Cache, r: Cache, k: Key, now: int, at: int)
    requires WF(p) && AllLive(p, now)
    ensures var got := There(Replay(r, REPLICA, Resync(p, now), at), k, at);
            if k in p.entries then Restored(Held(p.entries[k].value, p.entries[k].deadline), got, now, at)
            else got.None?
  {
    var snapshot := SnapshotRecords(p.order, p.entries, now);
    ReplayAppend(r, REPLICA, [["FLUSHDB"]], snapshot, at);
    ReplayFlush(r, at);
    SnapshotRestored(EMPTY, p.order, p.entries, k, now, at);
  }

  /** A key set for the longest time that SET accepts comes back from an immediate resync without a deadline. */
  lemma LongestTimeIsLost(v: Bytes, now: int)
    ensures var p := Cache(["k"], map["k" := NewEntry("k", v, Some(now + 1000 * 9223372036854775807))]);
            There(Replay(EMPTY, REPLICA, Resync(p, now), now), "k", now) == Some(Held(v, None))
  {
    var p := Cache(["k"], map["k" := NewEntry("k", v, Some(now + 1000 * 9223372036854775807))]);
    ResyncWithDeadlines(p, EMPTY, "k", now, now);
  }
}

/**
 * What the append-only log means: the normalised records, replayed at any later time, rebuild the
 * entries alive at that time - and exactly when they do not.
 */
module TimedReplay {
  import opened Base
  import opened Decimal
  import opened CacheModel
  import opened Commands

  /** Run records one after the other at one time, as a restart does. */
  function Replay(c: Cache, cfg: Config, recs: seq<Record>, at: int): Cache {
    if recs == [] then c
    else Dispatch(Replay(c, cfg, recs[..|recs| - 1], at), cfg, recs[|recs| - 1], at).cache
  }

  lemma {:induction false} ReplayAppend(c: Cache, cfg: Config, a: seq<Record>, b: seq<Record>, at: int)
    ensures Replay(c, cfg, a + b, at) == Replay(Replay(c, cfg, a, at), cfg, b, at)
  {
    if b == [] {
      assert a + b == a;
    } else {
      var n := |b| - 1;
      assert (a + b)[..|a + b| - 1] == a + b[..n];
      ReplayAppend(c, cfg, a, b[..n], at);
    }
  }

  lemma ReplayOne(c: Cache, cfg: Config, r: Record, at: int)
    ensures Replay(c, cfg, [r], at) == Dispatch(c, cfg, r, at).cache
  {
    assert [r][..0] == [];
    assert Replay(c, cfg, [], at) == c;
  }

  lemma ReplayTwo(c: Cache, cfg: Config, r: Record, s: Record, at: int)
    ensures Replay(c, cfg, [r, s], at) == Dispatch(Dispatch(c, cfg, r, at).cache, cfg, s, at).cache
  {
    assert [r, s][..1] == [r];
    ReplayOne(c, cfg, r, at);
  }

  lemma {:induction false} ReplayWF(c: Cache, cfg: Config, recs: seq<Record>, at: int)
    requires WF(c)
    ensures WF(Replay(c, cfg, recs, at))
  {
    if recs != [] {
      ReplayWF(c, cfg, recs[..|recs| - 1], at);
      DispatchWF(Replay(c, cfg, recs[..|recs| - 1], at), cfg, recs[|recs| - 1], at);
    }
  }

  /** The records one command adds to the log of a store without a memory cap. */
  function Logged(c: Cache, cfg: Config, raw: Record, now: int): seq<Record> {
    if TookEffect(raw, Dispatch(c, cfg, raw, now)) then ToAof(raw, now) else []
  }

  /* ----- entries alive at a fixed later time ----- */

  /** Same keys, values and deadlines among the entries alive at `at`. */
  ghost predicate Agree(o: Cache, r: Cache, at: int) {
    LiveEntries(o.entries, at) == LiveEntries(r.entries, at)
  }

  function Written(m: map<Key, Entry>, k: Key, e: Entry, at: int): map<Key, Entry> {
    if Expired(e, at) then m - {k} else m[k := e]
  }

  lemma DropKeepsLive(c: Cache, k: Key, now: int, at: int)
    requires now <= at
    ensures LiveEntries(DropIfExpired(c, k, now).entries, at) == LiveEntries(c.entries, at)
  {
  }

  lemma GetKeepsLive(c: Cache, k: Key, now: int, at: int)
    requires now <= at
    ensures LiveEntries(DoGet(c, k, now).cache.entries, at) == LiveEntries(c.entries, at)
  {
    DropKeepsLive(c, k, now, at);
    if IsLive(c, k, now) {
      assert c.entries[k := c.entries[k]] == c.entries;
    }
  }

  lemma SetLive(c: Cache, cfg: Config, k: Key, v: Bytes, ttl: Option<int>, now: int, at: int)
    requires cfg.maxmemory == 0
    ensures LiveEntries(DoSet(c, cfg, k, v, ttl, now).cache.entries, at) ==
            Written(LiveEntries(c.entries, at), k, NewEntry(k, v, Deadline(ttl, now)), at)
  {
    LiveEntriesUpdate(c.entries, k, NewEntry(k, v, Deadline(ttl, now)), at);
  }

  lemma DeleteLive(c: Cache, k: Key, now: int, at: int)
    ensures LiveEntries(DoDelete(c, k, now).cache.entries, at) == LiveEntries(c.entries, at) - {k}
  {
  }

  lemma IncrLive(c: Cache, cfg: Config, k: Key, delta: int, now: int, at: int)
    requires cfg.maxmemory == 0 && now <= at
    ensures var out := DoIncr(c, cfg, k, delta, now);
            var kept := if IsLive(c, k, now) then c.entries[k].deadline else None;
            LiveEntries(out.cache.entries, at) ==
            if out.reply.Number?
            then Written(LiveEntries(c.entries, at), k, NewEntry(k, IntText(out.reply.n), kept), at)
            else LiveEntries(c.entries, at)
  {
    var d := DropIfExpired(c, k, now);
    DropKeepsLive(c, k, now, at);
    var out := DoIncr(c, cfg, k, delta, now);
    if out.reply.Number? {
      var kept := if k in d.entries then d.entries[k].deadline else None;
      LiveEntriesUpdate(d.entries, k, NewEntry(k, IntText(out.reply.n), kept), at);
    }
  }

  lemma ExpireAtLive(c: Cache, k: Key, deadline: int, now: int, at: int)
    requires now <= at
    ensures LiveEntries(DoExpireAt(c, k, deadline, now).cache.entries, at) ==
            if IsLive(c, k, now)
            then Written(LiveEntries(c.entries, at), k, c.entries[k].(deadline := Some(deadline)), at)
            else LiveEntries(c.entries, at)
  {
    DropKeepsLive(c, k, now, at);
    if IsLive(c, k, now) {
      LiveEntriesUpdate(c.entries, k, c.entries[k].(deadline := Some(deadline)), at);
    }
  }

  lemma PersistLive(c: Cache, k: Key, now: int, at: int)
    requires now <= at
    ensures LiveEntries(DoPersist(c, k, now).cache.entries, at) ==
            if IsLive(c, k, now) && c.entries[k].deadline.Some?
            then LiveEntries(c.entries, at)[k := c.entries[k].(deadline := None)]
            else LiveEntries(c.entries, at)
  {
    DropKeepsLive(c, k, now, at);
    if IsLive(c, k, now) {
      LiveEntriesUpdate(c.entries, k, c.entries[k].(deadline := None), at);
    }
  }

  /** A SET that takes effect writes its entry; one that does not leaves everything alive as it was. */
  lemma ExecSetLive(c: Cache, cfg: Config, o: SetOptions, now: int, at: int)
    requires cfg.maxmemory == 0 && now <= at
    ensures var eff := ExecSet(c, cfg, o, now);
            LiveEntries(eff.cache.entries, at) ==
            if eff.writes > 0
            then Written(LiveEntries(c.entries, at), o.key, NewEntry(o.key, o.value, Deadline(o.ttl, now)), at)
            else LiveEntries(c.entries, at)
  {
    var first := DoGet(c, o.key, now);
    GetKeepsLive(c, o.key, now, at);
    GetKeepsLive(first.cache, o.key, now, at);
    var c1 := if o.get then DoGet(first.cache, o.key, now).cache else first.cache;
    SetLive(c1, cfg, o.key, o.value, o.ttl, now, at);
  }

  lemma ReplaySetRecord(c: Cache, cfg: Config, k: Key, v: Bytes, at: int)
    requires cfg.maxmemory == 0
    ensures LiveEntries(Dispatch(c, cfg, SetRecord(k, v), at).cache.entries, at) ==
            LiveEntries(c.entries, at)[k := NewEntry(k, v, None)]
  {
    ParseSetRecord(k, v);
    ExecSetLive(c, cfg, Plain(k, v), at, at);
  }

  lemma ReplayExpireAtRecord(c: Cache, cfg: Config, k: Key, deadline: int, at: int)
    ensures var live := LiveEntries(c.entries, at);
            LiveEntries(Dispatch(c, cfg, ExpireAtRecord(k, deadline), at).cache.entries, at) ==
            if k in live then Written(live, k, live[k].(deadline := Some(deadline)), at) else live
  {
    ParseExpireAtRecord(k, deadline);
    ExpireAtLive(c, k, deadline, at, at);
  }

  /** SET followed by PEXPIREAT leaves the entry with that deadline, or no entry if it has passed. */
  lemma ReplaySetExpireAt(c: Cache, cfg: Config, k: Key, v: Bytes, deadline: int, at: int)
    requires cfg.maxmemory == 0
    ensures LiveEntries(Replay(c, cfg, [SetRecord(k, v), ExpireAtRecord(k, deadline)], at).entries, at) ==
            Written(LiveEntries(c.entries, at), k, NewEntry(k, v, Some(deadline)), at)
  {
    ReplayTwo(c, cfg, SetRecord(k, v), ExpireAtRecord(k, deadline), at);
    ReplaySetRecord(c, cfg, k, v, at);
    ReplayExpireAtRecord(Dispatch(c, cfg, SetRecord(k, v), at).cache, cfg, k, deadline, at);
    assert NewEntry(k, v, None).(deadline := Some(deadline)) == NewEntry(k, v, Some(deadline));
  }

  /* ----- one command ----- */

  /** Alive when the command ran, but past its deadline when the log is replayed. */
  predicate Doomed(o: Cache, k: Key, now: int, at: int) {
    IsLive(o, k, now) && Expired(o.entries[k], at)
  }

  /**
   * The commands whose record cannot be replayed: they read or prolong an entry that is alive when
   * they run and will be expired when the log is replayed.
   */
  predicate Hazard(o: Cache, cmd: Command, now: int, at: int) {
    match cmd
    case CIncrBy(k, delta) =>
      Doomed(o, k, now, at) && Int64(delta) &&
      (var stored := StoredInt(o.entries[k].value); stored.Some? && Int64(stored.value + delta))
    case CPersist(k) => Doomed(o, k, now, at)
    case CExpire(k, ms) => Doomed(o, k, now, at) && at < now + ms
    case CExpireAt(k, deadline) => Doomed(o, k, now, at) && at < deadline
    case _ => false
  }

  /** Agreement restated for one key. */
  lemma AgreeAt(o: Cache, r: Cache, k: Key, at: int)
    requires Agree(o, r, at)
    ensures IsLive(o, k, at) <==> IsLive(r, k, at)
    ensures IsLive(o, k, at) ==> o.entries[k] == r.entries[k]
  {
    assert IsLive(o, k, at) <==> k in LiveEntries(o.entries, at);
    assert IsLive(r, k, at) <==> k in LiveEntries(r.entries, at);
  }

  lemma IncrReplies(o: Cache, r: Cache, cfg: Config, k: Key, delta: int, now: int, at: int)
    requires now <= at && Agree(o, r, at) && !Doomed(o, k, now, at)
    ensures DoIncr(o, cfg, k, delta, now).reply == DoIncr(r, cfg, k, delta, at).reply
  {
    AgreeAt(o, r, k, at);
  }

  lemma IncrDoomed(o: Cache, r: Cache, cfg: Config, k: Key, delta: int, now: int, at: int)
    requires now <= at && Agree(o, r, at) && Doomed(o, k, now, at)
    ensures DoIncr(r, cfg, k, delta, at).reply == if Int64(delta) then Number(delta) else Rejected(Overflow)
  {
    AgreeAt(o, r, k, at);
  }

  lemma IncrStep(o: Cache, r: Cache, cfg: Config, k: Key, delta: int, now: int, at: int)
    requires cfg.maxmemory == 0 && now <= at && Agree(o, r, at)
    requires DoIncr(o, cfg, k, delta, now).reply.Number?
    ensures Agree(DoIncr(o, cfg, k, delta, now).cache, DoIncr(r, cfg, k, delta, at).cache, at) <==>
            !(Doomed(o, k, now, at) && Int64(delta))
  {
    IncrLive(o, cfg, k, delta, now, at);
    IncrLive(r, cfg, k, delta, at, at);
    AgreeAt(o, r, k, at);
    var live := LiveEntries(o.entries, at);
    if Doomed(o, k, now, at) {
      IncrDoomed(o, r, cfg, k, delta, now, at);
      assert k !in live;
      assert live - {k} == live;
    } else {
      IncrReplies(o, r, cfg, k, delta, now, at);
    }
  }

  lemma PersistStep(o: Cache, r: Cache, k: Key, now: int, at: int)
    requires now <= at && Agree(o, r, at)
    ensures Agree(DoPersist(o, k, now).cache, DoPersist(r, k, at).cache, at) <==> !Doomed(o, k, now, at)
  {
    PersistLive(o, k, now, at);
    PersistLive(r, k, at, at);
    AgreeAt(o, r, k, at);
    if Doomed(o, k, now, at) {
      assert k !in LiveEntries(o.entries, at);
    }
  }

  lemma ExpireStep(o: Cache, r: Cache, k: Key, deadline: int, now: int, at: int)
    requires now <= at && Agree(o, r, at)
    ensures Agree(DoExpireAt(o, k, deadline, now).cache, DoExpireAt(r, k, deadline, at).cache, at) <==>
            !(Doomed(o, k, now, at) && at < deadline)
  {
    ExpireAtLive(o, k, deadline, now, at);
    ExpireAtLive(r, k, deadline, at, at);
    AgreeAt(o, r, k, at);
    if Doomed(o, k, now, at) {
      assert k !in LiveEntries(o.entries, at);
      assert LiveEntries(o.entries, at) - {k} == LiveEntries(o.entries, at);
    }
  }

  lemma {:induction false} MsetStep(o: Cache, r: Cache, cfg: Config, pairs: seq<(Key, Bytes)>, now: int, at: int)
    requires cfg.maxmemory == 0 && Agree(o, r, at)
    ensures Agree(ExecMset(o, cfg, pairs, now).cache, ExecMset(r, cfg, pairs, at).cache, at)
    decreases |pairs|
  {
    if pairs != [] {
      SetLive(o, cfg, pairs[0].0, pairs[0].1, None, now, at);
      SetLive(r, cfg, pairs[0].0, pairs[0].1, None, at, at);
      MsetStep(DoSet(o, cfg, pairs[0].0, pairs[0].1, None, now).cache,
               DoSet(r, cfg, pairs[0].0, pairs[0].1, None, at).cache, cfg, pairs[1..], now, at);
    }
  }

  lemma {:induction false} DelStep(o: Cache, r: Cache, keys: seq<Key>, now: int, at: int)
    requires Agree(o, r, at)
    ensures Agree(ExecDel(o, keys, now).0, ExecDel(r, keys, at).0, at)
    decreases |keys|
  {
    if keys != [] {
      DeleteLive(o, keys[0], now, at);
      DeleteLive(r, keys[0], at, at);
      DelStep(DoDelete(o, keys[0], now).cache, DoDelete(r, keys[0], at).cache, keys[1..], now, at);
    }
  }

  /** What a SET logs: nothing, one record, or two. */
  lemma SetLogged(o: Cache, cfg: Config, opts: SetOptions, raw: Record, now: int)
    requires Parse(raw) == Ok(CSet(opts))
    ensures Dispatch(o, cfg, raw, now) == ExecSet(o, cfg, opts, now)
    ensures Logged(o, cfg, raw, now) ==
            if ExecSet(o, cfg, opts, now).writes == 0 then []
            else if opts.ttl.None? then [SetRecord(opts.key, opts.value)]
            else [SetRecord(opts.key, opts.value), ExpireAtRecord(opts.key, now + opts.ttl.value)]
  {
  }

  lemma SetStep(o: Cache, r: Cache, cfg: Config, opts: SetOptions, raw: Record, now: int, at: int)
    requires cfg.maxmemory == 0 && now <= at && Agree(o, r, at) && Parse(raw) == Ok(CSet(opts))
    ensures Agree(Dispatch(o, cfg, raw, now).cache, Replay(r, cfg, Logged(o, cfg, raw, now), at), at)
  {
    SetLogged(o, cfg, opts, raw, now);
    ExecSetLive(o, cfg, opts, now, at);
    var eff := ExecSet(o, cfg, opts, now);
    SetReplayed(o, r, cfg, opts, eff.cache, eff.writes > 0, Logged(o, cfg, raw, now), now, at);
  }

  lemma SetReplayed(o: Cache, r: Cache, cfg: Config, opts: SetOptions, after: Cache, wrote: bool, recs: seq<Record>,
                    now: int, at: int)
    requires cfg.maxmemory == 0 && Agree(o, r, at)
    requires LiveEntries(after.entries, at) ==
             if wrote
             then Written(LiveEntries(o.entries, at), opts.key,
                          NewEntry(opts.key, opts.value, Deadline(opts.ttl, now)), at)
             else LiveEntries(o.entries, at)
    requires recs == if !wrote then [] else if opts.ttl.None? then [SetRecord(opts.key, opts.value)]
                     else [SetRecord(opts.key, opts.value), ExpireAtRecord(opts.key, now + opts.ttl.value)]
    ensures Agree(after, Replay(r, cfg, recs, at), at)
  {
    ReplayOfSet(r, cfg, opts.key, opts.value, opts.ttl, now, at);
  }

  lemma ReplayOfSet(r: Cache, cfg: Config, k: Key, v: Bytes, ttl: Option<int>, now: int, at: int)
    requires cfg.maxmemory == 0
    ensures Replay(r, cfg, [], at) == r
    ensures var recs := if ttl.None? then [SetRecord(k, v)] else [SetRecord(k, v), ExpireAtRecord(k, now + ttl.value)];
            LiveEntries(Replay(r, cfg, recs, at).entries, at) ==
            Written(LiveEntries(r.entries, at), k, NewEntry(k, v, Deadline(ttl, now)), at)
  {
    if ttl.None? {
      ReplayOne(r, cfg, SetRecord(k, v), at);
      ReplaySetRecord(r, cfg, k, v, at);
    } else {
      ReplaySetExpireAt(r, cfg, k, v, now + ttl.value, at);
    }
  }

  /** Reading keys one after the other changes nothing that is alive. */
  lemma {:induction false} MgetKeepsLive(c: Cache, keys: seq<Key>, now: int, at: int)
    requires now <= at
    ensures LiveEntries(ExecMget(c, keys, now).0.entries, at) == LiveEntries(c.entries, at)
    decreases |keys|
  {
    if keys != [] {
      GetKeepsLive(c, keys[0], now, at);
      MgetKeepsLive(DoGet(c, keys[0], now).cache, keys[1..], now, at);
    }
  }

  lemma ReadKeepsLive(c: Cache, cfg: Config, cmd: Command, now: int, at: int)
    requires now <= at && !IsWrite(cmd)
    ensures LiveEntries(Exec(c, cfg, cmd, now).cache.entries, at) == LiveEntries(c.entries, at)
  {
    match cmd {
      case CGet(k) => GetKeepsLive(c, k, now, at);
      case CMget(keys) => MgetKeepsLive(c, keys, now, at);
      case CExists(keys) => MgetKeepsLive(c, keys, now, at);
      case CTtl(k) => DropKeepsLive(c, k, now, at);
      case CKeys(_) => PruneEntries(c, now);
      case CDbsize => PruneEntries(c, now);
      case CPing(_) =>
    }
  }

  /** Commands other than SET and the relative expiries are logged as they came. */
  lemma LoggedAsIs(o: Cache, r: Cache, cfg: Config, raw: Record, cmd: Command, now: int, at: int)
    requires Parse(raw) == Ok(cmd) && IsWrite(cmd) && !cmd.CSet? && !cmd.CExpire?
    ensures Replay(r, cfg, Logged(o, cfg, raw, now), at) ==
            if Exec(o, cfg, cmd, now).reply.Error? then r else Exec(r, cfg, cmd, at).cache
  {
    ReplayOne(r, cfg, raw, at);
  }

  lemma IncrCommandStep(o: Cache, r: Cache, cfg: Config, k: Key, delta: int, now: int, at: int)
    requires cfg.maxmemory == 0 && now <= at && Agree(o, r, at)
    ensures var eff := ExecIncr(o, cfg, k, delta, now);
            Agree(eff.cache, if eff.reply.Error? then r else ExecIncr(r, cfg, k, delta, at).cache, at) <==>
            !Hazard(o, CIncrBy(k, delta), now, at)
  {
    if DoIncr(o, cfg, k, delta, now).reply.Number? {
      IncrStep(o, r, cfg, k, delta, now, at);
    } else {
      IncrLive(o, cfg, k, delta, now, at);
    }
  }

  lemma ExpireCommandStep(o: Cache, r: Cache, cfg: Config, raw: Record, k: Key, ms: int, now: int, at: int)
    requires now <= at && Agree(o, r, at) && Parse(raw) == Ok(CExpire(k, ms))
    ensures Agree(Dispatch(o, cfg, raw, now).cache, Replay(r, cfg, Logged(o, cfg, raw, now), at), at) <==>
            !Hazard(o, CExpire(k, ms), now, at)
  {
    ParseExpireAtRecord(k, now + ms);
    ReplayOne(r, cfg, ExpireAtRecord(k, now + ms), at);
    ExpireStep(o, r, k, now + ms, now, at);
  }

  lemma WriteStep(o: Cache, r: Cache, cfg: Config, raw: Record, cmd: Command, now: int, at: int)
    requires cfg.maxmemory == 0 && now <= at && Agree(o, r, at)
    requires Parse(raw) == Ok(cmd) && IsWrite(cmd) && !cmd.CSet?
    ensures Agree(Dispatch(o, cfg, raw, now).cache, Replay(r, cfg, Logged(o, cfg, raw, now), at), at) <==>
            !Hazard(o, cmd, now, at)
  {
    if cmd.CExpire? {
      ExpireCommandStep(o, r, cfg, raw, cmd.key, cmd.ms, now, at);
    } else {
      LoggedAsIs(o, r, cfg, raw, cmd, now, at);
      match cmd {
        case CMset(pairs) =>
          MsetReply(o, cfg, pairs, now);
          MsetStep(o, r, cfg, pairs, now, at);
        case CDel(keys) => DelStep(o, r, keys, now, at);
        case CIncrBy(k, delta) => IncrCommandStep(o, r, cfg, k, delta, now, at);
        case CExpireAt(k, deadline) => ExpireStep(o, r, k, deadline, now, at);
        case CPersist(k) => PersistStep(o, r, k, now, at);
        case CFlush =>
      }
    }
  }

  lemma MsetReply(c: Cache, cfg: Config, pairs: seq<(Key, Bytes)>, now: int)
    ensures ExecMset(c, cfg, pairs, now).reply == OK
  {
  }

  predicate HazardAt(o: Cache, raw: Record, now: int, at: int) {
    Parse(raw).Ok? && Hazard(o, Parse(raw).cmd, now, at)
  }

  /**
   * From agreeing states, running a command and replaying its record leaves agreeing states if and
   * only if the command is not a hazard.
   */
  lemma CommandStep(o: Cache, r: Cache, cfg: Config, raw: Record, now: int, at: int)
    requires cfg.maxmemory == 0 && now <= at && Agree(o, r, at)
    ensures Agree(Dispatch(o, cfg, raw, now).cache, Replay(r, cfg, Logged(o, cfg, raw, now), at), at) <==>
            !HazardAt(o, raw, now, at)
  {
    match Parse(raw) {
      case Fail(_) =>
      case Ok(cmd) =>
        if cmd.CSet? {
          SetStep(o, r, cfg, cmd.opts, raw, now, at);
        } else if IsWrite(cmd) {
          WriteStep(o, r, cfg, raw, cmd, now, at);
        } else {
          ReadKeepsLive(o, cfg, cmd, now, at);
        }
    }
  }

  /* ----- whole runs ----- */

  datatype Request = Request(raw: Record, now: int)

  function RunState(cfg: Config, run: seq<Request>): Cache {
    if run == [] then EMPTY
    else Dispatch(RunState(cfg, run[..|run| - 1]), cfg, run[|run| - 1].raw, run[|run| - 1].now).cache
  }

  function RunLog(cfg: Config, run: seq<Request>): seq<Record> {
    if run == [] then []
    else
      var before, last := run[..|run| - 1], run[|run| - 1];
      RunLog(cfg, before) + Logged(RunState(cfg, before), cfg, last.raw, last.now)
  }

  /** Replaying the log of a run at `at` gives exactly the entries of the run alive at `at`. */
  ghost predicate Faithful(cfg: Config, run: seq<Request>, at: int) {
    Agree(RunState(cfg, run), Replay(EMPTY, cfg, RunLog(cfg, run), at), at)
  }

  ghost predicate NoHazard(cfg: Config, run: seq<Request>, at: int) {
    forall n: nat :: n < |run| ==> !HazardAt(RunState(cfg, run[..n]), run[n].raw, run[n].now, at)
  }

  ghost predicate Before(run: seq<Request>, at: int) {
    forall i :: 0 <= i < |run| ==> run[i].now <= at
  }

  lemma ExtendFaithful(cfg: Config, run: seq<Request>, at: int)
    requires cfg.maxmemory == 0 && run != [] && Before(run, at) && Faithful(cfg, run[..|run| - 1], at)
    ensures Faithful(cfg, run, at) <==>
            !HazardAt(RunState(cfg, run[..|run| - 1]), run[|run| - 1].raw, run[|run| - 1].now, at)
  {
    var before, last := run[..|run| - 1], run[|run| - 1];
    var o, r := RunState(cfg, before), Replay(EMPTY, cfg, RunLog(cfg, before), at);
    CommandStep(o, r, cfg, last.raw, last.now, at);
    ReplayAppend(EMPTY, cfg, RunLog(cfg, before), Logged(o, cfg, last.raw, last.now), at);
  }

  /** Without hazards, replaying at any later time restores exactly what is alive then. */
  lemma {:induction false} ReplayRestoresLive(cfg: Config, run: seq<Request>, at: int)
    requires cfg.maxmemory == 0 && Before(run, at) && NoHazard(cfg, run, at)
    ensures Faithful(cfg, run, at)
  {
    if run != [] {
      var before := run[..|run| - 1];
      forall n: nat | n < |before| ensures !HazardAt(RunState(cfg, before[..n]), before[n].raw, before[n].now, at) {
        assert before[..n] == run[..n];
      }
      ReplayRestoresLive(cfg, before, at);
      ExtendFaithful(cfg, run, at);
    }
  }

  lemma FaithfulUpTo(cfg: Config, run: seq<Request>, at: int, n: nat)
    requires cfg.maxmemory == 0 && Before(run, at) && NoHazard(cfg, run, at) && n <= |run|
    ensures Faithful(cfg, run[..n], at)
  {
    forall m: nat | m < n ensures !HazardAt(RunState(cfg, run[..n][..m]), run[..n][m].raw, run[..n][m].now, at) {
      assert run[..n][..m] == run[..m];
    }
    ReplayRestoresLive(cfg, run[..n], at);
  }

  lemma FaithfulNext(cfg: Config, run: seq<Request>, at: int, n: nat)
    requires cfg.maxmemory == 0 && Before(run, at) && n < |run| && Faithful(cfg, run[..n], at)
    ensures Faithful(cfg, run[..n + 1], at) <==> !HazardAt(RunState(cfg, run[..n]), run[n].raw, run[n].now, at)
  {
    assert run[..n + 1][..n] == run[..n];
    ExtendFaithful(cfg, run[..n + 1], at);
  }

  /**
   * The log of a run replays faithfully from every point at which the run could have stopped if and
   * only if no command of the run was a hazard.
   */
  lemma ReplayFaithfulIffNoHazard(cfg: Config, run: seq<Request>, at: int)
    requires cfg.maxmemory == 0 && Before(run, at)
    ensures (forall n: nat :: n <= |run| ==> Faithful(cfg, run[..n], at)) <==> NoHazard(cfg, run, at)
  {
    if NoHazard(cfg, run, at) {
      forall n: nat | n <= |run| ensures Faithful(cfg, run[..n], at) {
        FaithfulUpTo(cfg, run, at, n);
      }
    } else {
      var n: nat :| n < |run| && HazardAt(RunState(cfg, run[..n]), run[n].raw, run[n].now, at);
      if Faithful(cfg, run[..n], at) {
        FaithfulNext(cfg, run, at, n);
      }
    }
  }
}

/**
 * What the durability protocol guarantees for commands with deadlines. A restart at time `at` recovers,
 * as far as it is alive at `at`, what the server's memory held after some prefix of the run that covers
 * every acknowledged write - provided no command was one of the hazards of replaying at a later time, and
 * neither was a record that an earlier restart replayed.
 */
module TimedDurability {
  import opened Base
  import opened CacheModel
  import opened Commands
  import opened TimedReplay
  import opened Rewrite
  import opened CrashCuts
  import opened Durability

  /* ----- replaying the same records from agreeing states ----- */

  lemma NeverDoomedNow(o: Cache, k: Key, at: int)
    ensures !Doomed(o, k, at, at)
  {
  }

  lemma AgreeSet(a: Cache, b: Cache, o: SetOptions, at: int)
    requires Agree(a, b, at)
    ensures Agree(ExecSet(a, UNLIMITED, o, at).cache, ExecSet(b, UNLIMITED, o, at).cache, at)
  {
    AgreeAt(a, b, o.key, at);
    ExecSetLive(a, UNLIMITED, o, at, at);
    ExecSetLive(b, UNLIMITED, o, at, at);
    assert ExecSet(a, UNLIMITED, o, at).writes == ExecSet(b, UNLIMITED, o, at).writes;
  }

  lemma AgreeIncr(a: Cache, b: Cache, k: Key, delta: int, at: int)
    requires Agree(a, b, at)
    ensures Agree(DoIncr(a, UNLIMITED, k, delta, at).cache, DoIncr(b, UNLIMITED, k, delta, at).cache, at)
  {
    NeverDoomedNow(a, k, at);
    TimedReplay.IncrReplies(a, b, UNLIMITED, k, delta, at, at);
    AgreeAt(a, b, k, at);
    IncrLive(a, UNLIMITED, k, delta, at, at);
    IncrLive(b, UNLIMITED, k, delta, at, at);
  }

  lemma AgreeRetime(a: Cache, b: Cache, cmd: Command, at: int)
    requires Agree(a, b, at) && (cmd.CExpire? || cmd.CExpireAt? || cmd.CPersist?)
    ensures Agree(Exec(a, UNLIMITED, cmd, at).cache, Exec(b, UNLIMITED, cmd, at).cache, at)
  {
    NeverDoomedNow(a, cmd.key, at);
    match cmd {
      case CExpire(k, ms) => ExpireStep(a, b, k, at + ms, at, at);
      case CExpireAt(k, d) => ExpireStep(a, b, k, d, at, at);
      case CPersist(k) => PersistStep(a, b, k, at, at);
    }
  }

  lemma AgreeExec(a: Cache, b: Cache, cmd: Command, at: int)
    requires Agree(a, b, at)
    ensures Agree(Exec(a, UNLIMITED, cmd, at).cache, Exec(b, UNLIMITED, cmd, at).cache, at)
  {
    if !IsWrite(cmd) {
      AgreeRead(a, b, cmd, at);
    } else if cmd.CExpire? || cmd.CExpireAt? || cmd.CPersist? {
      AgreeRetime(a, b, cmd, at);
    } else {
      AgreeWrite(a, b, cmd, at);
    }
  }

  lemma AgreeWrite(a: Cache, b: Cache, cmd: Command, at: int)
    requires Agree(a, b, at) && (cmd.CSet? || cmd.CMset? || cmd.CDel? || cmd.CIncrBy? || cmd.CFlush?)
    ensures Agree(Exec(a, UNLIMITED, cmd, at).cache, Exec(b, UNLIMITED, cmd, at).cache, at)
  {
    match cmd {
      case CSet(o) => AgreeSet(a, b, o, at);
      case CMset(pairs) => MsetStep(a, b, UNLIMITED, pairs, at, at);
      case CDel(keys) => DelStep(a, b, keys, at, at);
      case CIncrBy(k, delta) => AgreeIncr(a, b, k, delta, at);
      case CFlush =>
    }
  }

  lemma AgreeRead(a: Cache, b: Cache, cmd: Command, at: int)
    requires Agree(a, b, at) && !IsWrite(cmd)
    ensures Agree(Exec(a, UNLIMITED, cmd, at).cache, Exec(b, UNLIMITED, cmd, at).cache, at)
  {
    ReadKeepsLive(a, UNLIMITED, cmd, at, at);
    ReadKeepsLive(b, UNLIMITED, cmd, at, at);
  }

  /** Replaying the same records at the same time keeps states in agreement. */
  lemma {:induction false} AgreeReplay(a: Cache, b: Cache, recs: seq<Record>, at: int)
    requires Agree(a, b, at)
    ensures Agree(Replay(a, UNLIMITED, recs, at), Replay(b, UNLIMITED, recs, at), at)
  {
    if recs != [] {
      var before, last := recs[..|recs| - 1], recs[|recs| - 1];
      AgreeReplay(a, b, before, at);
      if Parse(last).Ok? {
        AgreeExec(Replay(a, UNLIMITED, before, at), Replay(b, UNLIMITED, before, at), Parse(last).cmd, at);
      }
    }
  }

  /* ----- replaying the same records at two times ----- */

  /** The form of the records in a log: no relative times, no conditions. */
  predicate LogForm(r: Record) {
    match Parse(r)
    case Ok(CSet(o)) => o == Plain(o.key, o.value)
    case Ok(CExpire(_, _)) => false
    case _ => true
  }

  predicate AllLogForm(recs: seq<Record>) {
    forall i :: 0 <= i < |recs| ==> LogForm(recs[i])
  }

  /** The command does one thing when replayed at `now` and another when replayed at `at`. */
  predicate ReplayHazard(o: Cache, cmd: Command, now: int, at: int) {
    match cmd
    case CIncrBy(k, delta) => Doomed(o, k, now, at) && Int64(delta)
    case CPersist(k) => Doomed(o, k, now, at)
    case CExpireAt(k, deadline) => Doomed(o, k, now, at) && at < deadline
    case _ => false
  }

  predicate RecordHazard(o: Cache, r: Record, now: int, at: int) {
    Parse(r).Ok? && ReplayHazard(o, Parse(r).cmd, now, at)
  }

  lemma IncrCache(c: Cache, k: Key, delta: int, now: int)
    ensures Exec(c, UNLIMITED, CIncrBy(k, delta), now).cache == DoIncr(c, UNLIMITED, k, delta, now).cache
  {
  }

  lemma IncrTwice(o: Cache, r: Cache, k: Key, delta: int, now: int, at: int)
    requires now <= at && Agree(o, r, at)
    ensures Agree(DoIncr(o, UNLIMITED, k, delta, now).cache, DoIncr(r, UNLIMITED, k, delta, at).cache, at) <==>
            !(Doomed(o, k, now, at) && Int64(delta))
  {
    if DoIncr(o, UNLIMITED, k, delta, now).reply.Number? {
      IncrStep(o, r, UNLIMITED, k, delta, now, at);
    } else {
      IncrLive(o, UNLIMITED, k, delta, now, at);
      IncrLive(r, UNLIMITED, k, delta, at, at);
      if Doomed(o, k, now, at) {
        IncrDoomed(o, r, UNLIMITED, k, delta, now, at);
        assert k !in LiveEntries(o.entries, at);
      } else {
        TimedReplay.IncrReplies(o, r, UNLIMITED, k, delta, now, at);
      }
    }
  }

  lemma SetTwice(o: Cache, r: Cache, k: Key, v: Bytes, now: int, at: int)
    requires now <= at && Agree(o, r, at)
    ensures Agree(ExecSet(o, UNLIMITED, Plain(k, v), now).cache, ExecSet(r, UNLIMITED, Plain(k, v), at).cache, at)
  {
    ExecSetLive(o, UNLIMITED, Plain(k, v), now, at);
    ExecSetLive(r, UNLIMITED, Plain(k, v), at, at);
  }

  lemma ReadTwice(o: Cache, r: Cache, cmd: Command, now: int, at: int)
    requires now <= at && Agree(o, r, at) && !IsWrite(cmd)
    ensures Agree(Exec(o, UNLIMITED, cmd, now).cache, Exec(r, UNLIMITED, cmd, at).cache, at)
  {
    ReadKeepsLive(o, UNLIMITED, cmd, now, at);
    ReadKeepsLive(r, UNLIMITED, cmd, at, at);
  }

  lemma RetimeTwice(o: Cache, r: Cache, cmd: Command, now: int, at: int)
    requires now <= at && Agree(o, r, at) && (cmd.CIncrBy? || cmd.CExpireAt? || cmd.CPersist?)
    ensures Agree(Exec(o, UNLIMITED, cmd, now).cache, Exec(r, UNLIMITED, cmd, at).cache, at) <==>
            !ReplayHazard(o, cmd, now, at)
  {
    match cmd {
      case CIncrBy(k, delta) =>
        IncrCache(o, k, delta, now);
        IncrCache(r, k, delta, at);
        IncrTwice(o, r, k, delta, now, at);
      case CExpireAt(k, deadline) => ExpireStep(o, r, k, deadline, now, at);
      case CPersist(k) => PersistStep(o, r, k, now, at);
    }
  }

  lemma WriteTwice(o: Cache, r: Cache, cmd: Command, now: int, at: int)
    requires now <= at && Agree(o, r, at) && (cmd.CSet? || cmd.CMset? || cmd.CDel? || cmd.CFlush?)
    requires cmd.CSet? ==> cmd.opts == Plain(cmd.opts.key, cmd.opts.value)
    ensures Agree(Exec(o, UNLIMITED, cmd, now).cache, Exec(r, UNLIMITED, cmd, at).cache, at)
  {
    match cmd {
      case CSet(opts) => SetTwice(o, r, opts.key, opts.value, now, at);
      case CMset(pairs) => MsetStep(o, r, UNLIMITED, pairs, now, at);
      case CDel(keys) => DelStep(o, r, keys, now, at);
      case CFlush =>
    }
  }

  /** From agreeing states, one record replayed at two times leaves agreeing states iff it is no hazard. */
  lemma RecordStep(o: Cache, r: Cache, rec: Record, now: int, at: int)
    requires now <= at && Agree(o, r, at) && LogForm(rec)
    ensures Agree(Dispatch(o, UNLIMITED, rec, now).cache, Dispatch(r, UNLIMITED, rec, at).cache, at) <==>
            !RecordHazard(o, rec, now, at)
  {
    if Parse(rec).Ok? {
      var cmd := Parse(rec).cmd;
      if !IsWrite(cmd) {
        ReadTwice(o, r, cmd, now, at);
      } else if cmd.CIncrBy? || cmd.CExpireAt? || cmd.CPersist? {
        RetimeTwice(o, r, cmd, now, at);
      } else {
        WriteTwice(o, r, cmd, now, at);
      }
    }
  }

  /** Replayed at `now`, no record is a hazard for a replay at `at`. */
  ghost predicate Steady(recs: seq<Record>, now: int, at: int) {
    forall n: nat :: n < |recs| ==> !RecordHazard(Replay(EMPTY, UNLIMITED, recs[..n], now), recs[n], now, at)
  }

  /** The first `n` records mean the same, as far as it is alive at `at`, replayed at `now` and at `at`. */
  ghost predicate SameAtBoth(recs: seq<Record>, now: int, at: int, n: nat)
    requires n <= |recs|
  {
    Agree(Replay(EMPTY, UNLIMITED, recs[..n], now), Replay(EMPTY, UNLIMITED, recs[..n], at), at)
  }

  lemma SameNext(recs: seq<Record>, now: int, at: int, n: nat)
    requires now <= at && AllLogForm(recs) && n < |recs| && SameAtBoth(recs, now, at, n)
    ensures SameAtBoth(recs, now, at, n + 1) <==>
            !RecordHazard(Replay(EMPTY, UNLIMITED, recs[..n], now), recs[n], now, at)
  {
    assert recs[..n + 1][..n] == recs[..n];
    RecordStep(Replay(EMPTY, UNLIMITED, recs[..n], now), Replay(EMPTY, UNLIMITED, recs[..n], at), recs[n], now, at);
  }

  lemma {:induction false} SteadyUpTo(recs: seq<Record>, now: int, at: int, n: nat)
    requires now <= at && AllLogForm(recs) && Steady(recs, now, at) && n <= |recs|
    ensures SameAtBoth(recs, now, at, n)
  {
    if n > 0 {
      SteadyUpTo(recs, now, at, n - 1);
      SameNext(recs, now, at, n - 1);
    }
  }

  /**
   * A log replayed at one time and again at a later one: every prefix of it means the same at both iff no
   * record, met in the first replay, is a hazard.
   */
  lemma SameAtBothIffSteady(recs: seq<Record>, now: int, at: int)
    requires now <= at && AllLogForm(recs)
    ensures (forall n: nat :: n <= |recs| ==> SameAtBoth(recs, now, at, n)) <==> Steady(recs, now, at)
  {
    if Steady(recs, now, at) {
      forall n: nat | n <= |recs| ensures SameAtBoth(recs, now, at, n) {
        SteadyUpTo(recs, now, at, n);
      }
    } else {
      var n: nat :| n < |recs| && RecordHazard(Replay(EMPTY, UNLIMITED, recs[..n], now), recs[n], now, at);
      if SameAtBoth(recs, now, at, n) {
        SameNext(recs, now, at, n);
      }
    }
  }

  lemma RecordForms(k: Key, v: Bytes, deadline: int)
    ensures LogForm(SetRecord(k, v)) && LogForm(ExpireAtRecord(k, deadline))
  {
    ParseSetRecord(k, v);
    ParseExpireAtRecord(k, deadline);
  }

  lemma AofForm(raw: Record, now: int)
    ensures AllLogForm(ToAof(raw, now))
  {
    match Parse(raw) {
      case Ok(CSet(o)) => RecordForms(o.key, o.value, if o.ttl.Some? then now + o.ttl.value else now);
      case Ok(CExpire(k, ms)) => RecordForms(k, [], now + ms);
      case _ => assert LogForm(raw);
    }
  }

  lemma LoggedForm(c: Cache, raw: Record, now: int)
    ensures AllLogForm(Logged(c, UNLIMITED, raw, now))
  {
    AofForm(raw, now);
    var recs := ToAof(raw, now);
    assert Logged(c, UNLIMITED, raw, now) == recs || Logged(c, UNLIMITED, raw, now) == [];
  }

  lemma {:induction false} RewriteForm(o: seq<Key>, m: map<Key, Entry>)
    requires forall k :: k in o ==> k in m
    ensures AllLogForm(RewriteRecords(o, m))
  {
    if o != [] {
      RewriteForm(o[..|o| - 1], m);
      var k := o[|o| - 1];
      ParseSetRecord(k, m[k].value);
      if m[k].deadline.Some? {
        ParseExpireAtRecord(k, m[k].deadline.value);
      }
    }
  }

  lemma FormTogether(a: seq<Record>, b: seq<Record>)
    requires AllLogForm(a) && AllLogForm(b)
    ensures AllLogForm(a + b)
  {
  }

  /* ----- the meaning of memory, file and rewrite at a fixed later time ----- */

  /** The records replayed at start-up and the first `n` appended since, replayed at `at`. */
  ghost function Reference(s: Log, n: nat, at: int): Cache
    requires n <= |s.history|
  {
    Replay(EMPTY, UNLIMITED, s.base + s.history[..n], at)
  }

  ghost predicate TimedRebuilds(s: Log, recs: seq<Record>, n: nat, at: int) {
    AllLogForm(recs) && n <= |s.history| && Agree(Replay(EMPTY, UNLIMITED, recs, at), Reference(s, n, at), at)
  }

  ghost predicate TimedInv(s: Log, at: int) {
    && AllLogForm(s.history)
    && Agree(s.mem, Replay(EMPTY, UNLIMITED, s.base + s.history, at), at)
    && TimedRebuilds(s, s.snap, s.from, at)
    && (s.buffer.Some? ==> TimedRebuilds(s, s.nextSnap, s.nextFrom, at))
  }

  /** No step after `at`, no command that replays differently at `at`, and no such record in a restart. */
  ghost predicate Timely(s: Log, e: Event, at: int)
    requires Enabled(s, e)
  {
    match e
    case Write(_, raw, now) => now <= at && !HazardAt(s.mem, raw, now, at)
    case RewriteStart(now) => now <= at
    case Sweep(now) => now <= at
    case Crash(cut, restart) => restart <= at && Steady(AfterCrash(s, cut, restart).snap, restart, at)
    case _ => true
  }

  lemma TimedRebuildsStill(s: Log, t: Log, recs: seq<Record>, n: nat, at: int)
    requires TimedRebuilds(s, recs, n, at) && t.base == s.base && s.history <= t.history
    ensures TimedRebuilds(t, recs, n, at)
  {
    assert t.history[..n] == s.history[..n];
  }

  lemma SameTimedMeaning(s: Log, t: Log, at: int)
    requires TimedInv(s, at) && SameRecords(s, t)
    ensures TimedInv(t, at)
  {
    TimedRebuildsStill(s, t, s.snap, s.from, at);
    if t.buffer.Some? {
      TimedRebuildsStill(s, t, s.nextSnap, s.nextFrom, at);
    }
  }

  lemma AppendTimed(s: Log, mem: Cache, recs: seq<Record>, at: int)
    requires TimedInv(s, at) && AllLogForm(recs)
    requires Agree(mem, Replay(Replay(EMPTY, UNLIMITED, s.base + s.history, at), UNLIMITED, recs, at), at)
    ensures TimedInv(Append(s.(mem := mem), recs), at)
  {
    var t := Append(s.(mem := mem), recs);
    FormTogether(s.history, recs);
    Regroup(s.base, s.history, recs);
    ReplayAppend(EMPTY, UNLIMITED, s.base + s.history, recs, at);
    TimedRebuildsStill(s, t, s.snap, s.from, at);
    if s.buffer.Some? {
      TimedRebuildsStill(s, t, s.nextSnap, s.nextFrom, at);
    }
  }

  lemma WriteTimed(s: Log, client: nat, raw: Record, now: int, at: int)
    requires TimedInv(s, at) && now <= at && !HazardAt(s.mem, raw, now, at)
    ensures TimedInv(AfterWrite(s, client, raw, now), at)
  {
    var eff, recs := Dispatch(s.mem, UNLIMITED, raw, now), Logged(s.mem, UNLIMITED, raw, now);
    CommandStep(s.mem, Replay(EMPTY, UNLIMITED, s.base + s.history, at), UNLIMITED, raw, now, at);
    LoggedForm(s.mem, raw, now);
    AppendTimed(s, eff.cache, recs, at);
    PublishTimed(s, client, eff.cache, recs, Commits(raw, eff.reply), at);
  }

  lemma PublishTimed(s: Log, client: nat, mem: Cache, recs: seq<Record>, commit: bool, at: int)
    requires TimedInv(Append(s.(mem := mem), recs), at)
    ensures TimedInv(Publish(s, client, mem, recs, commit), at)
  {
    PublishSame(s, client, mem, recs, commit);
    SameTimedMeaning(Append(s.(mem := mem), recs), Publish(s, client, mem, recs, commit), at);
  }

  lemma PruneAgrees(c: Cache, now: int, at: int)
    requires now <= at
    ensures Agree(Prune(c, now), c, at)
  {
  }

  lemma RewriteStartTimed(s: Log, now: int, at: int)
    requires WF(s.mem) && TimedInv(s, at) && now <= at && OrderInMap(Prune(s.mem, now)) && s.sequence == |s.history|
    ensures TimedInv(AfterRewriteStart(s, now), at)
  {
    var t := AfterRewriteStart(s, now);
    PruneAgrees(s.mem, now, at);
    RewrittenLogRestores(s.mem, UNLIMITED, now, at);
    RewriteForm(t.mem.order, t.mem.entries);
    assert t.history[..t.nextFrom] == t.history;
    TimedRebuildsStill(s, t, s.snap, s.from, at);
  }

  lemma SwapTimed(s: Log, at: int)
    requires TimedInv(s, at) && s.buffer.Some?
    ensures TimedInv(AfterSwap(s), at)
  {
    TimedRebuildsStill(s, AfterSwap(s), s.nextSnap, s.nextFrom, at);
  }

  /** What a restart at `at` recovers agrees with the reference after the records it recovers. */
  lemma RecoveryTimed(s: Log, cut: nat, at: int)
    requires MemInv(s) && FileInv(s) && TimedInv(s, at) && s.synced <= cut <= |s.file|
    ensures s.durable <= Recovered(s, cut) <= s.sequence
    ensures Agree(AfterCrash(s, cut, at).mem, Reference(s, Recovered(s, cut), at), at)
  {
    RecoveredRecords(s, cut, at);
    FurtherAgrees(s, Recovered(s, cut), s.snap + s.history[s.from..Recovered(s, cut)], at);
  }

  lemma FurtherAgrees(s: Log, n: nat, recs: seq<Record>, at: int)
    requires TimedRebuilds(s, s.snap, s.from, at) && s.from <= n <= |s.history| && recs == s.snap + s.history[s.from..n]
    ensures Agree(Replay(EMPTY, UNLIMITED, recs, at), Reference(s, n, at), at)
  {
    assert s.history[..n] == s.history[..s.from] + s.history[s.from..n];
    Regroup(s.base, s.history[..s.from], s.history[s.from..n]);
    ReplayOn(s.snap, s.base + s.history[..s.from], s.history[s.from..n], at);
  }

  lemma ReplayOn(snap: seq<Record>, before: seq<Record>, later: seq<Record>, at: int)
    requires Agree(Replay(EMPTY, UNLIMITED, snap, at), Replay(EMPTY, UNLIMITED, before, at), at)
    ensures Agree(Replay(EMPTY, UNLIMITED, snap + later, at), Replay(EMPTY, UNLIMITED, before + later, at), at)
  {
    AgreeReplay(Replay(EMPTY, UNLIMITED, snap, at), Replay(EMPTY, UNLIMITED, before, at), later, at);
    ReplayAppend(EMPTY, UNLIMITED, snap, later, at);
    ReplayAppend(EMPTY, UNLIMITED, before, later, at);
  }

  /** A log just started, on records that are steady, means now what they will mean at `at`. */
  lemma SteadyStart(t: Log, restart: int, at: int)
    requires restart <= at && AllLogForm(t.snap) && Steady(t.snap, restart, at)
    requires t.base == t.snap && t.history == [] && t.from == 0 && t.buffer.None?
    requires t.mem == Replay(EMPTY, UNLIMITED, t.snap, restart)
    ensures TimedInv(t, at)
  {
    SteadyUpTo(t.snap, restart, at, |t.snap|);
    assert t.snap[..|t.snap|] == t.snap;
    assert t.base + t.history == t.snap && t.history[..0] == [];
  }

  lemma RecoveredForm(s: Log, cut: nat, restart: int)
    requires MemInv(s) && FileInv(s) && s.synced <= cut <= |s.file| && AllLogForm(s.snap) && AllLogForm(s.history)
    ensures AllLogForm(AfterCrash(s, cut, restart).snap)
  {
    RecoveredRecords(s, cut, restart);
    FormTogether(s.snap, s.history[s.from..Recovered(s, cut)]);
  }

  /** After a restart whose records are steady, memory means what the records will mean at `at`. */
  lemma CrashTimed(s: Log, cut: nat, restart: int, at: int)
    requires MemInv(s) && FileInv(s) && TimedInv(s, at) && s.synced <= cut <= |s.file|
    requires restart <= at && Steady(AfterCrash(s, cut, restart).snap, restart, at)
    ensures TimedInv(AfterCrash(s, cut, restart), at)
  {
    RecoveredForm(s, cut, restart);
    SteadyStart(AfterCrash(s, cut, restart), restart, at);
  }

  lemma SweepTimed(s: Log, now: int, at: int)
    requires TimedInv(s, at) && now <= at
    ensures TimedInv(s.(mem := Prune(s.mem, now)), at)
  {
    var t := s.(mem := Prune(s.mem, now));
    PruneAgrees(s.mem, now, at);
    TimedRebuildsStill(s, t, s.snap, s.from, at);
    if s.buffer.Some? {
      TimedRebuildsStill(s, t, s.nextSnap, s.nextFrom, at);
    }
  }

  lemma StepTimed(s: Log, e: Event, at: int)
    requires Inv(s) && TimedInv(s, at) && Enabled(s, e) && Timely(s, e, at)
    ensures TimedInv(Next(s, e), at)
  {
    if e.Write? {
      WriteTimed(s, e.client, e.raw, e.now, at);
    } else if e.RewriteStart? {
      RewriteStartTimed(s, e.now, at);
    } else if e.RewriteSwap? {
      SwapTimed(s, at);
    } else if e.Sweep? {
      SweepTimed(s, e.now, at);
    } else if e.Crash? {
      CrashTimed(s, e.cut, e.at, at);
    } else {
      QuietStep(s, e);
      SameTimedMeaning(s, Next(s, e), at);
    }
  }

  /* ----- whole runs ----- */

  ghost predicate TimelyRun(s: Log, events: seq<Event>, at: int)
    requires Executes(s, events)
    decreases |events|
  {
    events == [] || (Timely(s, events[0], at) && TimelyRun(Next(s, events[0]), events[1..], at))
  }

  /** Between crashes the history only grows. */
  lemma HistoryStep(s: Log, e: Event)
    requires Enabled(s, e) && !e.Crash?
    ensures s.history <= Next(s, e).history && Next(s, e).base == s.base
  {
  }

  predicate CrashFree(events: seq<Event>) {
    forall i :: 0 <= i < |events| ==> !events[i].Crash?
  }

  /** The state after the first `j` events of a run. */
  ghost function StateAfter(s: Log, events: seq<Event>, j: nat): Log
    requires Executes(s, events) && j <= |events|
    decreases |events|
  {
    if j == 0 then s else StateAfter(Next(s, events[0]), events[1..], j - 1)
  }

  /** At every moment of a timely run the invariants hold. */
  lemma {:induction false} TimelyMoments(s: Log, events: seq<Event>, j: nat, at: int)
    requires Inv(s) && TimedInv(s, at) && Executes(s, events) && TimelyRun(s, events, at) && j <= |events|
    ensures Inv(StateAfter(s, events, j)) && TimedInv(StateAfter(s, events, j), at)
    ensures Inv(Final(s, events)) && TimedInv(Final(s, events), at)
    decreases |events|
  {
    if events != [] {
      StepInv(s, events[0]);
      StepTimed(s, events[0], at);
      TimelyMoments(Next(s, events[0]), events[1..], if j == 0 then 0 else j - 1, at);
    }
  }

  /** Since the last crash the history has only grown. */
  lemma {:induction false} SinceLastCrash(s: Log, events: seq<Event>, j: nat)
    requires Executes(s, events) && j <= |events| && CrashFree(events[j..])
    ensures StateAfter(s, events, j).history <= Final(s, events).history
    ensures StateAfter(s, events, j).base == Final(s, events).base
    decreases |events|
  {
    if events != [] {
      if j == 0 {
        assert events[0..] == events && CrashFree(events[1..]);
        HistoryStep(s, events[0]);
        assert events[1..][0..] == events[1..];
        SinceLastCrash(Next(s, events[0]), events[1..], 0);
      } else {
        assert events[1..][j - 1..] == events[j..];
        SinceLastCrash(Next(s, events[0]), events[1..], j - 1);
      }
    }
  }

  lemma FreshTimed(at: int)
    ensures Inv(FRESH) && TimedInv(FRESH, at)
  {
    FreshInv();
    assert FRESH.base + FRESH.history == [] && FRESH.base + FRESH.history[..0] == [];
  }

  lemma MomentAgrees(t: Log, s: Log, at: int)
    requires TimedInv(t, at) && t.sequence == |t.history| && t.history <= s.history && t.base == s.base
    ensures t.sequence <= |s.history| && Agree(t.mem, Reference(s, t.sequence, at), at)
  {
    assert s.history[..t.sequence] == t.history;
  }

  /** The memory at any moment since the last crash agrees with the reference after the records so far. */
  lemma MemoryAgrees(s0: Log, events: seq<Event>, j: nat, at: int)
    requires Inv(s0) && TimedInv(s0, at) && Executes(s0, events) && TimelyRun(s0, events, at)
    requires j <= |events| && CrashFree(events[j..])
    ensures var t, s := StateAfter(s0, events, j), Final(s0, events);
            t.sequence <= |s.history| && Agree(t.mem, Reference(s, t.sequence, at), at)
  {
    TimelyMoments(s0, events, j, at);
    SinceLastCrash(s0, events, j);
    MomentAgrees(StateAfter(s0, events, j), Final(s0, events), at);
  }

  /** Since the last crash, exactly `n` records had been appended at this moment of the run. */
  ghost predicate MomentOf(events: seq<Event>, j: nat, n: nat)
    requires Executes(FRESH, events)
  {
    j <= |events| && CrashFree(events[j..]) && StateAfter(FRESH, events, j).sequence == n
  }

  /** A restart with `m` recovers what the memory was whenever exactly `n` records had been appended. */
  ghost predicate RecoversMemory(events: seq<Event>, m: Cache, n: nat, at: int)
    requires Executes(FRESH, events)
  {
    forall j: nat :: MomentOf(events, j, n) ==> Agree(m, StateAfter(FRESH, events, j).mem, at)
  }

  /**
   * No acknowledged write is lost, deadlines allowed. After any interleaving of writes, group commits,
   * rewrites, failed rewrites, cancellations, sweeps and earlier crashes whose commands and replayed
   * records are no hazards at `at`, a crash that keeps the synced bytes and any prefix of the rest,
   * followed by a restart at `at`, recovers the values and deadlines alive at `at` of the server's memory
   * after `n` records appended since the last start, where `n` covers every acknowledged commit.
   */
  lemma NoAcknowledgedTimedWriteLost(events: seq<Event>, s: Log, cut: nat, at: int)
    requires Executes(FRESH, events) && TimelyRun(FRESH, events, at)
    requires s == Final(FRESH, events) && Enabled(s, Crash(cut, at))
    ensures exists n: nat ::
              && s.acked <= s.durable <= n <= s.sequence == |s.history|
              && Agree(AfterCrash(s, cut, at).mem, Reference(s, n, at), at)
              && RecoversMemory(events, AfterCrash(s, cut, at).mem, n, at)
  {
    FreshTimed(at);
    TimelyMoments(FRESH, events, 0, at);
    RecoveryTimed(s, cut, at);
    var n: nat, m := Recovered(s, cut), AfterCrash(s, cut, at).mem;
    assert RecoversMemory(events, m, n, at) by {
      forall j: nat | MomentOf(events, j, n) ensures Agree(m, StateAfter(FRESH, events, j).mem, at) {
        MemoryAgrees(FRESH, events, j, at);
      }
    }
  }

  /* ----- which record counts are command boundaries ----- */

  lemma SequenceStep(s: Log, e: Event)
    requires Enabled(s, e) && !e.Crash?
    ensures s.sequence <= Next(s, e).sequence <= s.sequence + 2
    ensures Next(s, e).sequence == s.sequence + 2 ==> e.Write? && IsTimedSet(e.raw)
  {
    if e.Write? {
      AofFormLength(e.raw, e.now);
    }
  }

  /**
   * In a run without crashes, every record count up to the last is that of some moment of the run - so the
   * memory it stands for really existed - except between the two records of a SET with a time to live.
   */
  lemma {:induction false} BoundaryOrSplit(s: Log, events: seq<Event>, n: nat)
    requires Executes(s, events) && CrashFree(events) && s.sequence <= n <= Final(s, events).sequence
    ensures || (exists j: nat :: j <= |events| && StateAfter(s, events, j).sequence == n)
            || (exists j: nat :: j < |events| && events[j].Write? && IsTimedSet(events[j].raw) &&
                  n == StateAfter(s, events, j).sequence + 1)
    decreases |events|
  {
    if n == s.sequence {
      assert StateAfter(s, events, 0).sequence == n;
    } else {
      var next := Next(s, events[0]);
      SequenceStep(s, events[0]);
      if n < next.sequence {
        assert StateAfter(s, events, 0).sequence + 1 == n && IsTimedSet(events[0].raw);
      } else {
        BoundaryOrSplit(next, events[1..], n);
        if j: nat :| j <= |events[1..]| && StateAfter(next, events[1..], j).sequence == n {
          assert StateAfter(s, events, j + 1).sequence == n;
        } else {
          var j: nat :| j < |events[1..]| && events[1..][j].Write? && IsTimedSet(events[1..][j].raw) &&
            n == StateAfter(next, events[1..], j).sequence + 1;
          assert events[j + 1] == events[1..][j];
          assert n == StateAfter(s, events, j + 1).sequence + 1;
        }
      }
    }
  }
}

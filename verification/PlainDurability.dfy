/**
 * What the durability protocol guarantees for commands without deadlines: over any interleaving,
 * earlier crashes included, no acknowledged write is lost.
 */
module PlainDurability {
  import opened CacheModel
  import opened Commands
  import opened TimedReplay
  import opened PlainMap
  import opened Rewrite
  import opened Bounds
  import opened Durability

  ghost predicate AllTtlFree(recs: seq<Record>) {
    forall i :: 0 <= i < |recs| ==> TtlFreeRecord(recs[i])
  }

  /** Contents at start-up: what the records replayed then amount to. */
  function Start(s: Log): Contents {
    PlainRun(map[], s.base)
  }

  /** `recs` rebuilds, from nothing, the contents after the first `n` records of the history. */
  ghost predicate Rebuilds(s: Log, recs: seq<Record>, n: nat) {
    AllTtlFree(recs) && n <= |s.history| && PlainRun(map[], recs) == PlainRun(Start(s), s.history[..n])
  }

  ghost predicate PlainInv(s: Log) {
    && TtlFree(s.mem) && Values(s.mem) == PlainRun(Start(s), s.history) && AllTtlFree(s.history)
    && Rebuilds(s, s.snap, s.from)
    && (s.buffer.Some? ==> Rebuilds(s, s.nextSnap, s.nextFrom))
  }

  predicate TtlFreeEvent(e: Event) {
    e.Write? ==> TtlFreeRecord(e.raw)
  }

  lemma RebuildsStill(s: Log, t: Log, recs: seq<Record>, n: nat)
    requires Rebuilds(s, recs, n) && t.base == s.base && s.history <= t.history
    ensures Rebuilds(t, recs, n)
  {
    assert t.history[..n] == s.history[..n];
  }

  /** Memory, history and snapshots are all the meaning depends on. */
  lemma SameMeaning(s: Log, t: Log)
    requires PlainInv(s) && SameRecords(s, t)
    ensures PlainInv(t)
  {
    RebuildsStill(s, t, s.snap, s.from);
    if t.buffer.Some? {
      RebuildsStill(s, t, s.nextSnap, s.nextFrom);
    }
  }

  lemma AppendMeaning(s: Log, mem: Cache, recs: seq<Record>)
    requires PlainInv(s) && TtlFree(mem) && AllTtlFree(recs) && Values(mem) == PlainRun(Values(s.mem), recs)
    ensures PlainInv(Append(s.(mem := mem), recs))
  {
    var t := Append(s.(mem := mem), recs);
    PlainRunAppend(Start(s), s.history, recs);
    RebuildsStill(s, t, s.snap, s.from);
    if s.buffer.Some? {
      RebuildsStill(s, t, s.nextSnap, s.nextFrom);
    }
  }

  lemma WriteMeaning(s: Log, client: nat, raw: Record, now: int)
    requires PlainInv(s) && TtlFreeRecord(raw)
    ensures PlainInv(AfterWrite(s, client, raw, now))
  {
    var eff, recs := Dispatch(s.mem, UNLIMITED, raw, now), Logged(s.mem, UNLIMITED, raw, now);
    PlainLogged(s.mem, UNLIMITED, raw, now);
    PlainDispatchOf(s.mem, UNLIMITED, raw, now);
    AppendMeaning(s, eff.cache, recs);
    PublishMeaning(s, client, eff.cache, recs, Commits(raw, eff.reply));
  }

  lemma PublishMeaning(s: Log, client: nat, mem: Cache, recs: seq<Record>, commit: bool)
    requires PlainInv(Append(s.(mem := mem), recs))
    ensures PlainInv(Publish(s, client, mem, recs, commit))
  {
    PublishSame(s, client, mem, recs, commit);
    SameMeaning(Append(s.(mem := mem), recs), Publish(s, client, mem, recs, commit));
  }

  lemma PruneTtlFree(c: Cache, now: int)
    requires WF(c) && TtlFree(c)
    ensures Prune(c, now) == c && OrderInMap(c) && SmallDeadlines(c)
  {
    RestrictAll(c, LiveKeys(c, now));
  }

  /** Rewriting a store without deadlines gives records that rebuild its contents. */
  lemma RewriteRebuilds(c: Cache, now: int)
    requires WF(c) && TtlFree(c)
    ensures OrderInMap(c)
    ensures var records := RewriteRecords(c.order, c.entries);
            AllTtlFree(records) && PlainRun(map[], records) == Values(c)
  {
    PruneTtlFree(c, now);
    RewriteTtlFree(c.order, c.entries);
    RewrittenLogRestores(c, UNLIMITED, now, now);
    PlainReplay(EMPTY, UNLIMITED, RewriteRecords(c.order, c.entries), now);
    assert Values(EMPTY) == map[];
  }

  lemma RewriteStartMeaning(s: Log, now: int)
    requires Inv(s) && PlainInv(s)
    ensures OrderInMap(Prune(s.mem, now)) && PlainInv(AfterRewriteStart(s, now))
  {
    PruneTtlFree(s.mem, now);
    RewriteRebuilds(s.mem, now);
    var t := AfterRewriteStart(s, now);
    assert t.history[..t.nextFrom] == t.history;
    RebuildsStill(s, t, s.snap, s.from);
  }

  /** Without deadlines a rewrite can always be started when none is in progress. */
  lemma RewriteAlwaysPossible(s: Log, now: int)
    requires Inv(s) && PlainInv(s) && s.buffer.None?
    ensures Enabled(s, RewriteStart(now))
  {
    PruneTtlFree(s.mem, now);
  }

  /** A snapshot followed by the records after it rebuilds the contents after all of them. */
  lemma RebuildFurther(s: Log, n: nat)
    requires PlainInv(s) && s.from <= n <= |s.history|
    ensures PlainRun(map[], s.snap + s.history[s.from..n]) == PlainRun(Start(s), s.history[..n])
  {
    assert s.history[..n] == s.history[..s.from] + s.history[s.from..n];
    PlainRunAppend(map[], s.snap, s.history[s.from..n]);
    PlainRunAppend(Start(s), s.history[..s.from], s.history[s.from..n]);
  }

  lemma TtlFreeTogether(a: seq<Record>, b: seq<Record>)
    requires AllTtlFree(a) && AllTtlFree(b)
    ensures AllTtlFree(a + b)
  {
  }

  /**
   * What a restart finds after a crash at any moment: the contents after some prefix of the appended
   * records, containing at least all those published as durable.
   */
  lemma RecoverySound(s: Log, cut: nat, at: int)
    requires MemInv(s) && FileInv(s) && PlainInv(s) && s.synced <= cut <= |s.file|
    ensures s.durable <= Recovered(s, cut) <= s.sequence
    ensures var t := AfterCrash(s, cut, at);
            TtlFree(t.mem) && AllTtlFree(t.snap) && Values(t.mem) == PlainRun(map[], t.snap) &&
            Values(t.mem) == PlainRun(Start(s), s.history[..Recovered(s, cut)])
  {
    RecoveredRecords(s, cut, at);
    FurtherContents(s, Recovered(s, cut), at);
  }

  /** Replaying the snapshot and the records after it, up to the n-th, gives the contents after n records. */
  lemma FurtherContents(s: Log, n: nat, at: int)
    requires PlainInv(s) && s.from <= n <= |s.history|
    ensures var recs := s.snap + s.history[s.from..n]; var mem := Replay(EMPTY, UNLIMITED, recs, at);
            AllTtlFree(recs) && TtlFree(mem) && Values(mem) == PlainRun(map[], recs) &&
            Values(mem) == PlainRun(Start(s), s.history[..n])
  {
    RebuildFurther(s, n);
    TtlFreeTogether(s.snap, s.history[s.from..n]);
    PlainReplay(EMPTY, UNLIMITED, s.snap + s.history[s.from..n], at);
    assert Values(EMPTY) == map[];
  }

  lemma CrashMeaning(s: Log, cut: nat, at: int)
    requires MemInv(s) && FileInv(s) && PlainInv(s) && s.synced <= cut <= |s.file|
    ensures PlainInv(AfterCrash(s, cut, at))
  {
    RecoverySound(s, cut, at);
    assert AfterCrash(s, cut, at).history[..0] == [];
  }

  /** Every step without deadlines keeps the meaning of memory, file and rewrite. */
  lemma StepMeaning(s: Log, e: Event)
    requires Inv(s) && PlainInv(s) && Enabled(s, e) && TtlFreeEvent(e)
    ensures PlainInv(Next(s, e))
  {
    match e {
      case Write(client, raw, now) => WriteMeaning(s, client, raw, now);
      case Crash(cut, at) => CrashMeaning(s, cut, at);
      case RewriteStart(now) => RewriteStartMeaning(s, now);
      case RewriteSwap => SwapMeaning(s);
      case Sweep(now) => PruneTtlFree(s.mem, now);
      case _ =>
        QuietStep(s, e);
        SameMeaning(s, Next(s, e));
    }
  }

  lemma SwapMeaning(s: Log)
    requires PlainInv(s) && s.buffer.Some?
    ensures PlainInv(AfterSwap(s))
  {
    RebuildsStill(s, AfterSwap(s), s.nextSnap, s.nextFrom);
  }

  ghost predicate TtlFreeRun(events: seq<Event>) {
    forall i :: 0 <= i < |events| ==> TtlFreeEvent(events[i])
  }

  lemma {:induction false} RunMeaning(s: Log, events: seq<Event>)
    requires Inv(s) && PlainInv(s) && Executes(s, events) && TtlFreeRun(events)
    ensures Inv(Final(s, events)) && PlainInv(Final(s, events))
    decreases |events|
  {
    if events != [] {
      assert TtlFreeEvent(events[0]);
      StepInv(s, events[0]);
      StepMeaning(s, events[0]);
      RunMeaning(Next(s, events[0]), events[1..]);
    }
  }

  lemma FreshMeaning()
    ensures PlainInv(FRESH)
  {
    assert Values(EMPTY) == map[];
    assert FRESH.history[..0] == [];
  }

  /** `m` is the contents after the first `n` of the records appended since start-up. */
  ghost predicate HoldsAfter(s: Log, m: Contents, n: nat) {
    n <= |s.history| && m == PlainRun(Start(s), s.history[..n])
  }

  /**
   * No acknowledged write is lost. After any interleaving of writes, group commits, rewrites, failed
   * rewrites, cancellations and earlier crashes, a crash that keeps the synced bytes and any prefix
   * of the rest recovers the contents after `n` appended records, where `n` covers every
   * acknowledged commit and the published durable sequence number.
   */
  lemma NoAcknowledgedWriteLost(events: seq<Event>, s: Log, cut: nat, at: int)
    requires Executes(FRESH, events) && TtlFreeRun(events) && s == Final(FRESH, events) && Enabled(s, Crash(cut, at))
    ensures exists n: nat ::
              s.acked <= s.durable <= n <= s.sequence && HoldsAfter(s, Values(AfterCrash(s, cut, at).mem), n)
  {
    FreshInv();
    FreshMeaning();
    RunMeaning(FRESH, events);
    RecoverySound(s, cut, at);
    var n: nat := Recovered(s, cut);
    assert HoldsAfter(s, Values(AfterCrash(s, cut, at).mem), n);
  }
}

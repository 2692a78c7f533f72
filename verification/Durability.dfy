/**
 * The durability protocol under fsync `always`, as a system of atomic steps: everything between two
 * awaits of the server's coroutines is one step. Commits share fsyncs under a lock, a rewrite runs
 * beside them with a tail buffer and an atomic swap, and the machine may crash at any moment. The store
 * has no memory cap.
 *
 * Crash axioms: bytes covered by a finished fsync survive; of the later bytes of the file any prefix
 * may survive; replacing the file by a fully synced one is atomic and durable; the bytes a restart
 * finds, and its truncation of a torn tail, are on disk when it goes on.
 */
module Durability {
  import opened Base
  import opened CacheModel
  import opened Commands
  import opened TimedReplay
  import opened PlainMap
  import opened LogScan
  import opened Rewrite
  import opened Bounds

  /** A commit in progress: waiting for the lock, or holding it while its fsync runs. */
  datatype Phase =
    | Waiting(want: nat)
    | Syncing(want: nat, upto: nat, mark: nat)

  datatype Log = Log(
    mem: Cache,
    file: Bytes,
    synced: nat,
    sequence: nat,
    durable: nat,
    commits: map<nat, Phase>,
    holder: Option<nat>,
    buffer: Option<seq<Bytes>>,
    payload: Bytes,
    tempReady: bool,
    acked: nat,
    // history: records replayed at start-up, records appended since, and what the two files stand for
    base: seq<Record>,
    history: seq<Record>,
    snap: seq<Record>,
    from: nat,
    nextSnap: seq<Record>,
    nextFrom: nat)

  datatype Event =
    | Write(client: nat, raw: Record, now: int)
    | CommitLock(client: nat)
    | CommitSynced(client: nat, reach: nat)
    | CommitCancelled(client: nat)
    | RewriteStart(now: int)
    | TempWritten
    | RewriteSwap
    | RewriteFail
    | Sweep(now: int)
    | Crash(cut: nat, at: int)

  /** A request the server may receive: it came off the wire, and its records fit the wire's limits. */
  predicate Admissible(raw: Record, now: int) {
    Loggable(raw) && AllLoggable(ToAof(raw, now))
  }

  ghost predicate Enabled(s: Log, e: Event) {
    match e
    case Write(client, raw, now) => client !in s.commits && Admissible(raw, now)
    case CommitLock(client) => client in s.commits && s.commits[client].Waiting? && s.holder.None?
    case CommitSynced(client, reach) =>
      client in s.commits && s.commits[client].Syncing? && s.synced <= reach <= |s.file| &&
        s.commits[client].mark <= reach
    case CommitCancelled(client) => client in s.commits
    case RewriteStart(now) => s.buffer.None? && OrderInMap(Prune(s.mem, now)) && SmallDeadlines(s.mem)
    case TempWritten => s.buffer.Some?
    case RewriteSwap => s.buffer.Some? && s.tempReady && s.holder.None?
    case RewriteFail => s.buffer.Some?
    case Sweep(_) => true
    case Crash(cut, _) => s.synced <= cut <= |s.file|
  }

  function Max(a: nat, b: nat): nat {
    if a >= b then a else b
  }

  /** `append`, for each record in turn. */
  function Append(s: Log, recs: seq<Record>): Log {
    s.(file := s.file + EncodeLog(recs),
       buffer := if s.buffer.Some? then Some(s.buffer.value + Encoded(recs)) else None,
       sequence := s.sequence + |recs|,
       history := s.history + recs)
  }

  /** Entry of `commit`: return at once when everything up to now is durable, else wait for the lock. */
  function CommitEnter(s: Log, client: nat): Log {
    if s.durable >= s.sequence then s.(acked := Max(s.acked, s.sequence))
    else s.(commits := s.commits[client := Waiting(s.sequence)])
  }

  /** The atomic part of the write path: dispatch, append, enter commit. */
  function AfterWrite(s: Log, client: nat, raw: Record, now: int): Log {
    var eff := Dispatch(s.mem, UNLIMITED, raw, now);
    Publish(s, client, eff.cache, Logged(s.mem, UNLIMITED, raw, now), Commits(raw, eff.reply))
  }

  function Publish(s: Log, client: nat, mem: Cache, recs: seq<Record>, commit: bool): Log {
    var logged := Append(s.(mem := mem), recs);
    if commit then CommitEnter(logged, client) else logged
  }

  /** Under the lock: return if a shared fsync already covered this commit, else start one. */
  function AfterLock(s: Log, client: nat): Log
    requires client in s.commits
  {
    var want := s.commits[client].want;
    if s.durable >= want then s.(commits := s.commits - {client}, acked := Max(s.acked, want))
    else s.(commits := s.commits[client := Syncing(want, s.sequence, |s.file|)], holder := Some(client))
  }

  function AfterSync(s: Log, client: nat, reach: nat): Log
    requires client in s.commits && s.commits[client].Syncing?
  {
    var p := s.commits[client];
    s.(synced := reach, durable := p.upto, commits := s.commits - {client}, holder := None,
      acked := Max(s.acked, p.want))
  }

  function AfterCancel(s: Log, client: nat): Log {
    s.(commits := s.commits - {client}, holder := if s.holder == Some(client) then None else s.holder)
  }

  ghost predicate OrderInMap(c: Cache) {
    forall k :: k in c.order ==> k in c.entries
  }

  ghost function AfterRewriteStart(s: Log, now: int): Log
    requires OrderInMap(Prune(s.mem, now))
  {
    var mem := Prune(s.mem, now);
    var records := RewriteRecords(mem.order, mem.entries);
    s.(mem := mem, buffer := Some([]), payload := EncodeLog(records), tempReady := false,
       nextSnap := records, nextFrom := s.sequence)
  }

  /** Under the lock, without an await: append the tail to the temporary file, sync it, replace. */
  function AfterSwap(s: Log): Log
    requires s.buffer.Some?
  {
    var file := s.payload + Join(s.buffer.value);
    s.(file := file, synced := |file|, durable := s.sequence, buffer := None, tempReady := false,
       snap := s.nextSnap, from := s.nextFrom)
  }

  /** Restart after a crash that kept the first `cut` bytes: replay, repair, begin a new sequence. */
  function AfterCrash(s: Log, cut: nat, at: int): Log
    requires cut <= |s.file|
  {
    var disk := s.file[..cut];
    var records := Scan(disk).commands;
    var mem := Replay(EMPTY, UNLIMITED, records, at);
    var file := Repaired(disk);
    Log(mem, file, |file|, 0, 0, map[], None, None, [], false, 0, records, [], records, 0, [], 0)
  }

  ghost function Next(s: Log, e: Event): Log
    requires Enabled(s, e)
  {
    match e
    case Write(client, raw, now) => AfterWrite(s, client, raw, now)
    case CommitLock(client) => AfterLock(s, client)
    case CommitSynced(client, reach) => AfterSync(s, client, reach)
    case CommitCancelled(client) => AfterCancel(s, client)
    case RewriteStart(now) => AfterRewriteStart(s, now)
    case TempWritten => s.(tempReady := true)
    case RewriteSwap => AfterSwap(s)
    case RewriteFail => s.(buffer := None, tempReady := false)
    case Sweep(now) => s.(mem := Prune(s.mem, now))
    case Crash(cut, at) => AfterCrash(s, cut, at)
  }

  /* ----- the invariant ----- */

  /** Records in the file, in order. */
  function FileRecords(s: Log): seq<Record>
    requires s.from <= |s.history|
  {
    s.snap + s.history[s.from..]
  }

  ghost predicate MemInv(s: Log) {
    WF(s.mem) && Bounded(Values(s.mem)) && AllLoggable(s.history)
  }

  ghost predicate FileInv(s: Log) {
    && s.sequence == |s.history|
    && s.from <= s.durable <= s.sequence
    && AllLoggable(s.snap)
    && s.file == EncodeLog(FileRecords(s))
    && |EncodeLog(s.snap + s.history[s.from..s.durable])| <= s.synced <= |s.file|
  }

  ghost predicate CommitInv(s: Log) {
    && s.acked <= s.durable
    && (forall c :: c in s.commits ==> s.commits[c].want <= s.sequence)
    && (forall c :: c in s.commits && s.commits[c].Syncing? ==> s.holder == Some(c) && SyncInv(s, s.commits[c]))
  }

  /** A running fsync covers the file up to the sequence number it will publish. */
  ghost predicate SyncInv(s: Log, p: Phase)
    requires p.Syncing?
  {
    && p.want <= p.upto <= |s.history| && s.from <= s.durable <= p.upto
    && p.mark == |EncodeLog(s.snap + s.history[s.from..p.upto])|
  }

  ghost predicate RewriteInv(s: Log) {
    s.buffer.Some? ==>
      && AllLoggable(s.nextSnap) && s.nextFrom <= |s.history|
      && s.payload == EncodeLog(s.nextSnap)
      && s.buffer.value == Encoded(s.history[s.nextFrom..])
  }

  /** Memory, file, sequence numbers and rewrite buffer fit together, deadlines or not. */
  ghost predicate Inv(s: Log) {
    MemInv(s) && FileInv(s) && CommitInv(s) && RewriteInv(s)
  }

  /** A freshly started log with nothing in it. */
  const FRESH: Log := Log(EMPTY, [], 0, 0, 0, map[], None, None, [], false, 0, [], [], [], 0, [], 0)

  lemma FreshInv()
    ensures Inv(FRESH)
  {
    assert Encoded([]) == [];
    assert FileRecords(FRESH) == [];
  }

  /* ----- appending ----- */

  lemma AppendBytes(s: Log, recs: seq<Record>)
    requires s.from <= s.durable <= |s.history| && s.file == EncodeLog(FileRecords(s))
    ensures var t := Append(s, recs);
            t.file == EncodeLog(FileRecords(t)) && t.history[s.from..s.durable] == s.history[s.from..s.durable]
  {
    HistoryAppend(s.history, recs, s.from, s.durable);
    Regroup(s.snap, s.history[s.from..], recs);
    EncodeLogAppend(FileRecords(s), recs);
  }

  lemma HistoryAppend(history: seq<Record>, recs: seq<Record>, from: nat, upto: nat)
    requires from <= upto <= |history|
    ensures (history + recs)[from..] == history[from..] + recs && (history + recs)[from..upto] == history[from..upto]
  {
  }

  lemma AppendFile(s: Log, recs: seq<Record>)
    requires FileInv(s)
    ensures FileInv(Append(s, recs))
  {
    AppendBytes(s, recs);
  }

  lemma AppendCommits(s: Log, recs: seq<Record>)
    requires FileInv(s) && CommitInv(s)
    ensures CommitInv(Append(s, recs))
  {
    var t := Append(s, recs);
    forall c | c in t.commits && t.commits[c].Syncing? ensures SyncInv(t, t.commits[c]) {
      assert SyncInv(s, s.commits[c]);
      HistoryAppend(s.history, recs, s.from, s.commits[c].upto);
    }
  }

  lemma AppendRewrite(s: Log, recs: seq<Record>)
    requires RewriteInv(s)
    ensures RewriteInv(Append(s, recs))
  {
    var t := Append(s, recs);
    if s.buffer.Some? {
      assert t.history[s.nextFrom..] == s.history[s.nextFrom..] + recs;
      EncodedAppend(s.history[s.nextFrom..], recs);
    }
  }

  lemma WriteMem(s: Log, raw: Record, now: int)
    requires MemInv(s) && Admissible(raw, now)
    ensures MemInv(Append(s.(mem := Dispatch(s.mem, UNLIMITED, raw, now).cache), Logged(s.mem, UNLIMITED, raw, now)))
  {
    DispatchWF(s.mem, UNLIMITED, raw, now);
    StoreStaysBounded(s.mem, UNLIMITED, raw, now);
  }

  /** Memory, file and rewrite do not depend on the commits in progress. */
  lemma CommitsOnly(s: Log, t: Log)
    requires Inv(s) && t == s.(commits := t.commits, holder := t.holder, acked := t.acked)
    ensures MemInv(t) && FileInv(t) && RewriteInv(t)
    ensures forall p: Phase :: p.Syncing? && SyncInv(s, p) ==> SyncInv(t, p)
  {
  }

  lemma CommitEnterInv(s: Log, client: nat)
    requires Inv(s) && client !in s.commits
    ensures Inv(CommitEnter(s, client))
  {
    CommitsOnly(s, CommitEnter(s, client));
  }

  lemma PublishInv(s: Log, client: nat, mem: Cache, recs: seq<Record>, commit: bool)
    requires Inv(s) && client !in s.commits && MemInv(Append(s.(mem := mem), recs))
    ensures Inv(Publish(s, client, mem, recs, commit))
  {
    var t := s.(mem := mem);
    AppendFile(t, recs);
    AppendCommits(t, recs);
    AppendRewrite(t, recs);
    CommitEnterInv(Append(t, recs), client);
  }

  lemma WriteInv(s: Log, client: nat, raw: Record, now: int)
    requires Inv(s) && client !in s.commits && Admissible(raw, now)
    ensures Inv(AfterWrite(s, client, raw, now))
  {
    WriteMem(s, raw, now);
    var eff := Dispatch(s.mem, UNLIMITED, raw, now);
    PublishInv(s, client, eff.cache, Logged(s.mem, UNLIMITED, raw, now), Commits(raw, eff.reply));
  }

  /* ----- commits ----- */

  /** An fsync started now covers the whole file, hence every record appended so far. */
  lemma SyncStarts(s: Log, client: nat, want: nat)
    requires FileInv(s) && want <= s.sequence
    ensures SyncInv(s, Syncing(want, s.sequence, |s.file|))
  {
    assert s.history[s.from..s.sequence] == s.history[s.from..];
  }

  lemma LockInv(s: Log, client: nat)
    requires Inv(s) && client in s.commits && s.commits[client].Waiting? && s.holder.None?
    ensures Inv(AfterLock(s, client))
  {
    SyncStarts(s, client, s.commits[client].want);
    CommitsOnly(s, AfterLock(s, client));
  }

  lemma SyncedInv(s: Log, client: nat, reach: nat)
    requires Inv(s) && Enabled(s, CommitSynced(client, reach))
    ensures Inv(AfterSync(s, client, reach))
  {
    assert SyncInv(s, s.commits[client]);
  }

  lemma CancelInv(s: Log, client: nat)
    requires Inv(s) && Enabled(s, CommitCancelled(client))
    ensures Inv(AfterCancel(s, client))
  {
    CommitsOnly(s, AfterCancel(s, client));
  }

  /* ----- rewriting ----- */

  lemma RewriteStartInv(s: Log, now: int)
    requires Inv(s) && Enabled(s, RewriteStart(now))
    ensures Inv(AfterRewriteStart(s, now))
  {
    var mem := Prune(s.mem, now);
    RestrictWF(s.mem, LiveKeys(s.mem, now));
    PruneBounded(s.mem, now);
    RewriteOfBounded(mem);
    var t := AfterRewriteStart(s, now);
    assert t.history[t.nextFrom..] == [] && Encoded([]) == [];
    forall c | c in t.commits && t.commits[c].Syncing? ensures SyncInv(t, t.commits[c]) {
      assert SyncInv(s, s.commits[c]);
    }
  }

  lemma SwapInv(s: Log)
    requires Inv(s) && Enabled(s, RewriteSwap)
    ensures Inv(AfterSwap(s))
  {
    SwapFile(s);
    var t := AfterSwap(s);
    assert MemInv(t) && CommitInv(t) && RewriteInv(t);
  }

  lemma SwapFile(s: Log)
    requires FileInv(s) && RewriteInv(s) && s.buffer.Some?
    ensures FileInv(AfterSwap(s))
  {
    var t := AfterSwap(s);
    EncodeLogAppend(s.nextSnap, s.history[s.nextFrom..]);
    assert t.history[t.from..t.durable] == t.history[t.from..];
  }

  /** The background sweep drops expired entries from memory. */
  lemma SweepInv(s: Log, now: int)
    requires Inv(s)
    ensures Inv(s.(mem := Prune(s.mem, now)))
  {
    RestrictWF(s.mem, LiveKeys(s.mem, now));
    PruneBounded(s.mem, now);
    var t := s.(mem := Prune(s.mem, now));
    forall c | c in t.commits && t.commits[c].Syncing? ensures SyncInv(t, t.commits[c]) {
      assert SyncInv(s, s.commits[c]);
    }
  }

  /* ----- crash ----- */

  /** Number of history records a restart recovers when `cut` bytes of the file survive. */
  function Recovered(s: Log, cut: nat): int
    requires s.from <= |s.history|
  {
    s.from + WholeRecords(FileRecords(s), cut) - |s.snap|
  }

  lemma RecoveredRange(s: Log, cut: nat)
    requires FileInv(s) && s.synced <= cut <= |s.file|
    ensures s.durable <= Recovered(s, cut) <= s.sequence
    ensures FileRecords(s)[..WholeRecords(FileRecords(s), cut)] == s.snap + s.history[s.from..Recovered(s, cut)]
  {
    var all := FileRecords(s);
    var kept := |s.snap| + s.durable - s.from;
    assert all[..kept] == s.snap + s.history[s.from..s.durable];
    WholeRecordsAtLeast(all, kept, cut);
  }

  lemma FileRecordsCarried(s: Log, n: nat)
    requires MemInv(s) && FileInv(s) && s.from <= n <= |s.history|
    ensures AllLoggable(s.snap + s.history[s.from..n])
  {
    LoggableTogether(s.snap, s.history[s.from..n]);
  }

  /**
   * What a restart reads after a crash at any moment, deadlines allowed: exactly the snapshot of the
   * last rewrite and the records appended since, up to the n-th, where n covers every record published
   * as durable. The repaired file holds just these records.
   */
  lemma RecoveredRecords(s: Log, cut: nat, at: int)
    requires MemInv(s) && FileInv(s) && s.synced <= cut <= |s.file|
    ensures s.durable <= Recovered(s, cut) <= s.sequence
    ensures var t := AfterCrash(s, cut, at);
            t.snap == s.snap + s.history[s.from..Recovered(s, cut)] && t.file == EncodeLog(t.snap) &&
              AllLoggable(t.snap) &&
            t.mem == Replay(EMPTY, UNLIMITED, t.snap, at)
  {
    var all := FileRecords(s);
    FileRecordsCarried(s, |s.history|);
    assert s.history[s.from..|s.history|] == s.history[s.from..];
    TornTail(all, cut);
    RepairedLog(all, cut);
    RecoveredRange(s, cut);
    FileRecordsCarried(s, Recovered(s, cut));
  }

  lemma CrashInv(s: Log, cut: nat, at: int)
    requires MemInv(s) && FileInv(s) && s.synced <= cut <= |s.file|
    ensures Inv(AfterCrash(s, cut, at))
  {
    RecoveredRecords(s, cut, at);
    var t := AfterCrash(s, cut, at);
    ReplayWF(EMPTY, UNLIMITED, t.snap, at);
    ReplayBounded(EMPTY, UNLIMITED, t.snap, at);
    assert FileRecords(t) == t.snap;
    assert t.snap + t.history[0..0] == t.snap;
  }

  /* ----- every step, every run ----- */

  lemma CommitStepInv(s: Log, e: Event)
    requires Inv(s) && Enabled(s, e) && (e.CommitLock? || e.CommitSynced? || e.CommitCancelled?)
    ensures Inv(Next(s, e))
  {
    match e {
      case CommitLock(client) => LockInv(s, client);
      case CommitSynced(client, reach) => SyncedInv(s, client, reach);
      case CommitCancelled(client) => CancelInv(s, client);
    }
  }

  lemma RewriteStepInv(s: Log, e: Event)
    requires Inv(s) && Enabled(s, e) && (e.RewriteStart? || e.TempWritten? || e.RewriteSwap? || e.RewriteFail?)
    ensures Inv(Next(s, e))
  {
    match e {
      case RewriteStart(now) => RewriteStartInv(s, now);
      case TempWritten => RewriteOnly(s, Next(s, e));
      case RewriteSwap => SwapInv(s);
      case RewriteFail => RewriteOnly(s, Next(s, e));
    }
  }

  /** Memory, file and commits do not depend on the temporary file. */
  lemma RewriteOnly(s: Log, t: Log)
    requires Inv(s) && (t == s.(tempReady := true) || t == s.(buffer := None, tempReady := false))
    ensures Inv(t)
  {
    forall c | c in t.commits && t.commits[c].Syncing? ensures SyncInv(t, t.commits[c]) {
      assert SyncInv(s, s.commits[c]);
    }
  }

  /** Every step keeps the invariant. */
  lemma StepInv(s: Log, e: Event)
    requires Inv(s) && Enabled(s, e)
    ensures Inv(Next(s, e))
  {
    match e {
      case Write(client, raw, now) => WriteInv(s, client, raw, now);
      case Crash(cut, at) => CrashInv(s, cut, at);
      case Sweep(now) => SweepInv(s, now);
      case CommitLock(_) => CommitStepInv(s, e);
      case CommitSynced(_, _) => CommitStepInv(s, e);
      case CommitCancelled(_) => CommitStepInv(s, e);
      case _ => RewriteStepInv(s, e);
    }
  }

  /** Steps of commits, and of a rewrite while its temporary file is written, change nothing else. */
  lemma QuietStep(s: Log, e: Event)
    requires Enabled(s, e)
    requires e.CommitLock? || e.CommitSynced? || e.CommitCancelled? || e.TempWritten? || e.RewriteFail?
    ensures SameRecords(s, Next(s, e))
  {
  }

  /** Memory, history and snapshots are the same, and no rewrite was begun. */
  ghost predicate SameRecords(s: Log, t: Log) {
    && t.mem == s.mem && t.base == s.base && t.history == s.history && t.snap == s.snap && t.from == s.from
    && t.nextSnap == s.nextSnap && t.nextFrom == s.nextFrom && (t.buffer.Some? ==> s.buffer.Some?)
  }

  /** Entering the commit changes no record. */
  lemma PublishSame(s: Log, client: nat, mem: Cache, recs: seq<Record>, commit: bool)
    ensures SameRecords(Append(s.(mem := mem), recs), Publish(s, client, mem, recs, commit))
  {
  }

  /** Any interleaving of steps, each of them possible when it is taken. */
  ghost predicate Executes(s: Log, events: seq<Event>)
    decreases |events|
  {
    events == [] || (Enabled(s, events[0]) && Executes(Next(s, events[0]), events[1..]))
  }

  ghost function Final(s: Log, events: seq<Event>): Log
    requires Executes(s, events)
    decreases |events|
  {
    if events == [] then s else Final(Next(s, events[0]), events[1..])
  }

  lemma {:induction false} RunInv(s: Log, events: seq<Event>)
    requires Inv(s) && Executes(s, events)
    ensures Inv(Final(s, events))
    decreases |events|
  {
    if events != [] {
      StepInv(s, events[0]);
      RunInv(Next(s, events[0]), events[1..]);
    }
  }

  lemma PublishKeepsDurable(s: Log, client: nat, mem: Cache, recs: seq<Record>, commit: bool)
    requires s.sequence == |s.history|
    ensures var t := Publish(s, client, mem, recs, commit);
            t.durable == s.durable && s.acked <= t.acked &&
            (client !in s.commits && client in t.commits ==> t.commits[client] == Waiting(|t.history|))
  {
  }

  /** Between crashes the durable sequence number never decreases, nor does the acknowledged one. */
  lemma DurableNeverDecreases(s: Log, e: Event)
    requires Inv(s) && Enabled(s, e) && !e.Crash?
    ensures s.durable <= Next(s, e).durable && s.acked <= Next(s, e).acked
  {
    match e {
      case Write(client, raw, now) =>
        var eff := Dispatch(s.mem, UNLIMITED, raw, now);
        PublishKeepsDurable(s, client, eff.cache, Logged(s.mem, UNLIMITED, raw, now), Commits(raw, eff.reply));
      case _ => OtherKeepsDurable(s, e);
    }
  }

  lemma OtherKeepsDurable(s: Log, e: Event)
    requires CommitInv(s) && s.durable <= s.sequence && Enabled(s, e) && !e.Crash? && !e.Write?
    ensures s.durable <= Next(s, e).durable && s.acked <= Next(s, e).acked
  {
    if e.CommitSynced? {
      assert SyncInv(s, s.commits[e.client]);
    }
  }

  /** When a commit returns, everything appended before it was entered is durable. */
  lemma CommitReturnsDurable(s: Log, e: Event)
    requires Inv(s) && Enabled(s, e)
    requires e.CommitLock? || e.CommitSynced?
    requires e.client !in Next(s, e).commits
    ensures s.commits[e.client].want <= Next(s, e).durable
  {
    if e.CommitSynced? {
      assert SyncInv(s, s.commits[e.client]);
    }
  }

  /** A commit entered after a write waits for exactly the records appended so far. */
  lemma CommitWaitsForItsRecords(s: Log, client: nat, raw: Record, now: int)
    requires Inv(s) && client !in s.commits && client in AfterWrite(s, client, raw, now).commits
    ensures AfterWrite(s, client, raw, now).commits[client] == Waiting(|AfterWrite(s, client, raw, now).history|)
  {
    var eff := Dispatch(s.mem, UNLIMITED, raw, now);
    PublishKeepsDurable(s, client, eff.cache, Logged(s.mem, UNLIMITED, raw, now), Commits(raw, eff.reply));
  }
}

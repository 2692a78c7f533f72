/**
 * Commits and rewrites get done: whatever state the durability protocol is in, a waiting commit can return
 * after a few steps and the crash-free rest of a rewrite can be carried out. Nothing waits on a lock that
 * nobody will give back.
 */
module CommitProgress {
  import opened Base
  import opened CacheModel
  import opened Commands
  import opened TimedReplay
  import opened LogScan
  import opened Durability

  /** The lock is held only by a commit whose fsync is running. */
  ghost predicate HolderInv(s: Log) {
    s.holder.Some? ==> s.holder.value in s.commits && s.commits[s.holder.value].Syncing?
  }

  lemma WriteKeepsHolder(s: Log, client: nat, mem: Cache, recs: seq<Record>, commit: bool)
    requires HolderInv(s) && client !in s.commits
    ensures HolderInv(Publish(s, client, mem, recs, commit))
  {
  }

  lemma HolderStep(s: Log, e: Event)
    requires Inv(s) && HolderInv(s) && Enabled(s, e)
    ensures HolderInv(Next(s, e))
  {
    if e.Write? {
      var eff := Dispatch(s.mem, UNLIMITED, e.raw, e.now);
      WriteKeepsHolder(s, e.client, eff.cache, Logged(s.mem, UNLIMITED, e.raw, e.now), Commits(e.raw, eff.reply));
    } else {
      OtherKeepsHolder(s, e);
    }
  }

  lemma OtherKeepsHolder(s: Log, e: Event)
    requires CommitInv(s) && HolderInv(s) && Enabled(s, e) && !e.Write?
    ensures HolderInv(Next(s, e))
  {
    if e.CommitSynced? {
      assert SyncInv(s, s.commits[e.client]);
    }
  }

  lemma {:induction false} RunHolder(s: Log, events: seq<Event>)
    requires Inv(s) && HolderInv(s) && Executes(s, events)
    ensures Inv(Final(s, events)) && HolderInv(Final(s, events))
    decreases |events|
  {
    if events != [] {
      StepInv(s, events[0]);
      HolderStep(s, events[0]);
      RunHolder(Next(s, events[0]), events[1..]);
    }
  }

  lemma RunTwo(s: Log, a: Event, b: Event)
    requires Enabled(s, a) && Enabled(Next(s, a), b)
    ensures Executes(s, [a, b]) && Final(s, [a, b]) == Next(Next(s, a), b)
  {
    assert [a, b][1..] == [b] && [b][1..] == [];
    assert Executes(Next(Next(s, a), b), []);
    assert Executes(Next(s, a), [b]);
    assert Final(Next(s, a), [b]) == Final(Next(Next(s, a), b), []);
  }

  lemma RunOne(s: Log, a: Event)
    requires Enabled(s, a)
    ensures Executes(s, [a]) && Final(s, [a]) == Next(s, a)
  {
    assert [a][1..] == [];
    assert Executes(Next(s, a), []);
    assert Final(Next(s, a), []) == Next(s, a);
  }

  lemma RunThen(s: Log, a: Event, rest: seq<Event>)
    requires Enabled(s, a) && Executes(Next(s, a), rest)
    ensures Executes(s, [a] + rest) && Final(s, [a] + rest) == Final(Next(s, a), rest)
  {
    assert ([a] + rest)[1..] == rest;
  }

  /** The commit has returned, with everything it waited for acknowledged. */
  predicate Returned(s: Log, client: nat, want: nat) {
    client !in s.commits && s.acked >= want && s.durable >= want
  }

  /** A commit that holds the lock returns when its fsync is done, and gives the lock back. */
  lemma HolderReturns(s: Log, client: nat)
    requires Inv(s) && client in s.commits && s.commits[client].Syncing?
    ensures var e := CommitSynced(client, |s.file|);
            Enabled(s, e) && Returned(Next(s, e), client, s.commits[client].want) && Next(s, e).holder.None? &&
            forall c :: c in s.commits && c != client ==> c in Next(s, e).commits && Next(s, e).commits[c] == s.commits[c]
  {
    var p := s.commits[client];
    assert SyncInv(s, p);
    MarkWithinFile(s, p);
  }

  lemma MarkWithinFile(s: Log, p: Phase)
    requires Inv(s) && p.Syncing? && SyncInv(s, p)
    ensures p.mark <= |s.file|
  {
    var tail := s.history[s.from..];
    assert s.history[s.from..p.upto] == tail[..p.upto - s.from];
    assert s.snap + tail == (s.snap + tail[..p.upto - s.from]) + tail[p.upto - s.from..];
    EncodeLogAppend(s.snap + tail[..p.upto - s.from], tail[p.upto - s.from..]);
  }

  /** With the lock free, a waiting commit returns at once if its records are durable, else after one fsync. */
  lemma WaiterReturns(s: Log, client: nat) returns (events: seq<Event>)
    requires Inv(s) && client in s.commits && s.commits[client].Waiting? && s.holder.None?
    ensures |events| <= 2 && Executes(s, events) && Returned(Final(s, events), client, s.commits[client].want)
    ensures |events| == 1 <==> s.durable >= s.commits[client].want
  {
    var lock := CommitLock(client);
    var t := Next(s, lock);
    StepInv(s, lock);
    if s.durable >= s.commits[client].want {
      events := [lock];
      RunOne(s, lock);
    } else {
      HolderReturns(t, client);
      events := [lock, CommitSynced(client, |t.file|)];
      RunTwo(s, lock, CommitSynced(client, |t.file|));
    }
  }

  /**
   * Whatever has happened, every commit in progress can return within three steps - the end of the fsync
   * that holds the lock, its own turn, and its own fsync - with all the records it waited for durable.
   */
  lemma CommitCanReturn(s: Log, client: nat) returns (events: seq<Event>)
    requires Inv(s) && HolderInv(s) && client in s.commits
    ensures |events| <= 3 && Executes(s, events) && Returned(Final(s, events), client, s.commits[client].want)
  {
    if s.holder.None? {
      assert s.commits[client].Waiting?;
      events := WaiterReturns(s, client);
    } else {
      var first := CommitSynced(s.holder.value, |s.file|);
      HolderReturns(s, s.holder.value);
      StepInv(s, first);
      RunOne(s, first);
      if s.holder.value == client {
        events := [first];
      } else {
        assert s.commits[client].Waiting?;
        var later := WaiterReturns(Next(s, first), client);
        RunThen(s, first, later);
        events := [first] + later;
      }
    }
  }

  /** So it is from the first start, after any run of steps, crashes included. */
  lemma EveryCommitCanReturn(ran: seq<Event>, client: nat) returns (events: seq<Event>)
    requires Executes(FRESH, ran) && client in Final(FRESH, ran).commits
    ensures var s := Final(FRESH, ran);
            |events| <= 3 && Executes(s, events) && Returned(Final(s, events), client, s.commits[client].want)
  {
    FreshInv();
    RunHolder(FRESH, ran);
    events := CommitCanReturn(Final(FRESH, ran), client);
  }

  /** A write that succeeded returns at once if and only if every record of the log is durable already. */
  lemma ReturnsAtOnceIff(s: Log, client: nat, raw: Record, now: int)
    requires Inv(s) && Enabled(s, Write(client, raw, now)) && Commits(raw, Dispatch(s.mem, UNLIMITED, raw, now).reply)
    ensures var t := Next(s, Write(client, raw, now)); client !in t.commits <==> t.durable >= |t.history|
  {
  }

  /* ----- group commit ----- */

  /** The fsync that `client` runs, if it runs one, covers the first `n` records. */
  ghost predicate SyncCovers(s: Log, client: nat, n: nat) {
    s.sequence >= n && (client in s.commits && s.commits[client].Syncing? ==> s.commits[client].upto >= n)
  }

  lemma PublishCovers(s: Log, client: nat, writer: nat, mem: Cache, recs: seq<Record>, commit: bool, n: nat)
    requires SyncCovers(s, client, n) && writer !in s.commits
    ensures SyncCovers(Publish(s, writer, mem, recs, commit), client, n)
  {
  }

  lemma StepCovers(s: Log, e: Event, client: nat, n: nat)
    requires Enabled(s, e) && !e.Crash? && SyncCovers(s, client, n)
    ensures SyncCovers(Next(s, e), client, n)
  {
    if e.Write? {
      var eff := Dispatch(s.mem, UNLIMITED, e.raw, e.now);
      PublishCovers(s, client, e.client, eff.cache, Logged(s.mem, UNLIMITED, e.raw, e.now), Commits(e.raw, eff.reply), n);
    }
  }

  lemma {:induction false} RunCovers(s: Log, events: seq<Event>, client: nat, n: nat)
    requires Executes(s, events) && SyncCovers(s, client, n) && forall e :: e in events ==> !e.Crash?
    ensures SyncCovers(Final(s, events), client, n)
    decreases |events|
  {
    if events != [] {
      StepCovers(s, events[0], client, n);
      RunCovers(Next(s, events[0]), events[1..], client, n);
    }
  }

  /** Everyone who waits for no more than the first `n` records can return on getting the lock, with no fsync. */
  ghost predicate AllServed(s: Log, n: nat) {
    forall c :: c in s.commits && s.commits[c].Waiting? && s.commits[c].want <= n ==>
      Enabled(s, CommitLock(c)) && c !in Next(s, CommitLock(c)).commits
  }

  /**
   * Group commit: whatever happens between the two steps of one client's fsync, crashes apart, its end
   * serves everyone whose records were in the log when it began - each returns without an fsync of its own.
   */
  lemma OneSyncServesAll(s: Log, client: nat, between: seq<Event>, reach: nat)
    requires Enabled(s, CommitLock(client)) && s.durable < s.commits[client].want
    requires Executes(Next(s, CommitLock(client)), between) && forall e :: e in between ==> !e.Crash?
    requires Enabled(Final(Next(s, CommitLock(client)), between), CommitSynced(client, reach))
    ensures var t := Next(Final(Next(s, CommitLock(client)), between), CommitSynced(client, reach));
            t.durable >= s.sequence && AllServed(t, s.sequence)
  {
    RunCovers(Next(s, CommitLock(client)), between, client, s.sequence);
  }

  /* ----- rewrites ----- */

  /** The rewrite is done: the file is its snapshot and what was appended since, all of it durable. */
  ghost predicate Rewritten(s: Log, t: Log) {
    && t.buffer.None? && t.history == s.history && t.durable == |s.history| && t.synced == |t.file|
    && s.nextFrom <= |s.history| && t.file == EncodeLog(s.nextSnap + s.history[s.nextFrom..])
  }

  lemma SwapRewrites(s: Log)
    requires Inv(s) && Enabled(s, RewriteSwap)
    ensures Rewritten(s, Next(s, RewriteSwap))
  {
    EncodeLogAppend(s.nextSnap, s.history[s.nextFrom..]);
  }

  lemma FreeLockRewrites(s: Log) returns (events: seq<Event>)
    requires Inv(s) && s.buffer.Some? && s.holder.None?
    ensures |events| == 2 && Executes(s, events) && Rewritten(s, Final(s, events))
  {
    var t := Next(s, TempWritten);
    StepInv(s, TempWritten);
    SwapRewrites(t);
    RunTwo(s, TempWritten, RewriteSwap);
    events := [TempWritten, RewriteSwap];
  }

  /** A rewrite in progress can be finished within three steps: the running fsync, the temporary file, the swap. */
  lemma RewriteCanFinish(s: Log) returns (events: seq<Event>)
    requires Inv(s) && HolderInv(s) && s.buffer.Some?
    ensures |events| <= 3 && Executes(s, events) && Rewritten(s, Final(s, events))
  {
    if s.holder.None? {
      events := FreeLockRewrites(s);
    } else {
      var first := CommitSynced(s.holder.value, |s.file|);
      HolderReturns(s, s.holder.value);
      StepInv(s, first);
      var later := FreeLockRewrites(Next(s, first));
      RunThen(s, first, later);
      events := [first] + later;
    }
  }
}

/**
 * The log object and the server's write path as they run: every atomic stretch of the coroutines is
 * a method, proved to be the corresponding step of the durability protocol.
 */
module Server {
  import opened Base
  import opened Decimal
  import opened CacheModel
  import opened Commands
  import opened TimedReplay
  import opened LogScan
  import opened Rewrite
  import opened StoreEngine
  import opened Handlers
  import opened CrashCuts
  import opened NameReadings
  import D = Durability
  import R = Replication
  import Resp

  /** `AOFLog`, with the coroutines that are inside `commit` and the rewrite in progress. */
  class AofLog {
    var file: Bytes
    var synced: nat
    var sequence: nat
    var durable: nat
    var commits: map<nat, D.Phase>
    var holder: Option<nat>
    var buffer: Option<seq<Bytes>>
    var payload: Bytes
    var tempReady: bool
    ghost var acked: nat
    ghost var base: seq<Record>
    ghost var history: seq<Record>
    ghost var snap: seq<Record>
    ghost var from: nat
    ghost var nextSnap: seq<Record>
    ghost var nextFrom: nat

    /** The state of the protocol, given what the store holds. */
    ghost function View(mem: Cache): D.Log
      reads this
    {
      D.Log(mem, file, synced, sequence, durable, commits, holder, buffer, payload, tempReady,
            acked, base, history, snap, from, nextSnap, nextFrom)
    }

    constructor (contents: Bytes)
      ensures file == contents && View(EMPTY) == D.FRESH.(file := contents, synced := |contents|)
    {
      file, synced, sequence, durable := contents, |contents|, 0, 0;
      commits, holder, buffer, payload, tempReady := map[], None, None, [], false;
      acked, base, history, snap, from, nextSnap, nextFrom := 0, [], [], [], 0, [], 0;
    }

    method Append(r: Record, ghost mem: Cache)
      modifies this
      ensures View(mem) == D.Append(old(View(mem)), [r])
    {
      var data := Resp.EncodeCommand(r);
      EncodeLogUnfold([r]);
      assert Encoded([r]) == [data] && EncodeLog([r]) == data;
      file := file + data;
      if buffer.Some? {
        buffer := Some(buffer.value + [data]);
      }
      sequence := sequence + 1;
      history := history + [r];
    }

    method AppendAll(recs: seq<Record>, ghost mem: Cache)
      modifies this
      ensures View(mem) == D.Append(old(View(mem)), recs)
    {
      ghost var s := View(mem);
      AppendNothing(s);
      for i := 0 to |recs|
        invariant View(mem) == D.Append(s, recs[..i])
      {
        AppendNext(s, recs, i);
        Append(recs[i], mem);
      }
      assert recs[..|recs|] == recs;
    }

    /** `commit`, up to its first await. */
    method EnterCommit(client: nat, ghost mem: Cache)
      modifies this
      ensures View(mem) == D.CommitEnter(old(View(mem)), client)
    {
      if durable >= sequence {
        acked := D.Max(acked, sequence);
      } else {
        commits := commits[client := D.Waiting(sequence)];
      }
    }

    /** `commit`, once the lock is acquired and up to the start of the fsync. */
    method LockAcquired(client: nat, ghost mem: Cache)
      requires D.Inv(View(mem)) && D.Enabled(View(mem), D.CommitLock(client))
      modifies this
      ensures D.Inv(View(mem)) && View(mem) == D.Next(old(View(mem)), D.CommitLock(client))
    {
      D.StepInv(View(mem), D.CommitLock(client));
      CheckDurable(client, mem);
    }

    /** Return if a shared fsync already covered this commit, else start one. */
    method CheckDurable(client: nat, ghost mem: Cache)
      requires client in commits
      modifies this`commits, this`holder, this`acked
      ensures View(mem) == D.AfterLock(old(View(mem)), client)
    {
      var want := commits[client].want;
      if durable >= want {
        commits := commits - {client};
        acked := D.Max(acked, want);
      } else {
        commits := commits[client := D.Syncing(want, sequence, |file|)];
        holder := Some(client);
      }
    }

    /** `commit`, when the fsync has returned; `reach` is how far into the file it got. */
    method FsyncDone(client: nat, reach: nat, ghost mem: Cache)
      requires D.Inv(View(mem)) && D.Enabled(View(mem), D.CommitSynced(client, reach))
      modifies this
      ensures D.Inv(View(mem)) && View(mem) == D.Next(old(View(mem)), D.CommitSynced(client, reach))
    {
      D.StepInv(View(mem), D.CommitSynced(client, reach));
      MarkDurable(client, reach, mem);
    }

    method MarkDurable(client: nat, reach: nat, ghost mem: Cache)
      requires client in commits && commits[client].Syncing?
      modifies this`synced, this`durable, this`commits, this`holder, this`acked
      ensures View(mem) == D.AfterSync(old(View(mem)), client, reach)
    {
      var p := commits[client];
      synced, durable := reach, p.upto;
      commits, holder := commits - {client}, None;
      acked := D.Max(acked, p.want);
    }

    /** A client that goes away while it waits gives the lock back. */
    method CancelCommit(client: nat, ghost mem: Cache)
      requires D.Inv(View(mem)) && D.Enabled(View(mem), D.CommitCancelled(client))
      modifies this
      ensures D.Inv(View(mem)) && View(mem) == D.Next(old(View(mem)), D.CommitCancelled(client))
    {
      D.StepInv(View(mem), D.CommitCancelled(client));
      LeaveCommit(client, mem);
    }

    method LeaveCommit(client: nat, ghost mem: Cache)
      modifies this`commits, this`holder
      ensures View(mem) == D.AfterCancel(old(View(mem)), client)
    {
      commits := commits - {client};
      if holder == Some(client) {
        holder := None;
      }
    }

    /** `rewrite`, up to its first await; refused while another one is in progress. */
    method BeginRewrite(store: Store, now: int) returns (started: bool)
      requires store.Valid() && store as object != this as object
      requires D.Inv(View(store.State())) && (buffer.None? ==> D.Enabled(View(store.State()), D.RewriteStart(now)))
      modifies this, store
      ensures store.Valid() && D.Inv(View(store.State())) && (started <==> old(buffer).None?)
      ensures View(store.State()) ==
              if started then D.Next(old(View(store.State())), D.RewriteStart(now)) else old(View(store.State()))
    {
      started := buffer.None?;
      if started {
        D.StepInv(View(store.State()), D.RewriteStart(now));
        ghost var s := View(store.State());
        var commands := BuildRewriteCommands(store, now);
        SetUpRewrite(s, commands, store.State());
      }
    }

    /** The rewrite's payload and its empty tail buffer. */
    method SetUpRewrite(ghost s: D.Log, commands: seq<Record>, ghost mem: Cache)
      requires s == View(s.mem)
      modifies this`payload, this`buffer, this`tempReady, this`nextSnap, this`nextFrom
      ensures View(mem) == s.(mem := mem, payload := EncodeLog(commands), buffer := Some([]), tempReady := false,
                              nextSnap := commands, nextFrom := s.sequence)
    {
      payload, buffer, tempReady := EncodeLog(commands), Some([]), false;
      nextSnap, nextFrom := commands, sequence;
    }

    /** The temporary file is written and synced. */
    method TempWritten(ghost mem: Cache)
      requires D.Inv(View(mem)) && D.Enabled(View(mem), D.TempWritten)
      modifies this
      ensures D.Inv(View(mem)) && View(mem) == D.Next(old(View(mem)), D.TempWritten)
    {
      D.StepInv(View(mem), D.TempWritten);
      tempReady := true;
    }

    /** `rewrite`, under the commit lock: append the tail, sync, replace the file. */
    method SwapFiles(ghost mem: Cache)
      requires D.Inv(View(mem)) && D.Enabled(View(mem), D.RewriteSwap)
      modifies this
      ensures D.Inv(View(mem)) && View(mem) == D.Next(old(View(mem)), D.RewriteSwap)
    {
      D.StepInv(View(mem), D.RewriteSwap);
      InstallRewrite(mem);
    }

    method InstallRewrite(ghost mem: Cache)
      requires buffer.Some?
      modifies this
      ensures View(mem) == D.AfterSwap(old(View(mem)))
    {
      ReplaceFile(payload + Join(buffer.value), mem);
      durable, buffer, tempReady := sequence, None, false;
      snap, from := nextSnap, nextFrom;
    }

    /** The temporary file, written and synced, takes the place of the log. */
    method ReplaceFile(contents: Bytes, ghost mem: Cache)
      modifies this`file, this`synced
      ensures View(mem) == old(View(mem)).(file := contents, synced := |contents|)
    {
      file, synced := contents, |contents|;
    }

    method FailRewrite(ghost mem: Cache)
      requires D.Inv(View(mem)) && D.Enabled(View(mem), D.RewriteFail)
      modifies this
      ensures D.Inv(View(mem)) && View(mem) == D.Next(old(View(mem)), D.RewriteFail)
    {
      D.StepInv(View(mem), D.RewriteFail);
      buffer, tempReady := None, false;
    }

    /** `replay`: run every readable command, then discard an incomplete or corrupt tail. */
    method ReplayInto(store: Store, now: int) returns (count: nat)
      requires store.Valid() && store as object != this as object
      modifies store, this`file
      ensures store.Valid() && store.evicted == []
      ensures count == |Scan(old(file)).commands|
      ensures store.State() == Replay(old(store.State()), store.Cfg(), Scan(old(file)).commands, now)
      ensures file == Repaired(old(file))
      ensures View(EMPTY) == old(View(EMPTY)).(file := Repaired(old(file)))
    {
      var good, torn;
      count, good, torn := RunReadable(file, store, now);
      if torn {
        file := Truncated(file, good);
      }
      var _ := store.DrainEvictions();
    }

    /** A restarted log takes what it recovered as its starting point. */
    method Resume(ghost mem: Cache, ghost records: seq<Record>)
      modifies this`synced, this`base, this`snap
      ensures View(mem) == old(View(mem)).(synced := |file|, base := records, snap := records)
    {
      synced := |file|;
      base, snap := records, records;
    }
  }

  lemma AppendNothing(s: D.Log)
    ensures D.Append(s, []) == s
  {
    assert EncodeLog([]) == [] && Encoded([]) == [];
    assert s.file + [] == s.file && s.history + [] == s.history;
    assert s.buffer.Some? ==> s.buffer.value + [] == s.buffer.value;
  }

  lemma AppendAgain(s: D.Log, a: seq<Record>, b: seq<Record>)
    ensures D.Append(D.Append(s, a), b) == D.Append(s, a + b)
  {
    EncodeLogAppend(a, b);
    EncodedAppend(a, b);
    Regroup(s.file, EncodeLog(a), EncodeLog(b));
    Regroup(s.history, a, b);
    if s.buffer.Some? {
      Regroup(s.buffer.value, Encoded(a), Encoded(b));
    }
  }

  lemma AppendNext(s: D.Log, recs: seq<Record>, i: nat)
    requires i < |recs|
    ensures D.Append(D.Append(s, recs[..i]), [recs[i]]) == D.Append(s, recs[..i + 1])
  {
    AppendAgain(s, recs[..i], [recs[i]]);
    assert recs[..i] + [recs[i]] == recs[..i + 1];
  }

  /** A restart on the bytes a crash left: the log object and the store are those of the protocol. */
  method Restart(disk: Bytes, store: Store, now: int, ghost s: D.Log, ghost cut: nat) returns (log: AofLog)
    requires store.Valid() && store.State() == EMPTY && store.Cfg() == UNLIMITED
    requires D.Inv(s) && D.Enabled(s, D.Crash(cut, now)) && disk == s.file[..cut]
    modifies store
    ensures fresh(log) && store.Valid()
    ensures D.Inv(log.View(store.State())) && log.View(store.State()) == D.Next(s, D.Crash(cut, now))
  {
    D.StepInv(s, D.Crash(cut, now));
    log := new AofLog(disk);
    var _ := log.ReplayInto(store, now);
    ghost var mem := store.State();
    assert log.View(mem) == log.View(EMPTY).(mem := mem);
    log.Resume(mem, Scan(disk).commands);
  }

  /**
   * On a store without a cap, and with a name that both readings take for the same, the write path is the
   * write step of the durability protocol, and keeps its invariant.
   */
  lemma UncappedWriteIsProtocolStep(s: D.Log, client: nat, rd: Reading, raw: Record, now: int)
    requires D.Inv(s) && D.Enabled(s, D.Write(client, raw, now)) && ReadsAscii(rd) &&
             (raw != [] ==> AsciiName(raw[0]))
    ensures var eff := Understood(s.mem, UNLIMITED, rd, raw, now);
            var t := D.Publish(s, client, eff.cache, Appended(raw, WithPending([], eff), now), Commits(raw, eff.reply));
            t == D.Next(s, D.Write(client, raw, now)) && D.Inv(t)
  {
    AsciiUnderstood(s.mem, UNLIMITED, rd, raw, now);
    var eff := Dispatch(s.mem, UNLIMITED, raw, now);
    assert WithPending([], eff) == eff;
    UncappedAppends(s.mem, raw, now);
    D.StepInv(s, D.Write(client, raw, now));
  }

  /**
   * The write path: run the command as the command layer reads it; if the server reads a write and it
   * succeeded, append and propagate its normal form if it took effect, then the evictions recorded by the
   * store in order, and enter the commit. `sent` is what each replica link is given.
   */
  method ServeCommand(store: Store, log: AofLog, client: nat, rd: Reading, raw: Record, now: int)
    returns (reply: Value, sent: seq<Record>)
    requires store.Valid() && ReadsAscii(rd)
    modifies store, log
    ensures store.Valid()
    ensures var eff := Understood(old(store.State()), store.Cfg(), rd, raw, now);
            var all := WithPending(old(store.evicted), eff);
            store.State() == eff.cache && reply == eff.reply && sent == R.Messages(raw, all) &&
            store.evicted == (if Commits(raw, reply) then [] else all.evicted) &&
            log.View(eff.cache) ==
              D.Publish(old(log.View(store.State())), client, eff.cache, Appended(raw, all, now), Commits(raw, reply))
  {
    ghost var eff := Understood(store.State(), store.Cfg(), rd, raw, now);
    CommitsByName(store.State(), store.Cfg(), rd, raw, now);
    ghost var all := WithPending(store.evicted, eff);
    var before := store.writes;
    reply := RunCommand(store, Heard(rd, raw), now);
    sent := Announce(store, log, client, raw, reply, before, now, all);
  }

  /** What follows the dispatch: decide whether to log, drain the evictions, publish. */
  method Announce(store: Store, log: AofLog, client: nat, raw: Record, reply: Value, before: nat, now: int,
                  ghost eff: Effect)
    returns (sent: seq<Record>)
    requires store.Valid() && store.State() == eff.cache && store.evicted == eff.evicted
    requires store.writes == before + eff.writes && reply == eff.reply
    requires Commits(raw, reply) <==> ReadAsWrite(raw) && !reply.Error?
    modifies store`evicted, log
    ensures store.evicted == (if Commits(raw, reply) then [] else eff.evicted) && sent == R.Messages(raw, eff)
    ensures log.View(eff.cache) ==
            D.Publish(old(log.View(eff.cache)), client, eff.cache, Appended(raw, eff, now), Commits(raw, eff.reply))
  {
    sent := [];
    if !reply.Error? && ReadAsWrite(raw) {
      SetByName(raw);
      var effective := Upper(raw[0]) != "SET" || store.writes != before;
      var keys := store.DrainEvictions();
      sent := PublishWrite(log, client, raw, effective, keys, now, eff.cache);
    } else {
      AppendNothing(log.View(eff.cache));
    }
  }

  /** Append and propagate a write and the evictions that came with it, and enter the commit. */
  method PublishWrite(log: AofLog, client: nat, raw: Record, effective: bool, keys: seq<Key>, now: int,
                      ghost mem: Cache) returns (sent: seq<Record>)
    modifies log
    ensures sent == (if effective then [ToReplication(raw)] else []) + DelRecords(keys)
    ensures var recs := (if effective then ToAof(raw, now) else []) + DelRecords(keys);
            log.View(mem) == D.CommitEnter(D.Append(old(log.View(mem)), recs), client)
  {
    ghost var base := log.View(mem);
    sent := [];
    AppendNothing(base);
    if effective {
      log.AppendAll(ToAof(raw, now), mem);
      sent := [ToReplication(raw)];
    }
    sent := PublishEvictions(log, keys, sent, mem);
    AppendAgain(base, if effective then ToAof(raw, now) else [], DelRecords(keys));
    log.EnterCommit(client, mem);
  }

  method PublishEvictions(log: AofLog, keys: seq<Key>, already: seq<Record>, ghost mem: Cache)
    returns (sent: seq<Record>)
    modifies log
    ensures sent == already + DelRecords(keys)
    ensures log.View(mem) == D.Append(old(log.View(mem)), DelRecords(keys))
  {
    sent := already;
    AppendNothing(log.View(mem));
    for i := 0 to |keys|
      invariant sent == already + DelRecords(keys[..i])
      invariant log.View(mem) == D.Append(old(log.View(mem)), DelRecords(keys[..i]))
    {
      assert keys[..i + 1][..i] == keys[..i];
      Regroup(already, DelRecords(keys[..i]), [DelRecord(keys[i])]);
      AppendAgain(old(log.View(mem)), DelRecords(keys[..i]), [DelRecord(keys[i])]);
      log.Append(DelRecord(keys[i]), mem);
      sent := sent + [DelRecord(keys[i])];
    }
    assert keys[..|keys|] == keys;
  }

  /* ----- full resync ----- */

  /** What `_serve_replica` queues before any live write: a flush, then the snapshot in key order. */
  method ResyncCommands(store: Store, now: int) returns (commands: seq<Record>)
    requires store.Valid()
    modifies store
    ensures store.Valid() && store.State() == Prune(old(store.State()), now) && store.evicted == old(store.evicted)
    ensures D.OrderInMap(store.State()) && commands == R.Resync(store.State(), now)
  {
    var rows := store.TakeSnapshot(now);
    PruneEntries(old(store.State()), now);
    SnapshotOfLive(store.order, store.entries, now);
    var snapshot := SnapshotCommands(rows, store.order, store.entries, now);
    commands := [["FLUSHDB"]] + snapshot;
  }

  /** The loop of `build_snapshot_commands`. */
  method SnapshotCommands(rows: seq<Item>, ghost o: seq<Key>, ghost m: map<Key, Entry>, now: int)
    returns (commands: seq<Record>)
    requires |rows| == |o| && forall k :: k in o ==> k in m
    requires forall i :: 0 <= i < |o| ==> rows[i] == Row(o[i], m[o[i]], now)
    ensures commands == R.SnapshotRecords(o, m, now)
  {
    commands := [];
    for i := 0 to |rows|
      invariant commands == R.SnapshotRecords(o[..i], m, now)
    {
      commands := commands + [SetRecord(rows[i].key, rows[i].value)];
      if rows[i].ttl.Some? {
        commands := commands + [["EXPIRE", rows[i].key, IntText(R.SnapshotSeconds(rows[i].ttl.value))]];
      }
      assert o[..i + 1][..i] == o[..i];
    }
    assert o[..|o|] == o;
  }
}

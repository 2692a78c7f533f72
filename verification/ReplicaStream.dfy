/**
 * What a replica holds after any part of the replication stream: the messages of a resync and of the live
 * writes, with heartbeats between them, go through the bounded queue of a link, any prefix of the bytes
 * written arrives, and the replica runs the whole commands it can read.
 */
module ReplicaStream {
  import opened Base
  import opened Decimal
  import opened CacheModel
  import opened LruLaws
  import opened Commands
  import opened TimedReplay
  import opened PlainMap
  import opened LogScan
  import opened Rewrite
  import opened Bounds
  import opened Replication
  import opened CrashCuts
  import opened Replies
  import opened NameReadings
  import L = ReplicaLink

  /* ----- the replica's loop ----- */

  const BEAT: Record := ["PING"]

  /** A line by which a primary refuses to replicate. */
  predicate Refuses(c: Record) {
    c != [] && c[0] != [] && c[0][0] == '-'
  }

  /** The commands the replica runs: heartbeats are skipped, a refusal ends the loop. */
  function Followed(commands: seq<Record>): seq<Record> {
    if commands == [] || commands[0] == [] || Refuses(commands[0]) then []
    else (if Upper(commands[0][0]) == "PING" then [] else [commands[0]]) + Followed(commands[1..])
  }

  /** The replica's store when these bytes have arrived. */
  function Received(r: Cache, bytes: Bytes, at: int): Cache {
    Replay(r, REPLICA, Followed(Scan(bytes).commands), at)
  }

  /** The records of a stream other than its heartbeats. */
  function Unbeaten(recs: seq<Record>): seq<Record> {
    if recs == [] then [] else (if recs[0] == BEAT then [] else [recs[0]]) + Unbeaten(recs[1..])
  }

  lemma {:induction false} UnbeatenAppend(a: seq<Record>, b: seq<Record>)
    ensures Unbeaten(a + b) == Unbeaten(a) + Unbeaten(b)
  {
    if a == [] {
      assert a + b == b;
    } else {
      assert (a + b)[1..] == a[1..] + b;
      UnbeatenAppend(a[1..], b);
    }
  }

  /** A record that the wire can carry and the replica runs. */
  predicate Sendable(c: Record) {
    Loggable(c) && !Refuses(c) && Upper(c[0]) != "PING"
  }

  predicate AllSendable(recs: seq<Record>) {
    forall i :: 0 <= i < |recs| ==> Sendable(recs[i])
  }

  /** What a primary sends. */
  predicate FromPrimary(recs: seq<Record>) {
    forall i :: 0 <= i < |recs| ==> recs[i] == BEAT || Sendable(recs[i])
  }

  lemma WriteNamesAreFollowed(c: Record)
    requires ReadAsWrite(c)
    ensures !Refuses(c) && Upper(c[0]) != "PING"
  {
    var name := Upper(c[0]);
    KnownNamesAreUpper(name);
    assert "PING" == READS[6];
    if name == "PING" {
      ReadsAreNotWrites(name);
    }
    assert name != [] && 'A' <= name[0] <= 'Z' by {
      assert name == "SET" || name == WRITES[0] || name in WRITES;
      if name in WRITES {
        var i :| 0 <= i < |WRITES| && WRITES[i] == name;
        assert i < 11;
      }
    }
  }

  lemma {:induction false} SendableIsFollowed(recs: seq<Record>)
    requires FromPrimary(recs)
    ensures Followed(recs) == Unbeaten(recs)
  {
    if recs != [] {
      SendableIsFollowed(recs[1..]);
      if recs[0] == BEAT {
        UpperFixed("PING");
      }
    }
  }

  lemma {:induction false} StreamParts(recs: seq<Record>)
    requires AllSendable(Unbeaten(recs))
    ensures FromPrimary(recs)
  {
    if recs != [] {
      var rest := Unbeaten(recs[1..]);
      var first := if recs[0] == BEAT then [] else [recs[0]];
      assert Unbeaten(recs) == first + rest;
      forall i | 0 <= i < |rest| ensures Sendable(rest[i]) {
        assert (first + rest)[|first| + i] == rest[i];
      }
      StreamParts(recs[1..]);
      if recs[0] != BEAT {
        assert Unbeaten(recs)[0] == recs[0];
      }
    }
  }

  lemma StreamLoggable(recs: seq<Record>)
    requires AllSendable(Unbeaten(recs))
    ensures AllLoggable(recs)
  {
    StreamParts(recs);
    assert Loggable(BEAT);
  }

  lemma FromPrimaryPrefix(recs: seq<Record>, w: nat)
    requires FromPrimary(recs) && w <= |recs|
    ensures FromPrimary(recs[..w])
  {
  }

  /** What is cut from a stream with heartbeats is cut from the stream without them. */
  lemma UnbeatenPrefix(recs: seq<Record>, w: nat) returns (k: nat)
    requires w <= |recs|
    ensures k <= |Unbeaten(recs)| && Unbeaten(recs[..w]) == Unbeaten(recs)[..k]
    ensures w == |recs| ==> k == |Unbeaten(recs)|
  {
    assert recs == recs[..w] + recs[w..];
    UnbeatenAppend(recs[..w], recs[w..]);
    k := |Unbeaten(recs[..w])|;
  }

  lemma PrefixFollowed(recs: seq<Record>, w: nat)
    requires AllSendable(Unbeaten(recs)) && w <= |recs|
    ensures Followed(recs[..w]) == Unbeaten(recs[..w])
  {
    StreamParts(recs);
    FromPrimaryPrefix(recs, w);
    SendableIsFollowed(recs[..w]);
  }

  lemma WholeRead(recs: seq<Record>, cut: nat) returns (w: nat)
    requires AllSendable(Unbeaten(recs)) && cut <= |EncodeLog(recs)|
    ensures w <= |recs| && Scan(EncodeLog(recs)[..cut]).commands == recs[..w]
    ensures cut == |EncodeLog(recs)| ==> w == |recs|
  {
    StreamLoggable(recs);
    TornTail(recs, cut);
    WholeRecordsOfWhole(recs);
    w := WholeRecords(recs, cut);
  }

  /** Whatever prefix of a stream arrives, the replica has run a prefix of its records. */
  lemma PrefixReceived(recs: seq<Record>, cut: nat) returns (k: nat)
    requires AllSendable(Unbeaten(recs)) && cut <= |EncodeLog(recs)|
    ensures k <= |Unbeaten(recs)| && Followed(Scan(EncodeLog(recs)[..cut]).commands) == Unbeaten(recs)[..k]
    ensures cut == |EncodeLog(recs)| ==> k == |Unbeaten(recs)|
  {
    var w := WholeRead(recs, cut);
    PrefixFollowed(recs, w);
    k := UnbeatenPrefix(recs, w);
  }

  lemma AllReceived(recs: seq<Record>)
    requires AllSendable(Unbeaten(recs))
    ensures Followed(Scan(EncodeLog(recs)).commands) == Unbeaten(recs)
  {
    var k := PrefixReceived(recs, |EncodeLog(recs)|);
    assert EncodeLog(recs)[..|EncodeLog(recs)|] == EncodeLog(recs);
  }

  /* ----- everything a primary sends can be carried, and is followed ----- */

  lemma VictimsWereKeys(c: Cache, cfg: Config, now: int)
    requires WF(c)
    ensures forall k :: k in Evict(c, cfg, now).victims ==> k in c.entries
  {
    if cfg.lru && Over(c, cfg) {
      RestrictWF(c, LiveKeys(c, now));
      ShortestSufficientPrefix(Prune(c, now), cfg);
    }
  }

  lemma VictimsSmall(c: Cache, cfg: Config, k: Key, v: Bytes, deadline: Option<int>, now: int)
    requires WF(c) && Bounded(Values(c)) && Small(k)
    ensures forall x :: x in Evict(Put(c, k, NewEntry(k, v, deadline)), cfg, now).victims ==> Small(x)
  {
    var p := Put(c, k, NewEntry(k, v, deadline));
    PutWF(c, k, NewEntry(k, v, deadline));
    VictimsWereKeys(p, cfg, now);
    forall x | x in p.entries ensures Small(x) {
      assert x == k || x in Values(c);
    }
  }

  lemma SetVictimsSmall(c: Cache, cfg: Config, o: SetOptions, now: int)
    requires WF(c) && Bounded(Values(c)) && Small(o.key)
    ensures forall x :: x in ExecSet(c, cfg, o, now).evicted ==> Small(x)
  {
    var first := DoGet(c, o.key, now).cache;
    var again := DoGet(first, o.key, now).cache;
    GetWF(c, o.key, now);
    GetWF(first, o.key, now);
    FewerBounded(c, first);
    FewerBounded(first, again);
    VictimsSmall(if o.get then again else first, cfg, o.key, o.value, Deadline(o.ttl, now), now);
  }

  lemma {:induction false} MsetVictimsSmall(c: Cache, cfg: Config, pairs: seq<(Key, Bytes)>, now: int)
    requires WF(c) && Bounded(Values(c)) && forall i :: 0 <= i < |pairs| ==> Small(pairs[i].0) && Small(pairs[i].1)
    ensures forall x :: x in ExecMset(c, cfg, pairs, now).evicted ==> Small(x)
    decreases |pairs|
  {
    if pairs != [] {
      VictimsSmall(c, cfg, pairs[0].0, pairs[0].1, None, now);
      WriteBounded(c, cfg, pairs[0].0, pairs[0].1, None, now);
      WriteWF(c, cfg, pairs[0].0, pairs[0].1, None, now);
      MsetVictimsSmall(DoSet(c, cfg, pairs[0].0, pairs[0].1, None, now).cache, cfg, pairs[1..], now);
    }
  }

  lemma IncrVictimsSmall(c: Cache, cfg: Config, k: Key, delta: int, now: int)
    requires WF(c) && Bounded(Values(c)) && Small(k)
    ensures forall x :: x in DoIncr(c, cfg, k, delta, now).evicted ==> Small(x)
  {
    var d := DropIfExpired(c, k, now);
    DropIfExpiredWF(c, k, now);
    FewerBounded(c, d);
    var out := DoIncr(c, cfg, k, delta, now);
    if out.reply.Number? {
      var kept := if k in d.entries then d.entries[k].deadline else None;
      VictimsSmall(d, cfg, k, IntText(out.reply.n), kept, now);
    }
  }

  /** A command off the wire evicts keys that came off the wire. */
  lemma EvictedSmall(c: Cache, cfg: Config, cmd: Command, now: int)
    requires WF(c) && Bounded(Values(c)) && BoundedCommand(cmd)
    ensures forall x :: x in Exec(c, cfg, cmd, now).evicted ==> Small(x)
  {
    match cmd {
      case CSet(o) => SetVictimsSmall(c, cfg, o, now);
      case CMset(pairs) => MsetVictimsSmall(c, cfg, pairs, now);
      case CIncrBy(k, delta) => IncrVictimsSmall(c, cfg, k, delta, now);
      case _ =>
    }
  }

  lemma SendableTogether(a: seq<Record>, b: seq<Record>)
    requires AllSendable(a) && AllSendable(b)
    ensures AllSendable(a + b)
  {
  }

  lemma DelSendable(k: Key)
    requires Small(k)
    ensures Sendable(DelRecord(k))
  {
    UpperFixed("DEL");
    assert "DEL"[0] == 'D' && "PING"[0] == 'P';
  }

  lemma SetSendable(k: Key, v: Bytes)
    requires Small(k) && Small(v)
    ensures Sendable(SetRecord(k, v))
  {
    UpperFixed("SET");
    assert "SET"[0] == 'S' && "PING"[0] == 'P';
  }

  lemma FlushSendable()
    ensures AllSendable([["FLUSHDB"]])
  {
    UpperFixed("FLUSHDB");
    assert "FLUSHDB"[0] == 'F' && "PING"[0] == 'P';
  }

  lemma {:induction false} DelsSendable(keys: seq<Key>)
    requires forall k :: k in keys ==> Small(k)
    ensures AllSendable(DelRecords(keys))
  {
    if keys != [] {
      DelsSendable(keys[..|keys| - 1]);
      DelSendable(keys[|keys| - 1]);
    }
  }

  lemma MainSendable(raw: Record)
    requires Loggable(raw) && TtlFreeRecord(raw) && Parse(raw).Ok? && IsWrite(Parse(raw).cmd)
    ensures Sendable(ToReplication(raw))
  {
    WritesByName(raw);
    WriteNamesAreFollowed(raw);
    ParseBounded(raw);
    if Parse(raw).cmd.CSet? {
      SetSendable(Parse(raw).cmd.opts.key, Parse(raw).cmd.opts.value);
    }
  }

  lemma MessagesSendable(c: Cache, cfg: Config, raw: Record, now: int)
    requires WF(c) && Bounded(Values(c)) && Loggable(raw) && TtlFreeRecord(raw)
    ensures AllSendable(Messages(raw, Dispatch(c, cfg, raw, now)))
  {
    var eff := Dispatch(c, cfg, raw, now);
    if Commits(raw, eff.reply) {
      ParseBounded(raw);
      EvictedSmall(c, cfg, Parse(raw).cmd, now);
      DelsSendable(eff.evicted);
      MainSendable(raw);
      SendableTogether(if TookEffect(raw, eff) then [ToReplication(raw)] else [], DelRecords(eff.evicted));
    }
  }

  ghost predicate FromClients(run: seq<Request>) {
    forall i :: 0 <= i < |run| ==> Loggable(run[i].raw) && TtlFreeRecord(run[i].raw)
  }

  lemma {:induction false} StreamSendable(p: Cache, cfg: Config, run: seq<Request>)
    requires WF(p) && Bounded(Values(p)) && FromClients(run)
    ensures AllSendable(Stream(p, cfg, run))
    ensures WF(PrimaryAfter(p, cfg, run)) && Bounded(Values(PrimaryAfter(p, cfg, run)))
  {
    if run != [] {
      var before, last := run[..|run| - 1], run[|run| - 1];
      StreamSendable(p, cfg, before);
      var c := PrimaryAfter(p, cfg, before);
      MessagesSendable(c, cfg, last.raw, last.now);
      SendableTogether(Stream(p, cfg, before), Messages(last.raw, Dispatch(c, cfg, last.raw, last.now)));
      DispatchWF(c, cfg, last.raw, last.now);
      StoreStaysBounded(c, cfg, last.raw, last.now);
    }
  }

  /** A snapshot without deadlines: one SET for each key, in order. */
  lemma {:induction false} SnapshotOfPrefix(o: seq<Key>, m: map<Key, Entry>, now: int, n: nat)
    requires (forall k :: k in o ==> k in m && m[k].deadline.None? && Small(k) && Small(m[k].value)) && n <= |o|
    ensures |SnapshotRecords(o, m, now)| == |o| && AllSendable(SnapshotRecords(o, m, now))
    ensures SnapshotRecords(o, m, now)[..n] == SnapshotRecords(o[..n], m, now)
  {
    if o != [] {
      var before, k := o[..|o| - 1], o[|o| - 1];
      SnapshotOfPrefix(before, m, now, if n < |o| then n else |before|);
      SetSendable(k, m[k].value);
      if n < |o| {
        assert before[..n] == o[..n];
      } else {
        assert o[..n] == o;
      }
    } else {
      assert o[..n] == o;
    }
  }

  /* ----- what the replica holds after part of a stream ----- */

  lemma SnapshotFacts(p: Cache, now: int, n: nat)
    requires WF(p) && TtlFree(p) && Bounded(Values(p)) && n <= |p.order|
    ensures var all := SnapshotRecords(p.order, p.entries, now);
            |all| == |p.order| && AllSendable(all) && all[..n] == RewriteRecords(p.order[..n], p.entries)
  {
    forall x | x in p.order ensures p.entries[x].deadline.None? && Small(x) && Small(p.entries[x].value) {
      assert x in Values(p) && x in p.entries;
    }
    SnapshotOfPrefix(p.order, p.entries, now, n);
    SnapshotIsRewrite(p.order[..n], p.entries, now);
  }

  lemma RestoredAfterFlush(p: Cache, r: Cache, recs: seq<Record>, n: nat, at: int)
    requires WF(p) && n <= |p.order| && recs == RewriteRecords(p.order[..n], p.entries)
    ensures Replay(r, REPLICA, [["FLUSHDB"]] + recs, at) == Oldest(p, n)
  {
    ReplayAppend(r, REPLICA, [["FLUSHDB"]], recs, at);
    ReplayFlush(r, at);
    ReplayPrefix(p, REPLICA, n, recs, at);
  }

  /** Part of a resync: the oldest keys of the primary, as many as came, and nothing of what was held before. */
  lemma PartOfResync(p: Cache, r: Cache, now: int, at: int, n: nat)
    requires WF(p) && TtlFree(p) && Bounded(Values(p)) && n <= |p.order|
    ensures |Resync(p, now)| == 1 + |p.order| && Replay(r, REPLICA, Resync(p, now)[..1 + n], at) == Oldest(p, n)
  {
    var snapshot := SnapshotRecords(p.order, p.entries, now);
    SnapshotFacts(p, now, n);
    CutOf([["FLUSHDB"]], snapshot, 1 + n);
    RestoredAfterFlush(p, r, snapshot[..n], n, at);
  }

  /** What request `n` of the run does on the primary. */
  function EffectAt(p: Cache, cfg: Config, run: seq<Request>, n: nat): Effect
    requires n < |run|
  {
    Dispatch(PrimaryAfter(p, cfg, run[..n]), cfg, run[n].raw, run[n].now)
  }

  lemma StreamNext(p: Cache, cfg: Config, run: seq<Request>, n: nat)
    requires n < |run|
    ensures Stream(p, cfg, run[..n + 1]) == Stream(p, cfg, run[..n]) + Messages(run[n].raw, EffectAt(p, cfg, run, n))
  {
    assert run[..n + 1][..n] == run[..n];
  }

  /** The first `i` messages of a run: those of its first `n` requests, and `j` of the next one. */
  ghost predicate SplitAt(p: Cache, cfg: Config, run: seq<Request>, i: nat, n: nat, j: nat) {
    && n <= |run| && i <= |Stream(p, cfg, run)|
    && (j > 0 ==> n < |run| && j <= |Messages(run[n].raw, EffectAt(p, cfg, run, n))|)
    && Stream(p, cfg, run)[..i] ==
         Stream(p, cfg, run[..n]) + (if j == 0 then [] else Messages(run[n].raw, EffectAt(p, cfg, run, n))[..j])
  }

  lemma CutEarlier<T>(a: seq<T>, b: seq<T>, i: nat)
    requires i <= |a|
    ensures (a + b)[..i] == a[..i]
  {
  }

  lemma StreamLast(p: Cache, cfg: Config, run: seq<Request>)
    requires run != []
    ensures Stream(p, cfg, run) ==
            Stream(p, cfg, run[..|run| - 1]) + Messages(run[|run| - 1].raw, EffectAt(p, cfg, run, |run| - 1))
  {
  }

  lemma SplitInLast(p: Cache, cfg: Config, run: seq<Request>, i: nat)
    requires run != [] && |Stream(p, cfg, run[..|run| - 1])| < i <= |Stream(p, cfg, run)|
    ensures SplitAt(p, cfg, run, i, |run| - 1, i - |Stream(p, cfg, run[..|run| - 1])|)
  {
    StreamLast(p, cfg, run);
    CutOf(Stream(p, cfg, run[..|run| - 1]), Messages(run[|run| - 1].raw, EffectAt(p, cfg, run, |run| - 1)), i);
  }

  lemma SplitEarlier(p: Cache, cfg: Config, run: seq<Request>, i: nat, n: nat, j: nat)
    requires run != [] && SplitAt(p, cfg, run[..|run| - 1], i, n, j)
    ensures SplitAt(p, cfg, run, i, n, j)
  {
    StreamLast(p, cfg, run);
    CutEarlier(Stream(p, cfg, run[..|run| - 1]), Messages(run[|run| - 1].raw, EffectAt(p, cfg, run, |run| - 1)), i);
    assert run[..|run| - 1][..n] == run[..n];
  }

  lemma {:induction false} SplitStream(p: Cache, cfg: Config, run: seq<Request>, i: nat) returns (n: nat, j: nat)
    requires i <= |Stream(p, cfg, run)|
    ensures SplitAt(p, cfg, run, i, n, j)
  {
    if run == [] {
      n, j := 0, 0;
    } else if i <= |Stream(p, cfg, run[..|run| - 1])| {
      n, j := SplitStream(p, cfg, run[..|run| - 1], i);
      SplitEarlier(p, cfg, run, i, n, j);
    } else {
      n, j := |run| - 1, i - |Stream(p, cfg, run[..|run| - 1])|;
      SplitInLast(p, cfg, run, i);
    }
  }

  /**
   * Contents of the replica when it has run the messages of the first `n` requests and `j` of the next:
   * those of the primary, or, in the midst of a request, those after the plain command with only the first
   * of the evicted keys gone.
   */
  ghost predicate HoldsAt(p: Cache, cfg: Config, run: seq<Request>, m: Contents, n: nat, j: nat) {
    && n <= |run|
    && (j > 0 ==> n < |run| && j <= 1 + |EffectAt(p, cfg, run, n).evicted|)
    && var before := Values(PrimaryAfter(p, cfg, run[..n]));
       m == if j == 0 then before
            else PlainDispatch(before, run[n].raw) - KeySet(EffectAt(p, cfg, run, n).evicted[..j - 1])
  }

  lemma {:induction false} DelRecordsPrefix(keys: seq<Key>, n: nat)
    requires n <= |keys|
    ensures DelRecords(keys)[..n] == DelRecords(keys[..n])
  {
    if n < |keys| {
      DelRecordsPrefix(keys[..|keys| - 1], n);
      assert keys[..|keys| - 1][..n] == keys[..n];
    } else {
      assert keys[..n] == keys;
    }
  }

  /** The first messages of one request, run by a replica that agreed with the primary before it. */
  lemma PartOfRequest(c: Cache, q: Cache, cfg: Config, raw: Record, now: int, at: int, j: nat)
    requires WF(c) && InSync(c, q) && TtlFreeRecord(raw)
    requires 0 < j <= |Messages(raw, Dispatch(c, cfg, raw, now))|
    ensures var eff := Dispatch(c, cfg, raw, now);
            j <= 1 + |eff.evicted| &&
            Values(Replay(q, REPLICA, Messages(raw, eff)[..j], at)) ==
            PlainDispatch(Values(c), raw) - KeySet(eff.evicted[..j - 1])
  {
    var eff := Dispatch(c, cfg, raw, now);
    EvictionsComeWithEffects(c, cfg, raw, now);
    assert TookEffect(raw, eff);
    if Parse(raw).cmd.CSet? {
      SetTookEffect(c, cfg, Parse(raw).cmd.opts, now);
    }
    ApplyMain(q, raw, eff, at);
    DelRecordsPrefix(eff.evicted, j - 1);
    assert Messages(raw, eff)[..j] == [ToReplication(raw)] + DelRecords(eff.evicted[..j - 1]);
    ReplayAppend(q, REPLICA, [ToReplication(raw)], DelRecords(eff.evicted[..j - 1]), at);
    ApplyDels(Replay(q, REPLICA, [ToReplication(raw)], at), eff.evicted[..j - 1], at);
  }

  /** Part of a live stream, after the whole resync. */
  lemma PartOfStream(p: Cache, cfg: Config, r: Cache, run: seq<Request>, now: int, at: int, i: nat, n: nat, j: nat)
    requires WF(p) && TtlFree(p) && FromClients(run) && SplitAt(p, cfg, run, i, n, j)
    requires forall m: nat :: m < |run| ==> !BringsBackAt(p, cfg, run, m)
    ensures HoldsAt(p, cfg, run, Values(Replay(r, REPLICA, Resync(p, now) + Stream(p, cfg, run)[..i], at)), n, j)
  {
    assert AllTtlFreeRequests(run);
    SyncUpTo(p, cfg, r, run, now, at, n);
    var start := Resync(p, now) + Stream(p, cfg, run[..n]);
    var c, q := PrimaryAfter(p, cfg, run[..n]), Replay(r, REPLICA, start, at);
    if j == 0 {
      assert Resync(p, now) + Stream(p, cfg, run)[..i] == start;
    } else {
      var part := Messages(run[n].raw, EffectAt(p, cfg, run, n))[..j];
      Regroup(Resync(p, now), Stream(p, cfg, run[..n]), part);
      ReplayAppend(r, REPLICA, start, part, at);
      PrimaryWF(p, cfg, run[..n]);
      PartOfRequest(c, q, cfg, run[n].raw, run[n].now, at, j);
    }
  }

  /* ----- through the link ----- */

  /** The replica holds what it held before, part of a snapshot of the primary, or a moment of the stream. */
  ghost predicate Plausible(p: Cache, cfg: Config, r: Cache, run: seq<Request>, t: Cache) {
    || t == r
    || (exists k: nat :: k <= |p.order| && t == Oldest(p, k))
    || (exists n: nat, j: nat :: HoldsAt(p, cfg, run, Values(t), n, j))
  }

  lemma StreamIsPlausible(p: Cache, cfg: Config, r: Cache, run: seq<Request>, now: int, at: int, i: nat)
    requires WF(p) && TtlFree(p) && FromClients(run) && i <= |Stream(p, cfg, run)|
    requires forall m: nat :: m < |run| ==> !BringsBackAt(p, cfg, run, m)
    ensures Plausible(p, cfg, r, run, Replay(r, REPLICA, Resync(p, now) + Stream(p, cfg, run)[..i], at))
  {
    var n, j := SplitStream(p, cfg, run, i);
    PartOfStream(p, cfg, r, run, now, at, i, n, j);
  }

  lemma ResyncIsPlausible(p: Cache, cfg: Config, r: Cache, run: seq<Request>, now: int, at: int, k: nat)
    requires WF(p) && TtlFree(p) && Bounded(Values(p)) && k <= |Resync(p, now)|
    ensures Plausible(p, cfg, r, run, Replay(r, REPLICA, Resync(p, now)[..k], at))
  {
    SnapshotFacts(p, now, 0);
    if k > 0 {
      PartOfResync(p, r, now, at, k - 1);
    }
  }

  lemma AnyPrefix(p: Cache, cfg: Config, r: Cache, run: seq<Request>, now: int, at: int, k: nat)
    requires WF(p) && TtlFree(p) && Bounded(Values(p)) && FromClients(run)
    requires forall m: nat :: m < |run| ==> !BringsBackAt(p, cfg, run, m)
    requires k <= |Resync(p, now) + Stream(p, cfg, run)|
    ensures Plausible(p, cfg, r, run, Replay(r, REPLICA, (Resync(p, now) + Stream(p, cfg, run))[..k], at))
  {
    if k <= |Resync(p, now)| {
      CutEarlier(Resync(p, now), Stream(p, cfg, run), k);
      ResyncIsPlausible(p, cfg, r, run, now, at, k);
    } else {
      CutOf(Resync(p, now), Stream(p, cfg, run), k);
      StreamIsPlausible(p, cfg, r, run, now, at, k - |Resync(p, now)|);
    }
  }

  lemma AllSendableFromPrimary(p: Cache, cfg: Config, run: seq<Request>, now: int)
    requires WF(p) && TtlFree(p) && Bounded(Values(p)) && FromClients(run)
    ensures AllSendable(Resync(p, now) + Stream(p, cfg, run))
  {
    SnapshotFacts(p, now, 0);
    FlushSendable();
    StreamSendable(p, cfg, run);
    SendableTogether([["FLUSHDB"]], SnapshotRecords(p.order, p.entries, now));
    SendableTogether(Resync(p, now), Stream(p, cfg, run));
  }

  /**
   * In every interleaving of sends, pumping and closing of the link, with heartbeats anywhere in the stream
   * and any prefix of the written bytes arrived - even one that ends inside a message - the replica holds
   * what it held before, the oldest part of the primary's snapshot, or the contents at some point of the
   * run: those of the primary between two requests, or the plain effect of one request before all of its
   * evictions have come.
   */
  lemma ReplicaIsPlausible(limit: nat, events: seq<L.Event>, recs: seq<Record>, p: Cache, cfg: Config, r: Cache,
                           run: seq<Request>, now: int, at: int, cut: nat)
    requires WF(p) && TtlFree(p) && Bounded(Values(p)) && FromClients(run)
    requires forall m: nat :: m < |run| ==> !BringsBackAt(p, cfg, run, m)
    requires Unbeaten(recs) == Resync(p, now) + Stream(p, cfg, run) && L.Offered(events) == Encoded(recs)
    requires cut <= |Join(L.After(limit, events).written)|
    ensures Plausible(p, cfg, r, run, Received(r, Join(L.After(limit, events).written)[..cut], at))
  {
    L.NeverSkips(limit, events);
    var bytes := Join(L.After(limit, events).written);
    assert bytes[..cut] == EncodeLog(recs)[..cut];
    AllSendableFromPrimary(p, cfg, run, now);
    var k := PrefixReceived(recs, cut);
    AnyPrefix(p, cfg, r, run, now, at, k);
  }

  /** Once an open link has written everything, a replica that got it all holds what the primary holds. */
  lemma CaughtUp(limit: nat, events: seq<L.Event>, recs: seq<Record>, p: Cache, cfg: Config, r: Cache,
                 run: seq<Request>, now: int, at: int)
    requires WF(p) && TtlFree(p) && Bounded(Values(p)) && FromClients(run)
    requires forall m: nat :: m < |run| ==> !BringsBackAt(p, cfg, run, m)
    requires Unbeaten(recs) == Resync(p, now) + Stream(p, cfg, run) && L.Offered(events) == Encoded(recs)
    requires var link := L.After(limit, events); !link.closed && link.queue == []
    ensures InSync(PrimaryAfter(p, cfg, run), Received(r, Join(L.After(limit, events).written), at))
  {
    L.NeverSkips(limit, events);
    var link := L.After(limit, events);
    assert link.written + [] == link.written;
    AllSendableFromPrimary(p, cfg, run, now);
    AllReceived(recs);
    assert AllTtlFreeRequests(run);
    ReplicaAgrees(p, cfg, r, run, now, at);
  }

  lemma {:induction false} NothingOffered(events: seq<L.Event>, more: seq<L.Event>)
    requires forall i :: 0 <= i < |more| ==> !more[i].Send?
    ensures L.Offered(events + more) == L.Offered(events)
  {
    if more == [] {
      assert events + more == events;
    } else {
      var n := |more| - 1;
      assert (events + more)[..|events + more| - 1] == events + more[..n];
      NothingOffered(events, more[..n]);
    }
  }

  /**
   * A replica catches up: if no close comes, and each live message fits in the limit when it is sent, then
   * after as many rounds of the pump as there are messages left the replica holds what the primary holds.
   */
  lemma CatchesUp(limit: nat, events: seq<L.Event>, more: seq<L.Event>, recs: seq<Record>, p: Cache, cfg: Config,
                  r: Cache, run: seq<Request>, now: int, at: int)
    requires WF(p) && TtlFree(p) && Bounded(Values(p)) && FromClients(run)
    requires forall m: nat :: m < |run| ==> !BringsBackAt(p, cfg, run, m)
    requires Unbeaten(recs) == Resync(p, now) + Stream(p, cfg, run) && L.Offered(events) == Encoded(recs)
    requires L.NeverClosed(limit, events + more) && forall i :: 0 <= i < |more| ==> !more[i].Send?
    requires |L.Offered(events)| - L.ProgressAfter(events).taken <= L.Rounds(more, false)
    ensures InSync(PrimaryAfter(p, cfg, run), Received(r, Join(L.After(limit, events + more).written), at))
  {
    L.PumpsDeliver(limit, events, more);
    NothingOffered(events, more);
    L.NeverSkips(limit, events + more);
    var link := L.After(limit, events + more);
    assert link.written + link.queue == L.Offered(events) && L.Offered(events) <= link.written;
    assert link.queue == [];
    CaughtUp(limit, events + more, recs, p, cfg, r, run, now, at);
  }
}

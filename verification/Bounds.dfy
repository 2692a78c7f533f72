/** Keys and values that entered through the wire stay small enough to be written to the log again. */
module Bounds {
  import opened Base
  import opened Decimal
  import opened CacheModel
  import opened LruLaws
  import opened Commands
  import opened TimedReplay
  import opened PlainMap
  import opened LogScan
  import opened Rewrite
  import Resp

  predicate Small(b: Bytes) {
    |b| <= Resp.MAX_BULK_LENGTH
  }

  ghost predicate Bounded(m: Contents) {
    forall k :: k in m ==> Small(k) && Small(m[k])
  }

  predicate BoundedCommand(cmd: Command) {
    match cmd
    case CSet(o) => Small(o.key) && Small(o.value)
    case CMset(pairs) => forall i :: 0 <= i < |pairs| ==> Small(pairs[i].0) && Small(pairs[i].1)
    case CIncrBy(k, _) => Small(k)
    case _ => true
  }

  lemma {:induction false} PairsBounded(args: seq<Bytes>)
    requires |args| % 2 == 0 && forall i :: 0 <= i < |args| ==> Small(args[i])
    ensures forall i :: 0 <= i < |Pairs(args)| ==> Small(Pairs(args)[i].0) && Small(Pairs(args)[i].1)
    decreases |args|
  {
    if args != [] {
      PairsBounded(args[2..]);
    }
  }

  lemma ParseBounded(raw: Record)
    requires Resp.WithinLimits(raw) && Parse(raw).Ok?
    ensures BoundedCommand(Parse(raw).cmd)
  {
    var args := raw[1..];
    assert forall i :: 0 <= i < |args| ==> Small(args[i]);
    var name := Upper(raw[0]);
    if name == "SET" {
      ParsedOptionsValid(args[2..], Plain(args[0], args[1]));
    } else if name == "MSET" {
      PairsBounded(args);
    }
  }

  lemma Int64TextSmall(n: int)
    requires Int64(n)
    ensures Small(IntText(n))
  {
    assert Pow10(5) == 100000;
    assert Pow10(10) == 100000 * 100000;
    assert Pow10(15) == 100000 * 100000 * 100000;
    assert Pow10(20) == 100000 * 100000 * 100000 * 100000;
    SmallIntText(n);
  }

  /** Deadlines whose text fits a bulk string. */
  ghost predicate SmallDeadlines(c: Cache) {
    forall k :: k in c.entries && c.entries[k].deadline.Some? ==> Small(IntText(c.entries[k].deadline.value))
  }

  /** Whatever the log could carry as a request without a deadline, it can carry as a record. */
  lemma TtlFreeFormLoggable(raw: Record, now: int)
    requires Loggable(raw) && TtlFreeRecord(raw)
    ensures AllLoggable(ToAof(raw, now))
  {
    if Parse(raw).Ok? {
      ParseBounded(raw);
    }
  }

  /** A command with a deadline, too, if the clock fits 64 bits. */
  lemma FormLoggable(raw: Record, now: int)
    requires Loggable(raw) && Int64(now)
    ensures AllLoggable(ToAof(raw, now))
  {
    if Parse(raw).Ok? {
      if Parse(raw).cmd.CSet? {
        SetFormLoggable(raw, now);
      } else if Parse(raw).cmd.CExpire? {
        ExpireArguments(raw);
        DeadlineTextSmall(now, Parse(raw).cmd.ms);
      }
    }
  }

  lemma SetFormLoggable(raw: Record, now: int)
    requires Loggable(raw) && Int64(now) && Parse(raw).Ok? && Parse(raw).cmd.CSet?
    ensures AllLoggable(ToAof(raw, now))
  {
    var o := Parse(raw).cmd.opts;
    ParseBounded(raw);
    SetTtlRange(raw);
    if o.ttl.Some? {
      DeadlineTextSmall(now, o.ttl.value);
    }
  }

  lemma SetTtlRange(raw: Record)
    requires Parse(raw).Ok? && Parse(raw).cmd.CSet?
    ensures var ttl := Parse(raw).cmd.opts.ttl; ttl.Some? ==> 0 < ttl.value <= 1000 * INT64_MAX
  {
    ParsedSetReprints(raw[1..]);
  }

  lemma ExpireArguments(raw: Record)
    requires Parse(raw).Ok? && Parse(raw).cmd.CExpire?
    ensures 1000 * INT64_MIN <= Parse(raw).cmd.ms <= 1000 * INT64_MAX && Parse(raw).cmd.key in raw
  {
  }

  lemma DeadlineTextSmall(now: int, ms: int)
    requires Int64(now) && 1000 * INT64_MIN <= ms <= 1000 * INT64_MAX
    ensures Small(IntText(now + ms))
  {
    assert Pow10(5) == 100000;
    assert Pow10(10) == 100000 * 100000;
    assert Pow10(15) == 100000 * 100000 * 100000;
    assert Pow10(20) == 100000 * 100000 * 100000 * 100000;
    assert Pow10(25) == 100000 * 100000 * 100000 * 100000 * 100000;
    var n := now + ms;
    DigitsLength(if n < 0 then -n else n, 25);
  }

  /** The records of a rewrite of bounded contents, deadlines included, can be carried by the log. */
  lemma {:induction false} RewriteLoggable(o: seq<Key>, m: map<Key, Entry>)
    requires forall k :: k in o ==> k in m && Small(k) && Small(m[k].value)
    requires forall k :: k in o && m[k].deadline.Some? ==> Small(IntText(m[k].deadline.value))
    ensures AllLoggable(RewriteRecords(o, m))
  {
    if o != [] {
      var k := o[|o| - 1];
      RewriteLoggable(o[..|o| - 1], m);
      KeyRecordsLoggable(k, m[k]);
      LoggableTogether(RewriteRecords(o[..|o| - 1], m), KeyRecords(k, m[k]));
    }
  }

  lemma KeyRecordsLoggable(k: Key, e: Entry)
    requires Small(k) && Small(e.value) && (e.deadline.Some? ==> Small(IntText(e.deadline.value)))
    ensures AllLoggable(KeyRecords(k, e))
  {
  }

  lemma RewriteOfBounded(c: Cache)
    requires WF(c) && Bounded(Values(c)) && SmallDeadlines(c)
    ensures (forall k :: k in c.order ==> k in c.entries) && AllLoggable(RewriteRecords(c.order, c.entries))
  {
    forall k | k in c.order ensures k in c.entries && Small(k) && Small(c.entries[k].value) {
      assert k in Values(c) && Values(c)[k] == c.entries[k].value;
    }
    RewriteLoggable(c.order, c.entries);
  }

  lemma {:induction false} RewriteTtlFree(o: seq<Key>, m: map<Key, Entry>)
    requires forall k :: k in o ==> k in m && m[k].deadline.None?
    ensures forall i :: 0 <= i < |RewriteRecords(o, m)| ==> TtlFreeRecord(RewriteRecords(o, m)[i])
  {
    if o != [] {
      RewriteTtlFree(o[..|o| - 1], m);
      ParseSetRecord(o[|o| - 1], m[o[|o| - 1]].value);
    }
  }

  /* ----- the store itself, with deadlines and a cap ----- */

  lemma FewerBounded(c: Cache, d: Cache)
    requires Bounded(Values(c))
    requires forall k :: k in d.entries ==> k in c.entries && d.entries[k].value == c.entries[k].value
    ensures Bounded(Values(d))
  {
    forall k | k in Values(d) ensures Small(k) && Small(Values(d)[k]) {
      assert k in Values(c) && Values(c)[k] == Values(d)[k];
    }
  }

  lemma WriteBounded(c: Cache, cfg: Config, k: Key, v: Bytes, deadline: Option<int>, now: int)
    requires WF(c) && Bounded(Values(c)) && Small(k) && Small(v)
    ensures Bounded(Values(Evict(Put(c, k, NewEntry(k, v, deadline)), cfg, now).cache))
  {
    var p := Put(c, k, NewEntry(k, v, deadline));
    PutWF(c, k, NewEntry(k, v, deadline));
    forall x | x in Values(p) ensures Small(x) && Small(Values(p)[x]) {
      assert x == k || (x in Values(c) && Values(c)[x] == Values(p)[x]);
    }
    EvictKeepsEntries(p, cfg, now);
    FewerBounded(p, Evict(p, cfg, now).cache);
  }

  lemma SetBounded(c: Cache, cfg: Config, o: SetOptions, now: int)
    requires WF(c) && Bounded(Values(c)) && Small(o.key) && Small(o.value)
    ensures Bounded(Values(ExecSet(c, cfg, o, now).cache))
  {
    var first := DoGet(c, o.key, now).cache;
    var again := DoGet(first, o.key, now).cache;
    GetWF(c, o.key, now);
    GetWF(first, o.key, now);
    FewerBounded(c, first);
    FewerBounded(first, again);
    WriteBounded(if o.get then again else first, cfg, o.key, o.value, Deadline(o.ttl, now), now);
  }

  lemma {:induction false} ExecMsetBounded(c: Cache, cfg: Config, pairs: seq<(Key, Bytes)>, now: int)
    requires WF(c) && Bounded(Values(c)) && forall i :: 0 <= i < |pairs| ==> Small(pairs[i].0) && Small(pairs[i].1)
    ensures Bounded(Values(ExecMset(c, cfg, pairs, now).cache))
    decreases |pairs|
  {
    if pairs != [] {
      WriteBounded(c, cfg, pairs[0].0, pairs[0].1, None, now);
      WriteWF(c, cfg, pairs[0].0, pairs[0].1, None, now);
      ExecMsetBounded(DoSet(c, cfg, pairs[0].0, pairs[0].1, None, now).cache, cfg, pairs[1..], now);
    }
  }

  lemma IncrBounded(c: Cache, cfg: Config, k: Key, delta: int, now: int)
    requires WF(c) && Bounded(Values(c)) && Small(k)
    ensures Bounded(Values(DoIncr(c, cfg, k, delta, now).cache))
  {
    var d := DropIfExpired(c, k, now);
    DropIfExpiredWF(c, k, now);
    FewerBounded(c, d);
    var out := DoIncr(c, cfg, k, delta, now);
    if out.reply.Number? {
      var kept := if k in d.entries then d.entries[k].deadline else None;
      assert out.cache == Evict(Put(d, k, NewEntry(k, IntText(out.reply.n), kept)), cfg, now).cache;
      Int64TextSmall(out.reply.n);
      WriteBounded(d, cfg, k, IntText(out.reply.n), kept, now);
    } else {
      assert out.cache == d;
    }
  }

  lemma {:induction false} DelBounded(c: Cache, keys: seq<Key>, now: int)
    requires Bounded(Values(c))
    ensures Bounded(Values(ExecDel(c, keys, now).0))
    decreases |keys|
  {
    if keys != [] {
      FewerBounded(c, DoDelete(c, keys[0], now).cache);
      DelBounded(DoDelete(c, keys[0], now).cache, keys[1..], now);
    }
  }

  lemma {:induction false} MgetBounded(c: Cache, keys: seq<Key>, now: int)
    requires Bounded(Values(c))
    ensures Bounded(Values(ExecMget(c, keys, now).0))
    decreases |keys|
  {
    if keys != [] {
      FewerBounded(c, DoGet(c, keys[0], now).cache);
      MgetBounded(DoGet(c, keys[0], now).cache, keys[1..], now);
    }
  }

  lemma ExecBounded(c: Cache, cfg: Config, cmd: Command, now: int)
    requires WF(c) && Bounded(Values(c)) && BoundedCommand(cmd)
    ensures Bounded(Values(Exec(c, cfg, cmd, now).cache))
  {
    match cmd {
      case CSet(o) => SetBounded(c, cfg, o, now);
      case CMset(pairs) => ExecMsetBounded(c, cfg, pairs, now);
      case CDel(keys) => DelBounded(c, keys, now);
      case CIncrBy(k, delta) => IncrBounded(c, cfg, k, delta, now);
      case CMget(keys) => MgetBounded(c, keys, now);
      case CExists(keys) => MgetBounded(c, keys, now);
      case CFlush => FewerBounded(c, EMPTY);
      case _ => QuietBounded(c, cfg, cmd, now);
    }
  }

  lemma QuietBounded(c: Cache, cfg: Config, cmd: Command, now: int)
    requires Bounded(Values(c))
    requires cmd.CExpire? || cmd.CExpireAt? || cmd.CPersist? || cmd.CGet? || cmd.CTtl? || cmd.CKeys? ||
             cmd.CDbsize? || cmd.CPing?
    ensures Bounded(Values(Exec(c, cfg, cmd, now).cache))
  {
    FewerBounded(c, Exec(c, cfg, cmd, now).cache);
  }

  /** Whatever comes over the wire, a store whose contents are bounded stays so, deadlines and cap included. */
  lemma StoreStaysBounded(c: Cache, cfg: Config, raw: Record, now: int)
    requires WF(c) && Bounded(Values(c)) && Resp.WithinLimits(raw)
    ensures Bounded(Values(Dispatch(c, cfg, raw, now).cache))
  {
    if Parse(raw).Ok? {
      ParseBounded(raw);
      ExecBounded(c, cfg, Parse(raw).cmd, now);
    }
  }

  lemma {:induction false} ReplayBounded(c: Cache, cfg: Config, recs: seq<Record>, at: int)
    requires WF(c) && Bounded(Values(c)) && forall i :: 0 <= i < |recs| ==> Resp.WithinLimits(recs[i])
    ensures Bounded(Values(Replay(c, cfg, recs, at)))
  {
    if recs != [] {
      var before := recs[..|recs| - 1];
      ReplayBounded(c, cfg, before, at);
      ReplayWF(c, cfg, before, at);
      StoreStaysBounded(Replay(c, cfg, before, at), cfg, recs[|recs| - 1], at);
    }
  }

  lemma PruneBounded(c: Cache, now: int)
    requires Bounded(Values(c))
    ensures Bounded(Values(Prune(c, now)))
  {
    FewerBounded(c, Prune(c, now));
  }
}

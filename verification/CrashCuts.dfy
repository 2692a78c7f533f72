/**
 * Which crashes are atomic for commands. A log is cut at a byte, but a command may have appended several
 * records - the two of a SET with a time to live, and a DEL for each key it evicted: a cut between them
 * recovers part of a command.
 */
module CrashCuts {
  import opened Base
  import opened CacheModel
  import opened Commands
  import opened TimedReplay
  import opened LogScan
  import opened Replication

  /** A SET with a time to live: the only command whose normal form is two records. */
  predicate IsTimedSet(raw: Record) {
    Parse(raw).Ok? && Parse(raw).cmd.CSet? && Parse(raw).cmd.opts.ttl.Some?
  }

  lemma AofFormLength(raw: Record, now: int)
    ensures |ToAof(raw, now)| == if IsTimedSet(raw) then 2 else 1
  {
  }

  /** Exactly `n` records are whole before the cut. */
  lemma WholeRecordsExactly(rs: seq<Record>, n: nat, cut: nat)
    requires n <= |rs|
    ensures WholeRecords(rs, cut) == n <==>
            |EncodeLog(rs[..n])| <= cut && (n < |rs| ==> cut < |EncodeLog(rs[..n + 1])|)
  {
    WholeRecordsIsLargest(rs, cut);
    var w := WholeRecords(rs, cut);
    if |EncodeLog(rs[..n])| <= cut {
      WholeRecordsAtLeast(rs, n, cut);
      if n < w {
        assert rs[..w][..n + 1] == rs[..n + 1];
        EncodeLogPrefix(rs[..w], n + 1);
      }
    }
  }

  /** What a restart reads of the first `cut` bytes of a log. */
  function Surviving(rs: seq<Record>, cut: nat): seq<Record>
    requires cut <= |EncodeLog(rs)|
  {
    Scan(EncodeLog(rs)[..cut]).commands
  }

  /** Every cut recovers all of the records or none of them. */
  ghost predicate AllOrNothing(rs: seq<Record>) {
    forall cut: nat :: cut <= |EncodeLog(rs)| ==> Surviving(rs, cut) == [] || Surviving(rs, cut) == rs
  }

  lemma OneRecordIsAtomic(r: Record)
    requires Loggable(r)
    ensures AllOrNothing([r])
  {
    forall cut: nat | cut <= |EncodeLog([r])| ensures Surviving([r], cut) == [] || Surviving([r], cut) == [r] {
      TornTail([r], cut);
      assert [r][..0] == [] && [r][..1] == [r];
    }
  }

  lemma LogGrows(rs: seq<Record>, n: nat)
    requires n < |rs|
    ensures |EncodeLog(rs[..n])| < |EncodeLog(rs[..n + 1])|
  {
    assert rs[..n + 1] == rs[..n] + [rs[n]];
    EncodeLogAppend(rs[..n], [rs[n]]);
    EncodeLogUnfold([rs[n]]);
  }

  /** A cut right after a record recovers the records up to it. */
  lemma CutAfterRecord(rs: seq<Record>, n: nat)
    requires AllLoggable(rs) && n <= |rs|
    ensures var cut := |EncodeLog(rs[..n])|; cut <= |EncodeLog(rs)| && Surviving(rs, cut) == rs[..n]
  {
    var cut := |EncodeLog(rs[..n])|;
    EncodeLogPrefix(rs, n);
    if n < |rs| {
      LogGrows(rs, n);
    }
    WholeRecordsExactly(rs, n, cut);
    TornTail(rs, cut);
  }

  lemma AtomicIffOneRecord(rs: seq<Record>)
    requires AllLoggable(rs)
    ensures AllOrNothing(rs) <==> |rs| <= 1
  {
    if |rs| > 1 {
      CutAfterRecord(rs, 1);
      assert |rs[..1]| == 1;
    } else if |rs| == 1 {
      assert rs == [rs[0]];
      OneRecordIsAtomic(rs[0]);
    } else {
      assert EncodeLog(rs) == [];
    }
  }

  /* ----- one command, under any cap ----- */

  /** Only successful writes evict. */
  lemma OnlyWritesEvict(c: Cache, cfg: Config, raw: Record, now: int)
    ensures var eff := Dispatch(c, cfg, raw, now); !Commits(raw, eff.reply) ==> eff.evicted == []
  {
    if Parse(raw).Ok? && IsWrite(Parse(raw).cmd) {
      match Parse(raw).cmd {
        case CMset(pairs) => MsetReply(c, cfg, pairs, now);
        case _ =>
      }
    }
  }

  lemma {:induction false} UncappedMset(c: Cache, pairs: seq<(Key, Bytes)>, now: int)
    ensures ExecMset(c, UNLIMITED, pairs, now).evicted == []
    decreases |pairs|
  {
    if pairs != [] {
      UncappedMset(DoSet(c, UNLIMITED, pairs[0].0, pairs[0].1, None, now).cache, pairs[1..], now);
    }
  }

  lemma UncappedAppends(c: Cache, raw: Record, now: int)
    ensures var eff := Dispatch(c, UNLIMITED, raw, now);
            Appended(raw, eff, now) == Logged(c, UNLIMITED, raw, now)
  {
    if Parse(raw).Ok? && Parse(raw).cmd.CMset? {
      UncappedMset(c, Parse(raw).cmd.pairs, now);
    }
  }

  lemma EvictionsComeWithEffects(c: Cache, cfg: Config, raw: Record, now: int)
    ensures var eff := Dispatch(c, cfg, raw, now); eff.evicted != [] ==> TookEffect(raw, eff)
  {
    OnlyWritesEvict(c, cfg, raw, now);
  }

  /** The command took effect, and either it set a time to live by SET or it evicted a key. */
  predicate Halvable(raw: Record, eff: Effect) {
    TookEffect(raw, eff) && (IsTimedSet(raw) || eff.evicted != [])
  }

  lemma AppendedLength(c: Cache, cfg: Config, raw: Record, now: int)
    ensures var eff := Dispatch(c, cfg, raw, now); |Appended(raw, eff, now)| > 1 <==> Halvable(raw, eff)
  {
    EvictionsComeWithEffects(c, cfg, raw, now);
    AofFormLength(raw, now);
  }

  /**
   * Under any cap: a crash is atomic for a command, at every byte of what it appended, if and only if it
   * set no time to live by SET and evicted nothing.
   */
  lemma CommandAtomicIff(c: Cache, cfg: Config, raw: Record, now: int)
    requires AllLoggable(Appended(raw, Dispatch(c, cfg, raw, now), now))
    ensures var eff := Dispatch(c, cfg, raw, now);
            AllOrNothing(Appended(raw, eff, now)) <==> !Halvable(raw, eff)
  {
    AtomicIffOneRecord(Appended(raw, Dispatch(c, cfg, raw, now), now));
    AppendedLength(c, cfg, raw, now);
  }

  /* ----- whole runs, under any cap ----- */

  /** Everything the requests of a run append, in order. */
  function FullLog(cfg: Config, run: seq<Request>): seq<Record> {
    if run == [] then []
    else
      var before, last := run[..|run| - 1], run[|run| - 1];
      FullLog(cfg, before) + Appended(last.raw, Dispatch(RunState(cfg, before), cfg, last.raw, last.now), last.now)
  }

  /** Without a cap this is the log whose replay is studied in TimedReplay. */
  lemma {:induction false} UncappedFullLog(run: seq<Request>)
    ensures FullLog(UNLIMITED, run) == RunLog(UNLIMITED, run)
  {
    if run != [] {
      var before, last := run[..|run| - 1], run[|run| - 1];
      UncappedFullLog(before);
      UncappedAppends(RunState(UNLIMITED, before), last.raw, last.now);
    }
  }

  /** Number of records appended by the first `n` requests of a run. */
  function LogLength(cfg: Config, run: seq<Request>, n: nat): nat
    requires n <= |run|
  {
    |FullLog(cfg, run[..n])|
  }

  /** What request `n` of the run appends. */
  function AppendedAt(cfg: Config, run: seq<Request>, n: nat): seq<Record>
    requires n < |run|
  {
    Appended(run[n].raw, Dispatch(RunState(cfg, run[..n]), cfg, run[n].raw, run[n].now), run[n].now)
  }

  predicate HalvableAt(cfg: Config, run: seq<Request>, n: nat)
    requires n < |run|
  {
    Halvable(run[n].raw, Dispatch(RunState(cfg, run[..n]), cfg, run[n].raw, run[n].now))
  }

  lemma LogNext(cfg: Config, run: seq<Request>, n: nat)
    requires n < |run|
    ensures FullLog(cfg, run[..n + 1]) == FullLog(cfg, run[..n]) + AppendedAt(cfg, run, n)
    ensures |AppendedAt(cfg, run, n)| > 1 <==> HalvableAt(cfg, run, n)
  {
    assert run[..n + 1][..n] == run[..n];
    AppendedLength(RunState(cfg, run[..n]), cfg, run[n].raw, run[n].now);
  }

  lemma {:induction false} PrefixChain(logs: seq<seq<Record>>, n: nat, m: nat)
    requires n <= m < |logs| && forall i :: 0 <= i < |logs| - 1 ==> logs[i] <= logs[i + 1]
    ensures logs[n] <= logs[m]
    decreases m
  {
    if n < m {
      PrefixChain(logs, n, m - 1);
      assert logs[m - 1] <= logs[m - 1 + 1];
    }
  }

  /** The log of a prefix of a run is a prefix of the log of the run. */
  lemma LogOfPrefix(cfg: Config, run: seq<Request>, n: nat, m: nat)
    requires n <= m <= |run|
    ensures FullLog(cfg, run[..n]) <= FullLog(cfg, run[..m])
  {
    var logs := seq(|run| + 1, i requires 0 <= i <= |run| => FullLog(cfg, run[..i]));
    forall i | 0 <= i < |logs| - 1 ensures logs[i] <= logs[i + 1] {
      LogGrowsBy(cfg, run, i, FullLog(cfg, run[..i]));
    }
    PrefixChain(logs, n, m);
  }

  lemma LogGrowsBy(cfg: Config, run: seq<Request>, n: nat, start: seq<Record>)
    requires n < |run| && start <= FullLog(cfg, run[..n])
    ensures start <= FullLog(cfg, run[..n + 1])
  {
    LogNext(cfg, run, n);
  }

  /** The cut falls among the records of request `n`: after its first and before the end of its last. */
  ghost predicate Splits(cfg: Config, run: seq<Request>, n: nat, cut: nat)
    requires n < |run|
  {
    && HalvableAt(cfg, run, n)
    && |EncodeLog(FullLog(cfg, run[..n]) + AppendedAt(cfg, run, n)[..1])| <= cut
    && cut < |EncodeLog(FullLog(cfg, run[..n + 1]))|
  }

  /** The last request whose records all lie within the first `w`. */
  lemma {:induction false} LastWithin(cfg: Config, run: seq<Request>, w: nat, n: nat) returns (m: nat)
    requires n <= |run|
    ensures m <= n && LogLength(cfg, run, m) <= w && (m < n ==> w < LogLength(cfg, run, m + 1))
  {
    if LogLength(cfg, run, n) <= w {
      m := n;
    } else {
      assert FullLog(cfg, run[..0]) == [];
      m := LastWithin(cfg, run, w, n - 1);
    }
  }

  lemma WholeRecordsBetween(rs: seq<Record>, a: nat, b: nat, cut: nat)
    requires a <= b <= |rs|
    ensures a <= WholeRecords(rs, cut) < b <==> |EncodeLog(rs[..a])| <= cut < |EncodeLog(rs[..b])|
  {
    AtLeastIff(rs, a, cut);
    AtLeastIff(rs, b, cut);
  }

  lemma AtLeastIff(rs: seq<Record>, n: nat, cut: nat)
    requires n <= |rs|
    ensures n <= WholeRecords(rs, cut) <==> |EncodeLog(rs[..n])| <= cut
  {
    WholeRecordsIsLargest(rs, cut);
    var w := WholeRecords(rs, cut);
    if n <= w {
      assert rs[..w][..n] == rs[..n];
      EncodeLogPrefix(rs[..w], n);
    }
    if |EncodeLog(rs[..n])| <= cut {
      WholeRecordsAtLeast(rs, n, cut);
    }
  }

  /** A cut that splits a request leaves some but not all of its records. */
  lemma SplitMeans(cfg: Config, run: seq<Request>, n: nat, cut: nat)
    requires n < |run|
    ensures Splits(cfg, run, n, cut) <==>
            LogLength(cfg, run, n) < WholeRecords(FullLog(cfg, run), cut) < LogLength(cfg, run, n + 1)
  {
    var log, before, mine := FullLog(cfg, run), FullLog(cfg, run[..n]), AppendedAt(cfg, run, n);
    LogNext(cfg, run, n);
    LogOfPrefix(cfg, run, n + 1, |run|);
    assert run[..|run|] == run;
    if |mine| > 1 {
      CutAmong(log, before, mine, cut);
    }
  }

  lemma CutAmong(log: seq<Record>, before: seq<Record>, mine: seq<Record>, cut: nat)
    requires before + mine <= log && |mine| > 1
    ensures |before| < WholeRecords(log, cut) < |before| + |mine| <==>
            |EncodeLog(before + mine[..1])| <= cut < |EncodeLog(before + mine)|
  {
    assert log[..|before| + |mine|] == before + mine && log[..|before| + 1] == before + mine[..1];
    WholeRecordsBetween(log, |before| + 1, |before| + |mine|, cut);
  }

  /** No request boundary lies inside the records of a single request. */
  lemma NoBoundaryInside(cfg: Config, run: seq<Request>, n: nat, m: nat)
    requires n < |run| && m <= |run|
    ensures !(LogLength(cfg, run, n) < LogLength(cfg, run, m) < LogLength(cfg, run, n + 1))
  {
    if m <= n {
      LogOfPrefix(cfg, run, m, n);
    } else {
      LogOfPrefix(cfg, run, n + 1, m);
    }
  }

  /** What survives the cut is the log of the first `m` requests. */
  ghost predicate SurvivesAs(cfg: Config, run: seq<Request>, cut: nat, m: nat)
    requires cut <= |EncodeLog(FullLog(cfg, run))| && m <= |run|
  {
    Surviving(FullLog(cfg, run), cut) == FullLog(cfg, run[..m])
  }

  lemma SurvivorsCounted(cfg: Config, run: seq<Request>, cut: nat, m: nat)
    requires AllLoggable(FullLog(cfg, run)) && cut <= |EncodeLog(FullLog(cfg, run))| && m <= |run|
    ensures SurvivesAs(cfg, run, cut, m) <==> WholeRecords(FullLog(cfg, run), cut) == LogLength(cfg, run, m)
  {
    var log := FullLog(cfg, run);
    TornTail(log, cut);
    LogOfPrefix(cfg, run, m, |run|);
    assert run[..|run|] == run;
    assert log[..LogLength(cfg, run, m)] == FullLog(cfg, run[..m]);
  }

  /**
   * Under any cap, deadlines allowed: a crash that keeps any prefix of the bytes a run appended recovers
   * the log of a prefix of its requests if and only if the cut does not fall among the records of a
   * request that set a time to live by SET or evicted a key.
   */
  lemma CrashAtomicIff(cfg: Config, run: seq<Request>, cut: nat)
    requires AllLoggable(FullLog(cfg, run)) && cut <= |EncodeLog(FullLog(cfg, run))|
    ensures (exists m: nat :: m <= |run| && SurvivesAs(cfg, run, cut, m)) <==>
            !(exists n: nat :: n < |run| && Splits(cfg, run, n, cut))
  {
    var w := WholeRecords(FullLog(cfg, run), cut);
    if exists n: nat :: n < |run| && Splits(cfg, run, n, cut) {
      var n: nat :| n < |run| && Splits(cfg, run, n, cut);
      SplitMeans(cfg, run, n, cut);
      forall m: nat | m <= |run| ensures !SurvivesAs(cfg, run, cut, m) {
        SurvivorsCounted(cfg, run, cut, m);
        NoBoundaryInside(cfg, run, n, m);
      }
    } else {
      var m := LastWithin(cfg, run, w, |run|);
      SurvivorsCounted(cfg, run, cut, m);
      if m < |run| {
        SplitMeans(cfg, run, m, cut);
        assert !Splits(cfg, run, m, cut);
      } else {
        assert run[..m] == run;
      }
    }
  }

  /* ----- both kinds of halves are real ----- */

  /** What a half-recovered SET means: the key comes back without its deadline, at whatever time. */
  lemma TornSetLosesDeadline(k: Key, v: Bytes, deadline: int, at: int)
    requires Loggable(SetRecord(k, v)) && Loggable(ExpireAtRecord(k, deadline))
    ensures var recs := [SetRecord(k, v), ExpireAtRecord(k, deadline)]; var cut := |EncodeLog([SetRecord(k, v)])|;
            cut <= |EncodeLog(recs)| &&
            LiveEntries(Replay(EMPTY, UNLIMITED, Surviving(recs, cut), at).entries, at) ==
              map[k := NewEntry(k, v, None)]
  {
    var recs := [SetRecord(k, v), ExpireAtRecord(k, deadline)];
    CutAfterRecord(recs, 1);
    assert recs[..1] == [SetRecord(k, v)];
    ReplayOne(EMPTY, UNLIMITED, SetRecord(k, v), at);
    ReplaySetRecord(EMPTY, UNLIMITED, k, v, at);
  }

  /** A plain SET that evicts: a crash after its first record brings the evicted key back beside it. */
  lemma EvictingSetIsHalved(now: int)
    ensures var c := Cache(["x"], map["x" := NewEntry("x", "1", None)]);
            var eff := Dispatch(c, Config(150, true, AnyKey), SetRecord("b", "1"), now);
            !IsTimedSet(SetRecord("b", "1")) &&
              Appended(SetRecord("b", "1"), eff, now) == [SetRecord("b", "1"), DelRecord("x")]
  {
    var cfg := Config(150, true, AnyKey);
    var c := Cache(["x"], map["x" := NewEntry("x", "1", None)]);
    var out := DoSet(c, cfg, "b", "1", None, now);
    assert "x"[0] != "b"[0];
    ParseSetRecord("b", "1");
    WriteEvictsOther("x", "1", "b", "1", now);
    assert DoGet(c, "b", now) == Out(c, Missing, []);
    assert ExecSet(c, cfg, Plain("b", "1"), now) == Effect(out.cache, OK, ["x"], 1);
    assert ["x"][..0] == [];
    assert DelRecords(["x"]) == [DelRecord("x")];
  }
}

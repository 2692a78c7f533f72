/**
 * Requests and whole runs of them, told from their words: what each is answered, what it leaves at each
 * key, and so what a key holds after any run of requests under any cap.
 */
module Tales {
  import opened Base
  import opened Decimal
  import opened CacheModel
  import opened SweepLaws
  import opened LruLaws
  import opened Commands
  import opened TimedReplay
  import opened Replication
  import opened Replies
  import opened Words
  import opened TimedMap
  import Resp

  /* ----- one request ----- */

  lemma Understood(raw: Record, cmd: Command, c: Cache, cfg: Config, now: int)
    requires Says(raw, cmd)
    ensures Parse(raw) == Ok(cmd) && Dispatch(c, cfg, raw, now) == Exec(c, cfg, cmd, now)
  {
    ParsedIffSaid(raw, cmd);
  }

  /**
   * Every request, under any cap: if its words say a command, it is answered as the reference answers that
   * command and leaves at each key what the reference leaves, evicted keys apart; if they say none, it is
   * answered with an error and nothing happens.
   */
  lemma RequestServed(c: Cache, cfg: Config, raw: Record, now: int)
    requires WF(c)
    ensures var eff := Dispatch(c, cfg, raw, now);
            && (forall cmd :: Says(raw, cmd) ==>
                  Answered(On(c, now), c.order, cfg, cmd, now, eff.reply) && forall k :: LeftAt(c, cmd, eff, k, now))
            && ((forall cmd :: !Says(raw, cmd)) ==> eff.reply.Error? && eff == Effect(c, eff.reply, [], 0))
  {
    var eff := Dispatch(c, cfg, raw, now);
    forall cmd | Says(raw, cmd)
      ensures Answered(On(c, now), c.order, cfg, cmd, now, eff.reply) && forall k :: LeftAt(c, cmd, eff, k, now)
    {
      Understood(raw, cmd, c, cfg, now);
      CommandAnswered(c, cfg, cmd, now);
      forall k ensures LeftAt(c, cmd, eff, k, now) {
        CommandLeft(c, cfg, cmd, k, now);
      }
    }
    if Parse(raw).Ok? {
      ParsedIffSaid(raw, Parse(raw).cmd);
    }
  }

  /** Without a limit, or without the policy that evicts, nothing is evicted. */
  lemma {:induction false} MsetEvictsNothing(c: Cache, cfg: Config, pairs: seq<(Key, Bytes)>, now: int)
    requires cfg.maxmemory == 0 || !cfg.lru
    ensures ExecMset(c, cfg, pairs, now).evicted == []
    decreases |pairs|
  {
    if pairs != [] {
      MsetEvictsNothing(DoSet(c, cfg, pairs[0].0, pairs[0].1, None, now).cache, cfg, pairs[1..], now);
    }
  }

  lemma NothingEvicted(c: Cache, cfg: Config, raw: Record, now: int)
    requires cfg.maxmemory == 0 || !cfg.lru
    ensures Dispatch(c, cfg, raw, now).evicted == []
  {
    if Parse(raw).Ok? && Parse(raw).cmd.CMset? {
      MsetEvictsNothing(c, cfg, Parse(raw).cmd.pairs, now);
    }
  }

  /** A store that evicts nothing does to what is there exactly what the reference does. */
  lemma UncappedRequest(c: Cache, cfg: Config, raw: Record, cmd: Command, k: Key, now: int)
    requires WF(c) && (cfg.maxmemory == 0 || !cfg.lru) && Says(raw, cmd)
    ensures There(Dispatch(c, cfg, raw, now).cache, k, now) == KeyAfter(There(c, k, now), cmd, k, now)
  {
    Understood(raw, cmd, c, cfg, now);
    NothingEvicted(c, cfg, raw, now);
    CommandLeft(c, cfg, cmd, k, now);
  }

  /* ----- GET, and MSET by position ----- */

  lemma GetWord(k: Key)
    ensures Says(["GET", k], CGet(k))
  {
  }

  /** GET answers the value stored under the key, if it has no deadline or one still to come, else nil. */
  lemma GetAnswersValue(c: Cache, cfg: Config, k: Key, now: int)
    requires WF(c)
    ensures Dispatch(c, cfg, ["GET", k], now).reply ==
              if k in c.entries && (c.entries[k].deadline.Some? ==> now < c.entries[k].deadline.value)
              then Resp.Bulk(c.entries[k].value) else Resp.Nil
  {
    GetWord(k);
    RequestServed(c, cfg, ["GET", k], now);
  }

  /** Position `p` of the request is a key of MSET, and no later one names the same key. */
  predicate LastNaming(raw: Record, p: nat) {
    p % 2 == 1 && p + 1 < |raw| && forall q :: p < q < |raw| && q % 2 == 1 ==> raw[q] != raw[p]
  }

  /** A request that is named MSET and has an even number of arguments, at least two. */
  predicate IsMset(raw: Record) {
    |raw| >= 3 && |raw| % 2 == 1 && Is(raw[0], "MSET")
  }

  predicate NotNamed(raw: Record, k: Key) {
    forall p :: 0 <= p < |raw| && p % 2 == 1 ==> raw[p] != k
  }

  lemma MsetSaid(raw: Record) returns (pairs: seq<(Key, Bytes)>)
    requires IsMset(raw)
    ensures Says(raw, CMset(pairs)) && |raw| == 1 + 2 * |pairs|
    ensures forall i :: 0 <= i < |pairs| ==> pairs[i] == (raw[1 + 2 * i], raw[2 + 2 * i])
  {
    pairs := seq(|raw| / 2, i requires 0 <= i < |raw| / 2 => (raw[1 + 2 * i], raw[2 + 2 * i]));
  }

  lemma MsetAtNamed(c: Cache, cfg: Config, raw: Record, p: nat, now: int)
    requires WF(c) && (cfg.maxmemory == 0 || !cfg.lru) && IsMset(raw) && LastNaming(raw, p)
    ensures There(Dispatch(c, cfg, raw, now).cache, raw[p], now) == Some(Held(raw[p + 1], None))
  {
    var pairs := MsetSaid(raw);
    UncappedRequest(c, cfg, raw, CMset(pairs), raw[p], now);
    LastMention(raw, pairs, p);
  }

  lemma MsetAtOthers(c: Cache, cfg: Config, raw: Record, k: Key, now: int)
    requires WF(c) && (cfg.maxmemory == 0 || !cfg.lru) && IsMset(raw) && NotNamed(raw, k)
    ensures There(Dispatch(c, cfg, raw, now).cache, k, now) == There(c, k, now)
  {
    var pairs := MsetSaid(raw);
    UncappedRequest(c, cfg, raw, CMset(pairs), k, now);
    NoMention(raw, pairs, k);
  }

  /**
   * MSET on a store without a cap, by the positions of its words: a key holds, for ever, the word after
   * its last mention, and every key that is not named holds what it held.
   */
  lemma MsetByPosition(c: Cache, cfg: Config, raw: Record, now: int)
    requires WF(c) && (cfg.maxmemory == 0 || !cfg.lru) && IsMset(raw)
    ensures var after := Dispatch(c, cfg, raw, now).cache;
            && (forall p :: 0 <= p < |raw| && LastNaming(raw, p) ==>
                  There(after, raw[p], now) == Some(Held(raw[p + 1], None)))
            && (forall k :: NotNamed(raw, k) ==> There(after, k, now) == There(c, k, now))
  {
    var after := Dispatch(c, cfg, raw, now).cache;
    forall p | 0 <= p < |raw| && LastNaming(raw, p)
      ensures There(after, raw[p], now) == Some(Held(raw[p + 1], None))
    {
      MsetAtNamed(c, cfg, raw, p, now);
    }
    forall k | NotNamed(raw, k) ensures There(after, k, now) == There(c, k, now) {
      MsetAtOthers(c, cfg, raw, k, now);
    }
  }

  lemma LastMention(raw: Record, pairs: seq<(Key, Bytes)>, p: nat)
    requires |raw| == 1 + 2 * |pairs| && LastNaming(raw, p)
    requires forall i :: 0 <= i < |pairs| ==> pairs[i] == (raw[1 + 2 * i], raw[2 + 2 * i])
    ensures LastPair(pairs, raw[p]) == Some(raw[p + 1])
  {
    var i: nat := p / 2;
    assert p == 1 + 2 * i && pairs[i] == (raw[p], raw[p + 1]);
    forall j | i < j < |pairs| ensures pairs[j].0 != raw[p] {
      assert pairs[j].0 == raw[1 + 2 * j];
    }
    LastPairIs(pairs, raw[p], i);
  }

  lemma NoMention(raw: Record, pairs: seq<(Key, Bytes)>, k: Key)
    requires |raw| == 1 + 2 * |pairs| && NotNamed(raw, k)
    requires forall i :: 0 <= i < |pairs| ==> pairs[i] == (raw[1 + 2 * i], raw[2 + 2 * i])
    ensures LastPair(pairs, k) == None
  {
    forall i | 0 <= i < |pairs| ensures pairs[i].0 != k {
      assert pairs[i].0 == raw[1 + 2 * i];
    }
    LastPairNone(pairs, k);
  }

  /* ----- what a key holds after a run ----- */

  /** The clock never goes back, and now reads `now`. */
  ghost predicate Timely(run: seq<Request>, now: int) {
    && (forall i, j :: 0 <= i <= j < |run| ==> run[i].now <= run[j].now)
    && (forall i :: 0 <= i < |run| ==> run[i].now <= now)
  }

  lemma TimelyBefore(run: seq<Request>, now: int)
    requires run != [] && Timely(run, now)
    ensures Timely(run[..|run| - 1], run[|run| - 1].now) && run[|run| - 1].now <= now
  {
  }

  /** What the last request of a run did. */
  function LastEffect(c: Cache, cfg: Config, run: seq<Request>): Effect
    requires run != []
  {
    Dispatch(PrimaryAfter(c, cfg, run[..|run| - 1]), cfg, run[|run| - 1].raw, run[|run| - 1].now)
  }

  /** The last request of a run evicted the key, and did not bring it back. */
  predicate Lost(c: Cache, cfg: Config, run: seq<Request>, k: Key)
    requires run != []
  {
    k in LastEffect(c, cfg, run).evicted && There(LastEffect(c, cfg, run).cache, k, run[|run| - 1].now).None?
  }

  /** What a request, by its words, leaves at a key that held `h`. */
  function SaidAt(h: Option<Held>, raw: Record, k: Key, now: int): Option<Held> {
    match Parse(raw)
    case Ok(cmd) => KeyAfter(h, cmd, k, now)
    case Fail(_) => h
  }

  /** What a key holds according to the requests alone, given which of them evicted it. */
  function Tale(c: Cache, cfg: Config, run: seq<Request>, k: Key): Option<Held> {
    if run == [] then if k in c.entries then Some(Held(c.entries[k].value, c.entries[k].deadline)) else None
    else
      var before, last := run[..|run| - 1], run[|run| - 1];
      if Lost(c, cfg, run, k) then None
      else SaidAt(Lasting(Tale(c, cfg, before, k), last.now), last.raw, k, last.now)
  }

  lemma ThereLater(c: Cache, k: Key, s: int, t: int)
    requires s <= t
    ensures There(c, k, t) == Lasting(There(c, k, s), t)
  {
  }

  lemma SaidLeft(c: Cache, cfg: Config, raw: Record, k: Key, now: int)
    requires WF(c)
    ensures var eff := Dispatch(c, cfg, raw, now); var left := There(eff.cache, k, now);
            left == SaidAt(There(c, k, now), raw, k, now) || (left.None? && k in eff.evicted)
  {
    if Parse(raw).Ok? {
      CommandLeft(c, cfg, Parse(raw).cmd, k, now);
    }
  }

  /** After any run, under any cap, a store holds at a key what the requests say it holds. */
  lemma {:induction false} TaleIsTrue(c: Cache, cfg: Config, run: seq<Request>, k: Key, now: int)
    requires WF(c) && Timely(run, now)
    ensures There(PrimaryAfter(c, cfg, run), k, now) == Lasting(Tale(c, cfg, run, k), now)
  {
    if run == [] {
      ThereIs(c, k, now);
    } else {
      var before, last := run[..|run| - 1], run[|run| - 1];
      TimelyBefore(run, now);
      TaleIsTrue(c, cfg, before, k, last.now);
      PrimaryWF(c, cfg, before);
      SaidLeft(PrimaryAfter(c, cfg, before), cfg, last.raw, k, last.now);
      ThereLater(PrimaryAfter(c, cfg, run), k, last.now, now);
    }
  }

  /** And so GET answers, after any run, what the requests say. */
  lemma GetTellsTheTale(c: Cache, cfg: Config, run: seq<Request>, k: Key, now: int)
    requires WF(c) && Timely(run, now)
    ensures Dispatch(PrimaryAfter(c, cfg, run), cfg, ["GET", k], now).reply ==
            ValueAt(Lasting(Tale(c, cfg, run, k), now))
  {
    var d := PrimaryAfter(c, cfg, run);
    PrimaryWF(c, cfg, run);
    TaleIsTrue(c, cfg, run, k, now);
    GetWord(k);
    RequestServed(d, cfg, ["GET", k], now);
  }

  /* ----- the last write is read ----- */

  /** What a command writes at a key, if it writes there. */
  function Writes(h: Option<Held>, cmd: Command, k: Key, now: int): Option<Held> {
    match cmd
    case CSet(o) =>
      if o.key == k && Applies(o, h) then Some(Held(o.value, if o.ttl.Some? then Some(now + o.ttl.value) else None))
      else None
    case CMset(pairs) => if LastPair(pairs, k).Some? then Some(Held(LastPair(pairs, k).value, None)) else None
    case CIncrBy(x, delta) =>
      if x == k && SumAt(h, delta).Some?
      then Some(Held(IntText(SumAt(h, delta).value), if h.Some? then h.value.deadline else None))
      else None
    case _ => None
  }

  /** A command that neither writes the key, nor deletes it, nor changes its deadline. */
  predicate Spares(cmd: Command, k: Key) {
    match cmd
    case CSet(o) => o.key != k
    case CMset(pairs) => forall i :: 0 <= i < |pairs| ==> pairs[i].0 != k
    case CDel(keys) => k !in keys
    case CIncrBy(x, _) => x != k
    case CExpire(x, _) => x != k
    case CExpireAt(x, _) => x != k
    case CPersist(x) => x != k
    case CFlush => false
    case _ => true
  }

  ghost predicate SparesKey(raw: Record, k: Key) {
    forall cmd :: Says(raw, cmd) ==> Spares(cmd, k)
  }

  lemma SparedAfter(h: Option<Held>, cmd: Command, k: Key, now: int)
    requires Spares(cmd, k)
    ensures KeyAfter(h, cmd, k, now) == h
  {
    if cmd.CMset? {
      LastPairNone(cmd.pairs, k);
    }
  }

  lemma SparedStays(h: Option<Held>, raw: Record, k: Key, now: int)
    requires SparesKey(raw, k)
    ensures SaidAt(h, raw, k, now) == h
  {
    if Parse(raw).Ok? {
      var cmd := Parse(raw).cmd;
      ParsedIffSaid(raw, cmd);
      assert Spares(cmd, k);
      SparedAfter(h, cmd, k, now);
    }
  }

  /** What request `i` of a run does. */
  function EffectOf(c: Cache, cfg: Config, run: seq<Request>, i: nat): Effect
    requires i < |run|
  {
    Dispatch(PrimaryAfter(c, cfg, run[..i]), cfg, run[i].raw, run[i].now)
  }

  /** Request `i` of a run writes `h` at the key. */
  ghost predicate WroteAt(c: Cache, cfg: Config, run: seq<Request>, i: nat, k: Key, h: Held)
    requires i < |run|
  {
    exists cmd :: Says(run[i].raw, cmd) &&
      Writes(There(PrimaryAfter(c, cfg, run[..i]), k, run[i].now), cmd, k, run[i].now) == Some(h)
  }

  lemma WrittenIsThere(c: Cache, cfg: Config, raw: Record, cmd: Command, k: Key, h: Held, now: int)
    requires WF(c) && Says(raw, cmd) && Writes(There(c, k, now), cmd, k, now) == Some(h) && NotYet(now, h.deadline)
    requires k !in Dispatch(c, cfg, raw, now).evicted
    ensures There(Dispatch(c, cfg, raw, now).cache, k, now) == Some(h)
  {
    Understood(raw, cmd, c, cfg, now);
    CommandLeft(c, cfg, cmd, k, now);
    WritesLast(There(c, k, now), cmd, k, h, now);
  }

  lemma WritesLast(was: Option<Held>, cmd: Command, k: Key, h: Held, now: int)
    requires Writes(was, cmd, k, now) == Some(h) && NotYet(now, h.deadline)
    ensures KeyAfter(was, cmd, k, now) == Some(h)
  {
  }

  lemma SparedIsThere(c: Cache, cfg: Config, raw: Record, k: Key, now: int)
    requires WF(c) && SparesKey(raw, k) && k !in Dispatch(c, cfg, raw, now).evicted
    ensures There(Dispatch(c, cfg, raw, now).cache, k, now) == There(c, k, now)
  {
    SaidLeft(c, cfg, raw, k, now);
    SparedStays(There(c, k, now), raw, k, now);
  }

  /** Since request `i`, which wrote `h` at the key, none has touched it, and none has evicted it. */
  ghost predicate Kept(c: Cache, cfg: Config, run: seq<Request>, i: nat, k: Key, h: Held) {
    && i < |run| && WroteAt(c, cfg, run, i, k, h)
    && (forall j :: i < j < |run| ==> SparesKey(run[j].raw, k))
    && (forall j :: i <= j < |run| ==> k !in EffectOf(c, cfg, run, j).evicted)
  }

  lemma KeptBefore(c: Cache, cfg: Config, run: seq<Request>, i: nat, k: Key, h: Held)
    requires Kept(c, cfg, run, i, k, h) && i < |run| - 1
    ensures Kept(c, cfg, run[..|run| - 1], i, k, h)
  {
    var before := run[..|run| - 1];
    assert before[..i] == run[..i] && before[i] == run[i];
    forall j | i <= j < |before| ensures k !in EffectOf(c, cfg, before, j).evicted {
      assert before[..j] == run[..j];
      assert k !in EffectOf(c, cfg, run, j).evicted;
    }
  }

  lemma KeptWritten(c: Cache, cfg: Config, run: seq<Request>, k: Key, h: Held)
    requires run != [] && WF(c) && Kept(c, cfg, run, |run| - 1, k, h) && NotYet(run[|run| - 1].now, h.deadline)
    ensures There(LastEffect(c, cfg, run).cache, k, run[|run| - 1].now) == Some(h)
  {
    var n := |run| - 1;
    var d, raw, now := PrimaryAfter(c, cfg, run[..n]), run[n].raw, run[n].now;
    PrimaryWF(c, cfg, run[..n]);
    assert k !in EffectOf(c, cfg, run, n).evicted;
    var cmd :| Says(raw, cmd) && Writes(There(d, k, now), cmd, k, now) == Some(h);
    WrittenIsThere(d, cfg, raw, cmd, k, h, now);
  }

  lemma LastSpares(c: Cache, cfg: Config, run: seq<Request>, i: nat, k: Key, h: Held)
    requires Kept(c, cfg, run, i, k, h) && i < |run| - 1
    ensures SparesKey(run[|run| - 1].raw, k) && k !in LastEffect(c, cfg, run).evicted
  {
    assert k !in EffectOf(c, cfg, run, |run| - 1).evicted;
  }

  lemma SparedLast(c: Cache, cfg: Config, run: seq<Request>, k: Key, h: Held)
    requires run != [] && WF(c) && SparesKey(run[|run| - 1].raw, k) && k !in LastEffect(c, cfg, run).evicted
    requires var n := |run| - 1; There(PrimaryAfter(c, cfg, run[..n]), k, run[n].now) == Some(h)
    ensures There(LastEffect(c, cfg, run).cache, k, run[|run| - 1].now) == Some(h)
  {
    var n := |run| - 1;
    PrimaryWF(c, cfg, run[..n]);
    SparedIsThere(PrimaryAfter(c, cfg, run[..n]), cfg, run[n].raw, k, run[n].now);
  }

  /** One more request, after those that left `h` at the key or with the one that writes it. */
  lemma StaysOn(c: Cache, cfg: Config, run: seq<Request>, i: nat, k: Key, h: Held, now: int)
    requires WF(c) && Kept(c, cfg, run, i, k, h) && run[|run| - 1].now <= now && NotYet(now, h.deadline)
    requires var n := |run| - 1; i < n ==> There(PrimaryAfter(c, cfg, run[..n]), k, run[n].now) == Some(h)
    ensures There(PrimaryAfter(c, cfg, run), k, now) == Some(h)
  {
    if i == |run| - 1 {
      KeptWritten(c, cfg, run, k, h);
    } else {
      LastSpares(c, cfg, run, i, k, h);
      SparedLast(c, cfg, run, k, h);
    }
    ThereLater(LastEffect(c, cfg, run).cache, k, run[|run| - 1].now, now);
  }

  lemma {:induction false} WriteStays(c: Cache, cfg: Config, run: seq<Request>, i: nat, k: Key, h: Held, now: int)
    requires WF(c) && Timely(run, now) && Kept(c, cfg, run, i, k, h) && NotYet(now, h.deadline)
    ensures There(PrimaryAfter(c, cfg, run), k, now) == Some(h)
    decreases |run|
  {
    var n := |run| - 1;
    TimelyBefore(run, now);
    if i < n {
      KeptBefore(c, cfg, run, i, k, h);
      WriteStays(c, cfg, run[..n], i, k, h, run[n].now);
    }
    StaysOn(c, cfg, run, i, k, h, now);
  }

  /**
   * The reply to GET, after any run of requests under any cap, is the value last written to the key, if
   * since then no request has written, deleted or re-timed it, none has evicted it, and its deadline has
   * not come.
   */
  lemma LastWriteIsRead(c: Cache, cfg: Config, run: seq<Request>, i: nat, k: Key, h: Held, now: int)
    requires WF(c) && Timely(run, now) && Kept(c, cfg, run, i, k, h) && NotYet(now, h.deadline)
    ensures Dispatch(PrimaryAfter(c, cfg, run), cfg, ["GET", k], now).reply == Resp.Bulk(h.value)
  {
    WriteStays(c, cfg, run, i, k, h, now);
    PrimaryWF(c, cfg, run);
    GetAnswersValue(PrimaryAfter(c, cfg, run), cfg, k, now);
  }
}

/** Counters as clients keep them: exactness over any run of requests, with the amounts read off their words. */
module CounterTales {
  import opened Base
  import opened Decimal
  import opened CacheModel
  import opened LruLaws
  import opened Commands
  import opened TimedReplay
  import opened Replication
  import opened Words
  import opened TimedMap
  import opened Tales
  import Resp

  predicate Fits(n: int) {
    -9223372036854775808 <= n <= 9223372036854775807
  }

  function Kept(h: Option<Held>): Option<int> {
    if h.Some? then h.value.deadline else None
  }

  /** The sum is answered, and stored as its text under the old deadline; or nothing that is there changes. */
  ghost predicate Incremented(c: Cache, k: Key, delta: int, eff: Effect, now: int) {
    match SumAt(There(c, k, now), delta)
    case Some(n) =>
      eff.reply == Resp.Int(n) && There(eff.cache, k, now) == Some(Held(IntText(n), Kept(There(c, k, now)))) &&
      k !in eff.evicted
    case None => eff.reply.Error? && eff.evicted == [] && On(eff.cache, now) == On(c, now)
  }

  /** An increment that is accepted is written, and survives its own eviction round. */
  lemma SumIsThere(c: Cache, cfg: Config, k: Key, delta: int, eff: Effect, now: int)
    requires WF(c) && SumAt(There(c, k, now), delta).Some? && eff == ExecIncr(c, cfg, k, delta, now)
    ensures Incremented(c, k, delta, eff, now)
  {
    var h, d := There(c, k, now), DropIfExpired(c, k, now);
    IncrOutcome(c, cfg, k, delta, now);
    SumSurvives(d, cfg, k, SumAt(h, delta).value, Kept(h), now);
  }

  lemma SumSurvives(d: Cache, cfg: Config, k: Key, n: int, deadline: Option<int>, now: int)
    requires WF(d) && NotYet(now, deadline)
    ensures var r := Evict(Put(d, k, NewEntry(k, IntText(n), deadline)), cfg, now);
            There(r.cache, k, now) == Some(Held(IntText(n), deadline)) && k !in r.victims
  {
    WrittenKeySurvives(d, cfg, k, NewEntry(k, IntText(n), deadline), now);
  }

  lemma NoSumNoChange(c: Cache, cfg: Config, k: Key, delta: int, eff: Effect, now: int)
    requires WF(c) && SumAt(There(c, k, now), delta).None? && eff == ExecIncr(c, cfg, k, delta, now)
    ensures Incremented(c, k, delta, eff, now)
  {
    IncrOutcome(c, cfg, k, delta, now);
    DropOn(c, k, now);
  }

  lemma IncrementCommand(c: Cache, cfg: Config, k: Key, delta: int, eff: Effect, now: int)
    requires WF(c) && eff == ExecIncr(c, cfg, k, delta, now)
    ensures Incremented(c, k, delta, eff, now)
  {
    if SumAt(There(c, k, now), delta).Some? {
      SumIsThere(c, cfg, k, delta, eff, now);
    } else {
      NoSumNoChange(c, cfg, k, delta, eff, now);
    }
  }

  lemma DropOn(c: Cache, k: Key, now: int)
    ensures On(DropIfExpired(c, k, now), now) == On(c, now)
  {
  }

  lemma CounterMoved(c: Cache, k: Key, delta: int, n: int, eff: Effect, now: int)
    requires There(c, k, now).Some? && CountAt(There(c, k, now)) == Some(n) && Incremented(c, k, delta, eff, now)
    ensures if Fits(n + delta) then
              eff.reply == Resp.Int(n + delta) &&
              There(eff.cache, k, now) == Some(Held(IntText(n + delta), There(c, k, now).value.deadline))
            else eff.reply.Error? && On(eff.cache, now) == On(c, now)
  {
  }

  lemma RequestIncrements(c: Cache, cfg: Config, raw: Record, k: Key, delta: int, now: int)
    requires WF(c) && Says(raw, CIncrBy(k, delta))
    ensures Incremented(c, k, delta, Dispatch(c, cfg, raw, now), now)
  {
    Understood(raw, CIncrBy(k, delta), c, cfg, now);
    IncrementCommand(c, cfg, k, delta, Dispatch(c, cfg, raw, now), now);
  }

  /**
   * A request that asks to add `delta` to a live counter that stands at `n`: the sum is answered, and
   * stored as its text under the same deadline, if it has 64 bits; otherwise the request is refused and
   * nothing that is there changes.
   */
  lemma CounterRequest(c: Cache, cfg: Config, raw: Record, k: Key, delta: int, n: int, now: int)
    requires WF(c) && Says(raw, CIncrBy(k, delta)) && There(c, k, now).Some? && CountAt(There(c, k, now)) == Some(n)
    ensures var eff := Dispatch(c, cfg, raw, now);
            if Fits(n + delta) then
              eff.reply == Resp.Int(n + delta) &&
              There(eff.cache, k, now) == Some(Held(IntText(n + delta), There(c, k, now).value.deadline))
            else eff.reply.Error? && On(eff.cache, now) == On(c, now)
  {
    RequestIncrements(c, cfg, raw, k, delta, now);
    CounterMoved(c, k, delta, n, Dispatch(c, cfg, raw, now), now);
  }

  lemma CounterWords(k: Key, d: int)
    requires Fits(d)
    ensures Says(["INCR", k], CIncrBy(k, 1)) && Says(["DECR", k], CIncrBy(k, -1))
    ensures Says(["INCRBY", k, IntText(d)], CIncrBy(k, d)) && Says(["DECRBY", k, IntText(d)], CIncrBy(k, -d))
  {
    IntTextRoundTrip(d);
    assert Amount(IntText(d)) == Some(d);
    assert Called(["INCR", k], "INCR", 2) && Called(["DECR", k], "DECR", 2);
    assert Called(["INCRBY", k, IntText(d)], "INCRBY", 3) && Called(["DECRBY", k, IntText(d)], "DECRBY", 3);
  }

  /** The answer and the text stored under the same deadline, or a refusal. */
  predicate Counts(c: Cache, k: Key, n: int, eff: Effect, now: int) {
    var h, after := There(c, k, now), There(eff.cache, k, now);
    if Fits(n) then eff.reply == Resp.Int(n) && after == Some(Held(IntText(n), Kept(h)))
    else eff.reply.Error? && after == h
  }

  lemma CountsBy(c: Cache, cfg: Config, raw: Record, k: Key, delta: int, n: int, now: int)
    requires WF(c) && Says(raw, CIncrBy(k, delta)) && There(c, k, now).Some? && CountAt(There(c, k, now)) == Some(n)
    ensures Counts(c, k, n + delta, Dispatch(c, cfg, raw, now), now)
  {
    CounterRequest(c, cfg, raw, k, delta, n, now);
  }

  /** INCR and DECR, word for word, on a live counter that stands at `n`. */
  lemma CountsByOne(c: Cache, cfg: Config, k: Key, n: int, now: int)
    requires WF(c) && There(c, k, now).Some? && CountAt(There(c, k, now)) == Some(n)
    ensures Counts(c, k, n + 1, Dispatch(c, cfg, ["INCR", k], now), now)
    ensures Counts(c, k, n - 1, Dispatch(c, cfg, ["DECR", k], now), now)
  {
    CounterWords(k, 0);
    CountsBy(c, cfg, ["INCR", k], k, 1, n, now);
    CountsBy(c, cfg, ["DECR", k], k, -1, n, now);
  }

  /** INCRBY, and then DECRBY, word for word. */
  lemma CountsUp(c: Cache, cfg: Config, k: Key, n: int, d: int, now: int)
    requires WF(c) && There(c, k, now).Some? && CountAt(There(c, k, now)) == Some(n) && Fits(d)
    ensures Counts(c, k, n + d, Dispatch(c, cfg, ["INCRBY", k, IntText(d)], now), now)
  {
    CounterWords(k, d);
    CountsBy(c, cfg, ["INCRBY", k, IntText(d)], k, d, n, now);
  }

  lemma CountsDown(c: Cache, cfg: Config, k: Key, n: int, d: int, now: int)
    requires WF(c) && There(c, k, now).Some? && CountAt(There(c, k, now)) == Some(n) && Fits(d)
    ensures Counts(c, k, n - d, Dispatch(c, cfg, ["DECRBY", k, IntText(d)], now), now)
  {
    CounterWords(k, d);
    CountsBy(c, cfg, ["DECRBY", k, IntText(d)], k, -d, n, now);
  }

  /* ----- runs ----- */

  /** What a request adds to the counter, by its words and its answer. */
  function Added(raw: Record, reply: Value, k: Key): int {
    if !reply.Int? || |raw| < 2 || raw[1] != k then 0
    else if Called(raw, "INCR", 2) then 1
    else if Called(raw, "DECR", 2) then -1
    else if Called(raw, "INCRBY", 3) && Amount(raw[2]).Some? then Amount(raw[2]).value
    else if Called(raw, "DECRBY", 3) && Amount(raw[2]).Some? then -Amount(raw[2]).value
    else 0
  }

  /** The request leaves the counter alone, or adds to it. */
  ghost predicate LeavesCount(raw: Record, k: Key) {
    forall cmd :: Says(raw, cmd) ==> cmd.CIncrBy? || Spares(cmd, k)
  }

  lemma AddedIsSaid(raw: Record, reply: Value, k: Key, delta: int)
    requires Says(raw, CIncrBy(k, delta)) && reply.Int?
    ensures Added(raw, reply, k) == delta
  {
    WriteWords(raw[0]);
  }

  lemma AddedNothing(raw: Record, reply: Value, k: Key)
    requires forall delta :: !Says(raw, CIncrBy(k, delta))
    ensures Added(raw, reply, k) == 0
  {
    assert !Says(raw, CIncrBy(k, 1)) && !Says(raw, CIncrBy(k, -1));
    if |raw| == 3 && Amount(raw[2]).Some? {
      assert !Says(raw, CIncrBy(k, Amount(raw[2]).value)) && !Says(raw, CIncrBy(k, -Amount(raw[2]).value));
    }
  }

  /** The counter stands at `n`, with this deadline. */
  predicate Stands(h: Option<Held>, n: int, deadline: Option<int>) {
    h.Some? && h.value.deadline == deadline && CountAt(h) == Some(n)
  }

  lemma SumStands(n: int, deadline: Option<int>)
    requires Fits(n)
    ensures Stands(Some(Held(IntText(n), deadline)), n, deadline)
  {
    IntTextRoundTrip(n);
  }

  lemma CountedStands(raw: Record, k: Key, delta: int, n: int, deadline: Option<int>, h: Option<Held>,
                      after: Option<Held>, reply: Value)
    requires Stands(h, n, deadline) && Says(raw, CIncrBy(k, delta))
    requires if Fits(n + delta) then reply.Int? && after == Some(Held(IntText(n + delta), deadline))
             else reply.Error? && after == h
    ensures Stands(after, n + Added(raw, reply, k), deadline)
  {
    if Fits(n + delta) {
      AddedIsSaid(raw, reply, k, delta);
      SumStands(n + delta, deadline);
    }
  }

  lemma CountsStands(c: Cache, raw: Record, k: Key, delta: int, n: int, deadline: Option<int>, now: int, eff: Effect)
    requires Stands(There(c, k, now), n, deadline) && Says(raw, CIncrBy(k, delta)) && Counts(c, k, n + delta, eff, now)
    ensures Stands(There(eff.cache, k, now), n + Added(raw, eff.reply, k), deadline)
  {
    CountedStands(raw, k, delta, n, deadline, There(c, k, now), There(eff.cache, k, now), eff.reply);
  }

  lemma IncrementStep(c: Cache, cfg: Config, raw: Record, k: Key, delta: int, n: int, deadline: Option<int>, now: int,
                      eff: Effect)
    requires WF(c) && Stands(There(c, k, now), n, deadline) && Says(raw, CIncrBy(k, delta))
    requires eff == Dispatch(c, cfg, raw, now)
    ensures Stands(There(eff.cache, k, now), n + Added(raw, eff.reply, k), deadline)
  {
    CountsBy(c, cfg, raw, k, delta, n, now);
    CountsStands(c, raw, k, delta, n, deadline, now, eff);
  }

  lemma SparedStep(c: Cache, cfg: Config, raw: Record, k: Key, n: int, deadline: Option<int>, now: int, eff: Effect)
    requires WF(c) && Stands(There(c, k, now), n, deadline) && LeavesCount(raw, k)
    requires forall delta :: !Says(raw, CIncrBy(k, delta))
    requires eff == Dispatch(c, cfg, raw, now) && k !in eff.evicted
    ensures Stands(There(eff.cache, k, now), n + Added(raw, eff.reply, k), deadline)
  {
    AddedNothing(raw, eff.reply, k);
    forall cmd | Says(raw, cmd) ensures Spares(cmd, k) {
      assert cmd.CIncrBy? || Spares(cmd, k);
    }
    SparedIsThere(c, cfg, raw, k, now);
  }

  lemma CountStep(c: Cache, cfg: Config, raw: Record, k: Key, n: int, deadline: Option<int>, now: int, eff: Effect)
    requires WF(c) && Stands(There(c, k, now), n, deadline) && LeavesCount(raw, k)
    requires eff == Dispatch(c, cfg, raw, now) && k !in eff.evicted
    ensures Stands(There(eff.cache, k, now), n + Added(raw, eff.reply, k), deadline)
  {
    if delta :| Says(raw, CIncrBy(k, delta)) {
      IncrementStep(c, cfg, raw, k, delta, n, deadline, now, eff);
    } else {
      SparedStep(c, cfg, raw, k, n, deadline, now, eff);
    }
  }

  // The induction over a run is done for an arbitrary way of serving, so that it never unfolds `Dispatch`.

  type Serve = (Cache, Record, int) -> Effect

  /** The requests of a store under one configuration. */
  function ServedUnder(cfg: Config): Serve {
    (c: Cache, raw: Record, now: int) => Dispatch(c, cfg, raw, now)
  }

  /** The state before request `n` of a run, and what that request does. */
  function StateBy(serve: Serve, c: Cache, run: seq<Request>, n: nat): Cache
    requires n <= |run|
  {
    if n == 0 then c else serve(StateBy(serve, c, run, n - 1), run[n - 1].raw, run[n - 1].now).cache
  }

  function EffectBy(serve: Serve, c: Cache, run: seq<Request>, n: nat): Effect
    requires n < |run|
  {
    serve(StateBy(serve, c, run, n), run[n].raw, run[n].now)
  }

  lemma {:induction false} SameStates(c: Cache, cfg: Config, run: seq<Request>, n: nat)
    requires n <= |run|
    ensures StateBy(ServedUnder(cfg), c, run, n) == PrimaryAfter(c, cfg, run[..n])
  {
    if n > 0 {
      assert run[..n][..n - 1] == run[..n - 1];
      SameStates(c, cfg, run, n - 1);
    }
  }

  /** Sum of what the first `n` requests of a run added. */
  function Total(serve: Serve, amount: (Record, Value) -> int, c: Cache, run: seq<Request>, n: nat): int
    requires n <= |run|
  {
    if n == 0 then 0
    else Total(serve, amount, c, run, n - 1) + amount(run[n - 1].raw, EffectBy(serve, c, run, n - 1).reply)
  }

  /** When request `n` of the run is made; after the last one, the present. */
  function TimeOf(run: seq<Request>, now: int, n: nat): int
    requires n <= |run|
  {
    if n < |run| then run[n].now else now
  }

  predicate NextInTime(run: seq<Request>, now: int, n: nat)
    requires n < |run|
  {
    run[n].now <= TimeOf(run, now, n + 1) <= now
  }

  /** The clock never goes back, and now reads `now`. */
  ghost predicate InTime(run: seq<Request>, now: int) {
    forall n: nat :: n < |run| ==> NextInTime(run, now, n)
  }

  /** A calm request moves the tally by its amount. */
  ghost predicate MovesTally(serve: Serve, amount: (Record, Value) -> int, calm: (Cache, Record, int) -> bool,
                             tally: (Cache, int, int) -> bool, b: Cache, raw: Record, t: int, m: int) {
    tally(b, m, t) && calm(b, raw, t) ==> tally(serve(b, raw, t).cache, m + amount(raw, serve(b, raw, t).reply), t)
  }

  ghost predicate KeepsTally(tally: (Cache, int, int) -> bool, now: int, b: Cache, m: int, s: int, t: int) {
    tally(b, m, s) && s <= t <= now ==> tally(b, m, t)
  }

  /** A tally that every calm request moves by its amount, and that time alone does not change. */
  ghost predicate Tallies(serve: Serve, amount: (Record, Value) -> int, calm: (Cache, Record, int) -> bool,
                          tally: (Cache, int, int) -> bool, now: int) {
    && (forall b, raw, t, m :: MovesTally(serve, amount, calm, tally, b, raw, t, m))
    && (forall b, m, s, t :: KeepsTally(tally, now, b, m, s, t))
  }

  lemma TallyNext(serve: Serve, amount: (Record, Value) -> int, calm: (Cache, Record, int) -> bool,
                  tally: (Cache, int, int) -> bool, b: Cache, r: Request, m: int, t: int, now: int)
    requires Tallies(serve, amount, calm, tally, now) && r.now <= t <= now
    requires tally(b, m, r.now) && calm(b, r.raw, r.now)
    ensures tally(serve(b, r.raw, r.now).cache, m + amount(r.raw, serve(b, r.raw, r.now).reply), t)
  {
    var eff := serve(b, r.raw, r.now);
    assert MovesTally(serve, amount, calm, tally, b, r.raw, r.now, m);
    assert KeepsTally(tally, now, eff.cache, m + amount(r.raw, eff.reply), r.now, t);
  }

  lemma {:induction false} TallyAlong(serve: Serve, amount: (Record, Value) -> int, calm: (Cache, Record, int) -> bool,
                                      tally: (Cache, int, int) -> bool, c: Cache, run: seq<Request>, start: int,
                                      n: nat, now: int)
    requires n <= |run| && Tallies(serve, amount, calm, tally, now) && InTime(run, now)
    requires CalmRun(serve, calm, c, run)
    requires tally(c, start, TimeOf(run, now, 0))
    ensures tally(StateBy(serve, c, run, n), start + Total(serve, amount, c, run, n), TimeOf(run, now, n))
  {
    if n > 0 {
      var m: nat := n - 1;
      TallyAlong(serve, amount, calm, tally, c, run, start, m, now);
      var b, r := StateBy(serve, c, run, m), run[m];
      assert CalmAt(serve, calm, c, run, m);
      assert NextInTime(run, now, m);
      TallyNext(serve, amount, calm, tally, b, r, start + Total(serve, amount, c, run, m), TimeOf(run, now, m + 1), now);
    }
  }

  /** The store is well formed, and at this moment the counter stands at `n`. */
  ghost predicate CounterAt(c: Cache, k: Key, n: int, deadline: Option<int>, now: int) {
    WF(c) && Stands(There(c, k, now), n, deadline)
  }

  /** A request that does nothing to the counter but add to it, and does not evict it. */
  ghost predicate CountsOnly(c: Cache, cfg: Config, raw: Record, now: int, k: Key) {
    LeavesCount(raw, k) && k !in Dispatch(c, cfg, raw, now).evicted
  }

  lemma RequestMoves(cfg: Config, c: Cache, raw: Record, now: int, k: Key, n: int, deadline: Option<int>, eff: Effect)
    requires CounterAt(c, k, n, deadline, now) && LeavesCount(raw, k)
    requires eff == Dispatch(c, cfg, raw, now) && k !in eff.evicted
    ensures CounterAt(eff.cache, k, n + Added(raw, eff.reply, k), deadline, now)
  {
    DispatchWF(c, cfg, raw, now);
    CountStep(c, cfg, raw, k, n, deadline, now, eff);
  }

  lemma CounterLater(c: Cache, k: Key, n: int, deadline: Option<int>, s: int, t: int)
    requires CounterAt(c, k, n, deadline, s) && s <= t && NotYet(t, deadline)
    ensures CounterAt(c, k, n, deadline, t)
  {
    ThereLater(c, k, s, t);
  }

  /** What a request adds to this counter. */
  function AddedTo(k: Key): (Record, Value) -> int {
    (raw, reply) => Added(raw, reply, k)
  }

  /** Requests that leave this counter to count. */
  ghost function CalmFor(cfg: Config, k: Key): (Cache, Record, int) -> bool {
    (c, raw, now) => CountsOnly(c, cfg, raw, now, k)
  }

  ghost function TallyFor(k: Key, deadline: Option<int>): (Cache, int, int) -> bool {
    (c, n, now) => CounterAt(c, k, n, deadline, now)
  }

  lemma RequestTallies(cfg: Config, b: Cache, raw: Record, t: int, k: Key, m: int, deadline: Option<int>)
    ensures MovesTally(ServedUnder(cfg), AddedTo(k), CalmFor(cfg, k), TallyFor(k, deadline), b, raw, t, m)
  {
    if TallyFor(k, deadline)(b, m, t) && CalmFor(cfg, k)(b, raw, t) {
      RequestMoves(cfg, b, raw, t, k, m, deadline, ServedUnder(cfg)(b, raw, t));
    }
  }

  lemma TallyKeeps(b: Cache, k: Key, m: int, deadline: Option<int>, s: int, t: int, now: int)
    requires NotYet(now, deadline)
    ensures KeepsTally(TallyFor(k, deadline), now, b, m, s, t)
  {
    if TallyFor(k, deadline)(b, m, s) && s <= t <= now {
      CounterLater(b, k, m, deadline, s, t);
    }
  }

  lemma CounterTallies(cfg: Config, k: Key, deadline: Option<int>, now: int)
    requires NotYet(now, deadline)
    ensures Tallies(ServedUnder(cfg), AddedTo(k), CalmFor(cfg, k), TallyFor(k, deadline), now)
  {
    forall b, raw, t, m
      ensures MovesTally(ServedUnder(cfg), AddedTo(k), CalmFor(cfg, k), TallyFor(k, deadline), b, raw, t, m)
    {
      RequestTallies(cfg, b, raw, t, k, m, deadline);
    }
    forall b, m, s, t ensures KeepsTally(TallyFor(k, deadline), now, b, m, s, t) {
      TallyKeeps(b, k, m, deadline, s, t, now);
    }
  }

  lemma TallyMeans(c: Cache, k: Key, n: int, deadline: Option<int>, now: int)
    ensures TallyFor(k, deadline)(c, n, now) <==> CounterAt(c, k, n, deadline, now)
  {
  }

  /** Every request of the run leaves the counter to count, in the state it meets. */
  ghost predicate CalmRun(serve: Serve, calm: (Cache, Record, int) -> bool, c: Cache, run: seq<Request>) {
    forall i: nat :: i < |run| ==> CalmAt(serve, calm, c, run, i)
  }

  ghost predicate CalmAt(serve: Serve, calm: (Cache, Record, int) -> bool, c: Cache, run: seq<Request>, i: nat)
    requires i < |run|
  {
    calm(StateBy(serve, c, run, i), run[i].raw, run[i].now)
  }

  lemma WholeRun(c: Cache, cfg: Config, run: seq<Request>)
    ensures StateBy(ServedUnder(cfg), c, run, |run|) == PrimaryAfter(c, cfg, run)
  {
    SameStates(c, cfg, run, |run|);
    assert run[..|run|] == run;
  }

  lemma CountsAlong(serve: Serve, c: Cache, run: seq<Request>, k: Key, start: int, deadline: Option<int>, now: int,
                    calm: (Cache, Record, int) -> bool, end: Cache)
    requires InTime(run, now) && CounterAt(c, k, start, deadline, TimeOf(run, now, 0))
    requires CalmRun(serve, calm, c, run) && Tallies(serve, AddedTo(k), calm, TallyFor(k, deadline), now)
    requires end == StateBy(serve, c, run, |run|)
    ensures CounterAt(end, k, start + Total(serve, AddedTo(k), c, run, |run|), deadline, now)
  {
    TallyMeans(c, k, start, deadline, TimeOf(run, now, 0));
    TallyAlong(serve, AddedTo(k), calm, TallyFor(k, deadline), c, run, start, |run|, now);
    TallyMeans(end, k, start + Total(serve, AddedTo(k), c, run, |run|), deadline, now);
  }

  /** What the answered requests of the run added to the counter. */
  ghost function AddedBy(c: Cache, cfg: Config, run: seq<Request>, k: Key): int {
    Total(ServedUnder(cfg), AddedTo(k), c, run, |run|)
  }

  /** Every request of the run leaves the counter alone but for adding to it, and none evicts it. */
  ghost predicate LeftToCount(c: Cache, cfg: Config, run: seq<Request>, k: Key) {
    CalmRun(ServedUnder(cfg), CalmFor(cfg, k), c, run)
  }

  lemma CountsInAll(c: Cache, cfg: Config, run: seq<Request>, k: Key, start: int, deadline: Option<int>, now: int,
                    end: Cache)
    requires InTime(run, now) && NotYet(now, deadline) && CounterAt(c, k, start, deadline, TimeOf(run, now, 0))
    requires LeftToCount(c, cfg, run, k) && end == StateBy(ServedUnder(cfg), c, run, |run|)
    ensures CounterAt(end, k, start + AddedBy(c, cfg, run, k), deadline, now)
  {
    CounterTallies(cfg, k, deadline, now);
    CountsAlong(ServedUnder(cfg), c, run, k, start, deadline, now, CalmFor(cfg, k), end);
  }

  /**
   * Counter exactness for clients. Over any run of requests that leave the counter alone except for INCR,
   * DECR, INCRBY and DECRBY, under any cap as long as it is not evicted, and at any moment before its
   * deadline: the stored text denotes the starting value plus the sum of the amounts that the answered
   * requests named, it has 64 bits, and the deadline is the one it started with.
   */
  lemma RunCounts(c: Cache, cfg: Config, run: seq<Request>, k: Key, start: int, deadline: Option<int>, now: int)
    requires InTime(run, now) && NotYet(now, deadline) && CounterAt(c, k, start, deadline, TimeOf(run, now, 0))
    requires LeftToCount(c, cfg, run, k)
    ensures CounterAt(PrimaryAfter(c, cfg, run), k, start + AddedBy(c, cfg, run, k), deadline, now)
  {
    WholeRun(c, cfg, run);
    CountsInAll(c, cfg, run, k, start, deadline, now, PrimaryAfter(c, cfg, run));
  }
}

/** Counters kept as decimal text: exactness over any run of operations. */
module Counters {
  import opened Base
  import opened Decimal
  import opened CacheModel
  import opened SweepLaws
  import opened LruLaws

  /** An operation that neither overwrites, deletes nor re-times the counter; increments are welcome. */
  predicate LeavesAlone(op: Op, k: Key) {
    match op
    case Set(x, _, _) => x != k
    case Delete(x) => x != k
    case ExpireAt(x, _) => x != k
    case Persist(x) => x != k
    case Flush => false
    case _ => true
  }

  /** The amount an operation adds to the counter. */
  function Added(op: Op, reply: Reply, k: Key): int {
    if op.Incr? && op.key == k && reply.Number? then op.delta else 0
  }

  /** Eviction keeps every live key that is not a victim, entry and all. */
  lemma EvictKeeps(c: Cache, cfg: Config, k: Key, now: int)
    requires WF(c) && IsLive(c, k, now) && k !in Evict(c, cfg, now).victims
    ensures k in Evict(c, cfg, now).cache.entries && Evict(c, cfg, now).cache.entries[k] == c.entries[k]
  {
    if cfg.lru && Over(c, cfg) {
      var p := Prune(c, now);
      RestrictWF(c, LiveKeys(c, now));
      VictimsArePrefix(p, cfg);
      var n := |EvictLoop(p, cfg).victims|;
      assert p.order == p.order[..n] + p.order[n..];
      assert k in p.order;
    }
  }

  /** A write to another key keeps the counter, unless the counter is evicted. */
  lemma OtherWriteKeeps(c: Cache, cfg: Config, k: Key, x: Key, v: Bytes, deadline: Option<int>, now: int)
    requires WF(c) && IsLive(c, k, now) && x != k
    requires k !in Evict(Put(c, x, NewEntry(x, v, deadline)), cfg, now).victims
    ensures var r := Evict(Put(c, x, NewEntry(x, v, deadline)), cfg, now).cache;
            k in r.entries && r.entries[k] == c.entries[k]
  {
    var e := NewEntry(x, v, deadline);
    PutWF(c, x, e);
    EvictKeeps(Put(c, x, e), cfg, k, now);
  }

  lemma OtherIncrKeeps(c: Cache, cfg: Config, k: Key, x: Key, delta: int, now: int)
    requires WF(c) && IsLive(c, k, now) && x != k && k !in DoIncr(c, cfg, x, delta, now).evicted
    ensures var r := DoIncr(c, cfg, x, delta, now).cache; k in r.entries && r.entries[k] == c.entries[k]
  {
    var d := DropIfExpired(c, x, now);
    DropIfExpiredWF(c, x, now);
    var out := DoIncr(c, cfg, x, delta, now);
    assert IsLive(d, k, now) && d.entries[k] == c.entries[k];
    if out.reply.Number? {
      var kept := if x in d.entries then d.entries[x].deadline else None;
      var text := IntText(out.reply.n);
      var written := Evict(Put(d, x, NewEntry(x, text, kept)), cfg, now);
      assert out.cache == written.cache && out.evicted == written.victims;
      OtherWriteKeeps(d, cfg, k, x, text, kept, now);
    } else {
      assert out.cache == d;
    }
  }

  lemma StoredIntText(n: int)
    requires Int64(n)
    ensures StoredInt(IntText(n)) == Some(n)
  {
    IntTextRoundTrip(n);
  }

  /** A counter: the integer its text denotes, if any, and its deadline. */
  datatype Counter = Counter(number: Option<int>, deadline: Option<int>)

  /** The counter stored at `k`, if the key is present. */
  function Reading(c: Cache, k: Key): Option<Counter> {
    if k in c.entries then Some(Counter(StoredInt(c.entries[k].value), c.entries[k].deadline)) else None
  }

  function Exactly(n: int, deadline: Option<int>): Option<Counter> {
    Some(Counter(Some(n), deadline))
  }

  lemma ReadsSame(c: Cache, d: Cache, k: Key, n: int, deadline: Option<int>)
    requires Reading(c, k) == Exactly(n, deadline) && k in d.entries && d.entries[k] == c.entries[k]
    ensures Reading(d, k) == Exactly(n, deadline) && Int64(n)
  {
  }

  lemma ReadsText(d: Cache, k: Key, n: int, deadline: Option<int>)
    requires Int64(n) && k in d.entries && d.entries[k] == NewEntry(k, IntText(n), deadline)
    ensures Reading(d, k) == Exactly(n, deadline)
  {
    StoredIntText(n);
  }

  /** Incrementing a live counter replaces its text by that of the sum, and keeps its deadline. */
  lemma IncrCounter(c: Cache, cfg: Config, k: Key, delta: int, now: int, n: int, deadline: Option<int>)
    requires WF(c) && Reading(c, k) == Exactly(n, deadline) && IsLive(c, k, now)
    ensures var out := DoIncr(c, cfg, k, delta, now);
            if Int64(n + delta) then
              out.reply == Number(n + delta) && k in out.cache.entries &&
              out.cache.entries[k] == NewEntry(k, IntText(n + delta), deadline)
            else out.reply == Rejected(Overflow) && out.cache == c
  {
    if Int64(n + delta) {
      WrittenKeySurvives(c, cfg, k, NewEntry(k, IntText(n + delta), deadline), now);
    }
  }

  /** Operations that write no value keep the counter's entry. */
  lemma QuietStep(c: Cache, cfg: Config, op: Op, now: int, k: Key)
    requires IsLive(c, k, now) && LeavesAlone(op, k) && !op.Set? && !op.Incr?
    ensures var r := Step(c, cfg, op, now).cache; k in r.entries && r.entries[k] == c.entries[k]
  {
  }

  lemma OwnIncrStep(c: Cache, cfg: Config, k: Key, delta: int, now: int, n: int, deadline: Option<int>)
    requires WF(c) && Reading(c, k) == Exactly(n, deadline) && IsLive(c, k, now)
    ensures var out := DoIncr(c, cfg, k, delta, now); var sum := if out.reply.Number? then n + delta else n;
            Reading(out.cache, k) == Exactly(sum, deadline) && Int64(sum)
  {
    var out := DoIncr(c, cfg, k, delta, now);
    IncrCounter(c, cfg, k, delta, now, n, deadline);
    if Int64(n + delta) {
      ReadsText(out.cache, k, n + delta, deadline);
    } else {
      ReadsSame(c, out.cache, k, n, deadline);
    }
  }

  lemma CounterStep(c: Cache, cfg: Config, op: Op, now: int, out: Out, k: Key, n: int, deadline: Option<int>)
    requires WF(c) && Reading(c, k) == Exactly(n, deadline) && IsLive(c, k, now)
    requires out == Step(c, cfg, op, now) && LeavesAlone(op, k) && k !in out.evicted
    ensures Reading(out.cache, k) == Exactly(n + Added(op, out.reply, k), deadline) &&
            Int64(n + Added(op, out.reply, k))
  {
    if op.Incr? && op.key == k {
      OwnIncrStep(c, cfg, k, op.delta, now, n, deadline);
    } else {
      OtherStep(c, cfg, op, now, k);
      ReadsSame(c, out.cache, k, n, deadline);
    }
  }

  lemma OtherStep(c: Cache, cfg: Config, op: Op, now: int, k: Key)
    requires WF(c) && IsLive(c, k, now) && LeavesAlone(op, k) && !(op.Incr? && op.key == k)
    requires k !in Step(c, cfg, op, now).evicted
    ensures var r := Step(c, cfg, op, now).cache; k in r.entries && r.entries[k] == c.entries[k]
  {
    if op.Set? {
      OtherWriteKeeps(c, cfg, k, op.key, op.value, Deadline(op.ttl, now), now);
    } else if op.Incr? {
      OtherIncrKeeps(c, cfg, k, op.key, op.delta, now);
    } else {
      QuietStep(c, cfg, op, now, k);
    }
  }

  /** The state before step `n` of a run whose outcomes are `outs`. */
  function StateAt(c: Cache, outs: seq<Out>, n: nat): Cache
    requires n <= |outs|
  {
    if n == 0 then c else outs[n - 1].cache
  }

  /** Sum of the successful increments among the first `n` operations. */
  function TotalAdded(run: seq<Timed>, outs: seq<Out>, k: Key, n: nat): int
    requires n <= |run| == |outs|
  {
    if n == 0 then 0 else TotalAdded(run, outs, k, n - 1) + Added(run[n - 1].op, outs[n - 1].reply, k)
  }

  /** Step `n` of the run had this outcome, left the counter alone, and neither outlived nor evicted it. */
  ghost predicate CalmMoment(c: Cache, cfg: Config, run: seq<Timed>, outs: seq<Out>, k: Key, deadline: Option<int>,
                             n: nat)
    requires n < |run| == |outs|
  {
    && outs[n] == Step(StateAt(c, outs, n), cfg, run[n].op, run[n].now)
    && LeavesAlone(run[n].op, k) && k !in outs[n].evicted && (deadline.Some? ==> run[n].now < deadline.value)
  }

  /** `outs` are the outcomes of a run of a store from `c`, and none of its steps disturbs the counter. */
  ghost predicate CalmRun(c: Cache, cfg: Config, run: seq<Timed>, outs: seq<Out>, k: Key, deadline: Option<int>) {
    |outs| == |run| && forall n: nat :: n < |run| ==> CalmMoment(c, cfg, run, outs, k, deadline, n)
  }

  // The induction over a run is done for an arbitrary step function, so that it never unfolds `Step`.

  type Stepper = (Cache, Op, int) -> Out

  /** The operations of a store under one configuration. */
  function StepOf(cfg: Config): Stepper {
    (b: Cache, op: Op, now: int) => Step(b, cfg, op, now)
  }

  /** The outcome of an operation that leaves the counter alone, before its deadline, without evicting it. */
  ghost predicate CalmStep(step: Stepper, b: Cache, op: Op, now: int, out: Out, k: Key, deadline: Option<int>) {
    && out == step(b, op, now)
    && LeavesAlone(op, k) && k !in out.evicted && (deadline.Some? ==> now < deadline.value)
  }

  ghost predicate CalmAt(step: Stepper, c: Cache, run: seq<Timed>, outs: seq<Out>, k: Key, deadline: Option<int>,
                         n: nat)
    requires n < |run| == |outs|
  {
    CalmStep(step, StateAt(c, outs, n), run[n].op, run[n].now, outs[n], k, deadline)
  }

  /** `outs` are the outcomes of a run from `c`, and none of its steps disturbs the counter. */
  ghost predicate CalmTrace(step: Stepper, c: Cache, run: seq<Timed>, outs: seq<Out>, k: Key, deadline: Option<int>) {
    |outs| == |run| && forall n: nat :: n < |run| ==> CalmAt(step, c, run, outs, k, deadline, n)
  }

  /** The store is well formed and the counter's text denotes the 64-bit integer `m`. */
  ghost predicate StandsAt(b: Cache, k: Key, m: int, deadline: Option<int>) {
    WF(b) && Reading(b, k) == Exactly(m, deadline) && Int64(m)
  }

  /** A calm step moves the counter by what it adds. */
  ghost predicate Advances(step: Stepper, b: Cache, op: Op, now: int, k: Key, m: int, deadline: Option<int>) {
    StandsAt(b, k, m, deadline) && CalmStep(step, b, op, now, step(b, op, now), k, deadline) ==>
      StandsAt(step(b, op, now).cache, k, m + Added(op, step(b, op, now).reply, k), deadline)
  }

  lemma CounterAdvance(cfg: Config, b: Cache, op: Op, now: int, k: Key, m: int, deadline: Option<int>)
    ensures Advances(StepOf(cfg), b, op, now, k, m, deadline)
  {
    var out := Step(b, cfg, op, now);
    if StandsAt(b, k, m, deadline) && CalmStep(StepOf(cfg), b, op, now, out, k, deadline) {
      CounterMoves(cfg, b, op, now, out, k, m, deadline);
    }
  }

  lemma CounterMoves(cfg: Config, b: Cache, op: Op, now: int, out: Out, k: Key, m: int, deadline: Option<int>)
    requires WF(b) && Reading(b, k) == Exactly(m, deadline) && out == Step(b, cfg, op, now)
    requires LeavesAlone(op, k) && k !in out.evicted && (deadline.Some? ==> now < deadline.value)
    ensures StandsAt(out.cache, k, m + Added(op, out.reply, k), deadline)
  {
    StepWF(b, cfg, op, now);
    CounterStep(b, cfg, op, now, out, k, m, deadline);
  }

  lemma {:induction false} CounterTrace(step: Stepper, c: Cache, run: seq<Timed>, outs: seq<Out>, k: Key, start: int,
                                        deadline: Option<int>, n: nat)
    requires forall b, op, now, m :: Advances(step, b, op, now, k, m, deadline)
    requires StandsAt(c, k, start, deadline) && CalmTrace(step, c, run, outs, k, deadline) && n <= |run|
    ensures StandsAt(StateAt(c, outs, n), k, start + TotalAdded(run, outs, k, n), deadline)
  {
    if n > 0 {
      CounterTrace(step, c, run, outs, k, start, deadline, n - 1);
      assert CalmAt(step, c, run, outs, k, deadline, n - 1);
      var b, total := StateAt(c, outs, n - 1), start + TotalAdded(run, outs, k, n - 1);
      assert Advances(step, b, run[n - 1].op, run[n - 1].now, k, total, deadline);
    }
  }

  lemma CalmRunIsTrace(c: Cache, cfg: Config, run: seq<Timed>, outs: seq<Out>, k: Key, deadline: Option<int>)
    requires CalmRun(c, cfg, run, outs, k, deadline)
    ensures CalmTrace(StepOf(cfg), c, run, outs, k, deadline)
  {
    forall n: nat | n < |run| ensures CalmAt(StepOf(cfg), c, run, outs, k, deadline, n) {
      assert CalmMoment(c, cfg, run, outs, k, deadline, n);
    }
  }

  /**
   * Counter exactness. Over any run that leaves the counter alone except for increments, while it
   * neither expires nor is evicted, at every moment the stored text parses to the starting value plus
   * the sum of the successful increments so far, that sum is within 64 bits, and the deadline is kept.
   */
  lemma CounterExact(c: Cache, cfg: Config, run: seq<Timed>, outs: seq<Out>, k: Key, start: int,
                     deadline: Option<int>, n: nat)
    requires StandsAt(c, k, start, deadline) && CalmRun(c, cfg, run, outs, k, deadline) && n <= |run|
    ensures StandsAt(StateAt(c, outs, n), k, start + TotalAdded(run, outs, k, n), deadline)
  {
    CalmRunIsTrace(c, cfg, run, outs, k, deadline);
    forall b, op, now, m ensures Advances(StepOf(cfg), b, op, now, k, m, deadline) {
      CounterAdvance(cfg, b, op, now, k, m, deadline);
    }
    CounterTrace(StepOf(cfg), c, run, outs, k, start, deadline, n);
  }

  /** A rejected increment changes nothing that is alive. */
  lemma RejectedIncrementChangesNothing(c: Cache, cfg: Config, k: Key, delta: int, now: int)
    requires WF(c) && DoIncr(c, cfg, k, delta, now).reply.Rejected?
    ensures Same(DoIncr(c, cfg, k, delta, now).cache, c, now) && DoIncr(c, cfg, k, delta, now).evicted == []
  {
    PruneDropIfExpired(c, k, now);
  }
}

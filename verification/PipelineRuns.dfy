/** What a pipeline does to the stores behind it: each shard runs its part of the requests, in order. */
module PipelineRuns {
  import opened Base
  import opened CacheModel
  import opened Commands
  import opened TimedReplay
  import opened Replication
  import opened NameReadings
  import opened FrontDesk
  import opened Scatter
  import opened Pipelines
  import Resp

  /** The visit is left to the command layer, by the words of the request and the state of the server. */
  ghost predicate Ordinary(cfg: Config, q: Call) {
    q.raw != [] && q.desk.authed && !DeskName(q.raw) && !Turned(VisitOf(Seat(EMPTY, true), cfg, q))
  }

  ghost predicate AllOrdinary(cfg: Config, calls: seq<Call>) {
    forall i :: 0 <= i < |calls| ==> Ordinary(cfg, calls[i])
  }

  /** The request that the command layer is given. */
  function RequestOf(q: Call): Request {
    Request(Heard(q.desk.reading, q.raw), q.now)
  }

  function Requests(calls: seq<Call>): (run: seq<Request>)
    ensures |run| == |calls| && forall i :: 0 <= i < |calls| ==> run[i] == RequestOf(calls[i])
  {
    seq(|calls|, i requires 0 <= i < |calls| => RequestOf(calls[i]))
  }

  /**
   * What a shard does with one call on an open connection: an ordinary one is run on its store and
   * answered; any other changes no store, and only QUIT, or a SYNC that is served, ends the dialogue.
   */
  lemma CallServed(cfg: Config, seat: Seat, q: Call)
    requires seat.open && q.raw != []
    ensures var after := ServeOn(cfg)(seat, q); var eff := Dispatch(seat.cache, cfg, RequestOf(q).raw, q.now);
            if Ordinary(cfg, q) then after == (Seat(eff.cache, true), Some(eff.reply))
            else after.0.cache == seat.cache &&
                 (after.0.open <==> !Named(q.raw, "QUIT") && !BecomesReplica(VisitOf(seat, cfg, q)))
  {
    var v := VisitOf(seat, cfg, q);
    PassedOnIff(v);
    DeskWords(q.raw[0]);
  }

  lemma {:induction false} RunReplyAt<C, S, R>(exec: (S, C) -> (S, R), s: S, cmds: seq<C>, i: nat)
    requires i < |cmds|
    ensures var ran := RunShard(exec, s, cmds);
            |ran.replies| == |cmds| && ran.replies[i] == exec(RunShard(exec, s, cmds[..i]).state, cmds[i]).1
  {
    var n := |cmds| - 1;
    RunShardLength(exec, s, cmds[..n]);
    if i < n {
      RunReplyAt(exec, s, cmds[..n], i);
      assert cmds[..n][..i] == cmds[..i];
    }
  }

  lemma OneMoreRequest(cfg: Config, c: Cache, calls: seq<Call>)
    requires calls != []
    ensures var n := |calls| - 1; var q := RequestOf(calls[n]);
            PrimaryAfter(c, cfg, Requests(calls)) ==
              Dispatch(PrimaryAfter(c, cfg, Requests(calls[..n])), cfg, q.raw, q.now).cache
  {
    var n := |calls| - 1;
    assert Requests(calls)[..n] == Requests(calls[..n]);
  }

  /** The store after calls that a shard serves one after the other. */
  lemma {:induction false} ShardState(cfg: Config, c: Cache, calls: seq<Call>)
    requires AllOrdinary(cfg, calls)
    ensures RunShard(ServeOn(cfg), Seat(c, true), calls).state == Seat(PrimaryAfter(c, cfg, Requests(calls)), true)
  {
    if calls != [] {
      var n := |calls| - 1;
      assert AllOrdinary(cfg, calls[..n]);
      ShardState(cfg, c, calls[..n]);
      CallServed(cfg, Seat(PrimaryAfter(c, cfg, Requests(calls[..n])), true), calls[n]);
      OneMoreRequest(cfg, c, calls);
    }
  }

  lemma ShardReply(cfg: Config, c: Cache, calls: seq<Call>, i: nat)
    requires AllOrdinary(cfg, calls) && i < |calls|
    ensures var ran := RunShard(ServeOn(cfg), Seat(c, true), calls);
            |ran.replies| == |calls| && ran.replies[i] == Some(ReplyTo(cfg, c, calls, i))
  {
    RunReplyAt(ServeOn(cfg), Seat(c, true), calls, i);
    assert AllOrdinary(cfg, calls[..i]);
    ShardState(cfg, c, calls[..i]);
    CallServed(cfg, Seat(PrimaryAfter(c, cfg, Requests(calls[..i])), true), calls[i]);
  }

  /** The reply of the command layer to call `i`, on the store after the calls before it. */
  function ReplyTo(cfg: Config, c: Cache, calls: seq<Call>, i: nat): Resp.Value
    requires i < |calls|
  {
    var q := RequestOf(calls[i]);
    Dispatch(PrimaryAfter(c, cfg, Requests(calls[..i])), cfg, q.raw, q.now).reply
  }

  /**
   * A pipeline of ordinary requests over open connections, whatever the interleaving of its batches: every
   * shard ends with its store after its own part of the requests, run one by one in submission order, and
   * each of them is answered what the command layer answers there.
   */
  lemma PipelineRunsRequests(cfg: Config, route: Call -> Node, seats: map<Node, Seat>, cmds: seq<Call>, n: Node)
    requires Routed(route, seats, cmds) && n in seats && seats[n].open && AllOrdinary(cfg, Batch(route, cmds, n))
    ensures var all := OneByOne(ServeOn(cfg), route, seats, cmds);
            var mine := Batch(route, cmds, n);
            && all.shards[n] == Seat(PrimaryAfter(seats[n].cache, cfg, Requests(mine)), true)
            && forall p :: 0 <= p < |mine| ==>
                 all.replies[Indexes(route, cmds, n)[p]] == Some(ReplyTo(cfg, seats[n].cache, mine, p))
  {
    ShardView(ServeOn(cfg), route, seats, cmds, n);
    var mine, c := Batch(route, cmds, n), seats[n].cache;
    assert seats[n] == Seat(c, true);
    ShardState(cfg, c, mine);
    forall p | 0 <= p < |mine|
      ensures OneByOne(ServeOn(cfg), route, seats, cmds).replies[Indexes(route, cmds, n)[p]] ==
              Some(ReplyTo(cfg, c, mine, p))
    {
      ShardReply(cfg, c, mine, p);
    }
  }
}

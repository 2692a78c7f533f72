/**
 * Pipelines over shards: commands are grouped by owner, each shard runs its group in order, the
 * groups interleave freely, and replies are put back in submission order.
 */
module Scatter {
  import opened Base

  type Node = Bytes

  /** Outcome of running commands one after the other on one shard. */
  datatype Ran<S, R> = Ran(state: S, replies: seq<R>)

  function RunShard<C, S, R>(exec: (S, C) -> (S, R), s: S, cmds: seq<C>): Ran<S, R> {
    if cmds == [] then Ran(s, [])
    else
      var before := RunShard(exec, s, cmds[..|cmds| - 1]);
      var out := exec(before.state, cmds[|cmds| - 1]);
      Ran(out.0, before.replies + [out.1])
  }

  lemma {:induction false} RunShardLength<C, S, R>(exec: (S, C) -> (S, R), s: S, cmds: seq<C>)
    ensures |RunShard(exec, s, cmds).replies| == |cmds|
  {
    if cmds != [] {
      RunShardLength(exec, s, cmds[..|cmds| - 1]);
    }
  }

  /** Positions of the commands a node owns, in submission order. */
  function Indexes<C>(route: C -> Node, cmds: seq<C>, n: Node): (ix: seq<nat>)
    ensures forall p :: 0 <= p < |ix| ==> ix[p] < |cmds| && route(cmds[ix[p]]) == n
    ensures forall p, q :: 0 <= p < q < |ix| ==> ix[p] < ix[q]
  {
    if cmds == [] then []
    else
      var before, last := cmds[..|cmds| - 1], cmds[|cmds| - 1];
      Indexes(route, before, n) + (if route(last) == n then [|before|] else [])
  }

  /** The commands a node owns, in submission order. */
  function Batch<C>(route: C -> Node, cmds: seq<C>, n: Node): seq<C> {
    var ix := Indexes(route, cmds, n);
    seq(|ix|, p requires 0 <= p < |ix| => cmds[ix[p]])
  }

  lemma BatchStep<C>(route: C -> Node, cmds: seq<C>, n: Node)
    requires cmds != []
    ensures var before, last := cmds[..|cmds| - 1], cmds[|cmds| - 1];
            Batch(route, cmds, n) == Batch(route, before, n) + (if route(last) == n then [last] else [])
  {
  }

  /* ----- the reference: one command at a time ----- */

  /** All shards, and all replies in submission order, after running commands one at a time. */
  datatype Sequential<S, R> = Sequential(shards: map<Node, S>, replies: seq<R>)

  ghost predicate Routed<C, S>(route: C -> Node, shards: map<Node, S>, cmds: seq<C>) {
    forall i :: 0 <= i < |cmds| ==> route(cmds[i]) in shards
  }

  ghost function OneByOne<C, S, R>(exec: (S, C) -> (S, R), route: C -> Node, shards: map<Node, S>,
                                   cmds: seq<C>): (r: Sequential<S, R>)
    requires Routed(route, shards, cmds)
    ensures r.shards.Keys == shards.Keys && |r.replies| == |cmds|
  {
    if cmds == [] then Sequential(shards, [])
    else
      var before := OneByOne(exec, route, shards, cmds[..|cmds| - 1]);
      var n := route(cmds[|cmds| - 1]);
      var out := exec(before.shards[n], cmds[|cmds| - 1]);
      Sequential(before.shards[n := out.0], before.replies + [out.1])
  }

  /** Seen from one shard, running everything one at a time is running its own commands in order. */
  lemma {:induction false} ShardView<C, S, R>(exec: (S, C) -> (S, R), route: C -> Node, shards: map<Node, S>,
                                              cmds: seq<C>, n: Node)
    requires Routed(route, shards, cmds) && n in shards
    ensures var all := OneByOne(exec, route, shards, cmds);
            var mine := RunShard(exec, shards[n], Batch(route, cmds, n));
            all.shards[n] == mine.state && |mine.replies| == |Indexes(route, cmds, n)| &&
            forall p :: 0 <= p < |mine.replies| ==> mine.replies[p] == all.replies[Indexes(route, cmds, n)[p]]
  {
    if cmds != [] {
      var before, last := cmds[..|cmds| - 1], cmds[|cmds| - 1];
      ShardView(exec, route, shards, before, n);
      BatchStep(route, cmds, n);
      var batch := Batch(route, before, n);
      if route(last) == n {
        assert (batch + [last])[..|batch|] == batch;
      } else {
        assert batch + [] == batch;
      }
    }
  }

  /* ----- any interleaving of the batches ----- */

  /** How far each batch has got, the shards, and the replies each connection has delivered. */
  datatype Progress<S, R> = Progress(shards: map<Node, S>, replies: map<Node, seq<R>>)

  /** The next command of a node's batch is run by its shard, if any is left. */
  ghost function Serve<C, S, R>(exec: (S, C) -> (S, R), route: C -> Node, cmds: seq<C>, p: Progress<S, R>,
                                n: Node): Progress<S, R> {
    if n in p.shards && n in p.replies && |p.replies[n]| < |Batch(route, cmds, n)| then
      var out := exec(p.shards[n], Batch(route, cmds, n)[|p.replies[n]|]);
      Progress(p.shards[n := out.0], p.replies[n := p.replies[n] + [out.1]])
    else p
  }

  ghost function Interleave<C, S, R>(exec: (S, C) -> (S, R), route: C -> Node, shards: map<Node, S>, cmds: seq<C>,
                                     schedule: seq<Node>): Progress<S, R> {
    if schedule == [] then Progress(shards, map n | n in shards :: [])
    else Serve(exec, route, cmds, Interleave(exec, route, shards, cmds, schedule[..|schedule| - 1]),
      schedule[|schedule| - 1])
  }

  ghost predicate OnTrack<C, S, R>(exec: (S, C) -> (S, R), route: C -> Node, shards: map<Node, S>, cmds: seq<C>,
                                   p: Progress<S, R>, n: Node)
    requires n in shards
  {
    && n in p.shards && n in p.replies && |p.replies[n]| <= |Batch(route, cmds, n)|
    && RunShard(exec, shards[n], Batch(route, cmds, n)[..|p.replies[n]|]) == Ran(p.shards[n], p.replies[n])
  }

  lemma {:induction false} InterleaveOnTrack<C, S, R>(exec: (S, C) -> (S, R), route: C -> Node, shards: map<Node, S>,
                                                      cmds: seq<C>, schedule: seq<Node>, n: Node)
    requires n in shards
    ensures OnTrack(exec, route, shards, cmds, Interleave(exec, route, shards, cmds, schedule), n)
    ensures Interleave(exec, route, shards, cmds, schedule).shards.Keys == shards.Keys
    ensures Interleave(exec, route, shards, cmds, schedule).replies.Keys == shards.Keys
  {
    if schedule == [] {
      assert Batch(route, cmds, n)[..0] == [];
    } else {
      InterleaveOnTrack(exec, route, shards, cmds, schedule[..|schedule| - 1], n);
      var p := Interleave(exec, route, shards, cmds, schedule[..|schedule| - 1]);
      var batch := Batch(route, cmds, n);
      if schedule[|schedule| - 1] == n && |p.replies[n]| < |batch| {
        var k := |p.replies[n]|;
        assert batch[..k + 1][..k] == batch[..k];
      }
    }
  }

  /** Every batch has been served to its end. */
  ghost predicate Complete<C, S, R>(route: C -> Node, shards: map<Node, S>, cmds: seq<C>, p: Progress<S, R>) {
    forall n :: n in shards && n in p.replies ==> |p.replies[n]| >= |Batch(route, cmds, n)|
  }

  /**
   * Pipelines preserve meaning: however the batches interleave, once all are served every shard is in
   * the state, and every reply is the one, of running the commands one at a time.
   */
  lemma PipelineIsSequential<C, S, R>(exec: (S, C) -> (S, R), route: C -> Node, shards: map<Node, S>, cmds: seq<C>,
                                      schedule: seq<Node>)
    requires Routed(route, shards, cmds)
    requires Complete(route, shards, cmds, Interleave(exec, route, shards, cmds, schedule))
    ensures var p := Interleave(exec, route, shards, cmds, schedule); var all := OneByOne(exec, route, shards, cmds);
            p.shards == all.shards &&
            forall n :: n in shards ==> n in p.replies && Delivered(route, cmds, n, p.replies[n], all.replies)
  {
    var p := Interleave(exec, route, shards, cmds, schedule);
    var all := OneByOne(exec, route, shards, cmds);
    InterleaveKeys(exec, route, shards, cmds, schedule);
    forall n | n in shards ensures p.shards[n] == all.shards[n] &&
      Delivered(route, cmds, n, p.replies[n], all.replies) {
      InterleaveOnTrack(exec, route, shards, cmds, schedule, n);
      ShardView(exec, route, shards, cmds, n);
      var batch := Batch(route, cmds, n);
      assert batch[..|p.replies[n]|] == batch;
    }
  }

  lemma {:induction false} InterleaveKeys<C, S, R>(exec: (S, C) -> (S, R), route: C -> Node, shards: map<Node, S>,
                                                   cmds: seq<C>, schedule: seq<Node>)
    ensures Interleave(exec, route, shards, cmds, schedule).shards.Keys == shards.Keys
    ensures Interleave(exec, route, shards, cmds, schedule).replies.Keys == shards.Keys
  {
    if schedule != [] {
      InterleaveKeys(exec, route, shards, cmds, schedule[..|schedule| - 1]);
    }
  }

  /** The replies of one connection are the reference replies at that node's positions. */
  ghost predicate Delivered<C, R>(route: C -> Node, cmds: seq<C>, n: Node, got: seq<R>, want: seq<R>) {
    var ix := Indexes(route, cmds, n);
    |got| == |ix| && |want| == |cmds| && forall p :: 0 <= p < |ix| ==> got[p] == want[ix[p]]
  }

  /* ----- grouping and gathering, as they are written ----- */

  /** Each node that owns a command maps to its positions; no other node is present. */
  ghost predicate Grouped<C(!new)>(route: C -> Node, cmds: seq<C>, groups: map<Node, seq<nat>>) {
    forall n {:trigger n in groups} ::
      (n in groups <==> Indexes(route, cmds, n) != []) && (n in groups ==> groups[n] == Indexes(route, cmds, n))
  }

  lemma IndexesNext<C>(route: C -> Node, cmds: seq<C>, i: nat, n: Node)
    requires i < |cmds|
    ensures Indexes(route, cmds[..i + 1], n) ==
            Indexes(route, cmds[..i], n) + (if route(cmds[i]) == n then [i] else [])
  {
    assert cmds[..i + 1][..i] == cmds[..i];
  }

  lemma GroupOne<C(!new)>(route: C -> Node, cmds: seq<C>, i: nat, groups: map<Node, seq<nat>>)
    requires i < |cmds| && Grouped(route, cmds[..i], groups)
    ensures var n := route(cmds[i]); var mine := if n in groups then groups[n] else [];
            Grouped(route, cmds[..i + 1], groups[n := mine + [i]])
  {
    var n := route(cmds[i]);
    var mine := if n in groups then groups[n] else [];
    var more := groups[n := mine + [i]];
    forall m ensures (m in more <==> Indexes(route, cmds[..i + 1], m) != []) &&
      (m in more ==> more[m] == Indexes(route, cmds[..i + 1], m)) {
      IndexesNext(route, cmds, i, m);
      assert m in groups <==> Indexes(route, cmds[..i], m) != [];
    }
  }

  /** The grouping loop: `groups.setdefault(node, []).append(i)`. */
  method Group<C(!new)>(route: C -> Node, cmds: seq<C>) returns (groups: map<Node, seq<nat>>)
    ensures Grouped(route, cmds, groups)
  {
    groups := map[];
    for i := 0 to |cmds|
      invariant Grouped(route, cmds[..i], groups)
    {
      GroupOne(route, cmds, i, groups);
      var n := route(cmds[i]);
      var mine := if n in groups then groups[n] else [];
      groups := groups[n := mine + [i]];
    }
    assert cmds[..|cmds|] == cmds;
  }

  /** The positions of a group are filled from its replies; no other position changes. */
  method Fill<R>(results: seq<Option<R>>, ix: seq<nat>, replies: seq<R>) returns (filled: seq<Option<R>>)
    requires |replies| == |ix| && forall p :: 0 <= p < |ix| ==> ix[p] < |results|
    requires forall p, q :: 0 <= p < q < |ix| ==> ix[p] < ix[q]
    ensures |filled| == |results|
    ensures forall p :: 0 <= p < |ix| ==> filled[ix[p]] == Some(replies[p])
    ensures forall i :: 0 <= i < |results| && i !in ix ==> filled[i] == results[i]
  {
    filled := results;
    for p := 0 to |ix|
      invariant |filled| == |results|
      invariant forall q :: 0 <= q < p ==> filled[ix[q]] == Some(replies[q])
      invariant forall i :: 0 <= i < |results| && i !in ix ==> filled[i] == results[i]
    {
      filled := filled[ix[p] := Some(replies[p])];
    }
  }

  /** Every position is among those of its owner. */
  lemma {:induction false} EveryPositionIndexed<C>(route: C -> Node, cmds: seq<C>, i: nat) returns (p: nat)
    requires i < |cmds|
    ensures var ix := Indexes(route, cmds, route(cmds[i])); p < |ix| && ix[p] == i
  {
    var before, n := cmds[..|cmds| - 1], route(cmds[i]);
    IndexesNext(route, cmds, |cmds| - 1, n);
    assert cmds[..|cmds| - 1 + 1] == cmds;
    if i < |before| {
      p := EveryPositionIndexed(route, before, i);
    } else {
      p := |Indexes(route, before, n)|;
    }
  }

  /** Each reply of each group stands at its position. */
  ghost predicate Placed<R>(groups: map<Node, seq<nat>>, replies: map<Node, seq<R>>, results: seq<Option<R>>,
                            done: set<Node>)
    requires forall n :: n in groups ==> n in replies && |replies[n]| == |groups[n]|
  {
    forall n, p :: n in groups && n in done && 0 <= p < |groups[n]| ==>
      groups[n][p] < |results| && results[groups[n][p]] == Some(replies[n][p])
  }

  /** Gathering, group by group in any order: each reply ends up at the position of its command. */
  method Gather<C(!new), R>(route: C -> Node, cmds: seq<C>, groups: map<Node, seq<nat>>, replies: map<Node, seq<R>>)
    returns (results: seq<Option<R>>)
    requires Grouped(route, cmds, groups)
    requires forall n :: n in groups ==> n in replies && |replies[n]| == |groups[n]|
    ensures |results| == |cmds| && Placed(groups, replies, results, groups.Keys)
  {
    results := seq(|cmds|, i => None);
    var left := groups.Keys;
    while left != {}
      invariant left <= groups.Keys && |results| == |cmds|
      invariant Placed(groups, replies, results, groups.Keys - left)
      decreases |left|
    {
      var n :| n in left;
      assert groups[n] == Indexes(route, cmds, n);
      forall m, p | m in groups && m != n && 0 <= p < |groups[m]| ensures groups[m][p] !in groups[n] {
        assert groups[m] == Indexes(route, cmds, m);
      }
      results := Fill(results, groups[n], replies[n]);
      left := left - {n};
    }
    assert groups.Keys - left == groups.Keys;
  }

  lemma OwnersAreShards<C(!new), S>(route: C -> Node, shards: map<Node, S>, cmds: seq<C>, groups: map<Node, seq<nat>>)
    requires Routed(route, shards, cmds) && Grouped(route, cmds, groups)
    ensures forall n :: n in groups ==> n in shards
  {
    forall n | n in groups ensures n in shards {
      assert groups[n] == Indexes(route, cmds, n) && Indexes(route, cmds, n) != [];
      assert route(cmds[Indexes(route, cmds, n)[0]]) == n;
    }
  }

  function Wrapped<R>(s: seq<R>): (w: seq<Option<R>>)
    ensures |w| == |s| && forall i :: 0 <= i < |s| ==> w[i] == Some(s[i])
  {
    seq(|s|, i requires 0 <= i < |s| => Some(s[i]))
  }

  /**
   * Gathered results are the reference in submission order if and only if every group delivered the
   * reference replies at its positions.
   */
  lemma GatheredIff<C(!new), R>(route: C -> Node, cmds: seq<C>, groups: map<Node, seq<nat>>,
                                replies: map<Node, seq<R>>, results: seq<Option<R>>, want: seq<Option<R>>)
    requires Grouped(route, cmds, groups) && |want| == |cmds| == |results|
    requires forall n :: n in groups ==> n in replies && |replies[n]| == |groups[n]|
    requires Placed(groups, replies, results, groups.Keys)
    ensures results == want <==> forall n :: n in groups ==> Delivered(route, cmds, n, Wrapped(replies[n]), want)
  {
    if forall n :: n in groups ==> Delivered(route, cmds, n, Wrapped(replies[n]), want) {
      forall i | 0 <= i < |cmds| ensures results[i] == want[i] {
        var p := EveryPositionIndexed(route, cmds, i);
        var n := route(cmds[i]);
        assert n in groups && groups[n] == Indexes(route, cmds, n);
        assert groups[n][p] == i;
      }
    }
    if results == want {
      forall n | n in groups ensures Delivered(route, cmds, n, Wrapped(replies[n]), want) {
        assert groups[n] == Indexes(route, cmds, n);
      }
    }
  }

  lemma {:induction false} RunShardAppend<C, S, R>(exec: (S, C) -> (S, R), s: S, a: seq<C>, b: seq<C>)
    ensures var first := RunShard(exec, s, a); var then_ := RunShard(exec, first.state, b);
            RunShard(exec, s, a + b) == Ran(then_.state, first.replies + then_.replies)
  {
    if b == [] {
      assert a + b == a;
      assert RunShard(exec, s, a).replies + [] == RunShard(exec, s, a).replies;
    } else {
      var c := b[..|b| - 1];
      RunShardAppend(exec, s, a, c);
      assert (a + b)[..|a + b| - 1] == a + c;
      Regroup(RunShard(exec, s, a).replies, RunShard(exec, RunShard(exec, s, a).state, c).replies,
              [exec(RunShard(exec, s, a + c).state, b[|b| - 1]).1]);
    }
  }
}

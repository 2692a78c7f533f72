/** Reading many keys over the cluster: each position is what a single read of its key returns. */
module ClusterReads {
  import opened Base
  import opened CacheModel
  import opened Commands
  import opened TimedReplay
  import opened PlainMap
  import opened Bounds
  import opened Replies
  import opened Scatter
  import Resp

  lemma LookupDependsOnLive(c: Cache, d: Cache, k: Key, now: int)
    requires Agree(c, d, now)
    ensures DoGet(c, k, now).reply == DoGet(d, k, now).reply
  {
    AgreeAt(c, d, k, now);
  }

  /** Each answer of MGET is the answer of a GET of that key alone. */
  lemma {:induction false} MgetIsGets(c: Cache, keys: seq<Key>, now: int)
    ensures |ExecMget(c, keys, now).1| == |keys|
    ensures forall p :: 0 <= p < |keys| ==> ExecMget(c, keys, now).1[p] == Looked(DoGet(c, keys[p], now).reply)
    decreases |keys|
  {
    if keys != [] {
      var d := DoGet(c, keys[0], now).cache;
      GetKeepsLive(c, keys[0], now, now);
      MgetIsGets(d, keys[1..], now);
      forall p | 0 <= p < |keys| ensures ExecMget(c, keys, now).1[p] == Looked(DoGet(c, keys[p], now).reply) {
        if p > 0 {
          LookupDependsOnLive(c, d, keys[p], now);
          assert keys[p] == keys[1..][p - 1];
        }
      }
    }
  }

  /** What a single GET of each key returns, on the shard that owns it. */
  function SingleGets(route: Key -> Node, shards: map<Node, Cache>, keys: seq<Key>, now: int): seq<Resp.Value>
    requires forall i :: 0 <= i < |keys| ==> route(keys[i]) in shards
  {
    seq(|keys|, i requires 0 <= i < |keys| => Looked(DoGet(shards[route(keys[i])], keys[i], now).reply))
  }

  /** The reply of one shard's MGET is what the single reads give at that shard's positions. */
  lemma MgetDelivered(route: Key -> Node, shards: map<Node, Cache>, keys: seq<Key>, n: Node, now: int)
    requires n in shards && forall i :: 0 <= i < |keys| ==> route(keys[i]) in shards
    ensures Delivered(route, keys, n, ExecMget(shards[n], Batch(route, keys, n), now).1,
                      SingleGets(route, shards, keys, now))
  {
    MgetIsGets(shards[n], Batch(route, keys, n), now);
  }

  /** An MGET of this many keys, with its name, fits the limit on arguments. */
  predicate FitsOneMget(keys: seq<Key>) {
    |keys| < Resp.MAX_ARRAY_LENGTH
  }

  /** What one shard's MGET puts on the wire is read back as its values. */
  lemma MgetReadBack(c: Cache, keys: seq<Key>, now: int)
    requires Bounded(Values(c)) && FitsOneMget(keys)
    ensures var vs := ExecMget(c, keys, now).1;
            Resp.ReadReply(Resp.Encode(Resp.Arr(vs)) + []) == Resp.Got(Resp.Arr(vs), [])
  {
    MgetTransportable(c, keys, now);
    Resp.ReplyRoundTrip(Resp.Arr(ExecMget(c, keys, now).1), []);
  }

  /**
   * `mget`: group, one MGET for each owner, read the replies, gather. It fails if and only if a shard owns
   * so many of the keys that its MGET would exceed the limit on arguments; otherwise each position is what
   * a single GET of its key returns.
   */
  method ClusterMget(route: Key -> Node, shards: map<Node, Cache>, keys: seq<Key>, now: int)
    returns (results: Option<seq<Option<Resp.Value>>>)
    requires forall i :: 0 <= i < |keys| ==> route(keys[i]) in shards
    requires forall n :: n in shards ==> Bounded(Values(shards[n]))
    ensures results.None? <==> exists n :: n in shards && !FitsOneMget(Batch(route, keys, n))
    ensures results.Some? ==>
              |results.value| == |keys| &&
              forall i :: 0 <= i < |keys| ==>
                results.value[i] == Some(Looked(DoGet(shards[route(keys[i])], keys[i], now).reply))
  {
    ghost var want := SingleGets(route, shards, keys, now);
    var groups := Group(route, keys);
    OwnersAreShards(route, shards, keys, groups);
    if n :| n in groups && |groups[n]| >= Resp.MAX_ARRAY_LENGTH {
      assert n in shards && !FitsOneMget(Batch(route, keys, n));
      return None;
    }
    EveryShardFits(route, shards, keys, groups);
    var replies := map n | n in groups :: ReadMget(shards[n], Batch(route, keys, n), now);
    forall n | n in groups
      ensures |replies[n]| == |groups[n]| && Delivered(route, keys, n, Wrapped(replies[n]), Wrapped(want))
    {
      ShardRead(route, shards, keys, n, now);
    }
    var gathered := Gather(route, keys, groups, replies);
    GatheredIff(route, keys, groups, replies, gathered, Wrapped(want));
    results := Some(gathered);
  }

  /** The values the client reads from one shard's reply. */
  function ReadMget(c: Cache, keys: seq<Key>, now: int): seq<Resp.Value> {
    match Resp.ReadReply(Resp.Encode(Resp.Arr(ExecMget(c, keys, now).1)) + [])
    case Got(Arr(items), _) => items
    case _ => []
  }

  lemma EveryShardFits(route: Key -> Node, shards: map<Node, Cache>, keys: seq<Key>, groups: map<Node, seq<nat>>)
    requires Grouped(route, keys, groups) && forall n :: n in groups ==> |groups[n]| < Resp.MAX_ARRAY_LENGTH
    ensures forall n :: n in shards ==> FitsOneMget(Batch(route, keys, n))
  {
    forall n | n in shards ensures FitsOneMget(Batch(route, keys, n)) {
      assert n in groups <==> Indexes(route, keys, n) != [];
    }
  }

  /** What the client reads from one shard is what the single reads give at that shard's positions. */
  lemma ShardRead(route: Key -> Node, shards: map<Node, Cache>, keys: seq<Key>, n: Node, now: int)
    requires n in shards && forall i :: 0 <= i < |keys| ==> route(keys[i]) in shards
    requires Bounded(Values(shards[n])) && FitsOneMget(Batch(route, keys, n))
    ensures var got := ReadMget(shards[n], Batch(route, keys, n), now);
            |got| == |Indexes(route, keys, n)| &&
            Delivered(route, keys, n, Wrapped(got), Wrapped(SingleGets(route, shards, keys, now)))
  {
    MgetDelivered(route, shards, keys, n, now);
    MgetReadBack(shards[n], Batch(route, keys, n), now);
  }
}

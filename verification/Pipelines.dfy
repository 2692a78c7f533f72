/**
 * `_execute_many` over real connections: the batches are served in any interleaving, each connection
 * carries the encoded replies of its batch, and the client reads one reply for each command and puts
 * them in order. A shard may leave commands unanswered, because it closed the connection or streams.
 */
module Pipelines {
  import opened Base
  import opened CacheModel
  import opened Commands
  import opened PlainMap
  import opened Bounds
  import opened Replies
  import opened NameReadings
  import opened FrontDesk
  import opened Scatter
  import Resp

  /* ----- one connection ----- */

  /** The replies that come before the first command left unanswered. */
  function Given(os: seq<Option<Value>>): (vs: seq<Value>)
    ensures |vs| <= |os|
  {
    if os == [] || os[0].None? then [] else [os[0].value] + Given(os[1..])
  }

  predicate AllGiven(os: seq<Option<Value>>) {
    forall i :: 0 <= i < |os| ==> os[i].Some?
  }

  /** The bytes begin with the replies given, and are nothing else if every command was answered. */
  predicate CarriedBy(os: seq<Option<Value>>, stream: Bytes) {
    Resp.EncodeItems(Given(os)) <= stream && (AllGiven(os) ==> stream == Resp.EncodeItems(Given(os)))
  }

  /** An answer that the client reads back. */
  predicate GoodReply(o: Option<Value>) {
    o.Some? && Resp.Transportable(o.value)
  }

  lemma {:induction false} GivenAll(os: seq<Option<Value>>)
    requires AllGiven(os)
    ensures Wrapped(Given(os)) == os
    ensures Resp.AllTransportable(Given(os)) <==> forall i :: 0 <= i < |os| ==> GoodReply(os[i])
  {
    if os != [] {
      var tail := os[1..];
      GivenAll(tail);
      assert Given(os)[1..] == Given(tail);
      HeadAndTail(os);
      if forall i :: 0 <= i < |os| ==> GoodReply(os[i]) {
        forall i | 0 <= i < |tail| ensures GoodReply(tail[i]) {
          assert tail[i] == os[i + 1];
        }
      }
      if GoodReply(os[0]) && forall i :: 0 <= i < |tail| ==> GoodReply(tail[i]) {
        forall i | 0 <= i < |os| ensures GoodReply(os[i]) {
          assert i > 0 ==> os[i] == tail[i - 1];
        }
      }
    }
  }

  /** Reading one batch back gives exactly its replies if and only if every command got a good one. */
  lemma BatchReadRightIff(os: seq<Option<Value>>, stream: Bytes)
    requires CarriedBy(os, stream)
    ensures var r := Resp.ReadReplies(stream, |os|);
            r.Got? && Wrapped(r.value) == os <==> forall i :: 0 <= i < |os| ==> GoodReply(os[i])
  {
    var r := Resp.ReadReplies(stream, |os|);
    if r.Got? && Wrapped(r.value) == os {
      GivenAll(os);
      assert |Given(os)| == |os|;
      assert r.value == Given(os);
      Resp.BatchReadIff(Given(os));
    }
    if forall i :: 0 <= i < |os| ==> GoodReply(os[i]) {
      GivenAll(os);
      assert |Given(os)| == |os|;
      Resp.BatchReadIff(Given(os));
    }
  }

  lemma BatchDeliveredIff<C>(route: C -> Node, cmds: seq<C>, n: Node, own: seq<Option<Value>>,
                             want: seq<Option<Value>>, stream: Bytes)
    requires Delivered(route, cmds, n, own, want) && CarriedBy(own, stream)
    ensures var r := Resp.ReadReplies(stream, |own|);
            r.Got? && Delivered(route, cmds, n, Wrapped(r.value), want) <==>
              forall i :: 0 <= i < |own| ==> GoodReply(own[i])
  {
    var r := Resp.ReadReplies(stream, |own|);
    BatchReadRightIff(own, stream);
    if r.Got? && Delivered(route, cmds, n, Wrapped(r.value), want) {
      assert Wrapped(r.value) == own;
    }
  }

  /* ----- all connections ----- */

  /** Each connection carries what its shard gave for its batch. */
  ghost predicate Carries<S>(p: Progress<S, Option<Value>>, shards: set<Node>, streams: map<Node, Bytes>) {
    forall n :: n in shards ==> n in p.replies && n in streams && CarriedBy(p.replies[n], streams[n])
  }

  /** Every command is in some group, so the groups' replies are all the replies. */
  lemma GroupsCover<C(!new)>(route: C -> Node, cmds: seq<C>, groups: map<Node, seq<nat>>,
                             own: map<Node, seq<Option<Value>>>, want: seq<Option<Value>>)
    requires Grouped(route, cmds, groups) && |want| == |cmds|
    requires forall n :: n in groups ==> n in own && Delivered(route, cmds, n, own[n], want)
    ensures (forall n, p :: n in groups && 0 <= p < |own[n]| ==> GoodReply(own[n][p])) <==>
            (forall i :: 0 <= i < |want| ==> GoodReply(want[i]))
  {
    if forall n, p :: n in groups && 0 <= p < |own[n]| ==> GoodReply(own[n][p]) {
      forall i | 0 <= i < |want| ensures GoodReply(want[i]) {
        var p := EveryPositionIndexed(route, cmds, i);
        var n := route(cmds[i]);
        assert n in groups && own[n][p] == want[i];
      }
    }
    if forall i :: 0 <= i < |want| ==> GoodReply(want[i]) {
      forall n, p | n in groups && 0 <= p < |own[n]| ensures GoodReply(own[n][p]) {
        assert own[n][p] == want[Indexes(route, cmds, n)[p]];
      }
    }
  }

  /** The replies read from each group's connection, or nothing if one of them cannot be read. */
  method ReadAll(groups: map<Node, seq<nat>>, streams: map<Node, Bytes>)
    returns (replies: Option<map<Node, seq<Value>>>)
    requires forall n :: n in groups ==> n in streams
    ensures replies.None? <==> exists n :: n in groups && Resp.ReadReplies(streams[n], |groups[n]|).Bad?
    ensures replies.Some? ==> forall n :: n in groups ==>
              var r := Resp.ReadReplies(streams[n], |groups[n]|);
                r.Got? && n in replies.value && replies.value[n] == r.value
  {
    var read: map<Node, seq<Value>> := map[];
    var left := groups.Keys;
    while left != {}
      invariant left <= groups.Keys
      invariant forall n :: n in groups && n !in left ==>
                  var r := Resp.ReadReplies(streams[n], |groups[n]|); r.Got? && n in read && read[n] == r.value
      decreases |left|
    {
      var n :| n in left;
      var r := Resp.ReadReplies(streams[n], |groups[n]|);
      if r.Bad? {
        return None;
      }
      read := read[n := r.value];
      left := left - {n};
    }
    return Some(read);
  }

  /* ----- attempts that broke ----- */

  /** `lost` is what a shard executed of attempts at a batch that then broke: prefixes, one after the other. */
  ghost predicate BrokenAttempts<C(!new)>(lost: seq<C>, batch: seq<C>) {
    lost == [] ||
    exists k :: 0 < k <= |batch| && k <= |lost| && lost[..k] == batch[..k] && BrokenAttempts(lost[k..], batch)
  }

  /** The shards as the attempts that succeed find them. */
  ghost function AfterLosses<C, S, R>(exec: (S, C) -> (S, R), shards: map<Node, S>,
                                      lost: map<Node, seq<C>>): map<Node, S> {
    map n | n in shards :: if n in lost then RunShard(exec, shards[n], lost[n]).state else shards[n]
  }

  /** What each shard has executed in the end: the broken attempts, and then its batch. */
  lemma ExecutedInAll<C, S, R>(exec: (S, C) -> (S, R), route: C -> Node, shards: map<Node, S>, cmds: seq<C>,
                               lost: map<Node, seq<C>>, n: Node)
    requires Routed(route, shards, cmds) && n in shards && n in lost
    requires Routed(route, AfterLosses(exec, shards, lost), cmds)
    ensures OneByOne(exec, route, AfterLosses(exec, shards, lost), cmds).shards[n] ==
            RunShard(exec, shards[n], lost[n] + Batch(route, cmds, n)).state
  {
    ShardView(exec, route, AfterLosses(exec, shards, lost), cmds, n);
    RunShardAppend(exec, shards[n], lost[n], Batch(route, cmds, n));
  }

  /**
   * A whole pipeline: group, serve the batches in any interleaving after any attempts that broke on
   * reused connections, read each connection, gather. The results are the replies of running the
   * commands one at a time on the shards as the broken attempts left them, in submission order, if and
   * only if every command got a reply that the wire can carry.
   */
  method ExecuteMany<C(!new), S>(ghost exec: (S, C) -> (S, Option<Value>), route: C -> Node, ghost shards: map<Node, S>,
                                 cmds: seq<C>, ghost lost: map<Node, seq<C>>, ghost schedule: seq<Node>,
                                 streams: map<Node, Bytes>)
    returns (results: Option<seq<Option<Value>>>)
    requires Routed(route, shards, cmds)
    requires forall n :: n in lost ==> BrokenAttempts(lost[n], Batch(route, cmds, n))
    requires var found := AfterLosses(exec, shards, lost); var p := Interleave(exec, route, found, cmds, schedule);
             Complete(route, found, cmds, p) && Carries(p, found.Keys, streams)
    ensures Routed(route, AfterLosses(exec, shards, lost), cmds)
    ensures var all := OneByOne(exec, route, AfterLosses(exec, shards, lost), cmds);
            results == Some(all.replies) <==> forall i :: 0 <= i < |cmds| ==> GoodReply(all.replies[i])
  {
    results := ReadPipeline(exec, route, AfterLosses(exec, shards, lost), cmds, schedule, streams);
  }

  /** Reading one connection gives its batch the reference's replies. */
  ghost predicate ReadsRight<C(!new)>(route: C -> Node, cmds: seq<C>, groups: map<Node, seq<nat>>,
                                      streams: map<Node, Bytes>, want: seq<Option<Value>>, n: Node)
    requires n in groups && n in streams
  {
    var r := Resp.ReadReplies(streams[n], |groups[n]|);
    r.Got? && Delivered(route, cmds, n, Wrapped(r.value), want)
  }

  /** Every connection is read right iff every reply of the reference is good. */
  lemma AllReadRightIff<C(!new)>(route: C -> Node, cmds: seq<C>, groups: map<Node, seq<nat>>,
                                 own: map<Node, seq<Option<Value>>>, streams: map<Node, Bytes>,
                                 want: seq<Option<Value>>)
    requires Grouped(route, cmds, groups) && |want| == |cmds|
    requires forall n :: n in groups ==> n in own && n in streams && CarriedBy(own[n], streams[n])
    requires forall n :: n in groups ==> Delivered(route, cmds, n, own[n], want)
    ensures (forall n :: n in groups ==> ReadsRight(route, cmds, groups, streams, want, n)) <==>
            (forall i :: 0 <= i < |want| ==> GoodReply(want[i]))
  {
    GroupsCover(route, cmds, groups, own, want);
    forall n | n in groups
      ensures ReadsRight(route, cmds, groups, streams, want, n) <==>
                forall i :: 0 <= i < |own[n]| ==> GoodReply(own[n][i])
    {
      BatchDeliveredIff(route, cmds, n, own[n], want, streams[n]);
    }
  }

  /** What the shards' replies, read off their connections and gathered, amount to. */
  method ReadAndGather<C(!new)>(route: C -> Node, cmds: seq<C>, groups: map<Node, seq<nat>>,
                                streams: map<Node, Bytes>, ghost want: seq<Option<Value>>)
    returns (results: Option<seq<Option<Value>>>)
    requires Grouped(route, cmds, groups) && |want| == |cmds| && forall n :: n in groups ==> n in streams
    ensures results == Some(want) <==>
              forall n :: n in groups ==> ReadsRight(route, cmds, groups, streams, want, n)
  {
    var replies := ReadAll(groups, streams);
    if replies.None? {
      return None;
    }
    var gathered := Gather(route, cmds, groups, replies.value);
    GatheredIff(route, cmds, groups, replies.value, gathered, want);
    results := Some(gathered);
  }

  /** The attempts that succeed. */
  method ReadPipeline<C(!new), S>(ghost exec: (S, C) -> (S, Option<Value>), route: C -> Node,
                                  ghost shards: map<Node, S>, cmds: seq<C>, ghost schedule: seq<Node>,
                                  streams: map<Node, Bytes>)
    returns (results: Option<seq<Option<Value>>>)
    requires Routed(route, shards, cmds)
    requires var p := Interleave(exec, route, shards, cmds, schedule);
             Complete(route, shards, cmds, p) && Carries(p, shards.Keys, streams)
    ensures var all := OneByOne(exec, route, shards, cmds);
            results == Some(all.replies) <==> forall i :: 0 <= i < |cmds| ==> GoodReply(all.replies[i])
  {
    ghost var want := OneByOne(exec, route, shards, cmds).replies;
    ghost var own := Interleave(exec, route, shards, cmds, schedule).replies;
    PipelineIsSequential(exec, route, shards, cmds, schedule);
    var groups := Group(route, cmds);
    OwnersAreShards(route, shards, cmds, groups);
    AllReadRightIff(route, cmds, groups, own, streams, want);
    results := ReadAndGather(route, cmds, groups, streams, want);
  }

  /* ----- raising on errors ----- */

  predicate IsError(r: Option<Value>) {
    r.Some? && r.value.Error?
  }

  /** The first error among the results, in submission order. */
  predicate FirstErrorAt(rs: seq<Option<Value>>, i: nat) {
    i < |rs| && IsError(rs[i]) && forall j :: 0 <= j < i ==> !IsError(rs[j])
  }

  datatype Outcome = Results(replies: seq<Option<Value>>) | Raised(text: Bytes)

  /** The end of `_execute_many`: the results, or the first error raised. */
  method Conclude(results: seq<Option<Value>>, raiseOnError: bool) returns (outcome: Outcome)
    ensures outcome == Results(results) <==> !raiseOnError || forall i :: 0 <= i < |results| ==> !IsError(results[i])
    ensures outcome != Results(results) ==>
              exists i: nat :: FirstErrorAt(results, i) && outcome == Raised(results[i].value.text)
  {
    if raiseOnError {
      for i := 0 to |results|
        invariant forall j :: 0 <= j < i ==> !IsError(results[j])
      {
        if IsError(results[i]) {
          assert FirstErrorAt(results, i);
          return Raised(results[i].value.text);
        }
      }
    }
    return Results(results);
  }

  /* ----- pipelines on stores ----- */

  /** A shard and the pipeline's connection to it. */
  datatype Seat = Seat(cache: Cache, open: bool)

  /** A request and the state of the server and the connection when it is served. */
  datatype Call = Call(desk: Desk, raw: Record, now: int)

  function VisitOf(seat: Seat, cfg: Config, q: Call): Visit {
    Visit(q.desk, seat.cache, cfg, q.raw, q.now)
  }

  /** The store after a visit: only the command layer changes it. */
  function CacheAfter(v: Visit): Cache
    requires v.raw != []
  {
    if AtDesk(v.desk, v.cfg, v.raw).Some? then v.cache else Dispatch(v.cache, v.cfg, Taken(v), v.now).cache
  }

  /** One shard serves one request, unless it has closed the connection or streams on it. */
  function ServeOn(cfg: Config): (Seat, Call) -> (Seat, Option<Value>) {
    (seat: Seat, q: Call) =>
      if !seat.open || q.raw == [] then (seat, None)
      else
        var v := VisitOf(seat, cfg, q);
        match Served(v)
        case Reply(x) => (Seat(CacheAfter(v), true), Some(x))
        case LastReply(x) => (Seat(CacheAfter(v), false), Some(x))
        case Streams => (Seat(CacheAfter(v), false), None)
  }

  ghost predicate SoundSeats(seats: map<Node, Seat>) {
    forall n :: n in seats ==> WF(seats[n].cache) && Bounded(Values(seats[n].cache))
  }

  ghost predicate SoundCall(q: Call) {
    Resp.WithinLimits(q.raw) && Small(q.desk.info) && ReadsAscii(q.desk.reading)
  }

  ghost predicate FromWire(cmds: seq<Call>) {
    forall i :: 0 <= i < |cmds| ==> SoundCall(cmds[i])
  }

  lemma ServeKeepsSound(cfg: Config, seats: map<Node, Seat>, n: Node, q: Call)
    requires n in seats && SoundSeats(seats) && SoundCall(q)
    ensures SoundSeats(seats[n := ServeOn(cfg)(seats[n], q).0])
  {
    var taken := Heard(q.desk.reading, q.raw);
    if IsUnknown(taken) {
      ParseUnknown(taken);
    } else {
      HeardWithinLimits(q.desk.reading, q.raw);
      StoreStaysBounded(seats[n].cache, cfg, taken, q.now);
    }
    DispatchWF(seats[n].cache, cfg, taken, q.now);
  }

  lemma {:induction false} SeatsStaySound(cfg: Config, route: Call -> Node, seats: map<Node, Seat>, cmds: seq<Call>)
    requires Routed(route, seats, cmds) && SoundSeats(seats) && FromWire(cmds)
    ensures SoundSeats(OneByOne(ServeOn(cfg), route, seats, cmds).shards)
  {
    if cmds != [] {
      var before, last := cmds[..|cmds| - 1], cmds[|cmds| - 1];
      SeatsStaySound(cfg, route, seats, before);
      ServeKeepsSound(cfg, OneByOne(ServeOn(cfg), route, seats, before).shards, route(last), last);
    }
  }

  /** The shard that serves command `i`, and the connection to it, when it does. */
  ghost function SeatBefore(cfg: Config, route: Call -> Node, seats: map<Node, Seat>, cmds: seq<Call>, i: nat): Seat
    requires Routed(route, seats, cmds) && i < |cmds|
  {
    OneByOne(ServeOn(cfg), route, seats, cmds[..i]).shards[route(cmds[i])]
  }

  lemma {:induction false} ReplyAt(cfg: Config, route: Call -> Node, seats: map<Node, Seat>, cmds: seq<Call>, i: nat)
    requires Routed(route, seats, cmds) && i < |cmds|
    ensures OneByOne(ServeOn(cfg), route, seats, cmds).replies[i] ==
            ServeOn(cfg)(SeatBefore(cfg, route, seats, cmds, i), cmds[i]).1
  {
    var before := cmds[..|cmds| - 1];
    if i < |before| {
      ReplyAt(cfg, route, seats, before, i);
      assert before[..i] == cmds[..i];
    }
  }

  /** What must hold of a call, and of the connection it finds, for its reply to be good. */
  predicate CleanCall(seat: Seat, cfg: Config, q: Call) {
    seat.open && q.raw != [] && CleanVisit(VisitOf(seat, cfg, q))
  }

  lemma CallReplyIff(seat: Seat, cfg: Config, q: Call)
    requires WF(seat.cache) && Bounded(Values(seat.cache)) && SoundCall(q)
    ensures GoodReply(ServeOn(cfg)(seat, q).1) <==> CleanCall(seat, cfg, q)
  {
    if seat.open && q.raw != [] {
      ServedTransportableIff(VisitOf(seat, cfg, q));
    }
  }

  /**
   * Which calls a pipeline on stores answers faithfully: a call gets a good reply if and only if no
   * earlier QUIT or SYNC of the pipeline ended the dialogue with its shard, it is no SYNC itself, and the
   * command layer's reply to it is one that the wire can carry.
   */
  lemma PipelineReplyIff(cfg: Config, route: Call -> Node, seats: map<Node, Seat>, cmds: seq<Call>, i: nat)
    requires Routed(route, seats, cmds) && SoundSeats(seats) && FromWire(cmds) && i < |cmds|
    ensures GoodReply(OneByOne(ServeOn(cfg), route, seats, cmds).replies[i]) <==>
            CleanCall(SeatBefore(cfg, route, seats, cmds, i), cfg, cmds[i])
  {
    ReplyAt(cfg, route, seats, cmds, i);
    SeatsStaySound(cfg, route, seats, cmds[..i]);
    CallReplyIff(SeatBefore(cfg, route, seats, cmds, i), cfg, cmds[i]);
  }
}

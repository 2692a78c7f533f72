/** Requests get through the pool: a free slot is enough, an idle connection is used first, and a closed pool empties. */
module PoolProgress {
  import opened Base
  import opened Resp
  import opened Pool

  /** The idle connections have nothing unread, as harmless replies leave them. */
  ghost predicate Silent(s: State) {
    forall i :: 0 <= i < |s.idle| ==> s.idle[i] == Conn([], false)
  }

  /** How a waiting request gets its connection: the last idle one, or a new one if none is idle. */
  function TakeEvents(s: State, t: nat): seq<Event> {
    if s.idle != [] then [Acquire(t)] else [Acquire(t), Connected(t)]
  }

  /** The state in which it has it. */
  function Taken(s: State, t: nat): State
    requires s.free > 0
  {
    s.(free := s.free - 1, idle := if s.idle != [] then s.idle[..|s.idle| - 1] else [],
       tasks := s.tasks[t := Using(Conn([], false), s.idle != [], None, [])])
  }

  lemma TakeLeads(s: State, t: nat)
    requires t in s.tasks && s.tasks[t].Waiting? && s.free > 0 && Silent(s)
    ensures Leads(s, TakeEvents(s, t), Taken(s, t))
  {
    var s1 := Next(s, Acquire(t));
    if s.idle != [] {
      assert Leads(s1, [], Taken(s, t));
      LeadsStep(s, Acquire(t), s1, [], Taken(s, t));
    } else {
      assert s.tasks[t := Connecting][t := Using(Conn([], false), false, None, [])] ==
        s.tasks[t := Using(Conn([], false), false, None, [])];
      assert Leads(Next(s1, Connected(t)), [], Taken(s, t));
      LeadsStep(s1, Connected(t), Taken(s, t), [], Taken(s, t));
      LeadsStep(s, Acquire(t), s1, [Connected(t)], Taken(s, t));
      assert [Acquire(t)] + [Connected(t)] == [Acquire(t), Connected(t)];
    }
  }

  /** The request has its answer, its slot is free, its connection idle, and everyone else is where they were. */
  ghost predicate Through(s: State, t: nat, vs: seq<Value>, last: State) {
    && last.answers == s.answers[t := Outcome(vs, vs)] && last.tasks == s.tasks - {t}
    && last.free == s.free && last.sends[t] == s.sends[t] + 1
    && |last.idle| == (if s.idle == [] then 1 else |s.idle|) && Silent(last)
  }

  /** The state in which the shard has the batch and has written its replies. */
  ghost predicate Replied(s: State, t: nat, vs: seq<Value>, s2: State) {
    && t in s2.tasks && s2.tasks - {t} == s.tasks - {t}
    && s2.tasks[t] == Using(Conn(EncodeItems(vs), false), s.idle != [], Some(Sent(|vs|, vs, false)), [])
    && s2.answers == s.answers && s2.closed == s.closed && s2.free == s.free - 1 && s2.sends[t] == s.sends[t] + 1
    && s2.idle == if s.idle == [] then [] else s.idle[..|s.idle| - 1]
  }

  lemma SendReplied(s: State, t: nat, vs: seq<Value>)
    requires s.free > 0
    ensures Enabled(Taken(s, t), Send(t, Sent(|vs|, vs, false)))
    ensures Replied(s, t, vs, Next(Taken(s, t), Send(t, Sent(|vs|, vs, false))))
  {
    assert [] + EncodeItems(vs) == EncodeItems(vs);
  }

  lemma AnswerThrough(s: State, t: nat, vs: seq<Value>, s2: State)
    requires Replied(s, t, vs, s2) && Silent(s) && !s.closed && AllTransportable(vs)
    ensures Enabled(s2, Answer(t)) && Through(s, t, vs, Next(s2, Answer(t)))
  {
    BatchReadIff(vs);
  }

  lemma AnswerLeads(s: State, t: nat, vs: seq<Value>) returns (last: State)
    requires s.free > 0 && Silent(s) && !s.closed && AllTransportable(vs)
    ensures Leads(Taken(s, t), [Send(t, Sent(|vs|, vs, false)), Answer(t)], last) && Through(s, t, vs, last)
  {
    var send := Send(t, Sent(|vs|, vs, false));
    SendReplied(s, t, vs);
    var s2 := Next(Taken(s, t), send);
    AnswerThrough(s, t, vs, s2);
    last := Next(s2, Answer(t));
    assert Leads(last, [], last);
    LeadsStep(s2, Answer(t), last, [], last);
    LeadsStep(Taken(s, t), send, s2, [Answer(t)], last);
    assert [send] + [Answer(t)] == [send, Answer(t)];
  }

  /**
   * Whatever the other requests are doing, a waiting request gets its replies as soon as a slot is free, if
   * the shard's replies can be carried: it takes the idle connection used last, or opens one if none is
   * idle, and leaves slot and connection for the next.
   */
  lemma RequestGetsThrough(s: State, t: nat, vs: seq<Value>) returns (last: State)
    requires t in s.tasks && s.tasks[t].Waiting? && s.free > 0 && Silent(s) && !s.closed && AllTransportable(vs)
    ensures Leads(s, TakeEvents(s, t) + [Send(t, Sent(|vs|, vs, false)), Answer(t)], last) && Through(s, t, vs, last)
  {
    TakeLeads(s, t);
    last := AnswerLeads(s, t, vs);
    LeadsConcat(s, TakeEvents(s, t), Taken(s, t), [Send(t, Sent(|vs|, vs, false)), Answer(t)], last);
  }

  /** The connection that came back last is the first to be used again, with whatever is unread on it. */
  lemma LastBackFirstOut(s: State, t: nat, u: nat)
    requires Enabled(s, Answer(t)) && !s.closed && u != t && u in s.tasks && s.tasks[u].Waiting?
    ensures var left := ReadReplies(s.tasks[t].conn.unread, s.tasks[t].sent.value.count).rest;
            var r := Next(s, Answer(t));
            Enabled(r, Acquire(u)) && Next(r, Acquire(u)).idle == s.idle &&
            Next(r, Acquire(u)).tasks[u] == Using(s.tasks[t].conn.(unread := left), true, None, [])
  {
  }

  lemma LeftoverRead(p: Phase, vs: seq<Value>, own: seq<Value>)
    requires p == Using(Conn(EncodeItems(vs), false), true, None, []) && |own| == |vs| && AllTransportable(vs)
    ensures var q := AfterSend(p, Sent(|own|, own, false));
            ReadReplies(q.conn.unread, q.sent.value.count) == Got(vs, EncodeItems(own)) && !q.conn.streaming
  {
    RepliesRoundTrip(vs, EncodeItems(own));
  }

  /**
   * Replies that were left unread on an idle connection become the answer of the next request that uses
   * it, whose own replies are left for the one after it.
   */
  lemma LeftoversAreTheAnswer(s: State, t: nat, vs: seq<Value>, own: seq<Value>) returns (last: State)
    requires t in s.tasks && s.tasks[t].Waiting? && s.free > 0 && s.idle != [] && !s.closed
    requires s.idle[|s.idle| - 1] == Conn(EncodeItems(vs), false) && |own| == |vs| && AllTransportable(vs)
    ensures Leads(s, [Acquire(t)] + ([Send(t, Sent(|own|, own, false))] + [Answer(t)]), last)
    ensures last.answers == s.answers[t := Outcome(vs, own)]
    ensures last.idle == s.idle[..|s.idle| - 1] + [Conn(EncodeItems(own), false)]
  {
    var s1 := Next(s, Acquire(t));
    LeftoverRead(s1.tasks[t], vs, own);
    var send := Send(t, Sent(|own|, own, false));
    var s2 := Next(s1, send);
    last := Next(s2, Answer(t));
    assert Leads(last, [], last);
    assert [Answer(t)] + [] == [Answer(t)];
    LeadsStep(s2, Answer(t), last, [], last);
    LeadsStep(s1, send, s2, [Answer(t)], last);
    LeadsStep(s, Acquire(t), s1, [send] + [Answer(t)], last);
  }

  /** A request that ends in any way gives its slot back, and one that fails takes no connection with it. */
  lemma EndsGiveBack(s: State, e: Event)
    requires Enabled(s, e) && ((e.Abort? && Holds(s.tasks[e.task])) || e.Break?)
    ensures Next(s, e).free == s.free + 1 && Next(s, e).idle == s.idle && Next(s, e).answers == s.answers
    ensures e.Break? && s.tasks[e.task].reused ==> e.task in Next(s, e).tasks && Next(s, e).tasks[e.task].Waiting?
    ensures e.Abort? || !s.tasks[e.task].reused ==> e.task !in Next(s, e).tasks
  {
  }

  /** Once closed, a pool stays closed, keeps no connection that comes back, and can be emptied. */
  lemma ClosedPoolOnlyShrinks(s: State, e: Event)
    requires Enabled(s, e) && s.closed
    ensures Next(s, e).closed && |Next(s, e).idle| <= |s.idle|
    ensures e.CloseIdle? ==> |Next(s, e).idle| == |s.idle| - 1
  {
  }

  lemma {:induction false} ClosedPoolCanBeEmptied(s: State) returns (events: seq<Event>)
    requires s.closed
    ensures |events| == |s.idle| && Leads(s, events, s.(idle := []))
    decreases |s.idle|
  {
    if s.idle == [] {
      events := [];
      assert Leads(s, [], s.(idle := []));
    } else {
      var later := ClosedPoolCanBeEmptied(Next(s, CloseIdle));
      events := [CloseIdle] + later;
      LeadsStep(s, CloseIdle, Next(s, CloseIdle), later, s.(idle := []));
    }
  }
}

/**
 * The connection pool of one shard: concurrent requests take a slot, reuse an idle connection or
 * open one, send a batch of commands, read one reply for each, and give slot and connection back - or
 * drop the connection on any error, timeout or cancellation. One step is what runs between two awaits.
 * A connection is the bytes the shard has sent on it that nobody has read, and whether the shard goes on
 * sending without being asked, as it does after SYNC.
 */
module Pool {
  import opened Base
  import opened Resp

  datatype Conn = Conn(unread: Bytes, streaming: bool)

  /**
   * What becomes of a batch of `count` commands: the replies the shard gives, fewer than the commands if
   * it closed the connection or began to stream before the last one.
   */
  datatype Sent = Sent(count: nat, own: seq<Value>, streams: bool)

  predicate Proper(x: Sent) {
    |x.own| <= x.count && (x.streams ==> |x.own| < x.count)
  }

  /** `came` is what a streaming shard has sent since. */
  datatype Phase =
    | Waiting
    | Connecting
    | Using(conn: Conn, reused: bool, sent: Option<Sent>, came: seq<Bytes>)

  /** What a request that succeeded read, and what the shard replied to it. */
  datatype Outcome = Outcome(read: seq<Value>, own: seq<Value>)

  datatype State = State(
    size: nat,
    free: nat,
    idle: seq<Conn>,
    tasks: map<nat, Phase>,
    closed: bool,
    answers: map<nat, Outcome>,
    /** Times each request was sent, and times an attempt broke after sending and was retried. */
    sends: multiset<nat>,
    retries: multiset<nat>)

  function Start(size: nat): State {
    State(size, size, [], map[], false, map[], multiset{}, multiset{})
  }

  datatype Event =
    | Begin(task: nat)
    | Acquire(task: nat)
    | Connected(task: nat)
    | Send(task: nat, sent: Sent)
    | Arrive(task: nat, payloads: seq<Bytes>)
    | Answer(task: nat)
    | Break(task: nat)
    | Abort(task: nat)
    | Close
    | CloseIdle
    | ArriveIdle(index: nat, payload: Bytes)

  predicate Holds(p: Phase) {
    p.Connecting? || p.Using?
  }

  predicate HasSent(p: Phase) {
    p.Using? && p.sent.Some?
  }

  /** The replies can be read off the connection, whatever they turn out to be. */
  predicate CanRead(p: Phase) {
    HasSent(p) && ReadReplies(p.conn.unread, p.sent.value.count).Got?
  }

  predicate Enabled(s: State, e: Event) {
    match e
    case Begin(t) => t !in s.tasks && t !in s.answers && s.sends[t] == 0
    case Acquire(t) => t in s.tasks && s.tasks[t].Waiting? && s.free > 0
    case Connected(t) => t in s.tasks && s.tasks[t].Connecting?
    case Send(t, x) => t in s.tasks && s.tasks[t].Using? && s.tasks[t].sent.None? && Proper(x)
    case Arrive(t, _) => t in s.tasks && HasSent(s.tasks[t]) && s.tasks[t].conn.streaming
    case Answer(t) => t in s.tasks && CanRead(s.tasks[t])
    case Break(t) => t in s.tasks && s.tasks[t].Using?
    case Abort(t) => t in s.tasks
    case Close => true
    case CloseIdle => s.closed && s.idle != []
    case ArriveIdle(i, _) => i < |s.idle| && s.idle[i].streaming
  }

  /** The slot is taken; an idle connection, if any, is popped from the end of the list. */
  function AfterAcquire(s: State, t: nat): State
    requires s.free > 0
  {
    if s.idle != [] then
      s.(free := s.free - 1, idle := s.idle[..|s.idle| - 1],
         tasks := s.tasks[t := Using(s.idle[|s.idle| - 1], true, None, [])])
    else s.(free := s.free - 1, tasks := s.tasks[t := Connecting])
  }

  function AfterSend(p: Phase, x: Sent): Phase
    requires p.Using?
  {
    Using(Conn(p.conn.unread + EncodeItems(x.own), p.conn.streaming || x.streams), p.reused, Some(x), [])
  }

  function AfterArrive(p: Phase, payloads: seq<Bytes>): Phase
    requires p.Using?
  {
    p.(conn := p.conn.(unread := p.conn.unread + Join(payloads)), came := p.came + payloads)
  }

  /** Success: the connection goes back to the idle list, unless the client is closed. */
  function AfterAnswer(s: State, t: nat): State
    requires t in s.tasks && CanRead(s.tasks[t])
  {
    var conn, x := s.tasks[t].conn, s.tasks[t].sent.value;
    var r := ReadReplies(conn.unread, x.count);
    s.(free := s.free + 1, tasks := s.tasks - {t}, answers := s.answers[t := Outcome(r.value, x.own)],
       idle := if s.closed then s.idle else s.idle + [conn.(unread := r.rest)])
  }

  /** A broken connection is dropped; the request starts over if the connection was a reused one. */
  function AfterBreak(s: State, t: nat): State
    requires t in s.tasks && s.tasks[t].Using?
  {
    var p := s.tasks[t];
    s.(free := s.free + 1, tasks := if p.reused then s.tasks[t := Waiting] else s.tasks - {t},
       retries := if p.reused && p.sent.Some? then s.retries + multiset{t} else s.retries)
  }

  function Next(s: State, e: Event): State
    requires Enabled(s, e)
  {
    match e
    case Begin(t) => s.(tasks := s.tasks[t := Waiting])
    case Acquire(t) => AfterAcquire(s, t)
    case Connected(t) => s.(tasks := s.tasks[t := Using(Conn([], false), false, None, [])])
    case Send(t, x) => s.(tasks := s.tasks[t := AfterSend(s.tasks[t], x)], sends := s.sends + multiset{t})
    case Arrive(t, payloads) => s.(tasks := s.tasks[t := AfterArrive(s.tasks[t], payloads)])
    case Answer(t) => AfterAnswer(s, t)
    case Break(t) => AfterBreak(s, t)
    case Abort(t) => s.(free := if Holds(s.tasks[t]) then s.free + 1 else s.free, tasks := s.tasks - {t})
    case Close => s.(closed := true)
    case CloseIdle => s.(idle := s.idle[..|s.idle| - 1])
    case ArriveIdle(i, payload) => s.(idle := s.idle[i := s.idle[i].(unread := s.idle[i].unread + payload)])
  }

  /* ----- slots and sends, whatever the replies ----- */

  /** Requests that hold a slot. */
  function Holders(tasks: map<nat, Phase>): set<nat> {
    set t | t in tasks && Holds(tasks[t])
  }

  /** Requests that hold a connection. */
  function Users(tasks: map<nat, Phase>): set<nat> {
    set t | t in tasks && tasks[t].Using?
  }

  ghost predicate SlotInv(s: State) {
    s.free + |Holders(s.tasks)| == s.size && |s.idle| <= s.free
  }

  function InAttempt(s: State, t: nat): nat {
    if t in s.tasks && HasSent(s.tasks[t]) then 1 else 0
  }

  /** Each send beyond the first was preceded by a retry. */
  ghost predicate SendInv(s: State) {
    forall t :: t in s.tasks ==> s.sends[t] == s.retries[t] + InAttempt(s, t)
  }

  ghost predicate DoneInv(s: State) {
    forall t :: s.retries[t] <= s.sends[t] <= s.retries[t] + 1 && (t in s.answers ==> s.sends[t] == s.retries[t] + 1)
  }

  ghost predicate Fresh(s: State) {
    forall t :: t in s.answers ==> t !in s.tasks
  }

  ghost predicate Inv(s: State) {
    SlotInv(s) && SendInv(s) && DoneInv(s) && Fresh(s)
  }

  lemma HoldersUpdate(tasks: map<nat, Phase>, t: nat, p: Phase)
    ensures Holders(tasks[t := p]) == if Holds(p) then Holders(tasks) + {t} else Holders(tasks) - {t}
    ensures Holders(tasks - {t}) == Holders(tasks) - {t}
    ensures t in Holders(tasks) <==> t in tasks && Holds(tasks[t])
  {
  }

  lemma CountUpdate(holders: set<nat>, t: nat)
    ensures |holders + {t}| == |holders| + (if t in holders then 0 else 1)
    ensures |holders - {t}| == |holders| - (if t in holders then 1 else 0)
  {
    if t in holders {
      assert holders + {t} == holders;
    } else {
      assert holders - {t} == holders;
    }
  }

  lemma SlotStep(s: State, e: Event)
    requires Inv(s) && Enabled(s, e)
    ensures SlotInv(Next(s, e))
  {
    if !e.Close? && !e.CloseIdle? && !e.ArriveIdle? {
      var t := e.task;
      HoldersUpdate(s.tasks, t, Waiting);
      HoldersUpdate(s.tasks, t, Connecting);
      CountUpdate(Holders(s.tasks), t);
      match e {
        case Acquire(_) =>
          if s.idle != [] { HoldersUpdate(s.tasks, t, Using(s.idle[|s.idle| - 1], true, None, [])); }
        case Connected(_) => HoldersUpdate(s.tasks, t, Using(Conn([], false), false, None, []));
        case Send(_, x) => HoldersUpdate(s.tasks, t, AfterSend(s.tasks[t], x));
        case Arrive(_, payloads) => HoldersUpdate(s.tasks, t, AfterArrive(s.tasks[t], payloads));
        case _ =>
      }
    }
  }

  lemma SendStep(s: State, e: Event)
    requires Inv(s) && Enabled(s, e)
    ensures SendInv(Next(s, e))
  {
  }

  lemma DoneStep(s: State, e: Event)
    requires Inv(s) && Enabled(s, e)
    ensures DoneInv(Next(s, e)) && Fresh(Next(s, e))
  {
  }

  /* ----- the bytes, when what is sent does no harm ----- */

  ghost predicate AllFrom(payloads: seq<Bytes>, arrives: Bytes -> bool) {
    forall i :: 0 <= i < |payloads| ==> arrives(payloads[i])
  }

  /**
   * Reading one reply for each command gives the shard's replies and leaves nothing, or fails - whatever
   * a streaming shard goes on to send, which is then never read.
   */
  ghost predicate HarmlessSent(x: Sent, arrives: Bytes -> bool) {
    if x.streams then
      forall payloads :: AllFrom(payloads, arrives) ==> ReadReplies(EncodeItems(x.own) + Join(payloads), x.count).Bad?
    else
      ReadReplies(EncodeItems(x.own), x.count).Bad? || ReadReplies(EncodeItems(x.own), x.count) == Got(x.own, [])
  }

  /** Idle connections are silent; a connection in use has its user's replies, and what came after them. */
  ghost predicate WireInv(s: State, arrives: Bytes -> bool) {
    && (forall i :: 0 <= i < |s.idle| ==> s.idle[i] == Conn([], false))
    && (forall t :: t in s.tasks && s.tasks[t].Using? ==> CleanPhase(s.tasks[t], arrives))
    && (forall t :: t in s.answers ==> s.answers[t].read == s.answers[t].own)
  }

  ghost predicate CleanPhase(p: Phase, arrives: Bytes -> bool)
    requires p.Using?
  {
    if p.sent.None? then p.conn == Conn([], false)
    else
      && p.conn == Conn(EncodeItems(p.sent.value.own) + Join(p.came), p.sent.value.streams)
      && HarmlessSent(p.sent.value, arrives) && AllFrom(p.came, arrives)
      && (!p.sent.value.streams ==> p.came == [])
  }

  lemma CleanRead(p: Phase, arrives: Bytes -> bool)
    requires p.Using? && CleanPhase(p, arrives) && CanRead(p)
    ensures ReadReplies(p.conn.unread, p.sent.value.count) == Got(p.sent.value.own, []) && !p.conn.streaming
  {
    var x := p.sent.value;
    if !x.streams {
      assert EncodeItems(x.own) + Join([]) == EncodeItems(x.own);
    }
  }

  lemma WireAnswer(s: State, t: nat, arrives: Bytes -> bool)
    requires WireInv(s, arrives) && Enabled(s, Answer(t))
    ensures WireInv(AfterAnswer(s, t), arrives)
  {
    CleanRead(s.tasks[t], arrives);
  }

  lemma WireSend(s: State, t: nat, x: Sent, arrives: Bytes -> bool)
    requires WireInv(s, arrives) && Enabled(s, Send(t, x)) && HarmlessSent(x, arrives)
    ensures WireInv(Next(s, Send(t, x)), arrives)
  {
    assert CleanPhase(s.tasks[t], arrives);
    assert [] + EncodeItems(x.own) == EncodeItems(x.own) + Join([]);
  }

  lemma WireArrive(s: State, t: nat, payloads: seq<Bytes>, arrives: Bytes -> bool)
    requires WireInv(s, arrives) && Enabled(s, Arrive(t, payloads)) && AllFrom(payloads, arrives)
    ensures WireInv(Next(s, Arrive(t, payloads)), arrives)
  {
    var p := s.tasks[t];
    assert CleanPhase(p, arrives);
    JoinAppend(p.came, payloads);
    Regroup(EncodeItems(p.sent.value.own), Join(p.came), Join(payloads));
  }

  lemma WireStep(s: State, e: Event, arrives: Bytes -> bool)
    requires WireInv(s, arrives) && Enabled(s, e)
    requires (e.Send? ==> HarmlessSent(e.sent, arrives)) && (e.Arrive? ==> AllFrom(e.payloads, arrives))
    ensures WireInv(Next(s, e), arrives)
  {
    if e.Send? {
      WireSend(s, e.task, e.sent, arrives);
    } else if e.Answer? {
      WireAnswer(s, e.task, arrives);
    } else if e.Arrive? {
      WireArrive(s, e.task, e.payloads, arrives);
    } else {
      WireOther(s, e, arrives);
    }
  }

  lemma WireOther(s: State, e: Event, arrives: Bytes -> bool)
    requires WireInv(s, arrives) && Enabled(s, e) && !e.Send? && !e.Answer? && !e.Arrive?
    ensures WireInv(Next(s, e), arrives)
  {
  }

  /* ----- every interleaving ----- */

  ghost predicate Executes(s: State, events: seq<Event>)
    decreases |events|
  {
    events == [] || (Enabled(s, events[0]) && Executes(Next(s, events[0]), events[1..]))
  }

  ghost function Final(s: State, events: seq<Event>): State
    requires Executes(s, events)
    decreases |events|
  {
    if events == [] then s else Final(Next(s, events[0]), events[1..])
  }

  lemma StepInv(s: State, e: Event)
    requires Inv(s) && Enabled(s, e)
    ensures Inv(Next(s, e)) && Next(s, e).size == s.size
  {
    SlotStep(s, e);
    SendStep(s, e);
    DoneStep(s, e);
  }

  lemma {:induction false} RunInv(s: State, events: seq<Event>)
    requires Inv(s) && Executes(s, events)
    ensures Inv(Final(s, events)) && Final(s, events).size == s.size
    decreases |events|
  {
    if events != [] {
      StepInv(s, events[0]);
      RunInv(Next(s, events[0]), events[1..]);
    }
  }

  lemma StartInv(size: nat)
    ensures Inv(Start(size)) && forall arrives :: WireInv(Start(size), arrives)
  {
    assert Holders(map[]) == {};
  }

  /**
   * Pool safety, whatever the shards reply: in every interleaving of requests, errors, timeouts,
   * cancellations and close, idle and in-use connections together never exceed the pool size, and every
   * slot is either free or held by exactly one request.
   */
  lemma PoolSafety(size: nat, events: seq<Event>, s: State)
    requires Executes(Start(size), events) && s == Final(Start(size), events)
    ensures |s.idle| + |Users(s.tasks)| <= size
    ensures s.free + |Holders(s.tasks)| == size
  {
    StartInv(size);
    RunInv(Start(size), events);
    SubsetCount(Users(s.tasks), Holders(s.tasks));
  }

  lemma {:induction false} SubsetCount(a: set<nat>, b: set<nat>)
    requires a <= b
    ensures |a| <= |b|
    decreases |a|
  {
    if a != {} {
      var x :| x in a;
      SubsetCount(a - {x}, b - {x});
    }
  }

  /** Every idle connection is silent, and every request that succeeded read the shard's replies to it. */
  ghost predicate AnswersRight(s: State) {
    && (forall i :: 0 <= i < |s.idle| ==> s.idle[i] == Conn([], false))
    && (forall t :: t in s.answers ==> s.answers[t].read == s.answers[t].own)
  }

  /** What shards do in a run comes from `served`, and what streams carry from `arrives`. */
  ghost predicate DrawnFrom(events: seq<Event>, served: Sent -> bool, arrives: Bytes -> bool) {
    forall i :: 0 <= i < |events| ==> Drawn(events[i], served, arrives)
  }

  ghost predicate Drawn(e: Event, served: Sent -> bool, arrives: Bytes -> bool) {
    match e
    case Send(_, x) => served(x)
    case Arrive(_, payloads) => AllFrom(payloads, arrives)
    case ArriveIdle(_, payload) => arrives(payload)
    case _ => true
  }

  ghost predicate AllHarmless(served: Sent -> bool, arrives: Bytes -> bool) {
    forall x :: Proper(x) && served(x) ==> HarmlessSent(x, arrives)
  }

  lemma {:induction false} RunWire(s: State, events: seq<Event>, served: Sent -> bool, arrives: Bytes -> bool)
    requires WireInv(s, arrives) && Executes(s, events) && DrawnFrom(events, served, arrives)
    requires AllHarmless(served, arrives)
    ensures WireInv(Final(s, events), arrives)
    decreases |events|
  {
    if events != [] {
      assert Drawn(events[0], served, arrives);
      WireStep(s, events[0], arrives);
      assert DrawnFrom(events[1..], served, arrives);
      RunWire(Next(s, events[0]), events[1..], served, arrives);
    }
  }

  ghost predicate RightInEveryRun(size: nat, served: Sent -> bool, arrives: Bytes -> bool) {
    forall events :: Executes(Start(size), events) && DrawnFrom(events, served, arrives) ==>
      AnswersRight(Final(Start(size), events))
  }

  /**
   * Each successful request reads the shard's replies to it and leaves its connection silent, in every
   * interleaving, if and only if everything a shard may do with a batch is harmless: its replies are
   * read whole, or reading one for each command fails.
   */
  lemma AnswersRightIffHarmless(size: nat, served: Sent -> bool, arrives: Bytes -> bool)
    requires size > 0
    ensures RightInEveryRun(size, served, arrives) <==> AllHarmless(served, arrives)
  {
    if AllHarmless(served, arrives) {
      forall events | Executes(Start(size), events) && DrawnFrom(events, served, arrives)
        ensures AnswersRight(Final(Start(size), events))
      {
        StartInv(size);
        RunWire(Start(size), events, served, arrives);
      }
    } else {
      var x :| Proper(x) && served(x) && !HarmlessSent(x, arrives);
      HarmfulRun(size, x, served, arrives);
    }
  }

  /** One batch that is not harmless is answered wrongly. */
  lemma HarmfulRun(size: nat, x: Sent, served: Sent -> bool, arrives: Bytes -> bool)
    requires size > 0 && Proper(x) && served(x) && !HarmlessSent(x, arrives)
    ensures !RightInEveryRun(size, served, arrives)
  {
    var payloads: seq<Bytes> := [];
    if x.streams {
      payloads :| AllFrom(payloads, arrives) && !ReadReplies(EncodeItems(x.own) + Join(payloads), x.count).Bad?;
    } else {
      assert EncodeItems(x.own) + Join(payloads) == EncodeItems(x.own);
    }
    var bytes := EncodeItems(x.own) + Join(payloads);
    WrongRun(size, x, payloads, bytes, ReadReplies(bytes, x.count), served, arrives);
  }

  lemma WrongRun(size: nat, x: Sent, payloads: seq<Bytes>, bytes: Bytes, r: Read<seq<Value>>,
                 served: Sent -> bool, arrives: Bytes -> bool)
    requires size > 0 && Proper(x) && served(x) && AllFrom(payloads, arrives) && (!x.streams ==> payloads == [])
    requires bytes == EncodeItems(x.own) + Join(payloads) && r == ReadReplies(bytes, x.count)
    requires r.Got? && (x.streams || r.value != x.own || r.rest != [])
    ensures !RightInEveryRun(size, served, arrives)
  {
    var s1 := Start(size).(tasks := map[0 := Waiting]);
    var events, last := FreshEvents(0, x, payloads), Answered(s1, 0, x, r);
    FreshAttempt(s1, 0, x, payloads, bytes, r);
    LeadsStep(Start(size), Begin(0), s1, events, last);
    assert DrawnFrom([Begin(0)] + events, served, arrives);
    assert last.answers[0] == Outcome(r.value, x.own) && last.idle[0] == Conn(r.rest, x.streams);
    assert !AnswersRight(last);
  }

  /* ----- how often a request is sent ----- */

  /**
   * How often a request reaches the shard: once for each attempt, and there is a further attempt only
   * after an earlier one broke on a reused connection. So a request that was never retried was sent
   * once if it succeeded.
   */
  lemma SentOncePerAttempt(size: nat, events: seq<Event>, s: State, t: nat)
    requires Executes(Start(size), events) && s == Final(Start(size), events)
    ensures s.retries[t] <= s.sends[t] <= s.retries[t] + 1
    ensures t in s.answers ==> s.sends[t] == s.retries[t] + 1
  {
    StartInv(size);
    RunInv(Start(size), events);
  }

  /** A run of events leads from one state to another. */
  ghost predicate Leads(s: State, events: seq<Event>, last: State) {
    Executes(s, events) && Final(s, events) == last
  }

  lemma LeadsStep(s: State, e: Event, s1: State, events: seq<Event>, last: State)
    requires Enabled(s, e) && Next(s, e) == s1 && Leads(s1, events, last)
    ensures Leads(s, [e] + events, last)
  {
    assert ([e] + events)[1..] == events;
  }

  lemma {:induction false} LeadsConcat(s: State, a: seq<Event>, mid: State, b: seq<Event>, last: State)
    requires Leads(s, a, mid) && Leads(mid, b, last)
    ensures Leads(s, a + b, last)
    decreases |a|
  {
    if a == [] {
      assert a + b == b;
    } else {
      LeadsConcat(Next(s, a[0]), a[1..], mid, b, last);
      LeadsStep(s, a[0], Next(s, a[0]), a[1..] + b, last);
      assert [a[0]] + (a[1..] + b) == a + b;
    }
  }

  lemma OneTask(t: nat, p: Phase, q: Phase)
    ensures map[t := p][t := q] == map[t := q] && map[t := p] - {t} == map[]
  {
  }

  /** The state after a lone request was answered on a connection of its own. */
  function Answered(s: State, t: nat, x: Sent, r: Read<seq<Value>>): State
    requires r.Got?
  {
    s.(idle := [Conn(r.rest, x.streams)], tasks := map[], answers := s.answers[t := Outcome(r.value, x.own)],
       sends := s.sends + multiset{t})
  }

  /** The phase of a lone request on a fresh connection, after it was sent and something came. */
  function Alone(x: Sent, bytes: Bytes, reused: bool, payloads: seq<Bytes>): Phase {
    Using(Conn(bytes, x.streams), reused, Some(x), payloads)
  }

  lemma AnswerLeads(s: State, s3: State, t: nat, x: Sent, payloads: seq<Bytes>, bytes: Bytes, r: Read<seq<Value>>)
    requires s.free > 0 && s.idle == [] && !s.closed && ReadReplies(bytes, x.count) == r && r.Got?
    requires s3 == s.(free := s.free - 1, tasks := map[t := Alone(x, bytes, false, payloads)],
             sends := s.sends + multiset{t})
    ensures Leads(s3, [Answer(t)], Answered(s, t, x, r))
  {
    AnswerAlone(s, s3, t, x, payloads, bytes, r);
    LeadsStep(s3, Answer(t), Answered(s, t, x, r), [], Answered(s, t, x, r));
  }

  lemma AnswerAlone(s: State, s3: State, t: nat, x: Sent, payloads: seq<Bytes>, bytes: Bytes, r: Read<seq<Value>>)
    requires s.free > 0 && s.idle == [] && !s.closed && ReadReplies(bytes, x.count) == r && r.Got?
    requires s3 == s.(free := s.free - 1, tasks := map[t := Alone(x, bytes, false, payloads)],
             sends := s.sends + multiset{t})
    ensures Enabled(s3, Answer(t)) && Next(s3, Answer(t)) == Answered(s, t, x, r)
  {
    OneTask(t, s3.tasks[t], Waiting);
    assert [] + [Conn(r.rest, x.streams)] == [Conn(r.rest, x.streams)];
  }

  lemma ArriveLeads(s: State, t: nat, x: Sent, sent: Bytes, bytes: Bytes, payloads: seq<Bytes>, events: seq<Event>,
                    last: State)
    requires s.tasks == map[t := Alone(x, sent, false, [])] && x.streams && bytes == sent + Join(payloads)
    requires Leads(s.(tasks := map[t := Alone(x, bytes, false, payloads)]), events, last)
    ensures Leads(s, [Arrive(t, payloads)] + events, last)
  {
    assert [] + payloads == payloads;
    OneTask(t, s.tasks[t], Alone(x, bytes, false, payloads));
    LeadsStep(s, Arrive(t, payloads), s.(tasks := map[t := Alone(x, bytes, false, payloads)]), events, last);
  }

  lemma SendLeads(s: State, t: nat, x: Sent, sent: Bytes, reused: bool, events: seq<Event>, last: State)
    requires s.tasks == map[t := Using(Conn([], false), reused, None, [])] && Proper(x) && sent == EncodeItems(x.own)
    requires Leads(s.(tasks := map[t := Alone(x, sent, reused, [])], sends := s.sends + multiset{t}), events, last)
    ensures Leads(s, [Send(t, x)] + events, last)
  {
    assert [] + sent == sent;
    OneTask(t, s.tasks[t], AfterSend(s.tasks[t], x));
    LeadsStep(s, Send(t, x), s.(tasks := map[t := Alone(x, sent, reused, [])], sends := s.sends + multiset{t}),
      events, last);
  }

  lemma OpenLeads(s: State, t: nat, events: seq<Event>, last: State)
    requires s.tasks == map[t := Waiting] && s.free > 0 && s.idle == []
    requires Leads(s.(free := s.free - 1, tasks := map[t := Using(Conn([], false), false, None, [])]), events, last)
    ensures Leads(s, [Acquire(t)] + ([Connected(t)] + events), last)
  {
    var s1 := s.(free := s.free - 1, tasks := map[t := Connecting]);
    var open := Using(Conn([], false), false, None, []);
    OneTask(t, Waiting, Connecting);
    OneTask(t, Connecting, open);
    LeadsStep(s1, Connected(t), s1.(tasks := map[t := open]), events, last);
    LeadsStep(s, Acquire(t), s1, [Connected(t)] + events, last);
  }

  /** What a lone request does and waits for: its answer, after what the shard streams, if it does. */
  function ReadEvents(t: nat, x: Sent, payloads: seq<Bytes>): seq<Event> {
    if x.streams then [Arrive(t, payloads)] + [Answer(t)] else [Answer(t)]
  }

  function FreshEvents(t: nat, x: Sent, payloads: seq<Bytes>): seq<Event> {
    [Acquire(t)] + ([Connected(t)] + ([Send(t, x)] + ReadEvents(t, x, payloads)))
  }

  lemma ReadLeads(s: State, s2: State, t: nat, x: Sent, sent: Bytes, payloads: seq<Bytes>, bytes: Bytes,
                  r: Read<seq<Value>>)
    requires s.free > 0 && s.idle == [] && !s.closed && (!x.streams ==> payloads == [])
    requires s2 == s.(free := s.free - 1, tasks := map[t := Alone(x, sent, false, [])], sends := s.sends + multiset{t})
    requires bytes == sent + Join(payloads) && r == ReadReplies(bytes, x.count) && r.Got?
    ensures Leads(s2, ReadEvents(t, x, payloads), Answered(s, t, x, r))
  {
    var s3 := s2.(tasks := map[t := Alone(x, bytes, false, payloads)]);
    AnswerLeads(s, s3, t, x, payloads, bytes, r);
    if x.streams {
      ArriveLeads(s2, t, x, sent, bytes, payloads, [Answer(t)], Answered(s, t, x, r));
    } else {
      assert sent + Join([]) == sent;
    }
  }

  lemma SendAndAnswer(s: State, s1: State, t: nat, x: Sent, payloads: seq<Bytes>, bytes: Bytes, r: Read<seq<Value>>)
    requires s.free > 0 && s.idle == [] && !s.closed && (!x.streams ==> payloads == []) && Proper(x)
    requires s1 == s.(free := s.free - 1, tasks := map[t := Using(Conn([], false), false, None, [])])
    requires bytes == EncodeItems(x.own) + Join(payloads) && r == ReadReplies(bytes, x.count) && r.Got?
    ensures Leads(s1, [Send(t, x)] + ReadEvents(t, x, payloads), Answered(s, t, x, r))
  {
    var sent := EncodeItems(x.own);
    var s2 := s1.(tasks := map[t := Alone(x, sent, false, [])], sends := s.sends + multiset{t});
    ReadLeads(s, s2, t, x, sent, payloads, bytes, r);
    SendLeads(s1, t, x, sent, false, ReadEvents(t, x, payloads), Answered(s, t, x, r));
  }

  /** A request opens a connection and is answered. */
  lemma FreshAttempt(s: State, t: nat, x: Sent, payloads: seq<Bytes>, bytes: Bytes, r: Read<seq<Value>>)
    requires s.tasks == map[t := Waiting] && s.free > 0 && s.idle == [] && !s.closed
    requires (!x.streams ==> payloads == []) && Proper(x)
    requires bytes == EncodeItems(x.own) + Join(payloads) && r == ReadReplies(bytes, x.count) && r.Got?
    ensures Leads(s, FreshEvents(t, x, payloads), Answered(s, t, x, r))
  {
    var s1 := s.(free := s.free - 1, tasks := map[t := Using(Conn([], false), false, None, [])]);
    SendAndAnswer(s, s1, t, x, payloads, bytes, r);
    OpenLeads(s, t, [Send(t, x)] + ReadEvents(t, x, payloads), Answered(s, t, x, r));
  }

  function LostEvents(t: nat, x: Sent): seq<Event> {
    [Acquire(t)] + ([Send(t, x)] + [Break(t)])
  }

  lemma BreakLeads(s: State, s2: State, t: nat, x: Sent, sent: Bytes, last: State)
    requires s.free > 0
    requires s2 == s.(free := s.free - 1, idle := [], tasks := map[t := Alone(x, sent, true, [])],
             sends := s.sends + multiset{t})
    requires last == s.(idle := [], tasks := map[t := Waiting], sends := s.sends + multiset{t},
             retries := s.retries + multiset{t})
    ensures Leads(s2, [Break(t)], last)
  {
    OneTask(t, s2.tasks[t], Waiting);
    LeadsStep(s2, Break(t), last, [], last);
  }

  /** A request is sent on the idle connection and loses it. */
  lemma LostAttempt(s: State, t: nat, x: Sent, sent: Bytes, last: State)
    requires s.tasks == map[t := Waiting] && s.free > 0 && s.idle == [Conn([], false)] && Proper(x) &&
             sent == EncodeItems(x.own)
    requires last == s.(idle := [], sends := s.sends + multiset{t}, retries := s.retries + multiset{t})
    ensures Leads(s, LostEvents(t, x), last)
  {
    var held := Using(Conn([], false), true, None, []);
    var s1 := s.(free := s.free - 1, idle := [], tasks := map[t := held]);
    var s2 := s1.(tasks := map[t := Alone(x, sent, true, [])], sends := s.sends + multiset{t});
    BreakLeads(s, s2, t, x, sent, last);
    SendLeads(s1, t, x, sent, true, [Break(t)], last);
    OneTask(t, Waiting, held);
    LeadsStep(s, Acquire(t), s1, [Send(t, x)] + [Break(t)], last);
  }

  /**
   * A retry really repeats the request: on any quiet pool with an idle connection, a new request can
   * be sent on that connection, lose it, be sent again on a fresh one and be answered - sent twice.
   */
  lemma RetryRepeatsRequest(s: State, t: nat, vs: seq<Value>)
    requires s.tasks == map[] && s.free > 0 && s.idle == [Conn([], false)] && !s.closed && Enabled(s, Begin(t))
    requires AllTransportable(vs)
    ensures var x := Sent(|vs|, vs, false);
            var events := [Begin(t)] + (LostEvents(t, x) + FreshEvents(t, x, []));
            Executes(s, events) && Final(s, events).sends[t] == 2 && t in Final(s, events).answers
  {
    BatchReadIff(vs);
    var x := Sent(|vs|, vs, false);
    var bytes := EncodeItems(vs);
    assert bytes == EncodeItems(vs) + Join([]);
    var r := ReadReplies(bytes, |vs|);
    var s1 := s.(tasks := map[t := Waiting]);
    var s2 := s1.(idle := [], sends := s.sends + multiset{t}, retries := s.retries + multiset{t});
    LostAttempt(s1, t, x, bytes, s2);
    FreshAttempt(s2, t, x, [], bytes, r);
    LeadsConcat(s1, LostEvents(t, x), s2, FreshEvents(t, x, []), Answered(s2, t, x, r));
    LeadsStep(s, Begin(t), s1, LostEvents(t, x) + FreshEvents(t, x, []), Answered(s2, t, x, r));
  }
}

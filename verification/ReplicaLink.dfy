/**
 * The queue between the primary and one replica: a sender that never waits, a pump that writes one
 * payload at a time, and a byte limit that closes the link.
 */
module ReplicaLink {
  import opened Base

  /** Total length of some payloads. */
  function Size(payloads: seq<Bytes>): nat {
    if payloads == [] then 0 else |payloads[0]| + Size(payloads[1..])
  }

  lemma {:induction false} SizeAppend(a: seq<Bytes>, b: seq<Bytes>)
    ensures Size(a + b) == Size(a) + Size(b)
  {
    if a == [] {
      assert a + b == b;
    } else {
      SizeAppend(a[1..], b);
      assert (a + b)[1..] == a[1..] + b;
    }
  }

  lemma SizeOne(p: Bytes)
    ensures Size([p]) == |p|
  {
    assert [p][1..] == [];
  }

  /** `draining` is the payload written last, while the pump waits for its drain. */
  datatype State = State(limit: nat, closed: bool, queue: seq<Bytes>, pending: nat,
                         written: seq<Bytes>, draining: Option<Bytes>)

  function Start(limit: nat): State {
    State(limit, false, [], 0, [], None)
  }

  datatype Event = Send(payload: Bytes, force: bool) | PumpWrite | PumpDrained | Close

  function DoSend(s: State, payload: Bytes, force: bool): State {
    if s.closed then s
    else if s.pending + |payload| > s.limit && !force then s.(pending := s.pending + |payload|, closed := true)
    else s.(pending := s.pending + |payload|, queue := s.queue + [payload])
  }

  /** One step; a pump step that is not possible now does nothing. */
  function Next(s: State, e: Event): State {
    match e
    case Send(payload, force) => DoSend(s, payload, force)
    case PumpWrite =>
      if s.closed || s.draining.Some? || s.queue == [] then s
      else s.(queue := s.queue[1..], written := s.written + [s.queue[0]], draining := Some(s.queue[0]))
    case PumpDrained =>
      if s.closed || s.draining.None? || s.pending < |s.draining.value| then s
      else s.(pending := s.pending - |s.draining.value|, draining := None)
    case Close => s.(closed := true)
  }

  /** The link after any interleaving of sends, pump steps and closes. */
  function After(limit: nat, events: seq<Event>): State {
    if events == [] then Start(limit) else Next(After(limit, events[..|events| - 1]), events[|events| - 1])
  }

  /** Payloads offered to `send`, in order, whether or not they were accepted. */
  function Offered(events: seq<Event>): seq<Bytes> {
    if events == [] then []
    else
      var before, last := Offered(events[..|events| - 1]), events[|events| - 1];
      if last.Send? then before + [last.payload] else before
  }

  /* ----- the object ----- */

  class Link {
    const limit: nat
    var closed: bool
    var queue: seq<Bytes>
    var pending: nat
    var written: seq<Bytes>
    var draining: Option<Bytes>

    function AsState(): State
      reads this
    {
      State(limit, closed, queue, pending, written, draining)
    }

    constructor (limit: nat)
      ensures AsState() == Start(limit)
    {
      this.limit := limit;
      closed, queue, pending, written, draining := false, [], 0, [], None;
    }

    method SendPayload(payload: Bytes, force: bool)
      modifies this
      ensures AsState() == Next(old(AsState()), Send(payload, force))
      ensures closed <==> old(closed) || (!force && old(pending) + |payload| > limit)
      ensures queue == if closed then old(queue) else old(queue) + [payload]
    {
      if closed {
        return;
      }
      pending := pending + |payload|;
      if pending > limit && !force {
        CloseLink();
        return;
      }
      queue := queue + [payload];
    }

    /** One round of the pump up to its next await: take a payload and write it. */
    method Pump()
      modifies this
      ensures AsState() == Next(old(AsState()), PumpWrite)
    {
      if !closed && draining.None? && queue != [] {
        var payload := queue[0];
        queue := queue[1..];
        written := written + [payload];
        draining := Some(payload);
      }
    }

    /** The rest of the round, when the transport has drained. */
    method Drained()
      modifies this
      ensures AsState() == Next(old(AsState()), PumpDrained)
    {
      if !closed && draining.Some? && pending >= |draining.value| {
        pending := pending - |draining.value|;
        draining := None;
      }
    }

    method CloseLink()
      modifies this
      ensures AsState() == Next(old(AsState()), Close)
    {
      closed := true;
    }
  }

  /* ----- every interleaving ----- */

  function InFlight(s: State): nat {
    if s.draining.Some? then |s.draining.value| else 0
  }

  ghost predicate Inv(s: State, offered: seq<Bytes>) {
    && s.written + s.queue <= offered
    && (!s.closed ==> s.written + s.queue == offered && s.pending == Size(s.queue) + InFlight(s))
    && (s.draining.Some? ==> s.written != [] && s.draining.value == s.written[|s.written| - 1])
  }

  lemma SendInv(s: State, payload: Bytes, force: bool, offered: seq<Bytes>)
    requires Inv(s, offered)
    ensures Inv(DoSend(s, payload, force), offered + [payload])
  {
    SizeAppend(s.queue, [payload]);
    SizeOne(payload);
    Regroup(s.written, s.queue, [payload]);
  }

  lemma PumpInv(s: State, offered: seq<Bytes>)
    requires Inv(s, offered)
    ensures Inv(Next(s, PumpWrite), offered)
  {
    if s.queue != [] {
      var first := [s.queue[0]];
      assert s.queue == first + s.queue[1..];
      SizeAppend(first, s.queue[1..]);
      SizeOne(s.queue[0]);
      Regroup(s.written, first, s.queue[1..]);
    }
  }

  lemma {:induction false} AfterInv(limit: nat, events: seq<Event>)
    ensures Inv(After(limit, events), Offered(events)) && After(limit, events).limit == limit
  {
    if events != [] {
      var before := events[..|events| - 1];
      AfterInv(limit, before);
      match events[|events| - 1] {
        case Send(payload, force) => SendInv(After(limit, before), payload, force, Offered(before));
        case PumpWrite => PumpInv(After(limit, before), Offered(before));
        case PumpDrained =>
        case Close =>
      }
    }
  }

  /**
   * The link never skips: in every interleaving, what was written is a prefix of what was offered,
   * in order; while the link is open, written and queued together are all of it, and the pending
   * count is exactly the queued and in-flight bytes.
   */
  lemma NeverSkips(limit: nat, events: seq<Event>)
    ensures var s := After(limit, events);
            Join(s.written) <= Join(Offered(events)) && s.written <= Offered(events) &&
            (!s.closed ==> s.written + s.queue == Offered(events) && s.pending == Size(s.queue) + InFlight(s))
  {
    AfterInv(limit, events);
    var s := After(limit, events);
    var offered := Offered(events);
    assert offered[..|s.written|] == s.written;
    assert offered == s.written + offered[|s.written|..];
    JoinAppend(s.written, offered[|s.written|..]);
  }

  /** Once closed, a link accepts nothing, writes nothing and stays closed. */
  lemma {:induction false} ClosedIsFinal(limit: nat, events: seq<Event>, more: seq<Event>)
    requires After(limit, events).closed
    ensures var s, t := After(limit, events), After(limit, events + more);
            t.closed && t.written == s.written && t.queue == s.queue
  {
    if more == [] {
      assert events + more == events;
    } else {
      ClosedIsFinal(limit, events, more[..|more| - 1]);
      assert (events + more)[..|events + more| - 1] == events + more[..|more| - 1];
    }
  }

  /* ----- the bound ----- */

  /** Forced sends come first: a resync is queued before the link receives live writes. */
  ghost predicate ForcedFirst(events: seq<Event>) {
    forall i, j :: 0 <= i < j < |events| && events[i].Send? && events[j].Send? && events[j].force ==> events[i].force
  }

  /** Bytes of the forced payloads. */
  function ForcedSize(events: seq<Event>): nat {
    if events == [] then 0
    else
      var last := events[|events| - 1];
      ForcedSize(events[..|events| - 1]) + (if last.Send? && last.force then |last.payload| else 0)
  }

  lemma {:induction false} AllForced(events: seq<Event>)
    requires forall i :: 0 <= i < |events| && events[i].Send? ==> events[i].force
    ensures Size(Offered(events)) == ForcedSize(events)
  {
    if events != [] {
      var before, last := events[..|events| - 1], events[|events| - 1];
      AllForced(before);
      if last.Send? {
        SizeAppend(Offered(before), [last.payload]);
        SizeOne(last.payload);
      }
    }
  }

  /** What is queued or in flight is part of what was offered. */
  lemma PendingWithinOffered(s: State, offered: seq<Bytes>)
    requires Inv(s, offered) && !s.closed
    ensures s.pending <= Size(offered)
  {
    SizeAppend(s.written, s.queue);
    if s.draining.Some? {
      var n := |s.written| - 1;
      assert s.written == s.written[..n] + [s.draining.value];
      SizeAppend(s.written[..n], [s.draining.value]);
      SizeOne(s.draining.value);
    }
  }

  /** While the link is open, pending bytes are at most the limit or the size of the forced snapshot. */
  lemma {:induction false} PendingBounded(limit: nat, events: seq<Event>)
    requires ForcedFirst(events) && !After(limit, events).closed
    ensures After(limit, events).pending <= limit || After(limit, events).pending <= ForcedSize(events)
  {
    if events != [] {
      var before, last := events[..|events| - 1], events[|events| - 1];
      AfterInv(limit, before);
      PendingBounded(limit, before);
      if last.Send? && last.force {
        AllForced(events);
        AfterInv(limit, events);
        PendingWithinOffered(After(limit, events), Offered(events));
      }
    }
  }

  /* ----- exactly when a link is open, and that an open link delivers ----- */

  /** Payloads taken by the pump and payloads drained, told from the events alone. */
  datatype Progress = Progress(offered: nat, taken: nat, drained: nat)

  /** The pump takes the next payload when the last one it took has drained. */
  function ProgressAfter(events: seq<Event>): (p: Progress)
    ensures p.drained <= p.taken <= p.offered && p.taken <= p.drained + 1
  {
    if events == [] then Progress(0, 0, 0)
    else
      var p := ProgressAfter(events[..|events| - 1]);
      match events[|events| - 1]
      case Send(_, _) => p.(offered := p.offered + 1)
      case PumpWrite => if p.taken == p.drained && p.taken < p.offered then p.(taken := p.taken + 1) else p
      case PumpDrained => p.(drained := p.taken)
      case Close => p
  }

  lemma {:induction false} OfferedCount(events: seq<Event>)
    ensures |Offered(events)| == ProgressAfter(events).offered
  {
    if events != [] {
      OfferedCount(events[..|events| - 1]);
    }
  }

  /** Bytes offered and not yet drained. */
  function Backlog(events: seq<Event>): nat
  {
    OfferedCount(events);
    Size(Offered(events)[ProgressAfter(events).drained..])
  }

  /** The payload sent at event `i` is forced, or fits in the limit together with the backlog it meets. */
  predicate FitsAt(limit: nat, events: seq<Event>, i: nat)
    requires i < |events|
  {
    events[i].Send? && !events[i].force ==> Backlog(events[..i]) + |events[i].payload| <= limit
  }

  ghost predicate NeverClosed(limit: nat, events: seq<Event>) {
    forall i: nat :: i < |events| ==> !events[i].Close? && FitsAt(limit, events, i)
  }

  /** An open link is where the events alone say it is. */
  ghost predicate Tracks(s: State, events: seq<Event>) {
    var p := ProgressAfter(events);
    && |Offered(events)| == p.offered && s.written + s.queue == Offered(events) && |s.written| == p.taken
    && (s.draining.Some? <==> p.drained < p.taken) && s.pending == Backlog(events)
  }

  lemma SizeFrom(s: seq<Bytes>, i: nat)
    requires i < |s|
    ensures Size(s[i..]) == |s[i]| + Size(s[i + 1..])
  {
    assert s[i..][1..] == s[i + 1..];
  }

  /** While the link is open, its fields are told from the events. */
  lemma {:induction false} OpenTracks(limit: nat, events: seq<Event>)
    requires !After(limit, events).closed
    ensures Tracks(After(limit, events), events)
  {
    if events != [] {
      var before, last := events[..|events| - 1], events[|events| - 1];
      OpenTracks(limit, before);
      AfterInv(limit, before);
      AfterInv(limit, events);
      var s, p, offered := After(limit, before), ProgressAfter(before), Offered(before);
      match last {
        case Send(payload, force) => BacklogGrows(offered, p.drained, payload);
        case PumpWrite =>
        case PumpDrained =>
          if p.drained < p.taken {
            SizeFrom(offered, p.drained);
            assert offered[p.drained] == s.written[p.drained] == s.draining.value;
          }
        case Close =>
      }
    }
  }

  lemma BacklogGrows(offered: seq<Bytes>, drained: nat, payload: Bytes)
    requires drained <= |offered|
    ensures Size((offered + [payload])[drained..]) == Size(offered[drained..]) + |payload|
  {
    assert (offered + [payload])[drained..] == offered[drained..] + [payload];
    SizeAppend(offered[drained..], [payload]);
    SizeOne(payload);
  }

  lemma NeverClosedNext(limit: nat, events: seq<Event>)
    requires events != []
    ensures var n := |events| - 1;
            NeverClosed(limit, events) <==>
            NeverClosed(limit, events[..n]) && !events[n].Close? && FitsAt(limit, events, n)
  {
    var n := |events| - 1;
    var before := events[..n];
    forall i: nat | i < n ensures before[i] == events[i] && (FitsAt(limit, before, i) <==> FitsAt(limit, events, i)) {
      assert before[..i] == events[..i];
    }
    if NeverClosed(limit, before) && !events[n].Close? && FitsAt(limit, events, n) {
      forall i: nat | i < |events| ensures !events[i].Close? && FitsAt(limit, events, i) {
        assert i < n ==> !before[i].Close? && FitsAt(limit, before, i);
      }
    }
    if NeverClosed(limit, events) {
      forall i: nat | i < |before| ensures !before[i].Close? && FitsAt(limit, before, i) {
        assert !events[i].Close? && FitsAt(limit, events, i);
      }
    }
  }

  /**
   * A link is open after a run of events if and only if no close occurred and each payload that was not
   * forced fitted in the limit, together with the bytes offered and not drained when it was sent.
   */
  lemma {:induction false} OpenIff(limit: nat, events: seq<Event>)
    ensures !After(limit, events).closed <==> NeverClosed(limit, events)
  {
    if events != [] {
      var n := |events| - 1;
      OpenIff(limit, events[..n]);
      NeverClosedNext(limit, events);
      AfterInv(limit, events[..n]);
      if !After(limit, events[..n]).closed {
        OpenTracks(limit, events[..n]);
      }
    }
  }

  /** A payload sent within the limit on an open link is written or queued, where it was offered. */
  lemma SentIsKept(limit: nat, events: seq<Event>, payload: Bytes, force: bool)
    requires NeverClosed(limit, events) && (force || Backlog(events) + |payload| <= limit)
    ensures var s := After(limit, events + [Send(payload, force)]);
            !s.closed && s.written + s.queue == Offered(events) + [payload]
  {
    var all := events + [Send(payload, force)];
    assert all[..|events|] == events;
    OpenIff(limit, events);
    NeverClosedNext(limit, all);
    OpenIff(limit, all);
    OpenTracks(limit, all);
  }

  /** Rounds of the pump among some events: a drain, and later a write. `ready` says that a drain has come. */
  function Rounds(more: seq<Event>, ready: bool): nat {
    if more == [] then 0
    else
      match more[0]
      case PumpDrained => Rounds(more[1..], true)
      case PumpWrite => if ready then 1 + Rounds(more[1..], false) else Rounds(more[1..], ready)
      case _ => Rounds(more[1..], ready)
  }

  /** The pump has taken at least `n` payloads, or all the first `all`; if `ready`, it waits for no drain. */
  ghost predicate Pumped(p: Progress, all: nat, n: int, ready: bool) {
    (p.taken >= n || p.taken >= all) && all <= p.offered && (ready ==> p.drained == p.taken)
  }

  lemma ProgressNext(events: seq<Event>, e: Event)
    ensures var p, q := ProgressAfter(events), ProgressAfter(events + [e]);
            q == match e
                 case Send(_, _) => p.(offered := p.offered + 1)
                 case PumpWrite => if p.taken == p.drained && p.taken < p.offered then p.(taken := p.taken + 1) else p
                 case PumpDrained => p.(drained := p.taken)
                 case Close => p
  {
    assert (events + [e])[..|events|] == events;
  }

  lemma {:induction false} RoundsTake(events: seq<Event>, more: seq<Event>, all: nat, n: int, ready: bool)
    requires Pumped(ProgressAfter(events), all, n, ready)
    ensures var p := ProgressAfter(events + more); p.taken >= n + Rounds(more, ready) || p.taken >= all
    decreases |more|
  {
    if more == [] {
      assert events + more == events;
    } else {
      var e, rest := more[0], more[1..];
      assert events + more == (events + [e]) + rest;
      ProgressNext(events, e);
      match e {
        case PumpDrained => RoundsTake(events + [e], rest, all, n, true);
        case PumpWrite =>
          if ready {
            RoundsTake(events + [e], rest, all, n + 1, false);
          } else {
            RoundsTake(events + [e], rest, all, n, ready);
          }
        case _ => RoundsTake(events + [e], rest, all, n, ready);
      }
    }
  }

  lemma {:induction false} OfferedAppend(events: seq<Event>, more: seq<Event>)
    ensures Offered(events) <= Offered(events + more)
  {
    if more == [] {
      assert events + more == events;
    } else {
      assert (events + more)[..|events + more| - 1] == events + more[..|more| - 1];
      OfferedAppend(events, more[..|more| - 1]);
    }
  }

  /**
   * Everything offered is written after enough rounds of the pump, whatever else happens meanwhile, if
   * the link is still open: as many rounds as there were payloads still in the queue.
   */
  lemma PumpsDeliver(limit: nat, events: seq<Event>, more: seq<Event>)
    requires NeverClosed(limit, events + more)
    requires |Offered(events)| - ProgressAfter(events).taken <= Rounds(more, false)
    ensures var s := After(limit, events + more); !s.closed && Offered(events) <= s.written
  {
    OpenIff(limit, events + more);
    OpenTracks(limit, events + more);
    OfferedCount(events);
    RoundsTake(events, more, |Offered(events)|, ProgressAfter(events).taken, false);
    OfferedAppend(events, more);
    var s := After(limit, events + more);
    assert s.written == Offered(events + more)[..|s.written|];
  }
}

/**
 * Two readings of a command's name. The server decides whether a request is a write by reading its name
 * as ASCII; the command layer decodes the name as Unicode, runs the command that the decoded name in upper
 * case denotes, and repeats the decoded name when it denotes none. Decoding and upper-casing are arbitrary
 * functions here, except that they agree with the server on ASCII names.
 */
module NameReadings {
  import opened Base
  import opened CacheModel
  import opened Commands
  import opened TimedReplay
  import opened PlainMap
  import opened Replication
  import opened Replies
  import Resp

  predicate AsciiName(name: Bytes) {
    forall i :: 0 <= i < |name| ==> name[i] as int < 128
  }

  /** The command layer's reading of names: in upper case, and as a text that an error repeats. */
  datatype Reading = Reading(hear: Bytes -> Bytes, text: Bytes -> Bytes)

  /** ASCII names are read alike, and decoding invents no ASCII names. */
  ghost predicate ReadsAscii(rd: Reading) {
    && (forall name: Bytes :: AsciiName(name) ==> rd.hear(name) == Upper(name) && rd.text(name) == name)
    && (forall name: Bytes :: AsciiName(rd.text(name)) ==> rd.text(name) == name)
  }

  /** The request as the command layer takes it. */
  function Heard(rd: Reading, raw: Record): Record {
    if raw == [] then raw
    else [if IsKnown(rd.hear(raw[0])) then rd.hear(raw[0]) else rd.text(raw[0])] + raw[1..]
  }

  /** `dispatch`, with its own reading of the name. */
  function Understood(c: Cache, cfg: Config, rd: Reading, raw: Record, now: int): Effect {
    Dispatch(c, cfg, Heard(rd, raw), now)
  }

  /** The server reads the name as that of a write command. */
  predicate ReadAsWrite(raw: Record) {
    raw != [] && IsWriteName(Upper(raw[0]))
  }

  /* ----- names both readings know ----- */

  lemma KnownNamesAreUpper(name: Bytes)
    requires IsKnown(name)
    ensures AllUpper(name) && |name| <= 9 && Upper(name) == name
  {
    assert AllUpper(name) && |name| <= 9 by {
      if name in WRITES {
        var i :| 0 <= i < |WRITES| && WRITES[i] == name;
        assert i < 11;
      } else if name in READS {
        var i :| 0 <= i < |READS| && READS[i] == name;
        assert i < 8;
      }
    }
    UpperFixed(name);
  }

  lemma AllUpperIsAscii(name: Bytes)
    requires AllUpper(Upper(name))
    ensures AsciiName(name) && Resp.NoLF(Upper(name))
  {
    forall i | 0 <= i < |name| ensures name[i] as int < 128 {
      assert 'A' <= Upper(name)[i] <= 'Z';
    }
  }

  /** What reads as a known name in ASCII is ASCII. */
  lemma KnownNamesAreAscii(name: Bytes)
    requires IsKnown(Upper(name))
    ensures AsciiName(name)
  {
    KnownNamesAreUpper(Upper(name));
    AllUpperIsAscii(name);
  }

  /** A name that is known does not appear in the outcome of parsing a read. */
  lemma TypedNameUnused(name: Bytes, a: Bytes, b: Bytes, args: seq<Bytes>)
    requires name in READS
    ensures ParseRead(name, a, args) == ParseRead(name, b, args)
  {
  }

  lemma SameReadSameParse(a: Record, b: Record)
    requires a != [] && b != [] && Upper(a[0]) == Upper(b[0]) && a[1..] == b[1..] && Upper(a[0]) in READS
    ensures Parse(a) == Parse(b)
  {
    TypedNameUnused(Upper(a[0]), a[0], b[0], a[1..]);
  }

  lemma SameWriteSameParse(a: Record, b: Record)
    requires a != [] && b != [] && Upper(a[0]) == Upper(b[0]) && a[1..] == b[1..] && IsWriteName(Upper(a[0]))
    ensures Parse(a) == Parse(b)
  {
  }

  /** What is unknown to the command layer is unknown to the server, and repeated as its text. */
  lemma UnknownToBoth(rd: Reading, raw: Record)
    requires ReadsAscii(rd) && raw != []
    ensures IsUnknown(Heard(rd, raw)) <==> !IsKnown(rd.hear(raw[0]))
    ensures IsUnknown(Heard(rd, raw)) ==> Heard(rd, raw)[0] == rd.text(raw[0]) && IsUnknown(raw)
  {
    var name, heard := raw[0], Heard(rd, raw);
    if IsKnown(rd.hear(name)) {
      KnownNamesAreUpper(rd.hear(name));
    } else if IsKnown(Upper(rd.text(name))) {
      KnownNamesAreAscii(rd.text(name));
    }
    if IsKnown(Upper(name)) {
      KnownNamesAreAscii(name);
    }
  }

  lemma HeardWithinLimits(rd: Reading, raw: Record)
    requires ReadsAscii(rd) && Resp.WithinLimits(raw) && !IsUnknown(Heard(rd, raw))
    ensures Resp.WithinLimits(Heard(rd, raw))
  {
    if raw != [] {
      UnknownToBoth(rd, raw);
      KnownNamesAreUpper(rd.hear(raw[0]));
    }
  }

  lemma ParseUpperName(raw: Record)
    requires raw != [] && IsKnown(Upper(raw[0]))
    ensures Parse([Upper(raw[0])] + raw[1..]) == Parse(raw)
  {
    var heard := [Upper(raw[0])] + raw[1..];
    KnownNamesAreUpper(Upper(raw[0]));
    assert heard[1..] == raw[1..];
    if IsWriteName(Upper(raw[0])) {
      SameWriteSameParse(heard, raw);
    } else {
      SameReadSameParse(heard, raw);
    }
  }

  /** On ASCII names there is nothing to misunderstand. */
  lemma AsciiUnderstood(c: Cache, cfg: Config, rd: Reading, raw: Record, now: int)
    requires ReadsAscii(rd) && (raw != [] ==> AsciiName(raw[0]))
    ensures Parse(Heard(rd, raw)) == Parse(raw) && Understood(c, cfg, rd, raw, now) == Dispatch(c, cfg, raw, now)
  {
    if raw != [] {
      if IsKnown(rd.hear(raw[0])) {
        ParseUpperName(raw);
      } else {
        HeadAndTail(raw);
      }
    }
  }

  /* ----- which writes are published ----- */

  lemma ReadsAreNotWrites(name: Bytes)
    requires name in READS
    ensures !IsWriteName(name)
  {
    assert forall i :: 0 <= i < 11 ==> WRITES[i] != name;
  }

  /** The server's test by name is the command layer's distinction between writes and reads. */
  lemma WritesByName(raw: Record)
    requires Parse(raw).Ok?
    ensures IsWrite(Parse(raw).cmd) <==> ReadAsWrite(raw)
  {
    var name := Upper(raw[0]);
    if !IsKnown(name) {
      ParseUnknown(raw);
      assert false;
    } else if name in READS {
      ReadsAreNotWrites(name);
    }
  }

  lemma SetByName(raw: Record)
    requires Parse(raw).Ok?
    ensures Parse(raw).cmd.CSet? <==> Upper(raw[0]) == "SET"
  {
  }

  /** The server's test, made on its own reading and the reply, is the one the log's model makes. */
  lemma CommitsByName(c: Cache, cfg: Config, rd: Reading, raw: Record, now: int)
    requires ReadsAscii(rd)
    ensures var reply := Understood(c, cfg, rd, raw, now).reply;
            Commits(raw, reply) <==> ReadAsWrite(raw) && !reply.Error?
  {
    if ReadAsWrite(raw) {
      KnownNamesAreAscii(raw[0]);
      AsciiUnderstood(c, cfg, rd, raw, now);
    }
    if Parse(raw).Ok? {
      WritesByName(raw);
    }
  }

  /** The command layer ran the request as a write that took effect. */
  predicate Effective(rd: Reading, raw: Record, eff: Effect) {
    TookEffect(Heard(rd, raw), eff)
  }

  /**
   * A write that took effect is logged and sent to replicas, with all its evictions, if and only if the
   * server reads its name as that of a write; otherwise it is answered, and nothing is published.
   */
  lemma PublishedIffReadAsWrite(c: Cache, cfg: Config, rd: Reading, raw: Record, now: int)
    requires ReadsAscii(rd) && Effective(rd, raw, Understood(c, cfg, rd, raw, now))
    ensures var eff := Understood(c, cfg, rd, raw, now);
            if ReadAsWrite(raw) then
              && Appended(raw, eff, now) == ToAof(raw, now) + DelRecords(eff.evicted) != []
              && Messages(raw, eff) == [ToReplication(raw)] + DelRecords(eff.evicted)
            else Appended(raw, eff, now) == [] && Messages(raw, eff) == []
  {
    if ReadAsWrite(raw) {
      KnownNamesAreAscii(raw[0]);
      AsciiUnderstood(c, cfg, rd, raw, now);
      AofFormNotEmpty(raw, now);
    } else if Parse(raw).Ok? {
      WritesByName(raw);
    }
  }

  lemma AofFormNotEmpty(raw: Record, now: int)
    ensures ToAof(raw, now) != []
  {
  }

  /** SET with a long s, in UTF-8. */
  const LONG_S_SET: Bytes := [0xC5 as char, 0xBF as char, 'E', 'T']

  /** Read as SET in Unicode, it is run and answered OK, and neither logged nor sent. */
  lemma LongSetIsNotPublished(rd: Reading, now: int)
    requires ReadsAscii(rd) && rd.hear(LONG_S_SET) == "SET"
    ensures var raw := [LONG_S_SET, "k", "v"];
            var eff := Understood(EMPTY, UNLIMITED, rd, raw, now);
            eff.reply == OK && Values(eff.cache) == map["k" := "v"] &&
            Appended(raw, eff, now) == [] && Messages(raw, eff) == []
  {
    var raw := [LONG_S_SET, "k", "v"];
    assert Heard(rd, raw) == SetRecord("k", "v");
    ParseSetRecord("k", "v");
    assert Upper(LONG_S_SET)[0] == 0xC5 as char;
    if IsKnown(Upper(LONG_S_SET)) {
      KnownNamesAreUpper(Upper(LONG_S_SET));
    }
    ParseUnknown(raw);
  }

  /* ----- what it does to a replica ----- */

  /** What the server publishes of an effect: evictions that earlier commands left behind come with it. */
  function WithPending(pending: seq<Key>, eff: Effect): Effect {
    eff.(evicted := pending + eff.evicted)
  }

  /** The store of a primary, and the evictions it has recorded and not yet published. */
  datatype Primary = Primary(cache: Cache, pending: seq<Key>)

  function NextPrimary(q: Primary, cfg: Config, rd: Reading, raw: Record, now: int): Primary {
    var eff := Understood(q.cache, cfg, rd, raw, now);
    Primary(eff.cache, if Commits(raw, eff.reply) then [] else q.pending + eff.evicted)
  }

  function Sent(q: Primary, cfg: Config, rd: Reading, raw: Record, now: int): seq<Record> {
    Messages(raw, WithPending(q.pending, Understood(q.cache, cfg, rd, raw, now)))
  }

  /**
   * The request parts primary and replica. A published one does if it is an MSET that brings back a key it
   * evicted, or leaves a key that an earlier, unpublished command evicted; an unpublished one does if it
   * changes the contents.
   */
  ghost predicate Parts(q: Primary, cfg: Config, rd: Reading, raw: Record, now: int) {
    var eff := Understood(q.cache, cfg, rd, raw, now);
    if ReadAsWrite(raw) && !eff.reply.Error? then
      MsetBringsBack(q.cache, cfg, raw, now) || exists k :: k in q.pending && k in eff.cache.entries
    else Values(eff.cache) != Values(q.cache)
  }

  lemma ClobbersWithPending(pending: seq<Key>, eff: Effect)
    ensures Clobbers(WithPending(pending, eff)) <==>
            Clobbers(eff) || exists k :: k in pending && k in eff.cache.entries
  {
    var all := WithPending(pending, eff);
    if Clobbers(eff) {
      var k :| k in eff.evicted && k in eff.cache.entries;
      assert k in all.evicted;
    }
    if exists k :: k in pending && k in eff.cache.entries {
      var k :| k in pending && k in eff.cache.entries;
      assert k in all.evicted;
    }
  }

  /** A published command and the evictions before it, on a replica that agreed. */
  lemma PublishedStep(p: Cache, r: Cache, cfg: Config, raw: Record, pending: seq<Key>, now: int, at: int)
    requires WF(p) && InSync(p, r) && TtlFreeRecord(raw) && Commits(raw, Dispatch(p, cfg, raw, now).reply)
    ensures var all := WithPending(pending, Dispatch(p, cfg, raw, now));
            InSync(all.cache, Replay(r, REPLICA, Messages(raw, all), at)) <==> !Clobbers(all)
  {
    var eff, cmd := Dispatch(p, cfg, raw, now), Parse(raw).cmd;
    var all := WithPending(pending, eff);
    ResidueOf(p, cfg, cmd, now);
    if TookEffect(raw, eff) {
      if cmd.CSet? {
        SetTookEffect(p, cfg, cmd.opts, now);
      }
      ResidueWithPending(p, eff, cmd, pending);
      PropagatedStep(p, r, raw, cmd, all, at);
    } else {
      NotPropagated(p, cfg, cmd, now);
      assert Messages(raw, all) == DelRecords(all.evicted);
      ApplyDels(r, all.evicted, at);
      SubtractEvicted(Values(eff.cache), Values(p), KeySet(all.evicted));
      ClobbersMeans(all);
    }
  }

  lemma ResidueWithPending(p: Cache, eff: Effect, cmd: Command, pending: seq<Key>)
    requires Residue(p, eff, cmd)
    ensures Residue(p, WithPending(pending, eff), cmd)
  {
    KeySetAppend(pending, eff.evicted);
    MinusUnion(Values(eff.cache), KeySet(pending), KeySet(eff.evicted));
    MinusUnion(PlainExec(Values(p), cmd), KeySet(pending), KeySet(eff.evicted));
  }

  lemma StaysTtlFree(p: Cache, cfg: Config, raw: Record, now: int)
    requires WF(p) && TtlFree(p) && TtlFreeRecord(raw)
    ensures WF(Dispatch(p, cfg, raw, now).cache) && TtlFree(Dispatch(p, cfg, raw, now).cache)
  {
    if Parse(raw).Ok? {
      ResidueOf(p, cfg, Parse(raw).cmd, now);
    }
  }

  /** One request of any name, from equal contents. */
  lemma HeardStep(q: Primary, r: Cache, cfg: Config, rd: Reading, raw: Record, now: int, at: int)
    requires WF(q.cache) && InSync(q.cache, r) && ReadsAscii(rd) && TtlFreeRecord(Heard(rd, raw))
    ensures InSync(NextPrimary(q, cfg, rd, raw, now).cache, Replay(r, REPLICA, Sent(q, cfg, rd, raw, now), at)) <==>
            !Parts(q, cfg, rd, raw, now)
  {
    var eff := Understood(q.cache, cfg, rd, raw, now);
    CommitsByName(q.cache, cfg, rd, raw, now);
    if Commits(raw, eff.reply) {
      KnownNamesAreAscii(raw[0]);
      AsciiUnderstood(q.cache, cfg, rd, raw, now);
      PublishedStep(q.cache, r, cfg, raw, q.pending, now, at);
      ClobbersWithPending(q.pending, eff);
      ClobbersExactly(q.cache, cfg, raw, now);
    } else {
      StaysTtlFree(q.cache, cfg, Heard(rd, raw), now);
    }
  }

  /* ----- whole runs ----- */

  function PrimaryHeard(q: Primary, cfg: Config, rd: Reading, run: seq<Request>): Primary {
    if run == [] then q
    else
      var last := run[|run| - 1];
      NextPrimary(PrimaryHeard(q, cfg, rd, run[..|run| - 1]), cfg, rd, last.raw, last.now)
  }

  function StreamHeard(q: Primary, cfg: Config, rd: Reading, run: seq<Request>): seq<Record> {
    if run == [] then []
    else
      var before, last := run[..|run| - 1], run[|run| - 1];
      StreamHeard(q, cfg, rd, before) + Sent(PrimaryHeard(q, cfg, rd, before), cfg, rd, last.raw, last.now)
  }

  ghost predicate AllTtlFreeHeard(rd: Reading, run: seq<Request>) {
    forall i :: 0 <= i < |run| ==> TtlFreeRecord(Heard(rd, run[i].raw))
  }

  /** After the first `n` requests of a run, primary and replica hold the same. */
  ghost predicate HeardSyncAt(q: Primary, cfg: Config, rd: Reading, r: Cache, run: seq<Request>, at: int,
                              n: nat)
    requires n <= |run|
  {
    InSync(PrimaryHeard(q, cfg, rd, run[..n]).cache, Replay(r, REPLICA, StreamHeard(q, cfg, rd, run[..n]), at))
  }

  ghost predicate PartsAt(q: Primary, cfg: Config, rd: Reading, run: seq<Request>, n: nat)
    requires n < |run|
  {
    Parts(PrimaryHeard(q, cfg, rd, run[..n]), cfg, rd, run[n].raw, run[n].now)
  }

  lemma {:induction false} PrimaryHeardWF(q: Primary, cfg: Config, rd: Reading, run: seq<Request>)
    requires WF(q.cache)
    ensures WF(PrimaryHeard(q, cfg, rd, run).cache)
  {
    if run != [] {
      var before, last := run[..|run| - 1], run[|run| - 1];
      PrimaryHeardWF(q, cfg, rd, before);
      DispatchWF(PrimaryHeard(q, cfg, rd, before).cache, cfg, Heard(rd, last.raw), last.now);
    }
  }

  lemma HeardSyncNext(q: Primary, cfg: Config, rd: Reading, r: Cache, run: seq<Request>, at: int, n: nat)
    requires WF(q.cache) && ReadsAscii(rd) && AllTtlFreeHeard(rd, run)
    requires n < |run| && HeardSyncAt(q, cfg, rd, r, run, at, n)
    ensures HeardSyncAt(q, cfg, rd, r, run, at, n + 1) <==> !PartsAt(q, cfg, rd, run, n)
  {
    assert run[..n + 1][..n] == run[..n];
    var p, raw, now := PrimaryHeard(q, cfg, rd, run[..n]), run[n].raw, run[n].now;
    var stream := StreamHeard(q, cfg, rd, run[..n]);
    PrimaryHeardWF(q, cfg, rd, run[..n]);
    HeardStep(p, Replay(r, REPLICA, stream, at), cfg, rd, raw, now, at);
    ReplayAppend(r, REPLICA, stream, Sent(p, cfg, rd, raw, now), at);
  }

  lemma {:induction false} HeardSyncUpTo(q: Primary, cfg: Config, rd: Reading, r: Cache, run: seq<Request>,
                                         at: int, n: nat)
    requires WF(q.cache) && InSync(q.cache, r) && ReadsAscii(rd) && AllTtlFreeHeard(rd, run) && n <= |run|
    requires forall m: nat :: m < |run| ==> !PartsAt(q, cfg, rd, run, m)
    ensures HeardSyncAt(q, cfg, rd, r, run, at, n)
  {
    if n > 0 {
      HeardSyncUpTo(q, cfg, rd, r, run, at, n - 1);
      HeardSyncNext(q, cfg, rd, r, run, at, n - 1);
    }
  }

  /**
   * Whatever names the requests carry and however the command layer reads them: a replica that agrees with
   * the primary agrees at every request boundary of a run iff no request of the run parts them.
   */
  lemma HeardRunAgreesIff(q: Primary, cfg: Config, rd: Reading, r: Cache, run: seq<Request>, at: int)
    requires WF(q.cache) && InSync(q.cache, r) && ReadsAscii(rd) && AllTtlFreeHeard(rd, run)
    ensures (forall n: nat :: n <= |run| ==> HeardSyncAt(q, cfg, rd, r, run, at, n)) <==>
            (forall n: nat :: n < |run| ==> !PartsAt(q, cfg, rd, run, n))
  {
    if forall n: nat :: n < |run| ==> !PartsAt(q, cfg, rd, run, n) {
      forall n: nat | n <= |run| ensures HeardSyncAt(q, cfg, rd, r, run, at, n) {
        HeardSyncUpTo(q, cfg, rd, r, run, at, n);
      }
    } else {
      var n: nat :| n < |run| && PartsAt(q, cfg, rd, run, n);
      if HeardSyncAt(q, cfg, rd, r, run, at, n) {
        HeardSyncNext(q, cfg, rd, r, run, at, n);
      }
    }
  }

  /* ----- evictions that go out late ----- */

  /** The keys evicted along a run, in order. */
  function EvictedAlong(q: Primary, cfg: Config, rd: Reading, run: seq<Request>): seq<Key> {
    if run == [] then []
    else
      var before, last := run[..|run| - 1], run[|run| - 1];
      EvictedAlong(q, cfg, rd, before) +
      Understood(PrimaryHeard(q, cfg, rd, before).cache, cfg, rd, last.raw, last.now).evicted
  }

  /** Request `n` of a run is not published. */
  predicate Unpublished(q: Primary, cfg: Config, rd: Reading, run: seq<Request>, n: nat)
    requires n < |run|
  {
    !Commits(run[n].raw, Understood(PrimaryHeard(q, cfg, rd, run[..n]).cache, cfg, rd, run[n].raw, run[n].now).reply)
  }

  lemma UnpublishedBefore(q: Primary, cfg: Config, rd: Reading, run: seq<Request>, n: nat)
    requires n < |run| - 1
    ensures Unpublished(q, cfg, rd, run[..|run| - 1], n) <==> Unpublished(q, cfg, rd, run, n)
  {
    var before := run[..|run| - 1];
    assert before[..n] == run[..n] && before[n] == run[n];
  }

  ghost predicate AllUnpublished(q: Primary, cfg: Config, rd: Reading, run: seq<Request>) {
    forall n: nat :: n < |run| ==> Unpublished(q, cfg, rd, run, n)
  }

  lemma AllUnpublishedBefore(q: Primary, cfg: Config, rd: Reading, run: seq<Request>)
    requires run != [] && AllUnpublished(q, cfg, rd, run)
    ensures AllUnpublished(q, cfg, rd, run[..|run| - 1])
  {
    var before := run[..|run| - 1];
    forall n: nat | n < |before| ensures Unpublished(q, cfg, rd, before, n) {
      UnpublishedBefore(q, cfg, rd, run, n);
    }
  }

  /** Everything evicted along the run is waiting, after what waited before it. */
  ghost predicate Waiting(q: Primary, cfg: Config, rd: Reading, run: seq<Request>) {
    PrimaryHeard(q, cfg, rd, run).pending == q.pending + EvictedAlong(q, cfg, rd, run)
  }

  lemma OneMoreWaits(q: Primary, cfg: Config, rd: Reading, run: seq<Request>)
    requires run != [] && Unpublished(q, cfg, rd, run, |run| - 1) && Waiting(q, cfg, rd, run[..|run| - 1])
    ensures Waiting(q, cfg, rd, run)
  {
    var before, last := run[..|run| - 1], run[|run| - 1];
    var eff := Understood(PrimaryHeard(q, cfg, rd, before).cache, cfg, rd, last.raw, last.now);
    Regroup(q.pending, EvictedAlong(q, cfg, rd, before), eff.evicted);
  }

  lemma {:induction false} EvictionsWait(q: Primary, cfg: Config, rd: Reading, run: seq<Request>)
    requires AllUnpublished(q, cfg, rd, run)
    ensures Waiting(q, cfg, rd, run)
  {
    if run != [] {
      AllUnpublishedBefore(q, cfg, rd, run);
      EvictionsWait(q, cfg, rd, run[..|run| - 1]);
      OneMoreWaits(q, cfg, rd, run);
    }
  }

  /**
   * The evictions of requests that are not published wait, however many there are, and go out with the next
   * one that is: after its own form, one DEL for each key evicted since, oldest first.
   */
  lemma LateEvictionsGoOut(q: Primary, cfg: Config, rd: Reading, run: seq<Request>, raw: Record, now: int)
    requires AllUnpublished(q, cfg, rd, run)
    requires var eff := Understood(PrimaryHeard(q, cfg, rd, run).cache, cfg, rd, raw, now); Commits(raw, eff.reply)
    ensures var p := PrimaryHeard(q, cfg, rd, run); var eff := Understood(p.cache, cfg, rd, raw, now);
            Sent(p, cfg, rd, raw, now) ==
              (if TookEffect(raw, eff) then [ToReplication(raw)] else []) +
              DelRecords(q.pending + EvictedAlong(q, cfg, rd, run) + eff.evicted) &&
            NextPrimary(p, cfg, rd, raw, now).pending == []
  {
    EvictionsWait(q, cfg, rd, run);
  }
}

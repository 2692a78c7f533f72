/**
 * What the server does with a request before it reaches the command layer: names it answers itself, and
 * requests it refuses. One of them, SYNC, turns the connection into a stream of records.
 */
module FrontDesk {
  import opened Base
  import opened CacheModel
  import opened Commands
  import opened PlainMap
  import opened Bounds
  import opened Replies
  import opened NameReadings
  import Pool
  import W = Words
  import Resp

  datatype Rewriting = NoLog | Busy | Ready

  /** The server and the connection as a request finds them, and how the command layer reads names. */
  datatype Desk = Desk(authed: bool, password: Option<Bytes>, replica: bool, overLimit: bool, info: Bytes,
                       rewriting: Rewriting, reading: Reading)

  /** A reply; a reply after which the server closes the connection; or the replication stream. */
  datatype Service = Reply(v: Value) | LastReply(v: Value) | Streams

  /** Names refused under `noeviction` when memory is over the limit. */
  const DENY_OOM: seq<Bytes> := ["SET", "MSET", "INCR", "DECR", "INCRBY", "DECRBY"]

  const NO_PASSWORD: Bytes := "ERR AUTH called without " + "any password configured"
  const AUTH_ARITY: Bytes := "ERR wrong number of arguments " + "for 'AUTH' command"
  const WRONG_PASSWORD: Bytes := "WRONGPASS invalid " + "username-password pair"
  const NO_LOG: Bytes := "ERR AOF is not enabled"
  const REWRITING: Bytes := "ERR Background append only file " + "rewriting already in progress"
  const REWRITE_BEGUN: Bytes := "Background append only file " + "rewriting started"
  const NO_AUTH: Bytes := "NOAUTH Authentication required."
  const CHAINED: Bytes := "ERR chained replication " + "is not supported"
  const READ_ONLY: Bytes := "READONLY You can't write " + "against a replica."
  const NO_MEMORY: Bytes := "OOM command not allowed when " + "used memory > 'maxmemory'."

  /** `_check_auth`. */
  function AuthReply(password: Option<Bytes>, args: seq<Bytes>): Value {
    if password.None? then Resp.Error(NO_PASSWORD)
    else if |args| != 1 && |args| != 2 then Resp.Error(AUTH_ARITY)
    else if |args| == 2 && args[0] != "default" then Resp.Error(WRONG_PASSWORD)
    else if args[|args| - 1] == password.value then OK
    else Resp.Error(WRONG_PASSWORD)
  }

  /** `_start_rewrite`. */
  function RewriteReply(r: Rewriting): Value {
    match r
    case NoLog => Resp.Error(NO_LOG)
    case Busy => Resp.Error(REWRITING)
    case Ready => Resp.Simple(REWRITE_BEGUN)
  }

  /** The tests that come first: QUIT, AUTH, and clients that have not authenticated. */
  function AtDoor(d: Desk, name: Bytes, args: seq<Bytes>): Option<Service> {
    if name == "QUIT" then Some(LastReply(OK))
    else if name == "AUTH" then Some(Reply(AuthReply(d.password, args)))
    else if !d.authed then Some(Reply(Resp.Error(NO_AUTH)))
    else None
  }

  /** The names that concern the server as a whole. */
  function Errand(d: Desk, name: Bytes): Option<Service> {
    if name == "SYNC" then Some(if d.replica then Reply(Resp.Error(CHAINED)) else Streams)
    else if name == "INFO" then Some(Reply(Resp.Bulk(d.info)))
    else if name == "BGREWRITEAOF" then Some(Reply(RewriteReply(d.rewriting)))
    else None
  }

  /** Commands the server does not pass on. */
  function Refusal(d: Desk, cfg: Config, name: Bytes): Option<Service> {
    if d.replica && IsWriteName(name) then Some(Reply(Resp.Error(READ_ONLY)))
    else if name in DENY_OOM && !cfg.lru && d.overLimit then Some(Reply(Resp.Error(NO_MEMORY)))
    else None
  }

  /** What the server answers by itself, in the order of its tests; nothing if the command layer answers. */
  function AtDesk(d: Desk, cfg: Config, raw: Record): Option<Service>
    requires raw != []
  {
    var name := Upper(raw[0]);
    var first := AtDoor(d, name, raw[1..]);
    var second := Errand(d, name);
    if first.Some? then first else if second.Some? then second else Refusal(d, cfg, name)
  }

  /** A request and the circumstances in which the server meets it. */
  datatype Visit = Visit(desk: Desk, cache: Cache, cfg: Config, raw: Record, now: int)

  /** The request as the command layer takes it. */
  function Taken(v: Visit): Record {
    Heard(v.desk.reading, v.raw)
  }

  function Served(v: Visit): Service
    requires v.raw != []
  {
    match AtDesk(v.desk, v.cfg, v.raw)
    case Some(service) => service
    case None => Reply(Dispatch(v.cache, v.cfg, Taken(v), v.now).reply)
  }

  /** Requests off the wire to stores with bounded contents. */
  ghost predicate Sound(v: Visit) {
    && WF(v.cache) && Bounded(Values(v.cache)) && Resp.WithinLimits(v.raw) && v.raw != []
    && Small(v.desk.info) && ReadsAscii(v.desk.reading)
  }

  /* ----- which visits do harm, told from the name ----- */

  /** The name, as the error reply repeats it, makes the client mistake part of the reply for the reply. */
  predicate ForgesReply(v: Visit)
    requires v.raw != []
  {
    v.desk.authed && IsUnknown(Taken(v)) && Forges(Taken(v)[0])
  }

  /** The server takes the client for a replica. */
  predicate BecomesReplica(v: Visit)
    requires v.raw != []
  {
    v.desk.authed && !v.desk.replica && Upper(v.raw[0]) == "SYNC"
  }

  predicate ShortReply(v: Value) {
    (v.Error? || v.Simple?) && ShortLine(v.text)
  }

  lemma AuthReplyShort(password: Option<Bytes>, args: seq<Bytes>)
    ensures ShortReply(AuthReply(password, args))
  {
    ShortAppend("ERR AUTH called without ", "any password configured");
    ShortAppend("ERR wrong number of arguments ", "for 'AUTH' command");
    ShortAppend("WRONGPASS invalid ", "username-password pair");
  }

  lemma RewriteReplyShort(r: Rewriting)
    ensures ShortReply(RewriteReply(r))
  {
    ShortAppend("ERR Background append only file ", "rewriting already in progress");
    ShortAppend("Background append only file ", "rewriting started");
  }

  /** Everything the server answers by itself is short, but for the text of INFO. */
  predicate ShortService(d: Desk, s: Service) {
    s.Streams? || ShortReply(s.v) || s.v == Resp.Bulk(d.info)
  }

  lemma AtDoorShort(d: Desk, name: Bytes, args: seq<Bytes>)
    requires AtDoor(d, name, args).Some?
    ensures ShortService(d, AtDoor(d, name, args).value)
  {
    AuthReplyShort(d.password, args);
  }

  lemma ErrandShort(d: Desk, name: Bytes)
    requires Errand(d, name).Some?
    ensures ShortService(d, Errand(d, name).value)
  {
    RewriteReplyShort(d.rewriting);
    ShortAppend("ERR chained replication ", "is not supported");
  }

  lemma RefusalShort(d: Desk, cfg: Config, name: Bytes)
    requires Refusal(d, cfg, name).Some?
    ensures ShortService(d, Refusal(d, cfg, name).value)
  {
    ShortAppend("READONLY You can't write ", "against a replica.");
    ShortAppend("OOM command not allowed when ", "used memory > 'maxmemory'.");
  }

  lemma DeskRepliesTransportable(d: Desk, cfg: Config, raw: Record)
    requires raw != [] && Small(d.info) && AtDesk(d, cfg, raw).Some? && !AtDesk(d, cfg, raw).value.Streams?
    ensures Resp.Transportable(AtDesk(d, cfg, raw).value.v)
  {
    var name := Upper(raw[0]);
    if AtDoor(d, name, raw[1..]).Some? {
      AtDoorShort(d, name, raw[1..]);
    } else if Errand(d, name).Some? {
      ErrandShort(d, name);
    } else {
      RefusalShort(d, cfg, name);
    }
  }

  /** A name that forges holds a line break. */
  lemma ForgersHoldLF(name: Bytes)
    requires Forges(name)
    ensures !Resp.NoLF(Upper(name))
  {
    var i := Resp.FindLF(name);
    assert name[i] == LF && Upper(name)[i] == LF;
  }

  /** The names the server answers itself hold no line break, so they forge nothing. */
  lemma DeskNamesForgeNothing(v: Visit)
    requires Sound(v) && ForgesReply(v)
    ensures AtDesk(v.desk, v.cfg, v.raw).None?
  {
    UnknownToBoth(v.desk.reading, v.raw);
    ForgersHoldLF(Taken(v)[0]);
    if AtDesk(v.desk, v.cfg, v.raw).Some? {
      DeskNames(v.desk, v.cfg, v.raw);
      AllUpperIsAscii(v.raw[0]);
    }
  }

  /** The server answers only plain names by itself, to clients that have authenticated. */
  lemma DeskNames(d: Desk, cfg: Config, raw: Record)
    requires raw != [] && d.authed && AtDesk(d, cfg, raw).Some?
    ensures AllUpper(Upper(raw[0]))
  {
    var name := Upper(raw[0]);
    if AtDoor(d, name, raw[1..]).None? && Errand(d, name).None? {
      if name in DENY_OOM {
        DeniedNamesAreWrites(name);
      }
      KnownNamesAreUpper(name);
    }
  }

  lemma DeniedNamesAreWrites(name: Bytes)
    requires name in DENY_OOM
    ensures IsWriteName(name)
  {
    assert WRITES[0] == "MSET" && WRITES[2] == "INCR" && WRITES[3] == "DECR" && WRITES[4] == "INCRBY" &&
      WRITES[5] == "DECRBY";
  }

  /** The reply to a visit that does no harm can be read, or is refused by the reader. */
  lemma ServedHarmlessIff(v: Visit)
    requires Sound(v)
    ensures var s := Served(v); (!s.Streams? && Resp.Harmless(s.v)) <==> !ForgesReply(v) && !BecomesReplica(v)
  {
    if !IsUnknown(Taken(v)) {
      HeardWithinLimits(v.desk.reading, v.raw);
    }
    ReplyHarmlessIff(v.cache, v.cfg, Taken(v), v.now);
    if AtDesk(v.desk, v.cfg, v.raw).Some? {
      if ForgesReply(v) {
        DeskNamesForgeNothing(v);
      } else if !Served(v).Streams? {
        DeskRepliesTransportable(v.desk, v.cfg, v.raw);
      }
    }
  }

  /** Exactly the visits whose answer is a reply that the client reads back. */
  predicate CleanVisit(v: Visit)
    requires v.raw != []
  {
    match AtDesk(v.desk, v.cfg, v.raw)
    case Some(service) => !service.Streams?
    case None => CleanRequest(v.cache, v.cfg, Taken(v), v.now)
  }

  lemma ServedTransportableIff(v: Visit)
    requires Sound(v)
    ensures (!Served(v).Streams? && Resp.Transportable(Served(v).v)) <==> CleanVisit(v)
  {
    if AtDesk(v.desk, v.cfg, v.raw).None? {
      if !IsUnknown(Taken(v)) {
        HeardWithinLimits(v.desk.reading, v.raw);
      }
      ReplyTransportableIff(v.cache, v.cfg, Taken(v), v.now);
    } else if !Served(v).Streams? {
      DeskRepliesTransportable(v.desk, v.cfg, v.raw);
    }
  }

  /* ----- a batch on one connection ----- */

  /** The replies a connection carries: up to the one after which it is closed, or to the stream. */
  function OwnReplies(ss: seq<Service>): (own: seq<Value>)
    ensures |own| <= |ss| && (Streaming(ss) ==> |own| < |ss|)
  {
    if ss == [] then []
    else
      match ss[0]
      case Reply(v) => [v] + OwnReplies(ss[1..])
      case LastReply(v) => [v]
      case Streams => []
  }

  predicate Streaming(ss: seq<Service>) {
    ss != [] && (ss[0].Streams? || (ss[0].Reply? && Streaming(ss[1..])))
  }

  function SentOf(ss: seq<Service>): (x: Pool.Sent)
    ensures Pool.Proper(x)
  {
    Pool.Sent(|ss|, OwnReplies(ss), Streaming(ss))
  }

  lemma {:induction false} OwnAreReplies(ss: seq<Service>)
    requires forall i :: 0 <= i < |ss| ==> !ss[i].Streams? && Resp.Harmless(ss[i].v)
    ensures !Streaming(ss) && forall i :: 0 <= i < |OwnReplies(ss)| ==> Resp.Harmless(OwnReplies(ss)[i])
  {
    if ss != [] {
      OwnAreReplies(ss[1..]);
    }
  }

  lemma HarmlessServices(ss: seq<Service>, arrives: Bytes -> bool)
    requires forall i :: 0 <= i < |ss| ==> !ss[i].Streams? && Resp.Harmless(ss[i].v)
    ensures Pool.HarmlessSent(SentOf(ss), arrives)
  {
    OwnAreReplies(ss);
    Resp.HarmlessShort(OwnReplies(ss), |ss|);
  }

  /* ----- the pool, serving whatever clients may send ----- */

  /** A batch of visits of the allowed kind. */
  ghost predicate Allowed(vs: seq<Visit>, allowed: Visit -> bool) {
    forall i :: 0 <= i < |vs| ==> Sound(vs[i]) && allowed(vs[i])
  }

  function ServedAll(vs: seq<Visit>): (ss: seq<Service>)
    requires forall i :: 0 <= i < |vs| ==> vs[i].raw != []
    ensures |ss| == |vs| && forall i :: 0 <= i < |vs| ==> ss[i] == Served(vs[i])
  {
    seq(|vs|, i requires 0 <= i < |vs| => Served(vs[i]))
  }

  ghost predicate ComesFrom(x: Pool.Sent, vs: seq<Visit>, allowed: Visit -> bool) {
    Allowed(vs, allowed) && x == SentOf(ServedAll(vs))
  }

  ghost predicate ServedBy(x: Pool.Sent, allowed: Visit -> bool) {
    exists vs :: ComesFrom(x, vs, allowed)
  }

  ghost predicate NoneDoesHarm(allowed: Visit -> bool) {
    forall v :: Sound(v) && allowed(v) ==> !ForgesReply(v) && !BecomesReplica(v)
  }

  const FLUSH_MESSAGE: Bytes := Resp.EncodeCommand(["FLUSHDB"])

  lemma SafeVisits(vs: seq<Visit>, x: Pool.Sent, allowed: Visit -> bool, arrives: Bytes -> bool)
    requires NoneDoesHarm(allowed) && ComesFrom(x, vs, allowed)
    ensures Pool.HarmlessSent(x, arrives)
  {
    var ss := ServedAll(vs);
    forall i | 0 <= i < |ss| ensures !ss[i].Streams? && Resp.Harmless(ss[i].v) {
      assert Sound(vs[i]) && allowed(vs[i]);
      ServedHarmlessIff(vs[i]);
    }
    HarmlessServices(ss, arrives);
  }

  /** After SYNC the client reads the first message of the stream as its reply, and the rest stays unread. */
  lemma FlushReadAsReply(rest: Bytes)
    ensures Resp.ReadReplies(FLUSH_MESSAGE + rest, 1) == Resp.Got([Resp.Arr([Resp.Bulk("FLUSHDB")])], rest)
  {
    var v := Resp.Arr([Resp.Bulk("FLUSHDB")]);
    assert ["FLUSHDB"][1..] == [] && [Resp.Bulk("FLUSHDB")][1..] == [];
    Resp.EncodeCommandIsEncode(["FLUSHDB"]);
    assert Resp.AsBulks(["FLUSHDB"]) == [Resp.Bulk("FLUSHDB")];
    assert FLUSH_MESSAGE == Resp.Encode(v);
    assert Resp.Transportable(Resp.Bulk("FLUSHDB")) && Resp.AllTransportable([]);
    assert Resp.AllTransportable([Resp.Bulk("FLUSHDB")]);
    Resp.ReplyRoundTrip(v, rest);
    Resp.ReadOneMore(FLUSH_MESSAGE + rest, v, rest, 1);
    assert Resp.ReadReplies(rest, 0) == Resp.Got([], rest);
    assert [v] + [] == [v];
  }

  lemma JoinOne(b: Bytes)
    ensures Join([b]) == b
  {
    assert [b][1..] == [] && b + [] == b;
  }

  /** If what a streaming shard sends can be read as the replies, the request does harm. */
  lemma StreamDoesHarm(x: Pool.Sent, payload: Bytes, arrives: Bytes -> bool)
    requires x.streams && x.own == [] && arrives(payload) && Resp.ReadReplies(payload, x.count).Got?
    ensures !Pool.HarmlessSent(x, arrives)
  {
    JoinOne(payload);
    assert Resp.EncodeItems([]) + Join([payload]) == payload;
    assert Pool.AllFrom([payload], arrives);
  }

  /** A lone SYNC does harm as soon as the stream begins. */
  lemma SyncDoesHarm(arrives: Bytes -> bool)
    requires arrives(FLUSH_MESSAGE)
    ensures !Pool.HarmlessSent(SentOf([Streams]), arrives)
  {
    FlushReadAsReply([]);
    assert FLUSH_MESSAGE + [] == FLUSH_MESSAGE;
    StreamDoesHarm(SentOf([Streams]), FLUSH_MESSAGE, arrives);
  }

  lemma ForgedReplyDoesHarm(name: Bytes, arrives: Bytes -> bool)
    requires Forges(name)
    ensures !Pool.HarmlessSent(SentOf([Reply(Resp.Error(UnknownText(name)))]), arrives)
  {
    var reply := Resp.Error(UnknownText(name));
    var s := Resp.Encode(reply) + [];
    ForgedNamesAreUnclean(name);
    UnknownReplyReads(name, []);
    UnknownTextLF(name);
    assert [reply][1..] == [] && Resp.EncodeItems([reply]) == s;
    Resp.BatchReadIff([reply]);
    ReadOne(s);
    assert [Reply(reply)][1..] == [] && OwnReplies([Reply(reply)]) == [reply];
  }

  /** A lone request that forges does harm. */
  lemma ForgeryDoesHarm(v: Visit, arrives: Bytes -> bool)
    requires Sound(v) && ForgesReply(v)
    ensures !Pool.HarmlessSent(SentOf([Served(v)]), arrives)
  {
    DeskNamesForgeNothing(v);
    ParseUnknown(Taken(v));
    ForgedReplyDoesHarm(Taken(v)[0], arrives);
  }

  lemma ReadOne(s: Bytes)
    ensures Resp.ReadReply(s).Got? ==> Resp.ReadReplies(s, 1).Got?
  {
    var r := Resp.ReadReply(s);
    if r.Got? {
      assert Resp.ReadReplies(r.rest, 0) == Resp.Got([], r.rest);
    }
  }

  /**
   * Whatever clients may send, stores may hold and replication streams may carry: each pooled request
   * reads the shard's replies to it and leaves its connection silent, in every interleaving, if and only
   * if no request forges a line with its name, and none is a SYNC that the server serves.
   */
  lemma PoolRightIff(size: nat, allowed: Visit -> bool, served: Pool.Sent -> bool, arrives: Bytes -> bool)
    requires size > 0 && arrives(FLUSH_MESSAGE) && forall x :: served(x) <==> ServedBy(x, allowed)
    ensures Pool.RightInEveryRun(size, served, arrives) <==> NoneDoesHarm(allowed)
  {
    Pool.AnswersRightIffHarmless(size, served, arrives);
    if NoneDoesHarm(allowed) {
      forall x | Pool.Proper(x) && served(x) ensures Pool.HarmlessSent(x, arrives) {
        assert ServedBy(x, allowed);
        var vs :| ComesFrom(x, vs, allowed);
        SafeVisits(vs, x, allowed, arrives);
      }
    } else {
      var v :| Sound(v) && allowed(v) && (ForgesReply(v) || BecomesReplica(v));
      HarmfulVisit(v, allowed, served, arrives);
    }
  }

  lemma HarmfulVisit(v: Visit, allowed: Visit -> bool, served: Pool.Sent -> bool, arrives: Bytes -> bool)
    requires arrives(FLUSH_MESSAGE) && forall x :: served(x) <==> ServedBy(x, allowed)
    requires Sound(v) && allowed(v) && (ForgesReply(v) || BecomesReplica(v))
    ensures !Pool.AllHarmless(served, arrives)
  {
    var x := SentOf([Served(v)]);
    assert ServedAll([v]) == [Served(v)];
    assert ComesFrom(x, [v], allowed);
    assert served(x);
    if BecomesReplica(v) {
      assert Served(v) == Streams by { assert "SYNC"[0] != 'Q' && "SYNC"[0] != 'A'; }
      SyncDoesHarm(arrives);
    } else {
      ForgeryDoesHarm(v, arrives);
    }
  }

  /** SYNC in a pipeline: clean to the command layer, and yet a connection that streams into the pool. */
  lemma SyncWithAKey(c: Cache, cfg: Config, d: Desk, now: int)
    requires d.authed && !d.replica && ReadsAscii(d.reading)
    ensures var v := Visit(d, c, cfg, ["SYNC", "k"], now);
            Served(v) == Streams && BecomesReplica(v) && !ForgesReply(v)
  {
    UpperFixed("SYNC");
    assert "SYNC"[0] != 'Q' && "SYNC"[0] != 'A';
    assert AsciiName("SYNC") && Resp.NoLF("SYNC");
    UnknownToBoth(d.reading, ["SYNC", "k"]);
  }

  /* ----- who answers what, by name ----- */

  predicate Named(raw: Record, name: Bytes) {
    raw != [] && W.Is(raw[0], name)
  }

  /** The commands that change what a store holds. */
  predicate AsksToWrite(raw: Record) {
    || Named(raw, "SET") || Named(raw, "MSET") || Named(raw, "DEL") || Named(raw, "INCR") || Named(raw, "DECR")
    || Named(raw, "INCRBY") || Named(raw, "DECRBY") || Named(raw, "EXPIRE") || Named(raw, "PEXPIRE")
    || Named(raw, "PEXPIREAT") || Named(raw, "PERSIST") || Named(raw, "FLUSHDB")
  }

  /** The commands that may make it hold more. */
  predicate AsksForMemory(raw: Record) {
    || Named(raw, "SET") || Named(raw, "MSET") || Named(raw, "INCR") || Named(raw, "DECR") || Named(raw, "INCRBY")
    || Named(raw, "DECRBY")
  }

  lemma WritesAreWrites(raw: Record)
    requires raw != []
    ensures AsksToWrite(raw) <==> IsWriteName(Upper(raw[0]))
  {
    W.WriteWords(raw[0]);
    assert WRITES[0] == "MSET" && WRITES[1] == "DEL" && WRITES[2] == "INCR" && WRITES[3] == "DECR" &&
      WRITES[4] == "INCRBY" && WRITES[5] == "DECRBY" && WRITES[6] == "EXPIRE" && WRITES[7] == "PEXPIRE" &&
      WRITES[8] == "PEXPIREAT" && WRITES[9] == "PERSIST" && WRITES[10] == "FLUSHDB";
  }

  lemma MemoryIsDenied(raw: Record)
    requires raw != []
    ensures AsksForMemory(raw) <==> Upper(raw[0]) in DENY_OOM
  {
    W.WriteWords(raw[0]);
    assert DENY_OOM[0] == "SET" && DENY_OOM[1] == "MSET" && DENY_OOM[2] == "INCR" && DENY_OOM[3] == "DECR" &&
      DENY_OOM[4] == "INCRBY" && DENY_OOM[5] == "DECRBY";
  }

  lemma DeskWords(s: Bytes)
    ensures W.Is(s, "QUIT") <==> Upper(s) == "QUIT"
    ensures W.Is(s, "AUTH") <==> Upper(s) == "AUTH"
    ensures W.Is(s, "SYNC") <==> Upper(s) == "SYNC"
    ensures W.Is(s, "INFO") <==> Upper(s) == "INFO"
    ensures W.Is(s, "BGREWRITEAOF") <==> Upper(s) == "BGREWRITEAOF"
  {
    W.IsUpper(s, "QUIT");
    W.IsUpper(s, "AUTH");
    W.IsUpper(s, "SYNC");
    W.IsUpper(s, "INFO");
    W.IsUpper(s, "BGREWRITEAOF");
  }

  predicate DeskName(raw: Record) {
    || Named(raw, "QUIT") || Named(raw, "AUTH") || Named(raw, "SYNC") || Named(raw, "INFO")
    || Named(raw, "BGREWRITEAOF")
  }

  /** A replica takes no writes, and a store that evicts nothing takes none that ask for memory when it is full. */
  predicate Turned(v: Visit) {
    (v.desk.replica && AsksToWrite(v.raw)) || (!v.cfg.lru && v.desk.overLimit && AsksForMemory(v.raw))
  }

  /**
   * The command layer answers a request if and only if the client has authenticated, the name is none of
   * the server's own, and the request is not turned away: no write on a replica, and on a primary none that
   * asks for memory while a store that evicts nothing is over its limit.
   */
  lemma PassedOnIff(v: Visit)
    requires v.raw != []
    ensures AtDesk(v.desk, v.cfg, v.raw).None? <==> v.desk.authed && !DeskName(v.raw) && !Turned(v)
  {
    DeskWords(v.raw[0]);
    WritesAreWrites(v.raw);
    MemoryIsDenied(v.raw);
  }

  /** The password, alone or after the user name "default", and nothing else, lets a client in. */
  predicate RightPassword(password: Option<Bytes>, args: seq<Bytes>) {
    password.Some? && (args == [password.value] || args == ["default", password.value])
  }

  lemma AuthIff(password: Option<Bytes>, args: seq<Bytes>)
    ensures AuthReply(password, args) == Resp.Simple("OK") <==> RightPassword(password, args)
    ensures !RightPassword(password, args) ==>
              AuthReply(password, args) == Resp.Error(
                if password.None? then "ERR AUTH called without " + "any password configured"
                else if |args| == 1 || |args| == 2 then "WRONGPASS invalid " + "username-password pair"
                else "ERR wrong number of arguments " + "for 'AUTH' command")
  {
    if |args| == 1 {
      assert args == [args[0]];
    } else if |args| == 2 {
      assert args == [args[0], args[1]];
    }
  }

  /**
   * What the server answers itself: QUIT is told OK and is the last; AUTH answers OK exactly to the right
   * password; everyone else who has not authenticated is refused; SYNC is streamed by a primary and refused
   * by a replica; INFO is given; BGREWRITEAOF begins iff there is a log and no rewrite is running.
   */
  lemma DeskAnswers(v: Visit)
    requires v.raw != []
    ensures Named(v.raw, "QUIT") ==> Served(v) == LastReply(Resp.Simple("OK"))
    ensures Named(v.raw, "AUTH") ==>
              Served(v).Reply? && (Served(v).v == Resp.Simple("OK") <==> RightPassword(v.desk.password, v.raw[1..]))
    ensures !v.desk.authed && !Named(v.raw, "QUIT") && !Named(v.raw, "AUTH") ==>
              Served(v) == Reply(Resp.Error("NOAUTH Authentication required."))
    ensures v.desk.authed && Named(v.raw, "SYNC") ==>
              Served(v) == if v.desk.replica then Reply(Resp.Error("ERR chained replication " + "is not supported"))
                           else Streams
    ensures v.desk.authed && Named(v.raw, "INFO") ==> Served(v) == Reply(Resp.Bulk(v.desk.info))
    ensures v.desk.authed && Named(v.raw, "BGREWRITEAOF") ==>
              Served(v) == Reply(
                if v.desk.rewriting.NoLog? then Resp.Error("ERR AOF is not enabled")
                else if v.desk.rewriting.Busy?
                then Resp.Error("ERR Background append only file " + "rewriting already in progress")
                else Resp.Simple("Background append only file " + "rewriting started"))
  {
    DeskWords(v.raw[0]);
    AuthIff(v.desk.password, v.raw[1..]);
  }

  /** A request that is turned away is told why, and the store is not asked. */
  lemma TurnedAway(v: Visit)
    requires v.raw != [] && v.desk.authed && Turned(v)
    ensures Served(v) == if v.desk.replica && AsksToWrite(v.raw)
                         then Reply(Resp.Error("READONLY You can't write " + "against a replica."))
                         else Reply(Resp.Error("OOM command not allowed when " + "used memory > 'maxmemory'."))
  {
    DeskWords(v.raw[0]);
    WritesAreWrites(v.raw);
    MemoryIsDenied(v.raw);
    WritesAreNotDeskNames(v.raw);
    if AsksForMemory(v.raw) {
      DeniedNamesAreWrites(Upper(v.raw[0]));
    }
  }

  lemma WritesAreNotDeskNames(raw: Record)
    requires AsksForMemory(raw) || AsksToWrite(raw)
    ensures !DeskName(raw)
  {
    DeskWords(raw[0]);
    W.WriteWords(raw[0]);
  }

  /* ----- a dialogue ----- */

  /** Whether a client is let in, after the requests of a dialogue: as `AUTH` last said, if there is a password. */
  predicate LetIn(password: Option<Bytes>, before: seq<Record>) {
    if before == [] then password.None?
    else
      var last := before[|before| - 1];
      if last != [] && Upper(last[0]) == "AUTH" && password.Some? then AuthReply(password, last[1..]).Simple?
      else LetIn(password, before[..|before| - 1])
  }

  /** Request `i` of a dialogue is its last AUTH. */
  predicate LastAuth(before: seq<Record>, i: nat) {
    i < |before| && Named(before[i], "AUTH") && forall j :: i < j < |before| ==> !Named(before[j], "AUTH")
  }

  /** A client is let in if and only if there is no password, or the last AUTH it sent had the right one. */
  lemma {:induction false} LetInIff(password: Option<Bytes>, before: seq<Record>)
    ensures LetIn(password, before) <==>
            password.None? || exists i: nat :: LastAuth(before, i) && RightPassword(password, before[i][1..])
  {
    if before != [] {
      var n := |before| - 1;
      var last := before[n];
      LetInIff(password, before[..n]);
      if last != [] {
        W.IsUpper(last[0], "AUTH");
      }
      if Named(last, "AUTH") {
        AuthIff(password, last[1..]);
        assert LastAuth(before, n);
        assert forall i: nat :: LastAuth(before, i) ==> i == n;
      } else {
        forall i: nat ensures LastAuth(before, i) <==> LastAuth(before[..n], i) {
          LastAuthBefore(before, i);
        }
      }
    }
  }

  lemma LastAuthBefore(before: seq<Record>, i: nat)
    requires before != [] && !Named(before[|before| - 1], "AUTH")
    ensures LastAuth(before, i) <==> LastAuth(before[..|before| - 1], i)
  {
    var n := |before| - 1;
    if LastAuth(before[..n], i) {
      assert forall j :: i < j < n ==> !Named(before[..n][j], "AUTH");
    }
  }

  /**
   * Nothing is run for strangers: a request of a dialogue reaches the command layer if and only if there is
   * no password or the last AUTH before it had the right one, and it is neither the server's own nor turned
   * away.
   */
  lemma RunsOnlyForClients(v: Visit, before: seq<Record>)
    requires v.raw != [] && v.desk.authed == LetIn(v.desk.password, before)
    ensures AtDesk(v.desk, v.cfg, v.raw).None? <==>
            && (v.desk.password.None? ||
                exists i: nat :: LastAuth(before, i) && RightPassword(v.desk.password, before[i][1..]))
            && !DeskName(v.raw) && !Turned(v)
  {
    LetInIff(v.desk.password, before);
    PassedOnIff(v);
  }
}

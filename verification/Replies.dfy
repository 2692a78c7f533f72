/**
 * Which replies of the command layer survive the trip to the client. An error reply repeats an unknown
 * command name as it came, so a name with a line break in it ends the reply early.
 */
module Replies {
  import opened Base
  import opened Decimal
  import opened CacheModel
  import opened Commands
  import opened TimedReplay
  import opened PlainMap
  import opened Bounds
  import Resp

  const WRITES: seq<Bytes> := [
    "MSET", "DEL", "INCR", "DECR", "INCRBY", "DECRBY", "EXPIRE", "PEXPIRE", "PEXPIREAT", "PERSIST", "FLUSHDB"]

  const READS: seq<Bytes> := ["GET", "MGET", "EXISTS", "TTL", "KEYS", "DBSIZE", "PING", "ECHO"]

  predicate IsKnown(name: Bytes) {
    name == "SET" || name in WRITES || name in READS
  }

  predicate IsWriteName(name: Bytes) {
    name == "SET" || name in WRITES
  }

  predicate IsUnknown(raw: Record) {
    raw != [] && !IsKnown(Upper(raw[0]))
  }

  const UNKNOWN: Bytes := "ERR unknown command '"

  /** The text of the error reply to an unknown command. */
  function UnknownText(name: Bytes): Bytes {
    UNKNOWN + name + "'"
  }

  lemma ParseUnknown(raw: Record)
    requires IsUnknown(raw)
    ensures Parse(raw) == Fail(UnknownText(raw[0]))
  {
    var name := Upper(raw[0]);
    assert forall i :: 0 <= i < |WRITES| ==> name != WRITES[i];
    assert name != WRITES[0] && name != WRITES[1] && name != WRITES[2] && name != WRITES[3] && name != WRITES[4];
    assert name != WRITES[5] && name != WRITES[6] && name != WRITES[7] && name != WRITES[8] && name != WRITES[9];
    assert name != WRITES[10];
    assert name != READS[0] && name != READS[1] && name != READS[2] && name != READS[3] && name != READS[4];
    assert name != READS[5] && name != READS[6] && name != READS[7];
  }

  /* ----- the fixed messages ----- */

  predicate ShortLine(t: Bytes) {
    Resp.NoLF(t) && |t| <= 100
  }

  lemma {:induction false} SetMessage(rest: seq<Bytes>, opts: SetOptions)
    requires ParseOptions(rest, opts).Wrong?
    ensures var m := ParseOptions(rest, opts).message;
            m == "syntax error" || m == BAD_INT || m == BAD_TTL
    decreases |rest|
  {
    if rest != [] {
      var option := Upper(rest[0]);
      if option == "NX" {
        SetMessage(rest[1..], opts.(nx := true));
      } else if option == "XX" {
        SetMessage(rest[1..], opts.(xx := true));
      } else if option == "GET" {
        SetMessage(rest[1..], opts.(get := true));
      } else if (option == "EX" || option == "PX") && opts.ttl.None? && |rest| >= 2 {
        var n := ParseInt64(rest[1]);
        if n.Some? && n.value > 0 {
          SetMessage(rest[2..], opts.(ttl := Some(TtlMs(option, n.value))));
        }
      }
    }
  }

  lemma ShortAppend(a: Bytes, b: Bytes)
    requires Resp.NoLF(a) && Resp.NoLF(b) && |a| + |b| <= 100
    ensures ShortLine(a + b)
  {
  }

  lemma ArityMessage(name: Bytes)
    requires IsKnown(name)
    ensures ShortLine(WrongArity(name).message)
  {
    var head := "ERR wrong number of arguments for '";
    ShortAppend(head, name);
    ShortAppend(head + name, "' command");
    Regroup(head, name, "' command");
  }

  const BAD_TTL: Bytes := "invalid expire time in 'set' command"

  lemma FixedMessages()
    ensures ShortLine("ERR " + "syntax error") && ShortLine("ERR " + BAD_INT) && ShortLine("ERR " + BAD_TTL)
    ensures ShortLine("ERR empty command") && ShortLine("ERR increment or decrement would overflow")
  {
    ShortAppend("ERR ", "syntax error");
    ShortAppend("ERR ", BAD_INT);
    ShortAppend("ERR ", BAD_TTL);
  }

  lemma SetErrorMessage(args: seq<Bytes>)
    requires ParseSet(args).Wrong?
    ensures ShortLine("ERR " + ParseSet(args).message)
  {
    FixedMessages();
    if |args| >= 2 {
      SetMessage(args[2..], Plain(args[0], args[1]));
    }
  }

  lemma KnownReadFailure(name: Bytes, typed: Bytes, args: seq<Bytes>)
    requires name in READS && ParseRead(name, typed, args).Fail?
    ensures ParseRead(name, typed, args) == WrongArity(name)
  {
  }

  lemma KnownWriteFailure(raw: Record)
    requires raw != [] && Upper(raw[0]) in WRITES && Parse(raw).Fail?
    ensures Parse(raw) == WrongArity(Upper(raw[0])) || Parse(raw) == NOT_AN_INTEGER
  {
  }

  lemma ReadsAreParsedLast(raw: Record)
    requires raw != [] && Upper(raw[0]) in READS
    ensures Parse(raw) == ParseRead(Upper(raw[0]), raw[0], raw[1..])
  {
  }

  /** A known command that is refused is refused with a short single line. */
  lemma KnownFailure(raw: Record)
    requires !IsUnknown(raw) && Parse(raw).Fail?
    ensures ShortLine(Parse(raw).message)
  {
    FixedMessages();
    if raw != [] {
      var name := Upper(raw[0]);
      ArityMessage(name);
      if name in WRITES {
        KnownWriteFailure(raw);
      } else if name in READS {
        ReadsAreParsedLast(raw);
        KnownReadFailure(name, raw[0], raw[1..]);
      } else if |raw| >= 3 {
        SetErrorMessage(raw[1..]);
      }
    }
  }

  /* ----- exactly which replies are read back ----- */

  predicate ShortInt(n: int) {
    |IntText(n)| + 2 <= Resp.LINE_LIMIT
  }

  lemma SmallIntIsShort(n: int)
    requires Int64(n)
    ensures ShortInt(n)
  {
    assert Pow10(5) == 100000;
    assert Pow10(10) == 100000 * 100000;
    assert Pow10(15) == 100000 * 100000 * 100000;
    assert Pow10(20) == 100000 * 100000 * 100000 * 100000;
    SmallIntText(n);
  }

  /** Arguments as they come off the wire. */
  predicate WireCommand(cmd: Command) {
    match cmd
    case CDel(keys) => |keys| <= Resp.MAX_ARRAY_LENGTH
    case CMget(keys) => |keys| <= Resp.MAX_ARRAY_LENGTH
    case CExists(keys) => |keys| <= Resp.MAX_ARRAY_LENGTH
    case CPing(echo) => echo.Some? ==> Small(echo.value)
    case _ => true
  }

  lemma ParsedFromWire(raw: Record)
    requires Resp.WithinLimits(raw) && Parse(raw).Ok?
    ensures WireCommand(Parse(raw).cmd)
  {
    var name, args := Upper(raw[0]), raw[1..];
    if name == "DEL" {
    } else if !IsUnknown(raw) {
      if name in READS {
        ReadsAreParsedLast(raw);
        ParsedReadFromWire(name, raw[0], args);
      } else {
        WritesHaveNoEcho(raw);
      }
    } else {
      ParseUnknown(raw);
    }
  }

  lemma ParsedReadFromWire(name: Bytes, typed: Bytes, args: seq<Bytes>)
    requires Resp.WithinLimits(args) && ParseRead(name, typed, args).Ok?
    ensures WireCommand(ParseRead(name, typed, args).cmd)
  {
  }

  lemma WritesHaveNoEcho(raw: Record)
    requires raw != [] && (Upper(raw[0]) == "SET" || Upper(raw[0]) in WRITES) && Upper(raw[0]) != "DEL" &&
             Parse(raw).Ok?
    ensures WireCommand(Parse(raw).cmd)
  {
  }

  lemma GetTransportable(c: Cache, k: Key, now: int)
    requires Bounded(Values(c))
    ensures Resp.Transportable(Looked(DoGet(c, k, now).reply)) && Bounded(Values(DoGet(c, k, now).cache))
  {
    if IsLive(c, k, now) {
      assert Values(c)[k] == c.entries[k].value;
      assert Values(DoGet(c, k, now).cache) == Values(c);
    } else {
      var d := DropIfExpired(c, k, now);
      assert forall x :: x in Values(d) ==> x in Values(c) && Values(d)[x] == Values(c)[x];
    }
  }

  lemma {:induction false} MgetTransportable(c: Cache, keys: seq<Key>, now: int)
    requires Bounded(Values(c))
    ensures |ExecMget(c, keys, now).1| == |keys| && Resp.AllTransportable(ExecMget(c, keys, now).1)
    ensures CountFound(ExecMget(c, keys, now).1) <= |keys|
    decreases |keys|
  {
    if keys != [] {
      GetTransportable(c, keys[0], now);
      var d := DoGet(c, keys[0], now).cache;
      MgetTransportable(d, keys[1..], now);
      assert ExecMget(c, keys, now).1[1..] == ExecMget(d, keys[1..], now).1;
    }
  }

  lemma {:induction false} DelCount(c: Cache, keys: seq<Key>, now: int)
    ensures ExecDel(c, keys, now).1 <= |keys|
    decreases |keys|
  {
    if keys != [] {
      DelCount(DoDelete(c, keys[0], now).cache, keys[1..], now);
    }
  }

  lemma {:induction false} BulksTransportable(keys: seq<Key>)
    requires forall i :: 0 <= i < |keys| ==> Small(keys[i])
    ensures Resp.AllTransportable(Resp.AsBulks(keys))
  {
    if keys != [] {
      BulksTransportable(keys[1..]);
      assert Resp.AsBulks(keys)[1..] == Resp.AsBulks(keys[1..]);
    }
  }

  /** Seconds that TTL would answer for a live key with a deadline. */
  predicate ShortTtl(c: Cache, k: Key, now: int) {
    IsLive(c, k, now) && c.entries[k].deadline.Some? ==> ShortInt(CeilSeconds(c.entries[k].deadline.value - now))
  }

  /** What must hold before a command for its reply to be read back. */
  predicate CleanCommand(c: Cache, cfg: Config, cmd: Command, now: int) {
    match cmd
    case CKeys(pattern) => |Listed(Prune(c, now).order, cfg, pattern)| <= Resp.MAX_ARRAY_LENGTH
    case CDbsize => ShortInt(|Prune(c, now).order|)
    case CTtl(k) => ShortTtl(c, k, now)
    case _ => true
  }

  lemma SetTransportable(c: Cache, cfg: Config, o: SetOptions, now: int)
    requires Bounded(Values(c))
    ensures Resp.Transportable(ExecSet(c, cfg, o, now).reply)
  {
    GetTransportable(c, o.key, now);
    GetTransportable(DoGet(c, o.key, now).cache, o.key, now);
  }

  lemma IncrTransportable(c: Cache, cfg: Config, k: Key, delta: int, now: int)
    ensures Resp.Transportable(ExecIncr(c, cfg, k, delta, now).reply)
  {
    FixedMessages();
    var reply := ExecIncr(c, cfg, k, delta, now).reply;
    IncrReplyShape(c, cfg, k, delta, now);
    if reply.Int? {
      SmallIntIsShort(reply.n);
    }
  }

  lemma IncrReplyShape(c: Cache, cfg: Config, k: Key, delta: int, now: int)
    ensures var reply := ExecIncr(c, cfg, k, delta, now).reply;
            || (reply.Int? && Int64(reply.n))
            || reply == Resp.Error("ERR " + BAD_INT)
            || reply == Resp.Error("ERR increment or decrement would overflow")
  {
  }

  lemma KeysTransportableIff(c: Cache, cfg: Config, pattern: Option<Bytes>, now: int)
    requires WF(c) && Bounded(Values(c))
    ensures Resp.Transportable(Exec(c, cfg, CKeys(pattern), now).reply) <==> CleanCommand(c, cfg, CKeys(pattern), now)
  {
    var keys := Listed(Prune(c, now).order, cfg, pattern);
    forall i | 0 <= i < |keys| ensures Small(keys[i]) {
      assert keys[i] in keys && keys[i] in c.order && keys[i] in Values(c);
    }
    BulksTransportable(keys);
  }

  lemma CountTransportable(n: nat)
    requires n <= Resp.MAX_ARRAY_LENGTH
    ensures Resp.Transportable(Resp.Int(n))
  {
    SmallIntIsShort(n);
  }

  lemma ExecTransportableIff(c: Cache, cfg: Config, cmd: Command, now: int)
    requires WF(c) && Bounded(Values(c)) && WireCommand(cmd)
    ensures Resp.Transportable(Exec(c, cfg, cmd, now).reply) <==> CleanCommand(c, cfg, cmd, now)
  {
    match cmd {
      case CSet(o) => SetTransportable(c, cfg, o, now);
      case CMset(pairs) => MsetReply(c, cfg, pairs, now);
      case CDel(keys) =>
        DelCount(c, keys, now);
        CountTransportable(ExecDel(c, keys, now).1);
      case CIncrBy(k, delta) => IncrTransportable(c, cfg, k, delta, now);
      case CGet(k) => GetTransportable(c, k, now);
      case CMget(keys) => MgetTransportable(c, keys, now);
      case CExists(keys) =>
        MgetTransportable(c, keys, now);
        CountTransportable(CountFound(ExecMget(c, keys, now).1));
      case CKeys(pattern) => KeysTransportableIff(c, cfg, pattern, now);
      case _ => AnswerTransportableIff(c, cfg, cmd, now);
    }
  }

  lemma AnswerTransportableIff(c: Cache, cfg: Config, cmd: Command, now: int)
    requires WireCommand(cmd)
    requires cmd.CExpire? || cmd.CExpireAt? || cmd.CPersist? || cmd.CFlush? || cmd.CTtl? || cmd.CDbsize? || cmd.CPing?
    ensures Resp.Transportable(Exec(c, cfg, cmd, now).reply) <==> CleanCommand(c, cfg, cmd, now)
  {
    SmallIntIsShort(-1);
    SmallIntIsShort(-2);
    SmallIntIsShort(0);
    SmallIntIsShort(1);
  }

  /** The name of an unknown command must hold no line break and leave room for the message around it. */
  predicate CleanName(name: Bytes) {
    Resp.NoLF(name) && |name| + |UnknownText([])| + 2 <= Resp.LINE_LIMIT
  }

  /** What a client can check before it sends a request, given what the shard holds. */
  predicate CleanRequest(c: Cache, cfg: Config, raw: Record, now: int) {
    if IsUnknown(raw) then CleanName(raw[0])
    else Parse(raw).Ok? ==> CleanCommand(c, cfg, Parse(raw).cmd, now)
  }

  lemma UnknownTextLF(name: Bytes)
    ensures Resp.NoLF(UnknownText(name)) <==> Resp.NoLF(name)
  {
    var t := UnknownText(name);
    assert forall i :: 0 <= i < |name| ==> t[|UNKNOWN| + i] == name[i];
    assert Resp.NoLF(UNKNOWN);
    if Resp.NoLF(t) {
      forall i | 0 <= i < |name| ensures name[i] != LF {
        assert t[|UNKNOWN| + i] == name[i];
      }
    }
  }

  /**
   * For contents that came over the wire, the reply to a request is read back by the client as it was
   * sent if and only if the request is clean.
   */
  lemma ReplyTransportableIff(c: Cache, cfg: Config, raw: Record, now: int)
    requires WF(c) && Bounded(Values(c)) && (IsUnknown(raw) || Resp.WithinLimits(raw))
    ensures Resp.Transportable(Dispatch(c, cfg, raw, now).reply) <==> CleanRequest(c, cfg, raw, now)
  {
    if IsUnknown(raw) {
      ParseUnknown(raw);
      UnknownTextLF(raw[0]);
    } else if Parse(raw).Fail? {
      KnownFailure(raw);
    } else {
      ParsedFromWire(raw);
      ExecTransportableIff(c, cfg, Parse(raw).cmd, now);
    }
  }

  /* ----- what a reply that is not read back does ----- */

  /** A line break inside the name, early enough, makes the client take the first line for the reply. */
  predicate Forges(name: Bytes) {
    var i := Resp.FindLF(name);
    0 < i < |name| && name[i - 1] == CR && 1 + |UNKNOWN| + i <= Resp.LINE_LIMIT
  }

  lemma FindLFAppend(a: Bytes, b: Bytes)
    ensures Resp.FindLF(a + b) == if Resp.FindLF(a) < |a| then Resp.FindLF(a) else |a| + Resp.FindLF(b)
  {
    var s := a + b;
    var at := if Resp.FindLF(a) < |a| then Resp.FindLF(a) else |a| + Resp.FindLF(b);
    assert Resp.NoLF(s[..at]) by {
      forall j | 0 <= j < at ensures s[j] != LF {
        assert s[j] == if j < |a| then a[j] else b[j - |a|];
      }
    }
    Resp.FindLFAt(s, at);
  }

  /** How an error reply is read: up to the first LF, which must follow a CR within the limit. */
  lemma ErrorReads(s: Bytes, i: nat)
    requires s != [] && s[0] == '-' && Resp.FindLF(s) == i && 1 < i < |s|
    ensures Resp.ReadReply(s) == LineRead(s, i)
  {
    if i <= Resp.LINE_LIMIT && s[i - 1] == CR {
      assert s[..i - 1][1..] == s[1..i - 1];
    }
  }

  /** Bytes around position `i` of a name that stands between `h` and `t`. */
  lemma AroundName(h: Bytes, name: Bytes, t: Bytes, i: nat)
    requires |h| > 1 && i < |name|
    ensures var s := h + (name + t);
            && s[|h| + i - 1] == (if i > 0 then name[i - 1] else h[|h| - 1])
            && s[|h| + i + 1..] == name[i + 1..] + t
            && (i > 0 ==> s[1..|h| + i - 1] == h[1..] + name[..i - 1])
  {
  }

  lemma NameLF(h: Bytes, name: Bytes, t: Bytes)
    requires Resp.NoLF(h)
    ensures var i := Resp.FindLF(name);
            Resp.FindLF(h + (name + t)) == |h| + if i < |name| then i else |name| + Resp.FindLF(t)
  {
    FindLFAppend(name, t);
    FindLFAppend(h, name + t);
  }

  /** What is read of an error line `s` that ends at its first LF, at position `at`. */
  function LineRead(s: Bytes, at: nat): Resp.Read<Value>
    requires 1 < at < |s|
  {
    if at > Resp.LINE_LIMIT || s[at - 1] != CR then Resp.Bad(Resp.Protocol)
    else Resp.Got(Resp.Error(s[1..at - 1]), s[at + 1..])
  }

  /** An error reply around a name with an LF in it. */
  lemma BrokenNameRead(h: Bytes, name: Bytes, t: Bytes, i: nat)
    requires |h| > 1 && h[|h| - 1] != CR && i < |name|
    ensures var s := h + (name + t);
            LineRead(s, |h| + i) ==
            if i > 0 && name[i - 1] == CR && |h| + i <= Resp.LINE_LIMIT
            then Resp.Got(Resp.Error(h[1..] + name[..i - 1]), name[i + 1..] + t)
            else Resp.Bad(Resp.Protocol)
  {
    AroundName(h, name, t, i);
  }

  lemma UnknownReplyShape(name: Bytes, rest: Bytes)
    ensures var h, t := ['-'] + UNKNOWN, "'" + CRLF + rest;
            && Resp.Encode(Resp.Error(UnknownText(name))) + rest == h + (name + t)
            && Resp.NoLF(h) && h[|h| - 1] != CR && h[1..] == UNKNOWN && Resp.FindLF(t) == 2
  {
    Resp.FindLFAt("'" + CRLF + rest, 2);
  }

  /** How the client reads the error reply to an unknown command that is not clean. */
  lemma UnknownReplyReads(name: Bytes, rest: Bytes)
    requires !CleanName(name)
    ensures var r := Resp.ReadReply(Resp.Encode(Resp.Error(UnknownText(name))) + rest); var i := Resp.FindLF(name);
            if Forges(name) then r == Resp.Got(Resp.Error(UNKNOWN + name[..i - 1]), name[i + 1..] + ("'" + CRLF + rest))
            else r.Bad?
  {
    var h, t, i := ['-'] + UNKNOWN, "'" + CRLF + rest, Resp.FindLF(name);
    UnknownReplyShape(name, rest);
    NameLF(h, name, t);
    if i < |name| {
      ErrorReads(h + (name + t), |h| + i);
      BrokenNameRead(h, name, t, i);
    } else {
      assert Resp.NoLF(name);
      ErrorReads(h + (name + t), |h| + |name| + 2);
    }
  }

  lemma LongIntRefused(n: int)
    requires !ShortInt(n)
    ensures Resp.Refused(Resp.Int(n))
  {
    forall rest ensures Resp.ReadReply(Resp.Encode(Resp.Int(n)) + rest).Bad? {
      Resp.NumericHeader(':', n, rest);
    }
  }

  lemma LongArrayRefused(items: seq<Value>)
    requires |items| > Resp.MAX_ARRAY_LENGTH
    ensures Resp.Refused(Resp.Arr(items))
  {
    forall rest ensures Resp.ReadReply(Resp.Encode(Resp.Arr(items)) + rest).Bad? {
      Resp.ArrayReply(items, rest);
    }
  }

  lemma UncleanCommandRefused(c: Cache, cfg: Config, cmd: Command, now: int)
    requires !CleanCommand(c, cfg, cmd, now)
    ensures Resp.Refused(Exec(c, cfg, cmd, now).reply)
  {
    match cmd {
      case CKeys(pattern) => LongArrayRefused(Resp.AsBulks(Listed(Prune(c, now).order, cfg, pattern)));
      case CDbsize => LongIntRefused(|Prune(c, now).order|);
      case CTtl(k) => LongIntRefused(CeilSeconds(c.entries[k].deadline.value - now));
    }
  }

  lemma UnknownHarmlessIff(name: Bytes)
    requires !CleanName(name)
    ensures Resp.Refused(Resp.Error(UnknownText(name))) <==> !Forges(name)
  {
    var v := Resp.Error(UnknownText(name));
    if Forges(name) {
      UnknownReplyReads(name, []);
    } else {
      forall rest ensures Resp.ReadReply(Resp.Encode(v) + rest).Bad? {
        UnknownReplyReads(name, rest);
      }
    }
  }

  lemma ForgedNamesAreUnclean(name: Bytes)
    requires Forges(name)
    ensures !CleanName(name)
  {
    assert name[Resp.FindLF(name)] == LF;
  }

  /**
   * For contents that came over the wire, a reply does harm - the client takes something else for it -
   * if and only if it answers an unknown command whose name forges a line.
   */
  lemma ReplyHarmlessIff(c: Cache, cfg: Config, raw: Record, now: int)
    requires WF(c) && Bounded(Values(c)) && (IsUnknown(raw) || Resp.WithinLimits(raw))
    ensures Resp.Harmless(Dispatch(c, cfg, raw, now).reply) <==> !(IsUnknown(raw) && Forges(raw[0]))
  {
    ReplyTransportableIff(c, cfg, raw, now);
    if IsUnknown(raw) {
      ParseUnknown(raw);
      if CleanName(raw[0]) {
        if Forges(raw[0]) { ForgedNamesAreUnclean(raw[0]); }
      } else {
        UnknownHarmlessIff(raw[0]);
      }
    } else if !CleanRequest(c, cfg, raw, now) {
      UncleanCommandRefused(c, cfg, Parse(raw).cmd, now);
    }
  }

  const FORGED: Bytes := ['x', CR, LF, '+', 'O', 'K', CR, LF]

  lemma ForgedIsUnknown(key: Bytes)
    ensures IsUnknown([FORGED, key]) && Forges(FORGED) && Resp.FindLF(FORGED) == 2
  {
    assert Upper(FORGED)[1] == CR;
    forall i | 0 <= i < |WRITES| ensures WRITES[i] != Upper(FORGED) { assert WRITES[i][1] != CR; }
    forall i | 0 <= i < |READS| ensures READS[i] != Upper(FORGED) { assert READS[i][1] != CR; }
    assert "SET"[1] != CR;
    Resp.FindLFAt(FORGED, 2);
  }

  lemma OkReads(next: Bytes)
    ensures Resp.ReadReply("+OK" + CRLF + next) == Resp.Got(Resp.Simple("OK"), next)
  {
    Resp.ReadLineWhole("+OK", next);
    assert "+OK"[1..] == "OK";
  }

  /**
   * A name that forges an answer: the client reads a shortened error, and then, whatever the shard
   * answers next, the string OK.
   */
  lemma ForgedAnswer(c: Cache, cfg: Config, key: Bytes, now: int, next: Bytes)
    ensures var left := "+OK" + CRLF + ("'" + CRLF + next);
            && Resp.ReadReply(Resp.Encode(Dispatch(c, cfg, [FORGED, key], now).reply) + next) ==
               Resp.Got(Resp.Error(UNKNOWN + "x"), left)
            && Resp.ReadReply(left) == Resp.Got(Resp.Simple("OK"), "'" + CRLF + next)
  {
    ForgedIsUnknown(key);
    ForgedNamesAreUnclean(FORGED);
    ParseUnknown([FORGED, key]);
    UnknownReplyReads(FORGED, next);
    assert FORGED[..1] == "x" && FORGED[3..] == "+OK" + CRLF;
    OkReads("'" + CRLF + next);
  }
}

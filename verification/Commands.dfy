/** The command layer: parsing of argument lists, the SET grammar, and the effect of each command. */
module Commands {
  import opened Base
  import opened Decimal
  import opened CacheModel
  import Resp

  type Value = Resp.Value
  type Record = seq<Bytes>

  /* ----- names ----- */

  function UpperChar(c: char): char {
    if 'a' <= c <= 'z' then (c as int - 32) as char else c
  }

  function Upper(s: Bytes): (r: Bytes)
    ensures |r| == |s|
  {
    seq(|s|, i requires 0 <= i < |s| => UpperChar(s[i]))
  }

  predicate AllUpper(s: Bytes) {
    forall i :: 0 <= i < |s| ==> 'A' <= s[i] <= 'Z'
  }

  lemma UpperFixed(s: Bytes)
    requires AllUpper(s)
    ensures Upper(s) == s
  {
  }

  /* ----- the SET grammar ----- */

  /** Options of SET; the time to live is in milliseconds. */
  datatype SetOptions = SetOptions(key: Key, value: Bytes, nx: bool, xx: bool, get: bool, ttl: Option<int>)

  /** Outcome of `parse_set`: the options, or the message of the error raised. */
  datatype SetParse = Good(opts: SetOptions) | Wrong(message: Bytes)

  const SYNTAX: SetParse := Wrong("syntax error")

  /** `_parse_int` of the command layer: canonical-or-padded decimal within 64 bits. */
  function ParseInt64(s: Bytes): Option<int> {
    match ParseInt(s)
    case None => None
    case Some(n) => if Int64(n) then Some(n) else None
  }

  const BAD_INT: Bytes := "value is not an integer or out of range"

  /** Milliseconds of an EX or PX argument. */
  function TtlMs(unit: Bytes, n: int): int {
    if unit == "EX" then 1000 * n else n
  }

  /** The option loop of `parse_set`, from the arguments still to be read. */
  function ParseOptions(rest: seq<Bytes>, opts: SetOptions): SetParse
    decreases |rest|
  {
    if rest == [] then (if opts.nx && opts.xx then SYNTAX else Good(opts))
    else
      var option := Upper(rest[0]);
      if option == "NX" then ParseOptions(rest[1..], opts.(nx := true))
      else if option == "XX" then ParseOptions(rest[1..], opts.(xx := true))
      else if option == "GET" then ParseOptions(rest[1..], opts.(get := true))
      else if option == "EX" || option == "PX" then
        if opts.ttl.Some? || |rest| < 2 then SYNTAX
        else match ParseInt64(rest[1])
          case None => Wrong(BAD_INT)
          case Some(n) =>
            if n <= 0 then Wrong("invalid expire time in 'set' command")
            else ParseOptions(rest[2..], opts.(ttl := Some(TtlMs(option, n))))
      else SYNTAX
  }

  function Plain(k: Key, v: Bytes): SetOptions {
    SetOptions(k, v, false, false, false, None)
  }

  function ParseSet(args: seq<Bytes>): SetParse {
    if |args| < 2 then SYNTAX else ParseOptions(args[2..], Plain(args[0], args[1]))
  }

  /** `parse_set` as it is written: a loop over a moving index. */
  method ParseSetLoop(args: seq<Bytes>) returns (r: SetParse)
    ensures r == ParseSet(args)
  {
    if |args| < 2 {
      return SYNTAX;
    }
    var opts := Plain(args[0], args[1]);
    var i := 2;
    while i < |args|
      invariant 2 <= i <= |args|
      invariant ParseOptions(args[i..], opts) == ParseSet(args)
    {
      var option := Upper(args[i]);
      assert args[i..][1..] == args[i + 1..];
      if option == "NX" {
        opts := opts.(nx := true);
      } else if option == "XX" {
        opts := opts.(xx := true);
      } else if option == "GET" {
        opts := opts.(get := true);
      } else if option == "EX" || option == "PX" {
        if opts.ttl.Some? || i + 1 >= |args| {
          return SYNTAX;
        }
        assert args[i..][2..] == args[i + 2..];
        i := i + 1;
        var n := ParseInt64(args[i]);
        if n.None? {
          return Wrong(BAD_INT);
        }
        if n.value <= 0 {
          return Wrong("invalid expire time in 'set' command");
        }
        opts := opts.(ttl := Some(TtlMs(option, n.value)));
      } else {
        return SYNTAX;
      }
      i := i + 1;
    }
    if opts.nx && opts.xx {
      return SYNTAX;
    }
    r := Good(opts);
  }

  /** A time to live that some EX or PX argument denotes. */
  predicate ValidTtl(ttl: Option<int>) {
    ttl.None? || (ttl.value > 0 && (ttl.value <= INT64_MAX || (ttl.value % 1000 == 0 && ttl.value / 1000 <= INT64_MAX)))
  }

  predicate ValidOptions(o: SetOptions) {
    !(o.nx && o.xx) && ValidTtl(o.ttl)
  }

  function PrintTtl(ttl: Option<int>): seq<Bytes> {
    if ttl.None? then []
    else if ttl.value <= INT64_MAX then ["PX", IntText(ttl.value)]
    else ["EX", IntText(ttl.value / 1000)]
  }

  function PrintFlags(o: SetOptions): seq<Bytes> {
    (if o.nx then ["NX"] else []) + (if o.xx then ["XX"] else []) + (if o.get then ["GET"] else [])
  }

  /** Arguments of a SET with given options. */
  function PrintSet(o: SetOptions): seq<Bytes> {
    [o.key, o.value] + (PrintFlags(o) + PrintTtl(o.ttl))
  }

  lemma OptionNames()
    ensures Upper("NX") == "NX" && Upper("XX") == "XX" && Upper("GET") == "GET"
    ensures Upper("EX") == "EX" && Upper("PX") == "PX"
    ensures "NX" != "XX" && "NX" != "EX" && "NX" != "PX" && "XX" != "EX" && "XX" != "PX" && "EX" != "PX"
    ensures "GET" != "NX" && "GET" != "XX"
  {
    UpperFixed("NX");
    UpperFixed("XX");
    UpperFixed("GET");
    UpperFixed("EX");
    UpperFixed("PX");
    assert "NX"[0] == 'N' && "XX"[0] == 'X' && "EX"[0] == 'E' && "PX"[0] == 'P';
  }

  lemma ParseInt64Text(n: int)
    ensures ParseInt64(IntText(n)) == if Int64(n) then Some(n) else None
  {
    IntTextRoundTrip(n);
  }

  lemma ParsePrintedTtl(opts: SetOptions, ttl: Option<int>)
    requires opts.ttl.None? && ValidTtl(ttl) && !(opts.nx && opts.xx)
    ensures ParseOptions(PrintTtl(ttl), opts) == Good(opts.(ttl := ttl))
  {
    OptionNames();
    if ttl.Some? {
      var p := PrintTtl(ttl);
      ParseInt64Text(ttl.value);
      ParseInt64Text(ttl.value / 1000);
      assert p[2..] == [];
    } else {
      assert opts.(ttl := ttl) == opts;
    }
  }

  lemma ParsePrintedFlags(o: SetOptions, rest: seq<Bytes>)
    ensures ParseOptions(PrintFlags(o) + rest, Plain(o.key, o.value)) ==
            ParseOptions(rest, SetOptions(o.key, o.value, o.nx, o.xx, o.get, None))
  {
    OptionNames();
    var a := (if o.nx then ["NX"] else []);
    var b := (if o.xx then ["XX"] else []);
    var c := (if o.get then ["GET"] else []);
    var o0 := Plain(o.key, o.value);
    var o1 := o0.(nx := o.nx);
    var o2 := o1.(xx := o.xx);
    assert PrintFlags(o) + rest == a + (b + (c + rest));
    assert ParseOptions(a + (b + (c + rest)), o0) == ParseOptions(b + (c + rest), o1) by {
      if o.nx {
        assert (a + (b + (c + rest)))[1..] == b + (c + rest);
      } else {
        assert a + (b + (c + rest)) == b + (c + rest);
      }
    }
    assert ParseOptions(b + (c + rest), o1) == ParseOptions(c + rest, o2) by {
      if o.xx { assert (b + (c + rest))[1..] == c + rest; } else { assert b + (c + rest) == c + rest; }
    }
    assert ParseOptions(c + rest, o2) == ParseOptions(rest, o2.(get := o.get)) by {
      if o.get { assert (c + rest)[1..] == rest; } else { assert c + rest == rest; }
    }
  }

  /** Parsing inverts printing on all valid options. */
  lemma ParsePrintSet(o: SetOptions)
    requires ValidOptions(o)
    ensures ParseSet(PrintSet(o)) == Good(o)
  {
    assert PrintSet(o)[2..] == PrintFlags(o) + PrintTtl(o.ttl);
    ParsePrintedFlags(o, PrintTtl(o.ttl));
    ParsePrintedTtl(SetOptions(o.key, o.value, o.nx, o.xx, o.get, None), o.ttl);
  }

  lemma {:induction false} ParsedOptionsValid(rest: seq<Bytes>, opts: SetOptions)
    requires ValidTtl(opts.ttl) && ParseOptions(rest, opts).Good?
    ensures ValidOptions(ParseOptions(rest, opts).opts)
    ensures ParseOptions(rest, opts).opts.key == opts.key && ParseOptions(rest, opts).opts.value == opts.value
    decreases |rest|
  {
    if rest != [] {
      var option := Upper(rest[0]);
      if option == "NX" {
        ParsedOptionsValid(rest[1..], opts.(nx := true));
      } else if option == "XX" {
        ParsedOptionsValid(rest[1..], opts.(xx := true));
      } else if option == "GET" {
        ParsedOptionsValid(rest[1..], opts.(get := true));
      } else {
        ParsedOptionsValid(rest[2..], opts.(ttl := Some(TtlMs(option, ParseInt64(rest[1]).value))));
      }
    }
  }

  /** Everything the parser accepts is valid, so printing it and parsing again gives it back. */
  lemma ParsedSetReprints(args: seq<Bytes>)
    requires ParseSet(args).Good?
    ensures ValidOptions(ParseSet(args).opts)
    ensures ParseSet(PrintSet(ParseSet(args).opts)) == ParseSet(args)
  {
    ParsedOptionsValid(args[2..], Plain(args[0], args[1]));
    ParsePrintSet(ParseSet(args).opts);
  }

  /* ----- commands ----- */

  datatype Command =
    | CSet(opts: SetOptions)
    | CMset(pairs: seq<(Key, Bytes)>)
    | CDel(keys: seq<Key>)
    | CIncrBy(key: Key, delta: int)
    | CExpire(key: Key, ms: int)
    | CExpireAt(key: Key, deadline: int)
    | CPersist(key: Key)
    | CFlush
    | CGet(key: Key)
    | CMget(keys: seq<Key>)
    | CExists(keys: seq<Key>)
    | CTtl(key: Key)
    | CKeys(pattern: Option<Bytes>)
    | CDbsize
    | CPing(echo: Option<Bytes>)

  predicate IsWrite(cmd: Command) {
    cmd.CSet? || cmd.CMset? || cmd.CDel? || cmd.CIncrBy? || cmd.CExpire? || cmd.CExpireAt? || cmd.CPersist? ||
      cmd.CFlush?
  }

  datatype Parsed = Ok(cmd: Command) | Fail(message: Bytes)

  function WrongArity(name: Bytes): Parsed {
    Fail("ERR wrong number of arguments for '" + name + "' command")
  }

  const NOT_AN_INTEGER: Parsed := Fail("ERR " + BAD_INT)

  function Pairs(args: seq<Bytes>): seq<(Key, Bytes)>
    requires |args| % 2 == 0
    decreases |args|
  {
    if args == [] then [] else [(args[0], args[1])] + Pairs(args[2..])
  }

  function ParseDelta(key: Key, n: Option<int>, sign: int): Parsed {
    if n.None? then NOT_AN_INTEGER else Ok(CIncrBy(key, sign * n.value))
  }

  function ParseExpire(key: Key, n: Option<int>, unit: int): Parsed {
    if n.None? then NOT_AN_INTEGER else Ok(CExpire(key, unit * n.value))
  }

  /** `dispatch` up to the call of the handler's store operations. */
  function Parse(raw: Record): Parsed {
    if raw == [] then Fail("ERR empty command")
    else
      var name, args := Upper(raw[0]), raw[1..];
      if name == "SET" then
        if |args| < 2 then WrongArity(name)
        else match ParseSet(args)
          case Wrong(message) => Fail("ERR " + message)
          case Good(o) => Ok(CSet(o))
      else if name == "MSET" then
        if |args| < 2 || |args| % 2 != 0 then WrongArity(name) else Ok(CMset(Pairs(args)))
      else if name == "DEL" then
        if |args| < 1 then WrongArity(name) else Ok(CDel(args))
      else if name == "INCR" then
        if |args| != 1 then WrongArity(name) else Ok(CIncrBy(args[0], 1))
      else if name == "DECR" then
        if |args| != 1 then WrongArity(name) else Ok(CIncrBy(args[0], -1))
      else if name == "INCRBY" then
        if |args| != 2 then WrongArity(name) else ParseDelta(args[0], ParseInt64(args[1]), 1)
      else if name == "DECRBY" then
        if |args| != 2 then WrongArity(name) else ParseDelta(args[0], ParseInt64(args[1]), -1)
      else if name == "EXPIRE" then
        if |args| != 2 then WrongArity(name) else ParseExpire(args[0], ParseInt64(args[1]), 1000)
      else if name == "PEXPIRE" then
        if |args| != 2 then WrongArity(name) else ParseExpire(args[0], ParseInt64(args[1]), 1)
      else if name == "PEXPIREAT" then
        if |args| != 2 then WrongArity(name)
        else match ParseInt(args[1])
          case None => NOT_AN_INTEGER
          case Some(d) => Ok(CExpireAt(args[0], d))
      else if name == "PERSIST" then
        if |args| != 1 then WrongArity(name) else Ok(CPersist(args[0]))
      else if name == "FLUSHDB" then
        if |args| != 0 then WrongArity(name) else Ok(CFlush)
      else ParseRead(name, raw[0], args)
  }

  function ParseRead(name: Bytes, typed: Bytes, args: seq<Bytes>): Parsed {
    if name == "GET" then
      if |args| != 1 then WrongArity(name) else Ok(CGet(args[0]))
    else if name == "MGET" then
      if |args| < 1 then WrongArity(name) else Ok(CMget(args))
    else if name == "EXISTS" then
      if |args| < 1 then WrongArity(name) else Ok(CExists(args))
    else if name == "TTL" then
      if |args| != 1 then WrongArity(name) else Ok(CTtl(args[0]))
    else if name == "KEYS" then
      if |args| > 1 then WrongArity(name) else Ok(CKeys(if args == [] then None else Some(args[0])))
    else if name == "DBSIZE" then
      if |args| != 0 then WrongArity(name) else Ok(CDbsize)
    else if name == "PING" then
      if |args| > 1 then WrongArity(name) else Ok(CPing(if args == [] then None else Some(args[0])))
    else if name == "ECHO" then
      if |args| != 1 then WrongArity(name) else Ok(CPing(Some(args[0])))
    else Fail("ERR unknown command '" + typed + "'")
  }

  /* ----- effect ----- */

  /** Effect of a command: new state, reply, keys evicted on the way, growth of the write counter. */
  datatype Effect = Effect(cache: Cache, reply: Value, evicted: seq<Key>, writes: nat)

  const OK: Value := Resp.Simple("OK")

  function AsInt(b: bool): Value {
    Resp.Int(if b then 1 else 0)
  }

  function Looked(r: Reply): Value {
    if r.Found? then Resp.Bulk(r.value) else Resp.Nil
  }

  function ExecSet(c: Cache, cfg: Config, o: SetOptions, now: int): Effect {
    var first := DoGet(c, o.key, now);
    var exists_ := first.reply.Found?;
    var c1 := if o.get then DoGet(first.cache, o.key, now).cache else first.cache;
    var previous := if o.get then Looked(DoGet(first.cache, o.key, now).reply) else Resp.Nil;
    if (o.nx && exists_) || (o.xx && !exists_) then Effect(c1, previous, [], 0)
    else
      var out := DoSet(c1, cfg, o.key, o.value, o.ttl, now);
      Effect(out.cache, if o.get then previous else OK, out.evicted, 1)
  }

  function ExecMset(c: Cache, cfg: Config, pairs: seq<(Key, Bytes)>, now: int): Effect
    decreases |pairs|
  {
    if pairs == [] then Effect(c, OK, [], 0)
    else
      var out := DoSet(c, cfg, pairs[0].0, pairs[0].1, None, now);
      var later := ExecMset(out.cache, cfg, pairs[1..], now);
      Effect(later.cache, OK, out.evicted + later.evicted, 1 + later.writes)
  }

  /** State after deleting keys in turn, and how many were alive. */
  function ExecDel(c: Cache, keys: seq<Key>, now: int): (Cache, nat)
    decreases |keys|
  {
    if keys == [] then (c, 0)
    else
      var out := DoDelete(c, keys[0], now);
      var later := ExecDel(out.cache, keys[1..], now);
      (later.0, (if out.reply == Flag(true) then 1 else 0) + later.1)
  }

  function ExecIncr(c: Cache, cfg: Config, k: Key, delta: int, now: int): Effect {
    var out := DoIncr(c, cfg, k, delta, now);
    match out.reply
    case Rejected(NotAnInteger) => Effect(out.cache, Resp.Error("ERR " + BAD_INT), [], 0)
    case Rejected(Overflow) => Effect(out.cache, Resp.Error("ERR increment or decrement would overflow"), [], 0)
    case Number(n) => Effect(out.cache, Resp.Int(n), out.evicted, 1)
    case _ => Effect(out.cache, Resp.Nil, out.evicted, 0)
  }

  /** State after looking keys up in turn, and the values found. */
  function ExecMget(c: Cache, keys: seq<Key>, now: int): (Cache, seq<Value>)
    decreases |keys|
  {
    if keys == [] then (c, [])
    else
      var out := DoGet(c, keys[0], now);
      var later := ExecMget(out.cache, keys[1..], now);
      (later.0, [Looked(out.reply)] + later.1)
  }

  function CountFound(values: seq<Value>): nat {
    if values == [] then 0 else (if values[0].Bulk? then 1 else 0) + CountFound(values[1..])
  }

  /** The keys that match the pattern of KEYS, in their order; all of them without a pattern. */
  function Listed(keys: seq<Key>, cfg: Config, pattern: Option<Bytes>): (r: seq<Key>)
    ensures |r| <= |keys| && forall k :: k in r <==> k in keys && (pattern.Some? ==> cfg.glob(k, pattern.value))
  {
    if keys == [] then []
    else (if pattern.None? || cfg.glob(keys[0], pattern.value) then [keys[0]] else []) + Listed(keys[1..], cfg, pattern)
  }

  /** Whole seconds left, rounded up. */
  function CeilSeconds(ms: int): int {
    (ms + 999) / 1000
  }

  function TtlAnswer(r: Reply): Value {
    match r
    case Persistent => Resp.Int(-1)
    case Remaining(ms) => Resp.Int(CeilSeconds(ms))
    case _ => Resp.Int(-2)
  }

  function Exec(c: Cache, cfg: Config, cmd: Command, now: int): Effect {
    match cmd
    case CSet(o) => ExecSet(c, cfg, o, now)
    case CMset(pairs) => ExecMset(c, cfg, pairs, now)
    case CDel(keys) => Effect(ExecDel(c, keys, now).0, Resp.Int(ExecDel(c, keys, now).1), [], 0)
    case CIncrBy(k, delta) => ExecIncr(c, cfg, k, delta, now)
    case CExpire(k, ms) =>
      var out := DoExpireAt(c, k, now + ms, now);
      Effect(out.cache, AsInt(out.reply == Flag(true)), [], 0)
    case CExpireAt(k, d) =>
      var out := DoExpireAt(c, k, d, now);
      Effect(out.cache, AsInt(out.reply == Flag(true)), [], 0)
    case CPersist(k) =>
      var out := DoPersist(c, k, now);
      Effect(out.cache, AsInt(out.reply == Flag(true)), [], 0)
    case CFlush => Effect(EMPTY, OK, [], 0)
    case CGet(k) => Effect(DoGet(c, k, now).cache, Looked(DoGet(c, k, now).reply), [], 0)
    case CMget(keys) => Effect(ExecMget(c, keys, now).0, Resp.Arr(ExecMget(c, keys, now).1), [], 0)
    case CExists(keys) => Effect(ExecMget(c, keys, now).0, Resp.Int(CountFound(ExecMget(c, keys, now).1)), [], 0)
    case CTtl(k) => Effect(DoTtl(c, k, now).cache, TtlAnswer(DoTtl(c, k, now).reply), [], 0)
    case CKeys(pattern) =>
      Effect(Prune(c, now), Resp.Arr(Resp.AsBulks(Listed(Prune(c, now).order, cfg, pattern))), [], 0)
    case CDbsize => Effect(Prune(c, now), Resp.Int(|Prune(c, now).order|), [], 0)
    case CPing(echo) => Effect(c, if echo.Some? then Resp.Bulk(echo.value) else Resp.Simple("PONG"), [], 0)
  }

  function Dispatch(c: Cache, cfg: Config, raw: Record, now: int): Effect {
    match Parse(raw)
    case Fail(message) => Effect(c, Resp.Error(message), [], 0)
    case Ok(cmd) => Exec(c, cfg, cmd, now)
  }

  /** Whether the write path logs and propagates the command: it succeeded, and a SET took effect. */
  predicate TookEffect(raw: Record, eff: Effect) {
    && Parse(raw).Ok?
    && IsWrite(Parse(raw).cmd)
    && !eff.reply.Error?
    && (Parse(raw).cmd.CSet? ==> eff.writes > 0)
  }

  /* ----- normal forms ----- */

  function SetRecord(k: Key, v: Bytes): Record {
    ["SET", k, v]
  }

  function ExpireAtRecord(k: Key, deadline: int): Record {
    ["PEXPIREAT", k, IntText(deadline)]
  }

  function DelRecord(k: Key): Record {
    ["DEL", k]
  }

  /** `to_aof_commands`: relative times become absolute deadlines, conditional SETs become plain ones. */
  function ToAof(raw: Record, now: int): seq<Record> {
    match Parse(raw)
    case Ok(CSet(o)) =>
      if o.ttl.None? then [SetRecord(o.key, o.value)]
      else [SetRecord(o.key, o.value), ExpireAtRecord(o.key, now + o.ttl.value)]
    case Ok(CExpire(k, ms)) => [ExpireAtRecord(k, now + ms)]
    case _ => [raw]
  }

  /** Whether the write path drains evictions and awaits `commit`: a write command that succeeded. */
  predicate Commits(raw: Record, reply: Value) {
    Parse(raw).Ok? && IsWrite(Parse(raw).cmd) && !reply.Error?
  }

  function DelRecords(keys: seq<Key>): (recs: seq<Record>)
    ensures |recs| == |keys|
  {
    if keys == [] then [] else DelRecords(keys[..|keys| - 1]) + [DelRecord(keys[|keys| - 1])]
  }

  /** Everything one command appends to the log: its normal form if it took effect, then its evictions. */
  function Appended(raw: Record, eff: Effect, now: int): seq<Record> {
    if Commits(raw, eff.reply) then (if TookEffect(raw, eff) then ToAof(raw, now) else []) + DelRecords(eff.evicted)
    else []
  }

  /** `to_replication_command`: conditional SETs become plain ones with a relative PX. */
  function ToReplication(raw: Record): Record {
    match Parse(raw)
    case Ok(CSet(o)) =>
      if o.ttl.None? then SetRecord(o.key, o.value)
      else SetRecord(o.key, o.value) + ["PX", IntText(if o.ttl.value < 1 then 1 else o.ttl.value)]
    case _ => raw
  }

  lemma ParseSetRecord(k: Key, v: Bytes)
    ensures Parse(SetRecord(k, v)) == Ok(CSet(Plain(k, v)))
  {
    UpperFixed("SET");
    assert SetRecord(k, v)[1..] == [k, v];
    assert [k, v][2..] == [];
  }

  lemma ParseExpireAtRecord(k: Key, deadline: int)
    ensures Parse(ExpireAtRecord(k, deadline)) == Ok(CExpireAt(k, deadline))
  {
    UpperFixed("PEXPIREAT");
    IntTextRoundTrip(deadline);
    assert ExpireAtRecord(k, deadline)[1..] == [k, IntText(deadline)];
    assert |"PEXPIREAT"| == 9;
  }

  lemma ParseDelRecord(k: Key)
    ensures Parse(DelRecord(k)) == Ok(CDel([k]))
  {
    UpperFixed("DEL");
    assert DelRecord(k)[1..] == [k];
    assert "DEL"[0] == 'D' && "SET"[0] == 'S';
  }

  lemma ParseFlushRecord()
    ensures Parse(["FLUSHDB"]) == Ok(CFlush)
  {
    UpperFixed("FLUSHDB");
    assert "FLUSHDB"[0] == 'F' && "PERSIST"[0] == 'P' && "PEXPIRE"[0] == 'P';
    assert ["FLUSHDB"][1..] == [];
  }

  /** The replicated form of a SET with a deadline parses back exactly when it fits 64 bits. */
  lemma ParseSetPx(k: Key, v: Bytes, ms: int)
    requires ms > 0
    ensures var p := Parse(SetRecord(k, v) + ["PX", IntText(ms)]);
            if ms <= INT64_MAX then p == Ok(CSet(Plain(k, v).(ttl := Some(ms)))) else p.Fail?
  {
    UpperFixed("SET");
    OptionNames();
    ParseInt64Text(ms);
    var args := [k, v, "PX", IntText(ms)];
    assert (SetRecord(k, v) + ["PX", IntText(ms)])[0] == "SET";
    assert (SetRecord(k, v) + ["PX", IntText(ms)])[1..] == args;
    var rest := ["PX", IntText(ms)];
    assert args[2..] == rest && rest[2..] == [];
    assert rest[0] == "PX" && rest[1] == IntText(ms);
    assert ParseSet(args) == ParseOptions(rest, Plain(k, v));
    if ms <= INT64_MAX {
      ParsePrintedTtl(Plain(k, v), Some(ms));
    } else {
      assert ParseOptions(rest, Plain(k, v)) == Wrong(BAD_INT);
    }
  }

  /* ----- well-formedness ----- */

  lemma {:induction false} ExecMsetWF(c: Cache, cfg: Config, pairs: seq<(Key, Bytes)>, now: int)
    requires WF(c)
    ensures WF(ExecMset(c, cfg, pairs, now).cache)
    decreases |pairs|
  {
    if pairs != [] {
      StepWF(c, cfg, Set(pairs[0].0, pairs[0].1, None), now);
      ExecMsetWF(DoSet(c, cfg, pairs[0].0, pairs[0].1, None, now).cache, cfg, pairs[1..], now);
    }
  }

  lemma {:induction false} ExecDelWF(c: Cache, keys: seq<Key>, now: int)
    requires WF(c)
    ensures WF(ExecDel(c, keys, now).0)
    decreases |keys|
  {
    if keys != [] {
      StepWF(c, UNLIMITED, Delete(keys[0]), now);
      ExecDelWF(DoDelete(c, keys[0], now).cache, keys[1..], now);
    }
  }

  lemma {:induction false} ExecMgetWF(c: Cache, keys: seq<Key>, now: int)
    requires WF(c)
    ensures WF(ExecMget(c, keys, now).0)
    decreases |keys|
  {
    if keys != [] {
      GetWF(c, keys[0], now);
      ExecMgetWF(DoGet(c, keys[0], now).cache, keys[1..], now);
    }
  }

  lemma ExecSetWF(c: Cache, cfg: Config, o: SetOptions, now: int)
    requires WF(c)
    ensures WF(ExecSet(c, cfg, o, now).cache)
  {
    var first := DoGet(c, o.key, now);
    GetWF(c, o.key, now);
    GetWF(first.cache, o.key, now);
    var c1 := if o.get then DoGet(first.cache, o.key, now).cache else first.cache;
    StepWF(c1, cfg, Set(o.key, o.value, o.ttl), now);
  }

  lemma ExecWF(c: Cache, cfg: Config, cmd: Command, now: int)
    requires WF(c)
    ensures WF(Exec(c, cfg, cmd, now).cache)
  {
    match cmd {
      case CSet(o) => ExecSetWF(c, cfg, o, now);
      case CMset(pairs) => ExecMsetWF(c, cfg, pairs, now);
      case CDel(keys) => ExecDelWF(c, keys, now);
      case CIncrBy(k, delta) => IncrWF(c, cfg, k, delta, now);
      case CExpire(k, ms) => DropIfExpiredWF(c, k, now);
      case CExpireAt(k, d) => DropIfExpiredWF(c, k, now);
      case CPersist(k) => DropIfExpiredWF(c, k, now);
      case CFlush =>
      case CPing(_) =>
      case _ => ExecReadWF(c, cfg, cmd, now);
    }
  }

  lemma ExecReadWF(c: Cache, cfg: Config, cmd: Command, now: int)
    requires WF(c) && (cmd.CGet? || cmd.CMget? || cmd.CExists? || cmd.CTtl? || cmd.CKeys? || cmd.CDbsize?)
    ensures WF(Exec(c, cfg, cmd, now).cache)
  {
    match cmd {
      case CGet(k) => GetWF(c, k, now);
      case CMget(keys) => ExecMgetWF(c, keys, now);
      case CExists(keys) => ExecMgetWF(c, keys, now);
      case CTtl(k) => DropIfExpiredWF(c, k, now);
      case _ => RestrictWF(c, LiveKeys(c, now));
    }
  }

  lemma DispatchWF(c: Cache, cfg: Config, raw: Record, now: int)
    requires WF(c)
    ensures WF(Dispatch(c, cfg, raw, now).cache)
  {
    if Parse(raw).Ok? {
      ExecWF(c, cfg, Parse(raw).cmd, now);
    }
  }
}

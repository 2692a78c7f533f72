/** The command handlers as they run: loops and calls that update a store object in place. */
module Handlers {
  import opened Base
  import opened CacheModel
  import opened Commands
  import opened TimedReplay
  import opened LogScan
  import opened StoreEngine
  import M = TimedMap
  import T = Tales
  import W = Words
  import Resp

  /** The whole effect of a command on a store object. */
  twostate predicate Performed(store: Store, eff: Effect)
    reads store
  {
    && store.Valid()
    && store.State() == eff.cache
    && store.evicted == old(store.evicted) + eff.evicted
    && store.writes == old(store.writes) + eff.writes
  }

  /** A lookup reply, as the server answers it. */
  method Look(store: Store, k: Key, now: int) returns (reply: Value)
    requires store.Valid()
    modifies store
    ensures store.Valid() && store.evicted == old(store.evicted) && store.writes == old(store.writes)
    ensures store.State() == DoGet(old(store.State()), k, now).cache
    ensures reply == Looked(DoGet(old(store.State()), k, now).reply)
  {
    var found := store.Get(k, now);
    reply := if found.Some? then Resp.Bulk(found.value) else Resp.Nil;
  }

  /** The lookups of SET: whether the key exists, and its previous value when GET was given. */
  method Probe(store: Store, o: SetOptions, now: int) returns (present: bool, previous: Value)
    requires store.Valid()
    modifies store
    ensures store.Valid() && store.evicted == old(store.evicted) && store.writes == old(store.writes)
    ensures var first := DoGet(old(store.State()), o.key, now);
            present == first.reply.Found? &&
            store.State() == (if o.get then DoGet(first.cache, o.key, now).cache else first.cache) &&
            previous == if o.get then Looked(DoGet(first.cache, o.key, now).reply) else Resp.Nil
  {
    var found := Look(store, o.key, now);
    present, previous := found.Bulk?, Resp.Nil;
    if o.get {
      previous := Look(store, o.key, now);
    }
  }

  method RunSet(store: Store, o: SetOptions, now: int) returns (reply: Value)
    requires store.Valid()
    modifies store
    ensures Performed(store, ExecSet(old(store.State()), store.Cfg(), o, now))
    ensures reply == ExecSet(old(store.State()), store.Cfg(), o, now).reply
  {
    var present, previous := Probe(store, o, now);
    if (o.nx && present) || (o.xx && !present) {
      return previous;
    }
    store.Set(o.key, o.value, o.ttl, now);
    reply := if o.get then previous else OK;
  }

  /** The state, evictions and write count after the first pairs, and what the rest will add. */
  ghost predicate MsetLeft(c: Cache, evicted: seq<Key>, writes: nat, rest: seq<(Key, Bytes)>, cfg: Config, now: int,
                           goal: Effect) {
    var e := ExecMset(c, cfg, rest, now);
    e.cache == goal.cache && evicted + e.evicted == goal.evicted && writes + e.writes == goal.writes
  }

  lemma MsetNext(c: Cache, evicted: seq<Key>, writes: nat, rest: seq<(Key, Bytes)>, cfg: Config, now: int, goal: Effect)
    requires rest != [] && MsetLeft(c, evicted, writes, rest, cfg, now, goal)
    ensures var out := DoSet(c, cfg, rest[0].0, rest[0].1, None, now);
            MsetLeft(out.cache, evicted + out.evicted, writes + 1, rest[1..], cfg, now, goal)
  {
    var out := DoSet(c, cfg, rest[0].0, rest[0].1, None, now);
    var later := ExecMset(out.cache, cfg, rest[1..], now);
    assert evicted + (out.evicted + later.evicted) == evicted + out.evicted + later.evicted;
  }

  method SetPair(store: Store, k: Key, v: Bytes, now: int, ghost base: seq<Key>, ghost drained: seq<Key>,
                 ghost out: Out)
    requires store.Valid() && store.evicted == base + drained
    requires out == DoSet(store.State(), store.Cfg(), k, v, None, now)
    modifies store
    ensures store.Valid() && store.State() == out.cache && store.writes == old(store.writes) + 1
    ensures store.evicted == base + (drained + out.evicted)
  {
    store.Set(k, v, None, now);
    Regroup(base, drained, out.evicted);
  }

  method RunMset(store: Store, pairs: seq<(Key, Bytes)>, now: int)
    requires store.Valid()
    modifies store
    ensures Performed(store, ExecMset(old(store.State()), store.Cfg(), pairs, now))
  {
    ghost var goal := ExecMset(store.State(), store.Cfg(), pairs, now);
    ghost var base, count := store.evicted, store.writes;
    ghost var drained: seq<Key>, done: nat := [], 0;
    var i := 0;
    assert pairs[0..] == pairs;
    while i < |pairs|
      invariant 0 <= i <= |pairs| && store.Valid()
      invariant store.evicted == base + drained && store.writes == count + done
      invariant MsetLeft(store.State(), drained, done, pairs[i..], store.Cfg(), now, goal)
    {
      ghost var out := DoSet(store.State(), store.Cfg(), pairs[i].0, pairs[i].1, None, now);
      MsetNext(store.State(), drained, done, pairs[i..], store.Cfg(), now, goal);
      assert pairs[i..][1..] == pairs[i + 1..];
      SetPair(store, pairs[i].0, pairs[i].1, now, base, drained, out);
      drained, done := drained + out.evicted, done + 1;
      i := i + 1;
    }
    assert pairs[i..] == [];
    MsetDone(store.State(), drained, done, store.Cfg(), now, goal);
  }

  lemma MsetDone(c: Cache, evicted: seq<Key>, writes: nat, cfg: Config, now: int, goal: Effect)
    requires MsetLeft(c, evicted, writes, [], cfg, now, goal)
    ensures goal.cache == c && goal.evicted == evicted && goal.writes == writes
  {
  }

  /** The state and count after the first deletions, and what the rest will add. */
  ghost predicate DelLeft(c: Cache, count: nat, rest: seq<Key>, now: int, goal: (Cache, nat)) {
    ExecDel(c, rest, now).0 == goal.0 && count + ExecDel(c, rest, now).1 == goal.1
  }

  lemma DelNext(c: Cache, count: nat, rest: seq<Key>, now: int, goal: (Cache, nat))
    requires rest != [] && DelLeft(c, count, rest, now, goal)
    ensures var out := DoDelete(c, rest[0], now);
            DelLeft(out.cache, count + (if out.reply == Flag(true) then 1 else 0), rest[1..], now, goal)
  {
  }

  lemma HeadOfRest<T>(s: seq<T>, i: nat)
    requires i < |s|
    ensures s[i..] != [] && s[i..][0] == s[i] && s[i..][1..] == s[i + 1..]
  {
  }

  method DeleteNext(store: Store, k: Key, now: int, count: nat, ghost rest: seq<Key>, ghost goal: (Cache, nat))
    returns (more: nat)
    requires store.Valid() && rest != [] && rest[0] == k && DelLeft(store.State(), count, rest, now, goal)
    modifies store
    ensures store.Valid() && store.evicted == old(store.evicted) && store.writes == old(store.writes)
    ensures DelLeft(store.State(), more, rest[1..], now, goal)
  {
    DelNext(store.State(), count, rest, now, goal);
    var deleted := store.Delete(k, now);
    more := if deleted then count + 1 else count;
  }

  method RunDel(store: Store, keys: seq<Key>, now: int) returns (count: nat)
    requires store.Valid()
    modifies store
    ensures store.Valid() && store.evicted == old(store.evicted) && store.writes == old(store.writes)
    ensures (store.State(), count) == ExecDel(old(store.State()), keys, now)
  {
    count := 0;
    var i := 0;
    ghost var goal := ExecDel(store.State(), keys, now);
    assert keys[0..] == keys;
    while i < |keys|
      invariant 0 <= i <= |keys| && store.Valid()
      invariant store.evicted == old(store.evicted) && store.writes == old(store.writes)
      invariant DelLeft(store.State(), count, keys[i..], now, goal)
    {
      HeadOfRest(keys, i);
      count := DeleteNext(store, keys[i], now, count, keys[i..], goal);
      i := i + 1;
    }
    assert keys[i..] == [];
  }

  ghost predicate MgetLeft(c: Cache, values: seq<Value>, rest: seq<Key>, now: int, goal: (Cache, seq<Value>)) {
    ExecMget(c, rest, now).0 == goal.0 && values + ExecMget(c, rest, now).1 == goal.1
  }

  lemma MgetNext(c: Cache, values: seq<Value>, rest: seq<Key>, now: int, goal: (Cache, seq<Value>))
    requires rest != [] && MgetLeft(c, values, rest, now, goal)
    ensures var out := DoGet(c, rest[0], now);
            MgetLeft(out.cache, values + [Looked(out.reply)], rest[1..], now, goal)
  {
    var out := DoGet(c, rest[0], now);
    var later := ExecMget(out.cache, rest[1..], now).1;
    assert values + ([Looked(out.reply)] + later) == values + [Looked(out.reply)] + later;
  }

  method RunMget(store: Store, keys: seq<Key>, now: int) returns (values: seq<Value>)
    requires store.Valid()
    modifies store
    ensures store.Valid() && store.evicted == old(store.evicted) && store.writes == old(store.writes)
    ensures (store.State(), values) == ExecMget(old(store.State()), keys, now)
  {
    values := [];
    var i := 0;
    ghost var goal := ExecMget(store.State(), keys, now);
    assert keys[0..] == keys;
    while i < |keys|
      invariant 0 <= i <= |keys| && store.Valid()
      invariant store.evicted == old(store.evicted) && store.writes == old(store.writes)
      invariant MgetLeft(store.State(), values, keys[i..], now, goal)
    {
      MgetNext(store.State(), values, keys[i..], now, goal);
      assert keys[i..][1..] == keys[i + 1..];
      var found := store.Get(keys[i], now);
      values := values + [if found.Some? then Resp.Bulk(found.value) else Resp.Nil];
      i := i + 1;
    }
    assert values + [] == values;
  }

  method RunIncr(store: Store, k: Key, delta: int, now: int) returns (reply: Value)
    requires store.Valid()
    modifies store
    ensures Performed(store, ExecIncr(old(store.State()), store.Cfg(), k, delta, now))
    ensures reply == ExecIncr(old(store.State()), store.Cfg(), k, delta, now).reply
  {
    IncrReplies(store.State(), store.Cfg(), k, delta, now);
    var r := store.Incr(k, delta, now);
    if r.Number? {
      reply := Resp.Int(r.n);
    } else if r == Rejected(NotAnInteger) {
      reply := Resp.Error("ERR " + BAD_INT);
    } else {
      reply := Resp.Error("ERR increment or decrement would overflow");
    }
  }

  lemma IncrReplies(c: Cache, cfg: Config, k: Key, delta: int, now: int)
    ensures var out, eff := DoIncr(c, cfg, k, delta, now), ExecIncr(c, cfg, k, delta, now);
            && eff.cache == out.cache && eff.evicted == out.evicted &&
               eff.writes == (if out.reply.Number? then 1 else 0)
            && match out.reply
               case Number(n) => eff.reply == Resp.Int(n)
               case Rejected(NotAnInteger) => eff.reply == Resp.Error("ERR " + BAD_INT)
               case Rejected(Overflow) => eff.reply == Resp.Error("ERR increment or decrement would overflow")
               case _ => false
  {
  }

  method RunRead(store: Store, cmd: Command, now: int) returns (reply: Value)
    requires store.Valid() && !IsWrite(cmd)
    modifies store
    ensures Performed(store, Exec(old(store.State()), store.Cfg(), cmd, now))
    ensures reply == Exec(old(store.State()), store.Cfg(), cmd, now).reply
  {
    match cmd {
      case CGet(k) => reply := Look(store, k, now);
      case CMget(keys) =>
        var values := RunMget(store, keys, now);
        reply := Resp.Arr(values);
      case CExists(keys) =>
        var values := RunMget(store, keys, now);
        reply := Resp.Int(CountFound(values));
      case CTtl(k) => reply := RunTtl(store, k, now);
      case CKeys(pattern) => reply := RunKeys(store, pattern, now);
      case CDbsize => reply := RunDbsize(store, now);
      case CPing(echo) => reply := if echo.Some? then Resp.Bulk(echo.value) else Resp.Simple("PONG");
    }
  }

  method RunTtl(store: Store, k: Key, now: int) returns (reply: Value)
    requires store.Valid()
    modifies store
    ensures var out := DoTtl(old(store.State()), k, now);
            Performed(store, Effect(out.cache, reply, [], 0)) && reply == TtlAnswer(out.reply)
  {
    var r := store.TimeToLive(k, now);
    reply := TtlAnswer(r);
  }

  /** KEYS sweeps before it answers, and filters the keys by the pattern, if there is one. */
  method RunKeys(store: Store, pattern: Option<Bytes>, now: int) returns (reply: Value)
    requires store.Valid()
    modifies store
    ensures var p := Prune(old(store.State()), now);
            Performed(store, Effect(p, reply, [], 0)) &&
            reply == Resp.Arr(Resp.AsBulks(Listed(p.order, store.Cfg(), pattern)))
  {
    var keys := store.KeyList(now);
    if pattern.None? {
      AllListed(keys, store.Cfg());
    } else {
      keys := MatchingKeys(keys, store.Cfg(), pattern.value);
    }
    reply := Resp.Arr(Resp.AsBulks(keys));
  }

  method MatchingKeys(keys: seq<Key>, cfg: Config, pattern: Bytes) returns (matching: seq<Key>)
    ensures matching == Listed(keys, cfg, Some(pattern))
  {
    matching := [];
    ghost var goal := Listed(keys, cfg, Some(pattern));
    assert keys[0..] == keys;
    for i := 0 to |keys|
      invariant ListLeft(matching, keys[i..], cfg, pattern, goal)
    {
      HeadOfRest(keys, i);
      ListNext(matching, keys[i..], cfg, pattern, goal);
      if cfg.glob(keys[i], pattern) {
        matching := matching + [keys[i]];
      }
    }
  }

  /** The matching keys found so far, and those that the rest will add. */
  ghost predicate ListLeft(matching: seq<Key>, rest: seq<Key>, cfg: Config, pattern: Bytes, goal: seq<Key>) {
    matching + Listed(rest, cfg, Some(pattern)) == goal
  }

  lemma ListNext(matching: seq<Key>, rest: seq<Key>, cfg: Config, pattern: Bytes, goal: seq<Key>)
    requires rest != [] && ListLeft(matching, rest, cfg, pattern, goal)
    ensures ListLeft(if cfg.glob(rest[0], pattern) then matching + [rest[0]] else matching, rest[1..], cfg, pattern,
                     goal)
  {
    Regroup(matching, [rest[0]], Listed(rest[1..], cfg, Some(pattern)));
  }

  lemma {:induction false} AllListed(keys: seq<Key>, cfg: Config)
    ensures Listed(keys, cfg, None) == keys
  {
    if keys != [] {
      AllListed(keys[1..], cfg);
    }
  }

  method RunDbsize(store: Store, now: int) returns (reply: Value)
    requires store.Valid()
    modifies store
    ensures var p := Prune(old(store.State()), now);
            Performed(store, Effect(p, reply, [], 0)) && reply == Resp.Int(|p.order|)
  {
    var n := store.Length(now);
    reply := Resp.Int(n);
  }

  method RunWrite(store: Store, cmd: Command, now: int) returns (reply: Value)
    requires store.Valid() && IsWrite(cmd)
    modifies store
    ensures Performed(store, Exec(old(store.State()), store.Cfg(), cmd, now))
    ensures reply == Exec(old(store.State()), store.Cfg(), cmd, now).reply
  {
    match cmd {
      case CSet(o) => reply := RunSet(store, o, now);
      case CMset(pairs) =>
        MsetReply(store.State(), store.Cfg(), pairs, now);
        RunMset(store, pairs, now);
        reply := OK;
      case CDel(keys) =>
        var n := RunDel(store, keys, now);
        reply := Resp.Int(n);
      case CIncrBy(k, delta) => reply := RunIncr(store, k, delta, now);
      case CExpire(k, ms) => reply := RunExpire(store, k, ms, now);
      case CExpireAt(k, deadline) => reply := RunExpireAt(store, k, deadline, now);
      case CPersist(k) => reply := RunPersist(store, k, now);
      case CFlush =>
        store.Flush();
        reply := OK;
    }
  }

  /** The answer of a store operation that yields a flag. */
  function Flagged(out: Out): Effect {
    Effect(out.cache, AsInt(out.reply == Flag(true)), [], 0)
  }

  method RunExpire(store: Store, k: Key, ms: int, now: int) returns (reply: Value)
    requires store.Valid()
    modifies store
    ensures Performed(store, Flagged(DoExpireAt(old(store.State()), k, now + ms, now)))
    ensures reply == Flagged(DoExpireAt(old(store.State()), k, now + ms, now)).reply
  {
    var b := store.Expire(k, ms, now);
    reply := AsInt(b);
  }

  method RunExpireAt(store: Store, k: Key, deadline: int, now: int) returns (reply: Value)
    requires store.Valid()
    modifies store
    ensures Performed(store, Flagged(DoExpireAt(old(store.State()), k, deadline, now)))
    ensures reply == Flagged(DoExpireAt(old(store.State()), k, deadline, now)).reply
  {
    var b := store.ExpireAtUnix(k, deadline, now);
    reply := AsInt(b);
  }

  method RunPersist(store: Store, k: Key, now: int) returns (reply: Value)
    requires store.Valid()
    modifies store
    ensures Performed(store, Flagged(DoPersist(old(store.State()), k, now)))
    ensures reply == Flagged(DoPersist(old(store.State()), k, now)).reply
  {
    var b := store.Persist(k, now);
    reply := AsInt(b);
  }

  /** The answer is the reference's to the command that the words say, or an error if they say none. */
  ghost predicate AnsweredAsSaid(c: Cache, cfg: Config, raw: Record, now: int, reply: Value) {
    && (forall cmd :: W.Says(raw, cmd) ==> M.Answered(M.On(c, now), c.order, cfg, cmd, now, reply))
    && ((forall cmd :: !W.Says(raw, cmd)) ==> reply.Error?)
  }

  lemma ReplyAsSaid(c: Cache, cfg: Config, raw: Record, now: int)
    requires WF(c)
    ensures AnsweredAsSaid(c, cfg, raw, now, Dispatch(c, cfg, raw, now).reply)
  {
    T.RequestServed(c, cfg, raw, now);
  }

  /** `dispatch`: parse, run the handler, answer errors with an error reply and no change. */
  method RunCommand(store: Store, raw: Record, now: int) returns (reply: Value)
    requires store.Valid()
    modifies store
    ensures Performed(store, Dispatch(old(store.State()), store.Cfg(), raw, now))
    ensures reply == Dispatch(old(store.State()), store.Cfg(), raw, now).reply
    ensures AnsweredAsSaid(old(store.State()), store.Cfg(), raw, now, reply)
  {
    ReplyAsSaid(store.State(), store.Cfg(), raw, now);
    var parsed := Parse(raw);
    match parsed {
      case Fail(message) => reply := Resp.Error(message);
      case Ok(cmd) =>
        if IsWrite(cmd) {
          reply := RunWrite(store, cmd, now);
        } else {
          reply := RunRead(store, cmd, now);
        }
    }
  }

  /** Run one more record of a log. */
  method RunLogged(store: Store, raw: Record, now: int, ghost base: Cache, ghost ran: seq<Record>)
    requires store.Valid() && store.State() == Replay(base, store.Cfg(), ran, now)
    modifies store
    ensures store.Valid() && store.State() == Replay(base, store.Cfg(), ran + [raw], now)
  {
    ghost var before := store.State();
    var _ := RunCommand(store, raw, now);
    assert (ran + [raw])[..|ran|] == ran;
    assert Replay(base, store.Cfg(), ran + [raw], now) == Dispatch(before, store.Cfg(), raw, now).cache;
  }

  /** The commands run so far by `replay`, their offset, and the bytes still to be read. */
  ghost predicate ScanLeft(rest: Bytes, ran: seq<Record>, good: nat, goal: Scanned) {
    var s := Scan(rest);
    ran + s.commands == goal.commands && good + s.good == goal.good && s.torn == goal.torn
  }

  lemma ScanNext(rest: Bytes, ran: seq<Record>, good: nat, goal: Scanned)
    requires ScanLeft(rest, ran, good, goal) && Resp.ReadCommand(rest).Got?
    ensures var r := Resp.ReadCommand(rest);
            ScanLeft(r.rest, ran + (if r.value == [] then [] else [r.value]),
                     good + |Resp.EncodeCommand(r.value)|, goal)
  {
    var r := Resp.ReadCommand(rest);
    ScanGot(rest, r.value, r.rest);
    Regroup(ran, if r.value == [] then [] else [r.value], Scan(r.rest).commands);
  }

  /** The loop of `replay` over the bytes of the file. */
  method RunReadable(data: Bytes, store: Store, now: int) returns (count: nat, good: nat, torn: bool)
    requires store.Valid()
    modifies store
    ensures store.Valid()
    ensures count == |Scan(data).commands| && good == Scan(data).good && torn == Scan(data).torn
    ensures store.State() == Replay(old(store.State()), store.Cfg(), Scan(data).commands, now)
  {
    var rest := data;
    count, good, torn := 0, 0, false;
    ghost var goal := Scan(data);
    ghost var ran: seq<Record> := [];
    var read := Resp.ReadCommand(rest);
    while read.Got?
      invariant store.Valid() && read == Resp.ReadCommand(rest)
      invariant ScanLeft(rest, ran, good, goal) && count == |ran|
      invariant store.State() == Replay(old(store.State()), store.Cfg(), ran, now)
      decreases |rest|
    {
      ScanNext(rest, ran, good, goal);
      good := good + |Resp.EncodeCommand(read.value)|;
      if read.value == [] {
        assert ran + [] == ran;
      } else {
        RunLogged(store, read.value, now, old(store.State()), ran);
        ran := ran + [read.value];
        count := count + 1;
      }
      rest := read.rest;
      read := Resp.ReadCommand(rest);
    }
    torn := read.Bad?;
    assert ran + [] == ran;
  }
}

/**
 * What a request says, told from its words and without the parser: names up to the case of their letters,
 * arguments by their position, amounts and times by the name they come with. The parser is proved to
 * accept exactly the requests that say a command, and to make that command of them.
 */
module Words {
  import opened Base
  import opened Decimal
  import opened CacheModel
  import opened Commands
  import opened Replies
  import Resp

  /** Equal to a word in capitals, up to the case of ASCII letters. */
  predicate Is(s: Bytes, word: Bytes) {
    |s| == |word| &&
    forall i :: 0 <= i < |s| ==>
      s[i] == word[i] || ('A' <= word[i] <= 'Z' && s[i] as int == word[i] as int + 32)
  }

  lemma IsUpper(s: Bytes, word: Bytes)
    requires AllUpper(word)
    ensures Is(s, word) <==> Upper(s) == word
  {
    if Upper(s) == word {
      forall i | 0 <= i < |s| ensures s[i] == word[i] || s[i] as int == word[i] as int + 32 {
        assert Upper(s)[i] == word[i];
      }
    }
    if Is(s, word) {
      forall i | 0 <= i < |s| ensures Upper(s)[i] == word[i] {
      }
    }
  }

  /** The integer a word denotes, if it is one of 64 bits. */
  function Amount(s: Bytes): Option<int> {
    match ParseInt(s)
    case Some(n) => if -9223372036854775808 <= n <= 9223372036854775807 then Some(n) else None
    case None => None
  }

  /* ----- the options of SET ----- */

  datatype Phrase = IfAbsent | IfPresent | WithOld | For(seconds: bool, n: int)

  /** The words are these phrases, in this order. */
  predicate Spells(rest: seq<Bytes>, ps: seq<Phrase>)
    decreases |ps|
  {
    if ps == [] then rest == []
    else
      rest != [] &&
      match ps[0]
      case IfAbsent => Is(rest[0], "NX") && Spells(rest[1..], ps[1..])
      case IfPresent => Is(rest[0], "XX") && Spells(rest[1..], ps[1..])
      case WithOld => Is(rest[0], "GET") && Spells(rest[1..], ps[1..])
      case For(seconds, n) =>
        |rest| >= 2 && Is(rest[0], if seconds then "EX" else "PX") && Amount(rest[1]) == Some(n) &&
        Spells(rest[2..], ps[1..])
  }

  /** A time to live in milliseconds. */
  function Milliseconds(p: Phrase): int
    requires p.For?
  {
    if p.seconds then p.n * 1000 else p.n
  }

  /** Options that were `opts` before the phrases are `o` after them. */
  ghost predicate Add(opts: SetOptions, ps: seq<Phrase>, o: SetOptions) {
    && o.key == opts.key && o.value == opts.value
    && (o.nx <==> opts.nx || IfAbsent in ps)
    && (o.xx <==> opts.xx || IfPresent in ps)
    && (o.get <==> opts.get || WithOld in ps)
    && (forall i :: 0 <= i < |ps| && ps[i].For? ==> Times(opts, ps, o, i))
    && ((forall i :: 0 <= i < |ps| ==> !ps[i].For?) ==> o.ttl == opts.ttl)
  }

  /** Phrase `i` is the only one that sets a time to live, and sets it to a positive number. */
  ghost predicate Times(opts: SetOptions, ps: seq<Phrase>, o: SetOptions, i: nat)
    requires i < |ps| && ps[i].For?
  {
    && ps[i].n > 0 && opts.ttl.None? && o.ttl == Some(Milliseconds(ps[i]))
    && forall j :: 0 <= j < |ps| && ps[j].For? ==> j == i
  }

  function AddFlag(opts: SetOptions, p: Phrase): SetOptions {
    match p
    case IfAbsent => opts.(nx := true)
    case IfPresent => opts.(xx := true)
    case WithOld => opts.(get := true)
    case _ => opts
  }

  /** The phrases after the first one add the rest. */
  lemma AddRest(opts: SetOptions, ps: seq<Phrase>, o: SetOptions)
    requires ps != [] && !ps[0].For? && Add(opts, ps, o)
    ensures Add(AddFlag(opts, ps[0]), ps[1..], o)
  {
    var rest := ps[1..];
    assert ps == [ps[0]] + rest;
    forall i | 0 <= i < |rest| && rest[i].For? ensures Times(AddFlag(opts, ps[0]), rest, o, i) {
      assert ps[i + 1] == rest[i];
      assert Times(opts, ps, o, i + 1);
      assert forall j :: 0 <= j < |rest| ==> rest[j] == ps[j + 1];
    }
    if forall i :: 0 <= i < |rest| ==> !rest[i].For? {
      forall i | 0 <= i < |ps| ensures !ps[i].For? {
        if i > 0 { assert ps[i] == rest[i - 1]; }
      }
    }
  }

  lemma AddBack(opts: SetOptions, ps: seq<Phrase>, o: SetOptions)
    requires ps != [] && !ps[0].For? && Add(AddFlag(opts, ps[0]), ps[1..], o)
    ensures Add(opts, ps, o)
  {
    var rest := ps[1..];
    assert ps == [ps[0]] + rest;
    forall i | 0 <= i < |ps| && ps[i].For? ensures Times(opts, ps, o, i) {
      assert ps[i] == rest[i - 1];
      assert Times(AddFlag(opts, ps[0]), rest, o, i - 1);
      assert forall j :: 0 < j < |ps| ==> ps[j] == rest[j - 1];
    }
    if forall i :: 0 <= i < |ps| ==> !ps[i].For? {
      assert forall i :: 0 <= i < |rest| ==> rest[i] == ps[i + 1];
    }
  }

  lemma AddTime(opts: SetOptions, ps: seq<Phrase>, o: SetOptions)
    requires ps != [] && ps[0].For?
    ensures Add(opts, ps, o) <==>
            opts.ttl.None? && ps[0].n > 0 && Add(opts.(ttl := Some(Milliseconds(ps[0]))), ps[1..], o)
  {
    var rest := ps[1..];
    var mid := opts.(ttl := Some(Milliseconds(ps[0])));
    assert ps == [ps[0]] + rest;
    assert forall p: Phrase :: p in ps <==> p == ps[0] || p in rest;
    assert forall j :: 0 < j < |ps| ==> ps[j] == rest[j - 1];
    if Add(opts, ps, o) {
      assert Times(opts, ps, o, 0);
      forall i | 0 <= i < |rest| ensures !rest[i].For? {
        assert rest[i] == ps[i + 1];
      }
    }
    if opts.ttl.None? && ps[0].n > 0 && Add(mid, rest, o) {
      forall i | 0 <= i < |rest| ensures !rest[i].For? {
        assert rest[i].For? ==> Times(mid, rest, o, i);
      }
      assert Times(opts, ps, o, 0);
    }
  }

  lemma AmountIsParseInt64(s: Bytes)
    ensures Amount(s) == ParseInt64(s)
  {
  }

  lemma OptionWords(s: Bytes)
    ensures Is(s, "NX") <==> Upper(s) == "NX"
    ensures Is(s, "XX") <==> Upper(s) == "XX"
    ensures Is(s, "GET") <==> Upper(s) == "GET"
    ensures Is(s, "EX") <==> Upper(s) == "EX"
    ensures Is(s, "PX") <==> Upper(s) == "PX"
  {
    IsUpper(s, "NX");
    IsUpper(s, "XX");
    IsUpper(s, "GET");
    IsUpper(s, "EX");
    IsUpper(s, "PX");
  }

  /** What the loop makes of its first word. */
  lemma FlagWords(rest: seq<Bytes>, opts: SetOptions)
    requires rest != []
    ensures Is(rest[0], "NX") ==> ParseOptions(rest, opts) == ParseOptions(rest[1..], opts.(nx := true))
    ensures Is(rest[0], "XX") ==> ParseOptions(rest, opts) == ParseOptions(rest[1..], opts.(xx := true))
    ensures Is(rest[0], "GET") ==> ParseOptions(rest, opts) == ParseOptions(rest[1..], opts.(get := true))
  {
    OptionNames();
    OptionWords(rest[0]);
  }

  /** A time to live is taken if it is the first one, and a positive amount; anything else is refused. */
  predicate TakesTime(rest: seq<Bytes>, opts: SetOptions) {
    opts.ttl.None? && |rest| >= 2 && Amount(rest[1]).Some? && Amount(rest[1]).value > 0
  }

  lemma TimeWords(rest: seq<Bytes>, opts: SetOptions, seconds: bool)
    requires rest != [] && Upper(rest[0]) == if seconds then "EX" else "PX"
    ensures ParseOptions(rest, opts).Good? ==> TakesTime(rest, opts)
    ensures TakesTime(rest, opts) ==>
              ParseOptions(rest, opts) ==
              ParseOptions(rest[2..], opts.(ttl := Some(Milliseconds(For(seconds, Amount(rest[1]).value)))))
  {
    OptionNames();
    if |rest| >= 2 {
      AmountIsParseInt64(rest[1]);
    }
  }

  lemma OtherWords(rest: seq<Bytes>, opts: SetOptions)
    requires rest != [] && ParseOptions(rest, opts).Good?
    ensures Is(rest[0], "NX") || Is(rest[0], "XX") || Is(rest[0], "GET") || Is(rest[0], "EX") || Is(rest[0], "PX")
  {
    OptionWords(rest[0]);
  }

  /** The loop accepts every list of phrases that makes sense, and adds what it says. */
  lemma {:induction false} PhrasesAccepted(rest: seq<Bytes>, ps: seq<Phrase>, opts: SetOptions, o: SetOptions)
    requires Spells(rest, ps) && Add(opts, ps, o) && !(o.nx && o.xx)
    ensures ParseOptions(rest, opts) == Good(o)
    decreases |ps|
  {
    if ps == [] {
      assert o == opts;
    } else if ps[0].For? {
      AddTime(opts, ps, o);
      OptionWords(rest[0]);
      TimeWords(rest, opts, ps[0].seconds);
      PhrasesAccepted(rest[2..], ps[1..], opts.(ttl := Some(Milliseconds(ps[0]))), o);
    } else {
      AddRest(opts, ps, o);
      FlagWords(rest, opts);
      PhrasesAccepted(rest[1..], ps[1..], AddFlag(opts, ps[0]), o);
    }
  }

  /** What the loop accepts is a list of phrases that makes sense. */
  lemma {:induction false} AcceptedPhrases(rest: seq<Bytes>, opts: SetOptions) returns (ps: seq<Phrase>)
    requires ParseOptions(rest, opts).Good?
    ensures var o := ParseOptions(rest, opts).opts; Spells(rest, ps) && Add(opts, ps, o) && !(o.nx && o.xx)
    decreases |rest|
  {
    if rest == [] {
      ps := [];
    } else {
      OtherWords(rest, opts);
      if Is(rest[0], "NX") {
        ps := AcceptedFlag(rest, opts, IfAbsent);
      } else if Is(rest[0], "XX") {
        ps := AcceptedFlag(rest, opts, IfPresent);
      } else if Is(rest[0], "GET") {
        ps := AcceptedFlag(rest, opts, WithOld);
      } else {
        ps := AcceptedTime(rest, opts, Is(rest[0], "EX"));
      }
    }
  }

  lemma AcceptedFlag(rest: seq<Bytes>, opts: SetOptions, p: Phrase) returns (ps: seq<Phrase>)
    requires rest != [] && ParseOptions(rest, opts).Good? && !p.For?
    requires Is(rest[0], match p case IfAbsent => "NX" case IfPresent => "XX" case _ => "GET")
    ensures var o := ParseOptions(rest, opts).opts; Spells(rest, ps) && Add(opts, ps, o) && !(o.nx && o.xx)
    decreases |rest|, 0
  {
    FlagWords(rest, opts);
    var later := AcceptedPhrases(rest[1..], AddFlag(opts, p));
    ps := [p] + later;
    assert ps[1..] == later;
    AddBack(opts, ps, ParseOptions(rest, opts).opts);
  }

  lemma AcceptedTime(rest: seq<Bytes>, opts: SetOptions, seconds: bool) returns (ps: seq<Phrase>)
    requires rest != [] && ParseOptions(rest, opts).Good? && Is(rest[0], if seconds then "EX" else "PX")
    ensures var o := ParseOptions(rest, opts).opts; Spells(rest, ps) && Add(opts, ps, o) && !(o.nx && o.xx)
    decreases |rest|, 0
  {
    OptionWords(rest[0]);
    TimeWords(rest, opts, seconds);
    var first := For(seconds, Amount(rest[1]).value);
    var later := AcceptedPhrases(rest[2..], opts.(ttl := Some(Milliseconds(first))));
    ps := [first] + later;
    assert ps[1..] == later;
    AddTime(opts, ps, ParseOptions(rest, opts).opts);
  }

  /* ----- why options are refused ----- */

  /** Options that read `o` so far, and cannot go on with these words, and the message that says why. */
  predicate Stops(rest: seq<Bytes>, o: SetOptions, message: Bytes) {
    if rest == [] then o.nx && o.xx && message == "syntax error"
    else if Is(rest[0], "EX") || Is(rest[0], "PX") then
      if o.ttl.Some? || |rest| < 2 then message == "syntax error"
      else if Amount(rest[1]).None? then message == "value is not an integer or out of range"
      else Amount(rest[1]).value <= 0 && message == "invalid expire time in 'set' command"
    else !Is(rest[0], "NX") && !Is(rest[0], "XX") && !Is(rest[0], "GET") && message == "syntax error"
  }

  /** The first `n` words are phrases that make sense and lead from `opts` to `o`. */
  ghost predicate Leads(rest: seq<Bytes>, opts: SetOptions, n: nat, o: SetOptions) {
    n <= |rest| && exists ps :: Spells(rest[..n], ps) && Add(opts, ps, o)
  }

  lemma StopsAtOnce(rest: seq<Bytes>, opts: SetOptions)
    requires ParseOptions(rest, opts).Wrong?
    requires rest != [] ==> !Is(rest[0], "NX") && !Is(rest[0], "XX") && !Is(rest[0], "GET")
    requires rest != [] && (Is(rest[0], "EX") || Is(rest[0], "PX")) ==> !TakesTime(rest, opts)
    ensures Leads(rest, opts, 0, opts) && Stops(rest, opts, ParseOptions(rest, opts).message)
  {
    assert Spells(rest[..0], []) && Add(opts, [], opts);
    if rest != [] {
      OptionNames();
      OptionWords(rest[0]);
      if |rest| >= 2 {
        AmountIsParseInt64(rest[1]);
      }
    }
  }

  lemma LeadsFlag(rest: seq<Bytes>, opts: SetOptions, p: Phrase, n: nat, o: SetOptions)
    requires rest != [] && !p.For? && Is(rest[0], match p case IfAbsent => "NX" case IfPresent => "XX" case _ => "GET")
    requires Leads(rest[1..], AddFlag(opts, p), n, o)
    ensures Leads(rest, opts, n + 1, o)
  {
    var later :| Spells(rest[1..][..n], later) && Add(AddFlag(opts, p), later, o);
    var ps := [p] + later;
    assert ps[1..] == later && rest[..n + 1][1..] == rest[1..][..n];
    AddBack(opts, ps, o);
    assert Spells(rest[..n + 1], ps);
  }

  lemma LeadsTime(rest: seq<Bytes>, opts: SetOptions, seconds: bool, n: nat, o: SetOptions)
    requires rest != [] && Is(rest[0], if seconds then "EX" else "PX") && TakesTime(rest, opts)
    requires Leads(rest[2..], opts.(ttl := Some(Milliseconds(For(seconds, Amount(rest[1]).value)))), n, o)
    ensures Leads(rest, opts, n + 2, o)
  {
    var first := For(seconds, Amount(rest[1]).value);
    var later :| Spells(rest[2..][..n], later) && Add(opts.(ttl := Some(Milliseconds(first))), later, o);
    var ps := [first] + later;
    assert ps[1..] == later && rest[..n + 2][2..] == rest[2..][..n];
    AddTime(opts, ps, o);
    assert Spells(rest[..n + 2], ps);
  }

  /** Options that are refused make sense up to some word, and the message says what is wrong there. */
  lemma {:induction false} RefusedWhere(rest: seq<Bytes>, opts: SetOptions) returns (n: nat, o: SetOptions)
    requires ParseOptions(rest, opts).Wrong?
    ensures Leads(rest, opts, n, o) && Stops(rest[n..], o, ParseOptions(rest, opts).message)
    decreases |rest|
  {
    if rest != [] && Is(rest[0], "NX") {
      n, o := RefusedFlag(rest, opts, IfAbsent);
    } else if rest != [] && Is(rest[0], "XX") {
      n, o := RefusedFlag(rest, opts, IfPresent);
    } else if rest != [] && Is(rest[0], "GET") {
      n, o := RefusedFlag(rest, opts, WithOld);
    } else if rest != [] && (Is(rest[0], "EX") || Is(rest[0], "PX")) && TakesTime(rest, opts) {
      n, o := RefusedTime(rest, opts, Is(rest[0], "EX"));
    } else {
      StopsAtOnce(rest, opts);
      n, o := 0, opts;
      assert rest[0..] == rest;
    }
  }

  lemma RefusedFlag(rest: seq<Bytes>, opts: SetOptions, p: Phrase) returns (n: nat, o: SetOptions)
    requires rest != [] && ParseOptions(rest, opts).Wrong? && !p.For?
    requires Is(rest[0], match p case IfAbsent => "NX" case IfPresent => "XX" case _ => "GET")
    ensures Leads(rest, opts, n, o) && Stops(rest[n..], o, ParseOptions(rest, opts).message)
    decreases |rest|, 0
  {
    FlagWords(rest, opts);
    var m;
    m, o := RefusedWhere(rest[1..], AddFlag(opts, p));
    n := m + 1;
    LeadsFlag(rest, opts, p, m, o);
    assert rest[n..] == rest[1..][m..];
  }

  lemma RefusedTime(rest: seq<Bytes>, opts: SetOptions, seconds: bool) returns (n: nat, o: SetOptions)
    requires rest != [] && ParseOptions(rest, opts).Wrong? && Is(rest[0], if seconds then "EX" else "PX")
    requires TakesTime(rest, opts)
    ensures Leads(rest, opts, n, o) && Stops(rest[n..], o, ParseOptions(rest, opts).message)
    decreases |rest|, 0
  {
    OptionWords(rest[0]);
    TimeWords(rest, opts, seconds);
    var m;
    m, o := RefusedWhere(rest[2..], opts.(ttl := Some(Milliseconds(For(seconds, Amount(rest[1]).value)))));
    n := m + 2;
    LeadsTime(rest, opts, seconds, m, o);
    assert rest[n..] == rest[2..][m..];
  }

  /* ----- whole requests ----- */

  /** The name, and how many words there are in all. */
  predicate Called(raw: Record, name: Bytes, words: nat) {
    |raw| == words && words > 0 && Is(raw[0], name)
  }

  /** The request says the command. */
  ghost predicate Says(raw: Record, cmd: Command) {
    match cmd
    case CSet(o) =>
      |raw| >= 3 && Is(raw[0], "SET") && o.key == raw[1] && o.value == raw[2] && !(o.nx && o.xx) &&
      exists ps :: Spells(raw[3..], ps) && Add(SetOptions(raw[1], raw[2], false, false, false, None), ps, o)
    case CMset(pairs) =>
      pairs != [] && Called(raw, "MSET", 1 + 2 * |pairs|) &&
      forall i :: 0 <= i < |pairs| ==> pairs[i] == (raw[1 + 2 * i], raw[2 + 2 * i])
    case CDel(keys) => keys != [] && Called(raw, "DEL", 1 + |keys|) && raw[1..] == keys
    case CIncrBy(k, delta) =>
      || (Called(raw, "INCR", 2) && raw[1] == k && delta == 1)
      || (Called(raw, "DECR", 2) && raw[1] == k && delta == -1)
      || (Called(raw, "INCRBY", 3) && raw[1] == k && Amount(raw[2]) == Some(delta))
      || (Called(raw, "DECRBY", 3) && raw[1] == k && Amount(raw[2]) == Some(-delta))
    case CExpire(k, ms) =>
      || (Called(raw, "EXPIRE", 3) && raw[1] == k && Amount(raw[2]).Some? && ms == Amount(raw[2]).value * 1000)
      || (Called(raw, "PEXPIRE", 3) && raw[1] == k && Amount(raw[2]) == Some(ms))
    case CExpireAt(k, deadline) => Called(raw, "PEXPIREAT", 3) && raw[1] == k && ParseInt(raw[2]) == Some(deadline)
    case CPersist(k) => Called(raw, "PERSIST", 2) && raw[1] == k
    case CFlush => Called(raw, "FLUSHDB", 1)
    case CGet(k) => Called(raw, "GET", 2) && raw[1] == k
    case CMget(keys) => keys != [] && Called(raw, "MGET", 1 + |keys|) && raw[1..] == keys
    case CExists(keys) => keys != [] && Called(raw, "EXISTS", 1 + |keys|) && raw[1..] == keys
    case CTtl(k) => Called(raw, "TTL", 2) && raw[1] == k
    case CKeys(None) => Called(raw, "KEYS", 1)
    case CKeys(Some(pattern)) => Called(raw, "KEYS", 2) && raw[1] == pattern
    case CDbsize => Called(raw, "DBSIZE", 1)
    case CPing(None) => Called(raw, "PING", 1)
    case CPing(Some(text)) => (Called(raw, "PING", 2) || Called(raw, "ECHO", 2)) && raw[1] == text
  }

  lemma {:induction false} PairAt(args: seq<Bytes>, i: nat)
    requires |args| % 2 == 0 && 2 * i < |args|
    ensures i < |Pairs(args)| && Pairs(args)[i] == (args[2 * i], args[2 * i + 1])
    decreases i
  {
    if i > 0 {
      PairAt(args[2..], i - 1);
    }
  }

  lemma {:induction false} PairsLength(args: seq<Bytes>)
    requires |args| % 2 == 0
    ensures |Pairs(args)| == |args| / 2
    decreases |args|
  {
    if args != [] {
      PairsLength(args[2..]);
    }
  }

  lemma PairsByPosition(args: seq<Bytes>)
    requires |args| % 2 == 0
    ensures |Pairs(args)| == |args| / 2
    ensures forall i :: 0 <= i < |args| / 2 ==> Pairs(args)[i] == (args[2 * i], args[2 * i + 1])
  {
    PairsLength(args);
    forall i | 0 <= i < |args| / 2 ensures Pairs(args)[i] == (args[2 * i], args[2 * i + 1]) {
      PairAt(args, i);
    }
  }

  /* ----- the parser accepts exactly what says a command ----- */

  lemma WriteWords(s: Bytes)
    ensures Is(s, "SET") <==> Upper(s) == "SET"
    ensures Is(s, "MSET") <==> Upper(s) == "MSET"
    ensures Is(s, "DEL") <==> Upper(s) == "DEL"
    ensures Is(s, "INCR") <==> Upper(s) == "INCR"
    ensures Is(s, "DECR") <==> Upper(s) == "DECR"
    ensures Is(s, "INCRBY") <==> Upper(s) == "INCRBY"
    ensures Is(s, "DECRBY") <==> Upper(s) == "DECRBY"
    ensures Is(s, "EXPIRE") <==> Upper(s) == "EXPIRE"
    ensures Is(s, "PEXPIRE") <==> Upper(s) == "PEXPIRE"
    ensures Is(s, "PEXPIREAT") <==> Upper(s) == "PEXPIREAT"
    ensures Is(s, "PERSIST") <==> Upper(s) == "PERSIST"
    ensures Is(s, "FLUSHDB") <==> Upper(s) == "FLUSHDB"
  {
    IsUpper(s, "SET");
    IsUpper(s, "MSET");
    IsUpper(s, "DEL");
    IsUpper(s, "INCR");
    IsUpper(s, "DECR");
    IsUpper(s, "INCRBY");
    IsUpper(s, "DECRBY");
    IsUpper(s, "EXPIRE");
    IsUpper(s, "PEXPIRE");
    IsUpper(s, "PEXPIREAT");
    IsUpper(s, "PERSIST");
    IsUpper(s, "FLUSHDB");
  }

  lemma ReadWords(s: Bytes)
    ensures Is(s, "GET") <==> Upper(s) == "GET"
    ensures Is(s, "MGET") <==> Upper(s) == "MGET"
    ensures Is(s, "EXISTS") <==> Upper(s) == "EXISTS"
    ensures Is(s, "TTL") <==> Upper(s) == "TTL"
    ensures Is(s, "KEYS") <==> Upper(s) == "KEYS"
    ensures Is(s, "DBSIZE") <==> Upper(s) == "DBSIZE"
    ensures Is(s, "PING") <==> Upper(s) == "PING"
    ensures Is(s, "ECHO") <==> Upper(s) == "ECHO"
  {
    IsUpper(s, "GET");
    IsUpper(s, "MGET");
    IsUpper(s, "EXISTS");
    IsUpper(s, "TTL");
    IsUpper(s, "KEYS");
    IsUpper(s, "DBSIZE");
    IsUpper(s, "PING");
    IsUpper(s, "ECHO");
  }

  lemma SetSays(raw: Record, o: SetOptions)
    requires |raw| >= 3 && Upper(raw[0]) == "SET"
    ensures Parse(raw) == Ok(CSet(o)) <==> Says(raw, CSet(o))
  {
    WriteWords(raw[0]);
    var plain := SetOptions(raw[1], raw[2], false, false, false, None);
    assert raw[1..][2..] == raw[3..];
    assert ParseSet(raw[1..]) == ParseOptions(raw[3..], plain);
    if ParseOptions(raw[3..], plain) == Good(o) {
      var ps := AcceptedPhrases(raw[3..], plain);
    }
    if Says(raw, CSet(o)) {
      var ps :| Spells(raw[3..], ps) && Add(plain, ps, o);
      PhrasesAccepted(raw[3..], ps, plain, o);
    }
  }

  lemma MsetSays(raw: Record, pairs: seq<(Key, Bytes)>)
    requires raw != [] && Upper(raw[0]) == "MSET"
    ensures Parse(raw) == Ok(CMset(pairs)) <==> Says(raw, CMset(pairs))
  {
    WriteWords(raw[0]);
    var args := raw[1..];
    if |args| % 2 == 0 {
      PairsByPosition(args);
      if Says(raw, CMset(pairs)) {
        assert pairs == Pairs(args);
      }
    }
  }

  /* What the parser makes of the other names, one group at a time. */

  lemma CounterNames(raw: Record)
    requires raw != []
    ensures Upper(raw[0]) == "INCR" ==> Parse(raw) == if |raw| != 2 then WrongArity("INCR") else Ok(CIncrBy(raw[1], 1))
    ensures Upper(raw[0]) == "DECR" ==> Parse(raw) == if |raw| != 2 then WrongArity("DECR") else Ok(CIncrBy(raw[1], -1))
    ensures Upper(raw[0]) == "INCRBY" ==>
              Parse(raw) == if |raw| != 3 then WrongArity("INCRBY")
                            else match Amount(raw[2]) case None => NOT_AN_INTEGER case Some(n) => Ok(CIncrBy(raw[1], n))
    ensures Upper(raw[0]) == "DECRBY" ==>
              Parse(raw) == if |raw| != 3 then WrongArity("DECRBY")
                            else match Amount(raw[2]) case None => NOT_AN_INTEGER case Some(n) => Ok(CIncrBy(raw[1], -n))
  {
    if |raw| == 3 {
      AmountIsParseInt64(raw[2]);
    }
  }

  lemma ExpiryNames(raw: Record)
    requires raw != []
    ensures Upper(raw[0]) == "EXPIRE" ==>
              Parse(raw) == if |raw| != 3 then WrongArity("EXPIRE")
                            else match Amount(raw[2]) case None => NOT_AN_INTEGER
                                                      case Some(n) => Ok(CExpire(raw[1], n * 1000))
    ensures Upper(raw[0]) == "PEXPIRE" ==>
              Parse(raw) == if |raw| != 3 then WrongArity("PEXPIRE")
                            else match Amount(raw[2]) case None => NOT_AN_INTEGER case Some(n) => Ok(CExpire(raw[1], n))
    ensures Upper(raw[0]) == "PEXPIREAT" ==>
              Parse(raw) == if |raw| != 3 then WrongArity("PEXPIREAT")
                            else match ParseInt(raw[2]) case None => NOT_AN_INTEGER
                                                        case Some(d) => Ok(CExpireAt(raw[1], d))
    ensures Upper(raw[0]) == "PERSIST" ==>
              Parse(raw) == if |raw| != 2 then WrongArity("PERSIST") else Ok(CPersist(raw[1]))
  {
    if |raw| == 3 {
      AmountIsParseInt64(raw[2]);
    }
  }

  lemma RemovalNames(raw: Record)
    requires raw != []
    ensures Upper(raw[0]) == "DEL" ==> Parse(raw) == if |raw| < 2 then WrongArity("DEL") else Ok(CDel(raw[1..]))
    ensures Upper(raw[0]) == "FLUSHDB" ==> Parse(raw) == if |raw| != 1 then WrongArity("FLUSHDB") else Ok(CFlush)
  {
  }

  lemma ReadNames(raw: Record)
    requires raw != []
    ensures Upper(raw[0]) == "GET" ==> Parse(raw) == if |raw| != 2 then WrongArity("GET") else Ok(CGet(raw[1]))
    ensures Upper(raw[0]) == "MGET" ==> Parse(raw) == if |raw| < 2 then WrongArity("MGET") else Ok(CMget(raw[1..]))
    ensures Upper(raw[0]) == "EXISTS" ==> Parse(raw) == if |raw| < 2 then WrongArity("EXISTS") else Ok(CExists(raw[1..]))
    ensures Upper(raw[0]) == "TTL" ==> Parse(raw) == if |raw| != 2 then WrongArity("TTL") else Ok(CTtl(raw[1]))
  {
    assert "GET" == READS[0] && "MGET" == READS[1] && "EXISTS" == READS[2] && "TTL" == READS[3];
    if Upper(raw[0]) in READS {
      ReadsAreParsedLast(raw);
    }
  }

  lemma OtherNames(raw: Record)
    requires raw != []
    ensures Upper(raw[0]) == "KEYS" ==>
              Parse(raw) == if |raw| > 2 then WrongArity("KEYS") else Ok(CKeys(if |raw| == 1 then None else Some(raw[1])))
    ensures Upper(raw[0]) == "DBSIZE" ==> Parse(raw) == if |raw| != 1 then WrongArity("DBSIZE") else Ok(CDbsize)
    ensures Upper(raw[0]) == "PING" ==>
              Parse(raw) == if |raw| > 2 then WrongArity("PING") else Ok(CPing(if |raw| == 1 then None else Some(raw[1])))
    ensures Upper(raw[0]) == "ECHO" ==> Parse(raw) == if |raw| != 2 then WrongArity("ECHO") else Ok(CPing(Some(raw[1])))
  {
    assert "KEYS" == READS[4] && "DBSIZE" == READS[5] && "PING" == READS[6] && "ECHO" == READS[7];
    if Upper(raw[0]) in READS {
      ReadsAreParsedLast(raw);
    }
  }

  lemma SaidWriteIsParsed(raw: Record, cmd: Command)
    requires raw != [] && Says(raw, cmd) && IsWrite(cmd)
    ensures Parse(raw) == Ok(cmd)
  {
    WriteWords(raw[0]);
    match cmd {
      case CSet(o) => SetSays(raw, o);
      case CMset(pairs) => MsetSays(raw, pairs);
      case CDel(_) => RemovalNames(raw);
      case CFlush => RemovalNames(raw);
      case CIncrBy(_, _) => CounterNames(raw);
      case _ => ExpiryNames(raw);
    }
  }

  lemma SaidReadIsParsed(raw: Record, cmd: Command)
    requires raw != [] && Says(raw, cmd) && !IsWrite(cmd)
    ensures Parse(raw) == Ok(cmd)
  {
    ReadWords(raw[0]);
    match cmd {
      case CGet(_) => ReadNames(raw);
      case CMget(_) => ReadNames(raw);
      case CExists(_) => ReadNames(raw);
      case CTtl(_) => ReadNames(raw);
      case _ => OtherNames(raw);
    }
  }

  lemma ParsedCounterIsSaid(raw: Record, cmd: Command)
    requires raw != [] && Parse(raw) == Ok(cmd)
    requires var name := Upper(raw[0]); name == "INCR" || name == "DECR" || name == "INCRBY" || name == "DECRBY"
    ensures Says(raw, cmd)
  {
    WriteWords(raw[0]);
    CounterNames(raw);
  }

  lemma ParsedExpiryIsSaid(raw: Record, cmd: Command)
    requires raw != [] && Parse(raw) == Ok(cmd)
    requires var name := Upper(raw[0]);
             name == "EXPIRE" || name == "PEXPIRE" || name == "PEXPIREAT" || name == "PERSIST"
    ensures Says(raw, cmd)
  {
    WriteWords(raw[0]);
    ExpiryNames(raw);
  }

  lemma ParsedWriteIsSaid(raw: Record, cmd: Command)
    requires raw != [] && Parse(raw) == Ok(cmd) && IsWriteName(Upper(raw[0]))
    ensures Says(raw, cmd)
  {
    var name := Upper(raw[0]);
    if name == "SET" {
      SetSays(raw, cmd.opts);
    } else if name == "MSET" {
      MsetSays(raw, cmd.pairs);
    } else if name == "DEL" || name == "FLUSHDB" {
      WriteWords(raw[0]);
      RemovalNames(raw);
    } else if name == "INCR" || name == "DECR" || name == "INCRBY" || name == "DECRBY" {
      ParsedCounterIsSaid(raw, cmd);
    } else {
      ParsedExpiryIsSaid(raw, cmd);
    }
  }

  lemma ParsedReadIsSaid(raw: Record, cmd: Command)
    requires raw != [] && Parse(raw) == Ok(cmd) && Upper(raw[0]) in READS
    ensures Says(raw, cmd)
  {
    var name := Upper(raw[0]);
    ReadWords(raw[0]);
    ReadNames(raw);
    OtherNames(raw);
  }

  /**
   * The parser makes a command of a request if and only if the request says it: the right name in any
   * case, the right number of words, keys and values at their positions, and amounts that are integers.
   */
  lemma ParsedIffSaid(raw: Record, cmd: Command)
    ensures Parse(raw) == Ok(cmd) <==> Says(raw, cmd)
  {
    if raw != [] {
      if Says(raw, cmd) {
        if IsWrite(cmd) {
          SaidWriteIsParsed(raw, cmd);
        } else {
          SaidReadIsParsed(raw, cmd);
        }
      }
      if Parse(raw) == Ok(cmd) {
        if IsUnknown(raw) {
          ParseUnknown(raw);
        } else if IsWriteName(Upper(raw[0])) {
          ParsedWriteIsSaid(raw, cmd);
        } else {
          ParsedReadIsSaid(raw, cmd);
        }
      }
    }
  }

  /* ----- what the others are told ----- */

  /** How many words each command takes, its name included. */
  predicate TakesWords(name: Bytes, words: nat) {
    if name == "SET" then words >= 3
    else if name == "MSET" then words >= 3 && words % 2 == 1
    else if name == "DEL" || name == "MGET" || name == "EXISTS" then words >= 2
    else if name == "INCRBY" || name == "DECRBY" || name == "EXPIRE" || name == "PEXPIRE" || name == "PEXPIREAT" then
      words == 3
    else if name == "KEYS" || name == "PING" then words == 1 || words == 2
    else if name == "FLUSHDB" || name == "DBSIZE" then words == 1
    else words == 2
  }

  const ARITY: Bytes := "ERR wrong number of arguments for '"

  lemma SetRefusals(raw: Record)
    requires raw != [] && Upper(raw[0]) == "SET" && Parse(raw).Fail?
    ensures if |raw| < 3 then Parse(raw) == Told("SET", |raw|)
            else ParseSet(raw[1..]).Wrong? && Parse(raw) == Fail("ERR " + ParseSet(raw[1..]).message)
  {
  }

  lemma MsetRefusals(raw: Record)
    requires raw != [] && Upper(raw[0]) == "MSET" && Parse(raw).Fail?
    ensures Parse(raw) == Told("MSET", |raw|)
  {
  }

  predicate Bare(name: Bytes) {
    name == "DEL" || name == "FLUSHDB" || name == "INCR" || name == "DECR" || name == "PERSIST"
  }

  predicate Amounting(name: Bytes) {
    name == "INCRBY" || name == "DECRBY" || name == "EXPIRE" || name == "PEXPIRE" || name == "PEXPIREAT"
  }

  /** What a known name is told that does not say a command: too few words or too many, or no integer. */
  function Told(name: Bytes, words: nat): Parsed {
    if TakesWords(name, words) then Fail("ERR " + "value is not an integer or out of range")
    else Fail(ARITY + name + "' command")
  }

  lemma BareRefusals(raw: Record)
    requires raw != [] && Bare(Upper(raw[0])) && Parse(raw).Fail?
    ensures Parse(raw) == Told(Upper(raw[0]), |raw|)
  {
    CounterNames(raw);
    ExpiryNames(raw);
    RemovalNames(raw);
  }

  lemma AmountRefusals(raw: Record)
    requires raw != [] && Amounting(Upper(raw[0])) && Parse(raw).Fail?
    ensures Parse(raw) == if |raw| != 3 then WrongArity(Upper(raw[0])) else NOT_AN_INTEGER
  {
    if Upper(raw[0]) == "INCRBY" || Upper(raw[0]) == "DECRBY" {
      CounterNames(raw);
    } else {
      ExpiryNames(raw);
    }
  }

  lemma OtherWrites(name: Bytes)
    requires IsWriteName(name) && name != "SET" && name != "MSET"
    ensures Bare(name) || Amounting(name)
  {
  }

  lemma AmountTold(name: Bytes, words: nat)
    requires Amounting(name)
    ensures Told(name, words) == if words != 3 then WrongArity(name) else NOT_AN_INTEGER
  {
  }

  lemma AmountingTold(raw: Record)
    requires raw != [] && Amounting(Upper(raw[0])) && Parse(raw).Fail?
    ensures Parse(raw) == Told(Upper(raw[0]), |raw|)
  {
    AmountTold(Upper(raw[0]), |raw|);
    AmountRefusals(raw);
  }

  lemma ReadRefusals(raw: Record)
    requires raw != [] && Upper(raw[0]) in READS && Parse(raw).Fail?
    ensures Parse(raw) == Told(Upper(raw[0]), |raw|)
  {
    ReadNames(raw);
    OtherNames(raw);
  }

  /**
   * A request that says no command is answered with an error that tells why: an unknown name, repeated as
   * it came; the wrong number of words; for SET, what the option loop found; else an amount that is no
   * 64-bit integer.
   */
  lemma Refusals(raw: Record)
    requires Parse(raw).Fail?
    ensures Parse(raw) ==
              if raw == [] then Fail("ERR empty command")
              else if !IsKnown(Upper(raw[0])) then Fail("ERR unknown command '" + raw[0] + "'")
              else if Upper(raw[0]) == "SET" && |raw| >= 3 && ParseSet(raw[1..]).Wrong? then
                Fail("ERR " + ParseSet(raw[1..]).message)
              else Told(Upper(raw[0]), |raw|)
  {
    if raw != [] {
      if IsUnknown(raw) {
        ParseUnknown(raw);
      } else if Upper(raw[0]) == "SET" {
        SetRefusals(raw);
      } else if Upper(raw[0]) == "MSET" {
        MsetRefusals(raw);
      } else if IsWriteName(Upper(raw[0])) {
        OtherWrites(Upper(raw[0]));
        if Bare(Upper(raw[0])) {
          BareRefusals(raw);
        } else {
          AmountingTold(raw);
        }
      } else {
        ReadRefusals(raw);
      }
    }
  }
}

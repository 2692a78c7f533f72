/** The RESP2 codec: `encode`, `read_command` and `read_reply` over a finished byte stream. */
module Resp {
  import opened Base
  import opened Decimal

  const MAX_BULK_LENGTH: nat := 64 * 1024 * 1024
  const MAX_ARRAY_LENGTH: nat := 1024 * 1024
  /** Default buffer limit of the stream reader; a line whose LF lies beyond it is refused. */
  const LINE_LIMIT: nat := 64 * 1024

  datatype Failure = Incomplete | Protocol

  /** Outcome of one read: a value and the unread bytes, a clean end of stream, or an error. */
  datatype Read<+T> = Got(value: T, rest: Bytes) | Eof | Bad(why: Failure)

  /* ----- lines ----- */

  /** Index of the first LF, or the length when there is none. */
  function FindLF(s: Bytes): (i: nat)
    ensures i <= |s|
    ensures i < |s| ==> s[i] == LF
    ensures forall j :: 0 <= j < i ==> s[j] != LF
  {
    if s == [] || s[0] == LF then 0 else 1 + FindLF(s[1..])
  }

  function ReadLine(s: Bytes): (r: Read<Bytes>)
    ensures r.Got? ==> |r.rest| < |s|
  {
    var i := FindLF(s);
    if s == [] then Eof
    else if i > LINE_LIMIT || i == |s| || i == 0 || s[i - 1] != CR then Bad(Protocol)
    else Got(s[..i - 1], s[i + 1..])
  }

  /** Signed decimal integer in a header line. */
  function ParseHeaderInt(s: Bytes): Option<int> {
    if s != [] && s[0] == '+' then ParseDigits(s, 1, |s|) else ParseInt(s)
  }

  /* ----- commands ----- */

  function ReadBulk(s: Bytes): (r: Read<Bytes>)
    ensures r.Got? ==> |r.rest| < |s| && |r.value| <= MAX_BULK_LENGTH
    ensures !r.Eof?
  {
    match ReadLine(s)
    case Eof => Bad(Protocol)
    case Bad(why) => Bad(why)
    case Got(header, body) =>
      if |header| == 0 || header[0] != '$' then Bad(Protocol)
      else match ParseHeaderInt(header[1..])
        case None => Bad(Protocol)
        case Some(n) =>
          if n < -1 || n > MAX_BULK_LENGTH then Bad(Protocol)
          else if n == -1 then Got([], body)
          else if |body| < n + 2 then Bad(Incomplete)
          else if body[n..n + 2] != CRLF then Bad(Protocol)
          else Got(body[..n], body[n + 2..])
  }

  function ReadBulks(s: Bytes, count: nat): (r: Read<seq<Bytes>>)
    ensures r.Got? ==> |r.rest| <= |s| && |r.value| == count
    ensures r.Got? ==> forall i :: 0 <= i < count ==> |r.value[i]| <= MAX_BULK_LENGTH
    ensures !r.Eof?
  {
    if count == 0 then Got([], s)
    else match ReadBulk(s)
      case Bad(why) => Bad(why)
      case Got(first, s1) =>
        match ReadBulks(s1, count - 1)
        case Bad(why) => Bad(why)
        case Got(others, s2) => Got([first] + others, s2)
  }

  predicate IsSpace(c: char) {
    c == ' ' || c == '\t' || c == LF || c == CR || c as int == 11 || c as int == 12
  }

  /** `bytes.split()`: the maximal runs of non-blank bytes; `word` is the run being read. */
  function SplitWords(line: Bytes, word: Bytes := []): seq<Bytes>
    decreases |line|
  {
    if line == [] then (if word == [] then [] else [word])
    else if !IsSpace(line[0]) then SplitWords(line[1..], word + [line[0]])
    else (if word == [] then [] else [word]) + SplitWords(line[1..], [])
  }

  function ReadCommand(s: Bytes): (r: Read<seq<Bytes>>)
    ensures r.Got? ==> |r.rest| < |s|
    ensures r.Eof? <==> s == []
  {
    match ReadLine(s)
    case Eof => Eof
    case Bad(why) => Bad(why)
    case Got(line, body) =>
      if |line| == 0 || line[0] != '*' then Got(SplitWords(line), body)
      else match ParseHeaderInt(line[1..])
        case None => Bad(Protocol)
        case Some(n) =>
          if n < 0 then Got([], body)
          else if n > MAX_ARRAY_LENGTH then Bad(Protocol)
          else ReadBulks(body, n)
  }

  /* ----- encoding ----- */

  /** Values that travel as replies; text is identified with its bytes and booleans with 0 and 1. */
  datatype Value =
    | Simple(text: Bytes)
    | Error(text: Bytes)
    | Int(n: int)
    | Nil
    | Bulk(data: Bytes)
    | Arr(items: seq<Value>)

  function Header(tag: char, n: int): Bytes {
    [tag] + IntText(n) + CRLF
  }

  function EncodeBulk(b: Bytes): Bytes {
    Header('$', |b|) + b + CRLF
  }

  function EncodeBulks(args: seq<Bytes>): Bytes {
    if args == [] then [] else EncodeBulk(args[0]) + EncodeBulks(args[1..])
  }

  /** `encode` of a list of byte strings. */
  function EncodeCommand(args: seq<Bytes>): (s: Bytes)
    ensures |s| > 0
  {
    Header('*', |args|) + EncodeBulks(args)
  }

  function Encode(v: Value): (s: Bytes)
    ensures |s| > 0
    decreases v, 0
  {
    match v
    case Simple(t) => "+" + t + CRLF
    case Error(t) => "-" + t + CRLF
    case Int(n) => Header(':', n)
    case Nil => "$-1" + CRLF
    case Bulk(b) => EncodeBulk(b)
    case Arr(items) => Header('*', |items|) + EncodeItems(items)
  }

  function EncodeItems(items: seq<Value>): Bytes
    decreases items, 1
  {
    if items == [] then [] else Encode(items[0]) + EncodeItems(items[1..])
  }

  function AsBulks(args: seq<Bytes>): (items: seq<Value>)
    ensures |items| == |args|
  {
    if args == [] then [] else [Bulk(args[0])] + AsBulks(args[1..])
  }

  /** Encoding a command is encoding the array of its arguments. */
  lemma {:induction false} EncodeCommandIsEncode(args: seq<Bytes>)
    ensures EncodeCommand(args) == Encode(Arr(AsBulks(args)))
    ensures EncodeBulks(args) == EncodeItems(AsBulks(args))
  {
    if args != [] {
      EncodeCommandIsEncode(args[1..]);
      assert AsBulks(args)[1..] == AsBulks(args[1..]);
      assert Encode(AsBulks(args)[0]) == EncodeBulk(args[0]);
    }
    assert EncodeBulks(args) == EncodeItems(AsBulks(args));
  }

  /* ----- replies ----- */

  function ReadReply(s: Bytes): (r: Read<Value>)
    ensures r.Got? ==> |r.rest| < |s|
    ensures !r.Eof?
    decreases |s|, 0
  {
    match ReadLine(s)
    case Eof => Bad(Protocol)
    case Bad(why) => Bad(why)
    case Got(line, body) =>
      if line == [] then Bad(Protocol)
      else if line[0] == '+' then Got(Simple(line[1..]), body)
      else if line[0] == '-' then Got(Error(line[1..]), body)
      else match (line[0], ParseHeaderInt(line[1..]))
        case (':', Some(n)) => Got(Int(n), body)
        case ('$', Some(n)) =>
          if n < -1 || n > MAX_BULK_LENGTH then Bad(Protocol)
          else if n == -1 then Got(Nil, body)
          else if |body| < n + 2 then Bad(Incomplete)
          else Got(Bulk(body[..n]), body[n + 2..])
        case ('*', Some(n)) =>
          if n == -1 then Got(Nil, body)
          else if n < 0 || n > MAX_ARRAY_LENGTH then Bad(Protocol)
          else (match ReadReplies(body, n)
                case Bad(why) => Bad(why)
                case Got(items, rest) => Got(Arr(items), rest))
        case _ => Bad(Protocol)
  }

  function ReadReplies(s: Bytes, count: nat): (r: Read<seq<Value>>)
    ensures r.Got? ==> |r.rest| <= |s| && |r.value| == count
    ensures !r.Eof?
    decreases |s|, 1, count
  {
    if count == 0 then Got([], s)
    else match ReadReply(s)
      case Bad(why) => Bad(why)
      case Got(first, s1) =>
        match ReadReplies(s1, count - 1)
        case Bad(why) => Bad(why)
        case Got(others, s2) => Got([first] + others, s2)
  }

  /* ----- line lemmas ----- */

  predicate NoLF(s: Bytes) {
    forall i :: 0 <= i < |s| ==> s[i] != LF
  }

  lemma {:induction false} FindLFAt(s: Bytes, i: nat)
    requires i <= |s| && NoLF(s[..i]) && (i < |s| ==> s[i] == LF)
    ensures FindLF(s) == i
  {
    assert forall j :: 0 <= j < i ==> s[j] == s[..i][j];
  }

  /** A line without LF and within the limit is read back whole. */
  lemma ReadLineWhole(h: Bytes, rest: Bytes)
    requires NoLF(h) && |h| + 1 <= LINE_LIMIT
    ensures ReadLine(h + CRLF + rest) == Got(h, rest)
  {
    var s := h + CRLF + rest;
    assert s[|h|] == CR && s[|h| + 1] == LF;
    assert NoLF(s[..|h| + 1]);
    FindLFAt(s, |h| + 1);
    assert s[..|h|] == h && s[|h| + 2..] == rest;
  }

  /** A non-empty strict prefix of a line is refused. */
  lemma ReadLineTorn(h: Bytes, cut: nat)
    requires NoLF(h) && 0 < cut < |h| + 2
    ensures ReadLine((h + CRLF)[..cut]).Bad?
  {
    var p := (h + CRLF)[..cut];
    assert forall i :: 0 <= i < cut ==> p[i] == (h + [CR])[i];
    FindLFAt(p, cut);
  }

  lemma HeaderBody(tag: char, n: int)
    requires tag != LF
    ensures NoLF([tag] + IntText(n))
    ensures ParseHeaderInt(([tag] + IntText(n))[1..]) == Some(n)
  {
    IntTextChars(n);
    IntTextRoundTrip(n);
    var line := [tag] + IntText(n);
    assert line[1..] == IntText(n);
    assert IntText(n)[0] != '+';
    forall i | 0 <= i < |line| ensures line[i] != LF {
      if i > 0 {
        assert line[i] == IntText(n)[i - 1];
      }
    }
  }

  /** Length headers are short and read back as the tag and the number. */
  lemma ReadLengthHeader(tag: char, n: nat, rest: Bytes)
    requires tag != LF && n <= MAX_BULK_LENGTH
    ensures ReadLine(Header(tag, n) + rest) == Got([tag] + IntText(n), rest)
    ensures ParseHeaderInt(([tag] + IntText(n))[1..]) == Some(n)
  {
    HeaderBody(tag, n);
    assert n < Pow10(8) by { assert Pow10(4) == 10000; assert Pow10(8) == 10000 * 10000; }
    DigitsLength(n, 8);
    ReadLineWhole([tag] + IntText(n), rest);
  }

  /* ----- command round trip and prefix-freeness ----- */

  predicate WithinLimits(args: seq<Bytes>) {
    |args| <= MAX_ARRAY_LENGTH && forall i :: 0 <= i < |args| ==> |args[i]| <= MAX_BULK_LENGTH
  }

  lemma ReadBulkWhole(b: Bytes, rest: Bytes)
    requires |b| <= MAX_BULK_LENGTH
    ensures ReadBulk(EncodeBulk(b) + rest) == Got(b, rest)
  {
    var tail := b + CRLF + rest;
    ReadLengthHeader('$', |b|, tail);
    assert EncodeBulk(b) + rest == Header('$', |b|) + tail;
    assert tail[..|b|] == b && tail[|b|..|b| + 2] == CRLF && tail[|b| + 2..] == rest;
  }

  /** Cutting one bulk string anywhere, even before its first byte, leaves nothing readable. */
  lemma ReadBulkTorn(b: Bytes, cut: nat)
    requires |b| <= MAX_BULK_LENGTH && cut < |EncodeBulk(b)|
    ensures ReadBulk(EncodeBulk(b)[..cut]).Bad?
  {
    var h := ['$'] + IntText(|b|);
    HeaderBody('$', |b|);
    var p := EncodeBulk(b)[..cut];
    assert EncodeBulk(b) == h + CRLF + b + CRLF;
    if 0 < cut < |h| + 2 {
      ReadLineTorn(h, cut);
      assert p == (h + CRLF)[..cut];
    } else if cut > 0 {
      var tail := (b + CRLF)[..cut - |h| - 2];
      ReadLengthHeader('$', |b|, tail);
      assert p == Header('$', |b|) + tail;
    }
  }

  lemma {:induction false} ReadBulksWhole(args: seq<Bytes>, rest: Bytes)
    requires forall i :: 0 <= i < |args| ==> |args[i]| <= MAX_BULK_LENGTH
    ensures ReadBulks(EncodeBulks(args) + rest, |args|) == Got(args, rest)
  {
    if args != [] {
      var others := EncodeBulks(args[1..]) + rest;
      ReadBulkWhole(args[0], others);
      Regroup(EncodeBulk(args[0]), EncodeBulks(args[1..]), rest);
      ReadBulksWhole(args[1..], rest);
      assert [args[0]] + args[1..] == args;
    } else {
      assert EncodeBulks(args) + rest == rest;
    }
  }

  lemma {:induction false} ReadBulksTorn(args: seq<Bytes>, cut: nat)
    requires forall i :: 0 <= i < |args| ==> |args[i]| <= MAX_BULK_LENGTH
    requires cut < |EncodeBulks(args)|
    ensures ReadBulks(EncodeBulks(args)[..cut], |args|).Bad?
  {
    var first := EncodeBulk(args[0]);
    var others := EncodeBulks(args[1..]);
    if cut < |first| {
      ReadBulkTorn(args[0], cut);
      assert EncodeBulks(args)[..cut] == first[..cut];
    } else {
      ReadBulksTorn(args[1..], cut - |first|);
      ReadBulkWhole(args[0], others[..cut - |first|]);
      assert EncodeBulks(args)[..cut] == first + others[..cut - |first|];
    }
  }

  /** Reading the encoding of a command followed by anything returns it and leaves the rest. */
  lemma CommandRoundTrip(args: seq<Bytes>, rest: Bytes)
    requires WithinLimits(args)
    ensures ReadCommand(EncodeCommand(args) + rest) == Got(args, rest)
  {
    var tail := EncodeBulks(args) + rest;
    ReadLengthHeader('*', |args|, tail);
    assert EncodeCommand(args) + rest == Header('*', |args|) + tail;
    ReadBulksWhole(args, rest);
  }

  /** No strict non-empty prefix of an encoded command reads as a command. */
  lemma CommandPrefixFree(args: seq<Bytes>, cut: nat)
    requires WithinLimits(args) && 0 < cut < |EncodeCommand(args)|
    ensures ReadCommand(EncodeCommand(args)[..cut]).Bad?
  {
    var head := Header('*', |args|);
    CutOf(head, EncodeBulks(args), cut);
    if cut < |head| {
      HeadTorn(|args|, cut);
    } else {
      var tail := EncodeBulks(args)[..cut - |head|];
      ReadBulksTorn(args, cut - |head|);
      ReadAfterHead(|args|, tail);
    }
  }

  lemma HeadTorn(n: nat, cut: nat)
    requires n <= MAX_ARRAY_LENGTH && 0 < cut < |Header('*', n)|
    ensures ReadCommand(Header('*', n)[..cut]).Bad?
  {
    var h := ['*'] + IntText(n);
    HeaderBody('*', n);
    ReadLineTorn(h, cut);
    assert Header('*', n) == h + CRLF;
  }

  /** After its array header a command is read as that many bulk strings. */
  lemma ReadAfterHead(n: nat, tail: Bytes)
    requires n <= MAX_ARRAY_LENGTH
    ensures ReadCommand(Header('*', n) + tail) == ReadBulks(tail, n)
  {
    ReadLengthHeader('*', n, tail);
  }

  /** The reader never hands out a command that its own encoding could not carry. */
  lemma CommandsReadAreWithinLimits(s: Bytes)
    requires ReadCommand(s).Got? && s[0] == '*'
    ensures WithinLimits(ReadCommand(s).value)
  {
    var line := ReadLine(s).value;
    assert line == [] || line[0] == s[0];
  }

  /* ----- reply round trip ----- */

  /** Exactly the values that survive `encode` followed by `read_reply`. */
  predicate Transportable(v: Value)
    decreases v, 0
  {
    match v
    case Simple(t) => NoLF(t) && |t| + 2 <= LINE_LIMIT
    case Error(t) => NoLF(t) && |t| + 2 <= LINE_LIMIT
    case Int(n) => |IntText(n)| + 2 <= LINE_LIMIT
    case Nil => true
    case Bulk(b) => |b| <= MAX_BULK_LENGTH
    case Arr(items) => |items| <= MAX_ARRAY_LENGTH && AllTransportable(items)
  }

  predicate AllTransportable(items: seq<Value>)
    decreases items, 1
  {
    items == [] || (Transportable(items[0]) && AllTransportable(items[1..]))
  }

  /** A line longer than the limit is refused wherever its LF is; one with an inner LF comes back shorter. */
  lemma ReadLineNotWhole(h: Bytes, rest: Bytes)
    requires !NoLF(h) || |h| + 1 > LINE_LIMIT
    ensures var r := ReadLine(h + CRLF + rest); r.Bad? || (r.Got? && |r.value| < |h|)
  {
    var s := h + CRLF + rest;
    var i := FindLF(s);
    assert s[|h|] == CR && s[|h| + 1] == LF;
    if !NoLF(h) {
      var j :| 0 <= j < |h| && h[j] == LF;
      assert s[j] == LF;
      assert i <= j;
    } else {
      assert NoLF(s[..|h| + 1]);
      FindLFAt(s, |h| + 1);
    }
  }

  lemma ReplyLine(tag: char, t: Bytes, rest: Bytes)
    requires tag != LF
    ensures NoLF(t) && |t| + 2 <= LINE_LIMIT ==> ReadLine([tag] + t + CRLF + rest) == Got([tag] + t, rest)
    ensures !(NoLF(t) && |t| + 2 <= LINE_LIMIT) ==>
              var r := ReadLine([tag] + t + CRLF + rest); r.Bad? || (r.Got? && |r.value| <= |t|)
  {
    var h := [tag] + t;
    assert forall i :: 0 <= i < |t| ==> h[i + 1] == t[i];
    assert NoLF(t) <==> NoLF(h) by {
      if NoLF(h) {
        forall i | 0 <= i < |t| ensures t[i] != LF { assert h[i + 1] == t[i]; }
      }
    }
    if NoLF(t) && |t| + 2 <= LINE_LIMIT {
      ReadLineWhole(h, rest);
    } else {
      ReadLineNotWhole(h, rest);
    }
  }

  predicate Yields<T(==)>(r: Read<T>, v: T) {
    r.Got? && r.value == v
  }

  lemma TextReply(v: Value, rest: Bytes)
    requires v.Simple? || v.Error?
    ensures Transportable(v) ==> ReadReply(Encode(v) + rest) == Got(v, rest)
    ensures !Transportable(v) ==> !Yields(ReadReply(Encode(v) + rest), v)
  {
    var tag := if v.Simple? then '+' else '-';
    ReplyLine(tag, v.text, rest);
    assert ([tag] + v.text)[1..] == v.text;
    assert Encode(v) + rest == [tag] + v.text + CRLF + rest;
  }

  /** A numeric header reads back whole, or is refused when its line is too long. */
  lemma NumericHeader(tag: char, n: int, rest: Bytes)
    requires tag != LF
    ensures var r := ReadLine(Header(tag, n) + rest);
            r == (if |IntText(n)| + 2 <= LINE_LIMIT then Got([tag] + IntText(n), rest) else Bad(Protocol))
    ensures ParseHeaderInt(([tag] + IntText(n))[1..]) == Some(n)
  {
    var h := [tag] + IntText(n);
    HeaderBody(tag, n);
    var s := h + CRLF + rest;
    assert Header(tag, n) + rest == s;
    assert NoLF(s[..|h| + 1]);
    FindLFAt(s, |h| + 1);
    assert s[..|h|] == h && s[|h| + 2..] == rest;
  }

  lemma BulkReply(b: Bytes, rest: Bytes)
    ensures Transportable(Bulk(b)) ==> ReadReply(Encode(Bulk(b)) + rest) == Got(Bulk(b), rest)
    ensures !Transportable(Bulk(b)) ==> ReadReply(Encode(Bulk(b)) + rest).Bad?
  {
    var tail := b + CRLF + rest;
    assert Encode(Bulk(b)) + rest == Header('$', |b|) + tail;
    NumericHeader('$', |b|, tail);
    if Transportable(Bulk(b)) {
      ReadLengthHeader('$', |b|, tail);
      assert tail[..|b|] == b && tail[|b| + 2..] == rest;
    }
  }

  lemma NilReply(rest: Bytes)
    ensures ReadReply(Encode(Nil) + rest) == Got(Nil, rest)
  {
    assert Digits(1) == "1";
    assert Encode(Nil) + rest == Header('$', -1) + rest;
    NumericHeader('$', -1, rest);
  }

  lemma {:induction false} ArrayReply(items: seq<Value>, rest: Bytes)
    ensures |items| > MAX_ARRAY_LENGTH ==> ReadReply(Encode(Arr(items)) + rest).Bad?
    ensures |items| <= MAX_ARRAY_LENGTH ==>
              ReadReply(Encode(Arr(items)) + rest) ==
              match ReadReplies(EncodeItems(items) + rest, |items|)
              case Bad(why) => Bad(why)
              case Got(read, left) => Got(Arr(read), left)
  {
    Regroup(Header('*', |items|), EncodeItems(items), rest);
    ArrayHeader(|items|, EncodeItems(items) + rest);
  }

  lemma ArrayHeader(n: nat, tail: Bytes)
    ensures n > MAX_ARRAY_LENGTH ==> ReadReply(Header('*', n) + tail).Bad?
    ensures n <= MAX_ARRAY_LENGTH ==>
              ReadReply(Header('*', n) + tail) ==
              match ReadReplies(tail, n)
              case Bad(why) => Bad(why)
              case Got(read, left) => Got(Arr(read), left)
  {
    NumericHeader('*', n, tail);
    if n <= MAX_ARRAY_LENGTH {
      ReadLengthHeader('*', n, tail);
    }
  }

  /** `read_reply` inverts `encode` on the transportable values, at any nesting depth, and on no other. */
  lemma {:induction false} ReplyRoundTrip(v: Value, rest: Bytes)
    ensures Transportable(v) ==> ReadReply(Encode(v) + rest) == Got(v, rest)
    ensures !Transportable(v) ==> !Yields(ReadReply(Encode(v) + rest), v)
    decreases v, 0
  {
    match v {
      case Simple(_) => TextReply(v, rest);
      case Error(_) => TextReply(v, rest);
      case Int(n) => NumericHeader(':', n, rest);
      case Nil => NilReply(rest);
      case Bulk(b) => BulkReply(b, rest);
      case Arr(items) =>
        RepliesRoundTrip(items, rest);
        ArrayReply(items, rest);
    }
  }

  lemma {:induction false} FirstReplyWrong(s: Bytes, items: seq<Value>)
    requires items != [] && !Yields(ReadReply(s), items[0])
    ensures !Yields(ReadReplies(s, |items|), items)
  {
  }

  lemma {:induction false} FirstReplyRight(s: Bytes, items: seq<Value>, tail: Bytes)
    requires items != [] && ReadReply(s) == Got(items[0], tail)
    ensures var more := ReadReplies(tail, |items| - 1);
            ReadReplies(s, |items|) == if more.Bad? then more else Got([items[0]] + more.value, more.rest)
  {
  }

  lemma {:induction false} RepliesRoundTrip(items: seq<Value>, rest: Bytes)
    ensures AllTransportable(items) ==> ReadReplies(EncodeItems(items) + rest, |items|) == Got(items, rest)
    ensures !AllTransportable(items) ==> !Yields(ReadReplies(EncodeItems(items) + rest, |items|), items)
    decreases items, 1
  {
    if items == [] {
      assert EncodeItems(items) + rest == rest;
    } else {
      var first, others := items[0], items[1..];
      var tail := EncodeItems(others) + rest;
      Regroup(Encode(first), EncodeItems(others), rest);
      var s := Encode(first) + tail;
      ReplyRoundTrip(first, tail);
      if Transportable(first) {
        FirstReplyRight(s, items, tail);
        RepliesRoundTrip(others, rest);
        HeadAndTail(items);
      } else {
        FirstReplyWrong(s, items);
      }
    }
  }

  /* ----- replies that do no harm ----- */

  /** The client refuses the reply, whatever bytes follow it. */
  ghost predicate Refused(v: Value) {
    forall rest :: ReadReply(Encode(v) + rest).Bad?
  }

  /** The client reads the reply as it was sent, or refuses it and drops the connection. */
  ghost predicate Harmless(v: Value) {
    Transportable(v) || Refused(v)
  }

  /** The same for the replies to a batch, read one after the other from the same connection. */
  predicate HarmlessBatch(vs: seq<Value>) {
    AllTransportable(vs) || ReadReplies(EncodeItems(vs), |vs|).Bad?
  }

  /** Reading the replies to a batch gives exactly those replies, and nothing is left, iff all are transportable. */
  lemma BatchReadIff(vs: seq<Value>)
    ensures AllTransportable(vs) ==> ReadReplies(EncodeItems(vs), |vs|) == Got(vs, [])
    ensures !AllTransportable(vs) ==> !Yields(ReadReplies(EncodeItems(vs), |vs|), vs)
  {
    RepliesRoundTrip(vs, []);
    assert EncodeItems(vs) + [] == EncodeItems(vs);
  }

  /** A batch of replies that do no harm does no harm: it is read whole, or refused. */
  lemma {:induction false} HarmlessItems(vs: seq<Value>, rest: Bytes)
    requires forall i :: 0 <= i < |vs| ==> Harmless(vs[i])
    ensures AllTransportable(vs) || ReadReplies(EncodeItems(vs) + rest, |vs|).Bad?
  {
    if vs != [] {
      var first, others := vs[0], vs[1..];
      var tail := EncodeItems(others) + rest;
      Regroup(Encode(first), EncodeItems(others), rest);
      HarmlessItems(others, rest);
      if Transportable(first) {
        ReplyRoundTrip(first, tail);
        FirstReplyRight(Encode(first) + tail, vs, tail);
      } else {
        FirstReplyRefused(first, vs, tail);
      }
    }
  }

  lemma {:induction false} FirstReplyRefused(first: Value, vs: seq<Value>, tail: Bytes)
    requires Refused(first) && vs != []
    ensures ReadReplies(Encode(first) + tail, |vs|).Bad?
  {
    assert ReadReply(Encode(first) + tail).Bad?;
  }

  lemma HarmlessBatchOf(vs: seq<Value>)
    requires forall i :: 0 <= i < |vs| ==> Harmless(vs[i])
    ensures HarmlessBatch(vs)
  {
    HarmlessItems(vs, []);
    assert EncodeItems(vs) + [] == EncodeItems(vs);
  }

  lemma {:induction false} ReadOneMore(s: Bytes, first: Value, tail: Bytes, count: nat)
    requires count > 0 && ReadReply(s) == Got(first, tail)
    ensures var more := ReadReplies(tail, count - 1);
            ReadReplies(s, count) == if more.Bad? then more else Got([first] + more.value, more.rest)
  {
  }

  /** One harmless reply before others that do no harm when `count - 1` are read. */
  lemma HarmlessFirst(first: Value, others: seq<Value>, count: nat)
    requires count > 0 && Harmless(first)
    requires var r := ReadReplies(EncodeItems(others), count - 1); r.Bad? || r == Got(others, [])
    ensures var r := ReadReplies(Encode(first) + EncodeItems(others), count); r.Bad? || r == Got([first] + others, [])
  {
    var tail := EncodeItems(others);
    if Transportable(first) {
      ReplyRoundTrip(first, tail);
      ReadOneMore(Encode(first) + tail, first, tail, count);
    } else {
      assert ReadReply(Encode(first) + tail).Bad?;
    }
  }

  /** Reading more replies than there are, all of them harmless, fails; reading as many does no harm. */
  lemma {:induction false} HarmlessShort(vs: seq<Value>, count: nat)
    requires |vs| <= count && forall i :: 0 <= i < |vs| ==> Harmless(vs[i])
    ensures ReadReplies(EncodeItems(vs), count).Bad? || ReadReplies(EncodeItems(vs), count) == Got(vs, [])
  {
    if vs != [] {
      HarmlessShort(vs[1..], count - 1);
      HarmlessFirst(vs[0], vs[1..], count);
      HeadAndTail(vs);
    } else if count > 0 {
      assert ReadReply([]).Bad?;
    }
  }
}

/** Reading an append-only file back: the scan of `AOFLog.replay` and the repair of a torn tail. */
module LogScan {
  import opened Base
  import opened Resp

  type Record = seq<Bytes>

  /** A record the log can carry: what `append` is given by the write path. */
  predicate Loggable(r: Record) {
    r != [] && WithinLimits(r)
  }

  predicate AllLoggable(rs: seq<Record>) {
    forall i :: 0 <= i < |rs| ==> Loggable(rs[i])
  }

  /** The encoded records, as `append` hands them to the file and to the rewrite buffer. */
  function Encoded(rs: seq<Record>): (parts: seq<Bytes>)
    ensures |parts| == |rs|
  {
    seq(|rs|, i requires 0 <= i < |rs| => EncodeCommand(rs[i]))
  }

  /** File contents after appending records in order. */
  function EncodeLog(rs: seq<Record>): Bytes {
    Join(Encoded(rs))
  }

  /** Result of scanning a file: commands to run, the `good` offset, and whether a tail is discarded. */
  datatype Scanned = Scanned(commands: seq<Record>, good: nat, torn: bool)

  /**
   * The loop of `replay`: read commands until the end of the data or the first error.
   * `good` advances by the length of the command's re-encoding, as the source computes it.
   */
  function Scan(s: Bytes): Scanned
    decreases |s|
  {
    match ReadCommand(s)
    case Eof => Scanned([], 0, false)
    case Bad(_) => Scanned([], 0, true)
    case Got(command, rest) =>
      var later := Scan(rest);
      Scanned((if command == [] then [] else [command]) + later.commands,
              |EncodeCommand(command)| + later.good, later.torn)
  }

  lemma ScanGot(s: Bytes, command: Record, rest: Bytes)
    requires ReadCommand(s) == Got(command, rest)
    ensures Scan(s) == Scanned((if command == [] then [] else [command]) + Scan(rest).commands,
                               |EncodeCommand(command)| + Scan(rest).good, Scan(rest).torn)
  {
  }

  /** `truncate` of a file: cut it off, or extend it with zero bytes. */
  function Truncated(s: Bytes, size: nat): Bytes {
    if size <= |s| then s[..size] else s + seq(size - |s|, _ => 0 as char)
  }

  /** `_discard_tail` truncates the file to the good offset. */
  function Repaired(s: Bytes): Bytes {
    var scan := Scan(s);
    if scan.torn then Truncated(s, scan.good) else s
  }

  /** Number of records that lie entirely within the first `cut` bytes. */
  function WholeRecords(rs: seq<Record>, cut: nat): (n: nat)
    ensures n <= |rs|
  {
    if rs == [] || cut < |EncodeCommand(rs[0])| then 0
    else 1 + WholeRecords(rs[1..], cut - |EncodeCommand(rs[0])|)
  }

  lemma EncodeLogUnfold(rs: seq<Record>)
    requires rs != []
    ensures EncodeLog(rs) == EncodeCommand(rs[0]) + EncodeLog(rs[1..])
  {
    assert Encoded(rs)[1..] == Encoded(rs[1..]);
  }

  lemma EncodedAppend(a: seq<Record>, b: seq<Record>)
    ensures Encoded(a + b) == Encoded(a) + Encoded(b)
  {
  }

  lemma EncodeLogAppend(a: seq<Record>, b: seq<Record>)
    ensures EncodeLog(a + b) == EncodeLog(a) + EncodeLog(b)
  {
    JoinAppend(Encoded(a), Encoded(b));
    EncodedAppend(a, b);
  }

  lemma LoggableTogether(a: seq<Record>, b: seq<Record>)
    requires AllLoggable(a) && AllLoggable(b)
    ensures AllLoggable(a + b)
  {
  }

  /** The first `n` records occupy the first bytes of the log. */
  lemma EncodeLogPrefix(rs: seq<Record>, n: nat)
    requires n <= |rs|
    ensures |EncodeLog(rs[..n])| <= |EncodeLog(rs)|
    ensures EncodeLog(rs)[..|EncodeLog(rs[..n])|] == EncodeLog(rs[..n])
  {
    assert rs[..n] + rs[n..] == rs;
    EncodeLogAppend(rs[..n], rs[n..]);
  }

  /** `WholeRecords` is the largest number of records whose encoding fits. */
  lemma {:induction false} WholeRecordsIsLargest(rs: seq<Record>, cut: nat)
    ensures var n := WholeRecords(rs, cut);
            |EncodeLog(rs[..n])| <= cut && (n < |rs| ==> cut < |EncodeLog(rs[..n + 1])|)
  {
    if rs != [] && cut >= |EncodeCommand(rs[0])| {
      WholeRecordsIsLargest(rs[1..], cut - |EncodeCommand(rs[0])|);
      var n := WholeRecords(rs, cut);
      EncodeLogUnfold(rs[..n]);
      assert rs[..n][1..] == rs[1..][..n - 1];
      if n < |rs| {
        EncodeLogUnfold(rs[..n + 1]);
        assert rs[..n + 1][1..] == rs[1..][..n];
      }
    } else if rs != [] {
      EncodeLogUnfold(rs[..1]);
    }
  }

  /** A whole record at the front is run, and its length is added to the good offset. */
  lemma ScanRecord(r: Record, rest: Bytes)
    requires Loggable(r)
    ensures Scan(EncodeCommand(r) + rest) ==
            Scanned([r] + Scan(rest).commands, |EncodeCommand(r)| + Scan(rest).good, Scan(rest).torn)
  {
    CommandRoundTrip(r, rest);
  }

  /** A record cut short ends the scan. */
  lemma ScanCutRecord(r: Record, cut: nat)
    requires Loggable(r) && cut < |EncodeCommand(r)|
    ensures Scan(EncodeCommand(r)[..cut]) == Scanned([], 0, cut > 0)
  {
    if cut > 0 {
      CommandPrefixFree(r, cut);
    }
  }

  /**
   * Torn-tail repair. Cutting a log at any byte, the scan runs exactly the whole records before
   * the cut, the good offset is their exact length, and a tail is reported iff bytes remain.
   */
  lemma {:induction false} TornTail(rs: seq<Record>, cut: nat)
    requires AllLoggable(rs) && cut <= |EncodeLog(rs)|
    ensures var n := WholeRecords(rs, cut);
            |EncodeLog(rs[..n])| <= cut &&
            Scan(EncodeLog(rs)[..cut]) ==
              Scanned(rs[..n], |EncodeLog(rs[..n])|, |EncodeLog(rs[..n])| < cut)
    decreases |rs|
  {
    if rs == [] {
      assert EncodeLog(rs)[..cut] == [];
    } else {
      var first := EncodeCommand(rs[0]);
      EncodeLogUnfold(rs);
      CutOf(first, EncodeLog(rs[1..]), cut);
      if cut < |first| {
        assert rs[..0] == [];
        ScanCutRecord(rs[0], cut);
      } else {
        var rest := EncodeLog(rs[1..])[..cut - |first|];
        TornTail(rs[1..], cut - |first|);
        ScanRecord(rs[0], rest);
        WholeRecordsCons(rs, cut);
      }
    }
  }

  lemma WholeRecordsCons(rs: seq<Record>, cut: nat)
    requires rs != [] && |EncodeCommand(rs[0])| <= cut
    ensures var n := WholeRecords(rs, cut); var m := WholeRecords(rs[1..], cut - |EncodeCommand(rs[0])|);
            n == m + 1 && rs[..n] == [rs[0]] + rs[1..][..m] &&
            |EncodeLog(rs[..n])| == |EncodeCommand(rs[0])| + |EncodeLog(rs[1..][..m])|
  {
    var n := WholeRecords(rs, cut);
    EncodeLogUnfold(rs[..n]);
    assert rs[..n][1..] == rs[1..][..n - 1];
  }

  /** An intact log is read back as it was written. */
  lemma ScanWhole(rs: seq<Record>)
    requires AllLoggable(rs)
    ensures Scan(EncodeLog(rs)) == Scanned(rs, |EncodeLog(rs)|, false)
  {
    var log := EncodeLog(rs);
    TornTail(rs, |log|);
    WholeRecordsOfWhole(rs);
    assert log[..|log|] == log && rs[..|rs|] == rs;
  }

  lemma WholeRecordsOfWhole(rs: seq<Record>)
    ensures WholeRecords(rs, |EncodeLog(rs)|) == |rs|
  {
    var n := WholeRecords(rs, |EncodeLog(rs)|);
    WholeRecordsIsLargest(rs, |EncodeLog(rs)|);
    if n < |rs| {
      EncodeLogPrefix(rs, n + 1);
    }
  }

  /** The repaired file is the encoding of the surviving records. */
  lemma RepairedLog(rs: seq<Record>, cut: nat)
    requires AllLoggable(rs) && cut <= |EncodeLog(rs)|
    ensures Repaired(EncodeLog(rs)[..cut]) == EncodeLog(rs[..WholeRecords(rs, cut)])
  {
    TornTail(rs, cut);
    var n := WholeRecords(rs, cut);
    EncodeLogPrefix(rs, n);
    assert EncodeLog(rs)[..cut][..|EncodeLog(rs[..n])|] == EncodeLog(rs)[..|EncodeLog(rs[..n])|];
  }

  /**
   * After the repair the file holds exactly the surviving records, so appending more and scanning
   * again gives the old prefix followed by the new records.
   */
  lemma RepairThenAppend(rs: seq<Record>, cut: nat, more: seq<Record>)
    requires AllLoggable(rs) && AllLoggable(more) && cut <= |EncodeLog(rs)|
    ensures var n := WholeRecords(rs, cut);
            var file := Repaired(EncodeLog(rs)[..cut]);
            file == EncodeLog(rs[..n]) &&
            Scan(file + EncodeLog(more)).commands == rs[..n] + more &&
            !Scan(file + EncodeLog(more)).torn
  {
    TornTail(rs, cut);
    var n := WholeRecords(rs, cut);
    RepairedLog(rs, cut);
    EncodeLogAppend(rs[..n], more);
    ScanWhole(rs[..n] + more);
  }

  /** A log holding at least `m` whole records keeps at least those when cut no earlier. */
  lemma {:induction false} WholeRecordsAtLeast(rs: seq<Record>, m: nat, cut: nat)
    requires m <= |rs| && |EncodeLog(rs[..m])| <= cut
    ensures WholeRecords(rs, cut) >= m
  {
    if m > 0 {
      EncodeLogUnfold(rs[..m]);
      assert rs[..m][1..] == rs[1..][..m - 1];
      WholeRecordsAtLeast(rs[1..], m - 1, cut - |EncodeCommand(rs[0])|);
    }
  }

  /* ----- the good offset on arbitrary bytes ----- */

  /** A command and the number of bytes it was read from. */
  datatype Chunk = Chunk(command: Record, length: nat)

  /** Everything that can be read before the end or the first error, empty commands included. */
  function Chunks(s: Bytes): seq<Chunk>
    decreases |s|
  {
    match ReadCommand(s)
    case Got(command, rest) => [Chunk(command, |s| - |rest|)] + Chunks(rest)
    case _ => []
  }

  /** Bytes the chunks were read from. */
  function Taken(cs: seq<Chunk>): nat {
    if cs == [] then 0 else cs[0].length + Taken(cs[1..])
  }

  /** The offset `replay` computes for the chunks: the lengths of their re-encodings. */
  function Counted(cs: seq<Chunk>): nat {
    if cs == [] then 0 else |EncodeCommand(cs[0].command)| + Counted(cs[1..])
  }

  lemma {:induction false} ScanChunks(s: Bytes)
    ensures Scan(s).good == Counted(Chunks(s)) && Taken(Chunks(s)) <= |s|
    decreases |s|
  {
    var r := ReadCommand(s);
    if r.Got? {
      ScanGot(s, r.value, r.rest);
      ScanChunks(r.rest);
      assert Chunks(s)[1..] == Chunks(r.rest);
    }
  }

  /** The offset is right after each of the first chunks. */
  ghost predicate RightAt(cs: seq<Chunk>, n: nat)
    requires n <= |cs|
  {
    Counted(cs[..n]) == Taken(cs[..n])
  }

  predicate KeepsLength(c: Chunk) {
    |EncodeCommand(c.command)| == c.length
  }

  lemma {:induction false} CountNext(cs: seq<Chunk>, n: nat)
    requires n < |cs|
    ensures Counted(cs[..n + 1]) == Counted(cs[..n]) + |EncodeCommand(cs[n].command)|
    ensures Taken(cs[..n + 1]) == Taken(cs[..n]) + cs[n].length
  {
    if n == 0 {
      assert cs[..1][1..] == [] && cs[..0] == [];
    } else {
      assert cs[..n + 1][1..] == cs[1..][..n] && cs[..n][1..] == cs[1..][..n - 1];
      CountNext(cs[1..], n - 1);
    }
  }

  lemma {:induction false} KeptSoRight(cs: seq<Chunk>, n: nat)
    requires n <= |cs| && forall i :: 0 <= i < |cs| ==> KeepsLength(cs[i])
    ensures RightAt(cs, n)
  {
    if n > 0 {
      KeptSoRight(cs, n - 1);
      CountNext(cs, n - 1);
    } else {
      assert cs[..0] == [];
    }
  }

  /**
   * On any bytes whatever, the offset is right after every command that is read if and only if every
   * command re-encodes to the length it was read from.
   */
  lemma OffsetRightIff(s: Bytes)
    ensures var cs := Chunks(s);
            (forall n: nat :: n <= |cs| ==> RightAt(cs, n)) <==> (forall i :: 0 <= i < |cs| ==> KeepsLength(cs[i]))
  {
    var cs := Chunks(s);
    if forall i :: 0 <= i < |cs| ==> KeepsLength(cs[i]) {
      forall n: nat | n <= |cs| ensures RightAt(cs, n) {
        KeptSoRight(cs, n);
      }
    }
    if forall n: nat :: n <= |cs| ==> RightAt(cs, n) {
      forall i | 0 <= i < |cs| ensures KeepsLength(cs[i]) {
        assert RightAt(cs, i) && RightAt(cs, i + 1);
        CountNext(cs, i);
      }
    }
  }

  /**
   * The repair of any torn file keeps exactly the bytes of the commands that were run if and only if
   * the final offset is right.
   */
  lemma RepairRightIff(s: Bytes)
    requires Scan(s).torn
    ensures Taken(Chunks(s)) <= |s|
    ensures Repaired(s) == s[..Taken(Chunks(s))] <==> Counted(Chunks(s)) == Taken(Chunks(s))
  {
    ScanChunks(s);
    TruncatedIs(s, Counted(Chunks(s)), Taken(Chunks(s)));
  }

  lemma TruncatedIs(s: Bytes, size: nat, n: nat)
    requires n <= |s|
    ensures Truncated(s, size) == s[..n] <==> size == n
  {
    assert |Truncated(s, size)| == size && |s[..n]| == n;
  }

  lemma InlineGet(rest: Bytes)
    ensures ReadCommand("GET" + CRLF + rest) == Got(["GET"], rest)
  {
    ReadLineWhole("GET", rest);
    assert SplitWords("GET") == ["GET"] by {
      assert "GET"[1..] == "ET" && "ET"[1..] == "T" && "T"[1..] == "";
      assert SplitWords("", "GET") == ["GET"];
      assert SplitWords("T", "GE") == ["GET"] by { assert "GE" + ['T'] == "GET"; }
      assert SplitWords("ET", "G") == ["GET"] by { assert "G" + ['E'] == "GE"; }
      assert [] + ['G'] == "G";
    }
  }

  lemma EncodedGetLength()
    ensures |EncodeCommand(["GET"])| == 13
  {
    assert EncodeBulks(["GET"][1..]) == [];
    assert |Header('*', 1)| == 4 && |Header('$', 3)| == 4;
  }

  /**
   * A hand-written inline line before a torn tail: the line is run, its re-encoding is longer than the
   * line, and the repair keeps the torn tail and pads the file with zero bytes instead of cutting it.
   */
  lemma InlineLineDefeatsRepair()
    ensures var line := "GET" + CRLF; var s := line + "*1";
            Scan(s).commands == [["GET"]] && Scan(s).torn && Taken(Chunks(s)) == |line| &&
            Repaired(s) == s + seq(6, _ => 0 as char)
  {
    var s := "GET" + CRLF + "*1";
    InlineGet("*1");
    EncodedGetLength();
    assert ReadCommand("*1").Bad?;
    assert Scan("*1") == Scanned([], 0, true) && Chunks("*1") == [];
    ScanGot(s, ["GET"], "*1");
    assert Chunks(s) == [Chunk(["GET"], 5)];
    assert Chunks(s)[1..] == [];
  }
}

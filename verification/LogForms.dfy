/**
 * Which commands in a log keep their length when they are encoded again, told from their bytes: for an
 * array, its header lines must not be padded more than its null bulk strings, which are one byte shorter
 * than the empty strings they are read as, make up for.
 */
module LogForms {
  import opened Base
  import opened Decimal
  import opened LogScan
  import opened Resp

  /* ----- padded numbers ----- */

  lemma DigitsNext(m: nat, d: nat)
    requires d < 10
    ensures Digits(10 * m + d) == if m == 0 then [Digit(d)] else Digits(m) + [Digit(d)]
  {
    assert (10 * m + d) / 10 == m && (10 * m + d) % 10 == d;
  }

  lemma LastOf(s: Bytes, lo: nat, hi: nat)
    requires lo < hi <= |s|
    ensures s[lo..hi] == s[lo..hi - 1] + [s[hi - 1]]
  {
  }

  /** Digits that denote a number are at least as many as its canonical ones, and as many only if they are these. */
  lemma {:induction false} DigitsAtLeast(s: Bytes, lo: nat, hi: nat)
    requires hi <= |s| && ParseDigits(s, lo, hi).Some?
    ensures var n := ParseDigits(s, lo, hi).value;
            lo < hi && |Digits(n)| <= hi - lo && (|Digits(n)| == hi - lo ==> s[lo..hi] == Digits(n))
    decreases hi
  {
    if hi == lo + 1 {
      assert s[lo..hi] == [s[lo]];
    } else {
      DigitsAtLeast(s, lo, hi - 1);
      LastOf(s, lo, hi);
      DigitsNext(ParseDigits(s, lo, hi - 1).value, s[hi - 1] as int - '0' as int);
    }
  }

  /** The same for the signed numbers of header lines. */
  lemma HeaderAtLeast(t: Bytes)
    requires ParseHeaderInt(t).Some?
    ensures var n := ParseHeaderInt(t).value; |IntText(n)| <= |t| && (|IntText(n)| == |t| ==> t == IntText(n))
  {
    if t != [] && (t[0] == '+' || t[0] == '-') {
      DigitsAtLeast(t, 1, |t|);
      assert t == [t[0]] + t[1..|t|];
    } else {
      DigitsAtLeast(t, 0, |t|);
      assert t == t[0..|t|];
    }
  }

  /** Bytes of a header line beyond the canonical text of its number: zeros, or a plus sign. */
  function Padding(line: Bytes): (p: nat)
    requires line != [] && ParseHeaderInt(line[1..]).Some?
    ensures p == 0 <==> line == [line[0]] + IntText(ParseHeaderInt(line[1..]).value)
  {
    HeaderAtLeast(line[1..]);
    HeadAndTail(line);
    |line| - 1 - |IntText(ParseHeaderInt(line[1..]).value)|
  }

  lemma LineShape(s: Bytes)
    requires ReadLine(s).Got?
    ensures s == ReadLine(s).value + CRLF + ReadLine(s).rest
  {
    var i := FindLF(s);
    assert s == s[..i - 1] + [s[i - 1], s[i]] + s[i + 1..];
  }

  /* ----- bulk strings ----- */

  function BulkPadding(s: Bytes): nat
    requires ReadBulk(s).Got?
  {
    Padding(ReadLine(s).value)
  }

  predicate IsNull(s: Bytes)
    requires ReadBulk(s).Got?
  {
    ParseHeaderInt(ReadLine(s).value[1..]) == Some(-1)
  }

  lemma BulkLength(s: Bytes)
    requires ReadBulk(s).Got?
    ensures var r := ReadBulk(s);
            |s| - |r.rest| == |EncodeBulk(r.value)| + BulkPadding(s) - if IsNull(s) then 1 else 0
  {
    LineShape(s);
  }

  /** How the bulk strings of an array are written: padding of their headers, and how many are null. */
  datatype Form = Form(padding: nat, nulls: nat)

  function FormOf(s: Bytes, count: nat): Form
    decreases count
  {
    if count == 0 || !ReadBulk(s).Got? then Form(0, 0)
    else
      var others := FormOf(ReadBulk(s).rest, count - 1);
      Form(BulkPadding(s) + others.padding, (if IsNull(s) then 1 else 0) + others.nulls)
  }

  lemma FormUnfold(s: Bytes, first: Bytes, more: Bytes, count: nat)
    requires count > 0 && ReadBulk(s) == Got(first, more)
    ensures FormOf(s, count).padding == BulkPadding(s) + FormOf(more, count - 1).padding
    ensures FormOf(s, count).nulls == (if IsNull(s) then 1 else 0) + FormOf(more, count - 1).nulls
  {
  }

  lemma BulksUnfold(s: Bytes, count: nat) returns (first: Bytes, more: Bytes, others: seq<Bytes>, rest: Bytes)
    requires count > 0 && ReadBulks(s, count).Got?
    ensures ReadBulk(s) == Got(first, more) && ReadBulks(more, count - 1) == Got(others, rest)
    ensures ReadBulks(s, count) == Got([first] + others, rest)
  {
    first, more := ReadBulk(s).value, ReadBulk(s).rest;
    others, rest := ReadBulks(more, count - 1).value, ReadBulks(more, count - 1).rest;
  }

  lemma EncodeBulksUnfold(first: Bytes, others: seq<Bytes>)
    ensures EncodeBulks([first] + others) == EncodeBulk(first) + EncodeBulks(others)
  {
    assert ([first] + others)[1..] == others;
  }

  lemma {:induction false} BulksLength(s: Bytes, count: nat)
    requires ReadBulks(s, count).Got?
    ensures var r := ReadBulks(s, count); var form := FormOf(s, count);
            |s| - |r.rest| == |EncodeBulks(r.value)| + form.padding - form.nulls
    decreases count
  {
    if count > 0 {
      var first, more, others, rest := BulksUnfold(s, count);
      BulkLength(s);
      BulksLength(more, count - 1);
      FormUnfold(s, first, more, count);
      EncodeBulksUnfold(first, others);
    }
  }

  /* ----- commands ----- */

  /** The bytes begin with a whole command in the form of an array. */
  predicate IsArray(s: Bytes) {
    ReadCommand(s).Got? && ReadLine(s).value != [] && ReadLine(s).value[0] == '*'
  }

  function Count(s: Bytes): int
    requires IsArray(s)
  {
    ParseHeaderInt(ReadLine(s).value[1..]).value
  }

  function ChunkOf(s: Bytes): Chunk
    requires ReadCommand(s).Got?
  {
    Chunk(ReadCommand(s).value, |s| - |ReadCommand(s).rest|)
  }

  /** Padding of all the header lines of an array. */
  function ArrayPadding(s: Bytes): nat
    requires IsArray(s)
  {
    Padding(ReadLine(s).value) + if Count(s) < 0 then 0 else FormOf(ReadLine(s).rest, Count(s)).padding
  }

  function ArrayNulls(s: Bytes): nat
    requires IsArray(s)
  {
    if Count(s) < 0 then 0 else FormOf(ReadLine(s).rest, Count(s)).nulls
  }

  /** An array keeps its length iff its count is not negative and padding and nulls make up for each other. */
  lemma ArrayKeepsLengthIff(s: Bytes)
    requires IsArray(s)
    ensures KeepsLength(ChunkOf(s)) <==> Count(s) >= 0 && ArrayPadding(s) == ArrayNulls(s)
  {
    LineShape(s);
    HeaderAtLeast(ReadLine(s).value[1..]);
    if Count(s) >= 0 {
      BulksLength(ReadLine(s).rest, Count(s));
    }
  }

  /** A command on a line of its own keeps its length iff its blanks amount to the headers it gets. */
  lemma InlineKeepsLengthIff(s: Bytes)
    requires ReadCommand(s).Got? && !IsArray(s)
    ensures KeepsLength(ChunkOf(s)) <==> |ReadLine(s).value| + 2 == |EncodeCommand(SplitWords(ReadLine(s).value))|
  {
    LineShape(s);
  }
}

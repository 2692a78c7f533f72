/**
 * The wire in full: the grammar of the bytes that stand for each value, the sizes that can be read in
 * numbers, and the lines that clients may type in place of arrays.
 */
module Wire {
  import opened Base
  import opened Decimal
  import opened Resp

  /* ----- the grammar ----- */

  /** Digits only, without a leading zero, that denote `n`. */
  predicate Numeral(t: Bytes, n: nat) {
    t != "" && AllDigits(t) && PlaceValue(t) == n && (|t| > 1 ==> t[0] != '0')
  }

  /** A decimal number, with a minus sign if it is below zero. */
  predicate Spells(t: Bytes, n: int) {
    if n >= 0 then Numeral(t, n) else t != "" && t[0] == '-' && Numeral(t[1..], -n)
  }

  /** The texts of RESP2: what stands for a value. */
  ghost predicate Form(v: Value, s: Bytes)
    decreases v, 0
  {
    match v
    case Simple(t) => s == "+" + t + "\r\n"
    case Error(t) => s == "-" + t + "\r\n"
    case Int(n) => exists t :: Spells(t, n) && s == ":" + t + "\r\n"
    case Nil => s == "$-1\r\n"
    case Bulk(b) => exists t :: Spells(t, |b|) && s == "$" + t + "\r\n" + b + "\r\n"
    case Arr(items) => exists t, texts :: Spells(t, |items|) && Forms(items, texts) && s == "*" + t + "\r\n" + Join(texts)
  }

  ghost predicate Forms(items: seq<Value>, texts: seq<Bytes>)
    decreases items, 1
  {
    |texts| == |items| && forall i :: 0 <= i < |items| ==> Form(items[i], texts[i])
  }

  lemma {:induction false} DigitsLead(n: nat)
    requires n > 0
    ensures Digits(n)[0] != '0'
  {
    if n >= 10 {
      DigitsLead(n / 10);
    }
  }

  lemma NumberSpelt(n: int)
    ensures Spells(IntText(n), n)
  {
    IntTextRoundTrip(n);
    ParseIntDenotes(IntText(n));
    var m := if n < 0 then -n else n;
    if m > 0 {
      DigitsLead(m);
    }
    if n < 0 {
      assert IntText(n)[1..] == Digits(m);
    }
  }

  lemma {:induction false} ItemsJoined(items: seq<Value>, texts: seq<Bytes>)
    requires |texts| == |items| && forall i :: 0 <= i < |items| ==> texts[i] == Encode(items[i])
    ensures EncodeItems(items) == Join(texts)
  {
    if items != [] {
      ItemsJoined(items[1..], texts[1..]);
    }
  }

  lemma HeaderText(tag: char, n: int)
    ensures Header(tag, n) == [tag] + IntText(n) + "\r\n" && Spells(IntText(n), n)
  {
    assert CRLF == "\r\n";
    NumberSpelt(n);
  }

  /** What is sent for a value is a text of the grammar. */
  lemma {:induction false} EncodedForm(v: Value)
    ensures Form(v, Encode(v))
    decreases v, 0
  {
    assert CRLF == "\r\n";
    match v {
      case Int(n) => HeaderText(':', n);
      case Bulk(b) => HeaderText('$', |b|);
      case Arr(items) =>
        HeaderText('*', |items|);
        var texts := EncodedForms(items);
        assert Encode(v) == "*" + IntText(|items|) + "\r\n" + Join(texts);
      case Nil => assert "$-1" + CRLF == "$-1\r\n";
      case _ =>
    }
  }

  lemma {:induction false} EncodedForms(items: seq<Value>) returns (texts: seq<Bytes>)
    ensures Forms(items, texts) && Join(texts) == EncodeItems(items)
    decreases items, 1
  {
    texts := seq(|items|, i requires 0 <= i < |items| => Encode(items[i]));
    forall i | 0 <= i < |items| ensures Form(items[i], texts[i]) {
      EncodedForm(items[i]);
    }
    ItemsJoined(items, texts);
  }

  /* ----- sizes, in numbers ----- */

  /** A command arrives as it was sent if and only if it has at most 2^20 words, none longer than 64 MiB. */
  lemma CommandArrivesIff(args: seq<Bytes>, rest: Bytes)
    ensures ReadCommand(EncodeCommand(args) + rest) == Got(args, rest) <==>
            |args| <= 1048576 && forall i :: 0 <= i < |args| ==> |args[i]| <= 67108864
  {
    var s := EncodeCommand(args) + rest;
    assert s[0] == '*';
    if WithinLimits(args) {
      CommandRoundTrip(args, rest);
    } else if ReadCommand(s) == Got(args, rest) {
      CommandsReadAreWithinLimits(s);
    }
  }

  /** A one-line reply arrives if and only if it has no line feed and at most 65534 bytes. */
  lemma LineArrivesIff(t: Bytes, rest: Bytes)
    ensures ReadReply(Encode(Simple(t)) + rest) == Got(Simple(t), rest) <==> '\n' !in t && |t| <= 65534
    ensures ReadReply(Encode(Error(t)) + rest) == Got(Error(t), rest) <==> '\n' !in t && |t| <= 65534
  {
    ReplyRoundTrip(Simple(t), rest);
    ReplyRoundTrip(Error(t), rest);
    assert NoLF(t) <==> '\n' !in t;
  }

  /** A stored value arrives if and only if it has at most 64 MiB. */
  lemma ValueArrivesIff(b: Bytes, rest: Bytes)
    ensures ReadReply(Encode(Bulk(b)) + rest) == Got(Bulk(b), rest) <==> |b| <= 67108864
  {
    ReplyRoundTrip(Bulk(b), rest);
  }

  /* ----- lines in place of arrays ----- */

  /** A byte that separates words: blank, tab, line ends, vertical tab and form feed. */
  predicate Blank(c: char) {
    c == ' ' || c == '\t' || c == '\n' || c == '\r' || c as int == 11 || c as int == 12
  }

  /** A word has no byte that separates words. */
  predicate Word(w: Bytes) {
    w != "" && forall i :: 0 <= i < |w| ==> !Blank(w[i])
  }

  lemma {:induction false} SolidSplit(w: Bytes, word: Bytes)
    requires (word != "" || w != "") && forall i :: 0 <= i < |w| ==> !Blank(w[i])
    ensures SplitWords(w, word) == [word + w]
    decreases |w|
  {
    if w == "" {
      assert word + w == word;
    } else {
      SolidSplit(w[1..], word + [w[0]]);
      assert word + [w[0]] + w[1..] == word + w;
    }
  }

  lemma {:induction false} SplitAtBlank(a: Bytes, c: char, b: Bytes, word: Bytes)
    requires Blank(c)
    ensures SplitWords(a + [c] + b, word) == SplitWords(a, word) + SplitWords(b)
    decreases |a|
  {
    var s := a + [c] + b;
    if a == "" {
      assert s[0] == c && s[1..] == b;
    } else {
      assert s[0] == a[0] && s[1..] == a[1..] + [c] + b;
      if Blank(a[0]) {
        SplitAtBlank(a[1..], c, b, "");
      } else {
        SplitAtBlank(a[1..], c, b, word + [a[0]]);
      }
    }
  }

  /**
   * The words of a line: a solid one is itself, nothing has none, and at any blank the line falls into the
   * words before it and those after it.
   */
  lemma WordsOfLine(a: Bytes, c: char, b: Bytes)
    ensures SplitWords("") == []
    ensures Word(a) ==> SplitWords(a) == [a]
    ensures Blank(c) ==> SplitWords(a + [c] + b) == SplitWords(a) + SplitWords(b)
  {
    if Word(a) {
      SolidSplit(a, "");
      assert "" + a == a;
    }
    if Blank(c) {
      SplitAtBlank(a, c, b, "");
    }
  }

  /** Words with one blank between them. */
  function Typed(words: seq<Bytes>): Bytes {
    if words == [] then "" else if |words| == 1 then words[0] else words[0] + " " + Typed(words[1..])
  }

  lemma {:induction false} TypedSplit(words: seq<Bytes>)
    requires forall i :: 0 <= i < |words| ==> Word(words[i])
    ensures SplitWords(Typed(words)) == words
  {
    if words != [] {
      WordsOfLine(words[0], ' ', Typed(words[1..]));
      TypedSplit(words[1..]);
      if |words| == 1 {
        assert words == [words[0]];
      } else {
        assert Typed(words) == words[0] + [' '] + Typed(words[1..]);
        assert words == [words[0]] + words[1..];
      }
    }
  }

  lemma {:induction false} TypedNoLF(words: seq<Bytes>)
    requires forall i :: 0 <= i < |words| ==> Word(words[i])
    ensures NoLF(Typed(words))
  {
    if |words| > 1 {
      TypedNoLF(words[1..]);
      var w, tail := words[0], Typed(words[1..]);
      forall i | 0 <= i < |Typed(words)| ensures Typed(words)[i] != LF {
        if i > |w| {
          assert Typed(words)[i] == tail[i - |w| - 1];
        }
      }
    }
  }

  /** A command typed as a line of words is read as those words, if it does not begin like an array. */
  lemma TypedCommandRead(words: seq<Bytes>, rest: Bytes)
    requires forall i :: 0 <= i < |words| ==> Word(words[i])
    requires |Typed(words)| < 65536 && (words != [] ==> !("*" <= words[0]))
    ensures ReadCommand(Typed(words) + "\r\n" + rest) == Got(words, rest)
  {
    var line := Typed(words);
    assert CRLF == "\r\n";
    TypedNoLF(words);
    ReadLineWhole(line, rest);
    TypedSplit(words);
    assert words != [] ==> line[0] == words[0][0] && words[0] != "" && words[0][..1] == [words[0][0]];
  }

  /** An array of negative length is an empty command, and a null string an empty word; as replies both are nil. */
  lemma NullForms(rest: Bytes)
    ensures ReadCommand("*-1\r\n" + rest) == Got([], rest)
    ensures ReadBulk("$-1\r\n" + rest) == Got("", rest)
    ensures ReadReply("*-1\r\n" + rest) == Got(Nil, rest) && ReadReply("$-1\r\n" + rest) == Got(Nil, rest)
  {
    HeaderBody('*', -1);
    HeaderBody('$', -1);
    assert Digits(1) == "1" && IntText(-1) == "-1";
    assert "*-1\r\n" == "*-1" + CRLF && "$-1\r\n" == "$-1" + CRLF;
    assert ['*'] + IntText(-1) == "*-1" && ['$'] + IntText(-1) == "$-1";
    ReadLineWhole("*-1", rest);
    ReadLineWhole("$-1", rest);
  }
}

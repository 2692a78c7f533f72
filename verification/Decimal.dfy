/** Decimal text of integers: what Python's `str` prints and what the readers accept. */
module Decimal {
  import opened Base

  predicate IsDigit(c: char) {
    '0' <= c <= '9'
  }

  predicate AllDigits(s: Bytes) {
    forall i :: 0 <= i < |s| ==> IsDigit(s[i])
  }

  function Digit(d: nat): char
    requires d < 10
  {
    ('0' as int + d) as char
  }

  /** Canonical decimal digits of a natural number. */
  function Digits(n: nat): (s: Bytes)
    ensures |s| > 0 && AllDigits(s)
  {
    if n < 10 then [Digit(n)] else Digits(n / 10) + [Digit(n % 10)]
  }

  /** The number written by the digits of `s` from `lo` up to `hi`; the pattern `[0-9]+`. */
  function ParseDigits(s: Bytes, lo: nat, hi: nat): Option<nat>
    requires hi <= |s|
    decreases hi
  {
    if hi <= lo || !IsDigit(s[hi - 1]) then None
    else if hi == lo + 1 then Some(s[lo] as int - '0' as int)
    else match ParseDigits(s, lo, hi - 1)
      case None => None
      case Some(n) => Some(10 * n + (s[hi - 1] as int - '0' as int))
  }

  lemma {:induction false} DigitsRoundTrip(s: Bytes, lo: nat, n: nat)
    requires lo + |Digits(n)| <= |s| && s[lo..lo + |Digits(n)|] == Digits(n)
    ensures ParseDigits(s, lo, lo + |Digits(n)|) == Some(n)
  {
    var hi := lo + |Digits(n)|;
    assert forall i :: lo <= i < hi ==> s[i] == s[lo..hi][i - lo];
    if n >= 10 {
      assert s[lo..hi - 1] == Digits(n / 10);
      DigitsRoundTrip(s, lo, n / 10);
    }
  }

  /** Digit strings determine their number. */
  lemma DigitsInjective(m: nat, n: nat)
    requires Digits(m) == Digits(n)
    ensures m == n
  {
    var s := Digits(m);
    assert s[0..|s|] == s;
    DigitsRoundTrip(s, 0, m);
    DigitsRoundTrip(s, 0, n);
  }

  /** Python's `str` of an integer. */
  function IntText(n: int): (s: Bytes)
    ensures |s| > 0
  {
    if n < 0 then "-" + Digits(-n) else Digits(n)
  }

  /** The accepting pattern `-?[0-9]+` of the command layer and of stored counters. */
  function ParseInt(s: Bytes): Option<int> {
    if s != [] && s[0] == '-' then
      match ParseDigits(s, 1, |s|)
      case None => None
      case Some(n) => Some(0 - n)
    else ParseDigits(s, 0, |s|)
  }

  /** Printing then parsing is the identity on every integer. */
  lemma IntTextRoundTrip(n: int)
    ensures ParseInt(IntText(n)) == Some(n)
  {
    var s := IntText(n);
    if n < 0 {
      assert s[1..1 + |Digits(-n)|] == Digits(-n);
      DigitsRoundTrip(s, 1, -n);
    } else {
      assert s[0..|s|] == s;
      DigitsRoundTrip(s, 0, n);
      assert IsDigit(s[0]);
    }
  }

  /** Integer text is made of digits and at most one leading minus sign. */
  lemma IntTextChars(n: int)
    ensures forall i :: 0 <= i < |IntText(n)| ==> IsDigit(IntText(n)[i]) || IntText(n)[i] == '-'
  {
  }

  /** `Pow10(k)` bounds the number of digits. */
  function Pow10(k: nat): nat {
    if k == 0 then 1 else 10 * Pow10(k - 1)
  }

  lemma {:induction false} DigitsLength(n: nat, k: nat)
    requires n < Pow10(k) && k > 0
    ensures |Digits(n)| <= k
  {
    if n >= 10 {
      DigitsLength(n / 10, k - 1);
    }
  }

  /** The text of an int64, or of any sum of two, is at most 21 bytes long. */
  lemma SmallIntText(n: int)
    requires 0 - Pow10(20) < n < Pow10(20)
    ensures |IntText(n)| <= 21
  {
    if n < 0 {
      DigitsLength(-n, 20);
    } else {
      DigitsLength(n, 20);
    }
  }

  /* ----- what the pattern accepts, and what it denotes ----- */

  function DigitValue(c: char): int {
    c as int - '0' as int
  }

  /** Place value of digits: the first one counts for as many powers of ten as there are digits after it. */
  function PlaceValue(s: Bytes): int {
    if s == [] then 0 else DigitValue(s[0]) * Pow10(|s| - 1) + PlaceValue(s[1..])
  }

  lemma {:induction false} PlaceValueLast(s: Bytes, c: char)
    ensures PlaceValue(s + [c]) == 10 * PlaceValue(s) + DigitValue(c)
  {
    if s == [] {
      assert [c][1..] == [] && Pow10(0) == 1;
    } else {
      PlaceValueLast(s[1..], c);
      assert (s + [c])[1..] == s[1..] + [c];
      assert Pow10(|s|) == 10 * Pow10(|s| - 1);
    }
  }

  lemma AllDigitsLast(s: Bytes, c: char)
    ensures AllDigits(s + [c]) <==> AllDigits(s) && IsDigit(c)
  {
    assert (s + [c])[|s|] == c;
    assert forall i :: 0 <= i < |s| ==> (s + [c])[i] == s[i];
  }

  lemma {:induction false} DigitsDenote(s: Bytes, lo: nat, hi: nat)
    requires lo <= hi <= |s|
    ensures ParseDigits(s, lo, hi).Some? <==> lo < hi && AllDigits(s[lo..hi])
    ensures ParseDigits(s, lo, hi).Some? ==> ParseDigits(s, lo, hi).value == PlaceValue(s[lo..hi])
    decreases hi
  {
    if lo < hi {
      DigitsDenote(s, lo, hi - 1);
      assert s[lo..hi] == s[lo..hi - 1] + [s[hi - 1]];
      PlaceValueLast(s[lo..hi - 1], s[hi - 1]);
      AllDigitsLast(s[lo..hi - 1], s[hi - 1]);
      if hi == lo + 1 {
        assert s[lo..hi - 1] == [];
      }
    }
  }

  /** The digits of a text, after a minus sign if it begins with one. */
  function Unsigned(s: Bytes): Bytes {
    if s != [] && s[0] == '-' then s[1..] else s
  }

  /** A text is an integer iff it is digits, at least one, after at most one minus sign; it denotes their place value. */
  lemma ParseIntDenotes(s: Bytes)
    ensures ParseInt(s).Some? <==> Unsigned(s) != [] && AllDigits(Unsigned(s))
    ensures ParseInt(s).Some? ==>
              ParseInt(s).value == if s[0] == '-' then -PlaceValue(Unsigned(s)) else PlaceValue(Unsigned(s))
  {
    if s != [] && s[0] == '-' {
      DigitsDenote(s, 1, |s|);
      assert s[1..|s|] == s[1..];
    } else {
      DigitsDenote(s, 0, |s|);
      assert s[0..|s|] == s;
    }
  }
}

/** Definitions shared by every module: byte strings, optional values and results. */
module Base {

  /** A byte string. Each character stands for one byte. */
  type Bytes = string

  const CR: char := '\r'
  const LF: char := '\n'
  const CRLF: Bytes := [CR, LF]

  const INT64_MIN: int := -0x8000_0000_0000_0000
  const INT64_MAX: int := 0x7fff_ffff_ffff_ffff

  predicate Int64(n: int) {
    INT64_MIN <= n <= INT64_MAX
  }

  datatype Option<+T> = None | Some(value: T)

  /** Concatenation of a list of byte strings, as `b"".join` computes it. */
  function Join(parts: seq<Bytes>): Bytes {
    if parts == [] then [] else parts[0] + Join(parts[1..])
  }

  lemma Regroup<T>(a: seq<T>, b: seq<T>, c: seq<T>)
    ensures (a + b) + c == a + (b + c)
  {
  }

  /** A prefix of a concatenation ends in its first part or in its second. */
  lemma CutOf<T>(a: seq<T>, b: seq<T>, cut: nat)
    requires cut <= |a| + |b|
    ensures (a + b)[..cut] == if cut < |a| then a[..cut] else a + b[..cut - |a|]
  {
  }

  lemma HeadAndTail<T>(s: seq<T>)
    requires s != []
    ensures [s[0]] + s[1..] == s
  {
  }

  lemma {:induction false} JoinAppend(a: seq<Bytes>, b: seq<Bytes>)
    ensures Join(a + b) == Join(a) + Join(b)
  {
    if a == [] {
      assert a + b == b;
    } else {
      JoinAppend(a[1..], b);
      Regroup(a[0], Join(a[1..]), Join(b));
      assert (a + b)[1..] == a[1..] + b;
    }
  }
}

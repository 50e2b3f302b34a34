/** Byte strings and their newline-separated lines, as `bytes.IndexByte` and `strings.Split` see them. */
module ByteLines {
  newtype byte = x: int | 0 <= x < 256

  type Bytes = seq<byte>

  const NEWLINE: byte := 10
  const CARRIAGE_RETURN: byte := 13

  /** The first position of `b`, or -1. */
  function IndexOf(data: Bytes, b: byte): (r: int)
    ensures -1 <= r < |data|
    ensures r >= 0 ==> data[r] == b && b !in data[..r]
    ensures r < 0 ==> b !in data
  {
    if data == [] then -1
    else if data[0] == b then 0
    else
      var r := IndexOf(data[1..], b);
      assert data == [data[0]] + data[1..];
      assert r >= 0 ==> data[..r + 1] == [data[0]] + data[1..][..r];
      if r < 0 then -1 else r + 1
  }

  lemma {:induction false} IndexOfAtMost(data: Bytes, b: byte, k: nat)
    requires k < |data| && data[k] == b
    ensures 0 <= IndexOf(data, b) <= k
  {
    var r := IndexOf(data, b);
    forall j | 0 <= j < r ensures data[j] != b { assert data[j] == data[..r][j]; }
  }

  lemma {:induction false} IndexOfIsFirst(data: Bytes, b: byte, i: nat)
    requires i < |data| && data[i] == b && b !in data[..i]
    ensures IndexOf(data, b) == i
  {
    IndexOfAtMost(data, b, i);
    forall k | 0 <= k < i ensures data[k] != b { assert data[k] == data[..i][k]; }
  }

  /** `strings.Split(data, "\n")`: never empty, and the newlines themselves are dropped. */
  function SplitLines(data: Bytes): (lines: seq<Bytes>)
    ensures |lines| >= 1
  {
    var i := IndexOf(data, NEWLINE);
    if i < 0 then [data] else [data[..i]] + SplitLines(data[i + 1..])
  }

  /** Splitting on either side of a newline splits independently. */
  lemma {:induction false} SplitAtNewline(a: Bytes, b: Bytes)
    ensures SplitLines(a + [NEWLINE] + b) == SplitLines(a) + SplitLines(b)
    decreases |a|
  {
    var whole := a + [NEWLINE] + b;
    var i := IndexOf(a, NEWLINE);
    if i < 0 {
      assert whole[..|a|] == a;
      IndexOfIsFirst(whole, NEWLINE, |a|);
      assert whole[|a| + 1..] == b;
    } else {
      assert whole[..i] == a[..i];
      IndexOfIsFirst(whole, NEWLINE, i);
      assert whole[i + 1..] == a[i + 1..] + [NEWLINE] + b;
      SplitAtNewline(a[i + 1..], b);
    }
  }

  lemma {:induction false} SplitSingleLine(line: Bytes)
    requires NEWLINE !in line
    ensures SplitLines(line) == [line]
  {
  }

  /** Text that is empty or ends a line: whatever follows starts a fresh line. */
  predicate EndsLine(data: Bytes) {
    data == [] || data[|data| - 1] == NEWLINE
  }

  function CountNewlines(data: Bytes): nat {
    if data == [] then 0 else (if data[0] == NEWLINE then 1 else 0) + CountNewlines(data[1..])
  }

  lemma {:induction false} CountNewlinesConcat(a: Bytes, b: Bytes)
    ensures CountNewlines(a + b) == CountNewlines(a) + CountNewlines(b)
  {
    if a == [] {
      assert a + b == b;
    } else {
      assert (a + b)[1..] == a[1..] + b;
      CountNewlinesConcat(a[1..], b);
    }
  }

  lemma {:induction false} CountNewlinesNone(a: Bytes)
    requires NEWLINE !in a
    ensures CountNewlines(a) == 0
  {
    if a != [] { CountNewlinesNone(a[1..]); }
  }
}

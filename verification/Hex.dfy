/** `encoding/hex`: two lower-case digits a byte; decoding also accepts upper case. */
module Hex {
  import opened Wrappers
  import opened ByteLines

  function Digit(n: int): (c: char)
    requires 0 <= n < 16
  {
    if n < 10 then '0' + n as char else 'a' + (n - 10) as char
  }

  function Nibble(c: char): (r: Option<int>)
    ensures r.Some? ==> 0 <= r.value < 16
  {
    if '0' <= c <= '9' then Some((c - '0') as int)
    else if 'a' <= c <= 'f' then Some((c - 'a') as int + 10)
    else if 'A' <= c <= 'F' then Some((c - 'A') as int + 10)
    else None
  }

  function Encode(data: Bytes): (s: string)
    ensures |s| == 2 * |data|
  {
    if data == [] then ""
    else [Digit(data[0] as int / 16), Digit(data[0] as int % 16)] + Encode(data[1..])
  }

  function Decode(s: string): Option<Bytes> {
    if s == "" then Some([])
    else if |s| == 1 then None
    else
      var hi, lo, rest := Nibble(s[0]), Nibble(s[1]), Decode(s[2..]);
      if hi.Some? && lo.Some? && rest.Some? then Some([(hi.value * 16 + lo.value) as byte] + rest.value) else None
  }

  predicate IsHex(c: char) { '0' <= c <= '9' || 'a' <= c <= 'f' || 'A' <= c <= 'F' }

  lemma {:induction false} DecodesOnlyHex(s: string)
    requires Decode(s).Some?
    ensures |s| % 2 == 0 && forall i | 0 <= i < |s| :: IsHex(s[i])
  {
    if |s| >= 2 { DecodesOnlyHex(s[2..]); }
  }

  /** Upper and lower case digits are worth the same. */
  lemma {:induction false} CaseIgnored(c: char)
    requires 'a' <= c <= 'f'
    ensures Nibble(c) == Nibble(c - 'a' + 'A') && Nibble(c).Some?
  {
  }

  lemma {:induction false} DecodeEncode(data: Bytes)
    ensures Decode(Encode(data)) == Some(data)
  {
    if data != [] {
      DecodeEncode(data[1..]);
      var s := Encode(data);
      assert s[2..] == Encode(data[1..]);
      assert data == [data[0]] + data[1..];
    }
  }
}

/** Printing an integer: the digits `itoa` leaves in its buffer. */
module Decimals {
  const MAX_INT := 0x7fff_ffff_ffff_ffff
  const MIN_INT := -0x8000_0000_0000_0000

  function Pow10(n: nat): (p: nat)
    ensures p >= 1
  {
    if n == 0 then 1 else 10 * Pow10(n - 1)
  }

  predicate IsDigit(c: char) { '0' <= c <= '9' }

  predicate AllDigits(s: string) { forall i | 0 <= i < |s| :: IsDigit(s[i]) }

  function DigitValue(c: char): (d: nat)
    requires IsDigit(c)
    ensures d < 10
  {
    (c - '0') as nat
  }

  function DigitChar(d: nat): (c: char)
    requires d < 10
    ensures IsDigit(c) && DigitValue(c) == d
  {
    '0' + d as char
  }

  /** The number a digit string denotes. */
  function DecValue(s: string): nat
    requires AllDigits(s)
  {
    if s == "" then 0 else DecValue(s[..|s| - 1]) * 10 + DigitValue(s[|s| - 1])
  }

  /** `%d` of an unsigned number. */
  function Decimal(n: nat): (s: string)
    ensures s != "" && AllDigits(s) && DecValue(s) == n
  {
    if n < 10 then [DigitChar(n)]
    else
      var front := Decimal(n / 10);
      assert (front + [DigitChar(n % 10)])[..|front|] == front;
      front + [DigitChar(n % 10)]
  }

  /** A digit in front counts for as much as the digits behind it leave room for. */
  lemma {:induction false} LeadingDigit(c: char, s: string)
    requires IsDigit(c) && AllDigits(s)
    ensures AllDigits([c] + s) && DecValue([c] + s) == DigitValue(c) * Pow10(|s|) + DecValue(s)
  {
    if s == "" {
      assert [c] + s == [c] && [c][..0] == "";
    } else {
      var n := |s| - 1;
      assert ([c] + s)[..n + 1] == [c] + s[..n];
      LeadingDigit(c, s[..n]);
      assert DecValue([c] + s) == DecValue([c] + s[..n]) * 10 + DigitValue(s[n]);
      assert DigitValue(c) * Pow10(n) * 10 == DigitValue(c) * Pow10(n + 1);
    }
  }

  /** The integer a decimal numeral denotes: digits without a leading zero, perhaps after a minus sign. */
  predicate Denotes(s: string, n: int) {
    if s == "0" then n == 0
    else if s != "" && s[0] == '-' then Plain(s[1..]) && n == -(DecValue(s[1..]) as int)
    else Plain(s) && n == DecValue(s)
  }

  predicate Plain(s: string) { s != "" && AllDigits(s) && s[0] != '0' }

  lemma {:induction false} PutDigit(n: nat, rest: string, n0: nat, k: nat)
    requires n > 0 && AllDigits(rest) && |rest| == k
    requires n * Pow10(k) + DecValue(rest) == n0
    ensures var s := [DigitChar(n % 10)] + rest;
            AllDigits(s) && (n / 10) * Pow10(k + 1) + DecValue(s) == n0
  {
    LeadingDigit(DigitChar(n % 10), rest);
    var p, q, d := Pow10(k), n / 10, n % 10;
    assert n == 10 * q + d;
    assert (10 * q + d) * p == q * (10 * p) + d * p;
  }

  /** What the loop of `itoa` knows: its digits so far, and that the rest still fits. */
  ghost predicate Printing(digits: string, i: nat, n: nat, n0: nat)
    requires i <= 20 && |digits| == 20 - i
  {
    && AllDigits(digits) && n * Pow10(20 - i) + DecValue(digits) == n0
    && i >= 1 && n < Pow10(i - 1)
    && (n == 0 && n0 > 0 ==> digits != "" && digits[0] != '0')
  }

  lemma {:induction false} PrintStep(digits: string, i: nat, n: nat, n0: nat)
    requires i <= 20 && |digits| == 20 - i && Printing(digits, i, n, n0) && n > 0
    ensures i >= 2 && Printing([DigitChar(n % 10)] + digits, i - 1, n / 10, n0)
  {
    PutDigit(n, digits, n0, 20 - i);
    assert Pow10(0) == 1;
    assert n < 10 * Pow10(i - 2);
  }

  lemma {:induction false} FourMore(n: nat)
    ensures Pow10(n + 4) == 10000 * Pow10(n)
  {
    assert Pow10(n + 4) == 10 * Pow10(n + 3) && Pow10(n + 3) == 10 * Pow10(n + 2);
    assert Pow10(n + 2) == 10 * Pow10(n + 1) && Pow10(n + 1) == 10 * Pow10(n);
  }

  lemma {:induction false} PrintStart(n: nat)
    requires n <= MAX_INT
    ensures Printing("", 20, n, n)
  {
    assert Pow10(19) > MAX_INT by {
      FourMore(15);
      FourMore(11);
      FourMore(7);
      FourMore(3);
    }
  }

  lemma {:induction false} Printed(digits: string, i: nat, n0: nat)
    requires i <= 20 && |digits| == 20 - i && Printing(digits, i, 0, n0) && n0 > 0
    ensures Denotes(digits, n0) && Denotes(['-'] + digits, -(n0 as int)) && i >= 1
  {
    assert (['-'] + digits)[1..] == digits;
  }

  /**
   * `itoa`: every 64-bit integer but the smallest is printed exactly, within the
   * buffer; negating the smallest overflows, and only its sign is printed.
   */
  method Itoa(n: int) returns (s: string)
    requires MIN_INT <= n <= MAX_INT
    ensures n != MIN_INT ==> Denotes(s, n)
    ensures n == MIN_INT ==> s == "-"
  {
    hide Printing, Denotes;
    if n == 0 {
      ZeroDenoted();
      return "0";
    }
    var buf := new char[20](_ => '\0');
    var i := 20;
    var neg := n < 0;
    var m := if !neg then n else if n == MIN_INT then MIN_INT else -n;
    ghost var n0 := m;
    if m > 0 { PrintStart(m); }
    ghost var digits := "";
    assert buf[20..] == "";
    while m > 0
      invariant 0 <= i <= 20 && (n0 > 0 ==> 0 <= m) && digits == buf[i..]
      invariant n0 > 0 ==> Printing(digits, i, m, n0)
      invariant n0 <= 0 ==> m == n0 && i == 20
    {
      PrintStep(digits, i, m, n0);
      digits := [DigitChar(m % 10)] + digits;
      i := i - 1;
      buf[i] := DigitChar(m % 10);
      m := m / 10;
    }
    if n0 > 0 { Printed(digits, i, n0); }
    if neg {
      i := i - 1;
      buf[i] := '-';
      assert buf[i..] == ['-'] + digits;
    }
    return buf[i..];
  }

  lemma {:induction false} ZeroDenoted()
    ensures Denotes("0", 0)
  {
  }
}

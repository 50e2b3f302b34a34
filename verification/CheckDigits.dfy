/**
 * The IBAN and payment-card checksums: the loops compute the textbook numbers,
 * and which slips of the pen they catch is settled exactly.
 */
module CheckDigits {
  import opened Decimals

  predicate IsUpper(c: char) { 'A' <= c <= 'Z' }

  predicate IsAlnum(c: char) { IsDigit(c) || IsUpper(c) }

  predicate AllAlnum(s: string) { forall i | 0 <= i < |s| :: IsAlnum(s[i]) }

  // ---------------------------------------------------------------- arithmetic modulo 97

  lemma {:induction false} CongruentIffDivides(a: int, b: int)
    ensures a % 97 == b % 97 <==> (a - b) % 97 == 0
  {
  }

  lemma {:induction false} RemainderStep(r: nat, v: nat, d: nat)
    requires r == v % 97
    ensures (r * 10 + d) % 97 == (v * 10 + d) % 97
  {
    var k := v / 97;
    assert v == r + 97 * k;
    MultiplesVanish(r * 10 + d, 10 * k);
  }

  lemma {:induction false} MultiplesVanish(x: int, k: int)
    ensures (x + 97 * k) % 97 == x % 97
  {
  }

  /** 10 is invertible modulo 97 (its inverse is 68), so a factor of 10 can be cancelled. */
  lemma {:induction false} CancelTen(x: int)
    ensures (10 * x) % 97 == 0 <==> x % 97 == 0
  {
    if (10 * x) % 97 == 0 {
      var k := 10 * x / 97;
      assert x == 97 * (68 * k - 7 * x);
    }
    if x % 97 == 0 {
      var k := x / 97;
      assert 10 * x == 97 * (10 * k);
    }
  }

  /** 9 and 99 are invertible modulo 97, so numbers 9x or 99x apart, for small x, agree only if x is zero. */
  lemma {:induction false} DifferenceIff(a: int, b: int, m: int, x: int)
    requires (m == 1 || m == 9 || m == 99) && -97 < x < 97 && a - b == m * x
    ensures a % 97 == b % 97 <==> x == 0
  {
    CongruentIffDivides(a, b);
    if (a - b) % 97 == 0 {
      var k := (a - b) / 97;
      assert a - b == 97 * k;
      if m == 9 {
        assert x == 97 * (54 * k - 5 * x);
      } else if m == 99 {
        assert x == 97 * (49 * k - 50 * x);
      }
    }
  }

  /** The chunked remainder of `ValidateIBAN` is the remainder of the whole number, however long. */
  method RollingRemainder(numStr: string) returns (remainder: nat)
    requires AllDigits(numStr)
    ensures remainder == DecValue(numStr) % 97
  {
    remainder := 0;
    for i := 0 to |numStr|
      invariant remainder == DecValue(numStr[..i]) % 97
    {
      assert numStr[..i + 1][..i] == numStr[..i];
      RemainderStep(remainder, DecValue(numStr[..i]), DigitValue(numStr[i]));
      remainder := (remainder * 10 + DigitValue(numStr[i])) % 97;
    }
    assert numStr[..|numStr|] == numStr;
  }

  // ---------------------------------------------------------------- letters as numbers

  /** A = 10, ..., Z = 35; a digit stands for itself. */
  function Code(c: char): (n: nat)
    requires IsAlnum(c)
    ensures n < 36 && (IsDigit(c) <==> n < 10)
  {
    if IsUpper(c) then (c - 'A') as nat + 10 else DigitValue(c)
  }

  /** Digits stand for themselves; the letters, in order, for the 26 numbers from 10 to 35. */
  lemma {:induction false} CodesInOrder(c: char, d: char)
    requires IsAlnum(c) && IsAlnum(d)
    ensures Code('0') == 0 && Code('9') == 9 && Code('A') == 10 && Code('Z') == 35
    ensures c < d ==> Code(c) < Code(d)
  {
  }

  /** The room the code of `c` takes: two digits for a letter, one for a digit. */
  function Scale(c: char): int { if IsUpper(c) then 100 else 10 }

  function Expand(c: char): (s: string)
    requires IsAlnum(c)
    ensures AllDigits(s)
  {
    if IsUpper(c) then ['0' + (Code(c) / 10) as char, '0' + (Code(c) % 10) as char] else [c]
  }

  /** The number of the first `n` characters, each letter read as its code. */
  function NumberUpTo(s: string, n: nat): nat
    requires AllAlnum(s) && n <= |s|
  {
    if n == 0 then 0 else NumberUpTo(s, n - 1) * Scale(s[n - 1]) + Code(s[n - 1])
  }

  /** The integer ISO 7064 takes modulo 97. */
  function Number(s: string): nat
    requires AllAlnum(s)
  {
    NumberUpTo(s, |s|)
  }

  lemma {:induction false} AppendDigit(digits: string, c: char)
    requires AllDigits(digits) && IsDigit(c)
    ensures AllDigits(digits + [c]) && DecValue(digits + [c]) == DecValue(digits) * 10 + DigitValue(c)
  {
    assert (digits + [c])[..|digits|] == digits;
  }

  lemma {:induction false} AppendExpansion(digits: string, c: char)
    requires AllDigits(digits) && IsAlnum(c)
    ensures AllDigits(digits + Expand(c))
    ensures DecValue(digits + Expand(c)) == DecValue(digits) * Scale(c) + Code(c)
  {
    var code := Expand(c);
    AppendDigit(digits, code[0]);
    if IsUpper(c) {
      AppendDigit(digits + [code[0]], code[1]);
      assert digits + [code[0]] + [code[1]] == digits + code;
    } else {
      assert digits + [code[0]] == digits + code;
    }
  }

  /** The letter-expansion loop of `ValidateIBAN`: the digit string it builds denotes `Number`. */
  method ExpandLetters(s: string) returns (digits: string)
    requires AllAlnum(s)
    ensures AllDigits(digits) && DecValue(digits) == Number(s)
  {
    digits := "";
    for i := 0 to |s|
      invariant AllDigits(digits) && DecValue(digits) == NumberUpTo(s, i)
    {
      AppendExpansion(digits, s[i]);
      digits := digits + Expand(s[i]);
    }
  }

  // ---------------------------------------------------------------- slips in a single place

  /** Where two strings agree from `from` on, their numbers stay equal or different modulo 97. */
  lemma {:induction false} AgreementCarries(s: string, s': string, from: nat, n: nat)
    requires AllAlnum(s) && AllAlnum(s') && |s| == |s'| && from <= n <= |s|
    requires forall i | from <= i < |s| :: s[i] == s'[i]
    ensures NumberUpTo(s, n) % 97 == NumberUpTo(s', n) % 97 <==> NumberUpTo(s, from) % 97 == NumberUpTo(s', from) % 97
  {
    if from < n {
      AgreementCarries(s, s', from, n - 1);
      StepCarries(NumberUpTo(s, n - 1), NumberUpTo(s', n - 1), s[n - 1]);
    }
  }

  lemma {:induction false} StepCarries(a: nat, b: nat, c: char)
    requires IsAlnum(c)
    ensures (a * Scale(c) + Code(c)) % 97 == (b * Scale(c) + Code(c)) % 97 <==> a % 97 == b % 97
  {
    CongruentIffDivides(a * Scale(c) + Code(c), b * Scale(c) + Code(c));
    CongruentIffDivides(a, b);
    CancelTen(a - b);
    CancelTen(10 * (a - b));
  }

  lemma {:induction false} SharedPrefix(s: string, s': string, n: nat)
    requires AllAlnum(s) && AllAlnum(s') && n <= |s| && n <= |s'|
    requires forall i | 0 <= i < n :: s[i] == s'[i]
    ensures NumberUpTo(s, n) == NumberUpTo(s', n)
  {
    if n > 0 { SharedPrefix(s, s', n - 1); }
  }

  predicate SameKind(c: char, d: char) { IsAlnum(c) && IsAlnum(d) && (IsDigit(c) <==> IsDigit(d)) }

  lemma {:induction false} CodesDistinct(c: char, d: char)
    requires IsAlnum(c) && IsAlnum(d)
    ensures Code(c) == Code(d) <==> c == d
  {
  }

  /** One character replaced by another of its kind always changes the remainder. */
  lemma {:induction false} SubstitutionNoticed(s: string, i: nat, c: char)
    requires AllAlnum(s) && i < |s| && SameKind(s[i], c) && c != s[i]
    ensures AllAlnum(s[i := c]) && Number(s[i := c]) % 97 != Number(s) % 97
  {
    var s' := s[i := c];
    SharedPrefix(s, s', i);
    AgreementCarries(s, s', i + 1, |s|);
    CodesDistinct(s[i], c);
    DifferenceIff(NumberUpTo(s, i + 1), NumberUpTo(s', i + 1), 1, Code(s[i]) as int - Code(c));
  }

  /** A letter worth eleven times the digit: B1, M2 and X3 read the same in both orders. */
  predicate Ambiguous(c: char, d: char)
    requires IsAlnum(c) && IsAlnum(d)
  {
    || (IsUpper(c) && IsDigit(d) && Code(c) == 11 * Code(d))
    || (IsUpper(d) && IsDigit(c) && Code(d) == 11 * Code(c))
  }

  function Swapped(s: string, i: nat): string
    requires i + 1 < |s|
  {
    s[i := s[i + 1]][i + 1 := s[i]]
  }

  /** The number `a` with two more characters behind it. */
  function Pair(a: int, c: char, d: char): int
    requires IsAlnum(c) && IsAlnum(d)
  {
    (a * Scale(c) + Code(c)) * Scale(d) + Code(d)
  }

  lemma {:induction false} EndsInPair(s: string, i: nat)
    requires AllAlnum(s) && i + 1 < |s|
    ensures NumberUpTo(s, i + 2) == Pair(NumberUpTo(s, i), s[i], s[i + 1])
  {
    assert NumberUpTo(s, i + 2) == NumberUpTo(s, i + 1) * Scale(s[i + 1]) + Code(s[i + 1]);
  }

  /** Exchanging two neighbours goes unnoticed exactly when they are equal or ambiguous. */
  lemma {:induction false} SwapUnnoticedIff(s: string, i: nat)
    requires AllAlnum(s) && i + 1 < |s|
    ensures AllAlnum(Swapped(s, i))
    ensures Number(Swapped(s, i)) % 97 == Number(s) % 97 <==> s[i] == s[i + 1] || Ambiguous(s[i], s[i + 1])
  {
    hide NumberUpTo, Pair, Ambiguous;
    var s' := Swapped(s, i);
    SharedPrefix(s, s', i);
    AgreementCarries(s, s', i + 2, |s|);
    EndsInPair(s, i);
    EndsInPair(s', i);
    PairSwappedIff(NumberUpTo(s, i), s[i], s[i + 1]);
  }

  lemma {:induction false} PairSwappedIff(a: int, c: char, d: char)
    requires IsAlnum(c) && IsAlnum(d)
    ensures Pair(a, c, d) % 97 == Pair(a, d, c) % 97 <==> c == d || Ambiguous(c, d)
  {
    var x: int, y: int := Code(c), Code(d);
    CodesDistinct(c, d);
    if IsDigit(c) && IsDigit(d) {
      DifferenceIff(Pair(a, c, d), Pair(a, d, c), 9, x - y);
    } else if IsUpper(c) && IsUpper(d) {
      DifferenceIff(Pair(a, c, d), Pair(a, d, c), 99, x - y);
    } else if IsUpper(c) {
      DifferenceIff(Pair(a, c, d), Pair(a, d, c), 9, x - 11 * y);
    } else {
      DifferenceIff(Pair(a, d, c), Pair(a, c, d), 9, y - 11 * x);
    }
  }

  // ---------------------------------------------------------------- IBAN

  /**
   * `strings.ToUpper` as far as it can produce an ASCII letter; the dotless i and the
   * long s are the two foreign ones.
   */
  function Upper(c: char): char {
    if 'a' <= c <= 'z' then c - 'a' + 'A'
    else if c == '\U{131}' then 'I'
    else if c == '\U{17F}' then 'S'
    else c
  }

  function Cleaned(value: string): string {
    if value == "" then ""
    else if value[0] == ' ' then Cleaned(value[1..])
    else [Upper(value[0])] + Cleaned(value[1..])
  }

  lemma {:induction false} CleanedConcat(a: string, b: string)
    ensures Cleaned(a + b) == Cleaned(a) + Cleaned(b)
  {
    if a == "" {
      assert a + b == b;
    } else {
      assert (a + b)[1..] == a[1..] + b;
      CleanedConcat(a[1..], b);
    }
  }

  /** Spaces and case make no difference to what is checked, and nothing else of an IBAN is touched. */
  lemma {:induction false} SpacesAndCaseIgnored(a: string, b: string, lower: char)
    requires 'a' <= lower <= 'z'
    ensures Cleaned(a + " " + b) == Cleaned(a + b)
    ensures Cleaned(a + [lower] + b) == Cleaned(a + [lower - 'a' + 'A'] + b)
    ensures AllAlnum(a) ==> Cleaned(a) == a
  {
    CleanedConcat(a + " ", b);
    CleanedConcat(a, " ");
    CleanedConcat(a, b);
    CleanedConcat(a + [lower], b);
    CleanedConcat(a, [lower]);
    CleanedConcat(a + [lower - 'a' + 'A'], b);
    CleanedConcat(a, [lower - 'a' + 'A']);
    assert Cleaned(" ") == "" && Cleaned([lower]) == Cleaned([lower - 'a' + 'A']) by {
      assert " "[1..] == "" && [lower][1..] == "" && [lower - 'a' + 'A'][1..] == "";
    }
    if AllAlnum(a) { CleanIsCleaned(a); }
  }

  lemma {:induction false} CleanIsCleaned(a: string)
    requires AllAlnum(a)
    ensures Cleaned(a) == a
  {
    if a != "" {
      assert IsAlnum(a[0]);
      CleanIsCleaned(a[1..]);
    }
  }

  /** `^[A-Z]{2}\d{2}[A-Z0-9]{1,30}$` */
  predicate IbanFormat(s: string) {
    && 5 <= |s| <= 34
    && IsUpper(s[0]) && IsUpper(s[1]) && IsDigit(s[2]) && IsDigit(s[3])
    && AllAlnum(s)
  }

  function Rearranged(s: string): (r: string)
    requires |s| >= 4
    ensures |r| == |s| && (AllAlnum(s) ==> AllAlnum(r))
  {
    s[4..] + s[..4]
  }

  /** An IBAN in its cleaned form: length, format, and remainder 1. */
  predicate ValidIban(s: string) {
    15 <= |s| <= 34 && IbanFormat(s) && Number(Rearranged(s)) % 97 == 1
  }

  method ValidateIBAN(value: string) returns (ok: bool)
    ensures ok <==> ValidIban(Cleaned(value))
  {
    var cleaned := Cleaned(value);
    if |cleaned| < 15 || |cleaned| > 34 { return false; }
    if !IbanFormat(cleaned) { return false; }
    var rearranged := Rearranged(cleaned);
    var numStr := ExpandLetters(rearranged);
    var remainder := RollingRemainder(numStr);
    return remainder == 1;
  }

  lemma {:induction false} NumberConcat(a: string, c: char)
    requires AllAlnum(a) && IsAlnum(c)
    ensures AllAlnum(a + [c]) && Number(a + [c]) == Number(a) * Scale(c) + Code(c)
  {
    var s := a + [c];
    SharedPrefix(a, s, |a|);
  }

  /**
   * What stands for the number of country, check digits and account: the account
   * first, then the letters, then the digits.
   */
  function IsoNumber(account: string, first: char, second: char, check: nat): nat
    requires AllAlnum(account) && IsUpper(first) && IsUpper(second)
  {
    Number(account) * 1_000_000 + Code(first) * 10_000 + Code(second) * 100 + check
  }

  lemma {:induction false} RearrangedNumber(s: string)
    requires IbanFormat(s)
    ensures Number(Rearranged(s))
            == IsoNumber(s[4..], s[0], s[1], DigitValue(s[2]) * 10 + DigitValue(s[3]))
  {
    var account := s[4..];
    NumberConcat(account, s[0]);
    NumberConcat(account + [s[0]], s[1]);
    NumberConcat(account + [s[0]] + [s[1]], s[2]);
    NumberConcat(account + [s[0]] + [s[1]] + [s[2]], s[3]);
    assert Rearranged(s) == account + [s[0]] + [s[1]] + [s[2]] + [s[3]];
  }

  /** In plain numbers: an IBAN is accepted when account, country and check digits, in this order, leave 1 modulo 97. */
  lemma {:induction false} ValidIbanIff(s: string)
    ensures ValidIban(s) <==>
      && 15 <= |s| <= 34 && IsUpper(s[0]) && IsUpper(s[1]) && IsDigit(s[2]) && IsDigit(s[3]) && AllAlnum(s[4..])
      && IsoNumber(s[4..], s[0], s[1], DigitValue(s[2]) * 10 + DigitValue(s[3])) % 97 == 1
  {
    if 15 <= |s| <= 34 && IsUpper(s[0]) && IsUpper(s[1]) && IsDigit(s[2]) && IsDigit(s[3]) && AllAlnum(s[4..]) {
      forall i | 0 <= i < |s| ensures IsAlnum(s[i]) { if i >= 4 { assert s[i] == s[4..][i - 4]; } }
      assert IbanFormat(s);
    }
    if IbanFormat(s) {
      RearrangedNumber(s);
      hide Number, Rearranged, IsoNumber, Code;
      assert AllAlnum(s[4..]);
    }
  }

  /** The check digits ISO 13616 prescribes: what 98 exceeds the remainder of the number with 00 in their place by. */
  function CheckDigitsFor(account: string, first: char, second: char): (check: nat)
    requires AllAlnum(account) && IsUpper(first) && IsUpper(second)
    ensures 2 <= check <= 98
  {
    98 - IsoNumber(account, first, second, 0) % 97
  }

  /** Of the check digits from 02 to 98, exactly the prescribed ones make a valid IBAN. */
  lemma {:induction false} OnePairOfCheckDigits(s: string)
    requires 15 <= |s| <= 34 && IsUpper(s[0]) && IsUpper(s[1]) && IsDigit(s[2]) && IsDigit(s[3]) && AllAlnum(s[4..])
    requires 2 <= DigitValue(s[2]) * 10 + DigitValue(s[3]) <= 98
    ensures ValidIban(s) <==> DigitValue(s[2]) * 10 + DigitValue(s[3]) == CheckDigitsFor(s[4..], s[0], s[1])
  {
    ValidIbanIff(s);
    CheckIs(IsoNumber(s[4..], s[0], s[1], 0), DigitValue(s[2]) * 10 + DigitValue(s[3]));
  }

  lemma {:induction false} CheckIs(n: nat, check: nat)
    requires 2 <= check <= 98
    ensures (n + check) % 97 == 1 <==> check == 98 - n % 97
  {
    var k := n / 97;
    assert n == 97 * k + n % 97;
    MultiplesVanish(n % 97 + check, k);
  }

  /** From a valid IBAN, replacing one character by another of its kind is always rejected. */
  lemma {:induction false} IbanSubstitutionRejected(s: string, i: nat, c: char)
    requires ValidIban(s) && i < |s| && SameKind(s[i], c) && c != s[i]
    ensures !ValidIban(s[i := c])
  {
    var at := if i >= 4 then i - 4 else |s| - 4 + i;
    assert Rearranged(s[i := c]) == Rearranged(s)[at := c];
    SubstitutionNoticed(Rearranged(s), at, c);
  }

  /**
   * From a valid IBAN, exchanging two neighbours of the rearranged string survives
   * only if they are equal or ambiguous.
   */
  lemma {:induction false} IbanSwapAcceptedIff(s: string, s': string, i: nat)
    requires ValidIban(s) && IbanFormat(s') && |s'| == |s| && i + 1 < |s|
    requires Rearranged(s') == Swapped(Rearranged(s), i)
    ensures var r := Rearranged(s);
            ValidIban(s') <==> r[i] == r[i + 1] || Ambiguous(r[i], r[i + 1])
  {
    SwapUnnoticedIff(Rearranged(s), i);
  }

  // ---------------------------------------------------------------- Luhn

  /** A doubled digit, with 9 taken off when it overflows. */
  function Doubled(d: nat): nat {
    if 2 * d > 9 then 2 * d - 9 else 2 * d
  }

  /** What digit `i` of `s` adds: every second digit, counted from the right, is doubled. */
  function Weighted(s: string, i: nat): nat
    requires AllDigits(s) && i < |s|
  {
    var d := DigitValue(s[i]);
    if i % 2 == |s| % 2 then Doubled(d) else d
  }

  function LuhnSum(s: string, n: nat): nat
    requires AllDigits(s) && n <= |s|
  {
    if n == 0 then 0 else LuhnSum(s, n - 1) + Weighted(s, n - 1)
  }

  function DigitsOnly(value: string): (s: string)
    ensures AllDigits(s)
  {
    if value == "" then "" else
      DigitsOnly(value[..|value| - 1]) + (if IsDigit(value[|value| - 1]) then [value[|value| - 1]] else "")
  }

  predicate ValidCard(s: string) {
    13 <= |s| <= 19 && AllDigits(s) && LuhnSum(s, |s|) % 10 == 0
  }

  /** The bytes a character takes in UTF-8. */
  function Width(c: char): nat {
    var n := c as int; if n < 0x80 then 1 else if n < 0x800 then 2 else if n < 0x1_0000 then 3 else 4
  }

  /** One byte holds 7 bits of a character; `n` bytes, a leading one and `n - 1` others of 6 bits, hold `5 * n + 1`. */
  function Capacity(n: nat): nat { if n == 1 then 0x80 else if n <= 1 then 0 else Doublings(5 * n + 1) }

  function Doublings(n: nat): nat { if n == 0 then 1 else 2 * Doublings(n - 1) }

  /** A character takes as many bytes as its code needs, and no more. */
  lemma {:induction false} WidthSuffices(c: char)
    ensures 1 <= Width(c) <= 4 && Capacity(Width(c) - 1) <= c as int < Capacity(Width(c))
  {
    assert Doublings(11) == 0x800;
    assert Doublings(16) == 0x800 * 32 by { assert Doublings(14) == 8 * Doublings(11); }
    assert Doublings(21) == 0x800 * 1024 by { assert Doublings(19) == 8 * Doublings(16); }
  }

  /** Where character `n` of `s` starts, in bytes. */
  function Offset(s: string, n: nat): nat
    requires n <= |s|
  {
    if n == 0 then 0 else Offset(s, n - 1) + Width(s[n - 1])
  }

  /** What the library takes for digits: among the ASCII characters '0' to '9', elsewhere whatever it likes. */
  ghost predicate DigitTest(isDigit: char -> bool) {
    forall c: char | c < 128 as char :: isDigit(c) <==> IsDigit(c)
  }

  function Kept(value: string, isDigit: char -> bool): string {
    if value == "" then "" else
      var n := |value| - 1; Kept(value[..n], isDigit) + (if isDigit(value[n]) then [value[n]] else "")
  }

  predicate FromZeroOn(s: string) { forall i | 0 <= i < |s| :: s[i] >= '0' }

  /** What character `i` adds: its distance from '0', by the parity of its byte position. */
  function ByteWeighted(s: string, i: nat): nat
    requires FromZeroOn(s) && i < |s|
  {
    var d := s[i] as int - '0' as int;
    if Offset(s, i) % 2 == Offset(s, |s|) % 2 then Doubled(d) else d
  }

  function ByteSum(s: string, n: nat): nat
    requires FromZeroOn(s) && n <= |s|
  {
    if n == 0 then 0 else ByteSum(s, n - 1) + ByteWeighted(s, n - 1)
  }

  /** Length and parity are counted in bytes, and digits of other scripts weigh their distance from '0'. */
  predicate PassesLuhn(s: string) {
    13 <= Offset(s, |s|) <= 19 && FromZeroOn(s) && ByteSum(s, |s|) % 10 == 0
  }

  method ValidateLuhn(value: string, isDigit: char -> bool) returns (ok: bool)
    requires DigitTest(isDigit)
    ensures ok <==> PassesLuhn(Kept(value, isDigit))
    ensures (forall i | 0 <= i < |value| :: value[i] < 128 as char) ==> (ok <==> ValidCard(DigitsOnly(value)))
  {
    var digits, length := "", 0;
    for i := 0 to |value|
      invariant digits == Kept(value[..i], isDigit) && FromZeroOn(digits) && length == Offset(digits, |digits|)
    {
      assert value[..i + 1][..i] == value[..i];
      if isDigit(value[i]) {
        OffsetGrows(digits, value[i]);
        digits, length := digits + [value[i]], length + Width(value[i]);
      }
    }
    assert value[..|value|] == value;
    if forall i | 0 <= i < |value| :: value[i] < 128 as char {
      KeptIsDigitsOnly(value, isDigit);
      AsciiPassesIffValid(DigitsOnly(value));
    }
    if length < 13 || length > 19 { return false; }
    var sum, parity, at := 0, length % 2, 0;
    for i := 0 to |digits|
      invariant sum == ByteSum(digits, i) && at == Offset(digits, i)
    {
      var d := digits[i] as int - '0' as int;
      if at % 2 == parity {
        d := d * 2;
        if d > 9 { d := d - 9; }
      }
      sum, at := sum + d, at + Width(digits[i]);
    }
    return sum % 10 == 0;
  }

  lemma {:induction false} OffsetPrefix(s: string, s': string, n: nat)
    requires n <= |s| && s <= s'
    ensures Offset(s', n) == Offset(s, n)
  {
    if n > 0 { OffsetPrefix(s, s', n - 1); }
  }

  lemma {:induction false} OffsetGrows(s: string, c: char)
    ensures Offset(s + [c], |s| + 1) == Offset(s, |s|) + Width(c)
  {
    OffsetPrefix(s, s + [c], |s|);
  }

  lemma {:induction false} KeptIsDigitsOnly(value: string, isDigit: char -> bool)
    requires DigitTest(isDigit) && forall i | 0 <= i < |value| :: value[i] < 128 as char
    ensures Kept(value, isDigit) == DigitsOnly(value)
  {
    if value != "" { KeptIsDigitsOnly(value[..|value| - 1], isDigit); }
  }

  lemma {:induction false} AsciiOffset(s: string, n: nat)
    requires AllDigits(s) && n <= |s|
    ensures Offset(s, n) == n
  {
    if n > 0 { AsciiOffset(s, n - 1); }
  }

  lemma {:induction false} AsciiSum(s: string, n: nat)
    requires AllDigits(s) && n <= |s|
    ensures ByteSum(s, n) == LuhnSum(s, n)
  {
    if n > 0 {
      AsciiSum(s, n - 1);
      AsciiOffset(s, n - 1);
      AsciiOffset(s, |s|);
    }
  }

  /** On ASCII digits this is the checksum of card numbers. */
  lemma {:induction false} AsciiPassesIffValid(s: string)
    requires AllDigits(s)
    ensures PassesLuhn(s) <==> ValidCard(s)
  {
    AsciiOffset(s, |s|);
    AsciiSum(s, |s|);
  }

  /** The sum as one takes it by hand, from the right: the last digit plain, the next one doubled, and so on. */
  function HandSum(s: string, doubling: bool): nat
    requires AllDigits(s)
  {
    if s == "" then 0
    else
      var n := |s| - 1;
      var d := DigitValue(s[n]);
      HandSum(s[..n], !doubling) + (if !doubling then d else if d >= 5 then 2 * d - 9 else 2 * d)
  }

  lemma {:induction false} SumFromTheRight(s: string, n: nat)
    requires AllDigits(s) && n <= |s|
    ensures LuhnSum(s, n) == HandSum(s[..n], (|s| - n) % 2 == 1)
  {
    if n > 0 {
      SumFromTheRight(s, n - 1);
      assert s[..n][..n - 1] == s[..n - 1];
    }
  }

  /** A card number is valid when its 13 to 19 digits, summed from the right, give a multiple of ten. */
  lemma {:induction false} ValidCardIff(s: string)
    ensures ValidCard(s) <==> 13 <= |s| <= 19 && AllDigits(s) && HandSum(s, false) % 10 == 0
  {
    if AllDigits(s) {
      SumFromTheRight(s, |s|);
      assert s[..|s|] == s;
    }
  }

  /** Sums that differ only in the digits before `from`. */
  lemma {:induction false} LuhnTail(s: string, s': string, from: nat, n: nat)
    requires AllDigits(s) && AllDigits(s') && |s| == |s'| && from <= n <= |s|
    requires forall i | from <= i < n :: s[i] == s'[i]
    ensures LuhnSum(s', n) - LuhnSum(s, n) == LuhnSum(s', from) - LuhnSum(s, from)
  {
    if from < n { LuhnTail(s, s', from, n - 1); }
  }

  /** Every single-digit error in a valid card number is caught. */
  lemma {:induction false} CardSubstitutionRejected(s: string, i: nat, c: char)
    requires ValidCard(s) && i < |s| && IsDigit(c) && c != s[i]
    ensures !ValidCard(s[i := c])
  {
    var s' := s[i := c];
    LuhnTail(s, s', 0, i);
    LuhnTail(s, s', i + 1, |s|);
    assert LuhnSum(s', i + 1) == LuhnSum(s', i) + Weighted(s', i);
    assert LuhnSum(s, i + 1) == LuhnSum(s, i) + Weighted(s, i);
    DoubledDistinct(DigitValue(s[i]), DigitValue(c));
    SmallChange(LuhnSum(s, |s|), LuhnSum(s', |s|), Weighted(s', i) as int - Weighted(s, i));
  }

  lemma {:induction false} DoubledDistinct(d: nat, e: nat)
    requires d < 10 && e < 10 && d != e
    ensures Doubled(d) != Doubled(e) && -10 < (Doubled(e) as int) - Doubled(d) < 10
    ensures ((Doubled(e) as int) - Doubled(d)) % 10 != 0 && ((e as int) - d) % 10 != 0
  {
  }

  lemma {:induction false} SmallChange(a: nat, b: nat, x: int)
    requires a % 10 == 0 && b - a == x && -20 < x < 20
    ensures b % 10 == 0 <==> x % 10 == 0
  {
  }

  /** Exchanging two neighbouring digits is caught unless they are equal or 0 and 9. */
  lemma {:induction false} CardSwapAcceptedIff(s: string, i: nat)
    requires ValidCard(s) && i + 1 < |s|
    ensures ValidCard(Swapped(s, i))
            <==> s[i] == s[i + 1] || (s[i] == '0' && s[i + 1] == '9') || (s[i] == '9' && s[i + 1] == '0')
  {
    hide LuhnSum, Doubled, SwapChange, DigitValue;
    var s' := Swapped(s, i);
    LuhnTail(s, s', 0, i);
    LuhnTail(s, s', i + 2, |s|);
    LuhnPair(s, i);
    LuhnPair(s', i);
    var d, e := DigitValue(s[i]), DigitValue(s[i + 1]);
    assert LuhnSum(s, 0) == LuhnSum(s', 0) == 0 by { NoDigits(s); NoDigits(s'); }
    var x := if i % 2 == |s| % 2 then SwapChange(d, e) else SwapChange(e, d);
    SwapChangeIs(d, e);
    SwapChangeIs(e, d);
    SwapChangeIff(d, e);
    SwapChangeIff(e, d);
    DigitsDistinct(s[i], s[i + 1]);
    SmallChange(LuhnSum(s, |s|), LuhnSum(s', |s|), x);
  }

  lemma {:induction false} NoDigits(s: string)
    requires AllDigits(s)
    ensures LuhnSum(s, 0) == 0
  {
  }

  lemma {:induction false} LuhnPair(s: string, i: nat)
    requires AllDigits(s) && i + 1 < |s|
    ensures LuhnSum(s, i + 2) == LuhnSum(s, i) + Weighted(s, i) + Weighted(s, i + 1)
  {
    assert LuhnSum(s, i + 2) == LuhnSum(s, i + 1) + Weighted(s, i + 1);
  }

  lemma {:induction false} SwapChangeIs(d: nat, e: nat)
    requires d < 10 && e < 10
    ensures SwapChange(d, e) == Doubled(e) + d - (Doubled(d) + e)
  {
  }

  lemma {:induction false} DigitsDistinct(c: char, d: char)
    requires IsDigit(c) && IsDigit(d)
    ensures DigitValue(c) == DigitValue(d) <==> c == d
    ensures DigitValue(c) == 0 <==> c == '0'
    ensures DigitValue(c) == 9 <==> c == '9'
    ensures DigitValue(d) == 0 <==> d == '0'
    ensures DigitValue(d) == 9 <==> d == '9'
  {
  }

  /** The change in weight when `d` (doubled) and `e` (plain) trade places. */
  function SwapChange(d: nat, e: nat): int
    requires d < 10 && e < 10
  {
    Doubled(e) + d - (Doubled(d) + e)
  }

  lemma {:induction false} SwapChangeIff(d: nat, e: nat)
    requires d < 10 && e < 10
    ensures -20 < SwapChange(d, e) < 20
    ensures SwapChange(d, e) % 10 == 0 <==> d == e || (d == 0 && e == 9) || (d == 9 && e == 0)
  {
  }
}

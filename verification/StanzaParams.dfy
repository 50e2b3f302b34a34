/**
 * The argon2id stanza: printing its parameters, parsing them, and wrapping and
 * unwrapping a file key.
 */
module StanzaParams {
  import opened Wrappers
  import opened Texts
  import opened Decimals

  const WORD := 0x1_0000_0000

  datatype Params = Params(time: nat, memory: nat, threads: nat)

  /** What the fields of the source's type can hold: two 32-bit words and a byte. */
  predicate Fits(p: Params) { p.time < WORD && p.memory < WORD && p.threads <= 255 }

  datatype Error = BadNumber | BadFormat | UnknownKey | TooManyThreads | Incomplete

  // ---------------------------------------------------------------- numbers

  /** `parseUint32`: the digits' value, wrapped around at 32 bits. */
  method ParseUint32(s: string) returns (r: Result<nat, Error>)
    ensures r == Number(s)
    ensures r.Success? <==> AllDigits(s)
    ensures r.Success? ==> r.value == DecValue(s) % 0x1_0000_0000
  {
    var n := 0;
    for i := 0 to |s|
      invariant AllDigits(s[..i]) && n == DecValue(s[..i]) % WORD
    {
      if !IsDigit(s[i]) { return Failure(BadNumber); }
      assert s[..i + 1][..i] == s[..i];
      WrapStep(n, DecValue(s[..i]), DigitValue(s[i]));
      n := (n * 10 % WORD + DigitValue(s[i])) % WORD;
    }
    assert s[..|s|] == s;
    return Success(n);
  }

  function Number(s: string): Result<nat, Error> {
    if AllDigits(s) then Success(DecValue(s) % WORD) else Failure(BadNumber)
  }

  lemma {:induction false} WrapStep(n: nat, v: nat, d: nat)
    requires n == v % WORD
    ensures (n * 10 % WORD + d) % WORD == (v * 10 + d) % WORD
  {
    var q := v / WORD;
    assert v * 10 + d == n * 10 + d + WORD * (10 * q);
    var k := n * 10 / WORD;
    assert n * 10 % WORD + d + WORD * (k + 10 * q) == v * 10 + d;
    AddedWords(n * 10 % WORD + d, k + 10 * q);
  }

  lemma {:induction false} AddedWords(x: nat, k: nat)
    ensures (x + WORD * k) % WORD == x % WORD
  {
  }

  // ---------------------------------------------------------------- printing and parsing

  /** `t=…,m=…,p=…` */
  function Print(time: nat, memory: nat, threads: nat): string {
    PrintedPart('t', time) + "," + PrintedPart('m', memory) + "," + PrintedPart('p', threads)
  }

  function PrintedPart(key: char, n: nat): string { [key] + "=" + Decimal(n) }

  predicate IsSpace(c: char) { c in " \t\n\r\U{0B}\U{0C}" }

  /** `strings.TrimSpace`, on ASCII text. */
  function TrimSpace(s: string): string {
    if s != "" && IsSpace(s[0]) then TrimSpace(s[1..])
    else if s != "" && IsSpace(s[|s| - 1]) then TrimSpace(s[..|s| - 1])
    else s
  }

  /** One `key=value` part, over the parameters read so far. */
  function ParsePart(params: Params, text: string): Result<Params, Error> {
    var part := TrimSpace(text);
    if |part| < 3 || part[1] != '=' then Failure(BadFormat)
    else
      var key, val := part[0], Number(part[2..]);
      if key != 't' && key != 'm' && key != 'p' then Failure(UnknownKey)
      else match val
        case Failure(e) => Failure(e)
        case Success(n) =>
          if key == 't' then Success(params.(time := n))
          else if key == 'm' then Success(params.(memory := n))
          else if n > 255 then Failure(TooManyThreads)
          else Success(params.(threads := n))
  }

  function ParseParts(params: Params, parts: seq<string>): Result<Params, Error>
    decreases parts
  {
    if parts == [] then Success(params)
    else match ParsePart(params, parts[0])
      case Failure(e) => Failure(e)
      case Success(next) => ParseParts(next, parts[1..])
  }

  function Complete(params: Params): Result<Params, Error> {
    if params.time == 0 || params.memory == 0 || params.threads == 0 then Failure(Incomplete) else Success(params)
  }

  const NONE := Params(0, 0, 0)

  function Parse(s: string): Result<Params, Error> {
    match ParseParts(NONE, SplitOn(',', s))
    case Failure(e) => Failure(e)
    case Success(params) => Complete(params)
  }

  /** `parseArgon2idParams` */
  method ParseArgon2idParams(s: string) returns (r: Result<Params, Error>)
    ensures r == Parse(s)
  {
    var params := NONE;
    var parts := SplitOn(',', s);
    for i := 0 to |parts|
      invariant ParseParts(NONE, parts) == ParseParts(params, parts[i..])
    {
      var part := TrimSpace(parts[i]);
      assert parts[i..][1..] == parts[i + 1..];
      if |part| < 3 || part[1] != '=' { return Failure(BadFormat); }
      var key, val := part[0], part[2..];
      if key == 't' {
        var n := ParseUint32(val);
        if n.Failure? { return Failure(n.error); }
        params := params.(time := n.value);
      } else if key == 'm' {
        var n := ParseUint32(val);
        if n.Failure? { return Failure(n.error); }
        params := params.(memory := n.value);
      } else if key == 'p' {
        var tp := ParseUint32(val);
        if tp.Failure? { return Failure(tp.error); }
        if tp.value > 255 { return Failure(TooManyThreads); }
        params := params.(threads := tp.value);
      } else {
        return Failure(UnknownKey);
      }
    }
    assert parts[|parts|..] == [];
    return Complete(params);
  }

  /** White space around a part makes no difference. */
  lemma {:induction false} PaddingIgnored(a: string, s: string, b: string)
    requires forall i | 0 <= i < |a| :: a[i] in {' ', '\t', '\n', '\r', '\U{0B}', '\U{0C}'}
    requires forall i | 0 <= i < |b| :: b[i] in {' ', '\t', '\n', '\r', '\U{0B}', '\U{0C}'}
    requires s != "" && s[0] > ' ' && s[|s| - 1] > ' '
    ensures TrimSpace(a + s + b) == s
    decreases |a| + |b|
  {
    var text := a + s + b;
    if a != "" {
      assert text[0] == a[0] && text[1..] == a[1..] + s + b;
      PaddingIgnored(a[1..], s, b);
    } else if b != "" {
      var n := |b| - 1;
      assert text[0] == s[0] && text[|text| - 1] == b[n] && text[..|text| - 1] == a + s + b[..n];
      PaddingIgnored(a, s, b[..n]);
    } else {
      assert text == s;
    }
  }

  /** A part that is read has a known key and decimal digits. */
  predicate WellPut(text: string) {
    var part := TrimSpace(text);
    |part| >= 3 && part[0] in {'t', 'm', 'p'} && part[1] == '=' && AllDigits(part[2..])
  }

  lemma {:induction false} PartsWellPut(params: Params, parts: seq<string>)
    requires ParseParts(params, parts).Success? && Fits(params)
    ensures Fits(ParseParts(params, parts).value) && forall i | 0 <= i < |parts| :: WellPut(parts[i])
    decreases parts
  {
    if parts != [] {
      assert WellPut(parts[0]);
      PartsWellPut(ParsePart(params, parts[0]).value, parts[1..]);
      assert forall i | 1 <= i < |parts| :: parts[i] == parts[1..][i - 1];
    }
  }

  /** What parses is well put, part by part, and gives parameters in range, none of them zero. */
  lemma {:induction false} ParsedIsSound(s: string)
    requires Parse(s).Success?
    ensures forall i | 0 <= i < |SplitOn(',', s)| :: WellPut(SplitOn(',', s)[i])
    ensures var p := Parse(s).value;
            1 <= p.time < 0x1_0000_0000 && 1 <= p.memory < 0x1_0000_0000 && 1 <= p.threads <= 255
  {
    hide SplitOn, ParseParts;
    PartsWellPut(NONE, SplitOn(',', s));
  }

  /** A printed part parses to its number, wrapped. */
  lemma {:induction false} PartParses(params: Params, key: char, n: nat)
    requires key in "tmp"
    ensures var text := PrintedPart(key, n);
            && Free(',', text)
            && ParsePart(params, text) ==
               if key == 't' then Success(params.(time := n % WORD))
               else if key == 'm' then Success(params.(memory := n % WORD))
               else if n % WORD > 255 then Failure(TooManyThreads)
               else Success(params.(threads := n % WORD))
  {
    var text := PrintedPart(key, n);
    assert text[2..] == Decimal(n);
    assert text[|text| - 1] == Decimal(n)[|Decimal(n)| - 1];
    assert !IsSpace(text[0]) && !IsSpace(text[|text| - 1]);
    forall i | 0 <= i < |text| ensures text[i] != ',' { if i >= 2 { assert text[i] == Decimal(n)[i - 2]; } }
  }

  lemma {:induction false} SplitPrinted(time: nat, memory: nat, threads: nat)
    ensures SplitOn(',', Print(time, memory, threads))
            == [PrintedPart('t', time), PrintedPart('m', memory), PrintedPart('p', threads)]
  {
    hide PrintedPart, SplitOn, ParsePart;
    var t, m, p := PrintedPart('t', time), PrintedPart('m', memory), PrintedPart('p', threads);
    PartParses(NONE, 't', time);
    PartParses(NONE, 'm', memory);
    PartParses(NONE, 'p', threads);
    assert Print(time, memory, threads) == t + [','] + (m + [','] + p);
    SplitAtSep(',', t, m + [','] + p);
    SplitAtSep(',', m, p);
    SplitAtSep(',', p, "");
  }

  lemma {:induction false} ThreeParts(params: Params, t: string, m: string, p: string)
    ensures ParseParts(params, [t, m, p]) ==
      match ParsePart(params, t)
      case Failure(e) => Failure(e)
      case Success(one) =>
        match ParsePart(one, m)
        case Failure(e) => Failure(e)
        case Success(two) => ParsePart(two, p)
  {
    hide ParsePart;
    assert [t, m, p][1..] == [m, p] && [m, p][1..] == [p] && [p][1..] == [];
    assert forall q: Params :: ParseParts(q, []) == Success(q);
    assert forall q: Params :: ParseParts(q, [p]) == ParsePart(q, p);
  }

  /**
   * What parsing makes of any three printed numbers: it wraps them at 32 bits, then checks the threads
   * and that none is zero.
   */
  lemma {:induction false} ParsePrinted(time: nat, memory: nat, threads: nat)
    ensures Parse(Print(time, memory, threads)) ==
      if threads % WORD > 255 then Failure(TooManyThreads)
      else Complete(Params(time % WORD, memory % WORD, threads % WORD))
  {
    hide SplitOn, Print, PrintedPart, ParsePart, ParseParts;
    SplitPrinted(time, memory, threads);
    var one := NONE.(time := time % WORD);
    var two := one.(memory := memory % WORD);
    PartParses(NONE, 't', time);
    PartParses(one, 'm', memory);
    PartParses(two, 'p', threads);
    ThreeParts(NONE, PrintedPart('t', time), PrintedPart('m', memory), PrintedPart('p', threads));
  }

  /** The printed parameters parse back to themselves exactly when none of them is zero. */
  lemma {:induction false} RoundTripIff(p: Params)
    requires Fits(p)
    ensures Parse(Print(p.time, p.memory, p.threads)) == Success(p) <==> p.time != 0 && p.memory != 0 && p.threads != 0
  {
    ParsePrinted(p.time, p.memory, p.threads);
  }

  // ---------------------------------------------------------------- wrapping a file key

  type Bytes = seq<nat>

  datatype Stanza = Stanza(kind: string, args: seq<string>, body: Bytes)

  /** The primitives: password hashing and key expansion, authenticated encryption, and base64. */
  datatype Crypto = Crypto(
    derive: (string, Bytes, Params) -> Bytes,
    seal: (Bytes, Bytes, Bytes) -> Bytes,
    open: (Bytes, Bytes, Bytes) -> Option<Bytes>,
    encode: Bytes -> string,
    decode: string -> Option<Bytes>)

  /** What was sealed opens to what was sealed, and nothing else opens; base64 is lossless. */
  ghost predicate Ideal(lib: Crypto) {
    && (forall k, n, c, x :: lib.open(k, n, c) == Some(x) <==> c == lib.seal(k, n, x))
    && (forall b :: lib.decode(lib.encode(b)) == Some(b))
  }

  const NONCE_SIZE := 12

  datatype WrapError = KdfRefuses | NoMatchingStanza

  /** `Wrap`: argon2 takes any memory, but panics without a pass or a thread. */
  method Wrap(lib: Crypto, passphrase: string, params: Params, fileKey: Bytes, salt: Bytes, nonce: Bytes)
    returns (r: Result<seq<Stanza>, WrapError>)
    requires Fits(params) && |nonce| == 12
    ensures r.Success? ==>
              && |r.value| == 1 && r.value[0].kind == "argon2id" && |r.value[0].args| == 2
              && r.value[0].args[0] == lib.encode(salt) && nonce <= r.value[0].body
              && r.value[0].args[1]
                 == "t=" + Decimal(params.time) + ",m=" + Decimal(params.memory) + ",p=" + Decimal(params.threads)
    ensures r.Success? <==> params.time != 0 && params.threads != 0
    ensures r.Success? ==> r.value == [Wrapped(lib, passphrase, params, fileKey, salt, nonce)]
  {
    if params.time == 0 || params.threads == 0 { return Failure(KdfRefuses); }
    var wrapKey := lib.derive(passphrase, salt, params);
    var body := nonce + lib.seal(wrapKey, nonce, fileKey);
    var printed := Print(params.time, params.memory, params.threads);
    return Success([Stanza("argon2id", [lib.encode(salt), printed], body)]);
  }

  function Wrapped(lib: Crypto, passphrase: string, params: Params, fileKey: Bytes, salt: Bytes, nonce: Bytes): Stanza {
    Stanza("argon2id", [lib.encode(salt), Print(params.time, params.memory, params.threads)],
           nonce + lib.seal(lib.derive(passphrase, salt, params), nonce, fileKey))
  }

  /** The file key in one stanza, if this passphrase opens it. */
  function Opens(lib: Crypto, passphrase: string, s: Stanza): Option<Bytes> {
    if s.kind != "argon2id" || |s.args| < 2 || |s.body| < NONCE_SIZE then None
    else match lib.decode(s.args[0])
      case None => None
      case Some(salt) =>
        match Parse(s.args[1])
        case Failure(_) => None
        case Success(params) => lib.open(lib.derive(passphrase, salt, params), s.body[..NONCE_SIZE],
            s.body[NONCE_SIZE..])
  }

  /** The first of the stanzas that opens. */
  function FirstOpened(lib: Crypto, passphrase: string, stanzas: seq<Stanza>): Option<Bytes> {
    if stanzas == [] then None
    else if Opens(lib, passphrase, stanzas[0]).Some? then Opens(lib, passphrase, stanzas[0])
    else FirstOpened(lib, passphrase, stanzas[1..])
  }

  /** `Unwrap`: stanzas of another type, or that do not parse or open, are skipped. */
  method Unwrap(lib: Crypto, passphrase: string, stanzas: seq<Stanza>) returns (r: Result<Bytes, WrapError>)
    ensures r == match FirstOpened(lib, passphrase, stanzas)
                 case Some(fileKey) => Success(fileKey)
                 case None => Failure(NoMatchingStanza)
  {
    for i := 0 to |stanzas|
      invariant FirstOpened(lib, passphrase, stanzas) == FirstOpened(lib, passphrase, stanzas[i..])
    {
      var s := stanzas[i];
      assert stanzas[i..][0] == s && stanzas[i..][1..] == stanzas[i + 1..];
      if s.kind != "argon2id" { continue; }
      if |s.args| < 2 { continue; }
      var salt := lib.decode(s.args[0]);
      if salt.None? { continue; }
      var params := ParseArgon2idParams(s.args[1]);
      if params.Failure? { continue; }
      var wrapKey := lib.derive(passphrase, salt.value, params.value);
      if |s.body| < NONCE_SIZE { continue; }
      var nonce, ciphertext := s.body[..NONCE_SIZE], s.body[NONCE_SIZE..];
      var fileKey := lib.open(wrapKey, nonce, ciphertext);
      if fileKey.None? { continue; }
      return Success(fileKey.value);
    }
    return Failure(NoMatchingStanza);
  }

  /**
   * The wrapped key opens, and to the key that was wrapped, exactly when the
   * memory parameter is not zero: with zero memory wrapping succeeds, and the
   * stanza can never be opened again, by any passphrase.
   */
  lemma {:induction false} OpensWrappedIff(lib: Crypto, passphrase: string, params: Params, fileKey: Bytes,
          salt: Bytes, nonce: Bytes, other: string)
    requires Ideal(lib) && Fits(params) && |nonce| == NONCE_SIZE
    requires params.time != 0 && params.threads != 0
    ensures Opens(lib, passphrase, Wrapped(lib, passphrase, params, fileKey, salt, nonce)) == Some(fileKey)
            <==> params.memory != 0
    ensures params.memory == 0 ==> Opens(lib, other, Wrapped(lib, passphrase, params, fileKey, salt, nonce)).None?
  {
    hide Parse, Print;
    var s := Wrapped(lib, passphrase, params, fileKey, salt, nonce);
    ParsePrinted(params.time, params.memory, params.threads);
    assert s.body[..NONCE_SIZE] == nonce
        && s.body[NONCE_SIZE..] == lib.seal(lib.derive(passphrase, salt, params), nonce, fileKey);
  }

  lemma {:induction false} SkipsUnopened(lib: Crypto, passphrase: string, before: seq<Stanza>, s: Stanza,
          after: seq<Stanza>)
    requires forall i | 0 <= i < |before| :: Opens(lib, passphrase, before[i]).None?
    requires Opens(lib, passphrase, s).Some?
    ensures FirstOpened(lib, passphrase, before + [s] + after) == Opens(lib, passphrase, s)
  {
    hide Opens;
    if before != [] {
      assert (before + [s] + after)[1..] == before[1..] + [s] + after;
      SkipsUnopened(lib, passphrase, before[1..], s, after);
    }
  }

  /**
   * Among stanzas this passphrase does not open, unwrapping finds the wrapped key,
   * unless its memory parameter is zero.
   */
  lemma {:induction false} UnwrapAfterWrap(lib: Crypto, passphrase: string, params: Params, fileKey: Bytes, salt: Bytes,
                                           nonce: Bytes, before: seq<Stanza>, after: seq<Stanza>)
    requires Ideal(lib) && Fits(params) && |nonce| == NONCE_SIZE
    requires params.time != 0 && params.memory != 0 && params.threads != 0
    requires forall i | 0 <= i < |before| :: Opens(lib, passphrase, before[i]).None?
    ensures var s := Wrapped(lib, passphrase, params, fileKey, salt, nonce);
            FirstOpened(lib, passphrase, before + [s] + after) == Some(fileKey)
  {
    hide Opens, Wrapped, FirstOpened;
    OpensWrappedIff(lib, passphrase, params, fileKey, salt, nonce, passphrase);
    SkipsUnopened(lib, passphrase, before, Wrapped(lib, passphrase, params, fileKey, salt, nonce), after);
  }
}

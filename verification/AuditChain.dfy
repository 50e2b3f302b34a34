/**
 * The HMAC chain of the audit log, with entries seen as the verifier sees them:
 * a stored MAC and the message it should authenticate. What a verifier can tell
 * about a log that was edited, reordered or cut.
 */
module AuditChain {
  import opened ByteLines

  /** A MAC under one fixed key, of (previous MAC, message); the previous MAC is empty when there is none. */
  type Mac = (Bytes, Bytes) -> Bytes

  ghost predicate Opens(mac: Mac, inputs: Bytes -> (Bytes, Bytes)) {
    forall prev, m :: inputs(mac(prev, m)) == (prev, m)
  }

  /** An ideal MAC: never empty, and it determines what it was computed from. */
  ghost predicate IdealMac(mac: Mac) {
    && (forall prev, m :: mac(prev, m) != [])
    && (exists inputs :: Opens(mac, inputs))
  }

  lemma {:induction false} MacInjective(mac: Mac, prev: Bytes, m: Bytes, prev': Bytes, m': Bytes)
    requires IdealMac(mac) && mac(prev, m) == mac(prev', m')
    ensures prev == prev' && m == m'
  {
    var inputs :| Opens(mac, inputs);
    assert inputs(mac(prev, m)) == (prev, m) && inputs(mac(prev', m')) == (prev', m');
  }

  function Ones(n: nat): Bytes { if n == 0 then [] else [1] + Ones(n - 1) }

  function LeadingOnes(d: Bytes): (n: nat)
    ensures n <= |d|
  {
    if d != [] && d[0] == 1 then 1 + LeadingOnes(d[1..]) else 0
  }

  lemma {:induction false} LeadingOnesOf(n: nat, rest: Bytes)
    ensures |Ones(n)| == n && LeadingOnes(Ones(n) + [0] + rest) == n
  {
    if n == 0 {
      assert Ones(0) + [0] + rest == [0] + rest;
    } else {
      assert (Ones(n) + [0] + rest)[1..] == Ones(n - 1) + [0] + rest;
      LeadingOnesOf(n - 1, rest);
    }
  }

  /** The idealisation can be met: a MAC that spells out its inputs, the first with its length in front. */
  lemma {:induction false} IdealMacExists() returns (mac: Mac)
    ensures IdealMac(mac)
  {
    mac := (prev: Bytes, m: Bytes) => Ones(|prev|) + [0] + prev + m;
    var inputs := (d: Bytes) =>
      var n := LeadingOnes(d);
      if 2 * n + 1 <= |d| then (d[n + 1..2 * n + 1], d[2 * n + 1..]) else ([], []);
    forall prev: Bytes, m: Bytes ensures mac(prev, m) != [] && inputs(mac(prev, m)) == (prev, m) {
      LeadingOnesOf(|prev|, prev + m);
      assert mac(prev, m) == Ones(|prev|) + [0] + (prev + m);
    }
    assert Opens(mac, inputs);
  }

  /** The `hmac` field of an entry: empty, not hex, or hex for some bytes. */
  datatype Stored = Absent | Garbled | Digest(bytes: Bytes)

  datatype Record = Record(stored: Stored, message: Bytes)

  // ---------------------------------------------------------------- verifying

  datatype Verdict = Unsealed | Genuine | Forged

  datatype VerifyResult = VerifyResult(
    valid: bool, total: nat, verified: nat, legacy: nat, tampered: nat, firstBadIdx: int)

  /** What the verifier says of one entry when `prev` is the last MAC it trusts. */
  function Judge(mac: Mac, prev: Bytes, r: Record): Verdict {
    match r.stored
    case Absent => Unsealed
    case Garbled => Forged
    case Digest(d) => if d == mac(prev, r.message) then Genuine else Forged
  }

  /** The MAC the verifier trusts when it reaches entry `i`; empty when there is none. */
  function Trusted(mac: Mac, log: seq<Record>, i: nat): Bytes
    requires i <= |log|
  {
    if i == 0 then [] else
      var prev := Trusted(mac, log, i - 1);
      match Judge(mac, prev, log[i - 1])
      case Unsealed => []
      case Genuine => log[i - 1].stored.bytes
      case Forged => prev
  }

  function VerdictAt(mac: Mac, log: seq<Record>, i: nat): Verdict
    requires i < |log|
  {
    Judge(mac, Trusted(mac, log, i), log[i])
  }

  /** How many of the first `n` entries get verdict `v`. */
  function CountVerdicts(mac: Mac, log: seq<Record>, n: nat, v: Verdict): nat
    requires n <= |log|
  {
    if n == 0 then 0
    else CountVerdicts(mac, log, n - 1, v) + (if VerdictAt(mac, log, n - 1) == v then 1 else 0)
  }

  /** `r` is the report on the first `n` entries: the count of each verdict, and the first forged index. */
  ghost predicate ReportsUpTo(mac: Mac, log: seq<Record>, n: nat, r: VerifyResult)
    requires n <= |log|
  {
    && r.total == |log|
    && r.verified == CountVerdicts(mac, log, n, Genuine)
    && r.legacy == CountVerdicts(mac, log, n, Unsealed)
    && r.tampered == CountVerdicts(mac, log, n, Forged)
    && (r.valid <==> r.firstBadIdx == -1)
    && (r.valid ==> forall i | 0 <= i < n :: VerdictAt(mac, log, i) != Forged)
    && (!r.valid ==> 0 <= r.firstBadIdx < n
                     && VerdictAt(mac, log, r.firstBadIdx) == Forged
                     && forall i | 0 <= i < r.firstBadIdx :: VerdictAt(mac, log, i) != Forged)
  }

  ghost predicate Reports(mac: Mac, log: seq<Record>, r: VerifyResult) {
    ReportsUpTo(mac, log, |log|, r)
  }

  /** The report `r` after one more entry, at index `i`, with verdict `v`. */
  function Tallied(r: VerifyResult, i: nat, v: Verdict): VerifyResult {
    match v
    case Unsealed => r.(legacy := r.legacy + 1)
    case Genuine => r.(verified := r.verified + 1)
    case Forged =>
      r.(tampered := r.tampered + 1, valid := false, firstBadIdx := if r.firstBadIdx < 0 then i else r.firstBadIdx)
  }

  lemma {:induction false} ReportGrows(mac: Mac, log: seq<Record>, i: nat, r: VerifyResult)
    requires i < |log| && ReportsUpTo(mac, log, i, r)
    ensures ReportsUpTo(mac, log, i + 1, Tallied(r, i, VerdictAt(mac, log, i)))
  {
  }

  lemma {:induction false} VerdictsPartition(mac: Mac, log: seq<Record>, n: nat)
    requires n <= |log|
    ensures CountVerdicts(mac, log, n, Genuine) + CountVerdicts(mac, log, n, Unsealed)
            + CountVerdicts(mac, log, n, Forged) == n
  {
    if n > 0 { VerdictsPartition(mac, log, n - 1); }
  }

  /** The first `n` entries all verify. */
  ghost predicate CleanUpTo(mac: Mac, log: seq<Record>, n: nat)
    requires n <= |log|
  {
    forall i | 0 <= i < n :: VerdictAt(mac, log, i) == Genuine
  }

  ghost predicate Clean(mac: Mac, log: seq<Record>) {
    CleanUpTo(mac, log, |log|)
  }

  /** The report a reader hopes for. */
  function CleanReport(n: nat): VerifyResult { VerifyResult(true, n, n, 0, 0, -1) }

  lemma {:induction false} CountAll(mac: Mac, log: seq<Record>, n: nat)
    requires n <= |log|
    ensures CountVerdicts(mac, log, n, Genuine) <= n
    ensures CountVerdicts(mac, log, n, Genuine) == n <==> CleanUpTo(mac, log, n)
  {
    if n > 0 {
      CountAll(mac, log, n - 1);
      assert CleanUpTo(mac, log, n) <==> CleanUpTo(mac, log, n - 1) && VerdictAt(mac, log, n - 1) == Genuine;
    }
  }

  /** A report says "all verified" exactly when every entry is genuine. */
  lemma {:induction false} CleanIffReport(mac: Mac, log: seq<Record>, r: VerifyResult)
    requires Reports(mac, log, r)
    ensures Clean(mac, log) <==> r == CleanReport(|log|)
    ensures Clean(mac, log) <==> r.verified == |log|
  {
    CountAll(mac, log, |log|);
    VerdictsPartition(mac, log, |log|);
  }

  // ---------------------------------------------------------------- the chain

  /** The MAC before entry `i` of an unbroken chain over the messages of `log`. */
  function ChainMac(mac: Mac, log: seq<Record>, i: nat): Bytes
    requires i <= |log|
  {
    if i == 0 then [] else mac(ChainMac(mac, log, i - 1), log[i - 1].message)
  }

  /** Entry `i` stores the MAC that follows from all entries up to it. */
  ghost predicate Linked(mac: Mac, log: seq<Record>, i: nat)
    requires i < |log|
  {
    log[i].stored == Digest(ChainMac(mac, log, i + 1))
  }

  ghost predicate ChainedUpTo(mac: Mac, log: seq<Record>, n: nat)
    requires n <= |log|
  {
    forall i | 0 <= i < n :: Linked(mac, log, i)
  }

  ghost predicate Chained(mac: Mac, log: seq<Record>) {
    ChainedUpTo(mac, log, |log|)
  }

  /** The verifier passes a log exactly as far as it is one unbroken chain. */
  lemma {:induction false} CleanIffChained(mac: Mac, log: seq<Record>, n: nat)
    requires n <= |log|
    ensures CleanUpTo(mac, log, n) <==> ChainedUpTo(mac, log, n)
    ensures CleanUpTo(mac, log, n) ==> Trusted(mac, log, n) == ChainMac(mac, log, n)
  {
    if n > 0 {
      CleanIffChained(mac, log, n - 1);
      assert CleanUpTo(mac, log, n) <==> CleanUpTo(mac, log, n - 1) && VerdictAt(mac, log, n - 1) == Genuine;
      assert ChainedUpTo(mac, log, n) <==>
        ChainedUpTo(mac, log, n - 1) && Linked(mac, log, n - 1);
    }
  }

  /** Logs that share their first `n` entries share everything the verifier computes from them. */
  lemma {:induction false} SharedPrefix(mac: Mac, log: seq<Record>, log': seq<Record>, n: nat)
    requires n <= |log| && n <= |log'| && forall j | 0 <= j < n :: log[j] == log'[j]
    ensures Trusted(mac, log, n) == Trusted(mac, log', n)
    ensures ChainMac(mac, log, n) == ChainMac(mac, log', n)
    ensures CleanUpTo(mac, log, n) <==> CleanUpTo(mac, log', n)
  {
    if n > 0 {
      SharedPrefix(mac, log, log', n - 1);
      assert CleanUpTo(mac, log, n) <==> CleanUpTo(mac, log, n - 1) && VerdictAt(mac, log, n - 1) == Genuine;
      assert CleanUpTo(mac, log', n) <==> CleanUpTo(mac, log', n - 1) && VerdictAt(mac, log', n - 1) == Genuine;
    }
  }

  /** Any prefix of a clean log is clean, so a log cut at the end still verifies. */
  lemma {:induction false} PrefixOfClean(mac: Mac, log: seq<Record>, k: nat)
    requires k <= |log| && Clean(mac, log)
    ensures Clean(mac, log[..k])
  {
    SharedPrefix(mac, log, log[..k], k);
  }

  /** The MACs of one chain are pairwise distinct, and differ from "no MAC". */
  lemma {:induction false} ChainMacsDistinct(mac: Mac, log: seq<Record>, i: nat, j: nat)
    requires IdealMac(mac) && i < j <= |log|
    ensures ChainMac(mac, log, i) != ChainMac(mac, log, j)
  {
    if i > 0 && ChainMac(mac, log, i) == ChainMac(mac, log, j) {
      MacInjective(mac, ChainMac(mac, log, i - 1), log[i - 1].message, ChainMac(mac, log, j - 1), log[j - 1].message);
      ChainMacsDistinct(mac, log, i - 1, j - 1);
    }
  }

  /** Extending a chain by an entry sealed under its last MAC. */
  lemma {:induction false} ChainExtends(mac: Mac, log: seq<Record>, r: Record)
    requires Chained(mac, log) && r.stored == Digest(mac(ChainMac(mac, log, |log|), r.message))
    ensures Chained(mac, log + [r])
    ensures ChainMac(mac, log + [r], |log| + 1) == r.stored.bytes
  {
    forall j | 0 <= j <= |log| ensures ChainMac(mac, log + [r], j) == ChainMac(mac, log, j) {
      SharedPrefix(mac, log, log + [r], j);
    }
    forall j | 0 <= j < |log| + 1 ensures Linked(mac, log + [r], j) {
      if j < |log| { assert Linked(mac, log, j); }
    }
  }

  // ---------------------------------------------------------------- tampering

  /** The report on a log that is clean up to `k` and forged from there on. */
  function BrokenReport(n: nat, k: nat): VerifyResult
    requires k < n
  {
    VerifyResult(false, n, k, 0, n - k, k)
  }

  /** Once the verifier holds a MAC under which every later entry is forged, it stays there. */
  lemma {:induction false} Stuck(mac: Mac, log: seq<Record>, k: nat, n: nat)
    requires k <= n <= |log| && CleanUpTo(mac, log, k)
    requires forall j | k <= j < n :: Judge(mac, Trusted(mac, log, k), log[j]) == Forged
    ensures Trusted(mac, log, n) == Trusted(mac, log, k)
    ensures CountVerdicts(mac, log, n, Genuine) == k
    ensures CountVerdicts(mac, log, n, Unsealed) == 0
    ensures CountVerdicts(mac, log, n, Forged) == n - k
  {
    if n == k {
      CountAll(mac, log, n);
      VerdictsPartition(mac, log, n);
    } else {
      Stuck(mac, log, k, n - 1);
    }
  }

  lemma {:induction false} StuckReport(mac: Mac, log: seq<Record>, k: nat, r: VerifyResult)
    requires k < |log| && CleanUpTo(mac, log, k)
    requires forall j | k <= j < |log| :: Judge(mac, Trusted(mac, log, k), log[j]) == Forged
    requires Reports(mac, log, r)
    ensures r == BrokenReport(|log|, k)
  {
    Stuck(mac, log, k, |log|);
    assert VerdictAt(mac, log, k) == Forged;
  }

  /** An entry of a chain is forged wherever the verifier trusts anything but its predecessor's MAC. */
  lemma {:induction false} OutOfPlaceIsForged(mac: Mac, log: seq<Record>, j: nat, prev: Bytes)
    requires IdealMac(mac) && Chained(mac, log) && j < |log|
    requires prev != ChainMac(mac, log, j)
    ensures Judge(mac, prev, log[j]) == Forged
  {
    assert Linked(mac, log, j);
    if mac(prev, log[j].message) == ChainMac(mac, log, j + 1) {
      MacInjective(mac, prev, log[j].message, ChainMac(mac, log, j), log[j].message);
    }
  }

  /** Editing the message of entry `i` under its old MAC condemns it and every later entry. */
  lemma {:induction false} EditedRecordDetected(mac: Mac, log: seq<Record>, i: nat, edited: Record, r: VerifyResult)
    requires IdealMac(mac) && Chained(mac, log) && i < |log|
    requires edited.stored == log[i].stored && edited.message != log[i].message
    requires Reports(mac, log[i := edited], r)
    ensures r == BrokenReport(|log|, i)
  {
    var log' := log[i := edited];
    var prev := ChainMac(mac, log, i);
    CleanIffChained(mac, log, i);
    SharedPrefix(mac, log, log', i);
    forall j | i <= j < |log| ensures Judge(mac, prev, log'[j]) == Forged {
      if j == i {
        assert Linked(mac, log, i);
        if mac(prev, edited.message) == ChainMac(mac, log, i + 1) {
          MacInjective(mac, prev, edited.message, prev, log[i].message);
        }
      } else {
        ChainMacsDistinct(mac, log, i, j);
        OutOfPlaceIsForged(mac, log, j, prev);
      }
    }
    StuckReport(mac, log', i, r);
  }

  /** Deleting a non-last entry `i` condemns everything after the gap. */
  lemma {:induction false} DeletedRecordDetected(mac: Mac, log: seq<Record>, i: nat, r: VerifyResult)
    requires IdealMac(mac) && Chained(mac, log) && i + 1 < |log|
    requires Reports(mac, log[..i] + log[i + 1..], r)
    ensures r == BrokenReport(|log| - 1, i)
  {
    var log' := log[..i] + log[i + 1..];
    var prev := ChainMac(mac, log, i);
    CleanIffChained(mac, log, i);
    SharedPrefix(mac, log, log', i);
    forall j | i <= j < |log'| ensures Judge(mac, prev, log'[j]) == Forged {
      assert log'[j] == log[j + 1];
      ChainMacsDistinct(mac, log, i, j + 1);
      OutOfPlaceIsForged(mac, log, j + 1, prev);
    }
    StuckReport(mac, log', i, r);
  }

  /** `copy` lists the entries of `log` at `picks`, in that order and as often. */
  ghost predicate PickedFrom(log: seq<Record>, picks: seq<nat>, copy: seq<Record>) {
    && |copy| == |picks|
    && forall k | 0 <= k < |picks| :: picks[k] < |log| && copy[k] == log[picks[k]]
  }

  /**
   * Deleting, duplicating, replaying and reordering in one statement: of all the
   * logs made from the entries of a chain, only its prefixes verify.
   */
  lemma {:induction false} OnlyPrefixesVerify(mac: Mac, log: seq<Record>, picks: seq<nat>, copy: seq<Record>)
    requires IdealMac(mac) && Chained(mac, log) && PickedFrom(log, picks, copy)
    ensures Clean(mac, copy) <==> forall k | 0 <= k < |picks| :: picks[k] == k
    ensures Clean(mac, copy) ==> copy <= log
  {
    CleanIffChained(mac, copy, |copy|);
    if Clean(mac, copy) {
      forall k | 0 <= k < |picks| ensures picks[k] == k { InOrder(mac, log, picks, copy, k); }
      assert |copy| > 0 ==> picks[|copy| - 1] < |log|;
    }
    if forall k | 0 <= k < |picks| :: picks[k] == k {
      assert |copy| > 0 ==> picks[|copy| - 1] < |log|;
      CleanIffChained(mac, log, |copy|);
      SharedPrefix(mac, log, copy, |copy|);
    }
  }

  lemma {:induction false} InOrder(mac: Mac, log: seq<Record>, picks: seq<nat>, copy: seq<Record>, k: nat)
    requires IdealMac(mac) && Chained(mac, log) && PickedFrom(log, picks, copy) && k < |copy|
    requires Chained(mac, copy)
    ensures picks[k] == k
    ensures ChainMac(mac, copy, k + 1) == ChainMac(mac, log, k + 1)
  {
    var p := picks[k];
    assert Linked(mac, copy, k) && Linked(mac, log, p);
    MacInjective(mac, ChainMac(mac, copy, k), copy[k].message, ChainMac(mac, log, p), log[p].message);
    if k > 0 { InOrder(mac, log, picks, copy, k - 1); }
    if p < k { ChainMacsDistinct(mac, log, p, k); }
    if k < p { ChainMacsDistinct(mac, log, k, p); }
  }
}

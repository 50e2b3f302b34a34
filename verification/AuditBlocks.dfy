/**
 * What the `Valid` field alone tells. An entry without a MAC is counted as a
 * legacy entry and makes the verifier start a new chain behind it, so a log is
 * judged block by block, the blocks of sealed entries between unsealed ones.
 */
module AuditBlocks {
  import opened ByteLines
  import opened Wrappers
  import opened AuditChain
  import opened AuditEntry

  /** The MAC that should be trusted before entry `i`: that of its block so far, nothing at the start of a block. */
  function BlockMac(mac: Mac, log: seq<Record>, i: nat): Bytes
    requires i <= |log|
  {
    if i == 0 || log[i - 1].stored == Absent then [] else mac(BlockMac(mac, log, i - 1), log[i - 1].message)
  }

  /** Entry `i` is unsealed, or carries the MAC of its content under the part of its block before it. */
  ghost predicate InBlock(mac: Mac, log: seq<Record>, i: nat)
    requires i < |log|
  {
    log[i].stored == Absent || log[i].stored == Digest(mac(BlockMac(mac, log, i), log[i].message))
  }

  /** The verifier reports nothing among the first `n` entries exactly when they all fit their blocks. */
  lemma {:induction false} UnforgedIffInBlocks(mac: Mac, log: seq<Record>, n: nat)
    requires n <= |log|
    ensures (forall i | 0 <= i < n :: VerdictAt(mac, log, i) != Forged)
            <==> (forall i | 0 <= i < n :: InBlock(mac, log, i))
    ensures (forall i | 0 <= i < n :: InBlock(mac, log, i)) ==> Trusted(mac, log, n) == BlockMac(mac, log, n)
  {
    if n > 0 {
      var k := n - 1;
      UnforgedIffInBlocks(mac, log, k);
      assert (forall i | 0 <= i < n :: VerdictAt(mac, log, i) != Forged)
        <==> (forall i | 0 <= i < k :: VerdictAt(mac, log, i) != Forged) && VerdictAt(mac, log, k) != Forged;
      assert (forall i | 0 <= i < n :: InBlock(mac, log, i))
        <==> (forall i | 0 <= i < k :: InBlock(mac, log, i)) && InBlock(mac, log, k);
    }
  }

  /** Any log whatever: `Valid` holds exactly when every block of sealed entries is a chain of its own. */
  lemma {:induction false} ValidIffBlocksChained(mac: Mac, log: seq<Record>, r: VerifyResult)
    requires Reports(mac, log, r)
    ensures r.valid <==> forall i | 0 <= i < |log| :: InBlock(mac, log, i)
    ensures !r.valid ==> 0 <= r.firstBadIdx < |log| && !InBlock(mac, log, r.firstBadIdx)
                         && forall i | 0 <= i < r.firstBadIdx :: InBlock(mac, log, i)
  {
    UnforgedIffInBlocks(mac, log, |log|);
    if !r.valid {
      UnforgedIffInBlocks(mac, log, r.firstBadIdx);
      UnforgedIffInBlocks(mac, log, r.firstBadIdx + 1);
    }
  }

  // ---------------------------------------------------------------- logs assembled from a chain

  /** `copy` lists entries of `log`, at the places `picks` names, and records without a MAC wherever it names none. */
  ghost predicate MixedFrom(log: seq<Record>, picks: seq<Option<nat>>, copy: seq<Record>) {
    && |copy| == |picks|
    && forall k | 0 <= k < |picks| ::
         match picks[k]
         case Some(i) => i < |log| && copy[k] == log[i]
         case None => copy[k].stored == Absent
  }

  /** How many sealed entries of its block stand before place `k`. */
  function PlaceInBlock(picks: seq<Option<nat>>, k: nat): nat
    requires k <= |picks|
  {
    if k == 0 || picks[k - 1].None? then 0 else PlaceInBlock(picks, k - 1) + 1
  }

  predicate PickedInPlace(picks: seq<Option<nat>>, k: nat)
    requires k < |picks|
  {
    picks[k].Some? ==> picks[k].value == PlaceInBlock(picks, k)
  }

  /** As long as the picks of each block run 0, 1, 2, ..., the block so far is a prefix of the chain. */
  lemma {:induction false} BlockIsPrefix(mac: Mac, log: seq<Record>, picks: seq<Option<nat>>, copy: seq<Record>, k: nat)
    requires Chained(mac, log) && MixedFrom(log, picks, copy) && k <= |copy|
    requires forall j | 0 <= j < k :: PickedInPlace(picks, j)
    ensures PlaceInBlock(picks, k) <= |log|
    ensures BlockMac(mac, copy, k) == ChainMac(mac, log, PlaceInBlock(picks, k))
  {
    if k > 0 {
      BlockIsPrefix(mac, log, picks, copy, k - 1);
      assert PickedInPlace(picks, k - 1);
      if picks[k - 1].Some? { assert Linked(mac, log, picks[k - 1].value); }
    }
  }

  lemma {:induction false} InBlockIffInPlace(mac: Mac, log: seq<Record>, picks: seq<Option<nat>>, copy: seq<Record>,
          n: nat)
    requires IdealMac(mac) && Chained(mac, log) && MixedFrom(log, picks, copy) && n <= |copy|
    ensures (forall k | 0 <= k < n :: InBlock(mac, copy, k)) <==> (forall k | 0 <= k < n :: PickedInPlace(picks, k))
  {
    if n > 0 {
      var k := n - 1;
      InBlockIffInPlace(mac, log, picks, copy, k);
      if (forall j | 0 <= j < k :: PickedInPlace(picks, j)) {
        BlockIsPrefix(mac, log, picks, copy, k);
        if picks[k].Some? {
          var p, b := picks[k].value, PlaceInBlock(picks, k);
          assert Linked(mac, log, p);
          if p < b { ChainMacsDistinct(mac, log, p, b); }
          if b < p { ChainMacsDistinct(mac, log, b, p); }
          if p != b { OutOfPlaceIsForged(mac, log, p, ChainMac(mac, log, b)); }
        }
        assert InBlock(mac, copy, k) <==> PickedInPlace(picks, k);
      }
    }
  }

  /**
   * Of all the logs made from the entries of one chain and of unsealed records,
   * `Valid` holds exactly for those in which every block of sealed entries is a
   * prefix of the chain; otherwise the first entry out of place is reported.
   */
  lemma {:induction false} ValidIffPrefixesInBlocks(mac: Mac, log: seq<Record>, picks: seq<Option<nat>>,
          copy: seq<Record>, r: VerifyResult)
    requires IdealMac(mac) && Chained(mac, log) && MixedFrom(log, picks, copy) && Reports(mac, copy, r)
    ensures r.valid <==> forall k | 0 <= k < |picks| :: PickedInPlace(picks, k)
    ensures !r.valid ==> 0 <= r.firstBadIdx < |picks| && !PickedInPlace(picks, r.firstBadIdx)
                         && forall k | 0 <= k < r.firstBadIdx :: PickedInPlace(picks, k)
  {
    ValidIffBlocksChained(mac, copy, r);
    InBlockIffInPlace(mac, log, picks, copy, |copy|);
    if !r.valid {
      InBlockIffInPlace(mac, log, picks, copy, r.firstBadIdx);
      InBlockIffInPlace(mac, log, picks, copy, r.firstBadIdx + 1);
    }
  }

  // ---------------------------------------------------------------- blanking a MAC

  /** The report on a chain of `n` entries whose entry `i` lost its MAC. */
  function BlankedReport(n: nat, i: nat): VerifyResult
    requires i < n
  {
    if i + 1 == n then VerifyResult(true, n, i, 1, 0, -1) else VerifyResult(false, n, i, 1, n - i - 1, i + 1)
  }

  /** Up to an unsealed entry `i` all is genuine; behind it, with nothing trusted, all is forged. */
  lemma {:induction false} BlankedCounts(mac: Mac, log: seq<Record>, i: nat, n: nat)
    requires i < n <= |log| && CleanUpTo(mac, log, i) && log[i].stored == Absent
    requires forall j | i < j < n :: Judge(mac, [], log[j]) == Forged
    ensures Trusted(mac, log, n) == []
    ensures CountVerdicts(mac, log, n, Genuine) == i && CountVerdicts(mac, log, n, Unsealed) == 1
    ensures CountVerdicts(mac, log, n, Forged) == n - i - 1
  {
    if n == i + 1 {
      CountAll(mac, log, i);
      VerdictsPartition(mac, log, i);
    } else {
      BlankedCounts(mac, log, i, n - 1);
    }
  }

  /**
   * Whatever an entry of a chain is changed into, if its MAC is blanked the
   * report names the entry behind it; and the last entry can be changed so
   * without any report.
   */
  lemma {:induction false} BlankedRecordReported(mac: Mac, log: seq<Record>, i: nat, edited: Record, r: VerifyResult)
    requires IdealMac(mac) && Chained(mac, log) && i < |log| && edited.stored == Absent
    requires Reports(mac, log[i := edited], r)
    ensures r == BlankedReport(|log|, i)
  {
    var log' := log[i := edited];
    CleanIffChained(mac, log, i);
    SharedPrefix(mac, log, log', i);
    forall j | i < j < |log| ensures Judge(mac, [], log'[j]) == Forged {
      ChainMacsDistinct(mac, log, 0, j);
      OutOfPlaceIsForged(mac, log, j, []);
    }
    BlankedCounts(mac, log', i, |log|);
    assert VerdictAt(mac, log', i) == Unsealed;
    if i + 1 < |log| {
      BlankedCounts(mac, log', i, i + 1);
      assert VerdictAt(mac, log', i + 1) == Forged;
    }
  }

  /** A log stripped of every MAC is `Valid`, whatever it says. */
  lemma {:induction false} StrippedLogIsValid(mac: Mac, log: seq<Record>, r: VerifyResult)
    requires Reports(mac, log, r) && forall i | 0 <= i < |log| :: log[i].stored == Absent
    ensures r == VerifyResult(true, |log|, 0, |log|, 0, -1)
  {
    AllUnsealed(mac, log, |log|);
    VerdictsPartition(mac, log, |log|);
    ValidIffBlocksChained(mac, log, r);
  }

  lemma {:induction false} AllUnsealed(mac: Mac, log: seq<Record>, n: nat)
    requires n <= |log| && forall i | 0 <= i < |log| :: log[i].stored == Absent
    ensures CountVerdicts(mac, log, n, Unsealed) == n
  {
    if n > 0 { AllUnsealed(mac, log, n - 1); }
  }

  /** The same of JSON entries: any change of entry `i` that also blanks its MAC. */
  lemma {:induction false} BlankedEntryReported(lib: Library, key: Bytes, es: seq<LogEntry>, i: nat, edited: LogEntry,
                                                r: VerifyResult)
    requires IdealMac(lib.mac(key)) && Chained(lib.mac(key), Views(lib, es)) && i < |es|
    requires edited.hmac == "" && Reports(lib.mac(key), Views(lib, es[i := edited]), r)
    ensures r == BlankedReport(|es|, i)
  {
    ViewsUpdate(lib, es, i, edited);
    BlankedRecordReported(lib.mac(key), Views(lib, es), i, View(lib, edited), r);
  }
}

/**
 * What a run of sessions leaves on disk. A rotation names the file it moves by
 * the second, and replaces a file of that name; which runs lose entries so is
 * settled exactly.
 */
module AuditRotations {
  import opened ByteLines
  import opened AuditChain
  import opened AuditEntry
  import opened AuditFile
  import opened AuditLogger

  // ---------------------------------------------------------------- entries instead of bytes

  /** The entries on the live file, and on the rotated ones. */
  datatype Ledger = Ledger(live: seq<LogEntry>, archived: map<int, seq<LogEntry>>)

  /** Session `k` of the run rotates when it opens. */
  predicate RotatesAt(lib: Library, key: Bytes, cfg: Config, run: seq<Session>, k: nat) {
    k < |run| && NeedsRotation(cfg, |After(lib, key, cfg, run, k).active|, run[k].age)
  }

  /** What session `k` writes. */
  function WrittenAt(lib: Library, key: Bytes, cfg: Config, run: seq<Session>, k: nat): seq<LogEntry>
    requires k < |run|
  {
    Written(lib, key, cfg, After(lib, key, cfg, run, k), run[k])
  }

  /** The entries on each file after `n` sessions. */
  function LedgerAfter(lib: Library, key: Bytes, cfg: Config, run: seq<Session>, n: nat): Ledger
    requires n <= |run|
  {
    if n == 0 then Ledger([], map[])
    else
      var k := n - 1;
      var before, added := LedgerAfter(lib, key, cfg, run, k), WrittenAt(lib, key, cfg, run, k);
      if RotatesAt(lib, key, cfg, run, k) then Ledger(added, before.archived[run[k].stamp := before.live])
      else before.(live := before.live + added)
  }

  /** The ledger is what the files hold, line by line. */
  predicate Holds(lib: Library, d: Disk, l: Ledger) {
    && d.active == Render(lib, l.live) && d.rotated.Keys == l.archived.Keys
    && forall s | s in l.archived :: d.rotated[s] == Render(lib, l.archived[s])
  }

  lemma {:induction false} LinesAppended(lib: Library, d: Disk, l: Ledger, added: seq<LogEntry>)
    requires Holds(lib, d, l)
    ensures Holds(lib, d.(active := d.active + Render(lib, added)), l.(live := l.live + added))
  {
    RenderConcat(lib, l.live, added);
  }

  lemma {:induction false} FileMoved(lib: Library, d: Disk, l: Ledger, stamp: int)
    requires Holds(lib, d, l)
    ensures Holds(lib, Disk([], d.rotated[stamp := d.active]), Ledger([], l.archived[stamp := l.live]))
  {
  }

  lemma {:induction false} LedgerIsOnDisk(lib: Library, key: Bytes, cfg: Config, run: seq<Session>, n: nat)
    requires n <= |run|
    ensures Holds(lib, After(lib, key, cfg, run, n), LedgerAfter(lib, key, cfg, run, n))
  {
    if n == 0 {
      NothingRendered(lib);
    } else {
      hide Render, Written, NeedsRotation, Holds, AfterSession;
      var k := n - 1;
      var d, l := After(lib, key, cfg, run, k), LedgerAfter(lib, key, cfg, run, k);
      var added := WrittenAt(lib, key, cfg, run, k);
      LedgerIsOnDisk(lib, key, cfg, run, k);
      SessionAppends(lib, key, cfg, d, run[k]);
      if RotatesAt(lib, key, cfg, run, k) {
        FileMoved(lib, d, l, run[k].stamp);
        LinesAppended(lib, Opened(cfg, d, run[k].age, run[k].stamp), Ledger([], l.archived[run[k].stamp := l.live]),
            added);
        assert [] + added == added;
      } else {
        LinesAppended(lib, d, l, added);
      }
    }
  }

  lemma {:induction false} NothingRendered(lib: Library)
    ensures Render(lib, []) == []
  {
  }

  // ---------------------------------------------------------------- which rotation a file comes from

  /** Session `j` made the last rotation before `n` under this stamp. */
  ghost predicate LastMove(lib: Library, key: Bytes, cfg: Config, run: seq<Session>, n: nat, stamp: int, j: nat) {
    && j < n <= |run| && RotatesAt(lib, key, cfg, run, j) && run[j].stamp == stamp
    && forall i: nat | j < i < n && RotatesAt(lib, key, cfg, run, i) :: run[i].stamp != stamp
  }

  lemma {:induction false} LastMoveStep(lib: Library, key: Bytes, cfg: Config, run: seq<Session>, n: nat, stamp: int,
          j: nat)
    requires n < |run|
    ensures LastMove(lib, key, cfg, run, n + 1, stamp, j) <==>
      if RotatesAt(lib, key, cfg, run, n) && run[n].stamp == stamp then j == n
      else LastMove(lib, key, cfg, run, n, stamp, j)
  {
    hide RotatesAt;
  }

  /**
   * A rotated file is exactly the live file moved by the last rotation with its
   * stamp, and there is one for every such stamp.
   */
  lemma {:induction false} RotatedIsLastMove(lib: Library, key: Bytes, cfg: Config, run: seq<Session>, n: nat,
          stamp: int)
    requires n <= |run|
    ensures stamp in LedgerAfter(lib, key, cfg, run, n).archived
       <==> exists j: nat :: LastMove(lib, key, cfg, run, n, stamp, j)
    ensures forall j: nat | LastMove(lib, key, cfg, run, n, stamp, j) ::
              && stamp in LedgerAfter(lib, key, cfg, run, n).archived
              && LedgerAfter(lib, key, cfg, run, n).archived[stamp] == LedgerAfter(lib, key, cfg, run, j).live
              && stamp in After(lib, key, cfg, run, n).rotated
              && After(lib, key, cfg, run, n).rotated[stamp] == After(lib, key, cfg, run, j).active
  {
    hide RotatesAt, LastMove, After, WrittenAt;
    if n == 0 {
      NoMoveYet(lib, key, cfg, run, stamp);
    } else {
      var k := n - 1;
      RotatedIsLastMove(lib, key, cfg, run, k, stamp);
      forall j: nat
        ensures LastMove(lib, key, cfg, run, n, stamp, j) <==>
          if RotatesAt(lib, key, cfg, run, k) && run[k].stamp == stamp then j == k
          else LastMove(lib, key, cfg, run, k, stamp, j)
      {
        LastMoveStep(lib, key, cfg, run, k, stamp, j);
      }
      if RotatesAt(lib, key, cfg, run, k) && run[k].stamp == stamp {
        assert LastMove(lib, key, cfg, run, n, stamp, k);
      } else if stamp in LedgerAfter(lib, key, cfg, run, k).archived {
        var j: nat :| LastMove(lib, key, cfg, run, k, stamp, j);
        assert LastMove(lib, key, cfg, run, n, stamp, j);
      }
      LedgerIsOnDisk(lib, key, cfg, run, n);
      forall j: nat | LastMove(lib, key, cfg, run, n, stamp, j)
        ensures j < n
      {
        MoveIsEarlier(lib, key, cfg, run, n, stamp, j);
      }
      forall j: nat | j < n && LastMove(lib, key, cfg, run, n, stamp, j)
        ensures stamp in LedgerAfter(lib, key, cfg, run, n).archived
        ensures LedgerAfter(lib, key, cfg, run, n).archived[stamp] == LedgerAfter(lib, key, cfg, run, j).live
        ensures stamp in After(lib, key, cfg, run, n).rotated
        ensures After(lib, key, cfg, run, n).rotated[stamp] == After(lib, key, cfg, run, j).active
      {
        LedgerIsOnDisk(lib, key, cfg, run, j);
      }
    }
  }

  lemma {:induction false} MoveIsEarlier(lib: Library, key: Bytes, cfg: Config, run: seq<Session>, n: nat, stamp: int,
          j: nat)
    requires LastMove(lib, key, cfg, run, n, stamp, j)
    ensures j < n <= |run|
  {
  }

  lemma {:induction false} NoMoveYet(lib: Library, key: Bytes, cfg: Config, run: seq<Session>, stamp: int)
    ensures forall j: nat :: !LastMove(lib, key, cfg, run, 0, stamp, j)
  {
  }

  // ---------------------------------------------------------------- counting entries

  /** All entries on the archived files, each as often as it is there. */
  ghost function Total(m: map<int, seq<LogEntry>>): multiset<LogEntry> {
    if exists s :: s in m then (var s :| s in m; multiset(m[s]) + Total(m - {s})) else multiset{}
  }

  lemma {:induction false} TotalSplits(m: map<int, seq<LogEntry>>, s: int)
    requires s in m
    ensures Total(m) == multiset(m[s]) + Total(m - {s})
    decreases |m|
  {
    var t :| t in m && Total(m) == multiset(m[t]) + Total(m - {t});
    if t != s {
      hide Total;
      assert m - {t} - {s} == m - {s} - {t};
      TotalSplits(m - {t}, s);
      TotalSplits(m - {s}, t);
      Exchanged(multiset(m[t]), multiset(m[s]), Total(m - {t} - {s}));
    }
  }

  lemma {:induction false} Exchanged(a: multiset<LogEntry>, b: multiset<LogEntry>, c: multiset<LogEntry>)
    ensures a + (b + c) == b + (a + c)
  {
  }

  /** What putting a file under `s` replaces. */
  function Replaced(m: map<int, seq<LogEntry>>, s: int): seq<LogEntry> { if s in m then m[s] else [] }

  lemma {:induction false} TotalAfterPut(m: map<int, seq<LogEntry>>, s: int, es: seq<LogEntry>)
    ensures Total(m[s := es]) + multiset(Replaced(m, s)) == Total(m) + multiset(es)
  {
    TotalSplits(m[s := es], s);
    assert m[s := es] - {s} == m - {s};
    if s in m { TotalSplits(m, s); } else { assert m - {s} == m; }
  }

  /** Every entry on any file. */
  ghost function AllOn(l: Ledger): multiset<LogEntry> { multiset(l.live) + Total(l.archived) }

  /** Every entry the first `n` sessions wrote. */
  ghost function AllWritten(lib: Library, key: Bytes, cfg: Config, run: seq<Session>, n: nat): multiset<LogEntry>
    requires n <= |run|
  {
    if n == 0 then multiset{}
    else AllWritten(lib, key, cfg, run, n - 1) + multiset(WrittenAt(lib, key, cfg, run, n - 1))
  }

  /** What rotation `k` replaces, if session `k` rotates. */
  function ReplacedAt(lib: Library, key: Bytes, cfg: Config, run: seq<Session>, k: nat): seq<LogEntry>
    requires k < |run|
  {
    if RotatesAt(lib, key, cfg, run, k) then Replaced(LedgerAfter(lib, key, cfg, run, k).archived, run[k].stamp) else []
  }

  ghost function AllReplaced(lib: Library, key: Bytes, cfg: Config, run: seq<Session>, n: nat): multiset<LogEntry>
    requires n <= |run|
  {
    if n == 0 then multiset{}
    else AllReplaced(lib, key, cfg, run, n - 1) + multiset(ReplacedAt(lib, key, cfg, run, n - 1))
  }

  /** Conservation: what was written is on the files, or was replaced by a rotation. */
  lemma {:induction false} WrittenIsKeptOrReplaced(lib: Library, key: Bytes, cfg: Config, run: seq<Session>, n: nat)
    requires n <= |run|
    ensures AllOn(LedgerAfter(lib, key, cfg, run, n)) + AllReplaced(lib, key, cfg, run, n)
            == AllWritten(lib, key, cfg, run, n)
  {
    hide WrittenAt, RotatesAt, Total, Replaced;
    if n == 0 {
      assert Total(map[]) == multiset{} by { TotalOfNone(); }
    } else {
      var k := n - 1;
      WrittenIsKeptOrReplaced(lib, key, cfg, run, k);
      var before, added := LedgerAfter(lib, key, cfg, run, k), WrittenAt(lib, key, cfg, run, k);
      if RotatesAt(lib, key, cfg, run, k) {
        TotalAfterPut(before.archived, run[k].stamp, before.live);
        Regrouped(multiset(before.live), Total(before.archived), multiset(Replaced(before.archived, run[k].stamp)),
                  Total(before.archived[run[k].stamp := before.live]), AllReplaced(lib, key, cfg, run, k),
                      multiset(added));
      } else {
        assert multiset(before.live + added) == multiset(before.live) + multiset(added);
      }
    }
  }

  lemma {:induction false} Regrouped(live: multiset<LogEntry>, total: multiset<LogEntry>, gone: multiset<LogEntry>,
          total': multiset<LogEntry>, replaced: multiset<LogEntry>, added: multiset<LogEntry>)
    requires total' + gone == total + live
    ensures (added + total') + (replaced + gone) == ((live + total) + replaced) + added
  {
    forall e ensures ((added + total') + (replaced + gone))[e] == (((live + total) + replaced) + added)[e] {
      assert (total' + gone)[e] == (total + live)[e];
    }
  }

  lemma {:induction false} TotalOfNone()
    ensures Total(map[]) == multiset{}
  {
  }

  // ---------------------------------------------------------------- when nothing is lost

  /** Rotation `k` does not take the stamp of an earlier rotation that moved entries away. */
  predicate FreshStampAt(lib: Library, key: Bytes, cfg: Config, run: seq<Session>, k: nat)
    requires k < |run|
  {
    RotatesAt(lib, key, cfg, run, k) ==>
      forall j: nat | j < k && RotatesAt(lib, key, cfg, run, j) && run[j].stamp == run[k].stamp ::
        After(lib, key, cfg, run, j).active == []
  }

  lemma {:induction false} EmptyFileHoldsNothing(lib: Library, key: Bytes, cfg: Config, run: seq<Session>, j: nat)
    requires j <= |run|
    ensures After(lib, key, cfg, run, j).active == [] <==> LedgerAfter(lib, key, cfg, run, j).live == []
  {
    LedgerIsOnDisk(lib, key, cfg, run, j);
  }

  /** A rotation with the stamp of an earlier one comes after a last such rotation. */
  lemma {:induction false} SomeLastMove(lib: Library, key: Bytes, cfg: Config, run: seq<Session>, n: nat, j: nat)
          returns (last: nat)
    requires j < n <= |run| && RotatesAt(lib, key, cfg, run, j)
    ensures j <= last && LastMove(lib, key, cfg, run, n, run[j].stamp, last)
  {
    hide RotatesAt;
    if n == j + 1 {
      last := j;
    } else {
      last := SomeLastMove(lib, key, cfg, run, n - 1, j);
      LastMoveStep(lib, key, cfg, run, n - 1, run[j].stamp, last);
      if RotatesAt(lib, key, cfg, run, n - 1) && run[n - 1].stamp == run[j].stamp {
        last := n - 1;
        LastMoveStep(lib, key, cfg, run, n - 1, run[j].stamp, last);
      }
    }
  }

  /** With fresh stamps so far, rotation `k` replaces nothing exactly when its own stamp is fresh. */
  lemma {:induction false} ReplacesNothingIff(lib: Library, key: Bytes, cfg: Config, run: seq<Session>, k: nat)
    requires k < |run| && forall i: nat | i < k :: FreshStampAt(lib, key, cfg, run, i)
    ensures ReplacedAt(lib, key, cfg, run, k) == [] <==> FreshStampAt(lib, key, cfg, run, k)
  {
    hide RotatesAt, After, LedgerAfter;
    var stamp := run[k].stamp;
    RotatedIsLastMove(lib, key, cfg, run, k, stamp);
    if RotatesAt(lib, key, cfg, run, k) {
      forall j: nat | j < k && RotatesAt(lib, key, cfg, run, j) && run[j].stamp == stamp
        ensures ReplacedAt(lib, key, cfg, run, k) == [] ==> After(lib, key, cfg, run, j).active == []
      {
        var last := SomeLastMove(lib, key, cfg, run, k, j);
        EmptyFileHoldsNothing(lib, key, cfg, run, last);
        if j < last { assert FreshStampAt(lib, key, cfg, run, last); }
      }
      if stamp in LedgerAfter(lib, key, cfg, run, k).archived {
        var last: nat :| LastMove(lib, key, cfg, run, k, stamp, last);
        EmptyFileHoldsNothing(lib, key, cfg, run, last);
      }
    }
  }

  lemma {:induction false} NothingReplacedIff(lib: Library, key: Bytes, cfg: Config, run: seq<Session>, n: nat)
    requires n <= |run|
    ensures AllReplaced(lib, key, cfg, run, n) == multiset{}
            <==> forall k: nat | k < n :: FreshStampAt(lib, key, cfg, run, k)
  {
    hide FreshStampAt, ReplacedAt;
    if n > 0 {
      NothingReplacedIff(lib, key, cfg, run, n - 1);
      var gone := ReplacedAt(lib, key, cfg, run, n - 1);
      assert gone != [] ==> gone[0] in multiset(gone);
      if forall k: nat | k < n - 1 :: FreshStampAt(lib, key, cfg, run, k) {
        ReplacesNothingIff(lib, key, cfg, run, n - 1);
      }
    }
  }

  /**
   * Over any run, every entry ever written is still on some file, as often as it
   * was written, if and only if no rotation took the stamp of an earlier one
   * that had moved entries away.
   */
  lemma {:induction false} NothingLostIff(lib: Library, key: Bytes, cfg: Config, run: seq<Session>, n: nat)
    requires n <= |run|
    ensures AllOn(LedgerAfter(lib, key, cfg, run, n)) == AllWritten(lib, key, cfg, run, n)
       <==> forall k: nat | k < n :: FreshStampAt(lib, key, cfg, run, k)
  {
    hide AllOn, AllWritten, AllReplaced, FreshStampAt, LedgerAfter;
    WrittenIsKeptOrReplaced(lib, key, cfg, run, n);
    NothingReplacedIff(lib, key, cfg, run, n);
    Cancelled(AllOn(LedgerAfter(lib, key, cfg, run, n)), AllReplaced(lib, key, cfg, run, n));
  }

  lemma {:induction false} Cancelled(a: multiset<LogEntry>, b: multiset<LogEntry>)
    ensures a + b == a <==> b == multiset{}
  {
    if a + b == a {
      forall e ensures e !in b { assert (a + b)[e] == a[e] + b[e]; }
    }
  }

  /**
   * The failing case at its smallest: with a size limit of zero every opening
   * rotates, and two openings in one second leave nothing of a whole session,
   * while every file verifies at every point.
   */
  lemma {:induction false} SameSecondDestroysLog(lib: Library, key: Bytes, cfg: Config, one: Session, idle: Session,
          last: Session)
    requires LosslessJson(lib) && IdealMac(lib.mac(key)) && key != []
    requires cfg.maxFileSize <= 0 && idle.stamp == last.stamp
    requires one.requests != [] && idle.requests == [] && last.requests == []
    requires AllShort(lib, SealedAll(lib, key, [], one.requests))
    ensures var run, d := [one, idle, last], After(lib, key, cfg, [one, idle, last], 3);
            && WrittenAt(lib, key, cfg, run, 0) == SealedAll(lib, key, [], one.requests) != []
            && d.active == [] && (forall s | s in d.rotated :: d.rotated[s] == [])
            && forall k: nat | k <= 3 :: CleanAt(lib, key, cfg, run, k)
  {
    hide SealedAll, Render;
    var run := [one, idle, last];
    NothingRendered(lib);
    forall k: nat | k < 3 ensures RotatesAt(lib, key, cfg, run, k) && SafeAt(lib, key, cfg, run, k) {
      EmptyFileRecovers(lib, cfg, After(lib, key, cfg, run, k), run[k]);
    }
    assert SealedAll(lib, key, [], []) == [] by { NothingSealed(lib, key); }
    forall k: nat | k < 3 ensures WrittenAt(lib, key, cfg, run, k) == SealedAll(lib, key, [], run[k].requests) {
      EmptyFileRecovers(lib, cfg, After(lib, key, cfg, run, k), run[k]);
    }
    SafeRunIsClean(lib, key, cfg, run);
    LedgerIsOnDisk(lib, key, cfg, run, 3);
    var l0, l1, l2 := LedgerAfter(lib, key, cfg, run, 0), LedgerAfter(lib, key, cfg, run, 1),
        LedgerAfter(lib, key, cfg, run, 2);
    assert l1.archived == map[one.stamp := []];
    assert l2 == Ledger([], l1.archived[idle.stamp := l1.live]);
    assert LedgerAfter(lib, key, cfg, run, 3) == Ledger([], l2.archived[last.stamp := []]);
  }

  lemma {:induction false} NothingSealed(lib: Library, key: Bytes)
    ensures SealedAll(lib, key, [], []) == []
  {
  }

  lemma {:induction false} EmptyFileRecovers(lib: Library, cfg: Config, d: Disk, s: Session)
    requires cfg.maxFileSize <= 0
    ensures NeedsRotation(cfg, |d.active|, s.age) && RecoveredMac(lib, Opened(cfg, d, s.age, s.stamp).active).Success?
    ensures RecoveredMac(lib, Opened(cfg, d, s.age, s.stamp).active).value == []
  {
  }
}

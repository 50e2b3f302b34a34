/**
 * Matches as intervals of a text, and what it means to merge them: disjoint
 * intervals that contain every match and are held together by matches.
 */
module MatchIntervals {
  datatype Match = Match(patternName: string, value: string, start: nat, end: nat, severity: string)

  // ---------------------------------------------------------------- intervals

  predicate Within(m: Match, n: nat) { m.start <= m.end <= n }

  predicate AllWithin(ms: seq<Match>, n: nat) { forall i | 0 <= i < |ms| :: Within(ms[i], n) }

  predicate Covers(m: Match, p: int) { m.start <= p < m.end }

  /** One of the first `n` matches covers position `p`. */
  predicate CoveredBy(ms: seq<Match>, n: nat, p: int)
    requires n <= |ms|
  {
    exists i :: 0 <= i < n && Covers(ms[i], p)
  }

  predicate Covered(ms: seq<Match>, p: int) { CoveredBy(ms, |ms|, p) }

  /** The cut at `p` goes through the inside of `m`. */
  predicate Spans(m: Match, p: int) { m.start < p < m.end }

  predicate SpannedBy(ms: seq<Match>, n: nat, p: int)
    requires n <= |ms|
  {
    exists i :: 0 <= i < n && Spans(ms[i], p)
  }

  predicate Inside(m: Match, outer: Match) { outer.start <= m.start && m.end <= outer.end }

  /** Match `i` lies inside one of the merged intervals. */
  predicate Placed(merged: seq<Match>, ms: seq<Match>, i: nat)
    requires i < |ms|
  {
    exists k :: 0 <= k < |merged| && Inside(ms[i], merged[k])
  }

  /** `outer` is one of the first `n` matches, possibly stretched to the right. */
  predicate OpenedBy(ms: seq<Match>, n: nat, outer: Match)
    requires n <= |ms|
  {
    exists i :: 0 <= i < n && outer == ms[i].(end := outer.end) && ms[i].end <= outer.end
  }

  predicate SortedByStart(ms: seq<Match>) {
    forall i, j | 0 <= i < j < |ms| :: ms[i].start <= ms[j].start
  }

  predicate Disjoint(ms: seq<Match>) {
    && (forall i | 0 <= i < |ms| :: ms[i].start <= ms[i].end)
    && (forall i, j | 0 <= i < j < |ms| :: ms[i].end <= ms[j].start)
  }

  /** One merged interval: opened by a match, all of it covered, and every cut inside it spanned by some match. */
  ghost predicate Justified(merged: seq<Match>, k: nat, ms: seq<Match>, n: nat)
    requires k < |merged| && n <= |ms|
  {
    JustifiedBy(ms, n, merged[k])
  }

  ghost predicate JustifiedBy(ms: seq<Match>, n: nat, outer: Match)
    requires n <= |ms|
  {
    && OpenedBy(ms, n, outer)
    && (forall p | Covers(outer, p) :: CoveredBy(ms, n, p))
    && (forall p | Spans(outer, p) :: SpannedBy(ms, n, p))
  }

  /** `merged` is the merge of the first `n` matches: sorted disjoint justified intervals that contain every match. */
  ghost predicate MergesUpTo(merged: seq<Match>, ms: seq<Match>, n: nat)
    requires n <= |ms|
  {
    && Disjoint(merged)
    && (forall i | 0 <= i < n :: Placed(merged, ms, i))
    && (forall i | 0 <= i < |merged| :: Justified(merged, i, ms, n))
  }

  ghost predicate IsMergeOf(merged: seq<Match>, ms: seq<Match>) { MergesUpTo(merged, ms, |ms|) }

  /** The merged intervals cover exactly the positions the matches cover. */
  lemma {:induction false} MergeCoversSame(merged: seq<Match>, ms: seq<Match>, p: int)
    requires IsMergeOf(merged, ms)
    ensures Covered(merged, p) <==> Covered(ms, p)
  {
    if Covered(ms, p) {
      var i :| 0 <= i < |ms| && Covers(ms[i], p);
      assert Placed(merged, ms, i);
      var k :| 0 <= k < |merged| && Inside(ms[i], merged[k]);
      assert Covers(merged[k], p);
    }
    if Covered(merged, p) {
      var k :| 0 <= k < |merged| && Covers(merged[k], p);
      assert Justified(merged, k, ms, |ms|);
    }
  }

  // ---------------------------------------------------------------- merging

  /**
   * Every match is inside some interval, if `merged'` only stretches `merged` and
   * interval `k` takes in the new match.
   */
  lemma {:induction false} AllInsideGrows(merged: seq<Match>, ms: seq<Match>, n: nat, merged': seq<Match>, k: nat)
    requires n < |ms| && forall i | 0 <= i < n :: Placed(merged, ms, i)
    requires |merged| <= |merged'| && forall j | 0 <= j < |merged| :: Inside(merged[j], merged'[j])
    requires k < |merged'| && Inside(ms[n], merged'[k])
    ensures forall i | 0 <= i < n + 1 :: Placed(merged', ms, i)
  {
    forall i | 0 <= i < n + 1 ensures Placed(merged', ms, i) {
      if i < n {
        assert Placed(merged, ms, i);
        var j :| 0 <= j < |merged| && Inside(ms[i], merged[j]);
        assert Inside(merged[j], merged'[j]);
        assert Inside(ms[i], merged'[j]);
      }
    }
  }

  lemma {:induction false} JustifiedGrows(outer: Match, ms: seq<Match>, n: nat)
    requires n < |ms| && JustifiedBy(ms, n, outer)
    ensures JustifiedBy(ms, n + 1, outer)
  {
    forall p | Covers(outer, p) ensures CoveredBy(ms, n + 1, p) { assert CoveredBy(ms, n, p); }
    forall p | Spans(outer, p) ensures SpannedBy(ms, n + 1, p) { assert SpannedBy(ms, n, p); }
  }

  /** A match that starts after the last interval ends becomes an interval of its own. */
  lemma {:induction false} MergeAppends(merged: seq<Match>, ms: seq<Match>, n: nat)
    requires n < |ms| && MergesUpTo(merged, ms, n) && ms[n].start <= ms[n].end
    requires merged != [] ==> merged[|merged| - 1].end <= ms[n].start
    ensures MergesUpTo(merged + [ms[n]], ms, n + 1)
  {
    var merged' := merged + [ms[n]];
    forall i | 0 <= i < |merged| ensures merged[i].end <= ms[n].start {
      if i < |merged| - 1 { assert merged[i].end <= merged[|merged| - 1].start; }
    }
    AllInsideGrows(merged, ms, n, merged', |merged|);
    var n' := n + 1;
    forall i | 0 <= i < |merged'| ensures Justified(merged', i, ms, n') {
      if i < |merged| {
        assert Justified(merged, i, ms, n);
        JustifiedGrows(merged[i], ms, n);
      }
    }
  }

  function Stretched(last: Match, m: Match): Match {
    if m.end > last.end then last.(end := m.end) else last
  }

  lemma {:induction false} JustifiedStretches(last: Match, ms: seq<Match>, n: nat)
    requires n < |ms| && JustifiedBy(ms, n, last) && last.start <= ms[n].start < last.end
    ensures JustifiedBy(ms, n + 1, Stretched(last, ms[n]))
  {
    var last' := Stretched(last, ms[n]);
    JustifiedGrows(last, ms, n);
    var i :| 0 <= i < n && last == ms[i].(end := last.end) && ms[i].end <= last.end;
    assert last' == ms[i].(end := last'.end);
    forall p | Covers(last', p) ensures CoveredBy(ms, n + 1, p) { assert Covers(last, p) || Covers(ms[n], p); }
    forall p | Spans(last', p) ensures SpannedBy(ms, n + 1, p) { assert Spans(last, p) || Spans(ms[n], p); }
  }

  /** A match that starts inside the last interval stretches it as far as it reaches. */
  lemma {:induction false} MergeStretches(front: seq<Match>, last: Match, ms: seq<Match>, n: nat)
    requires n < |ms| && MergesUpTo(front + [last], ms, n)
    requires last.start <= ms[n].start < last.end && ms[n].start <= ms[n].end
    ensures MergesUpTo(front + [Stretched(last, ms[n])], ms, n + 1)
  {
    var merged, merged', k := front + [last], front + [Stretched(last, ms[n])], |front|;
    assert merged[k] == last && merged'[k] == Stretched(last, ms[n]);
    assert forall i | 0 <= i < k :: merged[i] == merged'[i];
    AllInsideGrows(merged, ms, n, merged', k);
    var n' := n + 1;
    forall i | 0 <= i < |merged'| ensures Justified(merged', i, ms, n') {
      assert Justified(merged, i, ms, n);
      if i < k { JustifiedGrows(merged[i], ms, n); } else { JustifiedStretches(last, ms, n); }
    }
  }

  /** What counts as a merge of some matches does not depend on their order. */
  lemma {:induction false} MergeOfPermutation(merged: seq<Match>, ms: seq<Match>, ms': seq<Match>)
    requires IsMergeOf(merged, ms) && multiset(ms) == multiset(ms')
    ensures IsMergeOf(merged, ms')
  {
    forall i | 0 <= i < |ms'| ensures Placed(merged, ms', i) {
      var j := SameElement(ms', ms, i);
      assert Placed(merged, ms, j);
    }
    forall k | 0 <= k < |merged| ensures Justified(merged, k, ms', |ms'|) {
      assert Justified(merged, k, ms, |ms|);
      var i :| 0 <= i < |ms| && merged[k] == ms[i].(end := merged[k].end) && ms[i].end <= merged[k].end;
      var j := SameElement(ms, ms', i);
      forall p | Covers(merged[k], p) ensures Covered(ms', p) {
        var i :| 0 <= i < |ms| && Covers(ms[i], p);
        var j := SameElement(ms, ms', i);
      }
      forall p | Spans(merged[k], p) ensures SpannedBy(ms', |ms'|, p) {
        var i :| 0 <= i < |ms| && Spans(ms[i], p);
        var j := SameElement(ms, ms', i);
      }
    }
  }

  lemma {:induction false} SameElement(s: seq<Match>, s': seq<Match>, i: nat) returns (j: nat)
    requires multiset(s) == multiset(s') && i < |s|
    ensures j < |s'| && s'[j] == s[i]
  {
    assert s[i] in multiset(s);
    assert s[i] in s';
    j :| j < |s'| && s'[j] == s[i];
  }

  lemma {:induction false} MergeWithin(merged: seq<Match>, ms: seq<Match>, n: nat)
    requires IsMergeOf(merged, ms) && AllWithin(ms, n)
    ensures AllWithin(merged, n)
  {
    forall k | 0 <= k < |merged| ensures Within(merged[k], n) {
      assert Justified(merged, k, ms, |ms|);
      var i :| 0 <= i < |ms| && merged[k] == ms[i].(end := merged[k].end);
      assert Within(ms[i], n);
      forall p | Covers(merged[k], p) ensures p < n {
        var j :| 0 <= j < |ms| && Covers(ms[j], p);
        assert Within(ms[j], n);
      }
      assert merged[k].end > n ==> Covers(merged[k], merged[k].end - 1);
    }
  }

  // ---------------------------------------------------------------- uniqueness

  predicate AllNonempty(ms: seq<Match>) { forall i | 0 <= i < |ms| :: ms[i].start < ms[i].end }

  predicate SameSpan(a: Match, b: Match) { a.start == b.start && a.end == b.end }

  lemma {:induction false} IntervalsNonempty(merged: seq<Match>, ms: seq<Match>)
    requires IsMergeOf(merged, ms) && AllNonempty(ms)
    ensures AllNonempty(merged)
  {
    forall k | 0 <= k < |merged| ensures merged[k].start < merged[k].end { assert Justified(merged, k, ms, |ms|); }
  }

  /** Two intervals of a merge that share a position are the same one. */
  lemma {:induction false} SharedPosition(merged: seq<Match>, j: nat, k: nat, p: int)
    requires Disjoint(merged) && j < |merged| && k < |merged|
    requires Covers(merged[j], p) && Covers(merged[k], p)
    ensures j == k
  {
  }

  /** No match reaches across the end of an interval. */
  lemma {:induction false} EndIsNotSpanned(merged: seq<Match>, ms: seq<Match>, j: nat)
    requires IsMergeOf(merged, ms) && j < |merged| && merged[j].start < merged[j].end
    ensures !SpannedBy(ms, |ms|, merged[j].end)
  {
    forall m | 0 <= m < |ms| ensures !Spans(ms[m], merged[j].end) {
      assert Placed(merged, ms, m);
      var i :| 0 <= i < |merged| && Inside(ms[m], merged[i]);
      assert i < j ==> merged[i].end <= merged[j].start;
      assert j < i ==> merged[j].end <= merged[i].start;
    }
  }

  /** An interval of one merge lies inside an interval of any other merge of the same nonempty matches. */
  lemma {:induction false} InsideOther(a: seq<Match>, b: seq<Match>, ms: seq<Match>, k: nat) returns (j: nat)
    requires IsMergeOf(a, ms) && IsMergeOf(b, ms) && AllNonempty(ms) && k < |a|
    ensures j < |b| && Inside(a[k], b[j])
  {
    assert Justified(a, k, ms, |ms|);
    var i :| 0 <= i < |ms| && a[k] == ms[i].(end := a[k].end) && ms[i].end <= a[k].end;
    assert Placed(b, ms, i);
    j :| 0 <= j < |b| && Inside(ms[i], b[j]);
    IntervalsNonempty(b, ms);
    EndIsNotSpanned(b, ms, j);
    assert b[j].end < a[k].end ==> Spans(a[k], b[j].end);
  }

  lemma {:induction false} SameAsSome(a: seq<Match>, b: seq<Match>, ms: seq<Match>, k: nat) returns (j: nat)
    requires IsMergeOf(a, ms) && IsMergeOf(b, ms) && AllNonempty(ms) && k < |a|
    ensures j < |b| && SameSpan(a[k], b[j])
  {
    j := InsideOther(a, b, ms, k);
    var k' := InsideOther(b, a, ms, j);
    IntervalsNonempty(a, ms);
    assert Covers(a[k], a[k].start) && Covers(a[k'], a[k].start);
    SharedPosition(a, k, k', a[k].start);
  }

  lemma {:induction false} StartsIncrease(a: seq<Match>)
    requires Disjoint(a) && AllNonempty(a)
    ensures forall i, j | 0 <= i < j < |a| :: a[i].start < a[j].start
  {
  }

  lemma {:induction false} SameUpTo(a: seq<Match>, b: seq<Match>, ms: seq<Match>, n: nat)
    requires IsMergeOf(a, ms) && IsMergeOf(b, ms) && AllNonempty(ms) && n <= |a|
    ensures n <= |b| && forall k | 0 <= k < n :: SameSpan(a[k], b[k])
  {
    if n > 0 {
      var k := n - 1;
      SameUpTo(a, b, ms, k);
      IntervalsNonempty(a, ms);
      IntervalsNonempty(b, ms);
      StartsIncrease(a);
      StartsIncrease(b);
      // the interval that `b` has at place `k` lies in `a` neither before nor behind its `k`-th one
      var j := SameAsSome(a, b, ms, k);
      var i := SameAsSome(b, a, ms, k);
    }
  }

  /** Nonempty matches have only one merge, as far as starts and ends go. */
  lemma {:induction false} MergeSpansUnique(a: seq<Match>, b: seq<Match>, ms: seq<Match>)
    requires IsMergeOf(a, ms) && IsMergeOf(b, ms) && AllNonempty(ms)
    ensures |a| == |b| && forall k | 0 <= k < |a| :: SameSpan(a[k], b[k])
  {
    SameUpTo(a, b, ms, |a|);
    SameUpTo(b, a, ms, |b|);
  }
}

/**
 * The merge of a list of matches sorted by start, as a function; and on which
 * lists the order of matches that start together makes a difference.
 */
module MatchMerging {
  import opened MatchIntervals

  /** Every match ends no earlier than it starts. */
  predicate Proper(ms: seq<Match>) { forall i | 0 <= i < |ms| :: ms[i].start <= ms[i].end }

  /** One more match: it stretches the last interval if it starts inside it, and opens its own otherwise. */
  function Step(merged: seq<Match>, m: Match): (r: seq<Match>)
    ensures r != []
  {
    var k := |merged| - 1;
    if k >= 0 && m.start < merged[k].end then merged[k := Stretched(merged[k], m)] else merged + [m]
  }

  function Merge(s: seq<Match>): seq<Match> {
    if s == [] then [] else Step(Merge(s[..|s| - 1]), s[|s| - 1])
  }

  lemma {:induction false} MergeStep(s: seq<Match>, m: Match)
    ensures Merge(s + [m]) == Step(Merge(s), m)
  {
    assert (s + [m])[..|s|] == s;
  }

  /** `deduplicateMatches` */
  method Deduplicate(matches: seq<Match>) returns (result: seq<Match>)
    ensures result == Merge(matches)
    ensures SortedByStart(matches) && Proper(matches) ==> IsMergeOf(result, matches)
  {
    hide IsMergeOf, SortedByStart, Proper, Merge;
    if SortedByStart(matches) && Proper(matches) { SortedMerges(matches); }
    MergeOfOne(matches);
    if |matches| == 0 { return []; }
    result := [matches[0]];
    for i := 1 to |matches|
      invariant result != [] && result == Merge(matches[..i])
    {
      MergeNext(matches, i);
      var k := |result| - 1;
      if matches[i].start < result[k].end {
        if matches[i].end > result[k].end {
          result := result[k := result[k].(end := matches[i].end)];
        }
        continue;
      }
      result := result + [matches[i]];
    }
    assert matches[..|matches|] == matches;
  }

  lemma {:induction false} MergeOfOne(s: seq<Match>)
    ensures s == [] ==> Merge(s) == []
    ensures s != [] ==> Merge(s[..1]) == [s[0]]
  {
    if s != [] {
      MergeStep([], s[0]);
      assert s[..1] == [] + [s[0]];
    }
  }

  lemma {:induction false} MergeNext(s: seq<Match>, i: nat)
    requires i < |s|
    ensures Merge(s[..i + 1]) == Step(Merge(s[..i]), s[i])
  {
    assert s[..i + 1] == s[..i] + [s[i]];
    MergeStep(s[..i], s[i]);
  }

  lemma {:induction false} NoMatches(s: seq<Match>)
    ensures MergesUpTo([], s, 0)
  {
  }

  /** The last interval starts no later than `m`. */
  predicate LastStartsBefore(merged: seq<Match>, m: Match) { merged != [] ==> merged[|merged| - 1].start <= m.start }

  lemma {:induction false} MergesOneMore(merged: seq<Match>, s: seq<Match>, n: nat)
    requires n < |s| && s[n].start <= s[n].end && MergesUpTo(merged, s, n) && LastStartsBefore(merged, s[n])
    ensures MergesUpTo(Step(merged, s[n]), s, n + 1) && LastStartsBefore(Step(merged, s[n]), s[n])
  {
    hide MergesUpTo;
    var k := |merged| - 1;
    if k >= 0 && s[n].start < merged[k].end {
      var front, last := merged[..k], merged[k];
      assert merged == front + [last];
      MergeStretches(front, last, s, n);
      assert Step(merged, s[n]) == front + [Stretched(last, s[n])];
    } else {
      MergeAppends(merged, s, n);
    }
  }

  /** On matches sorted by start the result is a merge of them. */
  lemma {:induction false} MergeIsMerge(s: seq<Match>, n: nat)
    requires SortedByStart(s) && Proper(s) && n <= |s|
    ensures MergesUpTo(Merge(s[..n]), s, n)
    ensures n > 0 ==> LastStartsBefore(Merge(s[..n]), s[n - 1])
  {
    if n == 0 {
      NoMatches(s);
    } else {
      hide MergesUpTo, Merge, Step;
      var i := n - 1;
      MergeIsMerge(s, i);
      assert s[..n] == s[..i] + [s[i]];
      MergeStep(s[..i], s[i]);
      if i == 0 { NothingMerged(s); }
      MergesOneMore(Merge(s[..i]), s, i);
    }
  }

  lemma {:induction false} NothingMerged(s: seq<Match>)
    ensures Merge(s[..0]) == []
  {
  }

  /** The last interval reaches as far as any match. */
  lemma {:induction false} LastReaches(s: seq<Match>)
    requires Proper(s) && s != []
    ensures var m := Merge(s); m != [] && forall i | 0 <= i < |s| :: s[i].end <= m[|m| - 1].end
  {
    var front := s[..|s| - 1];
    if front != [] { LastReaches(front); }
  }

  // ---------------------------------------------------------------- looking at matches through a function

  /** What a match says besides where it is. */
  datatype Label = Label(patternName: string, value: string, severity: string)

  /** A match with its label seen through `look`. */
  function Seen(look: Label -> Label, m: Match): Match {
    var l := look(Label(m.patternName, m.value, m.severity));
    Match(l.patternName, l.value, m.start, m.end, l.severity)
  }

  function Mapped(look: Label -> Label, s: seq<Match>): (r: seq<Match>)
    ensures |r| == |s| && forall i | 0 <= i < |s| :: r[i] == Seen(look, s[i])
  {
    seq(|s|, i requires 0 <= i < |s| => Seen(look, s[i]))
  }

  lemma {:induction false} MappedFront(look: Label -> Label, s: seq<Match>, n: nat)
    requires n <= |s|
    ensures Mapped(look, s[..n]) == Mapped(look, s)[..n]
  {
    hide Seen;
  }

  lemma {:induction false} StepMapped(look: Label -> Label, merged: seq<Match>, m: Match)
    ensures Step(Mapped(look, merged), Seen(look, m)) == Mapped(look, Step(merged, m))
  {
    var k := |merged| - 1;
    if k >= 0 && m.start < merged[k].end {
      assert Mapped(look, merged[k := Stretched(merged[k], m)])
          == Mapped(look, merged)[k := Stretched(Seen(look, merged[k]), Seen(look, m))];
    } else {
      assert Mapped(look, merged + [m]) == Mapped(look, merged) + [Seen(look, m)];
    }
  }

  /** Merging does not look at labels. */
  lemma {:induction false} MergeMapped(look: Label -> Label, s: seq<Match>)
    ensures Merge(Mapped(look, s)) == Mapped(look, Merge(s))
  {
    if s != [] {
      hide Seen, Step;
      var n := |s| - 1;
      MappedFront(look, s, n);
      MergeMapped(look, s[..n]);
      StepMapped(look, Merge(s[..n]), s[n]);
    }
  }

  // ---------------------------------------------------------------- exchanging matches that start together

  /** `t` lists the matches `s`, sorted by start. */
  predicate Listing(t: seq<Match>, s: seq<Match>) { SortedByStart(t) && multiset(t) == multiset(s) }

  /** Either can open an interval for the other. */
  predicate Alike(a: Match, b: Match) {
    a == b.(end := a.end) && (a.start < a.end <==> b.start < b.end)
  }

  predicate Spanned(s: seq<Match>, p: int) { SpannedBy(s, |s|, p) }

  /** Matches that start together at a position inside no match are alike. */
  predicate OpeningsAgree(s: seq<Match>) {
    forall i, j | 0 <= i < |s| && 0 <= j < |s| && s[i].start == s[j].start && !Spanned(s, s[i].start) ::
        Alike(s[i], s[j])
  }

  lemma {:induction false} StepsCommute(merged: seq<Match>, a: Match, b: Match)
    requires a.start == b.start && a.start <= a.end && b.start <= b.end
    requires (merged != [] && a.start < merged[|merged| - 1].end) || Alike(a, b)
    ensures Step(Step(merged, a), b) == Step(Step(merged, b), a)
  {
    var k := |merged| - 1;
    if k >= 0 && a.start < merged[k].end {
      var last := merged[k];
      assert Step(Step(merged, a), b) == merged[k := Stretched(Stretched(last, a), b)];
      assert Step(Step(merged, b), a) == merged[k := Stretched(Stretched(last, b), a)];
    } else if a.start < a.end {
      assert Step(Step(merged, a), b) == merged + [Stretched(a, b)];
      assert Step(Step(merged, b), a) == merged + [Stretched(b, a)];
    }
  }

  lemma {:induction false} SortedFront(s: seq<Match>, n: nat)
    requires SortedByStart(s) && Proper(s) && n <= |s|
    ensures SortedByStart(s[..n]) && Proper(s[..n])
  {
  }

  /** A match does not span its own start, nor any position before. */
  lemma {:induction false} SpannedByFront(s: seq<Match>, p: int)
    requires s != [] && p <= s[|s| - 1].start
    ensures Spanned(s, p) <==> Spanned(s[..|s| - 1], p)
  {
    var front := s[..|s| - 1];
    if Spanned(s, p) {
      var i :| 0 <= i < |s| && Spans(s[i], p);
      assert front[i] == s[i];
    }
    if Spanned(front, p) {
      var i :| 0 <= i < |front| && Spans(front[i], p);
      assert Spans(s[i], p);
    }
  }

  /** The list without the match at `j`. */
  function Without(t: seq<Match>, j: nat): (r: seq<Match>)
    requires j < |t|
    ensures |r| == |t| - 1
  {
    t[..j] + t[j + 1..]
  }

  lemma {:induction false} WithoutBeforeLast(s: seq<Match>, j: nat)
    requires j + 1 < |s|
    ensures Without(s, j) == Without(s[..|s| - 1], j) + [s[|s| - 1]]
  {
  }

  lemma {:induction false} WithoutLast(s: seq<Match>)
    requires s != []
    ensures Without(s, |s| - 1) == s[..|s| - 1]
    ensures Merge(s) == Step(Merge(s[..|s| - 1]), s[|s| - 1])
  {
  }

  /** A match can be moved behind all others that start with it, if its position is spanned or they are alike. */
  lemma {:induction false} MoveToEnd(s: seq<Match>, j: nat)
    requires SortedByStart(s) && Proper(s) && j < |s|
    requires forall k | j <= k < |s| :: s[k].start == s[j].start
    requires Spanned(s, s[j].start) || forall k | j <= k < |s| :: Alike(s[j], s[k])
    ensures Merge(s) == Step(Merge(Without(s, j)), s[j])
  {
    hide Step, Alike, Spanned, Merge, Without;
    var n := |s| - 1;
    var front, x, y := s[..n], s[j], s[n];
    WithoutLast(s);
    if j < n {
      var w := Without(front, j);
      SortedFront(s, n);
      SpannedByFront(s, x.start);
      MoveToEnd(front, j);
      WithoutBeforeLast(s, j);
      MergeStep(w, y);
      if Spanned(s, x.start) { SpannerBefore(s, j); }
      StepsCommute(Merge(w), x, y);
    }
  }

  /** The match that spans the common start of the last ones stands before them, so its end is reached. */
  lemma {:induction false} SpannerBefore(s: seq<Match>, j: nat)
    requires SortedByStart(s) && Proper(s) && j < |s| - 1 && Spanned(s, s[j].start)
    requires forall k | j <= k < |s| :: s[k].start == s[j].start
    ensures var m := Merge(Without(s[..|s| - 1], j)); m != [] && s[j].start < m[|m| - 1].end
  {
    var w := Without(s[..|s| - 1], j);
    var i :| 0 <= i < |s| && Spans(s[i], s[j].start);
    assert w[i] == s[i];
    LastReaches(w);
  }

  // ---------------------------------------------------------------- any two listings

  lemma {:induction false} FrontAgrees(s: seq<Match>)
    requires SortedByStart(s) && s != [] && OpeningsAgree(s)
    ensures OpeningsAgree(s[..|s| - 1])
  {
    var front := s[..|s| - 1];
    forall i, j | 0 <= i < |front| && 0 <= j < |front| && front[i].start == front[j].start
        && !Spanned(front, front[i].start)
      ensures Alike(front[i], front[j])
    {
      SpannedByFront(s, front[i].start);
    }
  }

  lemma {:induction false} SpannedPermuted(s: seq<Match>, t: seq<Match>, p: int)
    requires multiset(t) == multiset(s)
    ensures Spanned(s, p) <==> Spanned(t, p)
  {
    if Spanned(s, p) {
      var i :| 0 <= i < |s| && Spans(s[i], p);
      var j := SameElement(s, t, i);
    }
    if Spanned(t, p) {
      var i :| 0 <= i < |t| && Spans(t[i], p);
      var j := SameElement(t, s, i);
    }
  }

  lemma {:induction false} AgreePermuted(s: seq<Match>, t: seq<Match>)
    requires multiset(t) == multiset(s) && OpeningsAgree(s)
    ensures OpeningsAgree(t)
  {
    forall i, j | 0 <= i < |t| && 0 <= j < |t| && t[i].start == t[j].start && !Spanned(t, t[i].start)
      ensures Alike(t[i], t[j])
    {
      SpannedPermuted(s, t, t[i].start);
      var i' := SameElement(t, s, i);
      var j' := SameElement(t, s, j);
      assert Alike(s[i'], s[j']);
    }
  }

  lemma {:induction false} ProperPermuted(s: seq<Match>, t: seq<Match>)
    requires multiset(t) == multiset(s) && Proper(s)
    ensures Proper(t)
  {
    forall i | 0 <= i < |t| ensures t[i].start <= t[i].end { var j := SameElement(t, s, i); }
  }

  /** Taking out one match. */
  lemma {:induction false} TakenOut(t: seq<Match>, j: nat)
    requires j < |t|
    ensures multiset(t) == multiset(Without(t, j)) + multiset{t[j]}
  {
    assert t == t[..j] + [t[j]] + t[j + 1..];
  }

  lemma {:induction false} TakenOutOfBoth(s: seq<Match>, t: seq<Match>, i: nat, j: nat)
    requires i < |s| && j < |t| && t[j] == s[i] && multiset(t) == multiset(s)
    ensures multiset(Without(t, j)) == multiset(Without(s, i))
  {
    hide Without;
    TakenOut(s, i);
    TakenOut(t, j);
    assert multiset(Without(t, j)) == multiset(t) - multiset{t[j]};
    assert multiset(Without(s, i)) == multiset(s) - multiset{s[i]};
  }

  lemma {:induction false} SameLength(s: seq<Match>, t: seq<Match>)
    requires multiset(t) == multiset(s)
    ensures |t| == |s|
  {
    assert |multiset(s)| == |s| && |multiset(t)| == |t|;
  }

  lemma {:induction false} SameStartFrom(s: seq<Match>, t: seq<Match>, j: nat)
    requires SortedByStart(s) && Listing(t, s) && s != [] && j < |t| && t[j] == s[|s| - 1]
    ensures forall k | j <= k < |t| :: t[k].start == t[j].start
  {
    forall k | j <= k < |t| ensures t[k].start == t[j].start { var i := SameElement(t, s, k); }
  }

  lemma {:induction false} MayMove(t: seq<Match>, j: nat)
    requires OpeningsAgree(t) && j < |t| && forall k | j <= k < |t| :: t[k].start == t[j].start
    ensures Spanned(t, t[j].start) || forall k | j <= k < |t| :: Alike(t[j], t[k])
  {
    hide Spanned, Alike;
  }

  /** Where openings agree, every sorted listing of the same matches has the same merge. */
  lemma {:induction false} ListingsMergeAlike(s: seq<Match>, t: seq<Match>)
    requires SortedByStart(s) && Proper(s) && OpeningsAgree(s) && Listing(t, s)
    ensures Merge(s) == Merge(t)
    decreases |s|
  {
    SameLength(s, t);
    if s != [] {
      hide Merge, Step, OpeningsAgree, SortedByStart, Proper, Without;
      var n := |s| - 1;
      var j := SameElement(s, t, n);
      TakenOutOfBoth(s, t, n, j);
      WithoutLast(s);
      SameStartFrom(s, t, j);
      ProperPermuted(s, t);
      AgreePermuted(s, t);
      MayMove(t, j);
      MoveToEnd(t, j);
      SortedFront(s, n);
      FrontAgrees(s);
      WithoutOneSorted(t, j);
      ListingsMergeAlike(s[..n], Without(t, j));
    }
  }

  lemma {:induction false} WithoutOneSorted(t: seq<Match>, j: nat)
    requires SortedByStart(t) && j < |t|
    ensures SortedByStart(Without(t, j))
  {
  }

  // ---------------------------------------------------------------- where order matters

  /** A match at which no earlier one is still open opens its interval for good. */
  lemma {:induction false} OpenerStays(s: seq<Match>, i: nat, n: nat)
    requires SortedByStart(s) && Proper(s) && i < n <= |s|
    requires forall j | 0 <= j < i :: s[j].end <= s[i].start
    ensures var k, m := |Merge(s[..i])|, Merge(s[..n]);
            && k < |m| && m[k] == s[i].(end := m[k].end) && s[i].end <= m[k].end
            && (s[i].start == s[i].end ==> m[k].end == s[i].end)
  {
    hide Merge;
    var before, k := Merge(s[..i]), |Merge(s[..i])|;
    assert s[..n] == s[..n - 1] + [s[n - 1]];
    MergeStep(s[..n - 1], s[n - 1]);
    if n == i + 1 {
      if i > 0 { LastEndIsSome(s[..i]); } else { NothingMerged(s); }
      assert Merge(s[..n]) == before + [s[i]];
    } else {
      OpenerStays(s, i, n - 1);
    }
  }

  lemma {:induction false} LastEndIsSome(s: seq<Match>)
    requires s != []
    ensures var m := Merge(s); m != [] && exists i :: 0 <= i < |s| && s[i].end == m[|m| - 1].end
  {
    var n := |s| - 1;
    if n > 0 { LastEndIsSome(s[..n]); }
    var front := Merge(s[..n]);
    if front != [] && s[n].start < front[|front| - 1].end && s[n].end <= front[|front| - 1].end {
      var i :| 0 <= i < n && s[..n][i].end == front[|front| - 1].end;
      assert s[i].end == Merge(s)[|Merge(s)| - 1].end;
    } else {
      assert s[n].end == Merge(s)[|Merge(s)| - 1].end;
    }
  }

  /** The list with the matches at `i` and `j` in each other's place. */
  function Exchanged(s: seq<Match>, i: nat, j: nat): (r: seq<Match>)
    requires i < |s| && j < |s|
    ensures |r| == |s|
  {
    s[i := s[j]][j := s[i]]
  }

  lemma {:induction false} ExchangedPermutes(s: seq<Match>, i: nat, j: nat)
    requires i < |s| && j < |s|
    ensures multiset(Exchanged(s, i, j)) == multiset(s)
  {
    var u := s[i := s[j]];
    assert multiset(u) == multiset(s) - multiset{s[i]} + multiset{s[j]};
    assert multiset(u[j := s[i]]) == multiset(u) - multiset{u[j]} + multiset{s[i]};
  }

  lemma {:induction false} ExchangedListing(s: seq<Match>, i: nat, j: nat)
    requires SortedByStart(s) && i <= j < |s| && s[i].start == s[j].start
    ensures Listing(Exchanged(s, i, j), s)
    ensures Exchanged(s, i, j)[..i] == s[..i]
  {
    ExchangedPermutes(s, i, j);
    assert forall k | 0 <= k < |s| :: Exchanged(s, i, j)[k].start == s[k].start;
  }

  /** The first match of the listing that starts with match `i`. */
  function FirstOf(s: seq<Match>, i: nat): (f: nat)
    requires SortedByStart(s) && i < |s|
    ensures f <= i && s[f].start == s[i].start && forall k | 0 <= k < f :: s[k].start < s[i].start
  {
    if i > 0 && s[i - 1].start == s[i].start then FirstOf(s, i - 1) else i
  }

  /** The interval that the first of a group opens, when no earlier match is still open. */
  lemma {:induction false} GroupOpens(s: seq<Match>, first: nat, i: nat)
    requires SortedByStart(s) && Proper(s) && first <= i < |s| && s[first].start == s[i].start
    requires !Spanned(s, s[i].start) && forall k | 0 <= k < first :: s[k].start < s[i].start
    ensures var a, x := Exchanged(s, first, i), s[i];
            && Listing(a, s)
            && var k, m := |Merge(s[..first])|, Merge(a);
            && k < |m| && m[k] == x.(end := m[k].end) && x.end <= m[k].end && (x.start == x.end ==> m[k].end == x.end)
  {
    hide Merge;
    var a := Exchanged(s, first, i);
    ExchangedListing(s, first, i);
    ProperPermuted(s, a);
    forall k | 0 <= k < first ensures a[k].end <= a[first].start {
      assert a[k] == a[..first][k] == s[k];
      assert !Spans(s[k], s[i].start);
    }
    OpenerStays(a, first, |a|);
    assert a[..|a|] == a;
  }

  /** Unlike matches at one opening position give different merges, by which of them comes first. */
  lemma {:induction false} UnlikeOpenersDiffer(look: Label -> Label, s: seq<Match>, i: nat, j: nat)
    returns (a: seq<Match>, b: seq<Match>)
    requires SortedByStart(s) && Proper(s) && i < |s| && j < |s|
    requires s[i].start == s[j].start && !Spanned(s, s[i].start) && !Alike(Seen(look, s[i]), Seen(look, s[j]))
    ensures Listing(a, s) && Listing(b, s) && Mapped(look, Merge(a)) != Mapped(look, Merge(b))
  {
    hide Merge, Alike, Seen, Spanned, Exchanged;
    var first := FirstOf(s, i);
    assert !(s[j].start < s[i].start);
    a, b := Exchanged(s, first, i), Exchanged(s, first, j);
    GroupOpens(s, first, i);
    GroupOpens(s, first, j);
    DifferAt(look, Merge(a), Merge(b), |Merge(s[..first])|, s[i], s[j]);
  }

  lemma {:induction false} DifferAt(look: Label -> Label, m: seq<Match>, m': seq<Match>, k: nat, x: Match, y: Match)
    requires x.start <= x.end && y.start <= y.end && x.start == y.start && !Alike(Seen(look, x), Seen(look, y))
    requires k < |m| && m[k] == x.(end := m[k].end) && x.end <= m[k].end && (x.start == x.end ==> m[k].end == x.end)
    requires k < |m'| && m'[k] == y.(end := m'[k].end) && y.end <= m'[k].end
             && (y.start == y.end ==> m'[k].end == y.end)
    ensures Mapped(look, m) != Mapped(look, m')
  {
    assert Seen(look, m[k]) != Seen(look, m'[k]);
    assert Mapped(look, m)[k] == Seen(look, m[k]) && Mapped(look, m')[k] == Seen(look, m'[k]);
  }

  lemma {:induction false} MappedWithout(look: Label -> Label, s: seq<Match>, j: nat)
    requires j < |s|
    ensures Mapped(look, Without(s, j)) == Without(Mapped(look, s), j)
  {
  }

  lemma {:induction false} MappedPermutes(look: Label -> Label, s: seq<Match>, t: seq<Match>)
    requires multiset(s) == multiset(t)
    ensures multiset(Mapped(look, s)) == multiset(Mapped(look, t))
    decreases |s|
  {
    SameLength(s, t);
    if s == [] {
      assert Mapped(look, s) == Mapped(look, t);
    } else {
      hide Seen, Without, Mapped;
      var j := SameElement(s, t, 0);
      TakenOutOfBoth(s, t, 0, j);
      MappedPermutes(look, Without(s, 0), Without(t, j));
      MappedWithout(look, s, 0);
      MappedWithout(look, t, j);
      TakenOut(Mapped(look, s), 0);
      TakenOut(Mapped(look, t), j);
    }
  }

  lemma {:induction false} SpannedMapped(look: Label -> Label, s: seq<Match>, p: int)
    ensures Spanned(Mapped(look, s), p) <==> Spanned(s, p)
  {
    var fs := Mapped(look, s);
    assert forall i | 0 <= i < |s| :: Spans(fs[i], p) <==> Spans(s[i], p);
  }

  lemma {:induction false} SortedMapped(look: Label -> Label, s: seq<Match>)
    requires SortedByStart(s) && Proper(s)
    ensures SortedByStart(Mapped(look, s)) && Proper(Mapped(look, s))
  {
    var fs := Mapped(look, s);
    assert forall i | 0 <= i < |s| :: fs[i].start == s[i].start && fs[i].end == s[i].end;
  }

  /** Seen through `look`, every two sorted listings merge alike if openings agree when seen so. */
  lemma {:induction false} ListingsMergeAlikeThrough(look: Label -> Label, s: seq<Match>, t: seq<Match>)
    requires SortedByStart(s) && Proper(s) && Listing(t, s) && OpeningsAgree(Mapped(look, s))
    ensures Mapped(look, Merge(s)) == Mapped(look, Merge(t))
  {
    hide Merge, Seen, Spanned, Alike;
    MappedPermutes(look, s, t);
    SortedMapped(look, s);
    ProperPermuted(s, t);
    SortedMapped(look, t);
    ListingsMergeAlike(Mapped(look, s), Mapped(look, t));
    MergeMapped(look, s);
    MergeMapped(look, t);
  }

  /**
   * The order of matches that start together makes no difference that `look`
   * can see if and only if those that start at a position inside no match are
   * alike as `look` sees them.
   */
  lemma {:induction false} MergeUniqueIff(look: Label -> Label, s: seq<Match>)
    requires SortedByStart(s) && Proper(s)
    ensures (forall t, t' | Listing(t, s) && Listing(t', s) :: Mapped(look, Merge(t)) == Mapped(look, Merge(t')))
       <==> OpeningsAgree(Mapped(look, s))
  {
    hide Merge, Alike, Spanned;
    var fs := Mapped(look, s);
    if OpeningsAgree(fs) {
      forall t, t' | Listing(t, s) && Listing(t', s) ensures Mapped(look, Merge(t)) == Mapped(look, Merge(t')) {
        ListingsMergeAlikeThrough(look, s, t);
        ListingsMergeAlikeThrough(look, s, t');
      }
    } else {
      var i: nat, j: nat :| i < |fs| && j < |fs| && fs[i].start == fs[j].start && !Spanned(fs, fs[i].start)
                            && !Alike(fs[i], fs[j]);
      SpannedMapped(look, s, s[i].start);
      var a, b := UnlikeOpenersDiffer(look, s, i, j);
    }
  }

  // ---------------------------------------------------------------- the value an interval carries

  /** No match before `i` starts with it, but for empty ones. */
  predicate FirstAtItsStart(s: seq<Match>, i: nat) {
    i < |s| && forall j | 0 <= j < i && s[j].start == s[i].start :: s[j].start == s[j].end
  }

  /** The interval `m` is match `i`, stretched to the right unless it is empty. */
  predicate CarriedFrom(s: seq<Match>, m: Match, i: nat) {
    FirstAtItsStart(s, i) && m == s[i].(end := m.end) && s[i].end <= m.end
    && (s[i].start == s[i].end ==> m.end == s[i].end)
  }

  lemma {:induction false} OpenerIsFirst(s: seq<Match>, m: nat)
    requires SortedByStart(s) && Proper(s) && m < |s|
    requires var before := Merge(s[..m]); before != [] ==> before[|before| - 1].end <= s[m].start
    ensures FirstAtItsStart(s, m)
  {
    if m > 0 {
      LastReaches(s[..m]);
      forall j | 0 <= j < m ensures s[j].end <= s[m].start { assert s[..m][j] == s[j]; }
    }
  }

  lemma {:induction false} SortedMerges(s: seq<Match>)
    requires SortedByStart(s) && Proper(s)
    ensures IsMergeOf(Merge(s), s)
  {
    MergeIsMerge(s, |s|);
    assert s[..|s|] == s;
  }

  /** An interval carries everything but its end from the first match that starts with it, empty ones apart. */
  lemma {:induction false} CarriedIsOpener(s: seq<Match>, n: nat, k: nat)
    requires SortedByStart(s) && Proper(s) && n <= |s| && k < |Merge(s[..n])|
    ensures exists i: nat :: i < n && CarriedFrom(s, Merge(s[..n])[k], i)
    decreases n
  {
    if n > 0 {
      var m := n - 1;
      assert s[..n] == s[..m] + [s[m]];
      MergeStep(s[..m], s[m]);
      var before := Merge(s[..m]);
      if k < |before| {
        CarriedIsOpener(s, m, k);
        var i: nat :| i < m && CarriedFrom(s, before[k], i);
        assert s[i].start <= s[m].start;
        assert CarriedFrom(s, Merge(s[..n])[k], i);
      } else {
        OpenerIsFirst(s, m);
        assert CarriedFrom(s, Merge(s[..n])[k], m);
      }
    }
  }
}

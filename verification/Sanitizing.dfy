/**
 * Output masking: matches are sorted in place, merged into disjoint intervals
 * and spliced out of the text, one mask for each interval.
 */
module Sanitizing {
  import opened Wrappers
  import opened MatchIntervals
  import opened MatchMerging

  // ---------------------------------------------------------------- sorting in place

  /** Place `i` compared with all places from `j` on, and exchanged whenever a match there starts earlier. */
  function Pass(s: seq<Match>, i: nat, j: nat): (r: seq<Match>)
    requires i < j <= |s|
    ensures |r| == |s|
    decreases |s| - j
  {
    if j == |s| then s else Pass(if s[j].start < s[i].start then Exchanged(s, i, j) else s, i, j + 1)
  }

  /** The exchange sort, from place `i` on. */
  function SortedFrom(s: seq<Match>, i: nat): (r: seq<Match>)
    requires i <= |s|
    ensures |r| == |s|
    decreases |s| - i
  {
    if i == |s| then s else SortedFrom(Pass(s, i, i + 1), i + 1)
  }

  /** The list as `FindMatches` sorts it. */
  function Sorted(s: seq<Match>): (r: seq<Match>) { SortedFrom(s, 0) }

  method Swap(a: array<Match>, i: nat, j: nat)
    requires i < j < a.Length
    modifies a
    ensures a[..] == Exchanged(old(a[..]), i, j)
  {
    a[i], a[j] := a[j], a[i];
  }

  /** The exchange sort of `FindMatches`. */
  method SortByStart(a: array<Match>)
    modifies a
    ensures a[..] == Sorted(old(a[..]))
    ensures Listing(a[..], old(a[..]))
  {
    for i := 0 to a.Length
      invariant SortedFrom(a[..], i) == Sorted(old(a[..]))
    {
      ghost var goal := Pass(a[..], i, i + 1);
      for j := i + 1 to a.Length
        invariant Pass(a[..], i, j) == goal
      {
        if a[j].start < a[i].start { Swap(a, i, j); }
      }
    }
    SortedIsListing(old(a[..]));
  }

  /** The first `i` places hold matches that start no later than any match after them. */
  predicate Settled(s: seq<Match>, i: nat) {
    forall p, q | 0 <= p < i && p < q < |s| :: s[p].start <= s[q].start
  }

  /** The places before `i` are settled, and so is `i` among those before `j`. */
  predicate Placing(s: seq<Match>, i: nat, j: nat) {
    Settled(s, i) && i < j <= |s| && forall q | i < q < j :: s[i].start <= s[q].start
  }

  lemma {:induction false} SwapKeepsSettled(s: seq<Match>, i: nat, j: nat)
    requires i < j < |s| && Settled(s, i)
    ensures Settled(Exchanged(s, i, j), i) && multiset(Exchanged(s, i, j)) == multiset(s)
  {
    var s' := Exchanged(s, i, j);
    forall p, q | 0 <= p < i && p < q < |s'| ensures s'[p].start <= s'[q].start {
      var q' := if q == i then j else if q == j then i else q;
      assert s[p].start <= s[q'].start;
    }
    ExchangedPermutes(s, i, j);
  }

  lemma {:induction false} PlacingNext(s: seq<Match>, i: nat, j: nat)
    requires Placing(s, i, j) && j < |s|
    ensures var s' := if s[j].start < s[i].start then Exchanged(s, i, j) else s;
            Placing(s', i, j + 1) && multiset(s') == multiset(s)
  {
    if s[j].start < s[i].start {
      SwapKeepsSettled(s, i, j);
      hide Settled;
    }
  }

  lemma {:induction false} PlacedSettles(s: seq<Match>, i: nat)
    requires Placing(s, i, |s|)
    ensures Settled(s, i + 1)
  {
  }

  lemma {:induction false} PassSettles(s: seq<Match>, i: nat, j: nat)
    requires Placing(s, i, j)
    ensures Settled(Pass(s, i, j), i + 1) && multiset(Pass(s, i, j)) == multiset(s)
    decreases |s| - j
  {
    hide Settled, Exchanged;
    if j < |s| {
      PlacingNext(s, i, j);
      PassSettles(if s[j].start < s[i].start then Exchanged(s, i, j) else s, i, j + 1);
    } else {
      PlacedSettles(s, i);
    }
  }

  lemma {:induction false} SortSettles(s: seq<Match>, i: nat)
    requires i <= |s| && Settled(s, i)
    ensures SortedByStart(SortedFrom(s, i)) && multiset(SortedFrom(s, i)) == multiset(s)
    decreases |s| - i
  {
    if i < |s| {
      hide Pass;
      PassSettles(s, i, i + 1);
      SortSettles(Pass(s, i, i + 1), i + 1);
    }
  }

  lemma {:induction false} SortedIsListing(s: seq<Match>)
    ensures Listing(Sorted(s), s)
  {
    SortSettles(s, 0);
  }

  /** The sort looks at starts only. */
  lemma {:induction false} SortedMappedFrom(look: Label -> Label, s: seq<Match>, i: nat)
    requires i <= |s|
    ensures SortedFrom(Mapped(look, s), i) == Mapped(look, SortedFrom(s, i))
    decreases |s| - i
  {
    if i < |s| {
      hide Pass, Seen;
      PassMapped(look, s, i, i + 1);
      SortedMappedFrom(look, Pass(s, i, i + 1), i + 1);
    }
  }

  lemma {:induction false} PassMapped(look: Label -> Label, s: seq<Match>, i: nat, j: nat)
    requires i < j <= |s|
    ensures Pass(Mapped(look, s), i, j) == Mapped(look, Pass(s, i, j))
    decreases |s| - j
  {
    if j < |s| {
      assert Mapped(look, Exchanged(s, i, j)) == Exchanged(Mapped(look, s), i, j);
      PassMapped(look, if s[j].start < s[i].start then Exchanged(s, i, j) else s, i, j + 1);
    }
  }

  /** The order in which matches are found makes no difference that `look` can see, exactly where openings agree. */
  lemma {:induction false} MergeOrderIff(look: Label -> Label, ms: seq<Match>)
    requires Proper(ms)
    ensures (forall t, t' | Listing(t, ms) && Listing(t', ms) :: Mapped(look, Merge(t)) == Mapped(look, Merge(t')))
       <==> OpeningsAgree(Mapped(look, ms))
  {
    hide Merge, Seen, Spanned, Alike;
    var s := Sorted(ms);
    SortedIsListing(ms);
    ProperPermuted(ms, s);
    MergeUniqueIff(look, s);
    MappedPermutes(look, ms, s);
    if OpeningsAgree(Mapped(look, ms)) { AgreePermuted(Mapped(look, ms), Mapped(look, s)); }
    if OpeningsAgree(Mapped(look, s)) { AgreePermuted(Mapped(look, s), Mapped(look, ms)); }
    assert forall t :: Listing(t, ms) <==> Listing(t, s);
  }

  /** Matches as what the merge makes of their spans alone. */
  function SpanLook(): Label -> Label { l => Label("", "", "") }

  /** For spans alone it is that no empty match starts together with a nonempty one at a position inside no match. */
  lemma {:induction false} SpansAgreeIff(ms: seq<Match>)
    ensures OpeningsAgree(Mapped(SpanLook(), ms)) <==>
      forall i, j | 0 <= i < |ms| && 0 <= j < |ms| && ms[i].start == ms[j].start && !Spanned(ms, ms[i].start) ::
        (ms[i].start < ms[i].end <==> ms[j].start < ms[j].end)
  {
    hide Spanned;
    var fs := Mapped(SpanLook(), ms);
    forall i, j | 0 <= i < |ms| && 0 <= j < |ms| && ms[i].start == ms[j].start
      ensures Alike(fs[i], fs[j]) <==> (ms[i].start < ms[i].end <==> ms[j].start < ms[j].end)
      ensures Spanned(fs, fs[i].start) <==> Spanned(ms, ms[i].start)
    {
      SpannedMapped(SpanLook(), ms, ms[i].start);
    }
  }

  // ---------------------------------------------------------------- finding

  /** A pattern is known by the intervals its expression finds in a text, and by its optional validator. */
  datatype Pattern = Pattern(name: string, severity: string, find: string -> seq<(nat, nat)>,
                             validator: Option<string -> bool>)

  predicate FindsWithin(p: Pattern, text: string) {
    forall i | 0 <= i < |p.find(text)| :: p.find(text)[i].0 <= p.find(text)[i].1 <= |text|
  }

  predicate AllFindWithin(ps: seq<Pattern>, text: string) {
    forall i | 0 <= i < |ps| :: FindsWithin(ps[i], text)
  }

  /** The validated matches among the first `n` intervals of one pattern. */
  function MatchesOf(p: Pattern, text: string, n: nat): (ms: seq<Match>)
    requires FindsWithin(p, text) && n <= |p.find(text)|
    ensures AllWithin(ms, |text|)
  {
    if n == 0 then [] else
      var (from, to) := p.find(text)[n - 1];
      var value := text[from..to];
      MatchesOf(p, text, n - 1)
      + (if p.validator.Some? && !p.validator.value(value) then [] else [Match(p.name, value, from, to, p.severity)])
  }

  /** The validated matches of the first `n` patterns. */
  function RawMatches(ps: seq<Pattern>, text: string, n: nat): (ms: seq<Match>)
    requires AllFindWithin(ps, text) && n <= |ps|
    ensures AllWithin(ms, |text|)
  {
    if n == 0 then [] else
      RawMatches(ps, text, n - 1) + MatchesOf(ps[n - 1], text, |ps[n - 1].find(text)|)
  }

  /** What pattern `p` finds as its `i`-th interval is a secret: there is no validator, or it says so. */
  predicate Accepted(p: Pattern, text: string, i: nat)
    requires FindsWithin(p, text) && i < |p.find(text)|
  {
    p.validator.None? || p.validator.value(text[p.find(text)[i].0..p.find(text)[i].1])
  }

  /** Position `q` is in the `i`-th interval of pattern `k`, and what is there is accepted. */
  predicate SecretBy(ps: seq<Pattern>, text: string, k: nat, i: nat, q: int)
    requires AllFindWithin(ps, text)
  {
    && k < |ps| && i < |ps[k].find(text)|
    && ps[k].find(text)[i].0 <= q < ps[k].find(text)[i].1 && Accepted(ps[k], text, i)
  }

  /** Position `q` is in one of the first `n` intervals of pattern `k`, and accepted there. */
  predicate SecretByPattern(ps: seq<Pattern>, text: string, k: nat, n: nat, q: int)
    requires AllFindWithin(ps, text)
  {
    exists i: nat :: i < n && SecretBy(ps, text, k, i, q)
  }

  predicate SecretByFirst(ps: seq<Pattern>, text: string, n: nat, q: int)
    requires AllFindWithin(ps, text)
  {
    exists k: nat :: k < n && k < |ps| && SecretByPattern(ps, text, k, |ps[k].find(text)|, q)
  }

  /** Position `q` is part of some accepted finding. */
  predicate Secret(ps: seq<Pattern>, text: string, q: int)
    requires AllFindWithin(ps, text)
  {
    SecretByFirst(ps, text, |ps|, q)
  }

  lemma {:induction false} CoveredByConcat(a: seq<Match>, b: seq<Match>, q: int)
    ensures Covered(a + b, q) <==> Covered(a, q) || Covered(b, q)
  {
    if i :| 0 <= i < |a| && Covers(a[i], q) { assert Covers((a + b)[i], q); }
    if i :| 0 <= i < |b| && Covers(b[i], q) { assert Covers((a + b)[|a| + i], q); }
  }

  lemma {:induction false} SecretOneMore(ps: seq<Pattern>, text: string, k: nat, n: nat, q: int)
    requires AllFindWithin(ps, text)
    ensures SecretByPattern(ps, text, k, n + 1, q)
       <==> SecretByPattern(ps, text, k, n, q) || SecretBy(ps, text, k, n, q)
    ensures !SecretByPattern(ps, text, k, 0, q)
  {
    hide SecretBy;
  }

  lemma {:induction false} OneMatchCovers(p: Pattern, text: string, n: nat, q: int)
    requires FindsWithin(p, text) && n < |p.find(text)|
    ensures Covered(MatchesOf(p, text, n + 1), q)
       <==> Covered(MatchesOf(p, text, n), q)
            || (Accepted(p, text, n) && p.find(text)[n].0 <= q < p.find(text)[n].1)
  {
    var (from, to) := p.find(text)[n];
    var m := Match(p.name, text[from..to], from, to, p.severity);
    var front := MatchesOf(p, text, n);
    CoveredByConcat(front, [m], q);
    CoveredByConcat(front, [], q);
    assert MatchesOf(p, text, n + 1) == front + (if Accepted(p, text, n) then [m] else []);
    assert Covered([m], q) <==> from <= q < to by { assert [m][0] == m; }
  }

  lemma {:induction false} MatchesCover(ps: seq<Pattern>, text: string, k: nat, n: nat, q: int)
    requires AllFindWithin(ps, text) && k < |ps| && n <= |ps[k].find(text)|
    ensures Covered(MatchesOf(ps[k], text, n), q) <==> SecretByPattern(ps, text, k, n, q)
  {
    if n > 0 {
      hide SecretByPattern, MatchesOf, Accepted;
      MatchesCover(ps, text, k, n - 1, q);
      OneMatchCovers(ps[k], text, n - 1, q);
      SecretOneMore(ps, text, k, n - 1, q);
    }
  }

  lemma {:induction false} RawCover(ps: seq<Pattern>, text: string, n: nat, q: int)
    requires AllFindWithin(ps, text) && n <= |ps|
    ensures Covered(RawMatches(ps, text, n), q) <==> SecretByFirst(ps, text, n, q)
  {
    if n > 0 {
      hide MatchesOf, SecretByPattern, Covered;
      RawCover(ps, text, n - 1, q);
      var last := MatchesOf(ps[n - 1], text, |ps[n - 1].find(text)|);
      MatchesCover(ps, text, n - 1, |ps[n - 1].find(text)|, q);
      CoveredByConcat(RawMatches(ps, text, n - 1), last, q);
    }
  }

  /** Match `m` is the accepted `i`-th finding of pattern `p`, with its name and severity, and the text there. */
  predicate IsFinding(p: Pattern, text: string, i: nat, m: Match)
    requires FindsWithin(p, text) && i < |p.find(text)|
  {
    && Accepted(p, text, i) && m.start == p.find(text)[i].0 && m.end == p.find(text)[i].1
    && m.patternName == p.name && m.severity == p.severity && Within(m, |text|) && m.value == text[m.start..m.end]
  }

  lemma {:induction false} MatchesAreFindings(p: Pattern, text: string, n: nat, m: Match)
    requires FindsWithin(p, text) && n <= |p.find(text)|
    ensures m in MatchesOf(p, text, n) <==> exists i :: 0 <= i < n && IsFinding(p, text, i, m)
  {
    if n > 0 {
      MatchesAreFindings(p, text, n - 1, m);
      var (from, to) := p.find(text)[n - 1];
      var last := Match(p.name, text[from..to], from, to, p.severity);
      assert IsFinding(p, text, n - 1, m) <==> Accepted(p, text, n - 1) && m == last;
    }
  }

  /** The raw matches are exactly the accepted findings of the patterns. */
  lemma {:induction false} RawAreFindings(ps: seq<Pattern>, text: string, n: nat, m: Match)
    requires AllFindWithin(ps, text) && n <= |ps|
    ensures m in RawMatches(ps, text, n)
       <==> exists k, i :: 0 <= k < n && 0 <= i < |ps[k].find(text)| && IsFinding(ps[k], text, i, m)
  {
    if n > 0 {
      hide MatchesOf, IsFinding;
      RawAreFindings(ps, text, n - 1, m);
      MatchesAreFindings(ps[n - 1], text, |ps[n - 1].find(text)|, m);
    }
  }

  /** What is found covers exactly the positions of accepted findings. */
  lemma {:induction false} FoundCoversSecrets(ps: seq<Pattern>, text: string, q: int)
    requires AllFindWithin(ps, text)
    ensures Covered(Found(ps, text), q) <==> Secret(ps, text, q)
  {
    hide Covered, RawMatches, SecretByFirst, IsMergeOf, Found;
    FoundIsMerge(ps, text);
    MergeCoversSame(Found(ps, text), RawMatches(ps, text, |ps|), q);
    RawCover(ps, text, |ps|, q);
  }

  lemma {:induction false} RawProper(ps: seq<Pattern>, text: string)
    requires AllFindWithin(ps, text)
    ensures Proper(RawMatches(ps, text, |ps|))
  {
    var raw := RawMatches(ps, text, |ps|);
    forall i | 0 <= i < |raw| ensures raw[i].start <= raw[i].end { assert Within(raw[i], |text|); }
  }

  /** The matches found in a text, sorted and merged. */
  function Found(ps: seq<Pattern>, text: string): seq<Match>
    requires AllFindWithin(ps, text)
  {
    Merge(Sorted(RawMatches(ps, text, |ps|)))
  }

  /**
   * What is found is a merge of the raw matches, and any sorted listing of them gives
   * the same where openings agree.
   */
  lemma {:induction false} FoundIsMerge(ps: seq<Pattern>, text: string)
    requires AllFindWithin(ps, text)
    ensures IsMergeOf(Found(ps, text), RawMatches(ps, text, |ps|)) && AllWithin(Found(ps, text), |text|)
  {
    hide Merge, RawMatches, Sorted;
    var raw := RawMatches(ps, text, |ps|);
    var s := Sorted(raw);
    RawProper(ps, text);
    SortedIsListing(raw);
    ProperPermuted(raw, s);
    SortedMerges(s);
    MergeOfPermutation(Merge(s), s, raw);
    MergeWithin(Merge(s), raw, |text|);
  }

  lemma {:induction false} FoundAnyOrder(look: Label -> Label, ps: seq<Pattern>, text: string, t: seq<Match>)
    requires AllFindWithin(ps, text)
    requires Listing(t, RawMatches(ps, text, |ps|)) && OpeningsAgree(Mapped(look, RawMatches(ps, text, |ps|)))
    ensures Mapped(look, Found(ps, text)) == Mapped(look, Merge(t))
  {
    hide Merge, RawMatches, Sorted, Mapped, OpeningsAgree;
    var raw := RawMatches(ps, text, |ps|);
    RawProper(ps, text);
    SortedIsListing(raw);
    MergeOrderIff(look, raw);
  }

  function AsIs(): Label -> Label { l => l }

  lemma {:induction false} SeenAsIs(s: seq<Match>)
    ensures Mapped(AsIs(), s) == s
  {
  }

  /**
   * `FindMatches`: collect, sort in place, merge. Another order of the same
   * matches would give the same spans, and the same matches, whenever openings
   * agree in that.
   */
  method FindMatches(ps: seq<Pattern>, text: string) returns (result: seq<Match>)
    requires AllFindWithin(ps, text)
    ensures result == Found(ps, text) && IsMergeOf(result, RawMatches(ps, text, |ps|))
    ensures forall q :: Covered(result, q) <==> Secret(ps, text, q)
    ensures forall t | Listing(t, RawMatches(ps, text, |ps|)) ::
              && (OpeningsAgree(RawMatches(ps, text, |ps|)) ==> result == Merge(t))
              && (OpeningsAgree(Mapped(SpanLook(), RawMatches(ps, text, |ps|))) ==>
                    Mapped(SpanLook(), result) == Mapped(SpanLook(), Merge(t)))
  {
    var all: seq<Match> := [];
    for k := 0 to |ps|
      invariant all == RawMatches(ps, text, k)
    {
      var p := ps[k];
      var found := p.find(text);
      for i := 0 to |found|
        invariant all == RawMatches(ps, text, k) + MatchesOf(p, text, i)
      {
        var value := text[found[i].0..found[i].1];
        if p.validator.Some? && !p.validator.value(value) { continue; }
        all := all + [Match(p.name, value, found[i].0, found[i].1, p.severity)];
      }
    }
    var a := new Match[|all|](i requires 0 <= i < |all| => all[i]);
    assert a[..] == all;
    SortByStart(a);
    result := Deduplicate(a[..]);
    forall q ensures Covered(result, q) <==> Secret(ps, text, q) { FoundCoversSecrets(ps, text, q); }
    FoundInEveryOrder(ps, text);
    FoundIsMerge(ps, text);
  }

  lemma {:induction false} FoundInEveryOrder(ps: seq<Pattern>, text: string)
    requires AllFindWithin(ps, text)
    ensures forall t | Listing(t, RawMatches(ps, text, |ps|)) ::
              && (OpeningsAgree(RawMatches(ps, text, |ps|)) ==> Found(ps, text) == Merge(t))
              && (OpeningsAgree(Mapped(SpanLook(), RawMatches(ps, text, |ps|))) ==>
                    Mapped(SpanLook(), Found(ps, text)) == Mapped(SpanLook(), Merge(t)))
  {
    hide Merge, RawMatches, Sorted, OpeningsAgree, Mapped, Found, SpanLook, AsIs;
    var raw := RawMatches(ps, text, |ps|);
    forall t | Listing(t, raw)
      ensures OpeningsAgree(raw) ==> Found(ps, text) == Merge(t)
      ensures OpeningsAgree(Mapped(SpanLook(), raw))
              ==> Mapped(SpanLook(), Found(ps, text)) == Mapped(SpanLook(), Merge(t))
    {
      SeenAsIs(raw);
      SeenAsIs(Merge(t));
      SeenAsIs(Found(ps, text));
      if OpeningsAgree(raw) { FoundAnyOrder(AsIs(), ps, text, t); }
      if OpeningsAgree(Mapped(SpanLook(), raw)) { FoundAnyOrder(SpanLook(), ps, text, t); }
    }
  }

  // ---------------------------------------------------------------- splicing

  datatype MaskOptions = MaskOptions(maskWithOPRefs: bool, resolver: Option<string -> Option<string>>,
          customMask: string)

  function MaskFor(opts: MaskOptions, m: Match): string {
    var customMask := if opts.customMask == "" then "***" else opts.customMask;
    if opts.maskWithOPRefs && opts.resolver.Some? then
      match opts.resolver.value(m.value)
      case Some(path) => "[MASKED: op://" + path + "]"
      case None => customMask
    else customMask
  }

  /** The masks of the intervals, from the `k`-th on, that start at `p`. */
  function MasksAt(opts: MaskOptions, ms: seq<Match>, k: nat, p: nat): string
    requires k <= |ms|
    decreases |ms| - k
  {
    if k == |ms| then ""
    else (if ms[k].start == p then MaskFor(opts, ms[k]) else "") + MasksAt(opts, ms, k + 1, p)
  }

  predicate CoveredFrom(ms: seq<Match>, k: nat, p: int) { exists i :: k <= i < |ms| && Covers(ms[i], p) }

  /**
   * The text from `p` on, masked position by position by the intervals from the
   * `k`-th on: first the masks of the intervals that start at a position, then
   * its character unless it is covered.
   */
  function Redacted(opts: MaskOptions, text: string, ms: seq<Match>, k: nat, p: nat): string
    requires k <= |ms| && p <= |text|
    decreases |text| - p
  {
    MasksAt(opts, ms, k, p)
    + (if p == |text| then ""
       else (if CoveredFrom(ms, k, p) then "" else [text[p]]) + Redacted(opts, text, ms, k, p + 1))
  }

  lemma {:induction false} NoMasksAt(opts: MaskOptions, ms: seq<Match>, k: nat, p: nat)
    requires k <= |ms| && forall i | k <= i < |ms| :: ms[i].start != p
    ensures MasksAt(opts, ms, k, p) == ""
    decreases |ms| - k
  {
    if k < |ms| { NoMasksAt(opts, ms, k + 1, p); }
  }

  lemma {:induction false} NothingLeft(opts: MaskOptions, text: string, ms: seq<Match>)
    ensures Redacted(opts, text, ms, |ms|, |text|) == ""
  {
  }

  lemma {:induction false} PassedHere(opts: MaskOptions, ms: seq<Match>, k: nat, p: nat)
    requires k < |ms| && ms[k].start < p && ms[k].end <= p
    ensures MasksAt(opts, ms, k, p) == MasksAt(opts, ms, k + 1, p)
    ensures CoveredFrom(ms, k, p) <==> CoveredFrom(ms, k + 1, p)
  {
  }

  /** Past its end, an interval no longer matters. */
  lemma {:induction false} IntervalPassed(opts: MaskOptions, text: string, ms: seq<Match>, k: nat, p: nat)
    requires k < |ms| && ms[k].start < p && ms[k].end <= p <= |text|
    ensures Redacted(opts, text, ms, k, p) == Redacted(opts, text, ms, k + 1, p)
    decreases |text| - p
  {
    hide MasksAt, CoveredFrom;
    PassedHere(opts, ms, k, p);
    if p < |text| { IntervalPassed(opts, text, ms, k, p + 1); }
  }

  /** Inside an interval nothing is written. */
  lemma {:induction false} IntervalSilent(opts: MaskOptions, text: string, ms: seq<Match>, k: nat, p: nat)
    requires Disjoint(ms) && k < |ms| && ms[k].start < p <= ms[k].end <= |text|
    ensures Redacted(opts, text, ms, k, p) == Redacted(opts, text, ms, k + 1, ms[k].end)
    decreases |text| - p
  {
    if p == ms[k].end {
      IntervalPassed(opts, text, ms, k, p);
    } else {
      forall i | k <= i < |ms| ensures ms[i].start != p { if i > k { assert ms[k].end <= ms[i].start; } }
      NoMasksAt(opts, ms, k, p);
      assert Covers(ms[k], p);
      IntervalSilent(opts, text, ms, k, p + 1);
    }
  }

  lemma {:induction false} NothingAt(opts: MaskOptions, ms: seq<Match>, k: nat, p: nat)
    requires k <= |ms| && forall i | k <= i < |ms| :: p < ms[i].start
    ensures MasksAt(opts, ms, k, p) == "" && !CoveredFrom(ms, k, p)
  {
    NoMasksAt(opts, ms, k, p);
  }

  /** Before an interval starts, the text is copied. */
  lemma {:induction false} GapCopied(opts: MaskOptions, text: string, ms: seq<Match>, k: nat, p: nat, to: nat)
    requires k <= |ms| && p <= to <= |text|
    requires forall i | k <= i < |ms| :: to <= ms[i].start
    ensures Redacted(opts, text, ms, k, p) == text[p..to] + Redacted(opts, text, ms, k, to)
    decreases |text| - p
  {
    hide MasksAt, CoveredFrom;
    if p < to {
      NothingAt(opts, ms, k, p);
      GapCopied(opts, text, ms, k, p + 1, to);
      assert text[p..to] == [text[p]] + text[p + 1..to];
    }
  }

  /** At the start of an interval its mask comes first, and then those of the intervals behind it. */
  lemma {:induction false} MaskFirst(opts: MaskOptions, ms: seq<Match>, k: nat)
    requires Disjoint(ms) && k < |ms|
    ensures MasksAt(opts, ms, k, ms[k].start) == MaskFor(opts, ms[k]) + MasksAt(opts, ms, k + 1, ms[k].start)
    ensures ms[k].start < ms[k].end ==> MasksAt(opts, ms, k + 1, ms[k].start) == "" && CoveredFrom(ms, k, ms[k].start)
    ensures ms[k].start == ms[k].end ==>
              (CoveredFrom(ms, k, ms[k].start) <==> CoveredFrom(ms, k + 1, ms[k].start))
  {
    hide MaskFor;
    var p := ms[k].start;
    if p < ms[k].end {
      forall i | k + 1 <= i < |ms| ensures ms[i].start != p { assert ms[k].end <= ms[i].start; }
      NoMasksAt(opts, ms, k + 1, p);
      assert Covers(ms[k], p);
    }
  }

  /** What follows the masks at `p`. */
  function AfterMasks(opts: MaskOptions, text: string, ms: seq<Match>, k: nat, p: nat): string
    requires k <= |ms| && p <= |text|
  {
    if p == |text| then ""
    else (if CoveredFrom(ms, k, p) then "" else [text[p]]) + Redacted(opts, text, ms, k, p + 1)
  }

  lemma {:induction false} MasksThenRest(opts: MaskOptions, text: string, ms: seq<Match>, k: nat, p: nat)
    requires k <= |ms| && p <= |text|
    ensures Redacted(opts, text, ms, k, p) == MasksAt(opts, ms, k, p) + AfterMasks(opts, text, ms, k, p)
  {
    hide MasksAt, CoveredFrom;
  }

  lemma {:induction false} AfterMaskAt(opts: MaskOptions, text: string, ms: seq<Match>, k: nat)
    requires Disjoint(ms) && k < |ms| && Within(ms[k], |text|)
    ensures AfterMasks(opts, text, ms, k, ms[k].start)
            == if ms[k].start == ms[k].end then AfterMasks(opts, text, ms, k + 1, ms[k].start)
               else Redacted(opts, text, ms, k + 1, ms[k].end)
  {
    hide MaskFor, MasksAt, CoveredFrom, Disjoint, Redacted;
    MaskFirst(opts, ms, k);
    var p := ms[k].start;
    if p < |text| {
      if p == ms[k].end {
        IntervalPassed(opts, text, ms, k, p + 1);
      } else {
        IntervalSilent(opts, text, ms, k, p + 1);
      }
    }
  }

  /** At its start an interval writes its mask and skips to its end. */
  lemma {:induction false} IntervalMasked(opts: MaskOptions, text: string, ms: seq<Match>, k: nat)
    requires Disjoint(ms) && k < |ms| && Within(ms[k], |text|)
    ensures Redacted(opts, text, ms, k, ms[k].start)
            == MaskFor(opts, ms[k]) + Redacted(opts, text, ms, k + 1, ms[k].end)
  {
    hide MaskFor, MasksAt, CoveredFrom, Disjoint, Redacted, AfterMasks;
    var p, end := ms[k].start, ms[k].end;
    MaskFirst(opts, ms, k);
    AfterMaskAt(opts, text, ms, k);
    MasksThenRest(opts, text, ms, k, p);
    MasksThenRest(opts, text, ms, k + 1, p);
    MaskedEither(MaskFor(opts, ms[k]), MasksAt(opts, ms, k + 1, p), AfterMasks(opts, text, ms, k, p),
                 Redacted(opts, text, ms, k + 1, end), p < end);
  }

  lemma {:induction false} MaskedEither(mask: string, later: string, after: string, rest: string, solid: bool)
    requires if solid then later == "" && after == rest else later + after == rest
    ensures (mask + later) + after == mask + rest
  {
  }

  lemma {:induction false} Regroup(a: string, b: string, c: string, d: string)
    ensures a + (b + (c + d)) == a + b + c + d
  {
  }

  lemma {:induction false} LaterStarts(ms: seq<Match>, k: nat)
    requires Disjoint(ms) && k < |ms|
    ensures forall i | k <= i < |ms| :: ms[k].start <= ms[i].start
    ensures forall i | k + 1 <= i < |ms| :: ms[k].end <= ms[i].start
  {
  }

  /** What `Sanitize` makes of a text. */
  function Sanitized(ps: seq<Pattern>, text: string, opts: MaskOptions): string
    requires AllFindWithin(ps, text)
  {
    Redacted(opts, text, Found(ps, text), 0, 0)
  }

  /** Labels as the masks see them. */
  function MaskLook(opts: MaskOptions): Label -> Label {
    (l: Label) => Label("", MaskFor(opts, Match("", l.value, 0, 0, "")), "")
  }

  /**
   * `Sanitize`: the text with every merged interval replaced by one mask, in whatever
   * order equal starts are sorted if their masks agree.
   */
  method Sanitize(ps: seq<Pattern>, text: string, opts: MaskOptions) returns (out: string)
    requires AllFindWithin(ps, text)
    ensures out == Sanitized(ps, text, opts)
    ensures forall t | Listing(t, RawMatches(ps, text, |ps|))
            && OpeningsAgree(Mapped(MaskLook(opts), RawMatches(ps, text, |ps|))) ::
              out == Redacted(opts, text, Merge(t), 0, 0)
  {
    hide Redacted, RawMatches, MaskFor, Merge, Sorted, OpeningsAgree, Mapped, MaskLook, Listing;
    SanitizedInEveryOrder(ps, text, opts);
    var matches := FindMatches(ps, text);
    FoundIsMerge(ps, text);
    if |matches| == 0 {
      GapCopied(opts, text, matches, 0, 0, |text|);
      NothingLeft(opts, text, matches);
      return text;
    }
    out := "";
    var lastEnd: nat := 0;
    for k := 0 to |matches|
      invariant lastEnd <= |text|
      invariant forall i | k <= i < |matches| :: lastEnd <= matches[i].start
      invariant Sanitized(ps, text, opts) == out + Redacted(opts, text, matches, k, lastEnd)
    {
      var m := matches[k];
      assert Within(m, |text|);
      LaterStarts(matches, k);
      GapCopied(opts, text, matches, k, lastEnd, m.start);
      IntervalMasked(opts, text, matches, k);
      Regroup(out, text[lastEnd..m.start], MaskFor(opts, m), Redacted(opts, text, matches, k + 1, m.end));
      out := out + text[lastEnd..m.start];
      out := out + MaskFor(opts, m);
      lastEnd := m.end;
    }
    GapCopied(opts, text, matches, |matches|, lastEnd, |text|);
    NothingLeft(opts, text, matches);
    out := out + text[lastEnd..];
  }

  // ---------------------------------------------------------------- what the output is made of

  /** A character copied from a place of the text, or a mask. */
  datatype Piece = Copied(at: nat) | Mask(mask: string)

  /** What is copied comes from places between `lo` and `hi`. */
  predicate CopiesWithin(pieces: seq<Piece>, lo: nat, hi: nat) {
    forall i | 0 <= i < |pieces| && pieces[i].Copied? :: lo <= pieces[i].at < hi
  }

  predicate AllMasks(pieces: seq<Piece>) { forall i | 0 <= i < |pieces| :: pieces[i].Mask? }

  function Spelled(text: string, pieces: seq<Piece>): string
    requires CopiesWithin(pieces, 0, |text|)
  {
    if pieces == [] then ""
    else (match pieces[0] case Copied(at) => [text[at]] case Mask(mask) => mask) + Spelled(text, pieces[1..])
  }

  function MaskPieces(opts: MaskOptions, ms: seq<Match>, k: nat, p: nat): (pieces: seq<Piece>)
    requires k <= |ms|
    ensures AllMasks(pieces)
    decreases |ms| - k
  {
    if k == |ms| then []
    else (if ms[k].start == p then [Mask(MaskFor(opts, ms[k]))] else []) + MaskPieces(opts, ms, k + 1, p)
  }

  function Pieces(opts: MaskOptions, text: string, ms: seq<Match>, p: nat): (pieces: seq<Piece>)
    requires p <= |text|
    ensures CopiesWithin(pieces, p, |text|)
    decreases |text| - p
  {
    MaskPieces(opts, ms, 0, p)
    + (if p == |text| then [] else (if Covered(ms, p) then [] else [Copied(p)]) + Pieces(opts, text, ms, p + 1))
  }

  lemma {:induction false} SpelledConcat(text: string, a: seq<Piece>, b: seq<Piece>)
    requires CopiesWithin(a, 0, |text|) && CopiesWithin(b, 0, |text|)
    ensures Spelled(text, a + b) == Spelled(text, a) + Spelled(text, b)
  {
    if a == [] {
      assert a + b == b;
    } else {
      assert (a + b)[1..] == a[1..] + b;
      SpelledConcat(text, a[1..], b);
    }
  }

  lemma {:induction false} SpelledMasks(opts: MaskOptions, text: string, ms: seq<Match>, k: nat, p: nat)
    requires k <= |ms|
    ensures Spelled(text, MaskPieces(opts, ms, k, p)) == MasksAt(opts, ms, k, p)
    decreases |ms| - k
  {
    if k < |ms| {
      hide MaskFor;
      SpelledMasks(opts, text, ms, k + 1, p);
      var one := if ms[k].start == p then [Mask(MaskFor(opts, ms[k]))] else [];
      SpelledConcat(text, one, MaskPieces(opts, ms, k + 1, p));
      SpelledOne(text, Mask(MaskFor(opts, ms[k])));
    }
  }

  lemma {:induction false} SpelledOne(text: string, piece: Piece)
    requires piece.Copied? ==> piece.at < |text|
    ensures Spelled(text, [piece]) == match piece case Copied(at) => [text[at]] case Mask(mask) => mask
    ensures Spelled(text, []) == ""
  {
    assert [piece][1..] == [];
  }

  lemma {:induction false} SpelledIsRedacted(opts: MaskOptions, text: string, ms: seq<Match>, p: nat)
    requires p <= |text|
    ensures Spelled(text, Pieces(opts, text, ms, p)) == Redacted(opts, text, ms, 0, p)
    decreases |text| - p
  {
    hide MasksAt, MaskPieces, MaskFor, Spelled;
    SpelledMasks(opts, text, ms, 0, p);
    var masks := MaskPieces(opts, ms, 0, p);
    SpelledOne(text, Mask(""));
    if p == |text| {
      SpelledConcat(text, masks, []);
    } else {
      var here := if Covered(ms, p) then [] else [Copied(p)];
      var rest := Pieces(opts, text, ms, p + 1);
      SpelledIsRedacted(opts, text, ms, p + 1);
      assert CoveredFrom(ms, 0, p) <==> Covered(ms, p);
      SpelledOne(text, Copied(p));
      SpelledConcat(text, here, rest);
      SpelledConcat(text, masks, here + rest);
    }
  }

  predicate CopiesInOrder(pieces: seq<Piece>) {
    forall i, j | 0 <= i < j < |pieces| && pieces[i].Copied? && pieces[j].Copied? :: pieces[i].at < pieces[j].at
  }

  lemma {:induction false} CopiesConcat(masks: seq<Piece>, here: seq<Piece>, rest: seq<Piece>, p: nat, hi: nat,
          at: nat)
    requires AllMasks(masks) && (here == [] || here == [Copied(p)])
    requires CopiesInOrder(rest) && CopiesWithin(rest, p + 1, hi)
    ensures CopiesInOrder(masks + (here + rest))
    ensures Copied(at) in masks + (here + rest) <==> (here == [Copied(p)] && at == p) || Copied(at) in rest
  {
  }

  lemma {:induction false} CopiedIff(opts: MaskOptions, text: string, ms: seq<Match>, p: nat, at: nat)
    requires p <= |text|
    ensures Copied(at) in Pieces(opts, text, ms, p) <==> p <= at < |text| && !Covered(ms, at)
    ensures CopiesInOrder(Pieces(opts, text, ms, p))
    decreases |text| - p
  {
    hide Covered, MaskFor, MaskPieces, CopiesInOrder, AllMasks, CopiesWithin;
    var masks := MaskPieces(opts, ms, 0, p);
    if p < |text| {
      CopiedIff(opts, text, ms, p + 1, at);
      CopiesConcat(masks, if Covered(ms, p) then [] else [Copied(p)], Pieces(opts, text, ms, p + 1), p, |text|, at);
      if Copied(at) in Pieces(opts, text, ms, p + 1) {
        CopiesFrom(Pieces(opts, text, ms, p + 1), p + 1, |text|, at);
      }
    } else {
      NothingCopied();
      CopiesConcat(masks, [], [], p, |text|, at);
      assert masks + ([] + []) == Pieces(opts, text, ms, p);
    }
  }

  lemma {:induction false} CopiesFrom(pieces: seq<Piece>, lo: nat, hi: nat, at: nat)
    requires CopiesWithin(pieces, lo, hi) && Copied(at) in pieces
    ensures lo <= at < hi
  {
  }

  lemma {:induction false} NothingCopied()
    ensures CopiesInOrder([])
  {
  }

  lemma {:induction false} MaskPieceIsMask(opts: MaskOptions, ms: seq<Match>, k: nat, p: nat, mask: string)
    requires k <= |ms| && Mask(mask) in MaskPieces(opts, ms, k, p)
    ensures exists i :: k <= i < |ms| && ms[i].start == p && mask == MaskFor(opts, ms[i])
    decreases |ms| - k
  {
    hide MaskFor;
    if Mask(mask) in MaskPieces(opts, ms, k + 1, p) { MaskPieceIsMask(opts, ms, k + 1, p, mask); }
  }

  lemma {:induction false} MaskIsOfSome(opts: MaskOptions, text: string, ms: seq<Match>, p: nat, mask: string)
    requires p <= |text| && Mask(mask) in Pieces(opts, text, ms, p)
    ensures exists i :: 0 <= i < |ms| && mask == MaskFor(opts, ms[i])
    decreases |text| - p
  {
    hide MaskFor, MaskPieces;
    if Mask(mask) in MaskPieces(opts, ms, 0, p) {
      MaskPieceIsMask(opts, ms, 0, p, mask);
    } else {
      MaskIsOfSome(opts, text, ms, p + 1, mask);
    }
  }

  /**
   * The output consists of masks and of characters copied from the text, in order;
   * and a character is copied if and only if it is in no accepted finding.
   */
  lemma {:induction false} OnlyPlainTextCopied(ps: seq<Pattern>, text: string, opts: MaskOptions)
    requires AllFindWithin(ps, text)
    ensures var pieces := Pieces(opts, text, Found(ps, text), 0);
            && Sanitized(ps, text, opts) == Spelled(text, pieces) && CopiesInOrder(pieces)
            && (forall at: nat :: Copied(at) in pieces <==> at < |text| && !Secret(ps, text, at))
            && (forall mask | Mask(mask) in pieces ::
                  exists i :: 0 <= i < |Found(ps, text)| && mask == MaskFor(opts, Found(ps, text)[i]))
  {
    hide Covered, MaskFor, Secret, Pieces, Spelled, Redacted, Found, CopiesInOrder;
    var found := Found(ps, text);
    SpelledIsRedacted(opts, text, found, 0);
    CopiedIff(opts, text, found, 0, 0);
    forall at: nat ensures Copied(at) in Pieces(opts, text, found, 0) <==> at < |text| && !Secret(ps, text, at) {
      CopiedIff(opts, text, found, 0, at);
      FoundCoversSecrets(ps, text, at);
    }
    forall mask | Mask(mask) in Pieces(opts, text, found, 0)
      ensures exists i :: 0 <= i < |found| && mask == MaskFor(opts, found[i])
    {
      MaskIsOfSome(opts, text, found, 0, mask);
    }
  }

  lemma {:induction false} SanitizedInEveryOrder(ps: seq<Pattern>, text: string, opts: MaskOptions)
    requires AllFindWithin(ps, text)
    ensures forall t | Listing(t, RawMatches(ps, text, |ps|))
            && OpeningsAgree(Mapped(MaskLook(opts), RawMatches(ps, text, |ps|))) ::
              Sanitized(ps, text, opts) == Redacted(opts, text, Merge(t), 0, 0)
  {
    hide Merge, RawMatches, Sorted, OpeningsAgree, Mapped, Found, MaskLook, Listing, Redacted;
    var raw := RawMatches(ps, text, |ps|);
    forall t | Listing(t, raw) && OpeningsAgree(Mapped(MaskLook(opts), raw))
      ensures Sanitized(ps, text, opts) == Redacted(opts, text, Merge(t), 0, 0)
    {
      FoundAnyOrder(MaskLook(opts), ps, text, t);
      RedactedByMasks(opts, text, Found(ps, text), Merge(t), 0);
    }
  }

  lemma {:induction false} MasksSame(opts: MaskOptions, ms: seq<Match>, ms': seq<Match>)
    requires Mapped(MaskLook(opts), ms) == Mapped(MaskLook(opts), ms')
    ensures |ms| == |ms'|
    ensures forall i | 0 <= i < |ms| :: SameSpan(ms[i], ms'[i]) && MaskFor(opts, ms[i]) == MaskFor(opts, ms'[i])
  {
    var fs, fs' := Mapped(MaskLook(opts), ms), Mapped(MaskLook(opts), ms');
    assert |fs| == |ms| && |fs'| == |ms'|;
    forall i | 0 <= i < |ms| ensures SameSpan(ms[i], ms'[i]) && MaskFor(opts, ms[i]) == MaskFor(opts, ms'[i]) {
      assert fs[i] == fs'[i];
      assert fs[i] == Seen(MaskLook(opts), ms[i]) && fs'[i] == Seen(MaskLook(opts), ms'[i]);
      assert fs[i].value == MaskFor(opts, ms[i]) && fs'[i].value == MaskFor(opts, ms'[i]);
    }
  }

  lemma {:induction false} MasksAtSame(opts: MaskOptions, ms: seq<Match>, ms': seq<Match>, k: nat, p: nat)
    requires |ms| == |ms'| && k <= |ms|
    requires forall i | 0 <= i < |ms| :: SameSpan(ms[i], ms'[i]) && MaskFor(opts, ms[i]) == MaskFor(opts, ms'[i])
    ensures MasksAt(opts, ms, k, p) == MasksAt(opts, ms', k, p)
    decreases |ms| - k
  {
    hide MaskFor;
    if k < |ms| { MasksAtSame(opts, ms, ms', k + 1, p); }
  }

  lemma {:induction false} CoveredSame(ms: seq<Match>, ms': seq<Match>, k: nat, p: int)
    requires |ms| == |ms'| && forall i | 0 <= i < |ms| :: SameSpan(ms[i], ms'[i])
    ensures CoveredFrom(ms, k, p) <==> CoveredFrom(ms', k, p)
  {
    assert forall i | 0 <= i < |ms| :: Covers(ms[i], p) <==> Covers(ms'[i], p);
  }

  /** The output depends on the spans of the intervals and on their masks only. */
  lemma {:induction false} RedactedByMasks(opts: MaskOptions, text: string, ms: seq<Match>, ms': seq<Match>, p: nat)
    requires Mapped(MaskLook(opts), ms) == Mapped(MaskLook(opts), ms') && p <= |text|
    ensures Redacted(opts, text, ms, 0, p) == Redacted(opts, text, ms', 0, p)
    decreases |text| - p
  {
    hide MasksAt, CoveredFrom, MaskFor, Mapped, MaskLook;
    MasksSame(opts, ms, ms');
    MasksAtSame(opts, ms, ms', 0, p);
    CoveredSame(ms, ms', 0, p);
    if p < |text| { RedactedByMasks(opts, text, ms, ms', p + 1); }
  }

  // ---------------------------------------------------------------- no leak

  /** Masks that come from a resolver depend on what was matched. */
  predicate UsesResolver(opts: MaskOptions) { opts.maskWithOPRefs && opts.resolver.Some? }

  /** Every pattern finds the same intervals in both texts, and its validator decides alike on what is in them. */
  predicate FindsAlike(ps: seq<Pattern>, text: string, text': string)
    requires AllFindWithin(ps, text) && AllFindWithin(ps, text')
  {
    forall k | 0 <= k < |ps| :: ps[k].find(text) == ps[k].find(text')
      && forall i | 0 <= i < |ps[k].find(text)| :: Accepted(ps[k], text, i) == Accepted(ps[k], text', i)
  }

  /** Two values the resolver, if it is asked, gives the same answer on. */
  predicate ResolveAlike(opts: MaskOptions, value: string, value': string) {
    UsesResolver(opts) ==> opts.resolver.value(value) == opts.resolver.value(value')
  }

  /** Masks say nothing of what they cover beyond the resolver's answer. */
  lemma {:induction false} MaskTellsAnswerOnly(opts: MaskOptions, m: Match, m': Match)
    requires ResolveAlike(opts, m.value, m'.value)
    ensures MaskFor(opts, m) == MaskFor(opts, m')
  {
  }

  /**
   * A value the resolver knows is replaced by its reference, from which the path can
   * be told, and every other by one mask.
   */
  lemma {:induction false} MasksNamePaths(opts: MaskOptions, m: Match, m': Match, path: string, path': string)
    requires UsesResolver(opts)
    ensures opts.resolver.value(m.value) == Some(path) && opts.resolver.value(m'.value) == Some(path') ==>
              (MaskFor(opts, m) == MaskFor(opts, m') <==> path == path')
    ensures opts.resolver.value(m.value) == Some(path) ==> MaskFor(opts, m) == "[MASKED: op://" + path + "]"
    ensures opts.resolver.value(m.value).None? ==> MaskFor(opts, m) == MaskFor(opts.(maskWithOPRefs := false), m)
  {
    assert ("[MASKED: op://" + path + "]")[14..14 + |path|] == path;
    assert ("[MASKED: op://" + path' + "]")[14..14 + |path'|] == path';
  }

  /** Without references, the mask is the caller's, or three stars. */
  lemma {:induction false} PlainMask(opts: MaskOptions, m: Match)
    requires !opts.maskWithOPRefs || opts.resolver.None?
    ensures opts.customMask != "" ==> MaskFor(opts, m) == opts.customMask
    ensures opts.customMask == "" ==> MaskFor(opts, m) == "***"
  {
  }

  /** What the `i`-th interval of `p` holds in two texts, if accepted, is resolved alike. */
  predicate FindingResolvesAlike(opts: MaskOptions, p: Pattern, text: string, text': string, i: nat)
    requires FindsWithin(p, text) && FindsWithin(p, text') && p.find(text) == p.find(text') && i < |p.find(text)|
  {
    var (from, to) := p.find(text)[i];
    Accepted(p, text, i) ==> ResolveAlike(opts, text[from..to], text'[from..to])
  }

  lemma {:induction false} MatchesAlike(opts: MaskOptions, p: Pattern, text: string, text': string, n: nat)
    requires FindsWithin(p, text) && FindsWithin(p, text') && p.find(text) == p.find(text') && n <= |p.find(text)|
    requires forall i | 0 <= i < |p.find(text)| ::
               Accepted(p, text, i) == Accepted(p, text', i) && FindingResolvesAlike(opts, p, text, text', i)
    ensures Mapped(MaskLook(opts), MatchesOf(p, text, n)) == Mapped(MaskLook(opts), MatchesOf(p, text', n))
  {
    if n > 0 {
      hide MaskFor;
      MatchesAlike(opts, p, text, text', n - 1);
      assert Accepted(p, text, n - 1) == Accepted(p, text', n - 1) && FindingResolvesAlike(opts, p, text, text', n - 1);
      var (from, to) := p.find(text)[n - 1];
      var m := Match("", text[from..to], 0, 0, "");
      if Accepted(p, text, n - 1) { MaskTellsAnswerOnly(opts, m, m.(value := text'[from..to])); }
    }
  }

  lemma {:induction false} RawAlike(opts: MaskOptions, ps: seq<Pattern>, text: string, text': string, n: nat)
    requires AllFindWithin(ps, text) && AllFindWithin(ps, text') && FindsAlike(ps, text, text') && n <= |ps|
    requires ResolvesAlike(opts, ps, text, text')
    ensures Mapped(MaskLook(opts), RawMatches(ps, text, n)) == Mapped(MaskLook(opts), RawMatches(ps, text', n))
  {
    if n > 0 {
      hide MatchesOf, MaskFor, MaskLook;
      var p := ps[n - 1];
      RawAlike(opts, ps, text, text', n - 1);
      MatchesAlike(opts, p, text, text', |p.find(text)|);
      MappedConcat(MaskLook(opts), RawMatches(ps, text, n - 1), MatchesOf(p, text, |p.find(text)|));
      MappedConcat(MaskLook(opts), RawMatches(ps, text', n - 1), MatchesOf(p, text', |p.find(text)|));
    }
  }

  predicate ResolvesAlike(opts: MaskOptions, ps: seq<Pattern>, text: string, text': string)
    requires AllFindWithin(ps, text) && AllFindWithin(ps, text') && FindsAlike(ps, text, text')
  {
    forall k | 0 <= k < |ps| ::
      forall i | 0 <= i < |ps[k].find(text)| :: FindingResolvesAlike(opts, ps[k], text, text', i)
  }

  lemma {:induction false} MappedConcat(look: Label -> Label, a: seq<Match>, b: seq<Match>)
    ensures Mapped(look, a + b) == Mapped(look, a) + Mapped(look, b)
  {
    hide Seen;
  }

  /** Findings at the same places, which the resolver answers alike if it is asked, are masked alike. */
  lemma {:induction false} AnswersAlikeMaskAlike(ps: seq<Pattern>, text: string, text': string, opts: MaskOptions)
    requires AllFindWithin(ps, text) && AllFindWithin(ps, text') && FindsAlike(ps, text, text')
    requires ResolvesAlike(opts, ps, text, text')
    ensures Mapped(MaskLook(opts), RawMatches(ps, text, |ps|)) == Mapped(MaskLook(opts), RawMatches(ps, text', |ps|))
  {
    hide Mapped, RawMatches, MaskLook;
    RawAlike(opts, ps, text, text', |ps|);
  }

  /** Texts that differ only where `ms` covers them come out the same under `ms`. */
  lemma {:induction false} CoveredTextIgnored(opts: MaskOptions, text: string, text': string, ms: seq<Match>, p: nat)
    requires |text| == |text'| && p <= |text|
    requires forall q | p <= q < |text| && !Covered(ms, q) :: text[q] == text'[q]
    ensures Redacted(opts, text, ms, 0, p) == Redacted(opts, text', ms, 0, p)
    decreases |text| - p
  {
    if p < |text| {
      assert CoveredFrom(ms, 0, p) <==> Covered(ms, p);
      CoveredTextIgnored(opts, text, text', ms, p + 1);
    }
  }

  /** Two texts whose raw matches are at the same places under the same masks are merged so. */
  lemma {:induction false} FoundAlike(ps: seq<Pattern>, text: string, text': string, look: Label -> Label)
    requires AllFindWithin(ps, text) && AllFindWithin(ps, text')
    requires Mapped(look, RawMatches(ps, text, |ps|)) == Mapped(look, RawMatches(ps, text', |ps|))
    ensures Mapped(look, Found(ps, text)) == Mapped(look, Found(ps, text'))
  {
    hide Mapped, RawMatches, Merge, SortedFrom;
    var raw, raw' := RawMatches(ps, text, |ps|), RawMatches(ps, text', |ps|);
    SortedMappedFrom(look, raw, 0);
    SortedMappedFrom(look, raw', 0);
    MergeMapped(look, Sorted(raw));
    MergeMapped(look, Sorted(raw'));
  }

  /**
   * No leak: two texts of one length whose matches are at the same places under
   * the same masks, and that differ only where a match covers them, are
   * sanitized to the same output.
   */
  lemma {:induction false} CoveredTextIsInvisible(ps: seq<Pattern>, text: string, text': string, opts: MaskOptions)
    requires AllFindWithin(ps, text) && AllFindWithin(ps, text') && |text| == |text'|
    requires Mapped(MaskLook(opts), RawMatches(ps, text, |ps|)) == Mapped(MaskLook(opts), RawMatches(ps, text', |ps|))
    requires forall q | 0 <= q < |text| && !Covered(RawMatches(ps, text, |ps|), q) :: text[q] == text'[q]
    ensures Sanitized(ps, text, opts) == Sanitized(ps, text', opts)
  {
    hide Mapped, RawMatches, Found, Redacted, MaskLook, Covered, IsMergeOf;
    FoundAlike(ps, text, text', MaskLook(opts));
    FoundIsMerge(ps, text);
    forall q | 0 <= q < |text| && !Covered(Found(ps, text), q) ensures text[q] == text'[q] {
      MergeCoversSame(Found(ps, text), RawMatches(ps, text, |ps|), q);
    }
    CoveredTextIgnored(opts, text, text', Found(ps, text), 0);
    RedactedByMasks(opts, text', Found(ps, text), Found(ps, text'), 0);
  }

  // ---------------------------------------------------------------- the value that reaches the resolver

  predicate ValuesAreText(text: string, ms: seq<Match>) {
    forall i | 0 <= i < |ms| :: Within(ms[i], |text|) && ms[i].value == text[ms[i].start..ms[i].end]
  }

  lemma {:induction false} MatchesAreText(p: Pattern, text: string, n: nat)
    requires FindsWithin(p, text) && n <= |p.find(text)|
    ensures ValuesAreText(text, MatchesOf(p, text, n))
  {
    if n > 0 { MatchesAreText(p, text, n - 1); }
  }

  lemma {:induction false} RawAreText(ps: seq<Pattern>, text: string, n: nat)
    requires AllFindWithin(ps, text) && n <= |ps|
    ensures ValuesAreText(text, RawMatches(ps, text, n))
  {
    if n > 0 {
      hide MatchesOf;
      RawAreText(ps, text, n - 1);
      MatchesAreText(ps[n - 1], text, |ps[n - 1].find(text)|);
    }
  }

  /**
   * An interval carries the value of a match that starts with it, with none but
   * empty matches before it there in sorted order; and that is the text it covers
   * if and only if no raw match starts before the end of this one and ends behind it.
   */
  lemma {:induction false} CarriedValueIff(ps: seq<Pattern>, text: string, k: nat)
    requires AllFindWithin(ps, text) && k < |Found(ps, text)|
    ensures var m, raw := Found(ps, text)[k], RawMatches(ps, text, |ps|);
            && Within(m, |text|)
            && exists i: nat :: CarriedFrom(Sorted(raw), m, i)
                 && (m.value == text[m.start..m.end] <==> !Spanned(raw, Sorted(raw)[i].end))
  {
    hide RawMatches, SortedFrom, Merge, Spanned, IsMergeOf;
    var raw := RawMatches(ps, text, |ps|);
    var s, found := Sorted(raw), Found(ps, text);
    var m := found[k];
    FoundIsMerge(ps, text);
    RawAreText(ps, text, |ps|);
    SortedIsListing(raw);
    ValuesListed(text, raw, s);
    assert s[..|s|] == s;
    CarriedIsOpener(s, |s|, k);
    var i: nat :| i < |s| && CarriedFrom(s, m, i);
    assert |s[i].value| == s[i].end - s[i].start && |text[m.start..m.end]| == m.end - m.start;
    OpenerReachesIff(found, raw, s, k, i);
  }

  lemma {:induction false} ValuesListed(text: string, raw: seq<Match>, s: seq<Match>)
    requires ValuesAreText(text, raw) && multiset(s) == multiset(raw)
    ensures ValuesAreText(text, s) && Proper(s)
  {
    forall i | 0 <= i < |s| ensures Within(s[i], |text|) && s[i].value == text[s[i].start..s[i].end] {
      var j := SameElement(s, raw, i);
    }
  }

  /** A match reaches to the end of the interval it opens if and only if no other match spans its own end. */
  lemma {:induction false} OpenerReachesIff(merged: seq<Match>, raw: seq<Match>, s: seq<Match>, k: nat, i: nat)
    requires IsMergeOf(merged, raw) && k < |merged| && CarriedFrom(s, merged[k], i) && Listing(s, raw) && Proper(s)
    ensures s[i].end == merged[k].end <==> !Spanned(raw, s[i].end)
  {
    var m := merged[k];
    if s[i].start == s[i].end {
      EmptyOpenerIsNotSpanned(merged, raw, k);
    } else if s[i].end < m.end {
      assert Justified(merged, k, raw, |raw|) && Spans(m, s[i].end);
    } else {
      EndIsNotSpanned(merged, raw, k);
    }
  }

  lemma {:induction false} EmptyOpenerIsNotSpanned(merged: seq<Match>, raw: seq<Match>, k: nat)
    requires IsMergeOf(merged, raw) && k < |merged|
    ensures merged[k].start == merged[k].end ==> !Spanned(raw, merged[k].end)
  {
    forall j | 0 <= j < |raw| && merged[k].start == merged[k].end ensures !Spans(raw[j], merged[k].end) {
      assert Placed(merged, raw, j);
      var i :| 0 <= i < |merged| && Inside(raw[j], merged[i]);
    }
  }
}

/** How many requests of one key a run can admit, per window and in any interval of time. */
module RateLimiterAdmissions {
  import opened Runs
  import opened RateLimiting

  /** One admitted request: when, and in which of the key's windows. */
  datatype Admission = Admission(time: int, window: nat)

  /** What a run did for one key: the times its windows opened, and its admissions. */
  datatype History = History(starts: seq<int>, admitted: seq<Admission>)

  function Max(a: int, b: int): int { if a > b then a else b }

  /** The first request of a window is admitted whatever the limit. */
  function PerWindow(cfg: Config): int { Max(cfg.limit, 1) }

  function Record(cfg: Config, t: Table, h: History, ip: string, e: Event): History {
    if !(e.Request? && e.ip == ip) then h
    else if OpensWindow(t, e.now, ip) then
      History(h.starts + [e.now], h.admitted + [Admission(e.now, |h.starts|)])
    else if AfterAllow(cfg, t, e.now, ip, e.victims).1 && h.starts != [] then
      h.(admitted := h.admitted + [Admission(e.now, |h.starts| - 1)])
    else h
  }

  /** The history of `ip` over the first `k` events. */
  function HistoryAfter(cfg: Config, run: seq<Event>, ip: string, k: nat): History
    requires k <= |run|
  {
    if k == 0 then History([], [])
    else Record(cfg, TableAfter(cfg, run, k - 1), HistoryAfter(cfg, run, ip, k - 1), ip, run[k - 1])
  }

  /** Event `e` does not evict `ip` while its window is still open. */
  predicate Spares(cfg: Config, t: Table, e: Event, ip: string) {
    e.Request? && MustEvict(cfg, t, e.now, e.ip) && ip in e.victims && ip in t ==> Expired(t, e.now, ip)
  }

  predicate SparesAt(cfg: Config, run: seq<Event>, ip: string, k: nat) {
    k < |run| && Spares(cfg, TableAfter(cfg, run, k), run[k], ip)
  }

  // ---------------------------------------------------------------- counting

  function CountIn(a: seq<Admission>, lo: int, hi: int): nat {
    if a == [] then 0 else
      CountIn(a[..|a| - 1], lo, hi) + (if lo <= a[|a| - 1].time <= hi then 1 else 0)
  }

  /** Admissions of window `w` in `[lo, hi]`. */
  function CountWindow(a: seq<Admission>, w: int, lo: int, hi: int): nat {
    if a == [] then 0 else
      CountWindow(a[..|a| - 1], w, lo, hi)
      + (if a[|a| - 1].window == w && lo <= a[|a| - 1].time <= hi then 1 else 0)
  }

  /** All admissions of window `w`. */
  function CountAll(a: seq<Admission>, w: int): nat {
    if a == [] then 0 else CountAll(a[..|a| - 1], w) + (if a[|a| - 1].window == w then 1 else 0)
  }

  predicate Outside(a: seq<Admission>, w: int, lo: int, hi: int, i: nat) {
    i < |a| && a[i].window == w && !(lo <= a[i].time <= hi)
  }

  lemma {:induction false} CountWindowAtMostAll(a: seq<Admission>, w: int, lo: int, hi: int)
    ensures CountWindow(a, w, lo, hi) <= CountAll(a, w)
    ensures (exists i: nat :: Outside(a, w, lo, hi, i)) ==> CountWindow(a, w, lo, hi) < CountAll(a, w)
  {
    if a != [] {
      var init := a[..|a| - 1];
      CountWindowAtMostAll(init, w, lo, hi);
      if i: nat :| Outside(a, w, lo, hi, i) {
        assert i < |init| ==> Outside(init, w, lo, hi, i);
      }
    }
  }

  lemma {:induction false} CountAllZero(a: seq<Admission>, w: int)
    requires forall i | 0 <= i < |a| :: a[i].window != w
    ensures CountAll(a, w) == 0
  {
    if a != [] { CountAllZero(a[..|a| - 1], w); }
  }

  lemma {:induction false} CountWindowZero(a: seq<Admission>, w: int, lo: int, hi: int)
    requires forall i | 0 <= i < |a| && lo <= a[i].time <= hi :: a[i].window != w
    ensures CountWindow(a, w, lo, hi) == 0
  {
    if a != [] { CountWindowZero(a[..|a| - 1], w, lo, hi); }
  }

  /** If every admission in `[lo, hi]` falls in window `w` or `w + 1`, the two windows account for all of them. */
  lemma {:induction false} CountInTwoWindows(a: seq<Admission>, w: int, lo: int, hi: int)
    requires forall i | 0 <= i < |a| && lo <= a[i].time <= hi :: w <= a[i].window <= w + 1
    ensures CountIn(a, lo, hi) == CountWindow(a, w, lo, hi) + CountWindow(a, w + 1, lo, hi)
  {
    if a != [] {
      var init := a[..|a| - 1];
      assert forall i | 0 <= i < |init| :: init[i] == a[i];
      CountInTwoWindows(init, w, lo, hi);
    }
  }

  lemma {:induction false} CountInPositive(a: seq<Admission>, lo: int, hi: int) returns (first: nat)
    requires CountIn(a, lo, hi) > 0
    ensures first < |a| && lo <= a[first].time <= hi
    ensures forall i | 0 <= i < first :: !(lo <= a[i].time <= hi)
  {
    var init := a[..|a| - 1];
    if CountIn(init, lo, hi) > 0 {
      first := CountInPositive(init, lo, hi);
      assert forall i | 0 <= i < |init| :: init[i] == a[i];
    } else {
      first := |a| - 1;
      forall i | 0 <= i < first ensures !(lo <= a[i].time <= hi) { CountInZero(init, lo, hi, i); }
    }
  }

  lemma {:induction false} CountInZero(a: seq<Admission>, lo: int, hi: int, i: nat)
    requires CountIn(a, lo, hi) == 0 && i < |a|
    ensures !(lo <= a[i].time <= hi)
  {
    if i < |a| - 1 { CountInZero(a[..|a| - 1], lo, hi, i); }
  }

  // ---------------------------------------------------------------- the invariant

  /** Successive windows open more than one window length apart. */
  predicate Spaced(cfg: Config, starts: seq<int>) {
    forall i, j | 0 <= i && j == i + 1 < |starts| :: starts[j] > starts[i] + cfg.window
  }

  /** An admission falls in its window: at its opening, or later but before it ends. */
  predicate Fits(cfg: Config, starts: seq<int>, a: Admission) {
    && a.window < |starts|
    && starts[a.window] <= a.time
    && (a.time == starts[a.window] || a.time <= starts[a.window] + cfg.window)
  }

  predicate AllFit(cfg: Config, h: History) {
    && (forall i | 0 <= i < |h.admitted| :: Fits(cfg, h.starts, h.admitted[i]))
    && (forall i, j | 0 <= i < j < |h.admitted| :: h.admitted[i].window <= h.admitted[j].window)
  }

  /** Every window starts with an admission and holds at most `PerWindow` of them. */
  predicate WindowsFilled(cfg: Config, h: History) {
    forall w | 0 <= w < |h.starts| :: Filled(cfg, h, w)
  }

  predicate Filled(cfg: Config, h: History, w: nat)
    requires w < |h.starts|
  {
    CountAll(h.admitted, w) <= PerWindow(cfg) && Admission(h.starts[w], w) in h.admitted
  }

  /** The table entry of `ip`, or its absence, agrees with the last window of the history. */
  predicate Agrees(cfg: Config, t: Table, now: int, ip: string, h: History) {
    var n := |h.starts|;
    && (n > 0 ==> h.starts[n - 1] <= now)
    && (ip in t ==> n > 0 && t[ip] == Slot(h.starts[n - 1] + cfg.window, CountAll(h.admitted, n - 1)))
    && (ip !in t ==> n == 0 || now > h.starts[n - 1] + cfg.window)
  }

  predicate Tracks(cfg: Config, t: Table, now: int, ip: string, h: History) {
    Spaced(cfg, h.starts) && AllFit(cfg, h) && WindowsFilled(cfg, h) && Agrees(cfg, t, now, ip, h)
  }

  /** One more admission, in the last window, keeps all admissions fitting and in order. */
  lemma {:induction false} FitsGrows(cfg: Config, h: History, starts: seq<int>, a: Admission)
    requires AllFit(cfg, h) && h.starts <= starts && Fits(cfg, starts, a) && a.window == |starts| - 1
    ensures AllFit(cfg, History(starts, h.admitted + [a]))
  {
    forall i | 0 <= i < |h.admitted| ensures Fits(cfg, starts, h.admitted[i]) {
      assert Fits(cfg, h.starts, h.admitted[i]);
    }
  }

  lemma {:induction false} FilledGrows(cfg: Config, h: History, starts: seq<int>, a: Admission, w: nat)
    requires h.starts <= starts && w < |h.starts| && Filled(cfg, h, w)
    requires a.window == w ==> CountAll(h.admitted, w) < PerWindow(cfg)
    ensures Filled(cfg, History(starts, h.admitted + [a]), w)
  {
    assert (h.admitted + [a])[..|h.admitted + [a]| - 1] == h.admitted;
  }

  lemma {:induction false} NothingAdmittedYet(cfg: Config, h: History)
    requires AllFit(cfg, h)
    ensures CountAll(h.admitted, |h.starts|) == 0
  {
    forall i | 0 <= i < |h.admitted|
      ensures h.admitted[i].window != |h.starts|
    {
      assert Fits(cfg, h.starts, h.admitted[i]);
    }
    CountAllZero(h.admitted, |h.starts|);
  }

  lemma {:induction false} CountOneMore(a: seq<Admission>, x: Admission)
    ensures CountAll(a + [x], x.window) == CountAll(a, x.window) + 1
  {
    assert (a + [x])[..|a + [x]| - 1] == a;
  }

  lemma {:induction false} SpacedGrows(cfg: Config, starts: seq<int>, now: int)
    requires Spaced(cfg, starts) && (starts != [] ==> now > starts[|starts| - 1] + cfg.window)
    ensures Spaced(cfg, starts + [now])
  {
  }

  /** Opening a window. */
  lemma {:induction false} TracksOpening(cfg: Config, t: Table, now: int, ip: string, h: History, now': int, t': Table)
    requires Tracks(cfg, t, now, ip, h) && now <= now' && OpensWindow(t, now', ip)
    requires ip in t' && t'[ip] == Slot(now' + cfg.window, 1)
    ensures Tracks(cfg, t', now', ip, History(h.starts + [now'], h.admitted + [Admission(now', |h.starts|)]))
  {
    hide Spaced, AllFit, CountAll;
    var n, a := |h.starts|, Admission(now', |h.starts|);
    var h' := History(h.starts + [now'], h.admitted + [a]);
    FitsGrows(cfg, h, h'.starts, a);
    SpacedGrows(cfg, h.starts, now');
    NothingAdmittedYet(cfg, h);
    CountOneMore(h.admitted, a);
    assert WindowsFilled(cfg, h') by {
      forall w | 0 <= w < |h'.starts| ensures Filled(cfg, h', w) {
        if w < n { FilledGrows(cfg, h, h'.starts, a, w); } else { assert h'.admitted[|h.admitted|] == a; }
      }
    }
  }

  /** Admitting one more request into the open window. */
  lemma {:induction false} TracksAdmission(cfg: Config, t: Table, now: int, ip: string, h: History, now': int,
          t': Table)
    requires Tracks(cfg, t, now, ip, h) && now <= now' && !OpensWindow(t, now', ip)
    requires t[ip].count < cfg.limit
    requires ip in t' && t'[ip] == t[ip].(count := t[ip].count + 1)
    ensures h.starts != []
    ensures Tracks(cfg, t', now', ip, h.(admitted := h.admitted + [Admission(now', |h.starts| - 1)]))
  {
    hide Spaced, AllFit, CountAll, Filled;
    var n, a := |h.starts|, Admission(now', |h.starts| - 1);
    var h' := h.(admitted := h.admitted + [a]);
    FitsGrows(cfg, h, h.starts, a);
    CountOneMore(h.admitted, a);
    forall w | 0 <= w < n ensures Filled(cfg, h', w) {
      assert Filled(cfg, h, w);
      FilledGrows(cfg, h, h.starts, a, w);
    }
  }

  lemma {:induction false} TracksStep(cfg: Config, t: Table, now: int, ip: string, h: History, e: Event)
    requires Tracks(cfg, t, now, ip, h) && now <= e.now
    requires LegalStep(cfg, t, e) && Spares(cfg, t, e, ip)
    ensures Tracks(cfg, Step(cfg, t, e), e.now, ip, Record(cfg, t, h, ip, e))
  {
    var t' := Step(cfg, t, e);
    match e
    case Sweep(_) =>
      assert ip in t' ==> ip in t && t'[ip] == t[ip];
    case Request(now', other, victims) =>
      if other != ip {
        assert ip in t' ==> ip in t && t'[ip] == t[ip];
      } else if OpensWindow(t, now', ip) {
        TracksOpening(cfg, t, now, ip, h, now', t');
      } else if t[ip].count < cfg.limit {
        TracksAdmission(cfg, t, now, ip, h, now', t');
      }
  }

  // ---------------------------------------------------------------- the guarantees

  /** No closed interval of one window length holds more than `2 * PerWindow - 1` admissions. */
  lemma {:induction false} IntervalBound(cfg: Config, t: Table, now: int, ip: string, h: History, from: int)
    requires Tracks(cfg, t, now, ip, h)
    ensures CountIn(h.admitted, from, from + cfg.window) <= 2 * PerWindow(cfg) - 1
  {
    var a, to := h.admitted, from + cfg.window;
    if CountIn(a, from, to) > 0 {
      var first := CountInPositive(a, from, to);
      assert Fits(cfg, h.starts, a[first]);
      var w := a[first].window;
      forall i | 0 <= i < |a| && from <= a[i].time <= to ensures w <= a[i].window <= w + 1 {
        AtMostNextWindow(cfg, h, first, i, from);
      }
      CountInTwoWindows(a, w, from, to);
      CountWindowAtMostAll(a, w, from, to);
      CountWindowAtMostAll(a, w + 1, from, to);
      if w + 1 >= |h.starts| || h.starts[w + 1] > to {
        forall i | 0 <= i < |a| && from <= a[i].time <= to ensures a[i].window != w + 1 {
          assert Fits(cfg, h.starts, a[i]);
        }
        CountWindowZero(a, w + 1, from, to);
        assert Filled(cfg, h, w);
      } else {
        // the second window has begun, so the opening of the first is already out of the interval
        assert Filled(cfg, h, w) && Filled(cfg, h, w + 1);
        var i :| 0 <= i < |a| && a[i] == Admission(h.starts[w], w);
        assert Outside(a, w, from, to, i);
      }
    }
  }

  /** Admissions within one window length of each other are in the same window or in successive ones. */
  lemma {:induction false} AtMostNextWindow(cfg: Config, h: History, first: nat, i: nat, from: int)
    requires Spaced(cfg, h.starts) && AllFit(cfg, h)
    requires first <= i < |h.admitted|
    requires from <= h.admitted[first].time <= from + cfg.window && from <= h.admitted[i].time <= from + cfg.window
    ensures h.admitted[first].window <= h.admitted[i].window <= h.admitted[first].window + 1
  {
    var a, b := h.admitted[first], h.admitted[i];
    assert Fits(cfg, h.starts, a) && Fits(cfg, h.starts, b);
    if b.window >= a.window + 2 { SpacedTwo(cfg, h.starts, a.window, b.window); }
  }

  lemma {:induction false} SpacedTwo(cfg: Config, starts: seq<int>, i: nat, j: nat)
    requires Spaced(cfg, starts) && cfg.window >= 0 && i + 2 <= j < |starts|
    ensures starts[j] > starts[i] + 2 * cfg.window
  {
    var k := j - 1;
    assert starts[j] > starts[k] + cfg.window;
    if k == i + 1 { assert starts[k] > starts[i] + cfg.window; } else { SpacedTwo(cfg, starts, i, k); }
  }

  ghost predicate TracksAt(cfg: Config, run: seq<Event>, ip: string, k: nat) {
    && k <= |run|
    && Tracks(cfg, TableAfter(cfg, run, k), if k == 0 then FirstInstant(run) else run[k - 1].now, ip,
              HistoryAfter(cfg, run, ip, k))
  }

  function FirstInstant(run: seq<Event>): int { if run == [] then 0 else run[0].now }

  ghost predicate FairAt(cfg: Config, run: seq<Event>, ip: string, k: nat) {
    LegalAt(cfg, run, k) && SparesAt(cfg, run, ip, k)
  }

  lemma {:induction false} TracksNext(cfg: Config, run: seq<Event>, ip: string, k: nat)
    requires TracksAt(cfg, run, ip, k) && FairAt(cfg, run, ip, k)
    ensures TracksAt(cfg, run, ip, k + 1)
  {
    TracksStep(cfg, TableAfter(cfg, run, k), if k == 0 then FirstInstant(run) else run[k - 1].now, ip,
               HistoryAfter(cfg, run, ip, k), run[k]);
  }

  lemma {:induction false} TracksFromStart(cfg: Config, run: seq<Event>, ip: string)
    ensures TracksAt(cfg, run, ip, 0)
  {
  }

  lemma {:induction false} TracksThroughout(cfg: Config, run: seq<Event>, ip: string)
    requires forall k: nat | k < |run| :: FairAt(cfg, run, ip, k)
    ensures TracksAt(cfg, run, ip, |run|)
  {
    hide TracksAt, FairAt;
    ghost var inv := (k: nat) => TracksAt(cfg, run, ip, k);
    ghost var ok := (k: nat) => FairAt(cfg, run, ip, k);
    TracksFromStart(cfg, run, ip);
    forall k: nat, j: nat | j == k + 1 <= |run| && inv(k) && ok(k) ensures inv(j) {
      TracksNext(cfg, run, ip, k);
    }
    CarryAlong(inv, ok, |run|);
    assert inv(|run|);
  }

  /**
   * Over any run in which `ip` is never force-evicted while live: its windows
   * open more than one window length apart, each admits at most `PerWindow`
   * requests, and any closed interval of one window length holds at most
   * `2 * PerWindow - 1` admissions.
   */
  lemma {:induction false} AdmissionsBounded(cfg: Config, run: seq<Event>, ip: string)
    requires forall k: nat | k < |run| :: FairAt(cfg, run, ip, k)
    ensures var h := HistoryAfter(cfg, run, ip, |run|);
            && Spaced(cfg, h.starts)
            && (forall w | 0 <= w < |h.starts| :: Filled(cfg, h, w))
            && (forall i | 0 <= i < |h.admitted| :: Fits(cfg, h.starts, h.admitted[i]))
            && (forall from, to | to == from + cfg.window :: CountIn(h.admitted, from, to) <= 2 * PerWindow(cfg) - 1)
  {
    TracksThroughout(cfg, run, ip);
    var n, h := |run|, HistoryAfter(cfg, run, ip, |run|);
    var now := if n == 0 then FirstInstant(run) else run[n - 1].now;
    forall from, to | to == from + cfg.window ensures CountIn(h.admitted, from, to) <= 2 * PerWindow(cfg) - 1 {
      IntervalBound(cfg, TableAfter(cfg, run, n), now, ip, h, from);
    }
  }

  /** Every admission `Allow` grants to `ip` is on record, and nothing else is. */
  lemma {:induction false} HistoryIsComplete(cfg: Config, t: Table, now: int, h: History, ip: string, e: Event)
    requires Tracks(cfg, t, now, ip, h)
    ensures |Record(cfg, t, h, ip, e).admitted| == |h.admitted|
            + (if e.Request? && e.ip == ip && AfterAllow(cfg, t, e.now, ip, e.victims).1 then 1 else 0)
  {
  }

  /** With a window of no length at all, an instant holds at most one window. */
  lemma {:induction false} InstantBound(cfg: Config, t: Table, now: int, ip: string, h: History, from: int)
    requires Tracks(cfg, t, now, ip, h) && cfg.window == 0
    ensures CountIn(h.admitted, from, from) <= PerWindow(cfg)
  {
    var a := h.admitted;
    if CountIn(a, from, from) > 0 {
      var first := CountInPositive(a, from, from);
      var w := a[first].window;
      assert Fits(cfg, h.starts, a[first]);
      forall i | 0 <= i < |a| && from <= a[i].time <= from ensures a[i].window == w {
        assert Fits(cfg, h.starts, a[i]);
        if a[i].window > w { StartsRise(cfg, h.starts, w, a[i].window); }
        if a[i].window < w { StartsRise(cfg, h.starts, a[i].window, w); }
      }
      CountInTwoWindows(a, w, from, from);
      CountWindowZero(a, w + 1, from, from);
      CountWindowAtMostAll(a, w, from, from);
      assert Filled(cfg, h, w);
    }
  }

  lemma {:induction false} StartsRise(cfg: Config, starts: seq<int>, i: nat, j: nat)
    requires Spaced(cfg, starts) && cfg.window == 0 && i < j < |starts|
    ensures starts[i] < starts[j]
  {
    var k := j - 1;
    assert starts[j] > starts[k] + cfg.window;
    if i < k { StartsRise(cfg, starts, i, k); }
  }

  /** With a window of length zero at most `max(limit, 1)` requests are admitted in an instant. */
  lemma {:induction false} ZeroWindowBound(cfg: Config, run: seq<Event>, ip: string, from: int)
    requires cfg.window == 0 && forall k: nat | k < |run| :: FairAt(cfg, run, ip, k)
    ensures CountIn(HistoryAfter(cfg, run, ip, |run|).admitted, from, from) <= PerWindow(cfg)
  {
    TracksThroughout(cfg, run, ip);
    var n := |run|;
    var now := if n == 0 then FirstInstant(run) else run[n - 1].now;
    InstantBound(cfg, TableAfter(cfg, run, n), now, ip, HistoryAfter(cfg, run, ip, n), from);
  }

  /**
   * One request, `limit - 1` more at the last instant of its window, and `limit` an
   * instant later; by then its own entry has expired, and is evicted if it fills the table.
   */
  function Burst(cfg: Config, ip: string): (run: seq<Event>)
    requires cfg.limit >= 1
    ensures |run| == 2 * cfg.limit
  {
    seq(2 * cfg.limit, i requires 0 <= i < 2 * cfg.limit =>
          Request(if i == 0 then 0 else if i < cfg.limit then cfg.window else cfg.window + 1, ip,
                  if i == cfg.limit && cfg.maxEntries == 1 then {ip} else {}))
  }

  /** A request that is admitted, to the open window or to a new one. */
  lemma {:induction false} NextAdmission(cfg: Config, t: Table, h: History, ip: string, now: int, victims: set<string>)
    returns (x: Admission)
    requires ip in t && h.starts != []
    requires now > t[ip].resetAt || t[ip].count < cfg.limit
    ensures var e := Request(now, ip, victims);
            var t', h' := Step(cfg, t, e), Record(cfg, t, h, ip, e);
            && ip in t'
            && t'[ip] == (if now > t[ip].resetAt then Slot(now + cfg.window, 1)
                else Slot(t[ip].resetAt, t[ip].count + 1))
            && h'.starts != [] && x.time == now && h'.admitted == h.admitted + [x]
            && (victims <= {ip} && t.Keys == {ip} ==> t'.Keys == {ip})
  {
    x := Admission(now, if OpensWindow(t, now, ip) then |h.starts| else |h.starts| - 1);
  }

  /** What the burst has led to after `k` requests: everything but the first one falls in the interval. */
  ghost predicate BurstState(cfg: Config, ip: string, k: nat, t: Table, h: History) {
    && t.Keys == {ip} && h.starts != []
    && t[ip] == (if k <= cfg.limit then Slot(cfg.window, k) else Slot(2 * cfg.window + 1, k - cfg.limit))
    && CountIn(h.admitted, cfg.window, 2 * cfg.window) == k - 1
  }

  lemma {:induction false} BurstStarts(cfg: Config, ip: string)
    requires cfg.limit >= 1 && cfg.window >= 1
    ensures BurstState(cfg, ip, 1, TableAfter(cfg, Burst(cfg, ip), 1), HistoryAfter(cfg, Burst(cfg, ip), ip, 1))
  {
    var run := Burst(cfg, ip);
    assert TableAfter(cfg, run, 0) == map[] && HistoryAfter(cfg, run, ip, 0) == History([], []);
    assert HistoryAfter(cfg, run, ip, 1).admitted == [] + [Admission(0, 0)];
    OneMore([], Admission(0, 0), cfg.window, 2 * cfg.window);
  }

  lemma {:induction false} BurstGrows(cfg: Config, ip: string, k: nat, t: Table, h: History)
    requires cfg.limit >= 1 && cfg.window >= 1 && 1 <= k < 2 * cfg.limit && BurstState(cfg, ip, k, t, h)
    ensures var e := Burst(cfg, ip)[k];
            BurstState(cfg, ip, k + 1, Step(cfg, t, e), Record(cfg, t, h, ip, e))
  {
    hide Step, Record;
    var e := Burst(cfg, ip)[k];
    var x := NextAdmission(cfg, t, h, ip, e.now, e.victims);
    OneMore(h.admitted, x, cfg.window, 2 * cfg.window);
  }

  lemma {:induction false} BurstAdmits(cfg: Config, ip: string, k: nat)
    requires cfg.limit >= 1 && cfg.window >= 1 && 1 <= k <= 2 * cfg.limit
    ensures BurstState(cfg, ip, k, TableAfter(cfg, Burst(cfg, ip), k), HistoryAfter(cfg, Burst(cfg, ip), ip, k))
  {
    hide BurstState, Step, Record, Burst;
    var run := Burst(cfg, ip);
    if k == 1 {
      BurstStarts(cfg, ip);
    } else {
      BurstAdmits(cfg, ip, k - 1);
      BurstGrows(cfg, ip, k - 1, TableAfter(cfg, run, k - 1), HistoryAfter(cfg, run, ip, k - 1));
    }
  }

  /** The burst evicts nothing but its own entry, and that only once it has expired and fills the table. */
  lemma {:induction false} BurstIsFair(cfg: Config, ip: string, k: nat)
    requires cfg.limit >= 1 && cfg.window >= 1 && k < 2 * cfg.limit
    ensures FairAt(cfg, Burst(cfg, ip), ip, k)
  {
    var run := Burst(cfg, ip);
    var t := TableAfter(cfg, run, k);
    if k == 0 {
      assert t == map[];
    } else {
      BurstAdmits(cfg, ip, k);
      assert |t.Keys| == 1;
      assert ExpiredKeys(t, run[k].now) == if k == cfg.limit then {ip} else {};
    }
  }

  lemma {:induction false} OneMore(a: seq<Admission>, x: Admission, lo: int, hi: int)
    ensures CountIn(a + [x], lo, hi) == CountIn(a, lo, hi) + (if lo <= x.time <= hi then 1 else 0)
  {
    assert (a + [x])[..|a|] == a;
  }

  /** The interval bound is attained, for every limit and window of at least 1, and every cap. */
  lemma {:induction false} BoundIsAttained(cfg: Config, ip: string)
    requires cfg.limit >= 1 && cfg.window >= 1
    ensures var run := Burst(cfg, ip);
            && (forall k: nat | k < |run| :: FairAt(cfg, run, ip, k))
            && CountIn(HistoryAfter(cfg, run, ip, |run|).admitted, cfg.window, cfg.window + cfg.window)
               == 2 * PerWindow(cfg) - 1
  {
    hide FairAt, Step, Record;
    forall k: nat | k < 2 * cfg.limit ensures FairAt(cfg, Burst(cfg, ip), ip, k) { BurstIsFair(cfg, ip, k); }
    BurstAdmits(cfg, ip, 2 * cfg.limit);
  }
}

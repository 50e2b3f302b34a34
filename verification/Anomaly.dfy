/**
 * The anomaly detector: a bounded window of tool calls, and when its rules see
 * the same as they would over the whole history.
 */
module Anomaly {
  import opened Wrappers
  import opened Collections

  datatype Event = Event(timestamp: int, agent: string, tool: string, path: string, isCanary: bool, requestId: string,
          fieldLength: int)

  datatype AlertType = CanaryAccess | OffHours | Sweep | RateAnomaly | ToolChain

  datatype Severity = SeverityLow | SeverityMedium | SeverityHigh | SeverityCritical

  /** `figure` is the number the description quotes. */
  datatype Alert = Alert(kind: AlertType, severity: Severity, figure: int, timestamp: int, agent: string,
                         path: string, tool: string, requestId: string)

  datatype Config = Config(maxEvents: int, sweepWindow: int, sweepThreshold: int, rateWindow: int, rateLimit: int,
                           offHoursStart: int, offHoursEnd: int, toolChainWindow: int, toolChainThreshold: int)

  // ---------------------------------------------------------------- the rules, over any list of events

  function Since(es: seq<Event>, cutoff: int): seq<Event> {
    if es == [] then []
    else Since(es[..|es| - 1], cutoff) + (if es[|es| - 1].timestamp >= cutoff then [es[|es| - 1]] else [])
  }

  function CountOf(es: seq<Event>, agent: string): nat {
    if es == [] then 0 else CountOf(es[..|es| - 1], agent) + (if es[|es| - 1].agent == agent then 1 else 0)
  }

  function Paths(es: seq<Event>): set<string> {
    if es == [] then {}
    else Paths(es[..|es| - 1]) + (if es[|es| - 1].path != "" then {es[|es| - 1].path} else {})
  }

  predicate LargeRead(e: Event, agent: string, threshold: int) {
    e.agent == agent && (e.tool == "get_entry" || e.tool == "get_entry_value") && e.fieldLength >= threshold
  }

  /** The latest large read among `es`. */
  function LatestLargeRead(es: seq<Event>, agent: string, threshold: int): Option<Event> {
    if es == [] then None
    else if LargeRead(es[|es| - 1], agent, threshold) then Some(es[|es| - 1])
    else LatestLargeRead(es[..|es| - 1], agent, threshold)
  }

  predicate RunsCommand(e: Event) { e.tool == "run_command" || e.tool == "execute_with_secret" }

  predicate InOffHours(cfg: Config, hour: int) {
    if cfg.offHoursStart <= cfg.offHoursEnd then cfg.offHoursStart <= hour < cfg.offHoursEnd
    else hour >= cfg.offHoursStart || hour < cfg.offHoursEnd
  }

  /** The hours from the start round the clock up to the end, which may lie past midnight. */
  lemma {:induction false} OffHoursRoundTheClock(cfg: Config, hour: int)
    requires 0 <= cfg.offHoursStart < 24 && 0 <= cfg.offHoursEnd < 24 && 0 <= hour < 24
    ensures InOffHours(cfg, hour) <==> (hour - cfg.offHoursStart) % 24 < (cfg.offHoursEnd - cfg.offHoursStart) % 24
  {
  }

  function AlertFor(kind: AlertType, severity: Severity, figure: int, e: Event): Alert {
    Alert(kind, severity, figure, e.timestamp, e.agent, if kind == RateAnomaly then "" else e.path, e.tool, e.requestId)
  }

  function CanaryRule(e: Event): Option<Alert> {
    if e.isCanary && e.path != "" then Some(AlertFor(CanaryAccess, SeverityCritical, 0, e)) else None
  }

  function OffHoursRule(cfg: Config, hour: int -> int, e: Event): Option<Alert> {
    if e.path != "" && InOffHours(cfg, hour(e.timestamp)) then Some(AlertFor(OffHours, SeverityLow, 0, e)) else None
  }

  function SweepRule(cfg: Config, es: seq<Event>, e: Event): Option<Alert> {
    var seen := Paths(Since(es, e.timestamp - cfg.sweepWindow));
    if e.path != "" && |seen| >= cfg.sweepThreshold then Some(AlertFor(Sweep, SeverityMedium, |seen|, e)) else None
  }

  function RateRule(cfg: Config, es: seq<Event>, e: Event): Option<Alert> {
    var count := CountOf(Since(es, e.timestamp - cfg.rateWindow), e.agent);
    if count > cfg.rateLimit then Some(AlertFor(RateAnomaly, SeverityMedium, count, e)) else None
  }

  function ChainRule(cfg: Config, es: seq<Event>, e: Event): Option<Alert> {
    if !RunsCommand(e) then None else
      match LatestLargeRead(Since(es, e.timestamp - cfg.toolChainWindow), e.agent, cfg.toolChainThreshold)
      case Some(read) => Some(AlertFor(ToolChain, SeverityHigh, read.fieldLength, e))
      case None => None
  }

  /** The events of `es` after the last one that is older than `cutoff`: where the backward scan looks. */
  function Recent(es: seq<Event>, cutoff: int): seq<Event> {
    if es == [] || es[|es| - 1].timestamp < cutoff then []
    else Recent(es[..|es| - 1], cutoff) + [es[|es| - 1]]
  }

  /** The tool-chain rule with its early break. */
  function ScannedChainRule(cfg: Config, es: seq<Event>, e: Event): Option<Alert> {
    if !RunsCommand(e) then None else
      match LatestLargeRead(Recent(es, e.timestamp - cfg.toolChainWindow), e.agent, cfg.toolChainThreshold)
      case Some(read) => Some(AlertFor(ToolChain, SeverityHigh, read.fieldLength, e))
      case None => None
  }

  function OptionToSeq<T>(o: Option<T>): seq<T> { match o case Some(x) => [x] case None => [] }

  /** All alerts for `e`, in the order the rules run, as they would be over the events `es`. */
  function Alerts(cfg: Config, hour: int -> int, es: seq<Event>, e: Event): seq<Alert> {
    OptionToSeq(CanaryRule(e)) + OptionToSeq(OffHoursRule(cfg, hour, e))
    + OptionToSeq(SweepRule(cfg, es, e)) + OptionToSeq(RateRule(cfg, es, e)) + OptionToSeq(ChainRule(cfg, es, e))
  }

  function ScannedAlerts(cfg: Config, hour: int -> int, es: seq<Event>, e: Event): seq<Alert> {
    OptionToSeq(CanaryRule(e)) + OptionToSeq(OffHoursRule(cfg, hour, e))
    + OptionToSeq(SweepRule(cfg, es, e)) + OptionToSeq(RateRule(cfg, es, e)) + OptionToSeq(ScannedChainRule(cfg, es, e))
  }

  function First<T>(s: seq<T>): Option<T> { if s == [] then None else Some(s[0]) }

  // ---------------------------------------------------------------- the detector

  class Detector {
    const cfg: Config
    const hour: int -> int
    var events: seq<Event>
    ghost var history: seq<Event>

    /** The window is always the last `maxEvents` events of the history. */
    ghost predicate Valid()
      reads this
    {
      cfg.maxEvents >= 1 && events == LastN(history, cfg.maxEvents)
    }

    constructor (cfg: Config, hour: int -> int)
      requires cfg.maxEvents >= 1
      ensures Valid() && this.cfg == cfg && this.hour == hour && history == []
    {
      this.cfg, this.hour := cfg, hour;
      events, history := [], [];
    }

    method AddEvent(event: Event)
      requires Valid()
      modifies this
      ensures Valid() && history == old(history) + [event]
    {
      if |events| >= cfg.maxEvents {
        events := events[1..] + [events[|events| - 1]];
        events := events[|events| - 1 := event];
      } else {
        events := events + [event];
      }
      history := history + [event];
      WindowSlides(old(history), event, cfg.maxEvents);
    }

    method DetectSweep(event: Event) returns (alert: Option<Alert>)
      ensures alert == SweepRule(cfg, events, event)
    {
      hide Since, Paths;
      if event.path == "" { return None; }
      var cutoff := event.timestamp - cfg.sweepWindow;
      var seen: map<string, ()> := map[];
      NothingSeen(cutoff);
      for i := 0 to |events|
        invariant seen.Keys == Paths(Since(events[..i], cutoff))
      {
        var e := events[i];
        SinceStep(events, cutoff, i);
        PathsStep(Since(events[..i], cutoff), e);
        if e.timestamp < cutoff { continue; }
        if e.path != "" { seen := seen[e.path := ()]; }
      }
      assert events[..|events|] == events;
      assert |seen| == |seen.Keys|;
      if |seen| >= cfg.sweepThreshold {
        return Some(AlertFor(Sweep, SeverityMedium, |seen|, event));
      }
      return None;
    }

    method DetectRateAnomaly(event: Event) returns (alert: Option<Alert>)
      ensures alert == RateRule(cfg, events, event)
    {
      var cutoff := event.timestamp - cfg.rateWindow;
      var count := 0;
      for i := 0 to |events|
        invariant count == CountOf(Since(events[..i], cutoff), event.agent)
      {
        var e := events[i];
        SinceStep(events, cutoff, i);
        CountStep(Since(events[..i], cutoff), e, event.agent);
        if e.timestamp < cutoff { continue; }
        if e.agent == event.agent { count := count + 1; }
      }
      assert events[..|events|] == events;
      if count > cfg.rateLimit {
        return Some(AlertFor(RateAnomaly, SeverityMedium, count, event));
      }
      return None;
    }

    method DetectToolChain(event: Event) returns (alert: Option<Alert>)
      ensures alert == ScannedChainRule(cfg, events, event)
    {
      hide Recent, LatestLargeRead;
      if event.tool != "run_command" && event.tool != "execute_with_secret" { return None; }
      var cutoff := event.timestamp - cfg.toolChainWindow;
      ghost var agent, size := event.agent, cfg.toolChainThreshold;
      var i := |events| - 1;
      assert events[..|events|] == events;
      while i >= 0
        invariant -1 <= i < |events|
        invariant LatestLargeRead(Recent(events[..i + 1], cutoff), agent, size)
                 == LatestLargeRead(Recent(events, cutoff), agent, size)
      {
        var e := events[i];
        RecentStep(events, cutoff, i);
        if e.timestamp < cutoff { break; }
        ReadStep(Recent(events[..i], cutoff), e, agent, size);
        i := i - 1;
        if e.agent != event.agent { continue; }
        if (e.tool == "get_entry" || e.tool == "get_entry_value") && e.fieldLength >= cfg.toolChainThreshold {
          return Some(AlertFor(ToolChain, SeverityHigh, e.fieldLength, event));
        }
      }
      NothingRead(events, cutoff, agent, size);
      return None;
    }

    /** `evaluate` */
    method Evaluate(event: Event) returns (alerts: seq<Alert>)
      ensures alerts == ScannedAlerts(cfg, hour, events, event)
    {
      hide SweepRule, RateRule, ScannedChainRule, CanaryRule, OffHoursRule, First;
      alerts := [];
      var canary := CanaryRule(event);
      if canary.Some? { alerts := alerts + [canary.value]; }
      var offHours := OffHoursRule(cfg, hour, event);
      if offHours.Some? { alerts := alerts + [offHours.value]; }
      assert alerts == OptionToSeq(canary) + OptionToSeq(offHours);
      var sweep := DetectSweep(event);
      if sweep.Some? { alerts := alerts + [sweep.value]; }
      assert alerts == OptionToSeq(canary) + OptionToSeq(offHours) + OptionToSeq(sweep);
      var rate := DetectRateAnomaly(event);
      if rate.Some? { alerts := alerts + [rate.value]; }
      assert alerts == OptionToSeq(canary) + OptionToSeq(offHours) + OptionToSeq(sweep) + OptionToSeq(rate);
      var chain := DetectToolChain(event);
      if chain.Some? { alerts := alerts + [chain.value]; }
    }

    /** `Check`: the alert reported, and all alerts handed to the hooks. */
    method Check(event: Event) returns (alert: Option<Alert>, alerts: seq<Alert>)
      requires Valid()
      modifies this
      ensures Valid() && history == old(history) + [event]
      ensures alerts == ScannedAlerts(cfg, hour, events, event) && alert == First(alerts)
    {
      AddEvent(event);
      alerts := Evaluate(event);
      alert := First(alerts);
    }
  }

  // ---------------------------------------------------------------- when the rules fire

  lemma {:induction false} PathsIff(es: seq<Event>, cutoff: int, path: string)
    ensures path in Paths(Since(es, cutoff))
       <==> path != "" && exists i :: 0 <= i < |es| && es[i].timestamp >= cutoff && es[i].path == path
  {
    if es != [] {
      var n := |es| - 1;
      PathsIff(es[..n], cutoff, path);
      PathsStep(Since(es[..n], cutoff), es[n]);
      assert forall i | 0 <= i < n :: es[..n][i] == es[i];
    }
  }

  /** The paths of the recent events. */
  function RecentPaths(es: seq<Event>, cutoff: int): set<string> {
    set i | 0 <= i < |es| && es[i].timestamp >= cutoff && es[i].path != "" :: es[i].path
  }

  /**
   * A sweep: as many different paths as the threshold among the events of the time
   * window, reported with their number.
   */
  lemma {:induction false} SweepFiresIff(cfg: Config, es: seq<Event>, e: Event)
    ensures var paths := RecentPaths(es, e.timestamp - cfg.sweepWindow);
            SweepRule(cfg, es, e) == if e.path != "" && |paths| >= cfg.sweepThreshold
                                     then Some(AlertFor(Sweep, SeverityMedium, |paths|, e)) else None
  {
    var cutoff := e.timestamp - cfg.sweepWindow;
    forall path ensures path in Paths(Since(es, cutoff)) <==> path in RecentPaths(es, cutoff) {
      PathsIff(es, cutoff, path);
    }
    assert Paths(Since(es, cutoff)) == RecentPaths(es, cutoff);
  }

  /** The calls of one agent among the recent events. */
  function RecentCalls(es: seq<Event>, cutoff: int, agent: string): set<nat> {
    set i: nat | i < |es| && es[i].timestamp >= cutoff && es[i].agent == agent
  }

  lemma {:induction false} CountIsCalls(es: seq<Event>, cutoff: int, agent: string)
    ensures CountOf(Since(es, cutoff), agent) == |RecentCalls(es, cutoff, agent)|
  {
    if es == [] {
      assert RecentCalls(es, cutoff, agent) == {};
    } else {
      hide RecentCalls, CountOf;
      var n := |es| - 1;
      CountIsCalls(es[..n], cutoff, agent);
      CountStep(Since(es[..n], cutoff), es[n], agent);
      CallsStep(es, cutoff, agent);
    }
  }

  lemma {:induction false} CallsStep(es: seq<Event>, cutoff: int, agent: string)
    requires es != []
    ensures var n := |es| - 1;
            |RecentCalls(es, cutoff, agent)| == |RecentCalls(es[..n], cutoff, agent)|
              + (if es[n].timestamp >= cutoff && es[n].agent == agent then 1 else 0)
  {
    var n := |es| - 1;
    var hit := if es[n].timestamp >= cutoff && es[n].agent == agent then {n} else {};
    assert RecentCalls(es, cutoff, agent) == RecentCalls(es[..n], cutoff, agent) + hit;
  }

  /** A rate alert: more calls of the agent in the time window than the limit. */
  lemma {:induction false} RateFiresIff(cfg: Config, es: seq<Event>, e: Event)
    ensures var calls := RecentCalls(es, e.timestamp - cfg.rateWindow, e.agent);
            RateRule(cfg, es, e) == if |calls| > cfg.rateLimit
                                    then Some(AlertFor(RateAnomaly, SeverityMedium, |calls|, e)) else None
  {
    CountIsCalls(es, e.timestamp - cfg.rateWindow, e.agent);
  }

  /** A chain alert: a command run by an agent that read as much as the threshold since the last old event. */
  lemma {:induction false} ChainFiresIff(cfg: Config, es: seq<Event>, e: Event)
    ensures var cutoff := e.timestamp - cfg.toolChainWindow;
            ScannedChainRule(cfg, es, e).Some?
            <==> && e.tool in {"run_command", "execute_with_secret"}
                 && exists i :: 0 <= i < |es| && es[i].agent == e.agent
                     && es[i].tool in {"get_entry", "get_entry_value"}
                                && es[i].fieldLength >= cfg.toolChainThreshold
                                && forall j | i <= j < |es| :: es[j].timestamp >= cutoff
  {
    hide LatestLargeRead, Recent;
    var cutoff := e.timestamp - cfg.toolChainWindow;
    ReadRecentIff(es, cutoff, e.agent, cfg.toolChainThreshold);
    if i: nat :| Reached(es, i, cutoff, e.agent, cfg.toolChainThreshold) {
      assert forall j | i <= j < |es| :: es[j].timestamp >= cutoff;
    }
    if i: nat :| i < |es| && LargeRead(es[i], e.agent, cfg.toolChainThreshold)
                 && forall j | i <= j < |es| :: es[j].timestamp >= cutoff {
      assert Reached(es, i, cutoff, e.agent, cfg.toolChainThreshold);
    }
  }

  /** The figure a chain alert quotes is the size of the latest of those reads. */
  lemma {:induction false} ChainAlertQuotesLatest(cfg: Config, es: seq<Event>, e: Event, i: nat)
    requires ScannedChainRule(cfg, es, e).Some? && i < |es|
    requires var cutoff := e.timestamp - cfg.toolChainWindow;
             && Reached(es, i, cutoff, e.agent, cfg.toolChainThreshold)
             && forall j: nat | j > i :: !Reached(es, j, cutoff, e.agent, cfg.toolChainThreshold)
    ensures ScannedChainRule(cfg, es, e) == Some(AlertFor(ToolChain, SeverityHigh, es[i].fieldLength, e))
  {
    LatestReached(es, i, e.timestamp - cfg.toolChainWindow, e.agent, cfg.toolChainThreshold);
  }

  lemma {:induction false} LatestReached(es: seq<Event>, i: nat, cutoff: int, agent: string, threshold: int)
    requires i < |es| && Reached(es, i, cutoff, agent, threshold)
    requires forall j: nat | j > i :: !Reached(es, j, cutoff, agent, threshold)
    ensures LatestLargeRead(Recent(es, cutoff), agent, threshold) == Some(es[i])
  {
    hide Reached;
    var n, front := |es| - 1, es[..|es| - 1];
    ReachedByFront(es, i, cutoff, agent, threshold);
    ReachedByFront(es, n, cutoff, agent, threshold);
    if i < n {
      forall j: nat | j > i ensures !Reached(front, j, cutoff, agent, threshold) {
        ReachedByFront(es, j, cutoff, agent, threshold);
        if j >= n { NotReachedBeyond(front, j, cutoff, agent, threshold); }
      }
      LatestReached(front, i, cutoff, agent, threshold);
    }
    ReadStep(Recent(front, cutoff), es[n], agent, threshold);
  }

  /** A canary alert: the event touches an entry that is a canary. Off hours: it touches any entry then. */
  lemma {:induction false} EntryAlertsIff(cfg: Config, hour: int -> int, e: Event)
    ensures CanaryRule(e).Some? <==> e.isCanary && |e.path| > 0
    ensures CanaryRule(e).Some? ==> CanaryRule(e).value.kind == CanaryAccess && CanaryRule(e).value.figure == 0
    ensures OffHoursRule(cfg, hour, e).Some? <==> |e.path| > 0 && InOffHours(cfg, hour(e.timestamp))
  {
  }

  /** The alert carries the call's time, agent, tool and request, and its entry unless it is a rate alert. */
  predicate NamesCall(alert: Alert, e: Event) {
    && alert.timestamp == e.timestamp && alert.agent == e.agent && alert.tool == e.tool
    && alert.requestId == e.requestId && alert.path == if alert.kind == RateAnomaly then "" else e.path
  }

  lemma {:induction false} RulesNameTheCall(cfg: Config, hour: int -> int, es: seq<Event>, e: Event)
    ensures CanaryRule(e).Some? ==> NamesCall(CanaryRule(e).value, e)
    ensures OffHoursRule(cfg, hour, e).Some? ==> NamesCall(OffHoursRule(cfg, hour, e).value, e)
    ensures SweepRule(cfg, es, e).Some? ==> NamesCall(SweepRule(cfg, es, e).value, e)
    ensures RateRule(cfg, es, e).Some? ==> NamesCall(RateRule(cfg, es, e).value, e)
    ensures ScannedChainRule(cfg, es, e).Some? ==> NamesCall(ScannedChainRule(cfg, es, e).value, e)
  {
    hide Since, Paths, CountOf, LatestLargeRead, Recent, InOffHours;
  }

  /** Every alert names the call it is about, and its entry, but for a rate alert, which is about no entry. */
  lemma {:induction false} AlertsNameTheCall(cfg: Config, hour: int -> int, es: seq<Event>, e: Event, alert: Alert)
    requires alert in ScannedAlerts(cfg, hour, es, e)
    ensures NamesCall(alert, e)
  {
    RulesNameTheCall(cfg, hour, es, e);
    hide SweepRule, RateRule, ScannedChainRule, CanaryRule, OffHoursRule, NamesCall;
  }

  lemma {:induction false} WindowSlides(h: seq<Event>, e: Event, n: nat)
    requires n >= 1
    ensures LastN(h + [e], n) == if |LastN(h, n)| >= n then LastN(h, n)[1..] + [e] else LastN(h, n) + [e]
  {
  }

  // ---------------------------------------------------------------- which alert is reported

  function Rank(s: Severity): nat {
    match s case SeverityLow => 0 case SeverityMedium => 1 case SeverityHigh => 2 case SeverityCritical => 3
  }

  predicate TopSeverity(alerts: seq<Alert>) {
    forall i | 0 <= i < |alerts| :: Rank(alerts[i].severity) <= Rank(alerts[0].severity)
  }

  /**
   * The alert `Check` returns is the gravest one unless off-hours, or a sweep or rate
   * alert, comes before a graver rule.
   */
  lemma {:induction false} GravestReportedIff(cfg: Config, hour: int -> int, es: seq<Event>, e: Event)
    ensures var medium := SweepRule(cfg, es, e).Some? || RateRule(cfg, es, e).Some?;
            var chain := ScannedChainRule(cfg, es, e).Some?;
            TopSeverity(ScannedAlerts(cfg, hour, es, e)) <==>
              || CanaryRule(e).Some?
              || (if OffHoursRule(cfg, hour, e).Some? then !medium && !chain else !(medium && chain))
  {
    var canary, offHours := CanaryRule(e), OffHoursRule(cfg, hour, e);
    var sweep, rate, chain := SweepRule(cfg, es, e), RateRule(cfg, es, e), ScannedChainRule(cfg, es, e);
    GravestFirstIff(canary, offHours, sweep, rate, chain);
  }

  /** As many different paths as one likes. */
  function Path(n: nat): (path: string)
    ensures |path| == n
  {
    if n == 0 then "" else "a" + Path(n - 1)
  }

  /** One agent reading `n` entries at one moment. */
  function Sweeping(n: nat, at: int, agent: string, tool: string): (es: seq<Event>)
    ensures |es| == n && forall i | 0 <= i < n :: es[i].timestamp == at
  {
    seq(n, i requires 0 <= i < n => Event(at, agent, tool, Path(i + 1), false, "", 0))
  }

  lemma {:induction false} SweepingPaths(n: nat, at: int, agent: string, tool: string)
    ensures var paths := Paths(Sweeping(n, at, agent, tool));
            |paths| == n && forall path | path in paths :: |path| <= n
  {
    if n > 0 {
      var front, e := Sweeping(n - 1, at, agent, tool), Event(at, agent, tool, Path(n), false, "", 0);
      SweepingPaths(n - 1, at, agent, tool);
      assert Sweeping(n, at, agent, tool) == front + [e];
      PathsStep(front, e);
      assert Path(n) !in Paths(front);
    }
  }

  /**
   * The failing input: a sweep at night, whatever the thresholds, is reported as a
   * call outside office hours, of low severity.
   */
  lemma {:induction false} NightSweepReportedLow(cfg: Config, hour: int -> int, at: int, agent: string, tool: string,
          n: nat)
    requires InOffHours(cfg, hour(at)) && cfg.sweepWindow >= 0 && n >= 1 && n >= cfg.sweepThreshold
    ensures var es := Sweeping(n, at, agent, tool);
            var alerts := ScannedAlerts(cfg, hour, es, es[n - 1]);
            && First(alerts) == Some(AlertFor(OffHours, SeverityLow, 0, es[n - 1]))
            && AlertFor(Sweep, SeverityMedium, n, es[n - 1]) in alerts && !TopSeverity(alerts)
  {
    hide Since, Paths, CountOf, LatestLargeRead, Recent;
    var es := Sweeping(n, at, agent, tool);
    var e := es[n - 1];
    AllSince(es, at - cfg.sweepWindow);
    SweepingPaths(n, at, agent, tool);
    assert SweepRule(cfg, es, e) == Some(AlertFor(Sweep, SeverityMedium, n, e));
    assert OffHoursRule(cfg, hour, e) == Some(AlertFor(OffHours, SeverityLow, 0, e));
    GravestReportedIff(cfg, hour, es, e);
    assert CanaryRule(e).None?;
    NightFirst(SweepRule(cfg, es, e), OffHoursRule(cfg, hour, e), RateRule(cfg, es, e), ScannedChainRule(cfg, es, e));
  }

  lemma {:induction false} NightFirst(sweep: Option<Alert>, offHours: Option<Alert>, rate: Option<Alert>,
          chain: Option<Alert>)
    requires sweep.Some? && offHours.Some?
    ensures var alerts := OptionToSeq<Alert>(None) + OptionToSeq(offHours) + OptionToSeq(sweep) + OptionToSeq(rate)
              + OptionToSeq(chain);
            First(alerts) == offHours && sweep.value in alerts
  {
    var alerts := OptionToSeq<Alert>(None) + OptionToSeq(offHours) + OptionToSeq(sweep) + OptionToSeq(rate)
        + OptionToSeq(chain);
    assert alerts[0] == offHours.value && alerts[1] == sweep.value;
  }

  lemma {:induction false} GravestFirstIff(canary: Option<Alert>, offHours: Option<Alert>,
          sweep: Option<Alert>, rate: Option<Alert>, chain: Option<Alert>)
    requires canary.Some? ==> canary.value.severity == SeverityCritical
    requires offHours.Some? ==> offHours.value.severity == SeverityLow
    requires sweep.Some? ==> sweep.value.severity == SeverityMedium
    requires rate.Some? ==> rate.value.severity == SeverityMedium
    requires chain.Some? ==> chain.value.severity == SeverityHigh
    ensures TopSeverity(OptionToSeq(canary) + OptionToSeq(offHours) + OptionToSeq(sweep) + OptionToSeq(rate)
            + OptionToSeq(chain))
       <==> canary.Some? || (if offHours.Some? then sweep.None? && rate.None? && chain.None?
                             else !((sweep.Some? || rate.Some?) && chain.Some?))
  {
    var later := OptionToSeq(sweep) + OptionToSeq(rate) + OptionToSeq(chain);
    var all := OptionToSeq(canary) + OptionToSeq(offHours) + OptionToSeq(sweep) + OptionToSeq(rate)
        + OptionToSeq(chain);
    assert all == OptionToSeq(canary) + OptionToSeq(offHours) + later;
    if chain.Some? { assert all[|all| - 1] == chain.value; }
    if chain.None? && (sweep.Some? || rate.Some?) { assert all[|all| - 1].severity == SeverityMedium; }
  }

  // ---------------------------------------------------------------- one event more

  lemma {:induction false} NothingSeen(cutoff: int)
    ensures Paths(Since([], cutoff)) == {}
  {
  }

  lemma {:induction false} SinceStep(es: seq<Event>, cutoff: int, i: nat)
    requires i < |es|
    ensures Since(es[..i + 1], cutoff) == Since(es[..i], cutoff) + (if es[i].timestamp >= cutoff then [es[i]] else [])
  {
    assert es[..i + 1][..i] == es[..i];
  }

  lemma {:induction false} PathsStep(es: seq<Event>, e: Event)
    ensures Paths(es + [e]) == Paths(es) + (if e.path != "" then {e.path} else {})
    ensures es + [] == es
  {
    assert (es + [e])[..|es|] == es;
  }

  lemma {:induction false} CountStep(es: seq<Event>, e: Event, agent: string)
    ensures CountOf(es + [e], agent) == CountOf(es, agent) + (if e.agent == agent then 1 else 0)
    ensures es + [] == es
  {
    assert (es + [e])[..|es|] == es;
  }

  lemma {:induction false} ReadStep(es: seq<Event>, e: Event, agent: string, threshold: int)
    ensures LatestLargeRead(es + [e], agent, threshold)
            == if LargeRead(e, agent, threshold) then Some(e) else LatestLargeRead(es, agent, threshold)
  {
    assert (es + [e])[..|es|] == es;
  }

  lemma {:induction false} RecentStep(es: seq<Event>, cutoff: int, i: nat)
    requires i < |es|
    ensures Recent(es[..i + 1], cutoff) == if es[i].timestamp < cutoff then [] else Recent(es[..i], cutoff) + [es[i]]
  {
    assert es[..i + 1][..i] == es[..i];
  }

  lemma {:induction false} NothingRead(es: seq<Event>, cutoff: int, agent: string, threshold: int)
    ensures LatestLargeRead([], agent, threshold) == None && Recent(es[..0], cutoff) == []
  {
  }

  // ---------------------------------------------------------------- window and history

  lemma {:induction false} SinceConcat(a: seq<Event>, b: seq<Event>, cutoff: int)
    ensures Since(a + b, cutoff) == Since(a, cutoff) + Since(b, cutoff)
  {
    if b == [] {
      assert a + b == a;
    } else {
      var n := |b| - 1;
      assert (a + b)[..|a| + n] == a + b[..n];
      SinceConcat(a, b[..n], cutoff);
    }
  }

  lemma {:induction false} CountConcat(a: seq<Event>, b: seq<Event>, agent: string)
    ensures CountOf(a + b, agent) == CountOf(a, agent) + CountOf(b, agent)
  {
    if b == [] {
      assert a + b == a;
    } else {
      var n := |b| - 1;
      assert (a + b)[..|a| + n] == a + b[..n];
      CountConcat(a, b[..n], agent);
    }
  }

  lemma {:induction false} PathsConcat(a: seq<Event>, b: seq<Event>)
    ensures Paths(a + b) == Paths(a) + Paths(b)
  {
    if b == [] {
      assert a + b == a;
    } else {
      var n := |b| - 1;
      assert (a + b)[..|a| + n] == a + b[..n];
      PathsConcat(a, b[..n]);
    }
  }

  /** A read found in the later part is the one found overall. */
  lemma {:induction false} ReadConcat(a: seq<Event>, b: seq<Event>, agent: string, threshold: int)
    ensures var late := LatestLargeRead(b, agent, threshold);
            LatestLargeRead(a + b, agent, threshold) == if late.Some? then late
                else LatestLargeRead(a, agent, threshold)
  {
    if b == [] {
      assert a + b == a;
    } else {
      var n := |b| - 1;
      assert (a + b)[..|a| + n] == a + b[..n];
      ReadConcat(a, b[..n], agent, threshold);
    }
  }

  /** Whatever a rule sees in the window it sees in the history. */
  lemma {:induction false} WindowAlertsAreReal(cfg: Config, h: seq<Event>, n: nat, e: Event)
    ensures SweepRule(cfg, LastN(h, n), e).Some? ==> SweepRule(cfg, h, e).Some?
    ensures RateRule(cfg, LastN(h, n), e).Some? ==> RateRule(cfg, h, e).Some?
    ensures ChainRule(cfg, LastN(h, n), e).Some? ==> ChainRule(cfg, h, e) == ChainRule(cfg, LastN(h, n), e)
    ensures ScannedChainRule(cfg, LastN(h, n), e).Some?
            ==> ChainRule(cfg, h, e) == ScannedChainRule(cfg, LastN(h, n), e)
  {
    hide Paths, CountOf, LatestLargeRead, Since, Recent;
    var w := LastN(h, n);
    var older := h[..|h| - |w|];
    assert h == older + w;
    var c1, c2, c3 := e.timestamp - cfg.sweepWindow, e.timestamp - cfg.rateWindow, e.timestamp - cfg.toolChainWindow;
    SinceConcat(older, w, c1);
    PathsConcat(Since(older, c1), Since(w, c1));
    SubsetSize(Paths(Since(w, c1)), Paths(Since(h, c1)));
    SinceConcat(older, w, c2);
    CountConcat(Since(older, c2), Since(w, c2), e.agent);
    SinceConcat(older, w, c3);
    ReadConcat(Since(older, c3), Since(w, c3), e.agent, cfg.toolChainThreshold);
    RecentIsSuffix(w, c3);
    var rest := Since(w, c3)[..|Since(w, c3)| - |Recent(w, c3)|];
    ReadConcat(rest, Recent(w, c3), e.agent, cfg.toolChainThreshold);
  }

  /** Both lists, with one more event behind. */
  lemma {:induction false} LastEvent(es: seq<Event>, cutoff: int)
    requires es != []
    ensures var front, last := es[..|es| - 1], es[|es| - 1];
            && Since(es, cutoff)
                == (if last.timestamp >= cutoff then Since(front, cutoff) + [last] else Since(front, cutoff))
            && Recent(es, cutoff) == (if last.timestamp >= cutoff then Recent(front, cutoff) + [last] else [])
  {
  }

  lemma {:induction false} NoEvents(es: seq<Event>, cutoff: int)
    requires es == []
    ensures Since(es, cutoff) == Recent(es, cutoff) == []
  {
  }

  /** The backward scan looks at a last part of what is recent enough. */
  lemma {:induction false} RecentIsSuffix(es: seq<Event>, cutoff: int)
    ensures var s, r := Since(es, cutoff), Recent(es, cutoff);
            |r| <= |s| && s == s[..|s| - |r|] + r
  {
    hide Since, Recent;
    if es == [] {
      NoEvents(es, cutoff);
    } else {
      var front, last := es[..|es| - 1], es[|es| - 1];
      LastEvent(es, cutoff);
      RecentIsSuffix(front, cutoff);
      SuffixGrows(Since(front, cutoff), Recent(front, cutoff), last);
    }
  }

  lemma {:induction false} SuffixGrows(s: seq<Event>, r: seq<Event>, x: Event)
    requires |r| <= |s| && s == s[..|s| - |r|] + r
    ensures s + [x] == (s + [x])[..|s| - |r|] + (r + [x])
    ensures s + [x] == r + [x] <==> s == r
  {
    assert (s + [x])[..|s| - |r|] == s[..|s| - |r|];
  }

  predicate InOrder(es: seq<Event>) { forall i, j | 0 <= i < j < |es| :: es[i].timestamp <= es[j].timestamp }

  /** Once an event is recent enough, so are all behind it. */
  predicate RecentStayRecent(es: seq<Event>, cutoff: int) {
    forall i, j | 0 <= i < j < |es| :: es[i].timestamp >= cutoff ==> es[j].timestamp >= cutoff
  }

  /** The break loses nothing recent exactly when no recent event has an older-than-cutoff one behind it. */
  lemma {:induction false} BreakLosesNothingIff(es: seq<Event>, cutoff: int)
    ensures Recent(es, cutoff) == Since(es, cutoff) <==> RecentStayRecent(es, cutoff)
  {
    hide Since, Recent;
    if es == [] {
      NoEvents(es, cutoff);
    } else {
      var n := |es| - 1;
      var front := es[..n];
      LastEvent(es, cutoff);
      BreakLosesNothingIff(front, cutoff);
      RecentIsSuffix(front, cutoff);
      SuffixGrows(Since(front, cutoff), Recent(front, cutoff), es[n]);
      StayRecentByFront(es, cutoff);
      NoneSinceIff(front, cutoff);
    }
  }

  lemma {:induction false} StayRecentByFront(es: seq<Event>, cutoff: int)
    requires es != []
    ensures var front := es[..|es| - 1];
            RecentStayRecent(es, cutoff) <==>
              if es[|es| - 1].timestamp >= cutoff then RecentStayRecent(front, cutoff)
              else forall i | 0 <= i < |front| :: front[i].timestamp < cutoff
  {
    var n, front := |es| - 1, es[..|es| - 1];
    assert forall i | 0 <= i < n :: front[i] == es[i];
    assert RecentStayRecent(es, cutoff) ==>
        forall i | 0 <= i < n && es[i].timestamp >= cutoff :: es[n].timestamp >= cutoff;
  }

  lemma {:induction false} NoneSinceIff(es: seq<Event>, cutoff: int)
    ensures Since(es, cutoff) == [] <==> forall i | 0 <= i < |es| :: es[i].timestamp < cutoff
  {
    if es != [] {
      hide Since;
      LastEvent(es, cutoff);
      NoneSinceIff(es[..|es| - 1], cutoff);
    } else {
      NoEvents(es, cutoff);
    }
  }

  /** In time order nothing behind the break is recent, so the break loses nothing. */
  lemma {:induction false} BreakLosesNothing(es: seq<Event>, cutoff: int)
    requires InOrder(es)
    ensures Recent(es, cutoff) == Since(es, cutoff)
  {
    BreakLosesNothingIff(es, cutoff);
  }

  predicate RecentLargeRead(es: seq<Event>, i: nat, cutoff: int, agent: string, threshold: int) {
    i < |es| && es[i].timestamp >= cutoff && LargeRead(es[i], agent, threshold)
  }

  /** An event older than `cutoff` stands behind place `i`, so the scan stops before it gets there. */
  predicate Hidden(es: seq<Event>, i: nat, cutoff: int) {
    exists j :: i < j < |es| && es[j].timestamp < cutoff
  }

  lemma {:induction false} ReadsByFront(es: seq<Event>, i: nat, cutoff: int, agent: string, threshold: int)
    requires es != []
    ensures RecentLargeRead(es, i, cutoff, agent, threshold) <==>
      if i == |es| - 1 then es[i].timestamp >= cutoff && LargeRead(es[i], agent, threshold)
      else RecentLargeRead(es[..|es| - 1], i, cutoff, agent, threshold)
  {
  }

  lemma {:induction false} HiddenByFront(es: seq<Event>, i: nat, cutoff: int)
    requires es != []
    ensures Hidden(es, i, cutoff) <==>
      i < |es| - 1 && (es[|es| - 1].timestamp < cutoff || Hidden(es[..|es| - 1], i, cutoff))
  {
    var n, front := |es| - 1, es[..|es| - 1];
    if Hidden(es, i, cutoff) {
      var j :| i < j < |es| && es[j].timestamp < cutoff;
      assert j < n ==> front[j] == es[j];
    }
    if Hidden(front, i, cutoff) {
      var j :| i < j < |front| && front[j].timestamp < cutoff;
      assert es[j] == front[j];
    }
  }

  lemma {:induction false} ReadSinceIff(es: seq<Event>, cutoff: int, agent: string, threshold: int)
    ensures LatestLargeRead(Since(es, cutoff), agent, threshold).Some?
       <==> exists i: nat :: RecentLargeRead(es, i, cutoff, agent, threshold)
  {
    if es == [] {
      NothingRead(es, cutoff, agent, threshold);
    } else {
      hide LatestLargeRead, Since, Recent, RecentLargeRead;
      var n, front := |es| - 1, es[..|es| - 1];
      LastEvent(es, cutoff);
      ReadSinceIff(front, cutoff, agent, threshold);
      ReadStep(Since(front, cutoff), es[n], agent, threshold);
      forall i: nat
        ensures RecentLargeRead(es, i, cutoff, agent, threshold) <==>
          if i == n then es[n].timestamp >= cutoff && LargeRead(es[n], agent, threshold)
          else RecentLargeRead(front, i, cutoff, agent, threshold)
      {
        ReadsByFront(es, i, cutoff, agent, threshold);
      }
      NoneBeyond(front, n, cutoff, agent, threshold);
      assert RecentLargeRead(es, n, cutoff, agent, threshold)
          <==> es[n].timestamp >= cutoff && LargeRead(es[n], agent, threshold);
    }
  }

  lemma {:induction false} NoneBeyond(es: seq<Event>, i: nat, cutoff: int, agent: string, threshold: int)
    requires i >= |es|
    ensures !RecentLargeRead(es, i, cutoff, agent, threshold)
  {
  }

  predicate Reached(es: seq<Event>, i: nat, cutoff: int, agent: string, threshold: int) {
    RecentLargeRead(es, i, cutoff, agent, threshold) && !Hidden(es, i, cutoff)
  }

  lemma {:induction false} ReachedByFront(es: seq<Event>, i: nat, cutoff: int, agent: string, threshold: int)
    requires es != []
    ensures Reached(es, i, cutoff, agent, threshold) <==>
      && es[|es| - 1].timestamp >= cutoff
      && if i == |es| - 1 then LargeRead(es[i], agent, threshold)
          else Reached(es[..|es| - 1], i, cutoff, agent, threshold)
  {
    ReadsByFront(es, i, cutoff, agent, threshold);
    HiddenByFront(es, i, cutoff);
  }

  lemma {:induction false} ReadRecentIff(es: seq<Event>, cutoff: int, agent: string, threshold: int)
    ensures LatestLargeRead(Recent(es, cutoff), agent, threshold).Some?
       <==> exists i: nat :: Reached(es, i, cutoff, agent, threshold)
  {
    if es == [] {
      NothingRead(es, cutoff, agent, threshold);
    } else {
      var n, front := |es| - 1, es[..|es| - 1];
      NothingRead(es, cutoff, agent, threshold);
      hide LatestLargeRead, Since, Recent, Reached;
      LastEvent(es, cutoff);
      ReadRecentIff(front, cutoff, agent, threshold);
      ReadStep(Recent(front, cutoff), es[n], agent, threshold);
      forall i: nat
        ensures Reached(es, i, cutoff, agent, threshold) <==>
          && es[n].timestamp >= cutoff
          && if i == n then LargeRead(es[n], agent, threshold) else Reached(front, i, cutoff, agent, threshold)
      {
        ReachedByFront(es, i, cutoff, agent, threshold);
      }
      NotReachedBeyond(front, n, cutoff, agent, threshold);
      assert Reached(es, n, cutoff, agent, threshold)
          <==> es[n].timestamp >= cutoff && LargeRead(es[n], agent, threshold);
    }
  }

  lemma {:induction false} NotReachedBeyond(es: seq<Event>, i: nat, cutoff: int, agent: string, threshold: int)
    requires i >= |es|
    ensures !Reached(es, i, cutoff, agent, threshold)
  {
  }

  /**
   * The tool-chain rule misses a chain exactly when there is one and every recent
   * large read has an event older than the rule's time window behind it.
   */
  lemma {:induction false} ChainMissedIff(cfg: Config, es: seq<Event>, e: Event)
    ensures var cutoff := e.timestamp - cfg.toolChainWindow;
            (ChainRule(cfg, es, e).Some? && ScannedChainRule(cfg, es, e).None?
             <==> && RunsCommand(e)
                  && (exists i: nat :: RecentLargeRead(es, i, cutoff, e.agent, cfg.toolChainThreshold))
                  && (forall i: nat | RecentLargeRead(es, i, cutoff, e.agent, cfg.toolChainThreshold) ::
                      Hidden(es, i, cutoff)))
  {
    hide LatestLargeRead, Since, Recent, RecentLargeRead, Hidden;
    var cutoff := e.timestamp - cfg.toolChainWindow;
    ReadSinceIff(es, cutoff, e.agent, cfg.toolChainThreshold);
    ReadRecentIff(es, cutoff, e.agent, cfg.toolChainThreshold);
    assert forall i: nat :: Reached(es, i, cutoff, e.agent, cfg.toolChainThreshold)
                            <==> (RecentLargeRead(es, i, cutoff, e.agent, cfg.toolChainThreshold)
                                  && !Hidden(es, i, cutoff));
  }

  lemma {:induction false} NoneSince(es: seq<Event>, cutoff: int)
    requires forall i | 0 <= i < |es| :: es[i].timestamp < cutoff
    ensures Since(es, cutoff) == []
  {
    if es != [] { NoneSince(es[..|es| - 1], cutoff); }
  }

  lemma {:induction false} AllSince(es: seq<Event>, cutoff: int)
    requires forall i | 0 <= i < |es| :: es[i].timestamp >= cutoff
    ensures Since(es, cutoff) == es
  {
    if es != [] { AllSince(es[..|es| - 1], cutoff); }
  }

  /** In time order, the window holds every recent event exactly when there are at most `n` of them. */
  lemma {:induction false} WindowHoldsRecentIff(h: seq<Event>, n: nat, cutoff: int)
    requires InOrder(h)
    ensures Since(LastN(h, n), cutoff) == Since(h, cutoff) <==> |Since(h, cutoff)| <= n
  {
    var w := LastN(h, n);
    var m := |h| - |w|;
    assert h == h[..m] + w;
    SinceConcat(h[..m], w, cutoff);
    SinceAtMost(w, cutoff);
    if m > 0 {
      if h[m - 1].timestamp < cutoff {
        NoneSince(h[..m], cutoff);
      } else {
        AllSince(w, cutoff);
        SinceStep(h, cutoff, m - 1);
      }
    } else {
      assert Since(h[..m], cutoff) == [];
    }
  }

  lemma {:induction false} SinceAtMost(es: seq<Event>, cutoff: int)
    ensures |Since(es, cutoff)| <= |es|
  {
    if es != [] { SinceAtMost(es[..|es| - 1], cutoff); }
  }

  /** At most `maxEvents` events fall inside each rule's time window. */
  predicate RoomFor(cfg: Config, h: seq<Event>, now: int) {
    && |Since(h, now - cfg.sweepWindow)| <= cfg.maxEvents
    && |Since(h, now - cfg.rateWindow)| <= cfg.maxEvents
    && |Since(h, now - cfg.toolChainWindow)| <= cfg.maxEvents
  }

  lemma {:induction false} LastNInOrder(h: seq<Event>, n: nat)
    requires InOrder(h)
    ensures InOrder(LastN(h, n))
  {
  }

  /** With calls in time order and room for them, the detector raises exactly the alerts of the whole history. */
  lemma {:induction false} SeesWholeHistory(cfg: Config, hour: int -> int, h: seq<Event>, e: Event)
    requires cfg.maxEvents >= 1 && InOrder(h) && RoomFor(cfg, h, e.timestamp)
    ensures ScannedAlerts(cfg, hour, LastN(h, cfg.maxEvents), e) == Alerts(cfg, hour, h, e)
  {
    hide Since, Recent, Paths, CountOf, LatestLargeRead, OptionToSeq;
    LastNInOrder(h, cfg.maxEvents);
    BreakLosesNothing(LastN(h, cfg.maxEvents), e.timestamp - cfg.toolChainWindow);
    WindowHoldsRecentIff(h, cfg.maxEvents, e.timestamp - cfg.sweepWindow);
    WindowHoldsRecentIff(h, cfg.maxEvents, e.timestamp - cfg.rateWindow);
    WindowHoldsRecentIff(h, cfg.maxEvents, e.timestamp - cfg.toolChainWindow);
  }

  /** A window of at most `rateLimit` events can never raise the rate alert, whatever the agent does. */
  lemma {:induction false} SmallWindowNeverRates(cfg: Config, h: seq<Event>, e: Event)
    requires 1 <= cfg.maxEvents <= cfg.rateLimit
    ensures RateRule(cfg, LastN(h, cfg.maxEvents), e).None?
  {
    var w := LastN(h, cfg.maxEvents);
    SinceAtMost(w, e.timestamp - cfg.rateWindow);
    CountAtMost(Since(w, e.timestamp - cfg.rateWindow), e.agent);
  }

  lemma {:induction false} CountAtMost(es: seq<Event>, agent: string)
    ensures CountOf(es, agent) <= |es|
  {
    if es != [] { CountAtMost(es[..|es| - 1], agent); }
  }

  /** Out of time order the break can hide a chain: an older call recorded in between ends the scan early. */
  lemma {:induction false} LateArrivalHidesChain(cfg: Config, read: Event, late: Event, run: Event)
    requires RunsCommand(run) && LargeRead(read, run.agent, cfg.toolChainThreshold)
    requires !LargeRead(run, run.agent, cfg.toolChainThreshold) && !LargeRead(late, run.agent, cfg.toolChainThreshold)
    requires late.timestamp < run.timestamp - cfg.toolChainWindow <= read.timestamp && cfg.toolChainWindow >= 0
    ensures ChainRule(cfg, [read, late, run], run).Some?
    ensures ScannedChainRule(cfg, [read, late, run], run).None?
  {
    var cutoff := run.timestamp - cfg.toolChainWindow;
    var es := [read, late, run];
    assert es[..2] == [read, late] && [read, late][..1] == [read] && [read][..0] == [];
    assert Since([read], cutoff) == [read];
    assert Since([read, late], cutoff) == [read];
    assert Since(es, cutoff) == [read] + [run];
    assert Recent([read, late], cutoff) == [];
    assert Recent(es, cutoff) == [] + [run];
    ReadStep([read], run, run.agent, cfg.toolChainThreshold);
    ReadStep([], run, run.agent, cfg.toolChainThreshold);
    assert LatestLargeRead([read], run.agent, cfg.toolChainThreshold) == Some(read);
  }
}

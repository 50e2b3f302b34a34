/**
 * The fixed-window rate limiter: a bounded table of counters, its forced
 * evictions, and what any run of requests and cleanups can admit.
 */
module RateLimiting {
  import opened Collections
  import opened Runs

  /** One counter: admissions in the open window, and the last instant of that window. */
  datatype Slot = Slot(resetAt: int, count: int)

  type Table = map<string, Slot>

  datatype Config = Config(limit: int, window: int, maxEntries: int)

  predicate Expired(t: Table, now: int, ip: string)
    requires ip in t
  {
    now > t[ip].resetAt
  }

  function ExpiredKeys(t: Table, now: int): set<string> {
    set ip | ip in t && Expired(t, now, ip)
  }

  function LiveKeys(t: Table, now: int): set<string> {
    t.Keys - ExpiredKeys(t, now)
  }

  // ---------------------------------------------------------------- the specification

  /** `ip` is live and no live entry resets earlier. */
  predicate OldestLive(t: Table, now: int, ip: string) {
    ip in LiveKeys(t, now) && forall other | other in LiveKeys(t, now) :: t[ip].resetAt <= t[other].resetAt
  }

  /**
   * The sets of keys one forced eviction may remove, whatever order the table is
   * walked in: expired entries until the table has room; if all the expired ones
   * do not make room, also one live entry that resets first. The empty key is
   * never removed as a live victim.
   */
  ghost predicate LegalVictims(t: Table, now: int, maxEntries: int, victims: set<string>) {
    var expired := ExpiredKeys(t, now);
    if |expired| > |t| - maxEntries then
      victims <= expired && |victims| == |t| - maxEntries + 1
    else
      exists oldest :: OldestLive(t, now, oldest)
                       && victims == expired + (if oldest == "" then {} else {oldest})
  }

  /** A request opens a window when its key has no entry, or an expired one. */
  predicate OpensWindow(t: Table, now: int, ip: string) {
    ip !in t || Expired(t, now, ip)
  }

  predicate MustEvict(cfg: Config, t: Table, now: int, ip: string) {
    OpensWindow(t, now, ip) && cfg.maxEntries > 0 && |t| >= cfg.maxEntries
  }

  /** `Allow`, given the victims of the eviction it forces, if any. */
  function AfterAllow(cfg: Config, t: Table, now: int, ip: string, victims: set<string>): (Table, bool) {
    if OpensWindow(t, now, ip) then
      ((if MustEvict(cfg, t, now, ip) then t - victims else t)[ip := Slot(now + cfg.window, 1)], true)
    else if t[ip].count >= cfg.limit then (t, false)
    else (t[ip := t[ip].(count := t[ip].count + 1)], true)
  }

  function AfterCleanup(t: Table, now: int): Table {
    t - ExpiredKeys(t, now)
  }

  // ---------------------------------------------------------------- the limiter itself

  class RateLimiter {
    const cfg: Config
    var attempts: Table
    var cleanupCount: int
    var evictionCount: int

    constructor (limit: int, window: int, maxEntries: int)
      ensures cfg == Config(limit, window, maxEntries) && attempts == map[]
      ensures cleanupCount == 0 && evictionCount == 0
    {
      cfg := Config(limit, window, maxEntries);
      attempts, cleanupCount, evictionCount := map[], 0, 0;
    }

    method Allow(ip: string, now: int) returns (ok: bool, ghost victims: set<string>)
      modifies this
      ensures MustEvict(cfg, old(attempts), now, ip) ==> LegalVictims(old(attempts), now, cfg.maxEntries, victims)
      ensures (attempts, ok) == AfterAllow(cfg, old(attempts), now, ip, victims)
      ensures cleanupCount == old(cleanupCount)
      ensures evictionCount == old(evictionCount) + if MustEvict(cfg, old(attempts), now, ip) then |victims| else 0
    {
      victims := {};
      if ip !in attempts || now > attempts[ip].resetAt {
        if cfg.maxEntries > 0 && |attempts| >= cfg.maxEntries {
          victims := EvictOldest(now);
        }
        attempts := attempts[ip := Slot(now + cfg.window, 1)];
        return true, victims;
      }
      if attempts[ip].count >= cfg.limit {
        return false, victims;
      }
      attempts := attempts[ip := attempts[ip].(count := attempts[ip].count + 1)];
      return true, victims;
    }

    /** `evictOldestLocked`: expired entries go until there is room; failing that, one that resets first. */
    method EvictOldest(now: int) returns (ghost victims: set<string>)
      requires cfg.maxEntries > 0 && |attempts| >= cfg.maxEntries
      modifies this`attempts, this`evictionCount
      ensures attempts == old(attempts) - victims
      ensures LegalVictims(old(attempts), now, cfg.maxEntries, victims)
      ensures evictionCount == old(evictionCount) + |victims|
    {
      ghost var before := attempts;
      var removed: nat;
      attempts, removed, victims := DropExpired(attempts, now, cfg.maxEntries);
      evictionCount := evictionCount + removed;
      SubsetSize(victims, ExpiredKeys(before, now));
      if |attempts| < cfg.maxEntries { return; }
      assert attempts.Keys == LiveKeys(before, now);
      var oldestIP := FindOldest(attempts);
      assert OldestLive(before, now, oldestIP);
      if oldestIP != "" {
        RemoveOne(before, victims, oldestIP);
        attempts := attempts - {oldestIP};
        evictionCount := evictionCount + 1;
        victims := victims + {oldestIP};
      }
    }

    method Cleanup(now: int)
      modifies this`attempts
      ensures attempts == AfterCleanup(old(attempts), now)
      ensures forall ip :: ip in attempts <==> ip in old(attempts) && now <= old(attempts)[ip].resetAt
      ensures forall ip | ip in attempts :: attempts[ip] == old(attempts)[ip]
    {
      var cleaned;
      ghost var gone;
      attempts, cleaned, gone := DropExpired(attempts, now, 0);
    }

    /** `cleanupOnce`: the same sweep, counted. */
    method CleanupOnce(now: int)
      modifies this`attempts, this`cleanupCount
      ensures attempts == AfterCleanup(old(attempts), now)
      ensures forall ip :: ip in attempts <==> ip in old(attempts) && now <= old(attempts)[ip].resetAt
      ensures forall ip | ip in attempts :: attempts[ip] == old(attempts)[ip]
      ensures cleanupCount == old(cleanupCount) + |old(attempts)| - |attempts|
    {
      var cleaned: nat;
      ghost var gone;
      attempts, cleaned, gone := DropExpired(attempts, now, 0);
      cleanupCount := cleanupCount + cleaned;
    }
  }

  /** Of the entries of `t`, the expired ones among those no longer `toVisit` are gone. */
  ghost predicate Swept(t: Table, now: int, toVisit: set<string>, kept: Table, removed: nat, victims: set<string>) {
    && toVisit <= t.Keys && victims == ExpiredKeys(t, now) - toVisit
    && kept == t - victims && removed == |victims| && |kept| == |t| - removed
  }

  lemma {:induction false} NothingSwept(t: Table, now: int)
    ensures Swept(t, now, t.Keys, t, 0, {})
  {
    assert ExpiredKeys(t, now) - t.Keys == {};
    assert t - {} == t;
  }

  lemma {:induction false} SweptOneMore(t: Table, now: int, toVisit: set<string>, kept: Table, removed: nat,
          victims: set<string>, ip: string)
    requires Swept(t, now, toVisit, kept, removed, victims) && ip in toVisit
    ensures ip in kept && kept[ip] == t[ip]
    ensures if Expired(t, now, ip) then Swept(t, now, toVisit - {ip}, kept - {ip}, removed + 1, victims + {ip})
            else Swept(t, now, toVisit - {ip}, kept, removed, victims)
  {
    VisitOne(t, now, toVisit, ip);
    if Expired(t, now, ip) { RemoveOne(t, victims, ip); }
  }

  lemma {:induction false} SweptVictims(t: Table, now: int, toVisit: set<string>, kept: Table, removed: nat,
          victims: set<string>)
    requires Swept(t, now, toVisit, kept, removed, victims)
    ensures kept == t - victims && removed == |victims| && |kept| == |t| - removed
    ensures victims <= ExpiredKeys(t, now) && (toVisit == {} ==> victims == ExpiredKeys(t, now))
  {
  }

  /** Walk the table, in an order nobody chooses, deleting expired entries until fewer than `room` are left. */
  method DropExpired(t: Table, now: int, room: int) returns (kept: Table, removed: nat, ghost victims: set<string>)
    requires |t| >= room
    ensures kept == t - victims && removed == |victims| && |kept| == |t| - removed
    ensures victims <= ExpiredKeys(t, now)
    ensures |kept| >= room ==> victims == ExpiredKeys(t, now)
    ensures |kept| < room ==> |kept| == room - 1
  {
    hide Swept, ExpiredKeys;
    kept, removed, victims := t, 0, {};
    var toVisit := t.Keys;
    NothingSwept(t, now);
    while toVisit != {}
      invariant toVisit <= t.Keys && Swept(t, now, toVisit, kept, removed, victims) && |kept| >= room
      decreases toVisit
    {
      var ip :| ip in toVisit;
      SweptOneMore(t, now, toVisit, kept, removed, victims, ip);
      toVisit := toVisit - {ip};
      if now > kept[ip].resetAt {
        SizeWithout(kept, ip);
        kept, removed, victims := kept - {ip}, removed + 1, victims + {ip};
        if |kept| < room {
          SweptVictims(t, now, toVisit, kept, removed, victims);
          return;
        }
      }
    }
    SweptVictims(t, now, toVisit, kept, removed, victims);
  }

  lemma {:induction false} SizeWithout(t: Table, ip: string)
    requires ip in t
    ensures |t - {ip}| == |t| - 1
  {
    assert (t - {ip}).Keys == t.Keys - {ip};
  }

  /** The key whose window ends first. */
  method FindOldest(t: Table) returns (oldestIP: string)
    requires t != map[]
    ensures oldestIP in t
    ensures forall other | other in t :: t[oldestIP].resetAt <= t[other].resetAt
  {
    var oldestReset, first := 0, true;
    oldestIP := "";
    var rest := t.Keys;
    assert rest != {} by {
      var k :| k in t;
    }
    while rest != {}
      invariant rest <= t.Keys
      invariant first <==> rest == t.Keys
      invariant !first ==> oldestIP in t && oldestReset == t[oldestIP].resetAt
      invariant !first ==> forall other | other in t.Keys - rest :: oldestReset <= t[other].resetAt
      decreases rest
    {
      var ip :| ip in rest;
      rest := rest - {ip};
      if first || t[ip].resetAt < oldestReset {
        oldestIP, oldestReset, first := ip, t[ip].resetAt, false;
      }
    }
  }

  lemma {:induction false} RemoveOne(t: Table, gone: set<string>, ip: string)
    requires ip in t && ip !in gone
    ensures (t - gone) - {ip} == t - (gone + {ip})
    ensures |t - (gone + {ip})| == |t - gone| - 1
    ensures |gone + {ip}| == |gone| + 1
  {
    assert (t - (gone + {ip})).Keys == (t - gone).Keys - {ip};
  }

  lemma {:induction false} VisitOne(t: Table, now: int, toVisit: set<string>, ip: string)
    requires toVisit <= t.Keys && ip in toVisit
    ensures ExpiredKeys(t, now) - (toVisit - {ip})
            == ExpiredKeys(t, now) - toVisit + (if Expired(t, now, ip) then {ip} else {})
  {
  }

  // ---------------------------------------------------------------- runs

  /** A request with the victims its eviction happens to pick, or a cleanup sweep. */
  datatype Event = Request(now: int, ip: string, victims: set<string>) | Sweep(now: int)

  function Step(cfg: Config, t: Table, e: Event): Table {
    match e
    case Request(now, ip, victims) => AfterAllow(cfg, t, now, ip, victims).0
    case Sweep(now) => AfterCleanup(t, now)
  }

  ghost predicate LegalStep(cfg: Config, t: Table, e: Event) {
    e.Request? && MustEvict(cfg, t, e.now, e.ip) ==> LegalVictims(t, e.now, cfg.maxEntries, e.victims)
  }

  /** The table after the first `k` events. */
  function TableAfter(cfg: Config, run: seq<Event>, k: nat): Table
    requires k <= |run|
  {
    if k == 0 then map[] else Step(cfg, TableAfter(cfg, run, k - 1), run[k - 1])
  }

  /** Event `k` happens no earlier than the one before, and evicts only what it may. */
  ghost predicate LegalAt(cfg: Config, run: seq<Event>, k: nat) {
    && k < |run|
    && (k > 0 ==> run[k - 1].now <= run[k].now)
    && LegalStep(cfg, TableAfter(cfg, run, k), run[k])
  }

  // ---------------------------------------------------------------- the size of the table

  /** What a forced eviction from a table within its cap removes. */
  lemma {:induction false} EvictionRemovesOne(t: Table, now: int, maxEntries: int, victims: set<string>)
    requires maxEntries >= 1 && |t| == maxEntries && LegalVictims(t, now, maxEntries, victims)
    ensures || (|victims| == 1 && victims <= t.Keys)
            || (victims == {} && ExpiredKeys(t, now) == {} && OldestLive(t, now, ""))
    ensures forall ip | ip in victims && now <= t[ip].resetAt ::
              forall other | other in t :: now <= t[other].resetAt && t[ip].resetAt <= t[other].resetAt
  {
    var expired := ExpiredKeys(t, now);
    if |expired| == 0 {
      assert expired == {};
    } else {
      assert victims <= expired;
    }
  }

  /** Nothing in the table is expired, and the empty key is, or is among, those that reset first. */
  predicate EmptyKeyInTheWay(t: Table, now: int) { ExpiredKeys(t, now) == {} && OldestLive(t, now, "") }

  /** An eviction removes entries of the table, and none at all only when the empty key is in the way. */
  lemma {:induction false} EvictionRemovesSome(t: Table, now: int, maxEntries: int, victims: set<string>)
    requires maxEntries >= 1 && |t| >= maxEntries && LegalVictims(t, now, maxEntries, victims)
    ensures victims <= t.Keys && (victims == {} ==> EmptyKeyInTheWay(t, now))
  {
  }

  /** The cap, or what a table already holds beyond it. */
  function Room(cfg: Config, t: Table): int { if |t| > cfg.maxEntries then |t| else cfg.maxEntries }

  /**
   * A request takes a table past its cap, or further past it, when its key is new,
   * the table is full, and nothing goes.
   */
  lemma {:induction false} CapAfterAllow(cfg: Config, t: Table, now: int, ip: string, victims: set<string>)
    requires cfg.maxEntries >= 1 && LegalStep(cfg, t, Request(now, ip, victims))
    ensures |Step(cfg, t, Request(now, ip, victims))| <= Room(cfg, t)
       <==> !(ip !in t && |t| >= cfg.maxEntries && victims == {})
  {
    hide LegalVictims;
    var kept := if MustEvict(cfg, t, now, ip) then t - victims else t;
    if MustEvict(cfg, t, now, ip) {
      EvictionRemovesSome(t, now, cfg.maxEntries, victims);
      assert kept.Keys == t.Keys - victims;
      assert |kept.Keys| == |t.Keys| - |victims|;
    }
    SizeWith(kept, ip, Slot(now + cfg.window, 1));
    if ip in t {
      SizeWith(t, ip, t[ip].(count := t[ip].count + 1));
      assert kept[ip := Slot(now + cfg.window, 1)].Keys <= t.Keys;
      SubsetSize(kept[ip := Slot(now + cfg.window, 1)].Keys, t.Keys);
    }
  }

  lemma {:induction false} SizeWith(t: Table, ip: string, slot: Slot)
    ensures |t[ip := slot]| == if ip in t then |t| else |t| + 1
  {
    assert t[ip := slot].Keys == t.Keys + {ip};
    if ip in t { assert t.Keys + {ip} == t.Keys; }
  }

  /**
   * Told from the table before the call: every eviction a request may make keeps
   * the cap, or the size of a table already past it, unless its key is new, the
   * table is full, nothing in it is expired, and a live entry under the empty key
   * is among those that reset first.
   */
  lemma {:induction false} AllowKeepsCapIff(cfg: Config, t: Table, now: int, ip: string)
    requires cfg.maxEntries >= 1
    ensures (forall victims | LegalStep(cfg, t, Request(now, ip, victims)) ::
               |Step(cfg, t, Request(now, ip, victims))| <= Room(cfg, t))
       <==> !(ip !in t && |t| >= cfg.maxEntries && EmptyKeyInTheWay(t, now))
  {
    hide Step;
    forall victims | LegalStep(cfg, t, Request(now, ip, victims))
      ensures |Step(cfg, t, Request(now, ip, victims))| <= Room(cfg, t)
              <==> !(ip !in t && |t| >= cfg.maxEntries && victims == {})
      ensures victims == {} && ip !in t && |t| >= cfg.maxEntries ==> EmptyKeyInTheWay(t, now)
    {
      CapAfterAllow(cfg, t, now, ip, victims);
      if ip !in t && |t| >= cfg.maxEntries { EvictionRemovesSome(t, now, cfg.maxEntries, victims); }
    }
    if ip !in t && |t| >= cfg.maxEntries && EmptyKeyInTheWay(t, now) {
      assert LegalVictims(t, now, cfg.maxEntries, {});
      assert LegalStep(cfg, t, Request(now, ip, {}));
    }
  }

  ghost predicate CappedAt(cfg: Config, run: seq<Event>, k: nat) {
    k <= |run| && |TableAfter(cfg, run, k)| <= cfg.maxEntries && "" !in TableAfter(cfg, run, k)
  }

  /** Over any run of requests under nonempty keys the table never exceeds its cap. */
  lemma {:induction false} TableNeverExceedsCap(cfg: Config, run: seq<Event>)
    requires cfg.maxEntries >= 1
    requires forall k: nat | k < |run| :: LegalAt(cfg, run, k)
    requires forall k: nat | k < |run| && run[k].Request? :: run[k].ip != ""
    ensures forall k: nat | k <= |run| :: CappedAt(cfg, run, k)
  {
    ghost var inv := (k: nat) => CappedAt(cfg, run, k);
    ghost var ok := (k: nat) => LegalAt(cfg, run, k);
    forall k: nat, j: nat | j == k + 1 <= |run| && inv(k) && ok(k) ensures inv(j) {
      CapNext(cfg, run, k);
    }
    CarryAlong(inv, ok, |run|);
    forall k: nat | k <= |run| ensures CappedAt(cfg, run, k) { assert inv(k); }
  }

  lemma {:induction false} CapNext(cfg: Config, run: seq<Event>, k: nat)
    requires cfg.maxEntries >= 1 && CappedAt(cfg, run, k) && LegalAt(cfg, run, k)
    requires run[k].Request? ==> run[k].ip != ""
    ensures CappedAt(cfg, run, k + 1)
  {
    CapStep(cfg, TableAfter(cfg, run, k), run[k]);
  }

  lemma {:induction false} CapStep(cfg: Config, t: Table, e: Event)
    requires cfg.maxEntries >= 1 && |t| <= cfg.maxEntries && "" !in t
    requires LegalStep(cfg, t, e) && (e.Request? ==> e.ip != "")
    ensures |Step(cfg, t, e)| <= cfg.maxEntries && "" !in Step(cfg, t, e)
  {
    match e
    case Request(now, ip, victims) =>
      CapAfterAllow(cfg, t, now, ip, victims);
      if ip !in t && |t| == cfg.maxEntries { EvictionRemovesOne(t, now, cfg.maxEntries, victims); }
    case Sweep(now) =>
      assert AfterCleanup(t, now).Keys == t.Keys - ExpiredKeys(t, now);
      SubsetSize(AfterCleanup(t, now).Keys, t.Keys);
  }

  /** As many different keys as one likes, the empty one first. */
  function Key(i: nat): (key: string)
    ensures |key| == i
  {
    if i == 0 then "" else "a" + Key(i - 1)
  }

  /** The first request comes under the empty key, the others an instant later under keys of their own. */
  function FloodRequest(i: nat): Event { Request(if i == 0 then 0 else 1, Key(i), {}) }

  function Flood(n: nat): (run: seq<Event>)
    ensures |run| == n && forall i | 0 <= i < n :: run[i] == FloodRequest(i)
  {
    seq(n, i requires 0 <= i < n => FloodRequest(i))
  }

  /** `k` live entries, of which that of the empty key resets first. */
  predicate Flooded(cfg: Config, t: Table, k: nat) {
    && |t| == k && (k > 0 ==> "" in t)
    && forall ip | ip in t :: |ip| < k && t[ip].resetAt == (if ip == "" then 0 else 1) + cfg.window
  }

  lemma {:induction false} FloodStep(cfg: Config, t: Table, k: nat)
    requires Flooded(cfg, t, k)
    ensures Flooded(cfg, Step(cfg, t, FloodRequest(k)), k + 1)
  {
    var key := Key(k);
    assert key !in t && t - {} == t;
    assert Step(cfg, t, FloodRequest(k)).Keys == t.Keys + {key};
  }

  lemma {:induction false} FloodFills(cfg: Config, n: nat, k: nat)
    requires k <= n
    ensures Flooded(cfg, TableAfter(cfg, Flood(n), k), k)
  {
    hide Step, Flooded, FloodRequest, Flood, Key;
    if k > 0 {
      FloodFills(cfg, n, k - 1);
      FloodStep(cfg, TableAfter(cfg, Flood(n), k - 1), k - 1);
    } else {
      NothingFlooded(cfg);
    }
  }

  lemma {:induction false} NothingFlooded(cfg: Config)
    ensures Flooded(cfg, map[], 0)
  {
  }

  /** An eviction from a flooded table at or past the cap removes nothing. */
  lemma {:induction false} FloodedGivesNothing(cfg: Config, t: Table, k: nat, victims: set<string>)
    requires cfg.window >= 1 && k >= 1 && k >= cfg.maxEntries >= 1 && Flooded(cfg, t, k)
    ensures LegalVictims(t, 1, cfg.maxEntries, victims) <==> victims == {}
  {
    assert ExpiredKeys(t, 1) == {};
    assert OldestLive(t, 1, "");
    assert forall ip | OldestLive(t, 1, ip) :: ip == "";
  }

  lemma {:induction false} FloodLegal(cfg: Config, n: nat, k: nat)
    requires cfg.maxEntries >= 1 && cfg.window >= 1 && k < n
    ensures LegalAt(cfg, Flood(n), k)
    ensures k >= cfg.maxEntries ==>
              forall victims | LegalVictims(TableAfter(cfg, Flood(n), k), 1, cfg.maxEntries, victims) :: victims == {}
  {
    var t := TableAfter(cfg, Flood(n), k);
    FloodFills(cfg, n, k);
    hide LegalVictims;
    if k >= cfg.maxEntries {
      forall victims ensures LegalVictims(t, 1, cfg.maxEntries, victims) <==> victims == {} {
        FloodedGivesNothing(cfg, t, k, victims);
      }
    }
  }

  /**
   * Once the empty key is in, no cap holds: its entry resets first and is never
   * evicted alive, so each new key adds an entry to a full table, without any
   * bound, and no choice of victims prevents it.
   */
  lemma {:induction false} EmptyKeyOverflows(cfg: Config, n: nat)
    requires cfg.maxEntries >= 1 && cfg.window >= 1
    ensures var run := Flood(n);
            && (forall k: nat | k < n :: LegalAt(cfg, run, k))
            && |TableAfter(cfg, run, n)| == n
            && forall k: nat, victims | cfg.maxEntries <= k < n
                                        && LegalVictims(TableAfter(cfg, run, k), run[k].now, cfg.maxEntries, victims) ::
                 victims == {}
  {
    hide LegalVictims, LegalAt;
    forall k: nat | k < n ensures LegalAt(cfg, Flood(n), k) { FloodLegal(cfg, n, k); }
    forall k: nat, victims | cfg.maxEntries <= k < n
                             && LegalVictims(TableAfter(cfg, Flood(n), k), Flood(n)[k].now, cfg.maxEntries, victims)
      ensures victims == {}
    {
      FloodLegal(cfg, n, k);
    }
    FloodFills(cfg, n, n);
  }
}

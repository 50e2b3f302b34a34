/** The retention policy: which rotated audit files are removed, and which stay. */
module AuditRetention {
  import opened ByteLines
  import opened Collections
  import AuditLogger

  datatype File = File(isDir: bool, modTime: int, content: Bytes)

  type Dir = map<string, File>

  function RotatedPrefix(agent: string): string { "audit-" + agent + ".log" + ".rotated." }

  predicate IsRotated(d: Dir, agent: string, name: string) {
    name in d && !d[name].isDir && RotatedPrefix(agent) <= name
  }

  /** The files rotation makes for an agent are found, and none of those of another agent, if no name holds a dot. */
  lemma {:induction false} OwnFilesOnly(d: Dir, agent: string, other: string, stamp: string)
    requires '.' !in agent && '.' !in other
    ensures var name := "audit-" + other + ".log.rotated." + stamp;
            name in d && !d[name].isDir ==> (IsRotated(d, agent, name) <==> agent == other)
    ensures !IsRotated(d, agent, "audit-" + other + ".log")
  {
    var mine, live := RotatedPrefix(agent), "audit-" + other + ".log";
    var theirs := live + ".rotated." + stamp;
    assert theirs == "audit-" + other + ".log.rotated." + stamp;
    FirstDot(agent, ".log.rotated.");
    FirstDot(other, ".log.rotated." + stamp);
    FirstDot(other, ".log");
    assert mine == "audit-" + agent + ".log.rotated.";
    if mine <= theirs { SameName(agent, other, mine, theirs); }
    if mine <= live { SameName(agent, other, mine, live); }
  }

  /** With dots it is otherwise: the live log of an agent so named counts as a rotated file of the other. */
  lemma {:induction false} DottedNameCaught(agent: string, rest: string)
    ensures RotatedPrefix(agent) <= "audit-" + (agent + ".log.rotated." + rest) + ".log"
  {
    assert "audit-" + (agent + ".log.rotated." + rest) + ".log" == RotatedPrefix(agent) + (rest + ".log");
  }

  lemma {:induction false} SameName(agent: string, other: string, mine: string, theirs: string)
    requires mine <= theirs && |mine| > 6 + |agent| && |theirs| > 6 + |other|
    requires mine[6 + |agent|] == '.' && (forall i | 0 <= i < 6 + |agent| :: mine[i] != '.')
    requires theirs[6 + |other|] == '.' && (forall i | 0 <= i < 6 + |other| :: theirs[i] != '.')
    requires mine[6..6 + |agent|] == agent && theirs[6..6 + |other|] == other
    ensures agent == other
  {
    assert theirs[6 + |agent|] == mine[6 + |agent|];
    assert |other| <= |agent|;
    assert theirs[6 + |other|] == mine[6 + |other|];
    assert mine[6..6 + |agent|] == theirs[6..6 + |other|];
  }

  lemma {:induction false} FirstDot(agent: string, rest: string)
    requires '.' !in agent && rest != "" && rest[0] == '.'
    ensures var name := "audit-" + agent + rest;
            name[6 + |agent|] == '.' && (forall i | 0 <= i < 6 + |agent| :: name[i] != '.')
                && name[6..6 + |agent|] == agent
  {
  }

  /** What `sort.Slice` by modification time gives for the rotated files: each once, oldest first. */
  ghost predicate OldestFirst(d: Dir, agent: string, order: seq<string>) {
    && (forall i | 0 <= i < |order| :: IsRotated(d, agent, order[i]))
    && (forall name | IsRotated(d, agent, name) :: name in order)
    && (forall i, j | 0 <= i < j < |order| :: order[i] != order[j] && d[order[i]].modTime <= d[order[j]].modTime)
  }

  /** How many files a limit allows; a negative one none. */
  function Allowance(maxBackups: int): nat { if maxBackups < 0 then 0 else maxBackups }

  /** How many files are over the limit. */
  function Excess(order: seq<string>, maxBackups: int): (n: nat)
    ensures n <= |order|
  {
    if |order| > Allowance(maxBackups) then |order| - Allowance(maxBackups) else 0
  }

  predicate TooOld(f: File, maxAgeDays: int, now: int) { now - f.modTime >= maxAgeDays * AuditLogger.NANOS_PER_DAY }

  /** Which of the first `n` listed files go: the oldest over the limit, and those too old. */
  function Gone(d: Dir, order: seq<string>, cut: nat, maxAgeDays: int, now: int, n: nat): set<string>
    requires n <= |order| && forall i | 0 <= i < |order| :: order[i] in d
  {
    if n == 0 then {}
    else Gone(d, order, cut, maxAgeDays, now, n - 1)
         + (if n - 1 < cut || TooOld(d[order[n - 1]], maxAgeDays, now) then {order[n - 1]} else {})
  }

  /** The directory after the policy is enforced; files that cannot be removed stay. */
  function Retained(d: Dir, order: seq<string>, maxBackups: int, maxAgeDays: int, now: int, stuck: set<string>): Dir
    requires forall i | 0 <= i < |order| :: order[i] in d
  {
    d - (Gone(d, order, Excess(order, maxBackups), maxAgeDays, now, |order|) - stuck)
  }

  lemma {:induction false} AllListed(d: Dir, agent: string, order: seq<string>)
    requires OldestFirst(d, agent, order)
    ensures forall i | 0 <= i < |order| :: order[i] in d
  {
  }

  lemma {:induction false} NoneGone(d: Dir, order: seq<string>, cut: nat, maxAgeDays: int, now: int, stuck: set<string>)
    requires forall i | 0 <= i < |order| :: order[i] in d
    ensures d - (Gone(d, order, cut, maxAgeDays, now, 0) - stuck) == d
  {
  }

  lemma {:induction false} OneMoreGone(d: Dir, order: seq<string>, cut: nat, maxAgeDays: int, now: int,
          stuck: set<string>, i: nat)
    requires (forall i | 0 <= i < |order| :: order[i] in d) && i < |order|
    ensures var before := d - (Gone(d, order, cut, maxAgeDays, now, i) - stuck);
            d - (Gone(d, order, cut, maxAgeDays, now, i + 1) - stuck)
            == if (i < cut || TooOld(d[order[i]], maxAgeDays, now)) && order[i] !in stuck then before - {order[i]}
                else before
  {
  }

  class AuditDir {
    var files: Dir

    constructor (files: Dir)
      ensures this.files == files
    {
      this.files := files;
    }

    /** `os.Remove`, which fails on the files that are stuck. */
    method Remove(name: string, stuck: set<string>)
      modifies this
      ensures files == if name in stuck then old(files) else old(files) - {name}
    {
      if name !in stuck { files := files - {name}; }
    }

    /**
     * `EnforceRetention`; `order` is the sorted listing of the rotated files. Under
     * a negative limit it removes them all and then runs off the end of the list.
     */
    method EnforceRetention(agent: string, maxBackups: int, maxAgeDays: int, now: int, order: seq<string>,
            stuck: set<string>)
      returns (panics: bool)
      requires OldestFirst(files, agent, order)
      modifies this
      ensures files == Retained(old(files), order, maxBackups, maxAgeDays, now, stuck)
      ensures panics <==> maxBackups < 0 && order != []
    {
      hide OldestFirst, Gone, TooOld;
      AllListed(files, agent, order);
      var rotatedFiles := order;
      var infos := files;
      ghost var cut := Excess(order, maxBackups);
      NoneGone(infos, order, cut, maxAgeDays, now, stuck);
      if |rotatedFiles| == 0 { return false; }
      var backupsToDelete := |rotatedFiles| - maxBackups;
      if backupsToDelete > 0 {
        for i := 0 to backupsToDelete
          invariant i <= |rotatedFiles|
          invariant files == infos - (Gone(infos, order, cut, maxAgeDays, now, i) - stuck)
        {
          if i == |rotatedFiles| { return true; }
          OneMoreGone(infos, order, cut, maxAgeDays, now, stuck, i);
          Remove(rotatedFiles[i], stuck);
        }
        rotatedFiles := rotatedFiles[backupsToDelete..];
      }
      assert rotatedFiles == order[cut..];
      for i := 0 to |rotatedFiles|
        invariant files == infos - (Gone(infos, order, cut, maxAgeDays, now, cut + i) - stuck)
      {
        var name := rotatedFiles[i];
        assert name == order[cut + i];
        OneMoreGone(infos, order, cut, maxAgeDays, now, stuck, cut + i);
        if TooOld(infos[name], maxAgeDays, now) { Remove(name, stuck); }
      }
      return false;
    }
  }

  lemma {:induction false} GoneIff(d: Dir, order: seq<string>, cut: nat, maxAgeDays: int, now: int, n: nat,
          name: string)
    requires n <= |order| && forall i | 0 <= i < |order| :: order[i] in d
    ensures name in Gone(d, order, cut, maxAgeDays, now, n)
       <==> exists i :: 0 <= i < n && order[i] == name && (i < cut || TooOld(d[name], maxAgeDays, now))
  {
    if n > 0 { GoneIff(d, order, cut, maxAgeDays, now, n - 1, name); }
  }

  function Names(s: seq<string>): set<string> { set i | 0 <= i < |s| :: s[i] }

  lemma {:induction false} ListedAt(s: seq<string>, name: string)
    ensures name in Names(s) <==> exists i :: 0 <= i < |s| && s[i] == name
  {
  }

  lemma {:induction false} NamesAtMost(s: seq<string>)
    ensures |Names(s)| <= |s|
    ensures (forall i, j | 0 <= i < j < |s| :: s[i] != s[j]) ==> |Names(s)| == |s|
  {
    if s == [] {
      assert Names(s) == {};
    } else {
      var front, last := s[..|s| - 1], s[|s| - 1];
      NamesAtMost(front);
      assert Names(s) == Names(front) + {last} by {
        forall x | x in Names(s) ensures x in Names(front) + {last} {
          var i :| 0 <= i < |s| && s[i] == x;
          if i < |front| { assert front[i] == x; }
        }
        forall x | x in Names(front) ensures x in Names(s) {
          var i :| 0 <= i < |front| && front[i] == x;
          assert s[i] == x;
        }
        assert s[|s| - 1] in Names(s);
      }
      if forall i, j | 0 <= i < j < |s| :: s[i] != s[j] {
        forall i | 0 <= i < |front| ensures front[i] != last { assert s[i] != s[|s| - 1]; }
        assert last !in Names(front);
      }
    }
  }

  function Survivors(d: Dir, agent: string): set<string> { set name | name in d && IsRotated(d, agent, name) }

  /**
   * Afterwards at most `maxBackups` rotated files are left, none of them too old,
   * apart from files that could not be removed, and nothing else was touched.
   */
  lemma {:induction false} RetentionHolds(d: Dir, agent: string, order: seq<string>, maxBackups: int, maxAgeDays: int,
          now: int, stuck: set<string>)
    requires OldestFirst(d, agent, order)
    ensures var d' := Retained(d, order, maxBackups, maxAgeDays, now, stuck);
            && |Survivors(d', agent) - stuck| <= (if maxBackups < 0 then 0 else maxBackups)
            && (forall name | name in Survivors(d', agent) - stuck ::
                now - d'[name].modTime < maxAgeDays * 86_400_000_000_000)
            && (forall name | name in d && !IsRotated(d, agent, name) :: name in d' && d'[name] == d[name])
  {
    hide Gone;
    var d', cut := Retained(d, order, maxBackups, maxAgeDays, now, stuck), Excess(order, maxBackups);
    forall name | name in Survivors(d', agent) - stuck
      ensures name in Names(order[cut..]) && !TooOld(d[name], maxAgeDays, now)
    {
      assert IsRotated(d, agent, name);
      var i: nat :| i < |order| && order[i] == name;
      GoneIff(d, order, cut, maxAgeDays, now, |order|, name);
      assert i >= cut;
      assert order[cut..][i - cut] == name;
    }
    forall name | name in d && !IsRotated(d, agent, name) ensures name in d' {
      GoneIff(d, order, cut, maxAgeDays, now, |order|, name);
    }
    NamesAtMost(order[cut..]);
    SubsetSize(Survivors(d', agent) - stuck, Names(order[cut..]));
  }

  /** A file that is not too old is removed only when `maxBackups` other rotated files are at least as new. */
  lemma {:induction false} YoungRemovedOnlyForNewer(d: Dir, agent: string, order: seq<string>, maxBackups: int,
          maxAgeDays: int, now: int, stuck: set<string>, name: string)
    requires OldestFirst(d, agent, order) && name in d && now - d[name].modTime < maxAgeDays * 86_400_000_000_000
    requires name !in Retained(d, order, maxBackups, maxAgeDays, now, stuck)
    ensures exists newer: set<string> :: |newer| == (if maxBackups < 0 then 0 else maxBackups) && name !in newer
              && forall other | other in newer :: IsRotated(d, agent, other) && d[name].modTime <= d[other].modTime
  {
    hide Gone;
    var cut := Excess(order, maxBackups);
    GoneIff(d, order, cut, maxAgeDays, now, |order|, name);
    var i :| 0 <= i < cut && order[i] == name;
    var newer := Names(order[cut..]);
    forall j, k | 0 <= j < k < |order[cut..]|
      ensures order[cut..][j] != order[cut..][k]
    {
      assert order[cut + j] != order[cut + k];
    }
    NamesAtMost(order[cut..]);
    forall other | other in newer
      ensures other != name && IsRotated(d, agent, other) && d[name].modTime <= d[other].modTime
    {
      hide Names, TooOld;
      var j :| 0 <= j < |order[cut..]| && order[cut..][j] == other by {
        assert other in Names(order[cut..]);
        ListedAt(order[cut..], other);
      }
      assert order[cut + j] == other && order[i] == name;
    }
  }

  // ---------------------------------------------------------------- enforcing again

  /** The rotated files that are strictly older than `name`. */
  function Older(d: Dir, agent: string, name: string): set<string>
    requires name in d
  {
    set other | other in Survivors(d, agent) && d[other].modTime < d[name].modTime
  }

  /** Every rotated file that can be removed has as many strictly older ones before it as there are over the limit. */
  predicate OldOnesStuck(d: Dir, agent: string, maxBackups: int, stuck: set<string>) {
    forall name | name in Survivors(d, agent) && name !in stuck ::
      |Older(d, agent, name)| >= |Survivors(d, agent)| - Allowance(maxBackups)
  }

  /** A listing of the files `names`, oldest first. */
  ghost predicate Lists(d: Dir, names: set<string>, order: seq<string>) {
    && Names(order) == names <= d.Keys
    && (forall i, j | 0 <= i < j < |order| :: order[i] != order[j] && d[order[i]].modTime <= d[order[j]].modTime)
  }

  lemma {:induction false} ListsSurvivors(d: Dir, agent: string, order: seq<string>)
    ensures OldestFirst(d, agent, order) <==> Lists(d, Survivors(d, agent), order)
  {
    if Lists(d, Survivors(d, agent), order) {
      forall i | 0 <= i < |order| ensures IsRotated(d, agent, order[i]) { assert order[i] in Names(order); }
      forall name | IsRotated(d, agent, name) ensures name in order {
        assert name in Names(order);
        ListedAt(order, name);
      }
    }
    if OldestFirst(d, agent, order) {
      forall name ensures name in Names(order) <==> name in Survivors(d, agent) { ListedAt(order, name); }
      forall name | name in Names(order) ensures name in d { assert name in Survivors(d, agent); }
    }
  }

  lemma {:induction false} OldestOf(d: Dir, names: set<string>) returns (oldest: string)
    requires names != {} && names <= d.Keys
    ensures oldest in names && forall name | name in names :: d[oldest].modTime <= d[name].modTime
    decreases names
  {
    var some :| some in names;
    var rest := names - {some};
    oldest := some;
    if rest != {} {
      var other := OldestOf(d, rest);
      if d[other].modTime < d[some].modTime { oldest := other; }
    }
    assert forall name | name in names :: name == some || name in rest;
  }

  lemma {:induction false} NamesOfCons(first: string, rest: seq<string>)
    ensures Names([first] + rest) == {first} + Names(rest)
  {
    var s := [first] + rest;
    forall name | name in {first} + Names(rest) ensures name in Names(s) {
      if name == first { assert s[0] == name; }
      if i :| 0 <= i < |rest| && rest[i] == name { assert s[i + 1] == name; }
    }
  }

  /** Every set of files can be listed, oldest first. */
  lemma {:induction false} SomeListing(d: Dir, names: set<string>) returns (order: seq<string>)
    requires names <= d.Keys
    ensures Lists(d, names, order)
    decreases names
  {
    if names == {} {
      order := [];
    } else {
      var oldest := OldestOf(d, names);
      var rest := SomeListing(d, names - {oldest});
      order := ListedFirst(d, oldest, names - {oldest}, rest);
      assert {oldest} + (names - {oldest}) == names;
    }
  }

  lemma {:induction false} ListedFirst(d: Dir, first: string, names: set<string>, rest: seq<string>)
    returns (order: seq<string>)
    requires Lists(d, names, rest) && first in d && first !in names
    requires forall name | name in names :: d[first].modTime <= d[name].modTime
    ensures Lists(d, {first} + names, order)
  {
    order := [first] + rest;
    NamesOfCons(first, rest);
    forall i | 0 <= i < |rest| ensures rest[i] in names { ListedAt(rest, rest[i]); }
  }

  /** The same files, on a finer clock that puts `first` a moment ahead of those as old as it. */
  function Ahead(d: Dir, first: string): Dir {
    map name | name in d :: d[name].(modTime := 2 * d[name].modTime - (if name == first then 1 else 0))
  }

  /** A listing by the finer clock is one by the real clock, and only older files come before the one put ahead. */
  lemma {:induction false} ListedByFinerClock(d: Dir, first: string, names: set<string>, order: seq<string>, i: nat)
    requires Lists(Ahead(d, first), names, order) && i < |order| && order[i] == first
    ensures Lists(d, names, order)
    ensures forall j | 0 <= j < i :: d[order[j]].modTime < d[first].modTime
  {
    forall j | 0 <= j < |order| ensures order[j] in d { ListedAt(order, order[j]); }
  }

  /** A listing may put any file right behind those strictly older. */
  lemma {:induction false} ListedBehindOlder(d: Dir, agent: string, name: string) returns (order: seq<string>, i: nat)
    requires name in Survivors(d, agent)
    ensures OldestFirst(d, agent, order) && i < |order| && order[i] == name && i <= |Older(d, agent, name)|
  {
    hide OldestFirst, IsRotated, Ahead;
    var names := Survivors(d, agent);
    AheadKeys(d, name);
    order := SomeListing(Ahead(d, name), names);
    ListedAt(order, name);
    i :| i < |order| && order[i] == name;
    ListedByFinerClock(d, name, names, order, i);
    ListsSurvivors(d, agent, order);
    forall other | other in Names(order[..i]) ensures other in Older(d, agent, name) {
      ListedAt(order[..i], other);
      ListedAt(order, other);
    }
    NamesAtMost(order[..i]);
    SubsetSize(Names(order[..i]), Older(d, agent, name));
  }

  lemma {:induction false} AheadKeys(d: Dir, first: string)
    ensures Ahead(d, first).Keys == d.Keys
  {
  }

  lemma {:induction false} ListingSize(d: Dir, agent: string, order: seq<string>)
    requires OldestFirst(d, agent, order)
    ensures |order| == |Survivors(d, agent)|
  {
    ListsSurvivors(d, agent, order);
    NamesAtMost(order);
  }

  /** A file has its strictly older ones ahead of it in every listing. */
  lemma {:induction false} OlderListedBefore(d: Dir, agent: string, order: seq<string>, i: nat)
    requires OldestFirst(d, agent, order) && i < |order|
    ensures order[i] in Survivors(d, agent) && |Older(d, agent, order[i])| <= i
  {
    forall other | other in Older(d, agent, order[i]) ensures other in Names(order[..i]) {
      assert IsRotated(d, agent, other);
      var j :| 0 <= j < |order| && order[j] == other;
      assert order[..i][j] == other;
    }
    NamesAtMost(order[..i]);
    SubsetSize(Older(d, agent, order[i]), Names(order[..i]));
  }

  predicate AnyTooOld(d: Dir, agent: string, maxAgeDays: int, now: int, stuck: set<string>) {
    exists name :: name in Survivors(d, agent) && name !in stuck && TooOld(d[name], maxAgeDays, now)
  }

  /**
   * Of any directory: enforcing the policy removes nothing, however equal times are
   * listed, exactly under these conditions.
   */
  lemma {:induction false} NothingGoesIff(d: Dir, agent: string, maxBackups: int, maxAgeDays: int, now: int,
          stuck: set<string>)
    ensures (forall order | OldestFirst(d, agent, order) ::
               Retained(d, order, maxBackups, maxAgeDays, now, stuck) == d)
       <==> OldOnesStuck(d, agent, maxBackups, stuck) && !AnyTooOld(d, agent, maxAgeDays, now, stuck)
  {
    hide Gone, TooOld, OldestFirst, Older;
    if OldOnesStuck(d, agent, maxBackups, stuck) && !AnyTooOld(d, agent, maxAgeDays, now, stuck) {
      forall order | OldestFirst(d, agent, order)
        ensures (forall i | 0 <= i < |order| :: order[i] in d)
                && Retained(d, order, maxBackups, maxAgeDays, now, stuck) == d
      {
        AllListed(d, agent, order);
        NothingGoes(d, agent, order, maxBackups, maxAgeDays, now, stuck);
      }
    } else {
      var name :| name in Survivors(d, agent) && name !in stuck
                  && (TooOld(d[name], maxAgeDays, now)
                      || |Older(d, agent, name)| < |Survivors(d, agent)| - Allowance(maxBackups));
      var order, i := ListedBehindOlder(d, agent, name);
      ListingSize(d, agent, order);
      AllListed(d, agent, order);
      GoneIff(d, order, Excess(order, maxBackups), maxAgeDays, now, |order|, name);
      assert name !in Retained(d, order, maxBackups, maxAgeDays, now, stuck);
    }
  }

  lemma {:induction false} NothingGoes(d: Dir, agent: string, order: seq<string>, maxBackups: int, maxAgeDays: int,
          now: int, stuck: set<string>)
    requires OldestFirst(d, agent, order)
    requires OldOnesStuck(d, agent, maxBackups, stuck) && !AnyTooOld(d, agent, maxAgeDays, now, stuck)
    ensures Retained(d, order, maxBackups, maxAgeDays, now, stuck) == d
  {
    hide Gone, TooOld, OldestFirst, Older;
    AllListed(d, agent, order);
    ListingSize(d, agent, order);
    var cut := Excess(order, maxBackups);
    forall name | name in Gone(d, order, cut, maxAgeDays, now, |order|) ensures name in stuck {
      GoneIff(d, order, cut, maxAgeDays, now, |order|, name);
      var i :| 0 <= i < |order| && order[i] == name && (i < cut || TooOld(d[name], maxAgeDays, now));
      OlderListedBefore(d, agent, order, i);
    }
    assert Gone(d, order, cut, maxAgeDays, now, |order|) - stuck == {};
  }

  /**
   * Enforcing again at once removes nothing, in whatever order equal times are
   * listed, if and only if every file left that can be removed has as many
   * strictly older ones ahead of it as there are over the limit.
   */
  lemma {:induction false} RetentionSettlesIff(d: Dir, agent: string, order: seq<string>, maxBackups: int,
          maxAgeDays: int, now: int, stuck: set<string>)
    requires OldestFirst(d, agent, order)
    ensures var d' := Retained(d, order, maxBackups, maxAgeDays, now, stuck);
            (forall again | OldestFirst(d', agent, again) ::
               Retained(d', again, maxBackups, maxAgeDays, now, stuck) == d')
            <==> OldOnesStuck(d', agent, maxBackups, stuck)
  {
    AllListed(d, agent, order);
    hide Gone, OldestFirst, Older;
    var d' := Retained(d, order, maxBackups, maxAgeDays, now, stuck);
    RetentionHolds(d, agent, order, maxBackups, maxAgeDays, now, stuck);
    NothingGoesIff(d', agent, maxBackups, maxAgeDays, now, stuck);
  }

  /** No rotated file that can be removed is exactly as old as one that cannot. */
  predicate StuckStandApart(d: Dir, agent: string, stuck: set<string>) {
    forall x, y | x in Survivors(d, agent) && y in Survivors(d, agent) && x !in stuck && y in stuck ::
      d[x].modTime != d[y].modTime
  }

  /** So it settles at once when every removal succeeds, and otherwise when times are distinct. */
  lemma {:induction false} RetentionSettles(d: Dir, agent: string, order: seq<string>, again: seq<string>,
          maxBackups: int, maxAgeDays: int, now: int, stuck: set<string>)
    requires OldestFirst(d, agent, order) && StuckStandApart(d, agent, stuck)
    requires OldestFirst(Retained(d, order, maxBackups, maxAgeDays, now, stuck), agent, again)
    ensures var d' := Retained(d, order, maxBackups, maxAgeDays, now, stuck);
            Retained(d', again, maxBackups, maxAgeDays, now, stuck) == d'
  {
    AllListed(d, agent, order);
    hide Gone, TooOld, OldestFirst;
    var d' := Retained(d, order, maxBackups, maxAgeDays, now, stuck);
    forall x | x in Survivors(d', agent) && x !in stuck
      ensures |Older(d', agent, x)| >= |Survivors(d', agent)| - Allowance(maxBackups)
    {
      KeptAmongNewest(d, agent, order, maxBackups, maxAgeDays, now, stuck, x);
    }
    RetentionSettlesIff(d, agent, order, maxBackups, maxAgeDays, now, stuck);
  }

  /** A removable file that stays, and all files left that are not older, are among the last ones listed. */
  lemma {:induction false} KeptAmongNewest(d: Dir, agent: string, order: seq<string>, maxBackups: int, maxAgeDays: int,
          now: int, stuck: set<string>, x: string)
    requires OldestFirst(d, agent, order) && StuckStandApart(d, agent, stuck) && x !in stuck
    requires x in Survivors(Retained(d, order, maxBackups, maxAgeDays, now, stuck), agent)
    ensures var d' := Retained(d, order, maxBackups, maxAgeDays, now, stuck);
            |Older(d', agent, x)| >= |Survivors(d', agent)| - Allowance(maxBackups)
  {
    hide Gone, TooOld;
    var d', cut := Retained(d, order, maxBackups, maxAgeDays, now, stuck), Excess(order, maxBackups);
    var notOlder := Survivors(d', agent) - Older(d', agent, x);
    forall y | y in notOlder ensures y in Names(order[cut..]) {
      KeptIsListedLate(d, agent, order, maxBackups, maxAgeDays, now, stuck, x, y);
    }
    NamesAtMost(order[cut..]);
    SubsetSize(notOlder, Names(order[cut..]));
  }

  lemma {:induction false} KeptIsListedLate(d: Dir, agent: string, order: seq<string>, maxBackups: int, maxAgeDays: int,
          now: int, stuck: set<string>, x: string, y: string)
    requires OldestFirst(d, agent, order) && StuckStandApart(d, agent, stuck) && x !in stuck
    requires var d' := Retained(d, order, maxBackups, maxAgeDays, now, stuck);
             x in Survivors(d', agent) && y in Survivors(d', agent) && d[x].modTime <= d[y].modTime
    ensures y in Names(order[Excess(order, maxBackups)..])
  {
    hide Gone, TooOld;
    var cut := Excess(order, maxBackups);
    assert IsRotated(d, agent, x) && IsRotated(d, agent, y);
    assert x in Survivors(d, agent) && y in Survivors(d, agent);
    var i: nat :| i < |order| && order[i] == x;
    var j: nat :| j < |order| && order[j] == y;
    GoneIff(d, order, cut, maxAgeDays, now, |order|, x);
    GoneIff(d, order, cut, maxAgeDays, now, |order|, y);
    assert i >= cut;
    assert j >= cut;
    assert order[cut..][j - cut] == y;
  }

  /** Of three rotated files of one age, with room for one, the oldest listed cannot be removed. */
  lemma {:induction false} TiedFileGoesLater(agent: string, f: File, maxAgeDays: int, now: int)
    requires !f.isDir && !TooOld(f, maxAgeDays, now)
    ensures var a, b, c := RotatedPrefix(agent) + "1", RotatedPrefix(agent) + "2", RotatedPrefix(agent) + "3";
            && OldestFirst(map[a := f, b := f, c := f], agent, [a, b, c])
            && Retained(map[a := f, b := f, c := f], [a, b, c], 1, maxAgeDays, now, {a}) == map[a := f, c := f]
            && OldestFirst(map[a := f, c := f], agent, [c, a])
            && Retained(map[a := f, c := f], [c, a], 1, maxAgeDays, now, {a}) == map[a := f]
  {
    var p := RotatedPrefix(agent);
    var a, b, c := p + "1", p + "2", p + "3";
    assert a[|p|] == '1' && b[|p|] == '2' && c[|p|] == '3';
    assert p <= a && p <= b && p <= c;
    var d, d' := map[a := f, b := f, c := f], map[a := f, c := f];
    assert OldestFirst(d, agent, [a, b, c]) by { assert [a, b, c][0] == a && [a, b, c][1] == b && [a, b, c][2] == c; }
    assert OldestFirst(d', agent, [c, a]) by { assert [c, a][0] == c && [c, a][1] == a; }
    OneMoreGone(d, [a, b, c], 2, maxAgeDays, now, {a}, 0);
    OneMoreGone(d, [a, b, c], 2, maxAgeDays, now, {a}, 1);
    OneMoreGone(d, [a, b, c], 2, maxAgeDays, now, {a}, 2);
    NoneGone(d, [a, b, c], 2, maxAgeDays, now, {a});
    OneMoreGone(d', [c, a], 1, maxAgeDays, now, {a}, 0);
    OneMoreGone(d', [c, a], 1, maxAgeDays, now, {a}, 1);
    NoneGone(d', [c, a], 1, maxAgeDays, now, {a});
  }
}

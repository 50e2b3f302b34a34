/**
 * Leases of dynamic secrets: when one is alive, what the list of active leases
 * holds, and what cleanup and lookup show, over any run.
 */
module Leases {
  import opened Wrappers

  datatype Secret = Secret(leaseId: string, leaseDuration: int, renewable: bool, engineType: string, data: int)

  datatype Error = Cancelled | EngineNotFound | GenerateFailed | LeaseNotFound | RevokeFailed | NotRenewable

  /** A lease as it stands. */
  datatype Record = Record(secret: Secret, expiresAt: int, revoked: bool)

  type Table = map<string, Record>

  /** The engines registered at a call, each with whether revoking succeeds. */
  type Engines = map<string, bool>

  datatype Event =
    | Create(secret: Secret, at: int)
    | Revoke(id: string, engines: Engines, at: int)
    | Renewal(id: string, increment: int, at: int)
    | Tick(at: int)

  // ---------------------------------------------------------------- one step

  function Created(t: Table, secret: Secret, at: int): Table {
    t[secret.leaseId := Record(secret, at + secret.leaseDuration, false)]
  }

  /** The engine that issued a secret is there and revokes it. */
  predicate Revokes(engines: Engines, engineType: string) { engineType in engines && engines[engineType] }

  function Revoked(t: Table, id: string, engines: Engines): Table {
    if id in t && Revokes(engines, t[id].secret.engineType) then t[id := t[id].(revoked := true)] else t
  }

  predicate Dead(r: Record, now: int) { now > r.expiresAt || r.revoked }

  function Cleaned(t: Table, now: int): Table { map id | id in t && !Dead(t[id], now) :: t[id] }

  function Next(t: Table, e: Event): Table {
    match e
    case Create(secret, at) => Created(t, secret, at)
    case Revoke(id, engines, _) => Revoked(t, id, engines)
    case Renewal(_, _, _) => t
    case Tick(at) => Cleaned(t, at)
  }

  predicate Alive(t: Table, id: string, now: int) { id in t && !Dead(t[id], now) }

  function Active(t: Table, now: int): set<string> { set id | id in t && Alive(t, id, now) }

  /** What `Lookup` finds. */
  function Found(t: Table, id: string): Option<Secret> {
    if id in t && !t[id].revoked then Some(t[id].secret) else None
  }

  /** What `Renew` answers: a secret with the new duration; expiry and revocation are not looked at. */
  function Renewed(t: Table, id: string, increment: int): Result<Secret, Error> {
    if id !in t then Failure(LeaseNotFound)
    else if !t[id].secret.renewable then Failure(NotRenewable)
    else Success(t[id].secret.(leaseDuration := increment))
  }

  // ---------------------------------------------------------------- the manager

  class Lease {
    const id: string
    const secret: Secret
    const expiresAt: int
    var revoked: bool

    constructor (secret: Secret, expiresAt: int)
      ensures this.id == secret.leaseId && this.secret == secret && this.expiresAt == expiresAt && !revoked
    {
      this.id, this.secret, this.expiresAt := secret.leaseId, secret, expiresAt;
      revoked := false;
    }

    function Snapshot(): Record
      reads this
    {
      Record(secret, expiresAt, revoked)
    }
  }

  class LeaseManager {
    var leases: map<string, Lease>

    /** Every lease is filed under its own id. */
    ghost predicate Valid()
      reads this, leases.Values
    {
      forall id | id in leases :: leases[id].id == id
    }

    ghost function Abstract(): Table
      reads this, leases.Values
    {
      map id | id in leases :: leases[id].Snapshot()
    }

    constructor ()
      ensures Valid() && Abstract() == map[] && leases == map[]
    {
      leases := map[];
    }

    method CreateLease(secret: Secret, now: int) returns (lease: Lease)
      requires Valid()
      modifies this
      ensures Valid() && fresh(lease) && leases == old(leases)[secret.leaseId := lease]
      ensures Abstract() == Created(old(Abstract()), secret, now) && lease.Snapshot() == Abstract()[secret.leaseId]
    {
      lease := new Lease(secret, now + secret.leaseDuration);
      leases := leases[lease.id := lease];
    }

    method RevokeLease(leaseId: string) returns (ok: bool)
      requires Valid()
      modifies leases.Values
      ensures Valid() && ok == (leaseId in old(Abstract()))
      ensures Abstract() == if ok then old(Abstract())[leaseId := old(Abstract())[leaseId].(revoked := true)]
              else old(Abstract())
    {
      if leaseId !in leases { return false; }
      var lease := leases[leaseId];
      lease.revoked := true;
      assert forall id | id in leases && id != leaseId :: leases[id] != lease;
      return true;
    }

    method Get(leaseId: string) returns (lease: Option<Lease>)
      ensures lease == if leaseId in leases then Some(leases[leaseId]) else None
    {
      return if leaseId in leases then Some(leases[leaseId]) else None;
    }

    method IsAlive(leaseId: string, now: int) returns (r: bool)
      ensures r <==> Alive(Abstract(), leaseId, now)
    {
      if leaseId !in leases { return false; }
      var lease := leases[leaseId];
      if lease.revoked { return false; }
      return !(now > lease.expiresAt);
    }

    /** `ListActive`: each active lease once, in any order. */
    method ListActive(now: int) returns (active: seq<Lease>)
      requires Valid()
      ensures forall i, j | 0 <= i < j < |active| :: active[i] != active[j]
      ensures (set i | 0 <= i < |active| :: active[i].id) == Active(Abstract(), now)
      ensures forall i | 0 <= i < |active| :: active[i].id in leases && leases[active[i].id] == active[i]
    {
      active := [];
      var rest := leases.Keys;
      while rest != {}
        invariant rest <= leases.Keys
        invariant forall i | 0 <= i < |active| ::
                    active[i].id in leases && leases[active[i].id] == active[i] && active[i].id !in rest
        invariant forall i, j | 0 <= i < j < |active| :: active[i] != active[j]
        invariant (set i | 0 <= i < |active| :: active[i].id) == Active(Abstract(), now) - rest
        decreases rest
      {
        var id :| id in rest;
        var lease := leases[id];
        ghost var before := active;
        if !lease.revoked && !(now > lease.expiresAt) {
          active := active + [lease];
          assert (set i | 0 <= i < |active| :: active[i].id) == (set i | 0 <= i < |before| :: before[i].id) + {id} by {
            assert active[|before|].id == id;
            assert forall i | 0 <= i < |before| :: active[i] == before[i];
          }
        }
        rest := rest - {id};
      }
    }

    /** One tick of the cleanup goroutine; the leases may come in any order. */
    method CleanupTick(now: int)
      requires Valid()
      modifies this
      ensures Valid() && Abstract() == Cleaned(old(Abstract()), now)
    {
      var all := leases;
      var rest := leases.Keys;
      while rest != {}
        invariant rest <= all.Keys && leases.Keys <= all.Keys
        invariant forall id | id in leases :: leases[id] == all[id]
        invariant forall id | id in all :: id in leases <==> id in rest || !Dead(all[id].Snapshot(), now)
        decreases rest
      {
        var id :| id in rest;
        var lease := leases[id];
        if now > lease.expiresAt || lease.revoked { leases := leases - {id}; }
        rest := rest - {id};
      }
    }

    // ---------------------------------------------------------------- the Manager's calls

    /**
     * `Manager.Generate`: what the engine gave, if the call is not cancelled and the
     * engine registered and successful.
     */
    method Generate(cancelled: bool, engineType: string, engines: Engines, generated: Option<Secret>, now: int)
      returns (r: Result<Secret, Error>)
      requires Valid()
      modifies this
      ensures Valid()
      ensures r == if cancelled then Failure(Cancelled)
                   else if engineType !in engines then Failure(EngineNotFound)
                   else if generated.None? then Failure(GenerateFailed)
                   else Success(generated.value.(engineType := engineType))
      ensures Abstract() == if r.Success? then Next(old(Abstract()), Create(r.value, now)) else old(Abstract())
    {
      if cancelled { return Failure(Cancelled); }
      if engineType !in engines { return Failure(EngineNotFound); }
      if generated.None? { return Failure(GenerateFailed); }
      var secret := generated.value.(engineType := engineType);
      var lease := CreateLease(secret, now);
      return Success(secret);
    }

    /** `Manager.Revoke` */
    method RevokeSecret(leaseId: string, engines: Engines) returns (err: Option<Error>)
      requires Valid()
      modifies leases.Values
      ensures Valid() && forall at :: Abstract() == Next(old(Abstract()), Revoke(leaseId, engines, at))
      ensures err.Some? ==> Abstract() == old(Abstract())
      ensures err.None? ==>
                && leaseId in old(Abstract())
                && Abstract() == old(Abstract())[leaseId := old(Abstract())[leaseId].(revoked := true)]
      ensures err == if leaseId !in old(Abstract()) then Some(LeaseNotFound)
                     else var engine := old(Abstract())[leaseId].secret.engineType;
                          if engine !in engines then Some(EngineNotFound)
                          else if !engines[engine] then Some(RevokeFailed) else None
    {
      if leaseId !in leases { return Some(LeaseNotFound); }
      var lease := leases[leaseId];
      if lease.secret.engineType !in engines { return Some(EngineNotFound); }
      if !engines[lease.secret.engineType] { return Some(RevokeFailed); }
      var ok := RevokeLease(leaseId);
      return if ok then None else Some(LeaseNotFound);
    }

    /** `Manager.Lookup` */
    method Lookup(leaseId: string) returns (r: Result<Secret, Error>)
      ensures r == match Found(Abstract(), leaseId)
                   case Some(secret) => Success(secret)
                   case None => Failure(LeaseNotFound)
    {
      if leaseId !in leases { return Failure(LeaseNotFound); }
      var lease := leases[leaseId];
      if lease.revoked { return Failure(LeaseNotFound); }
      return Success(lease.secret);
    }

    /** `Manager.Renew`: a secret with the new duration, while the lease keeps its expiry. */
    method Renew(leaseId: string, increment: int) returns (r: Result<Secret, Error>)
      ensures r == Renewed(Abstract(), leaseId, increment)
      ensures r.Success? <==> leaseId in leases && leases[leaseId].secret.renewable
      ensures r.Success? ==> r.value == leases[leaseId].secret.(leaseDuration := increment)
      ensures r.Failure? ==> r.error == if leaseId in leases then NotRenewable else LeaseNotFound
      ensures forall at :: Next(Abstract(), Renewal(leaseId, increment, at)) == Abstract()
    {
      if leaseId !in leases { return Failure(LeaseNotFound); }
      var lease := leases[leaseId];
      if !lease.secret.renewable { return Failure(NotRenewable); }
      return Success(lease.secret.(leaseDuration := increment));
    }
  }

  // ---------------------------------------------------------------- whole runs

  function After(run: seq<Event>, k: nat): Table
    requires k <= |run|
  {
    if k == 0 then map[] else Next(After(run, k - 1), run[k - 1])
  }

  /** Time does not run backwards. */
  predicate InTime(run: seq<Event>) { forall i, j | 0 <= i < j < |run| :: run[i].at <= run[j].at }

  /** `now` is not before any of the first `k` events. */
  predicate NotBefore(run: seq<Event>, k: nat, now: int)
    requires k <= |run|
  {
    forall i | 0 <= i < k :: run[i].at <= now
  }

  predicate Creates(e: Event, id: string) { e.Create? && e.secret.leaseId == id }

  /**
   * An event that ends the lease of the creation `c`: a revocation its engine carries
   * out, or another lease of that id.
   */
  predicate Ends(e: Event, c: Event)
    requires c.Create?
  {
    match e
    case Create(secret, _) => secret.leaseId == c.secret.leaseId
    case Revoke(id, engines, _) => id == c.secret.leaseId && Revokes(engines, c.secret.engineType)
    case Renewal(_, _, _) | Tick(_) => false
  }

  /** Event `i` created the lease, and nothing has ended it by `k`. */
  predicate StandsFrom(run: seq<Event>, i: nat, k: nat, id: string)
    requires k <= |run|
  {
    i < k && Creates(run[i], id) && forall j | i < j < k :: !Ends(run[j], run[i])
  }

  function ExpiryOf(c: Event): int
    requires c.Create?
  {
    c.at + c.secret.leaseDuration
  }

  predicate LivesFrom(run: seq<Event>, i: nat, k: nat, id: string, now: int)
    requires k <= |run|
  {
    StandsFrom(run, i, k, id) && now <= ExpiryOf(run[i])
  }

  /** No cleanup since event `i` came after the expiry of the lease it created. */
  predicate NotSwept(run: seq<Event>, i: nat, k: nat)
    requires i < k <= |run| && run[i].Create?
  {
    forall j | i < j < k && run[j].Tick? :: run[j].at <= ExpiryOf(run[i])
  }

  lemma {:induction false} StandsOneMore(run: seq<Event>, i: nat, k: nat, id: string)
    requires k < |run|
    ensures StandsFrom(run, i, k + 1, id)
       <==> if i == k then Creates(run[k], id) else StandsFrom(run, i, k, id) && !Ends(run[k], run[i])
  {
  }

  /** What the table holds is what stands and has not been swept away. */
  lemma {:induction false} FoundIff(run: seq<Event>, k: nat, id: string)
    requires k <= |run|
    ensures Found(After(run, k), id).Some? <==> exists i: nat :: StandsFrom(run, i, k, id) && NotSwept(run, i, k)
    ensures forall i: nat | StandsFrom(run, i, k, id) && NotSwept(run, i, k) ::
              id in After(run, k) && After(run, k)[id] == Record(run[i].secret, ExpiryOf(run[i]), false)
  {
    if k > 0 {
      var e, t := run[k - 1], After(run, k - 1);
      FoundIff(run, k - 1, id);
      forall i: nat | i < k
        ensures StandsFrom(run, i, k, id)
           <==> if i == k - 1 then Creates(e, id) else StandsFrom(run, i, k - 1, id) && !Ends(e, run[i])
      {
        StandsOneMore(run, i, k - 1, id);
      }
      if Creates(e, id) {
        assert StandsFrom(run, k - 1, k, id) && NotSwept(run, k - 1, k);
      } else if Found(t, id).Some? {
        var i: nat :| StandsFrom(run, i, k - 1, id) && NotSwept(run, i, k - 1);
        assert t[id] == Record(run[i].secret, ExpiryOf(run[i]), false);
        if Found(After(run, k), id).Some? { assert StandsFrom(run, i, k, id) && NotSwept(run, i, k); }
      }
      forall i: nat | StandsFrom(run, i, k, id) && NotSwept(run, i, k)
        ensures id in After(run, k) && After(run, k)[id] == Record(run[i].secret, ExpiryOf(run[i]), false)
      {
        if i < k - 1 { assert StandsFrom(run, i, k - 1, id) && NotSwept(run, i, k - 1); }
      }
    }
  }

  /**
   * A lease is alive exactly from its creation until the earlier of its
   * revocation and its expiry, whether or not cleanup has run.
   */
  lemma {:induction false} AliveIff(run: seq<Event>, k: nat, id: string, now: int)
    requires k <= |run| && NotBefore(run, k, now)
    ensures Alive(After(run, k), id, now) <==> exists i: nat :: LivesFrom(run, i, k, id, now)
  {
    FoundIff(run, k, id);
    if Alive(After(run, k), id, now) {
      var i: nat :| StandsFrom(run, i, k, id) && NotSwept(run, i, k);
      assert LivesFrom(run, i, k, id, now);
    }
    if exists i: nat :: LivesFrom(run, i, k, id, now) {
      var i: nat :| LivesFrom(run, i, k, id, now);
      assert NotSwept(run, i, k);
    }
  }

  /** Every id is created at most once. */
  predicate FreshIds(run: seq<Event>) {
    forall i, j | 0 <= i < j < |run| && run[i].Create? && run[j].Create? ::
        run[i].secret.leaseId != run[j].secret.leaseId
  }

  /** Once created and no longer alive, a lease is never alive again. */
  lemma {:induction false} NeverAliveAgain(run: seq<Event>, i: nat, k: nat, k': nat, id: string, now: int, now': int)
    requires FreshIds(run) && i < k <= k' <= |run| && Creates(run[i], id)
    requires now <= now' && NotBefore(run, k, now) && NotBefore(run, k', now')
    requires !Alive(After(run, k), id, now)
    ensures !Alive(After(run, k'), id, now')
  {
    AliveIff(run, k, id, now);
    AliveIff(run, k', id, now');
    if exists j: nat :: LivesFrom(run, j, k', id, now') {
      var j: nat :| LivesFrom(run, j, k', id, now');
      SameCreation(run, i, j, id);
      assert LivesFrom(run, i, k, id, now);
    }
  }

  lemma {:induction false} SameCreation(run: seq<Event>, i: nat, j: nat, id: string)
    requires FreshIds(run) && i < |run| && j < |run| && Creates(run[i], id) && Creates(run[j], id)
    ensures i == j
  {
  }

  /** The run without its cleanup ticks. */
  function Unswept(run: seq<Event>, k: nat): seq<Event>
    requires k <= |run|
  {
    if k == 0 then []
    else if run[k - 1].Tick? then Unswept(run, k - 1)
    else Unswept(run, k - 1) + [run[k - 1]]
  }

  function Final(run: seq<Event>): Table { After(run, |run|) }

  lemma {:induction false} FinalGrows(run: seq<Event>, e: Event)
    ensures Final(run + [e]) == Next(Final(run), e)
  {
    AfterPrefix(run, run + [e], |run|);
  }

  lemma {:induction false} AfterPrefix(a: seq<Event>, b: seq<Event>, k: nat)
    requires k <= |a| && k <= |b| && a[..k] == b[..k]
    ensures After(a, k) == After(b, k)
  {
    if k > 0 {
      assert a[..k][k - 1] == b[..k][k - 1];
      assert a[..k - 1] == a[..k][..k - 1] && b[..k - 1] == b[..k][..k - 1];
      AfterPrefix(a, b, k - 1);
    }
  }

  /** Two tables nobody can tell apart from `now` on by asking what is alive. */
  ghost predicate AgreeFrom(t: Table, u: Table, now: int) {
    forall id :: AgreeOn(t, u, id, now)
  }

  predicate AgreeOn(t: Table, u: Table, id: string, now: int) {
    if id in t && now <= t[id].expiresAt && !t[id].revoked then id in u && u[id] == t[id]
    else !(id in u && now <= u[id].expiresAt && !u[id].revoked)
  }

  lemma {:induction false} AgreeStep(t: Table, u: Table, e: Event, now: int, id: string)
    requires now <= e.at && AgreeOn(t, u, id, now)
    ensures AgreeOn(Next(t, e), if e.Tick? then u else Next(u, e), id, e.at)
  {
  }

  lemma {:induction false} TicksLeaveAlive(run: seq<Event>, k: nat, now: int)
    requires InTime(run) && k <= |run| && NotBefore(run, k, now)
    ensures AgreeFrom(After(run, k), Final(Unswept(run, k)), now)
  {
    hide Next, AgreeOn;
    if k == 0 {
      NothingAgrees(now);
    } else {
      var e, t, u := run[k - 1], After(run, k - 1), Final(Unswept(run, k - 1));
      TicksLeaveAlive(run, k - 1, e.at);
      if !e.Tick? { FinalGrows(Unswept(run, k - 1), e); }
      forall id ensures AgreeOn(After(run, k), Final(Unswept(run, k)), id, now) {
        assert AgreeOn(t, u, id, e.at);
        AgreeStep(t, u, e, e.at, id);
        AgreeLater(After(run, k), Final(Unswept(run, k)), id, e.at, now);
      }
    }
  }

  lemma {:induction false} NothingAgrees(now: int)
    ensures AgreeFrom(map[], map[], now)
  {
  }

  lemma {:induction false} AgreeLater(t: Table, u: Table, id: string, now: int, later: int)
    requires AgreeOn(t, u, id, now) && now <= later
    ensures AgreeOn(t, u, id, later)
  {
  }

  /** Cleanup is invisible: with and without its ticks, the same leases are active, now and at any later time. */
  lemma {:induction false} TicksInvisible(run: seq<Event>, now: int)
    requires InTime(run) && NotBefore(run, |run|, now)
    ensures Active(Final(run), now) == Active(Final(Unswept(run, |run|)), now)
  {
    TicksLeaveAlive(run, |run|, now);
    forall id ensures id in Active(Final(run), now) <==> id in Active(Final(Unswept(run, |run|)), now) {
      assert AgreeOn(Final(run), Final(Unswept(run, |run|)), id, now);
    }
  }

  /** A lookup never returns a secret whose lease was revoked and not created anew. */
  lemma {:induction false} LookupNeverRevoked(run: seq<Event>, i: nat, j: nat, k: nat, id: string)
    requires FreshIds(run) && i < j < k <= |run| && Creates(run[i], id)
    requires run[j].Revoke? && run[j].id == id && Revokes(run[j].engines, run[i].secret.engineType)
    ensures Found(After(run, k), id).None?
  {
    FoundIff(run, k, id);
    if exists m: nat :: StandsFrom(run, m, k, id) && NotSwept(run, m, k) {
      var m: nat :| StandsFrom(run, m, k, id) && NotSwept(run, m, k);
      SameCreation(run, i, m, id);
    }
  }

  /** A lookup still returns an expired secret exactly until a cleanup after its expiry. */
  lemma {:induction false} LookupOutlivesExpiryIff(run: seq<Event>, i: nat, k: nat, id: string)
    requires k <= |run| && FreshIds(run) && StandsFrom(run, i, k, id)
    ensures Found(After(run, k), id).Some? <==> NotSwept(run, i, k)
  {
    FoundIff(run, k, id);
    if Found(After(run, k), id).Some? {
      var m: nat :| StandsFrom(run, m, k, id) && NotSwept(run, m, k);
      SameCreation(run, i, m, id);
    }
  }

  /** The moment up to which a renewal promises its secret. */
  function PromisedUntil(e: Event): int
    requires e.Renewal?
  {
    e.at + e.increment
  }

  /**
   * Nobody revokes it, and still a renewed secret has a moment, not later than
   * the renewal promised, at which its lease is over: exactly when the promise
   * reaches past the expiry set at creation, and has not run out already.
   */
  lemma {:induction false} RenewalOutlivesLeaseIff(run: seq<Event>, i: nat, j: nat, k: nat, id: string)
    requires FreshIds(run) && i < j < k <= |run| && StandsFrom(run, i, k, id)
    requires run[j].Renewal? && run[j].id == id
    ensures (exists now :: now <= PromisedUntil(run[j]) && NotBefore(run, k, now) && !Alive(After(run, k), id, now))
       <==> PromisedUntil(run[j]) > ExpiryOf(run[i]) && NotBefore(run, k, PromisedUntil(run[j]))
  {
    var until := PromisedUntil(run[j]);
    forall now | NotBefore(run, k, now)
      ensures Alive(After(run, k), id, now) <==> now <= ExpiryOf(run[i])
    {
      StandingIsAliveIff(run, i, k, id, now);
    }
    if now :| now <= until && NotBefore(run, k, now) && !Alive(After(run, k), id, now) {
      assert NotBefore(run, k, until);
    }
    if until > ExpiryOf(run[i]) && NotBefore(run, k, until) {
      assert !Alive(After(run, k), id, until);
    }
  }

  lemma {:induction false} StandingIsAliveIff(run: seq<Event>, i: nat, k: nat, id: string, now: int)
    requires FreshIds(run) && k <= |run| && StandsFrom(run, i, k, id) && NotBefore(run, k, now)
    ensures Alive(After(run, k), id, now) <==> now <= ExpiryOf(run[i])
  {
    AliveIff(run, k, id, now);
    if Alive(After(run, k), id, now) {
      var m: nat :| LivesFrom(run, m, k, id, now);
      SameCreation(run, i, m, id);
    } else {
      assert !LivesFrom(run, i, k, id, now);
    }
  }

  /** The run without its renewals. */
  function Unrenewed(run: seq<Event>, k: nat): seq<Event>
    requires k <= |run|
  {
    if k == 0 then []
    else if run[k - 1].Renewal? then Unrenewed(run, k - 1)
    else Unrenewed(run, k - 1) + [run[k - 1]]
  }

  /** No renewal ever changes what the table holds. */
  lemma {:induction false} RenewalsInvisible(run: seq<Event>, k: nat)
    requires k <= |run|
    ensures After(run, k) == Final(Unrenewed(run, k))
  {
    if k > 0 {
      RenewalsInvisible(run, k - 1);
      FinalGrows(Unrenewed(run, k - 1), run[k - 1]);
    }
  }
}

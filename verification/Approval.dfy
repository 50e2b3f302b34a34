/**
 * The approval gate of the MCP server: who is asked, what a session remembers,
 * and what is recorded, over any run of calls and invalidations.
 */
module Approval {
  import opened Wrappers

  datatype Risk = Low | Medium | High | Critical

  predicate CanRemember(r: Risk) { r != Critical }

  /** What the gate takes from elsewhere: lower-casing and trimming, path cleaning, and the tool table. */
  datatype Env = Env(fold: string -> string, normal: string -> string, risk: string -> Risk)

  datatype Agent = Agent(name: string, approvalMode: Option<string>, requireApproval: Option<bool>)

  datatype Intent = Intent(action: string, path: string)

  /** What the terminal gives back: a failure or timeout, or a line of text. */
  datatype Reply = NoReply | Line(text: string)

  /** What a call comes to; unsealing without an agent runs into a nil pointer. */
  datatype Outcome =
    | Panicked
    | NotInitialized
    | Allowed
    | DeniedByMode
    | NoTty
    | Recalled
    | PromptFailed
    | Refused
    | Granted(remember: bool)

  predicate Succeeds(o: Outcome) { o.Allowed? || o.Recalled? || o.Granted? }

  predicate IsGrant(o: Outcome) { o.Granted? }

  predicate Prompted(o: Outcome) { o.PromptFailed? || o.Refused? || o.Granted? }

  datatype StepKind = StepDenied | StepRemembered | StepRequested | StepGranted | UnsealRemembered | UnsealFailed

  datatype AuditStep = AuditStep(kind: StepKind, action: string, path: string)

  datatype State = State(cache: set<string>, counter: nat, audit: seq<AuditStep>)

  datatype Event =
    | Call(intent: Intent, tty: bool, reply: Reply)
    | Unseal(handle: string, entryPath: string, tty: bool, reply: Reply)
    | Invalidate

  // ---------------------------------------------------------------- pieces of the gate

  /** `strings.Contains(path, "://")` */
  predicate HasScheme(path: string) { |path| >= 3 && (path[..3] == "://" || HasScheme(path[1..])) }

  lemma {:induction false} HasSchemeIff(path: string)
    ensures HasScheme(path)
            <==> exists i :: 0 <= i <= |path| - 3 && path[i] == ':' && path[i + 1] == '/' && path[i + 2] == '/'
  {
    if |path| >= 3 {
      HasSchemeIff(path[1..]);
      assert path[..3] == [path[0], path[1], path[2]];
      if i :| 0 <= i <= |path[1..]| - 3 && path[1..][i] == ':' && path[1..][i + 1] == '/' && path[1..][i + 2] == '/' {
        assert path[i + 1] == ':' && path[i + 2] == '/' && path[i + 3] == '/';
      }
      if i :| 1 <= i <= |path| - 3 && path[i] == ':' && path[i + 1] == '/' && path[i + 2] == '/' {
        assert path[1..][i - 1] == ':' && path[1..][i] == '/' && path[1..][i + 1] == '/';
      }
    }
  }

  /** The part of a path a remembered approval is tied to. */
  function Target(env: Env, path: string): string {
    if HasScheme(path) then path else env.normal(path)
  }

  /** `approvalCacheKey` */
  function CacheKey(env: Env, agent: string, tool: string, path: string): string {
    agent + ":" + tool + ":" + Target(env, path)
  }

  function Mode(a: Agent): string {
    if a.approvalMode.Some? && a.approvalMode.value != "" then a.approvalMode.value
    else if a.requireApproval == Some(true) then "prompt"
    else "none"
  }

  /** `parseRememberResponse` and `parseApprovalResponse` */
  predicate SaysRemember(env: Env, text: string) { env.fold(text) in ["r", "remember"] }

  predicate SaysYes(env: Env, text: string) { env.fold(text) in ["y", "yes", "r", "remember"] }

  /** What asking on the terminal comes to. */
  function Answer(env: Env, canRemember: bool, reply: Reply): Outcome {
    match reply
    case NoReply => PromptFailed
    case Line(text) =>
      if SaysYes(env, text) then Granted(canRemember && SaysRemember(env, text)) else Refused
  }

  /** What `requireApproval` decides, given what is remembered. */
  function Decide(env: Env, agent: Option<Agent>, cache: set<string>, intent: Intent, tty: bool,
          reply: Reply): Outcome {
    if agent.None? then NotInitialized
    else
      var mode, risk := Mode(agent.value), env.risk(intent.action);
      if mode == "deny" then DeniedByMode
      else if mode != "prompt" then Allowed
      else if !tty then NoTty
      else if CanRemember(risk) && CacheKey(env, agent.value.name, intent.action, intent.path) in cache then Recalled
      else Answer(env, CanRemember(risk), reply)
  }

  /** The agent's calls are put to the user: it says so, or requires approval without naming a mode. */
  predicate Prompting(a: Agent) {
    || a.approvalMode == Some("prompt")
    || ((a.approvalMode.None? || a.approvalMode.value == "") && a.requireApproval == Some(true))
  }

  /** An approval of this kind is remembered, and its tool may be remembered at all. */
  predicate Known(env: Env, a: Agent, cache: set<string>, intent: Intent) {
    env.risk(intent.action) != Critical && CacheKey(env, a.name, intent.action, intent.path) in cache
  }

  /** The audit steps a decision leaves. */
  function Trail(o: Outcome, intent: Intent): seq<AuditStep> {
    var step := (k: StepKind) => AuditStep(k, intent.action, intent.path);
    match o
    case Panicked | NotInitialized | Allowed => []
    case DeniedByMode | NoTty => [step(StepDenied)]
    case Recalled => [step(StepRemembered)]
    case PromptFailed => [step(StepRequested)]
    case Refused => [step(StepRequested), step(StepDenied)]
    case Granted(remember) =>
      [step(StepRequested)] + (if remember then [step(StepRemembered)] else []) + [step(StepGranted)]
  }

  /** The state after a decision on `intent`. */
  function Decided(env: Env, agent: Option<Agent>, st: State, intent: Intent, o: Outcome): State {
    State(
      if o == Granted(true) && agent.Some? then st.cache + {CacheKey(env, agent.value.name, intent.action, intent.path)}
          else st.cache,
      if o.Granted? then st.counter + 1 else st.counter,
      st.audit + Trail(o, intent))
  }

  function UnsealIntent(e: Event): Intent
    requires e.Unseal?
  {
    Intent("secret_unseal", e.entryPath)
  }

  function HandleKey(env: Env, agent: Agent, handle: string): string {
    CacheKey(env, agent.name, "secret_unseal", handle)
  }

  /** What an event comes to; an invalidation decides nothing. A remembered handle is not asked about. */
  function Outcomes(env: Env, agent: Option<Agent>, st: State, e: Event): Option<Outcome> {
    match e
    case Call(intent, tty, reply) => Some(Decide(env, agent, st.cache, intent, tty, reply))
    case Unseal(handle, entryPath, tty, reply) =>
      if agent.None? then Some(Panicked)
      else if HandleKey(env, agent.value, handle) in st.cache then None
      else Some(Decide(env, agent, st.cache, UnsealIntent(e), tty, reply))
    case Invalidate => None
  }

  /** The state after an event. */
  function Next(env: Env, agent: Option<Agent>, st: State, e: Event): State {
    var o := Outcomes(env, agent, st, e);
    match e
    case Call(intent, _, _) => Decided(env, agent, st, intent, o.value)
    case Unseal(handle, entryPath, _, _) =>
      if o.None? || o.value.Panicked? then st
      else
        var st' := Decided(env, agent, st, UnsealIntent(e), o.value);
        if Succeeds(o.value) then
          State(st'.cache + {HandleKey(env, agent.value, handle)}, st'.counter,
                st'.audit + [AuditStep(UnsealRemembered, "secret_unseal", entryPath)])
        else st'.(audit := st'.audit + [AuditStep(UnsealFailed, "secret_unseal", entryPath)])
    case Invalidate => st.(cache := {})
  }

  // ---------------------------------------------------------------- the server

  class Server {
    const env: Env
    const agent: Option<Agent>
    var cache: map<string, bool>
    var approvalKeyCounter: nat
    var audit: seq<AuditStep>

    constructor (env: Env, agent: Option<Agent>)
      ensures this.env == env && this.agent == agent
      ensures Abstract() == State({}, 0, [])
    {
      this.env, this.agent := env, agent;
      cache, approvalKeyCounter, audit := map[], 0, [];
    }

    ghost function Abstract(): State
      reads this
    {
      State((set k | k in cache && cache[k]), approvalKeyCounter, audit)
    }

    method IsRemembered(key: string) returns (r: bool)
      ensures r <==> key in Abstract().cache
    {
      r := key in cache && cache[key];
    }

    method SetRemembered(key: string)
      modifies this`cache
      ensures Abstract() == old(Abstract()).(cache := old(Abstract().cache) + {key})
    {
      cache := cache[key := true];
      assert Abstract().cache == old(Abstract().cache) + {key};
    }

    method LogAudit(kind: StepKind, intent: Intent)
      modifies this`audit
      ensures audit == old(audit) + [AuditStep(kind, intent.action, intent.path)]
    {
      audit := audit + [AuditStep(kind, intent.action, intent.path)];
    }

    /** `requireApproval` */
    method RequireApproval(intent: Intent, tty: bool, reply: Reply) returns (o: Outcome)
      modifies this
      ensures o == Decide(env, agent, old(Abstract().cache), intent, tty, reply)
      ensures Abstract() == Decided(env, agent, old(Abstract()), intent, o)
      ensures agent.Some? && Prompting(agent.value) && tty
              && !Known(env, agent.value, old(Abstract().cache), intent) ==>
                (Succeeds(o) <==> reply.Line? && env.fold(reply.text) in ["y", "yes", "r", "remember"])
    {
      hide CacheKey, Target;
      if agent.None? { return NotInitialized; }
      var a := agent.value;
      var mode := "";
      if a.approvalMode.Some? { mode := a.approvalMode.value; }
      if mode == "" {
        if a.requireApproval.Some? && a.requireApproval.value { mode := "prompt"; } else { mode := "none"; }
      }
      if mode == "none" || mode == "auto" { return Allowed; }
      if mode == "deny" {
        LogAudit(StepDenied, intent);
        return DeniedByMode;
      }
      if mode != "prompt" { return Allowed; }
      if !tty {
        LogAudit(StepDenied, intent);
        return NoTty;
      }
      var risk := env.risk(intent.action);
      var cacheKey := CacheKey(env, a.name, intent.action, intent.path);
      if CanRemember(risk) {
        var known := IsRemembered(cacheKey);
        if known {
          LogAudit(StepRemembered, intent);
          return Recalled;
        }
      }
      o := AskUser(a, intent, CanRemember(risk), reply);
    }

    /** The second half of `requireApproval`: the prompt and what follows from it. */
    method AskUser(a: Agent, intent: Intent, canRemember: bool, reply: Reply) returns (o: Outcome)
      requires agent == Some(a)
      modifies this
      ensures o == Answer(env, canRemember, reply)
      ensures Abstract() == Decided(env, agent, old(Abstract()), intent, o)
    {
      hide CacheKey;
      LogAudit(StepRequested, intent);
      var approved, remembered, failed := RequestApproval(env, canRemember, reply);
      if failed { return PromptFailed; }
      if !approved {
        LogAudit(StepDenied, intent);
        return Refused;
      }
      if remembered && canRemember {
        SetRemembered(CacheKey(env, a.name, intent.action, intent.path));
        LogAudit(StepRemembered, intent);
      }
      approvalKeyCounter := approvalKeyCounter + 1;
      LogAudit(StepGranted, intent);
      return Granted(remembered);
    }

    /** The approval part of `handleSecretUnseal`: none when the handle is remembered. */
    method UnsealGate(e: Event) returns (o: Option<Outcome>)
      requires e.Unseal?
      modifies this
      ensures o == Outcomes(env, agent, old(Abstract()), e)
      ensures Abstract() == Next(env, agent, old(Abstract()), e)
      ensures old(|audit|) <= |audit| && forall i | old(|audit|) <= i < |audit| ::
                audit[i].action == "secret_unseal" && audit[i].path == e.entryPath
    {
      if agent.None? { return Some(Panicked); }
      var cacheKey := HandleKey(env, agent.value, e.handle);
      var known := IsRemembered(cacheKey);
      if known { return None; }
      var r := RequireApproval(UnsealIntent(e), e.tty, e.reply);
      if Succeeds(r) {
        SetRemembered(cacheKey);
        LogAudit(UnsealRemembered, UnsealIntent(e));
      } else {
        LogAudit(UnsealFailed, UnsealIntent(e));
      }
      return Some(r);
    }

    /** `invalidateApprovalCache` */
    method InvalidateApprovalCache()
      modifies this`cache
      ensures Abstract() == Next(env, agent, old(Abstract()), Invalidate)
    {
      cache := map[];
      assert Abstract().cache == {};
    }
  }

  /** `RequestApproval` once the terminal is open: what its three results say. */
  method RequestApproval(env: Env, canRemember: bool, reply: Reply)
          returns (approved: bool, remembered: bool, failed: bool)
    ensures Answer(env, canRemember, reply)
            == if failed then PromptFailed else if approved then Granted(remembered) else Refused
    ensures approved <==> reply.Line? && env.fold(reply.text) in ["y", "yes", "r", "remember"]
    ensures remembered <==> canRemember && reply.Line? && env.fold(reply.text) in ["r", "remember"]
    ensures failed <==> reply.NoReply?
  {
    match reply {
      case NoReply => return false, false, true;
      case Line(response) =>
        approved := SaysYes(env, response);
        remembered := canRemember && SaysRemember(env, response);
        return approved || remembered, remembered, false;
    }
  }

  // ---------------------------------------------------------------- whole runs

  const START := State({}, 0, [])

  function After(env: Env, agent: Option<Agent>, run: seq<Event>, k: nat): State
    requires k <= |run|
  {
    if k == 0 then START else Next(env, agent, After(env, agent, run, k - 1), run[k - 1])
  }

  /** What event `k` of the run comes to. */
  function At(env: Env, agent: Option<Agent>, run: seq<Event>, k: nat): Option<Outcome>
    requires k < |run|
  {
    Outcomes(env, agent, After(env, agent, run, k), run[k])
  }

  /** The intent event `e` asks about. */
  function Asked(e: Event): Option<Intent> {
    match e
    case Call(intent, _, _) => Some(intent)
    case Unseal(_, _, _, _) => Some(UnsealIntent(e))
    case Invalidate => None
  }

  /** Event `i` was granted on the terminal with "remember", for an intent with this key. */
  ghost predicate GrantedFor(env: Env, agent: Agent, run: seq<Event>, i: nat, key: string)
  {
    && i < |run| && At(env, Some(agent), run, i) == Some(Granted(true)) && Asked(run[i]).Some?
    && var intent := Asked(run[i]).value; CacheKey(env, agent.name, intent.action, intent.path) == key
  }

  /** Event `i` passed the gate to unseal a handle with this key. */
  ghost predicate UnsealedFor(env: Env, agent: Agent, run: seq<Event>, i: nat, key: string)
  {
    && i < |run| && run[i].Unseal? && HandleKey(env, agent, run[i].handle) == key
    && var o := At(env, Some(agent), run, i); o.Some? && Succeeds(o.value)
  }

  ghost predicate StoresFor(env: Env, agent: Agent, run: seq<Event>, i: nat, key: string) {
    GrantedFor(env, agent, run, i, key) || UnsealedFor(env, agent, run, i, key)
  }

  /** No invalidation from `lo` up to `hi`. */
  predicate Undisturbed(run: seq<Event>, lo: nat, hi: nat)
    requires hi <= |run|
  {
    forall j | lo <= j < hi :: !run[j].Invalidate?
  }

  ghost predicate StoredSince(env: Env, agent: Agent, run: seq<Event>, k: nat, key: string)
    requires k <= |run|
  {
    exists i: nat :: i < k && StoresFor(env, agent, run, i, key) && Undisturbed(run, i + 1, k)
  }

  lemma {:induction false} InvalidationStoresNothing(env: Env, agent: Agent, run: seq<Event>, k: nat, key: string)
    requires k < |run| && StoresFor(env, agent, run, k, key)
    ensures !run[k].Invalidate?
  {
  }

  /** What one event puts into, or takes out of, the cache. */
  lemma {:induction false} CacheStep(env: Env, agent: Agent, run: seq<Event>, k: nat, key: string)
    requires k < |run|
    ensures key in After(env, Some(agent), run, k + 1).cache
       <==> !run[k].Invalidate? && (key in After(env, Some(agent), run, k).cache || StoresFor(env, agent, run, k, key))
  {
    hide CacheKey, Decide, Trail;
    var st := After(env, Some(agent), run, k);
    assert After(env, Some(agent), run, k + 1) == Next(env, Some(agent), st, run[k]);
  }

  lemma {:induction false} StoredStep(env: Env, agent: Agent, run: seq<Event>, k: nat, key: string)
    requires k < |run|
    ensures StoredSince(env, agent, run, k + 1, key)
       <==> !run[k].Invalidate? && (StoredSince(env, agent, run, k, key) || StoresFor(env, agent, run, k, key))
  {
    hide StoresFor;
    if !run[k].Invalidate? && StoredSince(env, agent, run, k, key) {
      var i: nat :| i < k && StoresFor(env, agent, run, i, key) && Undisturbed(run, i + 1, k);
      assert Undisturbed(run, i + 1, k + 1);
    }
    if StoresFor(env, agent, run, k, key) {
      assert Undisturbed(run, k + 1, k + 1);
    }
    if StoredSince(env, agent, run, k + 1, key) {
      var i: nat :| i < k + 1 && StoresFor(env, agent, run, i, key) && Undisturbed(run, i + 1, k + 1);
      if i < k { assert Undisturbed(run, i + 1, k) && !run[k].Invalidate?; }
      if StoresFor(env, agent, run, k, key) { InvalidationStoresNothing(env, agent, run, k, key); }
    }
  }

  /** What is in the cache is exactly what was stored since the last invalidation. */
  lemma {:induction false} CacheIff(env: Env, agent: Agent, run: seq<Event>, k: nat, key: string)
    requires k <= |run|
    ensures key in After(env, Some(agent), run, k).cache <==> StoredSince(env, agent, run, k, key)
  {
    hide StoresFor, Next;
    if k > 0 {
      CacheIff(env, agent, run, k - 1, key);
      CacheStep(env, agent, run, k - 1, key);
      StoredStep(env, agent, run, k - 1, key);
    }
  }

  // ---------------------------------------------------------------- keys

  predicate ColonFree(s: string) { ':' !in s }

  lemma {:induction false} SplitUnique(a: string, b: string, c: string, d: string)
    requires ColonFree(a) && ColonFree(c) && a + ":" + b == c + ":" + d
    ensures a == c && b == d
  {
    var s := a + ":" + b;
    assert s[|a|] == ':' && s[|c|] == ':';
    assert forall i | 0 <= i < |a| :: s[i] == a[i];
    assert forall i | 0 <= i < |c| :: s[i] == c[i];
    assert a == s[..|a|] && b == s[|a| + 1..] && d == s[|c| + 1..];
  }

  /** Keys of one agent agree exactly on equal tools and equal targets, as long as tool names hold no colon. */
  lemma {:induction false} CacheKeyInjective(env: Env, agent: string, tool: string, path: string, tool': string,
          path': string)
    requires ColonFree(tool) && ColonFree(tool')
    ensures CacheKey(env, agent, tool, path) == CacheKey(env, agent, tool', path')
       <==> tool == tool' && Target(env, path) == Target(env, path')
  {
    var k, k' := CacheKey(env, agent, tool, path), CacheKey(env, agent, tool', path');
    var b, b' := tool + ":" + Target(env, path), tool' + ":" + Target(env, path');
    assert k == agent + ":" + b && k' == agent + ":" + b';
    if k == k' {
      assert b == k[|agent| + 1..] && b' == k'[|agent| + 1..];
      SplitUnique(tool, Target(env, path), tool', Target(env, path'));
    }
  }

  /** With a colon in a tool name two different requests can share a key. */
  lemma {:induction false} ColonsCollide(env: Env)
    requires env.normal("z") == "z" && env.normal("y:z") == "y:z"
    ensures CacheKey(env, "a", "x:y", "z") == CacheKey(env, "a", "x", "y:z")
  {
    assert "y:z"[..3][0] != "://"[0];
  }

  // ---------------------------------------------------------------- what is remembered

  /** Tool names hold no colon, handles are URIs, and a cleaned path never is. */
  ghost predicate Realistic(env: Env, run: seq<Event>) {
    && (forall i | 0 <= i < |run| && run[i].Call? :: ColonFree(run[i].intent.action))
    && (forall i | 0 <= i < |run| && run[i].Unseal? :: HasScheme(run[i].handle))
    && (forall p :: !HasScheme(env.normal(p)))
  }

  /** An earlier prompt for the same tool and the same path was granted with "remember". */
  ghost predicate RememberedFor(env: Env, agent: Agent, run: seq<Event>, i: nat, intent: Intent) {
    && i < |run| && At(env, Some(agent), run, i) == Some(Granted(true)) && Asked(run[i]).Some?
    && Asked(run[i]).value.action == intent.action
    && Target(env, Asked(run[i]).value.path) == Target(env, intent.path)
  }

  lemma {:induction false} StoresIffRemembered(env: Env, agent: Agent, run: seq<Event>, i: nat, intent: Intent)
    requires Realistic(env, run) && i < |run| && ColonFree(intent.action)
    requires intent.action != "secret_unseal" || !HasScheme(intent.path)
    ensures StoresFor(env, agent, run, i, CacheKey(env, agent.name, intent.action, intent.path))
       <==> RememberedFor(env, agent, run, i, intent)
  {
    hide At, CacheKey, Target;
    var e := run[i];
    if e.Unseal? {
      assert HasScheme(e.handle);
      CacheKeyInjective(env, agent.name, "secret_unseal", e.handle, intent.action, intent.path);
      SchemeTarget(env, e.handle);
      SchemeTarget(env, intent.path);
    }
    if Asked(e).Some? {
      var asked := Asked(e).value;
      assert ColonFree(asked.action);
      CacheKeyInjective(env, agent.name, asked.action, asked.path, intent.action, intent.path);
    }
  }

  lemma {:induction false} SchemeTarget(env: Env, path: string)
    requires forall p :: !HasScheme(env.normal(p))
    ensures HasScheme(Target(env, path)) <==> HasScheme(path)
  {
  }

  /**
   * In prompt mode a call succeeds without a prompt if and only if there is a
   * terminal, its tool is below critical risk, and an earlier prompt for the
   * same tool and path was granted with "remember" since the last invalidation.
   */
  lemma {:induction false} RecalledIff(env: Env, agent: Agent, run: seq<Event>, k: nat)
    requires Realistic(env, run) && Mode(agent) == "prompt"
    requires k < |run| && run[k].Call?
    requires run[k].intent.action != "secret_unseal" || !HasScheme(run[k].intent.path)
    ensures var o := At(env, Some(agent), run, k).value;
            (Succeeds(o) && !Prompted(o))
            <==> (run[k].tty && env.risk(run[k].intent.action) != Critical
                  && exists i: nat :: i < k && RememberedFor(env, agent, run, i, run[k].intent)
                      && Undisturbed(run, i + 1, k))
  {
    var intent := run[k].intent;
    var key := CacheKey(env, agent.name, intent.action, intent.path);
    CacheIff(env, agent, run, k, key);
    forall i: nat | i < k
      ensures StoresFor(env, agent, run, i, key) <==> RememberedFor(env, agent, run, i, intent)
    {
      StoresIffRemembered(env, agent, run, i, intent);
    }
  }

  /**
   * Unsealing passes unasked exactly when its handle's key was stored since the last
   * invalidation, however it was granted.
   */
  lemma {:induction false} UnsealSilentIff(env: Env, agent: Agent, run: seq<Event>, k: nat)
    requires k < |run| && run[k].Unseal?
    ensures At(env, Some(agent), run, k).None?
            <==> StoredSince(env, agent, run, k, HandleKey(env, agent, run[k].handle))
  {
    CacheIff(env, agent, run, k, HandleKey(env, agent, run[k].handle));
  }

  /**
   * The reply decides: a call put to the user succeeds exactly on "y", "yes", "r" or
   * "remember", in any case; it is remembered exactly on the last two, and only
   * below critical risk; and it is counted and recorded accordingly.
   */
  lemma {:induction false} ReplyDecides(env: Env, agent: Agent, st: State, intent: Intent, text: string)
    requires Prompting(agent) && !Known(env, agent, st.cache, intent)
    ensures var o := Decide(env, Some(agent), st.cache, intent, true, Line(text));
            var st', key := Decided(env, Some(agent), st, intent, o),
                CacheKey(env, agent.name, intent.action, intent.path);
            var yes, keep := env.fold(text) in {"y", "yes", "r", "remember"}, env.fold(text) in {"r", "remember"};
            && (Succeeds(o) <==> yes) && (!yes ==> o == Refused)
            && st'.cache == (if keep && env.risk(intent.action) in {Low, Medium, High} then st.cache + {key}
                else st.cache)
            && st'.counter == (if yes then st.counter + 1 else st.counter)
            && |st'.audit| >= |st.audit| + 2 && st'.audit[..|st.audit|] == st.audit
            && st'.audit[|st.audit|] == AuditStep(StepRequested, intent.action, intent.path)
            && st'.audit[|st'.audit| - 1]
               == AuditStep(if yes then StepGranted else StepDenied, intent.action, intent.path)
  {
  }

  /** Nobody answers, or nobody can be asked: the call fails and nothing is remembered or counted. */
  lemma {:induction false} UnansweredFails(env: Env, agent: Agent, st: State, intent: Intent, tty: bool, reply: Reply)
    requires agent.approvalMode == Some("deny") || (Prompting(agent) && !tty)
             || (Prompting(agent) && reply.NoReply? && !Known(env, agent, st.cache, intent))
    ensures var o := Decide(env, Some(agent), st.cache, intent, tty, reply);
            var st' := Decided(env, Some(agent), st, intent, o);
            !Succeeds(o) && st'.cache == st.cache && st'.counter == st.counter && |st'.audit| == |st.audit| + 1
  {
  }

  lemma {:induction false} YesSucceeds(env: Env, agent: Agent, cache: set<string>, intent: Intent, text: string)
    requires Prompting(agent) && env.fold(text) in ["y", "yes"]
    ensures Succeeds(Decide(env, Some(agent), cache, intent, true, Line(text)))
  {
    hide CacheKey;
  }

  /** A plain yes suffices: the same handle then passes unasked until an invalidation, though nobody said "remember". */
  lemma {:induction false} PlainYesIsRemembered(env: Env, agent: Agent, run: seq<Event>, i: nat, k: nat)
    requires i < k < |run| && Undisturbed(run, i + 1, k)
    requires run[i].Unseal? && run[k].Unseal? && run[i].handle == run[k].handle
    requires Prompting(agent) && run[i].tty && run[i].reply.Line? && env.fold(run[i].reply.text) in ["y", "yes"]
    ensures At(env, Some(agent), run, k).None?
  {
    hide CacheKey, Target, Trail, Decided, Next, After, Known;
    var key := HandleKey(env, agent, run[k].handle);
    CacheIff(env, agent, run, i, key);
    YesSucceeds(env, agent, After(env, Some(agent), run, i).cache, UnsealIntent(run[i]), run[i].reply.text);
    if At(env, Some(agent), run, i).None? {
      var j: nat :| j < i && StoresFor(env, agent, run, j, key) && Undisturbed(run, j + 1, i);
      assert Undisturbed(run, j + 1, k);
    } else {
      assert StoresFor(env, agent, run, i, key);
    }
    UnsealSilentIff(env, agent, run, k);
  }

  /** The modes a loaded configuration can give an agent. */
  predicate Loadable(a: Agent) { a.approvalMode.Some? ==> a.approvalMode.value in ["", "none", "deny", "prompt"] }

  /** The mode is "none", or nothing is said and approval is not required. */
  predicate Unguarded(a: Agent) {
    || a.approvalMode == Some("none")
    || ((a.approvalMode.None? || a.approvalMode.value == "") && a.requireApproval != Some(true))
  }

  /**
   * A run of calls passes unasked from first to last exactly when the agent is
   * unguarded, and then nothing is remembered, counted or recorded.
   */
  lemma {:induction false} UnguardedIff(env: Env, agent: Agent, run: seq<Event>)
    requires Loadable(agent) && run != [] && forall i | 0 <= i < |run| :: run[i].Call?
    ensures (forall k | 0 <= k < |run| :: At(env, Some(agent), run, k) == Some(Allowed)) <==> Unguarded(agent)
    ensures Unguarded(agent) ==> After(env, Some(agent), run, |run|) == State({}, 0, [])
  {
    assert At(env, Some(agent), run, 0).Some?;
    if Unguarded(agent) { UnguardedLeavesNothing(env, agent, run, |run|); }
  }

  lemma {:induction false} UnguardedLeavesNothing(env: Env, agent: Agent, run: seq<Event>, k: nat)
    requires Unguarded(agent) && k <= |run| && forall i | 0 <= i < |run| :: run[i].Call?
    ensures After(env, Some(agent), run, k) == State({}, 0, [])
  {
    hide Next;
    if k > 0 {
      UnguardedLeavesNothing(env, agent, run, k - 1);
      UnguardedStep(env, agent, State({}, 0, []), run[k - 1]);
    }
  }

  lemma {:induction false} UnguardedStep(env: Env, agent: Agent, st: State, e: Event)
    requires Unguarded(agent) && e.Call?
    ensures Next(env, Some(agent), st, e) == st
  {
    hide CacheKey, Answer;
    assert st.audit + [] == st.audit;
  }

  // ---------------------------------------------------------------- what is counted

  /** The decisions among the first `k` events that satisfy `p`. */
  ghost function CountOutcomes(env: Env, agent: Option<Agent>, run: seq<Event>, k: nat, p: Outcome -> bool): nat
    requires k <= |run|
  {
    if k == 0 then 0
    else
      var o := At(env, agent, run, k - 1);
      CountOutcomes(env, agent, run, k - 1, p) + (if o.Some? && p(o.value) then 1 else 0)
  }

  function CountSteps(audit: seq<AuditStep>, kind: StepKind): nat {
    if audit == [] then 0
    else CountSteps(audit[..|audit| - 1], kind) + (if audit[|audit| - 1].kind == kind then 1 else 0)
  }

  lemma {:induction false} CountOneMore(audit: seq<AuditStep>, step: AuditStep, kind: StepKind)
    ensures CountSteps(audit + [step], kind) == CountSteps(audit, kind) + (if step.kind == kind then 1 else 0)
  {
    assert (audit + [step])[..|audit|] == audit;
  }

  lemma {:induction false} CountConcat(a: seq<AuditStep>, b: seq<AuditStep>, kind: StepKind)
    ensures CountSteps(a + b, kind) == CountSteps(a, kind) + CountSteps(b, kind)
  {
    if b == [] {
      assert a + b == a;
    } else {
      var n := |b| - 1;
      assert (a + b)[..|a| + n] == a + b[..n];
      CountConcat(a, b[..n], kind);
    }
  }

  lemma {:induction false} CountTwo(a: AuditStep, b: AuditStep, kind: StepKind)
    ensures CountSteps([], kind) == 0
    ensures CountSteps([a], kind) == if a.kind == kind then 1 else 0
    ensures CountSteps([a, b], kind) == (if a.kind == kind then 1 else 0) + if b.kind == kind then 1 else 0
  {
    CountOneMore([], a, kind);
    CountOneMore([a], b, kind);
    assert [] + [a] == [a] && [a] + [b] == [a, b];
  }

  lemma {:induction false} TrailCounts(o: Outcome, intent: Intent, kind: StepKind)
    ensures kind == StepGranted ==> CountSteps(Trail(o, intent), kind) == if o.Granted? then 1 else 0
    ensures kind == StepRequested ==> CountSteps(Trail(o, intent), kind) == if Prompted(o) then 1 else 0
  {
    hide CountSteps;
    var requested := AuditStep(StepRequested, intent.action, intent.path);
    var denied := AuditStep(StepDenied, intent.action, intent.path);
    var remembered, granted := requested.(kind := StepRemembered), requested.(kind := StepGranted);
    CountTwo(denied, denied, kind);
    CountTwo(remembered, remembered, kind);
    CountTwo(requested, denied, kind);
    CountTwo(requested, granted, kind);
    CountTwo(requested, remembered, kind);
    CountOneMore([requested, remembered], granted, kind);
    match o
    case Granted(remember) =>
      assert Trail(o, intent) == if remember then [requested, remembered] + [granted] else [requested, granted];
    case Refused => assert Trail(o, intent) == [requested, denied];
    case _ =>
  }

  lemma {:induction false} StepCounts(env: Env, agent: Option<Agent>, st: State, e: Event)
    ensures var st', o := Next(env, agent, st, e), Outcomes(env, agent, st, e);
            && st'.counter == st.counter + (if o.Some? && o.value.Granted? then 1 else 0)
            && CountSteps(st'.audit, StepGranted)
                == CountSteps(st.audit, StepGranted) + (if o.Some? && o.value.Granted? then 1 else 0)
            && CountSteps(st'.audit, StepRequested)
                == CountSteps(st.audit, StepRequested) + (if o.Some? && Prompted(o.value) then 1 else 0)
  {
    hide CountSteps, Trail;
    var o := Outcomes(env, agent, st, e);
    if o.Some? && Asked(e).Some? {
      var intent := Asked(e).value;
      TrailCounts(o.value, intent, StepGranted);
      TrailCounts(o.value, intent, StepRequested);
      CountConcat(st.audit, Trail(o.value, intent), StepGranted);
      CountConcat(st.audit, Trail(o.value, intent), StepRequested);
      if e.Unseal? {
        var kind := if Succeeds(o.value) then UnsealRemembered else UnsealFailed;
        var more := AuditStep(kind, "secret_unseal", e.entryPath);
        CountOneMore(st.audit + Trail(o.value, intent), more, StepGranted);
        CountOneMore(st.audit + Trail(o.value, intent), more, StepRequested);
      }
    }
  }

  /** The counter is the number of granted prompts, and the audit log records each of them, and each prompt, once. */
  lemma {:induction false} CounterIsGrants(env: Env, agent: Option<Agent>, run: seq<Event>, k: nat)
    requires k <= |run|
    ensures var st := After(env, agent, run, k);
            && st.counter == CountOutcomes(env, agent, run, k, IsGrant)
            && CountSteps(st.audit, StepGranted) == st.counter
            && CountSteps(st.audit, StepRequested) == CountOutcomes(env, agent, run, k, Prompted)
  {
    hide Next, Outcomes, Trail;
    if k > 0 {
      CounterIsGrants(env, agent, run, k - 1);
      StepCounts(env, agent, After(env, agent, run, k - 1), run[k - 1]);
    }
  }
}

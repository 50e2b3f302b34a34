/**
 * Agent profiles: merging a profile from the configuration file over its base
 * and its tier, saving it, and loading it again.
 */
module AgentProfiles {
  import opened Wrappers

  type Lists = map<string, seq<string>>

  /** A profile in memory: optional fields, and lists and maps (nil and empty alike). */
  datatype Profile = Profile(
    name: string,
    tier: Option<string>,
    approvalMode: Option<string>,
    canWrite: Option<bool>,
    canRunCommands: Option<bool>,
    canManageConfig: Option<bool>,
    canUseClipboard: Option<bool>,
    canUseAutotype: Option<bool>,
    canReadValues: Option<bool>,
    requireApproval: Option<bool>,
    approvalTimeout: Option<int>,
    maxReadsPerHour: Option<int>,
    maxReadsPerDay: Option<int>,
    maxSecretsInSession: Option<int>,
    exposeValueTools: Option<bool>,
    autoUnseal: Option<bool>,
    promptInjectionMode: Option<string>,
    skillPath: Option<string>,
    skillVersion: Option<string>,
    allowedPaths: seq<string>,
    redactFields: seq<string>,
    allowedTools: seq<string>,
    allowedEnvVars: seq<string>,
    allowedExecutables: seq<string>,
    perToolRedactFields: Lists,
    dynamicProviders: Lists,
    preCallHooks: seq<string>,
    postCallHooks: seq<string>)

  /**
   * A field of a profile in the file: left out, an explicit null, a value under
   * its key, or a value whose key is not in the profile's own mapping, because
   * an alias or a merge key brought it there.
   */
  datatype Field<T> = Absent | Null | Given(value: T) | Keyless(value: T)

  predicate HasKey<T>(f: Field<T>) { f.Null? || f.Given? }

  predicate HasValue<T>(f: Field<T>) { f.Given? || f.Keyless? }

  datatype Yaml = Yaml(
    tier: Field<string>,
    approvalMode: Field<string>,
    canWrite: Field<bool>,
    canRunCommands: Field<bool>,
    canManageConfig: Field<bool>,
    canUseClipboard: Field<bool>,
    canUseAutotype: Field<bool>,
    canReadValues: Field<bool>,
    requireApproval: Field<bool>,
    approvalTimeout: Field<int>,
    maxReadsPerHour: Field<int>,
    maxReadsPerDay: Field<int>,
    maxSecretsInSession: Field<int>,
    exposeValueTools: Field<bool>,
    autoUnseal: Field<bool>,
    promptInjectionMode: Field<string>,
    skillPath: Field<string>,
    skillVersion: Field<string>,
    allowedPaths: Field<seq<string>>,
    redactFields: Field<seq<string>>,
    allowedTools: Field<seq<string>>,
    allowedEnvVars: Field<seq<string>>,
    allowedExecutables: Field<seq<string>>,
    perToolRedactFields: Field<Lists>,
    dynamicProviders: Field<Lists>,
    preCallHooks: Field<seq<string>>,
    postCallHooks: Field<seq<string>>)

  /** The zero value, from which agents without a built-in profile start. */
  const ZERO := Profile("", None, None, None, None, None, None, None, None, None, None, None, None, None, None, None,
                        None, None, None, [], [], [], [], [], map[], map[], [], [])

  /** A file's profile that says nothing. */
  const SILENT := Yaml(Absent, Absent, Absent, Absent, Absent, Absent, Absent, Absent, Absent, Absent, Absent, Absent,
                       Absent, Absent, Absent, Absent, Absent, Absent, Absent, Absent, Absent, Absent, Absent, Absent,
                       Absent, Absent, Absent)

  // ---------------------------------------------------------------- tiers

  /** `TierPresets`; fields a preset leaves nil are None. */
  function TierPreset(tier: string): Option<Profile> {
    if tier == "read-only" then
      Some(ZERO.(approvalMode := Some("deny"), requireApproval := Some(false),
                 canWrite := Some(false), canRunCommands := Some(false), canManageConfig := Some(false),
                 canUseClipboard := Some(false), canUseAutotype := Some(false), canReadValues := Some(false),
                 exposeValueTools := Some(false), autoUnseal := Some(false)))
    else if tier == "standard" then
      Some(ZERO.(approvalMode := Some("prompt"), requireApproval := Some(true),
                 canWrite := Some(false), canRunCommands := Some(false), canManageConfig := Some(false),
                 canUseClipboard := Some(true), canUseAutotype := Some(true), canReadValues := Some(true),
                 exposeValueTools := Some(false), autoUnseal := Some(false),
                 allowedExecutables := ["curl", "git", "terraform", "npm", "node", "python", "python3", "docker",
                                        "kubectl"]))
    else if tier == "admin" then
      Some(ZERO.(approvalMode := Some("prompt"), requireApproval := Some(true),
                 canWrite := Some(true), canRunCommands := Some(true), canManageConfig := Some(true),
                 canUseClipboard := Some(true), canUseAutotype := Some(true), canReadValues := Some(true),
                 exposeValueTools := Some(true), autoUnseal := Some(true)))
    else None
  }

  predicate Holds(o: Option<bool>) { o.Some? && o.value }

  /** A profile with the capabilities of a tier; anything else is kept. */
  function WithPreset(p: Profile, preset: Profile): Profile {
    p.(canWrite := Some(Holds(preset.canWrite)), canRunCommands := Some(Holds(preset.canRunCommands)),
       canManageConfig := Some(Holds(preset.canManageConfig)),
       canUseClipboard := Some(Holds(preset.canUseClipboard)),
       canUseAutotype := Some(Holds(preset.canUseAutotype)),
       canReadValues := Some(Holds(preset.canReadValues)),
       exposeValueTools := Some(Holds(preset.exposeValueTools)), autoUnseal := Some(Holds(preset.autoUnseal)),
       requireApproval := Some(Holds(preset.requireApproval)),
       approvalMode := if preset.approvalMode.Some? then preset.approvalMode else p.approvalMode,
       allowedExecutables := if preset.allowedExecutables != [] then preset.allowedExecutables
           else p.allowedExecutables)
  }

  /** `ApplyTierPreset`: the profile afterwards, and whether the tier is known. */
  method ApplyTierPreset(current: Profile, tier: string) returns (target: Profile, found: bool)
    ensures found <==> TierPreset(tier).Some?
    ensures target == if TierPreset(tier).Some? then WithPreset(current, TierPreset(tier).value) else current
  {
    hide TierPreset, Holds;
    target := current;
    if TierPreset(tier).None? { return target, false; }
    var preset := TierPreset(tier).value;
    target := target.(canWrite := Some(Holds(preset.canWrite)), canRunCommands := Some(Holds(preset.canRunCommands)),
                      canManageConfig := Some(Holds(preset.canManageConfig)),
                      canUseClipboard := Some(Holds(preset.canUseClipboard)),
                      canUseAutotype := Some(Holds(preset.canUseAutotype)),
                      canReadValues := Some(Holds(preset.canReadValues)),
                      exposeValueTools := Some(Holds(preset.exposeValueTools)),
                      autoUnseal := Some(Holds(preset.autoUnseal)));
    if preset.approvalMode.Some? { target := target.(approvalMode := preset.approvalMode); }
    target := target.(requireApproval := Some(Holds(preset.requireApproval)));
    if preset.allowedExecutables != [] { target := target.(allowedExecutables := preset.allowedExecutables); }
    return target, true;
  }

  // ---------------------------------------------------------------- merging

  /** `mergeBoolPtr`, `mergeIntPtr`, `mergeStringPtr`, `mergeDurationPtr` */
  function MergePtr<T>(dst: Option<T>, src: Field<T>): Option<T> { if HasValue(src) then Some(src.value) else dst }

  predicate KnownTier(y: Yaml) { y.tier.Given? && TierPreset(y.tier.value).Some? }

  /** The base with the tier's preset, when the file names a known tier. */
  function Tiered(base: Profile, y: Yaml): Profile {
    if KnownTier(y) then WithPreset(base, TierPreset(y.tier.value).value) else base
  }

  /** A tier counts only under its key. */
  function MergedTier(base: Profile, y: Yaml): Option<string> {
    if y.tier.Given? then Some(y.tier.value) else base.tier
  }

  function MergedMode(base: Profile, y: Yaml): Option<string> {
    match y.approvalMode
    case Given(mode) => Some(mode)
    case Null => None
    case Absent | Keyless(_) =>
      if y.requireApproval.Given? then Some(if y.requireApproval.value then "prompt" else "none")
      else Tiered(base, y).approvalMode
  }

  /** Without the key of a tier and without a word on it, value tools are exposed. */
  function MergedExposure(base: Profile, y: Yaml): Option<bool> {
    if HasValue(y.exposeValueTools) then Some(y.exposeValueTools.value)
    else if !HasKey(y.tier) && !HasKey(y.exposeValueTools) then Some(true)
    else Tiered(base, y).exposeValueTools
  }

  /** A list the file overrides; a null keeps it (`mergeStringSlice`). */
  function MergeList(dst: seq<string>, src: Field<seq<string>>): seq<string> { if src.Given? then src.value else dst }

  /** A list the file overrides; a null empties it. */
  function ResetList(dst: seq<string>, src: Field<seq<string>>): seq<string> {
    match src case Absent | Keyless(_) => dst case Null => [] case Given(v) => v
  }

  function ListOf(m: Lists, key: string): seq<string> { if key in m then m[key] else [] }

  function Appended(dst: Lists, src: Lists): Lists {
    map key | key in dst.Keys + src.Keys :: ListOf(dst, key) + ListOf(src, key)
  }

  /** The lists the file gives are appended, tool by tool; a null keeps what there is. */
  function AppendLists(dst: Lists, src: Field<Lists>): Lists { if src.Given? then Appended(dst, src.value) else dst }

  /** A map the file overrides; a null keeps it (`mergeStringSliceMap`). */
  function MergeMap(dst: Lists, src: Field<Lists>): Lists { if src.Given? then src.value else dst }

  /** What loading makes of the file's profile over its base; the hooks of the file are not looked at. */
  function Merged(base: Profile, name: string, y: Yaml): Profile {
    var b := Tiered(base, y);
    Profile(
      name,
      MergedTier(base, y),
      MergedMode(base, y),
      MergePtr(b.canWrite, y.canWrite),
      MergePtr(b.canRunCommands, y.canRunCommands),
      MergePtr(b.canManageConfig, y.canManageConfig),
      MergePtr(b.canUseClipboard, y.canUseClipboard),
      MergePtr(b.canUseAutotype, y.canUseAutotype),
      MergePtr(b.canReadValues, y.canReadValues),
      MergePtr(b.requireApproval, y.requireApproval),
      MergePtr(b.approvalTimeout, y.approvalTimeout),
      MergePtr(b.maxReadsPerHour, y.maxReadsPerHour),
      MergePtr(b.maxReadsPerDay, y.maxReadsPerDay),
      MergePtr(b.maxSecretsInSession, y.maxSecretsInSession),
      MergedExposure(base, y),
      MergePtr(b.autoUnseal, y.autoUnseal),
      MergePtr(b.promptInjectionMode, y.promptInjectionMode),
      MergePtr(b.skillPath, y.skillPath),
      MergePtr(b.skillVersion, y.skillVersion),
      ResetList(b.allowedPaths, y.allowedPaths),
      ResetList(b.redactFields, y.redactFields),
      MergeList(b.allowedTools, y.allowedTools),
      MergeList(b.allowedEnvVars, y.allowedEnvVars),
      MergeList(b.allowedExecutables, y.allowedExecutables),
      AppendLists(b.perToolRedactFields, y.perToolRedactFields),
      MergeMap(b.dynamicProviders, y.dynamicProviders),
      b.preCallHooks,
      b.postCallHooks)
  }

  /** The tier part of `mergeAgentProfile`, and the exposure of profiles that say nothing. */
  method MergeTier(base: Profile, name: string, y: Yaml) returns (current: Profile)
    ensures current == Tiered(base, y).(name := name, tier := MergedTier(base, y),
                                        exposeValueTools := current.exposeValueTools)
    ensures MergePtr(current.exposeValueTools, y.exposeValueTools) == MergedExposure(base, y)
  {
    hide TierPreset;
    current := base.(name := name);
    if HasKey(y.tier) && HasValue(y.tier) {
      var found;
      current, found := ApplyTierPreset(current, y.tier.value);
      current := current.(tier := Some(y.tier.value));
    }
    if !HasKey(y.tier) && !HasKey(y.exposeValueTools) {
      current := current.(exposeValueTools := Some(true));
    }
  }

  /** The approval part: the mode of the file, or what it says about requiring approval. */
  method MergeMode(mode: Option<string>, y: Yaml) returns (r: Option<string>)
    ensures forall base | Tiered(base, y).approvalMode == mode :: r == MergedMode(base, y)
  {
    hide Tiered;
    r := mode;
    if HasKey(y.approvalMode) {
      r := if HasValue(y.approvalMode) then Some(y.approvalMode.value) else None;
    } else if HasKey(y.requireApproval) && HasValue(y.requireApproval) {
      if y.requireApproval.value { r := Some("prompt"); } else { r := Some("none"); }
    }
  }

  /** The per-tool part: the file's lists are appended to those there, in any order of the tools. */
  method MergePerTool(dst: Lists, src: Field<Lists>) returns (r: Lists)
    ensures r == AppendLists(dst, src)
  {
    r := dst;
    if !HasKey(src) || !HasValue(src) { return; }
    var rest := src.value.Keys;
    while rest != {}
      invariant rest <= src.value.Keys && r.Keys == dst.Keys + (src.value.Keys - rest)
      invariant forall key | key in r ::
                  r[key] == if key in rest then ListOf(dst, key) else ListOf(dst, key) + ListOf(src.value, key)
      decreases rest
    {
      var tool :| tool in rest;
      r := r[tool := ListOf(r, tool) + src.value[tool]];
      rest := rest - {tool};
    }
  }

  /** `mergeAgentProfile` */
  method MergeAgentProfile(base: Profile, name: string, y: Yaml) returns (current: Profile)
    ensures current == Merged(base, name, y)
  {
    hide Tiered, MergePtr, MergeList, ResetList, AppendLists, MergeMap, MergedMode, MergedExposure, MergedTier;
    current := MergeTier(base, name, y);
    current := current.(allowedPaths := ResetList(current.allowedPaths, y.allowedPaths));
    current := current.(canWrite := MergePtr(current.canWrite, y.canWrite),
                         canRunCommands := MergePtr(current.canRunCommands, y.canRunCommands),
                         canManageConfig := MergePtr(current.canManageConfig, y.canManageConfig),
                         canUseClipboard := MergePtr(current.canUseClipboard, y.canUseClipboard),
                         canUseAutotype := MergePtr(current.canUseAutotype, y.canUseAutotype),
                         canReadValues := MergePtr(current.canReadValues, y.canReadValues),
                         requireApproval := MergePtr(current.requireApproval, y.requireApproval),
                         approvalTimeout := MergePtr(current.approvalTimeout, y.approvalTimeout));
    var mode := MergeMode(current.approvalMode, y);
    current := current.(approvalMode := mode);
    var perTool := MergePerTool(current.perToolRedactFields, y.perToolRedactFields);
    current := current.(redactFields := ResetList(current.redactFields, y.redactFields),
                         perToolRedactFields := perTool,
                         allowedTools := MergeList(current.allowedTools, y.allowedTools));
    current := current.(maxReadsPerHour := MergePtr(current.maxReadsPerHour, y.maxReadsPerHour),
                         maxReadsPerDay := MergePtr(current.maxReadsPerDay, y.maxReadsPerDay),
                         maxSecretsInSession := MergePtr(current.maxSecretsInSession, y.maxSecretsInSession),
                         exposeValueTools := MergePtr(current.exposeValueTools, y.exposeValueTools),
                         autoUnseal := MergePtr(current.autoUnseal, y.autoUnseal));
    current := current.(dynamicProviders := MergeMap(current.dynamicProviders, y.dynamicProviders),
                         allowedEnvVars := MergeList(current.allowedEnvVars, y.allowedEnvVars),
                         allowedExecutables := MergeList(current.allowedExecutables, y.allowedExecutables));
    current := current.(promptInjectionMode := MergePtr(current.promptInjectionMode, y.promptInjectionMode),
                         skillPath := MergePtr(current.skillPath, y.skillPath),
                         skillVersion := MergePtr(current.skillVersion, y.skillVersion));
  }

  /** Whatever the base and the tier, a value the file gives is the value loaded, field by field. */
  lemma {:induction false} FileWins(base: Profile, name: string, y: Yaml)
    ensures var p := Merged(base, name, y);
            && p.name == name && (y.tier.Given? ==> p.tier == Some(y.tier.value))
            && (y.approvalMode.Given? ==> p.approvalMode == Some(y.approvalMode.value))
            && (HasValue(y.canWrite) ==> p.canWrite == Some(y.canWrite.value))
            && (HasValue(y.canRunCommands) ==> p.canRunCommands == Some(y.canRunCommands.value))
            && (HasValue(y.canManageConfig) ==> p.canManageConfig == Some(y.canManageConfig.value))
            && (HasValue(y.canUseClipboard) ==> p.canUseClipboard == Some(y.canUseClipboard.value))
            && (HasValue(y.canUseAutotype) ==> p.canUseAutotype == Some(y.canUseAutotype.value))
            && (HasValue(y.canReadValues) ==> p.canReadValues == Some(y.canReadValues.value))
            && (HasValue(y.requireApproval) ==> p.requireApproval == Some(y.requireApproval.value))
            && (HasValue(y.approvalTimeout) ==> p.approvalTimeout == Some(y.approvalTimeout.value))
            && (HasValue(y.maxReadsPerHour) ==> p.maxReadsPerHour == Some(y.maxReadsPerHour.value))
            && (HasValue(y.maxReadsPerDay) ==> p.maxReadsPerDay == Some(y.maxReadsPerDay.value))
            && (HasValue(y.maxSecretsInSession) ==> p.maxSecretsInSession == Some(y.maxSecretsInSession.value))
            && (HasValue(y.exposeValueTools) ==> p.exposeValueTools == Some(y.exposeValueTools.value))
            && (HasValue(y.autoUnseal) ==> p.autoUnseal == Some(y.autoUnseal.value))
            && (HasValue(y.promptInjectionMode) ==> p.promptInjectionMode == Some(y.promptInjectionMode.value))
            && (HasValue(y.skillPath) ==> p.skillPath == Some(y.skillPath.value))
            && (HasValue(y.skillVersion) ==> p.skillVersion == Some(y.skillVersion.value))
            && (y.allowedPaths.Given? ==> p.allowedPaths == y.allowedPaths.value)
            && (y.redactFields.Given? ==> p.redactFields == y.redactFields.value)
            && (y.allowedTools.Given? ==> p.allowedTools == y.allowedTools.value)
            && (y.allowedEnvVars.Given? ==> p.allowedEnvVars == y.allowedEnvVars.value)
            && (y.allowedExecutables.Given? ==> p.allowedExecutables == y.allowedExecutables.value)
            && (y.dynamicProviders.Given? ==> p.dynamicProviders == y.dynamicProviders.value)
            && (y.perToolRedactFields.Given? ==> forall tool | tool in y.perToolRedactFields.value ::
                  tool in p.perToolRedactFields
                  && p.perToolRedactFields[tool]
                      == ListOf(base.perToolRedactFields, tool) + y.perToolRedactFields.value[tool])
  {
    hide TierPreset;
  }

  /** Where the file is silent, the base speaks, but for value tools, which are then exposed. */
  lemma {:induction false} SilentFileKeepsBase(base: Profile, name: string)
    ensures Merged(base, name, SILENT) == base.(name := name, exposeValueTools := Some(true))
  {
  }

  /**
   * What the tiers grant: writing, commands, the configuration, plain values and
   * unsealing to "admin" alone; the clipboard, typing and reading to all but
   * "read-only", which refuses what the others ask the user for.
   */
  lemma {:induction false} TierTable(tier: string)
    ensures TierPreset(tier).Some? <==> tier in {"read-only", "standard", "admin"}
    ensures TierPreset(tier).Some? ==>
              var p, admin, asks := TierPreset(tier).value, tier == "admin", tier != "read-only";
              && p.canWrite == Some(admin)
              && p.canRunCommands == Some(admin)
              && p.canManageConfig == Some(admin)
              && p.exposeValueTools == Some(admin)
              && p.autoUnseal == Some(admin)
              && p.canUseClipboard == Some(asks)
              && p.canUseAutotype == Some(asks)
              && p.canReadValues == Some(asks)
              && p.requireApproval == Some(asks)
              && p.approvalMode == Some(if asks then "prompt" else "deny")
              && p.allowedExecutables
                 == if tier != "standard" then []
                    else ["curl", "git", "terraform", "npm", "node", "python", "python3", "docker", "kubectl"]
  {
  }

  lemma {:induction false} TieredGrants(base: Profile, y: Yaml)
    requires y.tier.Given? && y.tier.value in {"read-only", "standard", "admin"}
    ensures var b, admin, asks := Tiered(base, y), y.tier.value == "admin", y.tier.value != "read-only";
            && b.canWrite == Some(admin)
            && b.canRunCommands == Some(admin)
            && b.canManageConfig == Some(admin)
            && b.exposeValueTools == Some(admin)
            && b.autoUnseal == Some(admin)
            && b.canUseClipboard == Some(asks)
            && b.canUseAutotype == Some(asks)
            && b.canReadValues == Some(asks)
            && b.requireApproval == Some(asks)
            && b.approvalMode == Some(if asks then "prompt" else "deny")
            && b.allowedExecutables
               == if y.tier.value != "standard" then base.allowedExecutables
                  else ["curl", "git", "terraform", "npm", "node", "python", "python3", "docker", "kubectl"]
  {
    TierTable(y.tier.value);
    hide TierPreset;
  }

  /** So does a file that names a tier and says nothing else. */
  lemma {:induction false} TierGrants(base: Profile, name: string, y: Yaml)
    requires y.tier.Given? && y.tier.value in {"read-only", "standard", "admin"}
    ensures var p, admin, asks := Merged(base, name, y), y.tier.value == "admin", y.tier.value != "read-only";
            && (!HasValue(y.canWrite) ==> p.canWrite == Some(admin))
            && (!HasValue(y.canRunCommands) ==> p.canRunCommands == Some(admin))
            && (!HasValue(y.canManageConfig) ==> p.canManageConfig == Some(admin))
            && (!HasValue(y.exposeValueTools) ==> p.exposeValueTools == Some(admin))
            && (!HasValue(y.autoUnseal) ==> p.autoUnseal == Some(admin))
            && (!HasValue(y.canUseClipboard) ==> p.canUseClipboard == Some(asks))
            && (!HasValue(y.canUseAutotype) ==> p.canUseAutotype == Some(asks))
            && (!HasValue(y.canReadValues) ==> p.canReadValues == Some(asks))
            && (!HasValue(y.requireApproval) ==> p.requireApproval == Some(asks))
            && (!HasKey(y.approvalMode) && !HasKey(y.requireApproval) ==>
                  p.approvalMode == Some(if asks then "prompt" else "deny"))
            && (y.tier.value == "standard" && !y.allowedExecutables.Given? ==>
                  p.allowedExecutables
                  == ["curl", "git", "terraform", "npm", "node", "python", "python3", "docker", "kubectl"])
            && (y.tier.value != "standard" && !y.allowedExecutables.Given? ==>
                  p.allowedExecutables == base.allowedExecutables)
  {
    hide Tiered, ResetList, AppendLists, MergeMap;
    TieredGrants(base, y);
  }

  /** An unknown tier is recorded and changes nothing else that a file without a tier would not. */
  lemma {:induction false} UnknownTierGrantsNothing(base: Profile, name: string, y: Yaml)
    requires y.tier.Given? && y.tier.value !in {"read-only", "standard", "admin"}
    ensures var p, q := Merged(base, name, y), Merged(base, name, y.(tier := Absent));
            p == q.(tier := Some(y.tier.value), exposeValueTools := p.exposeValueTools)
  {
    TierTable(y.tier.value);
    hide TierPreset, ResetList, AppendLists, MergeMap;
  }

  // ---------------------------------------------------------------- saving

  /** An optional field is written unless it is nil, a list or a map unless it is empty. */
  function SavedPtr<T>(o: Option<T>): Field<T> { match o case Some(v) => Given(v) case None => Absent }

  function SavedList(s: seq<string>): Field<seq<string>> { if s == [] then Absent else Given(s) }

  function SavedMap(m: Lists): Field<Lists> { if m == map[] then Absent else Given(m) }

  /** `copyAgentProfiles` and the YAML encoding with `omitempty`, read back field by field. */
  function Saved(p: Profile): Yaml {
    Yaml(
      SavedPtr(p.tier),
      SavedPtr(p.approvalMode),
      SavedPtr(p.canWrite),
      SavedPtr(p.canRunCommands),
      SavedPtr(p.canManageConfig),
      SavedPtr(p.canUseClipboard),
      SavedPtr(p.canUseAutotype),
      SavedPtr(p.canReadValues),
      SavedPtr(p.requireApproval),
      SavedPtr(p.approvalTimeout),
      SavedPtr(p.maxReadsPerHour),
      SavedPtr(p.maxReadsPerDay),
      SavedPtr(p.maxSecretsInSession),
      SavedPtr(p.exposeValueTools),
      SavedPtr(p.autoUnseal),
      SavedPtr(p.promptInjectionMode),
      SavedPtr(p.skillPath),
      SavedPtr(p.skillVersion),
      SavedList(p.allowedPaths),
      SavedList(p.redactFields),
      SavedList(p.allowedTools),
      SavedList(p.allowedEnvVars),
      SavedList(p.allowedExecutables),
      SavedMap(p.perToolRedactFields),
      SavedMap(p.dynamicProviders),
      SavedList(p.preCallHooks),
      SavedList(p.postCallHooks))
  }

  /** Every value a profile has is written, under its own key. */
  lemma {:induction false} SavedSays(p: Profile)
    ensures var y := Saved(p);
            && (p.tier.Some? ==> y.tier == Given(p.tier.value))
            && (p.approvalMode.Some? ==> y.approvalMode == Given(p.approvalMode.value))
            && (p.canWrite.Some? ==> y.canWrite == Given(p.canWrite.value))
            && (p.canRunCommands.Some? ==> y.canRunCommands == Given(p.canRunCommands.value))
            && (p.canManageConfig.Some? ==> y.canManageConfig == Given(p.canManageConfig.value))
            && (p.canUseClipboard.Some? ==> y.canUseClipboard == Given(p.canUseClipboard.value))
            && (p.canUseAutotype.Some? ==> y.canUseAutotype == Given(p.canUseAutotype.value))
            && (p.canReadValues.Some? ==> y.canReadValues == Given(p.canReadValues.value))
            && (p.requireApproval.Some? ==> y.requireApproval == Given(p.requireApproval.value))
            && (p.approvalTimeout.Some? ==> y.approvalTimeout == Given(p.approvalTimeout.value))
            && (p.maxReadsPerHour.Some? ==> y.maxReadsPerHour == Given(p.maxReadsPerHour.value))
            && (p.maxReadsPerDay.Some? ==> y.maxReadsPerDay == Given(p.maxReadsPerDay.value))
            && (p.maxSecretsInSession.Some? ==> y.maxSecretsInSession == Given(p.maxSecretsInSession.value))
            && (p.exposeValueTools.Some? ==> y.exposeValueTools == Given(p.exposeValueTools.value))
            && (p.autoUnseal.Some? ==> y.autoUnseal == Given(p.autoUnseal.value))
            && (p.promptInjectionMode.Some? ==> y.promptInjectionMode == Given(p.promptInjectionMode.value))
            && (p.skillPath.Some? ==> y.skillPath == Given(p.skillPath.value))
            && (p.skillVersion.Some? ==> y.skillVersion == Given(p.skillVersion.value))
            && (p.allowedPaths != [] ==> y.allowedPaths == Given(p.allowedPaths))
            && (p.redactFields != [] ==> y.redactFields == Given(p.redactFields))
            && (p.allowedTools != [] ==> y.allowedTools == Given(p.allowedTools))
            && (p.allowedEnvVars != [] ==> y.allowedEnvVars == Given(p.allowedEnvVars))
            && (p.allowedExecutables != [] ==> y.allowedExecutables == Given(p.allowedExecutables))
            && (p.perToolRedactFields != map[] ==> y.perToolRedactFields == Given(p.perToolRedactFields))
            && (p.dynamicProviders != map[] ==> y.dynamicProviders == Given(p.dynamicProviders))
  {
  }

  // ---------------------------------------------------------------- loading what was saved

  /** What is common to every profile a file's profile is merged over: the built-in ones and the zero one. */
  predicate IsBase(b: Profile) {
    && b.tier.None? && b.requireApproval.None?
    && b.allowedPaths == [] && b.redactFields == [] && b.allowedTools == []
    && b.allowedEnvVars == [] && b.allowedExecutables == []
    && b.perToolRedactFields == map[] && b.dynamicProviders == map[] && b.preCallHooks == [] && b.postCallHooks == []
  }

  function Reloaded(base: Profile, name: string, y: Yaml): Profile {
    Merged(base, name, Saved(Merged(base, name, y)))
  }

  /** A null tier or a null exposure, over a base that is silent on exposure, comes back as "exposed". */
  predicate LosesExposure(base: Profile, y: Yaml) {
    && base.exposeValueTools.None? && !HasValue(y.exposeValueTools) && !y.tier.Given?
    && (y.tier.Null? || y.exposeValueTools.Null?)
  }

  /** A null approval mode comes back as what the requirement, the tier or the base says. */
  predicate LosesNullMode(base: Profile, y: Yaml) {
    && y.approvalMode.Null?
    && (HasValue(y.requireApproval) || base.approvalMode.Some? || KnownTier(y))
  }

  /** A requirement without its key leaves the mode open at first, but is saved under its key, and then sets it. */
  predicate LosesOpenMode(base: Profile, y: Yaml) {
    && !HasKey(y.approvalMode) && y.requireApproval.Keyless?
    && base.approvalMode.None? && !KnownTier(y)
  }

  predicate LosesMode(base: Profile, y: Yaml) { LosesNullMode(base, y) || LosesOpenMode(base, y) }

  /** An explicitly empty list of executables comes back as the list of the standard tier. */
  predicate LosesExecutables(y: Yaml) {
    y.tier == Given("standard") && y.allowedExecutables == Given([])
  }

  lemma {:induction false} TierReloads(base: Profile, name: string, y: Yaml)
    requires IsBase(base)
    ensures Saved(Merged(base, name, y)).tier == if y.tier.Given? then y.tier else Absent
    ensures Tiered(base, Saved(Merged(base, name, y))) == Tiered(base, y)
  {
  }

  lemma {:induction false} PresetFields(base: Profile, y: Yaml)
    requires IsBase(base)
    ensures var b := Tiered(base, y);
            && b.allowedPaths == b.redactFields == b.allowedTools == b.allowedEnvVars == []
            && b.preCallHooks == b.postCallHooks == [] && b.perToolRedactFields == b.dynamicProviders == map[]
            && (b.allowedExecutables != [] <==> y.tier == Given("standard"))
            && (KnownTier(y) ==> b.approvalMode.Some? && b.requireApproval.Some? && b.exposeValueTools.Some?)
            && (!KnownTier(y) ==> b == base)
  {
  }

  lemma {:induction false} ModeReloadsIff(base: Profile, name: string, y: Yaml)
    requires IsBase(base)
    ensures Reloaded(base, name, y).approvalMode == Merged(base, name, y).approvalMode <==> !LosesMode(base, y)
  {
    hide Tiered, TierPreset;
    TierReloads(base, name, y);
    PresetFields(base, y);
  }

  lemma {:induction false} ExposureReloadsIff(base: Profile, name: string, y: Yaml)
    requires IsBase(base)
    ensures Reloaded(base, name, y).exposeValueTools == Merged(base, name, y).exposeValueTools
            <==> !LosesExposure(base, y)
  {
    hide Tiered, TierPreset;
    TierReloads(base, name, y);
    PresetFields(base, y);
  }

  lemma {:induction false} ListsReloadIff(base: Profile, name: string, y: Yaml)
    requires IsBase(base)
    ensures var p, q := Merged(base, name, y), Reloaded(base, name, y);
            && q.allowedPaths == p.allowedPaths && q.redactFields == p.redactFields
            && q.allowedTools == p.allowedTools && q.allowedEnvVars == p.allowedEnvVars
            && (q.allowedExecutables == p.allowedExecutables <==> !LosesExecutables(y))
  {
    hide Tiered, TierPreset;
    TierReloads(base, name, y);
    PresetFields(base, y);
  }

  lemma {:induction false} AppendToNothing(m: Lists)
    ensures Appended(map[], m) == m
  {
    forall key | key in m ensures Appended(map[], m)[key] == m[key] {
      assert [] + m[key] == m[key];
    }
  }

  lemma {:induction false} MapsReload(base: Profile, name: string, y: Yaml)
    requires IsBase(base)
    ensures var p, q := Merged(base, name, y), Reloaded(base, name, y);
            && q.perToolRedactFields == p.perToolRedactFields && q.dynamicProviders == p.dynamicProviders
            && q.preCallHooks == p.preCallHooks == [] && q.postCallHooks == p.postCallHooks == []
  {
    hide Tiered, TierPreset, Appended;
    TierReloads(base, name, y);
    PresetFields(base, y);
    AppendToNothing(Merged(base, name, y).perToolRedactFields);
    if y.perToolRedactFields.Given? { AppendToNothing(y.perToolRedactFields.value); }
  }

  /** Two profiles that agree in everything but the mode, the exposure and the executables. */
  predicate AgreeOtherwise(p: Profile, q: Profile) {
    p == q.(approvalMode := p.approvalMode, exposeValueTools := p.exposeValueTools,
            allowedExecutables := p.allowedExecutables)
  }

  lemma {:induction false} TierMerges(base: Profile, name: string, y: Yaml)
    requires IsBase(base)
    ensures Reloaded(base, name, y).tier == Merged(base, name, y).tier
  {
    hide Tiered, TierPreset;
  }

  lemma {:induction false} OthersReload(base: Profile, name: string, y: Yaml)
    requires IsBase(base)
    ensures AgreeOtherwise(Merged(base, name, y), Reloaded(base, name, y))
  {
    hide Tiered, TierPreset, MergedMode, MergedExposure, AppendLists, MergeMap, ResetList, MergeList, IsBase,
         MergedTier, SavedList, SavedMap, LosesExecutables;
    TierMerges(base, name, y);
    TierReloads(base, name, y);
    ListsReloadIff(base, name, y);
    MapsReload(base, name, y);
  }

  /** Loading a saved profile gives the profile that was saved, unless it falls under one of the four exceptions. */
  lemma {:induction false} ReloadStableIff(base: Profile, name: string, y: Yaml)
    requires IsBase(base)
    ensures Reloaded(base, name, y) == Merged(base, name, y)
       <==> !LosesMode(base, y) && !LosesExposure(base, y) && !LosesExecutables(y)
  {
    hide Merged, Reloaded, LosesMode, LosesExposure, LosesExecutables;
    OthersReload(base, name, y);
    ModeReloadsIff(base, name, y);
    ExposureReloadsIff(base, name, y);
    ListsReloadIff(base, name, y);
  }

  /**
   * Without explicit nulls, everything survives but an emptied executables list of
   * the standard tier, and a mode left open by a requirement without its key.
   */
  lemma {:induction false} NoNullsReload(base: Profile, name: string, y: Yaml)
    requires IsBase(base)
    requires !y.tier.Null? && !y.approvalMode.Null? && !y.exposeValueTools.Null?
    ensures var p, q := Merged(base, name, y), Reloaded(base, name, y);
            && q == p.(allowedExecutables := q.allowedExecutables, approvalMode := q.approvalMode)
            && (q.allowedExecutables == p.allowedExecutables <==> !LosesExecutables(y))
            && (q.approvalMode == p.approvalMode <==> !LosesOpenMode(base, y))
  {
    hide Merged, Reloaded;
    OthersReload(base, name, y);
    ModeReloadsIff(base, name, y);
    ExposureReloadsIff(base, name, y);
    ListsReloadIff(base, name, y);
  }

  /** From the first reload on, saving and loading change nothing any more. */
  lemma {:induction false} SettlesAfterOneReload(base: Profile, name: string, y: Yaml)
    requires IsBase(base)
    ensures Reloaded(base, name, Saved(Merged(base, name, y))) == Reloaded(base, name, y)
  {
    hide Merged, Reloaded;
    SavedIsSafe(base, Merged(base, name, y));
    ReloadStableIff(base, name, Saved(Merged(base, name, y)));
    assert Reloaded(base, name, y) == Merged(base, name, Saved(Merged(base, name, y))) by { ReloadedIs(base, name, y); }
  }

  lemma {:induction false} ReloadedIs(base: Profile, name: string, y: Yaml)
    ensures Reloaded(base, name, y) == Merged(base, name, Saved(Merged(base, name, y)))
  {
  }

  lemma {:induction false} SavedIsSafe(base: Profile, p: Profile)
    ensures !LosesMode(base, Saved(p)) && !LosesExposure(base, Saved(p)) && !LosesExecutables(Saved(p))
  {
  }

  // ---------------------------------------------------------------- profiles brought in by an alias

  function Unkeyed<T>(f: Field<T>): Field<T> { if HasValue(f) then Keyless(f.value) else Absent }

  /** What an alias of the profile `y` delivers: the values, without their keys. */
  function Alias(y: Yaml): Yaml {
    Yaml(
      Unkeyed(y.tier),
      Unkeyed(y.approvalMode),
      Unkeyed(y.canWrite),
      Unkeyed(y.canRunCommands),
      Unkeyed(y.canManageConfig),
      Unkeyed(y.canUseClipboard),
      Unkeyed(y.canUseAutotype),
      Unkeyed(y.canReadValues),
      Unkeyed(y.requireApproval),
      Unkeyed(y.approvalTimeout),
      Unkeyed(y.maxReadsPerHour),
      Unkeyed(y.maxReadsPerDay),
      Unkeyed(y.maxSecretsInSession),
      Unkeyed(y.exposeValueTools),
      Unkeyed(y.autoUnseal),
      Unkeyed(y.promptInjectionMode),
      Unkeyed(y.skillPath),
      Unkeyed(y.skillVersion),
      Unkeyed(y.allowedPaths),
      Unkeyed(y.redactFields),
      Unkeyed(y.allowedTools),
      Unkeyed(y.allowedEnvVars),
      Unkeyed(y.allowedExecutables),
      Unkeyed(y.perToolRedactFields),
      Unkeyed(y.dynamicProviders),
      Unkeyed(y.preCallHooks),
      Unkeyed(y.postCallHooks))
  }

  /** The mode an alias has, that of the base, is what the profile itself would set. */
  predicate ModeIsBase(base: Profile, y: Yaml) {
    match y.approvalMode
    case Given(mode) => base.approvalMode == Some(mode)
    case Null => base.approvalMode.None?
    case Absent | Keyless(_) =>
      y.requireApproval.Given? ==> base.approvalMode == Some(if y.requireApproval.value then "prompt" else "none")
  }

  predicate ExposureIsOpen(base: Profile, y: Yaml) {
    HasValue(y.exposeValueTools) || (!HasKey(y.tier) && !HasKey(y.exposeValueTools))
        || base.exposeValueTools == Some(true)
  }

  predicate NoList(f: Field<seq<string>>) { f.Given? ==> f.value == [] }

  predicate NoLists(f: Field<Lists>) { f.Given? ==> f.value == map[] }

  predicate NamesNoLists(y: Yaml) {
    && NoList(y.allowedPaths) && NoList(y.redactFields) && NoList(y.allowedTools)
    && NoList(y.allowedEnvVars) && NoList(y.allowedExecutables)
    && NoLists(y.perToolRedactFields) && NoLists(y.dynamicProviders)
  }

  /**
   * An alias of a profile loads like the profile itself if and only if this names
   * no tier and no list, sets the mode to that of the base, and does not close
   * value tools by a null.
   */
  lemma {:induction false} AliasLoadsAlikeIff(base: Profile, name: string, y: Yaml)
    requires IsBase(base)
    ensures Merged(base, name, Alias(y)) == Merged(base, name, y)
       <==> !y.tier.Given? && ModeIsBase(base, y) && ExposureIsOpen(base, y) && NamesNoLists(y)
  {
    hide Merged, Alias, ModeIsBase, ExposureIsOpen, NamesNoLists;
    if y.tier.Given? {
      AliasDropsTier(base, name, y);
    } else {
      AliasLists(base, name, y);
      AliasOthers(base, name, y);
    }
  }

  /** Without a tier of its own, what an alias changes is the mode, the exposure and the lists. */
  lemma {:induction false} AliasOthers(base: Profile, name: string, y: Yaml)
    requires IsBase(base) && !y.tier.Given?
    ensures var p, q := Merged(base, name, y), Merged(base, name, Alias(y));
            && q == p.(approvalMode := q.approvalMode, exposeValueTools := q.exposeValueTools,
                       allowedPaths := q.allowedPaths, redactFields := q.redactFields, allowedTools := q.allowedTools,
                       allowedEnvVars := q.allowedEnvVars, allowedExecutables := q.allowedExecutables,
                       perToolRedactFields := q.perToolRedactFields, dynamicProviders := q.dynamicProviders)
            && (q.approvalMode == p.approvalMode <==> ModeIsBase(base, y))
            && (q.exposeValueTools == p.exposeValueTools <==> ExposureIsOpen(base, y))
  {
    AliasModeIff(base, name, y);
    AliasExposureIff(base, name, y);
    hide TierPreset, WithPreset, ResetList, MergeList, AppendLists, MergeMap, Tiered, MergedMode, MergedExposure,
         ModeIsBase, ExposureIsOpen, IsBase;
    UntieredIsBase(base, y);
    UntieredIsBase(base, Alias(y));
  }

  lemma {:induction false} AliasModeIff(base: Profile, name: string, y: Yaml)
    requires IsBase(base) && !y.tier.Given?
    ensures Merged(base, name, Alias(y)).approvalMode == Merged(base, name, y).approvalMode <==> ModeIsBase(base, y)
  {
    hide TierPreset, WithPreset, ResetList, MergeList, AppendLists, MergeMap, Tiered, MergedExposure, MergePtr;
    UntieredIsBase(base, y);
    UntieredIsBase(base, Alias(y));
  }

  lemma {:induction false} AliasExposureIff(base: Profile, name: string, y: Yaml)
    requires IsBase(base) && !y.tier.Given?
    ensures Merged(base, name, Alias(y)).exposeValueTools == Merged(base, name, y).exposeValueTools
            <==> ExposureIsOpen(base, y)
  {
    hide TierPreset, WithPreset, ResetList, MergeList, AppendLists, MergeMap, Tiered, MergedMode, MergePtr;
    UntieredIsBase(base, y);
    UntieredIsBase(base, Alias(y));
  }

  lemma {:induction false} UntieredIsBase(base: Profile, y: Yaml)
    requires !y.tier.Given?
    ensures Tiered(base, y) == base
  {
  }

  lemma {:induction false} AliasLists(base: Profile, name: string, y: Yaml)
    requires IsBase(base) && !y.tier.Given?
    ensures var p, q := Merged(base, name, y), Merged(base, name, Alias(y));
            && q.allowedPaths == q.redactFields == q.allowedTools == q.allowedEnvVars == q.allowedExecutables == []
            && q.perToolRedactFields == q.dynamicProviders == map[]
            && (NamesNoLists(y) <==>
                  && p.allowedPaths == p.redactFields == p.allowedTools == p.allowedEnvVars == p.allowedExecutables
                      == []
                  && p.perToolRedactFields == p.dynamicProviders == map[])
  {
    hide TierPreset, WithPreset, Appended, MergedMode, MergedExposure, MergedTier, MergePtr;
    if y.perToolRedactFields.Given? { AppendToNothing(y.perToolRedactFields.value); }
  }

  /** An alias has no tier, and exposes value tools unless the profile says otherwise, whatever its tier would. */
  lemma {:induction false} AliasDropsTier(base: Profile, name: string, y: Yaml)
    requires IsBase(base)
    ensures var q := Merged(base, name, Alias(y));
            q.tier.None? && q.exposeValueTools == Some(HasValue(y.exposeValueTools) ==> y.exposeValueTools.value)
    ensures y.tier.Given? ==> Merged(base, name, y).tier == Some(y.tier.value)
  {
    hide TierPreset, WithPreset, ResetList, MergeList, AppendLists, MergeMap, MergePtr;
  }

  /**
   * A requirement reached through an alias, over a base without a mode, leaves the
   * mode open on the first load and sets it on the second.
   */
  lemma {:induction false} AliasedRequirementSetsModeLater(base: Profile, name: string, y: Yaml)
    requires IsBase(base) && base.approvalMode.None? && HasValue(y.requireApproval)
    ensures Merged(base, name, Alias(y)).approvalMode.None?
    ensures Reloaded(base, name, Alias(y)).approvalMode == Some(if y.requireApproval.value then "prompt" else "none")
  {
    hide TierPreset, WithPreset, ResetList, MergeList, AppendLists, MergeMap;
  }

  // ---------------------------------------------------------------- all agents of a configuration

  function NewDefault(name: string): Profile {
    ZERO.(name := name, canWrite := Some(false), canRunCommands := Some(false), approvalMode := Some("deny"),
          exposeValueTools := Some(true), autoUnseal := Some(true))
  }

  /** The profiles `builtinAgentProfiles` holds. */
  function Builtins(): map<string, Profile> {
    map["default" := NewDefault("default"),
        "claude-code" := NewDefault("claude-code").(canWrite := Some(true),
                                                    skillPath := Some("~/.claude/skills/openpass/SKILL.md")),
        "codex" := NewDefault("codex").(skillPath := Some("~/.codex/skills/openpass/AGENTS.md")),
        "hermes" := NewDefault("hermes").(canWrite := Some(true),
                                          skillPath := Some("~/.hermes/skills/openpass/SKILL.md")),
        "openclaw" := NewDefault("openclaw").(canWrite := Some(true),
                                              skillPath := Some("~/.openclaw/skills/openpass/SKILL.md")),
        "opencode" := NewDefault("opencode").(skillPath := Some("~/.opencode/skills/openpass/SKILL.md"))]
  }

  /** Agents nobody configured may not write, unless built in to, nor run commands, and every approval is denied. */
  lemma {:induction false} DefaultsHoldBack(name: string)
    ensures NewDefault(name) == ZERO.(name := name, canWrite := Some(false), canRunCommands := Some(false),
                                      approvalMode := Some("deny"), exposeValueTools := Some(true),
                                      autoUnseal := Some(true))
    ensures name in Builtins() <==> name in {"default", "claude-code", "codex", "hermes", "openclaw", "opencode"}
    ensures name in Builtins() ==>
              && Builtins()[name].canWrite == Some(name in {"claude-code", "hermes", "openclaw"})
              && Builtins()[name] == NewDefault(name).(canWrite := Builtins()[name].canWrite,
                                                       skillPath := Builtins()[name].skillPath)
  {
  }

  function BaseOf(name: string): Profile { if name in Builtins() then Builtins()[name] else ZERO }

  /** The agents after loading a file that lists `raw`. */
  function Loaded(raw: map<string, Yaml>, defaultAgent: string): map<string, Profile> {
    map name | name in raw.Keys + Builtins().Keys + {defaultAgent} ::
      if name in raw then Merged(BaseOf(name), name, raw[name])
      else if name in Builtins() then Builtins()[name]
      else NewDefault(name)
  }

  /** The built-in profiles with those of the file, but for `rest`, merged over them. */
  ghost predicate MergedBut(agents: map<string, Profile>, raw: map<string, Yaml>, rest: set<string>) {
    && agents.Keys == Builtins().Keys + (raw.Keys - rest)
    && forall n | n in agents ::
         agents[n] == if n in raw && n !in rest then Merged(BaseOf(n), n, raw[n]) else BaseOf(n)
  }

  lemma {:induction false} MergedOneMore(agents: map<string, Profile>, raw: map<string, Yaml>, rest: set<string>,
          name: string)
    requires rest <= raw.Keys && name in rest && MergedBut(agents, raw, rest)
    ensures (if name in agents then agents[name] else ZERO) == BaseOf(name)
    ensures MergedBut(agents[name := Merged(BaseOf(name), name, raw[name])], raw, rest - {name})
  {
    hide Merged, Builtins;
  }

  lemma {:induction false} NothingMerged(raw: map<string, Yaml>)
    ensures MergedBut(Builtins(), raw, raw.Keys)
  {
  }

  /** `mergeAgentProfiles`; the agents of the file may come in any order. */
  method MergeAgentProfiles(raw: map<string, Yaml>, defaultAgent: string) returns (agents: map<string, Profile>)
    ensures agents == Loaded(raw, defaultAgent)
  {
    hide Merged, Builtins, BaseOf, MergedBut;
    agents := Builtins();
    NothingMerged(raw);
    var rest := raw.Keys;
    while rest != {}
      invariant rest <= raw.Keys && MergedBut(agents, raw, rest)
      decreases rest
    {
      var name :| name in rest;
      MergedOneMore(agents, raw, rest, name);
      var p := MergeAgentProfile(if name in agents then agents[name] else ZERO, name, raw[name]);
      agents := agents[name := p];
      rest := rest - {name};
    }
    LoadedFromMerged(agents, raw, defaultAgent);
    agents := EnsureAgentDefaults(agents, defaultAgent);
  }

  predicate AllNamed(agents: map<string, Profile>) { forall n | n in agents :: agents[n].name == n }

  lemma {:induction false} LoadedFromMerged(agents: map<string, Profile>, raw: map<string, Yaml>, defaultAgent: string)
    requires MergedBut(agents, raw, {})
    ensures AllNamed(agents)
    ensures (if defaultAgent in agents then agents else agents[defaultAgent := NewDefault(defaultAgent)])
            == Loaded(raw, defaultAgent)
  {
    BuiltinsNamed();
    MergedNamed(raw);
    hide Merged, Builtins, NewDefault;
  }

  /** `ensureAgentDefaults` */
  method EnsureAgentDefaults(agents: map<string, Profile>, defaultAgent: string) returns (result: map<string, Profile>)
    requires AllNamed(agents)
    ensures result == if defaultAgent in agents then agents else agents[defaultAgent := NewDefault(defaultAgent)]
  {
    result := agents;
    var names := agents.Keys;
    while names != {}
      invariant names <= agents.Keys && result == agents
      decreases names
    {
      var name :| name in names;
      var profile := result[name];
      profile := profile.(name := name);
      result := result[name := profile];
      names := names - {name};
    }
    if defaultAgent !in result { result := result[defaultAgent := NewDefault(defaultAgent)]; }
  }

  lemma {:induction false} BuiltinsNamed()
    ensures forall n | n in Builtins() :: Builtins()[n].name == n
  {
  }

  lemma {:induction false} MergedNamed(raw: map<string, Yaml>)
    ensures forall n | n in raw :: Merged(BaseOf(n), n, raw[n]).name == n
  {
  }

  lemma {:induction false} BasesAreBases(name: string)
    ensures IsBase(BaseOf(name))
  {
  }

  /** Whatever hooks the file names, no loaded agent has any, so the next save drops them. */
  lemma {:induction false} HooksNeverLoad(raw: map<string, Yaml>, defaultAgent: string, name: string)
    requires name in Loaded(raw, defaultAgent)
    ensures var p := Loaded(raw, defaultAgent)[name]; p.preCallHooks == p.postCallHooks == []
    ensures Saved(Loaded(raw, defaultAgent)[name]).preCallHooks.Absent?
            && Saved(Loaded(raw, defaultAgent)[name]).postCallHooks.Absent?
  {
    hide TierPreset;
    BasesAreBases(name);
    if name in raw {
      MapsReload(BaseOf(name), name, raw[name]);
    }
  }

  function SavedAll(agents: map<string, Profile>): map<string, Yaml> {
    map name | name in agents :: Saved(agents[name])
  }

  predicate StableEntry(name: string, y: Yaml) {
    !LosesMode(BaseOf(name), y) && !LosesExposure(BaseOf(name), y) && !LosesExecutables(y)
  }

  /** A base that is open about exposure, saved and merged over itself, is itself. */
  lemma {:induction false} BaseReloads(b: Profile)
    requires IsBase(b) && b.exposeValueTools.Some?
    ensures Merged(b, b.name, Saved(b)) == b
  {
    hide TierPreset, WithPreset;
  }

  lemma {:induction false} BuiltinIsOpen(name: string)
    requires name in Builtins()
    ensures Builtins()[name].exposeValueTools.Some? && Builtins()[name].name == name
  {
  }

  lemma {:induction false} NewDefaultReloads(name: string)
    ensures Merged(ZERO, name, Saved(NewDefault(name))) == NewDefault(name)
  {
    hide TierPreset, WithPreset;
  }

  /** Profiles nobody configured come back as they were. */
  lemma {:induction false} DefaultsReload(name: string)
    ensures name in Builtins() ==> Merged(BaseOf(name), name, Saved(Builtins()[name])) == Builtins()[name]
    ensures name !in Builtins() ==> Merged(BaseOf(name), name, Saved(NewDefault(name))) == NewDefault(name)
  {
    hide Merged, Saved, Builtins, NewDefault, IsBase;
    if name in Builtins() {
      BasesAreBases(name);
      BuiltinIsOpen(name);
      BaseReloads(Builtins()[name]);
    } else {
      NewDefaultReloads(name);
    }
  }

  /**
   * Load, save, load gives the agents of the first load exactly when no profile of
   * the file is one of the exceptions.
   */
  lemma {:induction false} AgentsReloadIff(raw: map<string, Yaml>, defaultAgent: string)
    ensures var agents := Loaded(raw, defaultAgent);
            Loaded(SavedAll(agents), defaultAgent) == agents
            <==> forall name | name in raw :: StableEntry(name, raw[name])
  {
    hide Merged, Saved, Builtins, BaseOf, NewDefault, LosesMode, LosesExposure, LosesExecutables;
    var agents := Loaded(raw, defaultAgent);
    var again := Loaded(SavedAll(agents), defaultAgent);
    assert again.Keys == agents.Keys;
    forall name | name in agents
      ensures again[name] == agents[name] <==> (name in raw ==> StableEntry(name, raw[name]))
    {
      if name in raw {
        BasesAreBases(name);
        ReloadedIs(BaseOf(name), name, raw[name]);
        ReloadStableIff(BaseOf(name), name, raw[name]);
      } else {
        DefaultsReload(name);
      }
    }
    assert forall name | name in raw :: name in agents;
  }

  // ---------------------------------------------------------------- validation

  /** What `validateAgents` accepts. */
  predicate ValidProfile(p: Profile) {
    && (p.approvalMode.Some? ==> p.approvalMode.value in ["", "none", "deny", "prompt"])
    && (p.promptInjectionMode.Some? ==> p.promptInjectionMode.value in ["", "off", "log-only", "wrap", "deny"])
  }

  /**
   * Whatever tier a file names, and whether or not it asks for approval, only a mode
   * it spells out itself can be refused.
   */
  lemma {:induction false} TiersAndBasesAreValid(name: string, y: Yaml)
    requires !y.approvalMode.Given? && !HasValue(y.promptInjectionMode)
    ensures ValidProfile(BaseOf(name)) && ValidProfile(NewDefault(name)) && ValidProfile(Merged(BaseOf(name), name, y))
  {
    if y.tier.Given? { TierTable(y.tier.value); }
    hide TierPreset;
  }

  /**
   * A mode is valid if it is empty, "none", "deny" or "prompt", and so is a reaction
   * to injected prompts if it is one of these.
   */
  lemma {:induction false} ValidModes(base: Profile, name: string, y: Yaml)
    requires y.approvalMode.Given? && y.promptInjectionMode.Given?
    ensures ValidProfile(Merged(base, name, y)) <==>
              && y.approvalMode.value in {"", "none", "deny", "prompt"}
              && y.promptInjectionMode.value in {"", "off", "log-only", "wrap", "deny"}
  {
    hide TierPreset;
  }

  /** A file written from valid agents loads without a validation error. */
  lemma {:induction false} ReloadStaysValid(base: Profile, name: string, y: Yaml)
    requires IsBase(base) && ValidProfile(base) && ValidProfile(Merged(base, name, y))
    ensures ValidProfile(Reloaded(base, name, y))
  {
    TierReloads(base, name, y);
  }
}

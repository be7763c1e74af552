/** The config-mutating calls: what each does to the document under the store's
    lock, and the rules of the document every one of them keeps. */
module ConfigOps {
  import opened Options
  import opened ConfigModel
  import opened SidecarTable

  /** The regular-expression library and the built-in sidecar table. */
  datatype Env = Env(lang: Language, defaults: seq<SidecarEntry>)

  datatype Status = BadRequest | NotFound | Conflict | BadMask

  /** One call, as its closure runs. A mask is the field-mask merge of the
      request onto the stored resource; None is an empty or unknown mask. */
  datatype Op =
    | CreateAgent(agent: Agent)
    | UpdateAgent(agentSlug: string, agentPatch: Agent, agentMask: Agent -> Option<Agent>, allowMissing: bool)
    | DeleteAgent(agentSlug: string)
    | SetLogLevel(agentSlug: string, level: string)
    | CreateScanDirectory(directory: ScanDirectory)
    | UpdateScanDirectory(scannerSlug: string, directoryPatch: ScanDirectory,
                          directoryMask: ScanDirectory -> Option<ScanDirectory>, allowMissing: bool)
    | DeleteScanDirectory(scannerSlug: string)
    | CreateSidecarType(minted: string, entry: SidecarEntry)
    | UpdateSidecarType(id: string, entryMask: SidecarEntry -> Option<SidecarEntry>)
    | DeleteSidecarType(id: string)
    | ReorderSidecarTypes(orders: map<string, int>)
    | ResetSidecarTypes
    | CreateSonarr(instance: SonarrInstance)
    | UpdateSonarr(sonarrSlug: string, sonarrPatch: SonarrInstance, sonarrMask: SonarrInstance -> Option<SonarrInstance>,
                   allowMissing: bool)
    | DeleteSonarr(sonarrSlug: string)
    | UpdateScannerConfig(parallelMask: int -> Option<int>)
    | UpdateAdmin(username: Option<string>, email: Option<string>, scheme: Option<AuthScheme>, credential: Option<string>)
    | UpdateLogging(levelMask: string -> Option<string>)
    | UpdateEventBus(busMask: EventBusSettings -> Option<EventBusSettings>)
    | RotateSecret(secret: string)

  type Outcome = Result<Config, Status>

  const DIRECTORY_TYPES: seq<string> := ["movie", "tv", "music_video"]

  predicate ValidSlug(slug: string) {
    0 < |slug| <= 63 && forall c :: c in slug ==> 'a' <= c <= 'z' || '0' <= c <= '9' || c == '-' || c == '_'
  }

  function Without<T>(s: seq<T>, i: nat): (r: seq<T>)
    requires i < |s|
    ensures |r| == |s| - 1
    ensures forall j :: 0 <= j < |r| ==> r[j] == if j < i then s[j] else s[j + 1]
  {
    s[..i] + s[i + 1..]
  }

  // ---------------------------------------------------------------------
  // Agents
  // ---------------------------------------------------------------------

  /** The first mapping that could not work, as the checking loop meets it. */
  function MappingFault(cfg: Config, slug: string, mappings: seq<Mapping>): Option<Status>
    decreases |mappings|
  {
    if mappings == [] then None
    else
      var init, last := mappings[..|mappings| - 1], mappings[|mappings| - 1];
      var earlier := MappingFault(cfg, slug, init);
      if earlier.Some? then earlier
      else if last.scannerSlug !in ScannerSlugs(cfg.scanDirectories) then Some(BadRequest)
      else if last.scannerSlug in MappedSlugs(init) then Some(BadRequest)
      else
        var owner := AgentForScanner(cfg.agents, last.scannerSlug);
        if owner.Some? && owner.value.slug != slug then Some(Conflict) else None
  }

  function WithNewAgent(cfg: Config, entry: Agent): Outcome {
    if !ValidSlug(entry.slug) then Err(BadRequest)
    else if entry.slug in AgentSlugs(cfg.agents) then Err(Conflict)
    else
      match MappingFault(cfg, entry.slug, entry.mappings)
      case Some(status) => Err(status)
      case None => Ok(cfg.(agents := cfg.agents + [entry]))
  }

  function WithUpdatedAgent(cfg: Config, slug: string, patch: Agent, mask: Agent -> Option<Agent>, allowMissing: bool)
    : Outcome
  {
    var index := IndexOf(AgentSlugs(cfg.agents), slug);
    if index == |cfg.agents| then
      if allowMissing then WithNewAgent(cfg, patch) else Err(NotFound)
    else
      match mask(cfg.agents[index])
      case None => Err(BadMask)
      case Some(masked) =>
        var merged := masked.(slug := slug);
        match MappingFault(cfg, slug, merged.mappings)
        case Some(status) => Err(status)
        case None => Ok(cfg.(agents := cfg.agents[index := merged]))
  }

  function WithoutAgent(cfg: Config, slug: string): Outcome {
    var index := IndexOf(AgentSlugs(cfg.agents), slug);
    if index == |cfg.agents| then Err(NotFound) else Ok(cfg.(agents := Without(cfg.agents, index)))
  }

  function WithLogLevel(cfg: Config, slug: string, level: string): Outcome {
    var index := IndexOf(AgentSlugs(cfg.agents), slug);
    if level != "info" && level != "debug" then Err(BadRequest)
    else if index < |cfg.agents| then Ok(cfg.(agents := cfg.agents[index := cfg.agents[index].(logLevel := level)]))
    else Ok(cfg.(agents := cfg.agents + [Agent(slug, "", level, [])]))
  }

  // ---------------------------------------------------------------------
  // Scan directories and sidecar types
  // ---------------------------------------------------------------------

  predicate ValidDirectory(d: ScanDirectory) {
    d.scannerSlug != "" && d.scanType in DIRECTORY_TYPES
  }

  function WithNewDirectory(cfg: Config, d: ScanDirectory): Outcome {
    if !ValidDirectory(d) then Err(BadRequest)
    else if d.scannerSlug in ScannerSlugs(cfg.scanDirectories) then Err(Conflict)
    else Ok(cfg.(scanDirectories := cfg.scanDirectories + [d]))
  }

  function WithUpdatedDirectory(cfg: Config, slug: string, patch: ScanDirectory, mask: ScanDirectory -> Option<ScanDirectory>,
                                allowMissing: bool): Outcome
  {
    var index := IndexOf(ScannerSlugs(cfg.scanDirectories), slug);
    if index == |cfg.scanDirectories| then
      if allowMissing then WithNewDirectory(cfg, patch) else Err(NotFound)
    else
      match mask(cfg.scanDirectories[index])
      case None => Err(BadMask)
      case Some(masked) =>
        var merged := masked.(scannerSlug := slug);
        if !ValidDirectory(merged) then Err(BadRequest)
        else Ok(cfg.(scanDirectories := cfg.scanDirectories[index := merged]))
  }

  function WithoutDirectory(cfg: Config, slug: string): Outcome {
    var index := IndexOf(ScannerSlugs(cfg.scanDirectories), slug);
    if index == |cfg.scanDirectories| then Err(NotFound)
    else Ok(cfg.(scanDirectories := Without(cfg.scanDirectories, index)))
  }

  /** A table the registry compiles; an empty one stands for the built-ins. */
  predicate Accepted(env: Env, table: seq<SidecarEntry>) {
    Compilable(env.lang, if table == [] then env.defaults else table)
  }

  predicate ValidEntry(e: SidecarEntry) {
    e.typeName != "" && e.category in CATEGORIES
  }

  function WithTable(env: Env, cfg: Config, table: seq<SidecarEntry>): Outcome {
    if Accepted(env, table) then Ok(cfg.(sidecarTypes := table)) else Err(BadRequest)
  }

  function WithNewEntry(env: Env, cfg: Config, minted: string, e: SidecarEntry): Outcome {
    if e.id != "" || e.order != 0 || !ValidEntry(e) then Err(BadRequest)
    else WithTable(env, cfg, cfg.sidecarTypes + [e.(id := minted)])
  }

  function WithUpdatedEntry(env: Env, cfg: Config, id: string, mask: SidecarEntry -> Option<SidecarEntry>): Outcome {
    var index := IndexOf(SidecarIds(cfg.sidecarTypes), id);
    if index == |cfg.sidecarTypes| then Err(NotFound)
    else
      match mask(cfg.sidecarTypes[index])
      case None => Err(BadMask)
      case Some(masked) =>
        var merged := masked.(id := id, order := cfg.sidecarTypes[index].order);
        if !ValidEntry(merged) then Err(BadRequest)
        else WithTable(env, cfg, cfg.sidecarTypes[index := merged])
  }

  function WithoutEntry(cfg: Config, id: string): Outcome {
    var index := IndexOf(SidecarIds(cfg.sidecarTypes), id);
    if index == |cfg.sidecarTypes| then Err(NotFound)
    else Ok(cfg.(sidecarTypes := Without(cfg.sidecarTypes, index)))
  }

  function Reordered(table: seq<SidecarEntry>, orders: map<string, int>): (r: seq<SidecarEntry>)
    requires forall i :: 0 <= i < |table| ==> table[i].id in orders
    ensures |r| == |table|
    ensures forall i :: 0 <= i < |r| ==> r[i] == table[i].(order := orders[table[i].id])
  {
    seq(|table|, i requires 0 <= i < |table| => table[i].(order := orders[table[i].id]))
  }

  predicate NamesEveryEntry(table: seq<SidecarEntry>, orders: map<string, int>) {
    forall i :: 0 <= i < |table| ==> table[i].id in orders
  }

  function WithOrders(env: Env, cfg: Config, orders: map<string, int>): Outcome {
    if !NamesEveryEntry(cfg.sidecarTypes, orders) then Err(BadRequest)
    else if exists id :: id in orders && id !in SidecarIds(cfg.sidecarTypes) then Err(BadRequest)
    else WithTable(env, cfg, Reordered(cfg.sidecarTypes, orders))
  }

  // ---------------------------------------------------------------------
  // Sonarr instances and the scalar sections
  // ---------------------------------------------------------------------

  function WithStorage(s: SonarrInstance): SonarrInstance {
    if s.storage.None? then s.(storage := Some("")) else s
  }

  function WithNewSonarr(cfg: Config, s: SonarrInstance): Outcome {
    if s.slug == "" then Err(BadRequest)
    else if s.slug in SonarrSlugs(cfg.sonarr) then Err(Conflict)
    else Ok(cfg.(sonarr := cfg.sonarr + [WithStorage(s)]))
  }

  function WithUpdatedSonarr(cfg: Config, slug: string, patch: SonarrInstance, mask: SonarrInstance -> Option<SonarrInstance>,
                             allowMissing: bool): Outcome
  {
    var index := IndexOf(SonarrSlugs(cfg.sonarr), slug);
    if index == |cfg.sonarr| then
      if allowMissing then WithNewSonarr(cfg, patch) else Err(NotFound)
    else
      match mask(cfg.sonarr[index])
      case None => Err(BadMask)
      case Some(masked) =>
        if slug == "" then Err(BadRequest)
        else Ok(cfg.(sonarr := cfg.sonarr[index := WithStorage(masked.(slug := slug))]))
  }

  function WithoutSonarr(cfg: Config, slug: string): Outcome {
    var index := IndexOf(SonarrSlugs(cfg.sonarr), slug);
    if index == |cfg.sonarr| then Err(NotFound) else Ok(cfg.(sonarr := Without(cfg.sonarr, index)))
  }

  predicate ValidBus(c: EventBusSettings) {
    c.maxLen > 0 && c.retentionHours >= 1 && c.retryAttempts >= 0 && c.retryBackoffBaseMs >= 1 &&
    c.retryBackoffMaxMs >= c.retryBackoffBaseMs
  }

  function WithAdmin(cfg: Config, username: Option<string>, email: Option<string>, scheme: Option<AuthScheme>,
                     credential: Option<string>): Outcome
  {
    if username == Some("") || email == Some("") || scheme == Some(Unspecified) then Err(BadRequest)
    else if username.None? && email.None? && scheme.None? && credential.None? then Err(BadMask)
    else
      var a := cfg.admin;
      Ok(cfg.(admin := Admin(
        if username.Some? then username.value else a.username,
        if email.Some? then email.value else a.email,
        if credential.Some? then credential.value else a.credential,
        if scheme.Some? then scheme.value else a.scheme)))
  }

  function WithParallelCount(cfg: Config, mask: int -> Option<int>): Outcome {
    match mask(cfg.parallelCount)
    case None => Err(BadMask)
    case Some(count) => if count <= 0 then Err(BadRequest) else Ok(cfg.(parallelCount := count))
  }

  function WithServerLevel(cfg: Config, mask: string -> Option<string>): Outcome {
    match mask(cfg.serverLevel)
    case None => Err(BadMask)
    case Some(level) =>
      if level != "info" && level != "debug" then Err(BadRequest) else Ok(cfg.(serverLevel := level))
  }

  function WithEventBus(cfg: Config, mask: EventBusSettings -> Option<EventBusSettings>): Outcome {
    match mask(cfg.eventBus)
    case None => Err(BadMask)
    case Some(bus) => if !ValidBus(bus) then Err(BadRequest) else Ok(cfg.(eventBus := bus))
  }

  /** What one call makes of the document it read, or why it is refused. */
  function Applied(env: Env, op: Op, cfg: Config): Outcome {
    match op
    case CreateAgent(agent) => WithNewAgent(cfg, agent)
    case UpdateAgent(slug, patch, mask, allowMissing) => WithUpdatedAgent(cfg, slug, patch, mask, allowMissing)
    case DeleteAgent(slug) => WithoutAgent(cfg, slug)
    case SetLogLevel(slug, level) => WithLogLevel(cfg, slug, level)
    case CreateScanDirectory(d) => WithNewDirectory(cfg, d)
    case UpdateScanDirectory(slug, patch, mask, allowMissing) => WithUpdatedDirectory(cfg, slug, patch, mask, allowMissing)
    case DeleteScanDirectory(slug) => WithoutDirectory(cfg, slug)
    case CreateSidecarType(minted, e) => WithNewEntry(env, cfg, minted, e)
    case UpdateSidecarType(id, mask) => WithUpdatedEntry(env, cfg, id, mask)
    case DeleteSidecarType(id) => WithoutEntry(cfg, id)
    case ReorderSidecarTypes(orders) => WithOrders(env, cfg, orders)
    case ResetSidecarTypes => Ok(cfg.(sidecarTypes := env.defaults))
    case CreateSonarr(s) => WithNewSonarr(cfg, s)
    case UpdateSonarr(slug, patch, mask, allowMissing) => WithUpdatedSonarr(cfg, slug, patch, mask, allowMissing)
    case DeleteSonarr(slug) => WithoutSonarr(cfg, slug)
    case UpdateScannerConfig(mask) => WithParallelCount(cfg, mask)
    case UpdateAdmin(username, email, scheme, credential) => WithAdmin(cfg, username, email, scheme, credential)
    case UpdateLogging(mask) => WithServerLevel(cfg, mask)
    case UpdateEventBus(mask) => WithEventBus(cfg, mask)
    case RotateSecret(secret) => Ok(cfg.(hmacSecret := secret))
  }

  // ---------------------------------------------------------------------
  // The rules of the document
  // ---------------------------------------------------------------------

  ghost predicate AgentsAreSound(agents: seq<Agent>) {
    Distinct(AgentSlugs(agents)) && OwnersAreUnique(agents)
  }

  /** Slugs are unique, no scan directory has two agents, the table compiles. */
  ghost predicate Valid(env: Env, cfg: Config) {
    && AgentsAreSound(cfg.agents)
    && Distinct(ScannerSlugs(cfg.scanDirectories))
    && Distinct(SonarrSlugs(cfg.sonarr))
    && Accepted(env, cfg.sidecarTypes)
  }

  /** Nothing for Normalize to fill. */
  predicate Normal(cfg: Config) {
    cfg.admin.scheme != Unspecified && forall i :: 0 <= i < |cfg.sonarr| ==> cfg.sonarr[i].storage.Some?
  }

  function Stored(sonarr: seq<SonarrInstance>): (r: seq<SonarrInstance>)
    ensures |r| == |sonarr| && forall i :: 0 <= i < |r| ==> r[i] == WithStorage(sonarr[i])
  {
    seq(|sonarr|, i requires 0 <= i < |sonarr| => WithStorage(sonarr[i]))
  }

  function Normalize(cfg: Config): (r: Config)
    ensures Normal(r)
  {
    cfg.(admin := if cfg.admin.scheme == Unspecified then cfg.admin.(scheme := NoAuth) else cfg.admin,
         sonarr := Stored(cfg.sonarr))
  }

  lemma NormalizeIsStable(cfg: Config)
    requires Normal(cfg)
    ensures Normalize(cfg) == cfg
  {
    assert Stored(cfg.sonarr) == cfg.sonarr;
  }

  lemma NormalizeKeepsValid(env: Env, cfg: Config)
    requires Valid(env, cfg)
    ensures Valid(env, Normalize(cfg))
  {
    assert SonarrSlugs(Stored(cfg.sonarr)) == SonarrSlugs(cfg.sonarr);
  }

  // ---------------------------------------------------------------------
  // Every call keeps them: agents
  // ---------------------------------------------------------------------

  lemma MissingKey(keys: seq<string>, key: string)
    ensures IndexOf(keys, key) == |keys| <==> key !in keys
  {
  }

  /** A directory an agent of that slug may map: it exists, and nobody else has it. */
  predicate MappingFits(cfg: Config, slug: string, scannerSlug: string) {
    && scannerSlug in ScannerSlugs(cfg.scanDirectories)
    && var owner := AgentForScanner(cfg.agents, scannerSlug); owner.None? || owner.value.slug == slug
  }

  /** A fault-free mapping list is exactly one that could work. */
  lemma {:induction false} FaultFree(cfg: Config, slug: string, mappings: seq<Mapping>)
    ensures MappingFault(cfg, slug, mappings).None? <==>
      Distinct(MappedSlugs(mappings)) && (forall m :: m in MappedSlugs(mappings) ==> MappingFits(cfg, slug, m))
    decreases |mappings|
  {
    if mappings != [] {
      var n := |mappings| - 1;
      FaultFree(cfg, slug, mappings[..n]);
      var last := mappings[n].scannerSlug;
      assert MappedSlugs(mappings) == MappedSlugs(mappings[..n]) + [last];
      DistinctAppend(MappedSlugs(mappings[..n]), last);
      assert forall m :: m in MappedSlugs(mappings) <==> m in MappedSlugs(mappings[..n]) || m == last;
    }
  }

  lemma DistinctAppend(keys: seq<string>, key: string)
    ensures Distinct(keys + [key]) <==> Distinct(keys) && key !in keys
  {
    var next := keys + [key];
    assert forall i :: 0 <= i < |keys| ==> next[i] == keys[i];
    assert next[|keys|] == key;
    if key in keys {
      var i :| 0 <= i < |keys| && keys[i] == key;
      assert next[i] == next[|keys|];
    }
  }

  // No agent but the one of that slug already maps what a fault-free entry maps.
  lemma OthersDoNotMap(cfg: Config, slug: string, mappings: seq<Mapping>, k: nat, m: string)
    requires AgentsAreSound(cfg.agents) && k < |cfg.agents| && cfg.agents[k].slug != slug
    requires MappingFault(cfg, slug, mappings).None? && m in MappedSlugs(mappings)
    ensures !Maps(cfg.agents[k], m)
  {
    FaultFree(cfg, slug, mappings);
    assert MappingFits(cfg, slug, m);
    if Maps(cfg.agents[k], m) {
      FirstOwnerIsTheOnlyOne(cfg.agents, k, m);
    }
  }

  lemma NewAgentIsSound(cfg: Config, entry: Agent)
    requires AgentsAreSound(cfg.agents) && entry.slug !in AgentSlugs(cfg.agents)
    requires MappingFault(cfg, entry.slug, entry.mappings).None?
    ensures AgentsAreSound(cfg.agents + [entry])
  {
    var next := cfg.agents + [entry];
    assert AgentSlugs(next) == AgentSlugs(cfg.agents) + [entry.slug];
    DistinctAppend(AgentSlugs(cfg.agents), entry.slug);
    FaultFree(cfg, entry.slug, entry.mappings);
    forall i, j, m | 0 <= i < j < |next| && Maps(next[i], m) ensures !Maps(next[j], m) {
      if j == |cfg.agents| && Maps(entry, m) {
        assert AgentSlugs(cfg.agents)[i] == cfg.agents[i].slug;
        OthersDoNotMap(cfg, entry.slug, entry.mappings, i, m);
      }
    }
  }

  lemma UpdatedAgentIsSound(cfg: Config, index: nat, merged: Agent)
    requires AgentsAreSound(cfg.agents) && index < |cfg.agents| && merged.slug == cfg.agents[index].slug
    requires MappingFault(cfg, merged.slug, merged.mappings).None?
    ensures AgentsAreSound(cfg.agents[index := merged])
  {
    var next := cfg.agents[index := merged];
    assert AgentSlugs(next) == AgentSlugs(cfg.agents);
    FaultFree(cfg, merged.slug, merged.mappings);
    forall i, j, m | 0 <= i < j < |next| && Maps(next[i], m) ensures !Maps(next[j], m) {
      assert AgentSlugs(cfg.agents)[i] != AgentSlugs(cfg.agents)[j];
      if i == index && Maps(merged, m) {
        OthersDoNotMap(cfg, merged.slug, merged.mappings, j, m);
      } else if j == index && Maps(merged, m) {
        OthersDoNotMap(cfg, merged.slug, merged.mappings, i, m);
      }
    }
  }

  lemma RelabelledAgentIsSound(agents: seq<Agent>, index: nat, next: Agent)
    requires AgentsAreSound(agents) && index < |agents|
    requires next.slug == agents[index].slug && next.mappings == agents[index].mappings
    ensures AgentsAreSound(agents[index := next])
  {
    var after := agents[index := next];
    assert AgentSlugs(after) == AgentSlugs(agents);
    forall i, j, m | 0 <= i < j < |after| && Maps(after[i], m) ensures !Maps(after[j], m) {
      assert Maps(agents[i], m);
    }
  }

  lemma BareAgentIsSound(agents: seq<Agent>, slug: string, level: string)
    requires AgentsAreSound(agents) && slug !in AgentSlugs(agents)
    ensures AgentsAreSound(agents + [Agent(slug, "", level, [])])
  {
    var next := agents + [Agent(slug, "", level, [])];
    assert AgentSlugs(next) == AgentSlugs(agents) + [slug];
    DistinctAppend(AgentSlugs(agents), slug);
    forall i, j, m | 0 <= i < j < |next| && Maps(next[i], m) ensures !Maps(next[j], m) {
      if j < |agents| {
        assert Maps(agents[i], m);
      }
    }
  }

  lemma FewerAgentsAreSound(agents: seq<Agent>, index: nat)
    requires AgentsAreSound(agents) && index < |agents|
    ensures AgentsAreSound(Without(agents, index))
  {
    var next := Without(agents, index);
    forall i, j | 0 <= i < j < |next| ensures AgentSlugs(next)[i] != AgentSlugs(next)[j] {
      var a, b := if i < index then i else i + 1, if j < index then j else j + 1;
      assert AgentSlugs(agents)[a] != AgentSlugs(agents)[b];
    }
    forall i, j, m | 0 <= i < j < |next| && Maps(next[i], m) ensures !Maps(next[j], m) {
      var a, b := if i < index then i else i + 1, if j < index then j else j + 1;
      assert Maps(agents[a], m) && a < b;
    }
  }

  lemma AgentCallsKeepValid(env: Env, op: Op, cfg: Config)
    requires Valid(env, cfg) && (op.CreateAgent? || op.UpdateAgent? || op.DeleteAgent? || op.SetLogLevel?)
    ensures Applied(env, op, cfg).Ok? ==> Valid(env, Applied(env, op, cfg).value)
  {
    hide OwnersAreUnique, Accepted;
    match op {
      case CreateAgent(agent) => WithNewAgentKeeps(cfg, agent);
      case UpdateAgent(slug, patch, mask, allowMissing) =>
        MissingKey(AgentSlugs(cfg.agents), slug);
        WithNewAgentKeeps(cfg, patch);
        var index := IndexOf(AgentSlugs(cfg.agents), slug);
        if index < |cfg.agents| && mask(cfg.agents[index]).Some? {
          var merged := mask(cfg.agents[index]).value.(slug := slug);
          if MappingFault(cfg, slug, merged.mappings).None? {
            UpdatedAgentIsSound(cfg, index, merged);
          }
        }
      case DeleteAgent(slug) =>
        var index := IndexOf(AgentSlugs(cfg.agents), slug);
        if index < |cfg.agents| {
          FewerAgentsAreSound(cfg.agents, index);
        }
      case SetLogLevel(slug, level) =>
        var index := IndexOf(AgentSlugs(cfg.agents), slug);
        MissingKey(AgentSlugs(cfg.agents), slug);
        if index < |cfg.agents| {
          RelabelledAgentIsSound(cfg.agents, index, cfg.agents[index].(logLevel := level));
        } else {
          BareAgentIsSound(cfg.agents, slug, level);
        }
    }
  }

  lemma WithNewAgentKeeps(cfg: Config, entry: Agent)
    requires AgentsAreSound(cfg.agents)
    ensures WithNewAgent(cfg, entry).Ok? ==> WithNewAgent(cfg, entry).value == cfg.(agents := cfg.agents + [entry])
    ensures WithNewAgent(cfg, entry).Ok? ==> AgentsAreSound(cfg.agents + [entry])
  {
    if entry.slug !in AgentSlugs(cfg.agents) && MappingFault(cfg, entry.slug, entry.mappings).None? {
      NewAgentIsSound(cfg, entry);
    }
  }

  // ---------------------------------------------------------------------
  // Every call keeps them: the other sections
  // ---------------------------------------------------------------------

  lemma DirectoryCallsKeepValid(env: Env, op: Op, cfg: Config)
    requires Valid(env, cfg) && (op.CreateScanDirectory? || op.UpdateScanDirectory? || op.DeleteScanDirectory?)
    ensures Applied(env, op, cfg).Ok? ==> Valid(env, Applied(env, op, cfg).value)
  {
    hide AgentsAreSound, Accepted;
    var slugs := ScannerSlugs(cfg.scanDirectories);
    match op {
      case CreateScanDirectory(d) =>
        DistinctAppend(slugs, d.scannerSlug);
        assert ScannerSlugs(cfg.scanDirectories + [d]) == slugs + [d.scannerSlug];
      case UpdateScanDirectory(slug, patch, mask, allowMissing) =>
        MissingKey(slugs, slug);
        DistinctAppend(slugs, patch.scannerSlug);
        assert ScannerSlugs(cfg.scanDirectories + [patch]) == slugs + [patch.scannerSlug];
        var index := IndexOf(slugs, slug);
        if index < |slugs| && mask(cfg.scanDirectories[index]).Some? {
          var merged := mask(cfg.scanDirectories[index]).value.(scannerSlug := slug);
          assert ScannerSlugs(cfg.scanDirectories[index := merged]) == slugs;
        }
      case DeleteScanDirectory(slug) =>
        var index := IndexOf(slugs, slug);
        if index < |slugs| {
          assert ScannerSlugs(Without(cfg.scanDirectories, index)) == Without(slugs, index);
          WithoutIsDistinct(slugs, index);
        }
    }
  }

  /** Every mapping names a scan directory that exists. */
  ghost predicate MappingsResolve(cfg: Config) {
    forall i, m :: 0 <= i < |cfg.agents| && Maps(cfg.agents[i], m) ==> m in ScannerSlugs(cfg.scanDirectories)
  }

  /** Deleting a scan directory does not look at the agents, so it leaves every
      mapping resolved exactly when no agent was mapped to it. */
  lemma DeletionKeepsMappingsIff(cfg: Config, slug: string)
    requires Distinct(ScannerSlugs(cfg.scanDirectories)) && MappingsResolve(cfg) && WithoutDirectory(cfg, slug).Ok?
    ensures MappingsResolve(WithoutDirectory(cfg, slug).value) <==>
      forall i :: 0 <= i < |cfg.agents| ==> !Maps(cfg.agents[i], slug)
  {
    var slugs := ScannerSlugs(cfg.scanDirectories);
    var index := IndexOf(slugs, slug);
    var after := WithoutDirectory(cfg, slug).value;
    assert ScannerSlugs(after.scanDirectories) == Without(slugs, index);
    forall m ensures m in Without(slugs, index) <==> m in slugs && m != slug {
      MembersWithout(slugs, index, m);
    }
    assert after.agents == cfg.agents && slugs[index] == slug && slug !in ScannerSlugs(after.scanDirectories);
    if forall i :: 0 <= i < |cfg.agents| ==> !Maps(cfg.agents[i], slug) {
      forall i, m | 0 <= i < |after.agents| && Maps(after.agents[i], m) ensures m in ScannerSlugs(after.scanDirectories) {
        assert Maps(cfg.agents[i], m) && m in slugs;
      }
    } else {
      var i :| 0 <= i < |cfg.agents| && Maps(cfg.agents[i], slug);
      assert Maps(after.agents[i], slug);
    }
  }

  lemma MembersWithout(keys: seq<string>, index: nat, key: string)
    requires Distinct(keys) && index < |keys|
    ensures key in Without(keys, index) <==> key in keys && key != keys[index]
  {
    if key in keys && key != keys[index] {
      var i :| 0 <= i < |keys| && keys[i] == key;
      assert Without(keys, index)[if i < index then i else i - 1] == key;
    }
    if key in Without(keys, index) {
      var j :| 0 <= j < |keys| - 1 && Without(keys, index)[j] == key;
      assert keys[if j < index then j else j + 1] == key;
    }
  }

  lemma WithoutIsDistinct(keys: seq<string>, index: nat)
    requires Distinct(keys) && index < |keys|
    ensures Distinct(Without(keys, index))
  {
  }

  lemma FewerEntriesCompile(env: Env, table: seq<SidecarEntry>, index: nat)
    requires Compilable(env.lang, env.defaults) && Accepted(env, table) && index < |table|
    ensures Accepted(env, Without(table, index))
  {
    var next := Without(table, index);
    forall e | e in next ensures EntryIsSound(env.lang, e) {
      assert e in table;
    }
    forall i, j | 0 <= i < j < |next| ensures !Clash(next[i], next[j]) {
      var a, b := if i < index then i else i + 1, if j < index then j else j + 1;
      assert !Clash(table[a], table[b]);
    }
  }

  lemma SidecarCallsKeepValid(env: Env, op: Op, cfg: Config)
    requires Valid(env, cfg) && Compilable(env.lang, env.defaults)
    requires op.CreateSidecarType? || op.UpdateSidecarType? || op.DeleteSidecarType? || op.ReorderSidecarTypes? ||
             op.ResetSidecarTypes?
    ensures Applied(env, op, cfg).Ok? ==> Valid(env, Applied(env, op, cfg).value)
  {
    hide AgentsAreSound, Compilable;
    if op.DeleteSidecarType? {
      var index := IndexOf(SidecarIds(cfg.sidecarTypes), op.id);
      if index < |cfg.sidecarTypes| {
        FewerEntriesCompile(env, cfg.sidecarTypes, index);
      }
    }
  }

  lemma SonarrCallsKeepValid(env: Env, op: Op, cfg: Config)
    requires Valid(env, cfg) && (op.CreateSonarr? || op.UpdateSonarr? || op.DeleteSonarr?)
    ensures Applied(env, op, cfg).Ok? ==> Valid(env, Applied(env, op, cfg).value)
  {
    hide AgentsAreSound, Accepted;
    var slugs := SonarrSlugs(cfg.sonarr);
    match op {
      case CreateSonarr(s) =>
        DistinctAppend(slugs, s.slug);
        assert SonarrSlugs(cfg.sonarr + [WithStorage(s)]) == slugs + [s.slug];
      case UpdateSonarr(slug, patch, mask, allowMissing) =>
        MissingKey(slugs, slug);
        DistinctAppend(slugs, patch.slug);
        assert SonarrSlugs(cfg.sonarr + [WithStorage(patch)]) == slugs + [patch.slug];
        var index := IndexOf(slugs, slug);
        if index < |slugs| && mask(cfg.sonarr[index]).Some? {
          var merged := WithStorage(mask(cfg.sonarr[index]).value.(slug := slug));
          assert SonarrSlugs(cfg.sonarr[index := merged]) == slugs;
        }
      case DeleteSonarr(slug) =>
        var index := IndexOf(slugs, slug);
        if index < |slugs| {
          assert SonarrSlugs(Without(cfg.sonarr, index)) == Without(slugs, index);
          WithoutIsDistinct(slugs, index);
        }
    }
  }

  /** Every call that succeeds leaves a document that still obeys the rules. */
  lemma EveryCallKeepsValid(env: Env, op: Op, cfg: Config)
    requires Valid(env, cfg) && Compilable(env.lang, env.defaults)
    ensures Applied(env, op, cfg).Ok? ==> Valid(env, Applied(env, op, cfg).value)
  {
    hide Accepted, AgentsAreSound;
    match op {
      case CreateAgent(_) => AgentCallsKeepValid(env, op, cfg);
      case UpdateAgent(_, _, _, _) => AgentCallsKeepValid(env, op, cfg);
      case DeleteAgent(_) => AgentCallsKeepValid(env, op, cfg);
      case SetLogLevel(_, _) => AgentCallsKeepValid(env, op, cfg);
      case CreateScanDirectory(_) => DirectoryCallsKeepValid(env, op, cfg);
      case UpdateScanDirectory(_, _, _, _) => DirectoryCallsKeepValid(env, op, cfg);
      case DeleteScanDirectory(_) => DirectoryCallsKeepValid(env, op, cfg);
      case CreateSidecarType(_, _) => SidecarCallsKeepValid(env, op, cfg);
      case UpdateSidecarType(_, _) => SidecarCallsKeepValid(env, op, cfg);
      case DeleteSidecarType(_) => SidecarCallsKeepValid(env, op, cfg);
      case ReorderSidecarTypes(_) => SidecarCallsKeepValid(env, op, cfg);
      case ResetSidecarTypes => SidecarCallsKeepValid(env, op, cfg);
      case CreateSonarr(_) => SonarrCallsKeepValid(env, op, cfg);
      case UpdateSonarr(_, _, _, _) => SonarrCallsKeepValid(env, op, cfg);
      case DeleteSonarr(_) => SonarrCallsKeepValid(env, op, cfg);
      case UpdateScannerConfig(_) =>
      case UpdateAdmin(_, _, _, _) =>
      case UpdateLogging(_) =>
      case UpdateEventBus(_) =>
      case RotateSecret(_) =>
    }
  }

  /** No call leaves Normalize anything to fill. */
  lemma EveryCallKeepsNormal(env: Env, op: Op, cfg: Config)
    requires Normal(cfg)
    ensures Applied(env, op, cfg).Ok? ==> Normal(Applied(env, op, cfg).value)
  {
    hide Accepted, MappingFault, ValidSlug, ValidDirectory, ValidEntry, ValidBus, Reordered, NamesEveryEntry;
  }

  // ---------------------------------------------------------------------
  // Undoing every edit of the table
  // ---------------------------------------------------------------------

  predicate TableCall(op: Op) {
    op.CreateSidecarType? || op.UpdateSidecarType? || op.DeleteSidecarType? || op.ReorderSidecarTypes? ||
    op.ResetSidecarTypes?
  }

  /** The document after some calls one after another; a refused one leaves it. */
  function AfterCalls(env: Env, cfg: Config, ops: seq<Op>): Config
    decreases |ops|
  {
    if ops == [] then cfg
    else
      var before := AfterCalls(env, cfg, ops[..|ops| - 1]);
      match Applied(env, ops[|ops| - 1], before)
      case Ok(next) => next
      case Err(_) => before
  }

  /** Whatever the table calls did before, and however they left the table, a reset
      puts the document where a reset of the first one would have: no table call
      reaches outside the table, and none can stand in the way. The table then
      compiles if the built-in one does. */
  lemma {:induction false} ResetForgetsTableCalls(env: Env, cfg: Config, ops: seq<Op>)
    requires forall i :: 0 <= i < |ops| ==> TableCall(ops[i])
    ensures Applied(env, ResetSidecarTypes, AfterCalls(env, cfg, ops)) == Applied(env, ResetSidecarTypes, cfg)
    ensures Applied(env, ResetSidecarTypes, cfg).Ok?
    ensures Compilable(env.lang, env.defaults) ==>
      Accepted(env, Applied(env, ResetSidecarTypes, AfterCalls(env, cfg, ops)).value.sidecarTypes)
    decreases |ops|
  {
    if ops != [] {
      ResetForgetsTableCalls(env, cfg, ops[..|ops| - 1]);
    }
  }
}

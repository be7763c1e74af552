/** The config document as the calls' closures edit it, in place. */
module ConfigDocument {
  import opened Options
  import opened ConfigModel
  import opened ConfigOps
  import opened SidecarTable

  method FindIndex(keys: seq<string>, key: string) returns (index: nat)
    ensures index == IndexOf(keys, key)
  {
    index := 0;
    while index < |keys| && keys[index] != key
      invariant index <= |keys| && forall j :: 0 <= j < index ==> keys[j] != key
    {
      index := index + 1;
    }
  }

  /** A fault in the answer, or none and the document edited as the call says. */
  ghost predicate Does(outcome: Outcome, fault: Option<Status>, after: Config) {
    match outcome
    case Ok(next) => fault.None? && after == next
    case Err(status) => fault == Some(status)
  }

  class Document {
    var config: Config

    constructor (config: Config)
      ensures this.config == config
    {
      this.config := config;
    }

    method ValidateMappings(entry: Agent) returns (fault: Option<Status>)
      ensures fault == MappingFault(config, entry.slug, entry.mappings)
    {
      var seen: set<string> := {};
      for k := 0 to |entry.mappings|
        invariant MappingFault(config, entry.slug, entry.mappings[..k]).None?
        invariant forall m :: m in seen <==> m in MappedSlugs(entry.mappings[..k])
      {
        var mapping := entry.mappings[k];
        FaultStays(config, entry.slug, entry.mappings, k);
        assert MappedSlugs(entry.mappings[..k + 1]) == MappedSlugs(entry.mappings[..k]) + [mapping.scannerSlug];
        var index := FindIndex(ScannerSlugs(config.scanDirectories), mapping.scannerSlug);
        if index == |config.scanDirectories| {
          return Some(BadRequest);
        }
        if mapping.scannerSlug in seen {
          return Some(BadRequest);
        }
        seen := seen + {mapping.scannerSlug};
        var owner := AgentForScanner(config.agents, mapping.scannerSlug);
        if owner.Some? && owner.value.slug != entry.slug {
          return Some(Conflict);
        }
      }
      assert entry.mappings[..|entry.mappings|] == entry.mappings;
      fault := None;
    }

    method AppendNewAgent(entry: Agent) returns (fault: Option<Status>)
      modifies this
      ensures Does(WithNewAgent(old(config), entry), fault, config)
    {
      if !ValidSlug(entry.slug) {
        return Some(BadRequest);
      }
      var index := FindIndex(AgentSlugs(config.agents), entry.slug);
      MissingKey(AgentSlugs(config.agents), entry.slug);
      if index != |config.agents| {
        return Some(Conflict);
      }
      fault := ValidateMappings(entry);
      if fault.None? {
        config := config.(agents := config.agents + [entry]);
      }
    }

    method UpdateAgent(slug: string, patch: Agent, mask: Agent -> Option<Agent>, allowMissing: bool)
      returns (fault: Option<Status>)
      modifies this
      ensures Does(WithUpdatedAgent(old(config), slug, patch, mask, allowMissing), fault, config)
    {
      var index := FindIndex(AgentSlugs(config.agents), slug);
      if index == |config.agents| {
        if !allowMissing {
          return Some(NotFound);
        }
        fault := AppendNewAgent(patch);
        return;
      }
      var masked := mask(config.agents[index]);
      if masked.None? {
        return Some(BadMask);
      }
      var merged := masked.value.(slug := slug);
      fault := ValidateMappings(merged);
      if fault.None? {
        config := config.(agents := config.agents[index := merged]);
      }
    }

    method DeleteAgent(slug: string) returns (fault: Option<Status>)
      modifies this
      ensures Does(WithoutAgent(old(config), slug), fault, config)
    {
      var index := FindIndex(AgentSlugs(config.agents), slug);
      if index == |config.agents| {
        return Some(NotFound);
      }
      config := config.(agents := config.agents[..index] + config.agents[index + 1..]);
      fault := None;
    }

    method SetLogLevel(slug: string, level: string) returns (fault: Option<Status>)
      modifies this
      ensures Does(WithLogLevel(old(config), slug, level), fault, config)
    {
      if level != "info" && level != "debug" {
        return Some(BadRequest);
      }
      var index := FindIndex(AgentSlugs(config.agents), slug);
      if index < |config.agents| {
        config := config.(agents := config.agents[index := config.agents[index].(logLevel := level)]);
      } else {
        config := config.(agents := config.agents + [Agent(slug, "", level, [])]);
      }
      fault := None;
    }

    method AppendNewScanDirectory(d: ScanDirectory) returns (fault: Option<Status>)
      modifies this
      ensures Does(WithNewDirectory(old(config), d), fault, config)
    {
      if d.scannerSlug == "" || d.scanType !in DIRECTORY_TYPES {
        return Some(BadRequest);
      }
      var index := FindIndex(ScannerSlugs(config.scanDirectories), d.scannerSlug);
      MissingKey(ScannerSlugs(config.scanDirectories), d.scannerSlug);
      if index != |config.scanDirectories| {
        return Some(Conflict);
      }
      config := config.(scanDirectories := config.scanDirectories + [d]);
      fault := None;
    }

    method UpdateScanDirectory(slug: string, patch: ScanDirectory, mask: ScanDirectory -> Option<ScanDirectory>,
                               allowMissing: bool) returns (fault: Option<Status>)
      modifies this
      ensures Does(WithUpdatedDirectory(old(config), slug, patch, mask, allowMissing), fault, config)
    {
      var index := FindIndex(ScannerSlugs(config.scanDirectories), slug);
      if index == |config.scanDirectories| {
        if !allowMissing {
          return Some(NotFound);
        }
        fault := AppendNewScanDirectory(patch);
        return;
      }
      var masked := mask(config.scanDirectories[index]);
      if masked.None? {
        return Some(BadMask);
      }
      var merged := masked.value.(scannerSlug := slug);
      if merged.scannerSlug == "" || merged.scanType !in DIRECTORY_TYPES {
        return Some(BadRequest);
      }
      config := config.(scanDirectories := config.scanDirectories[index := merged]);
      fault := None;
    }

    method DeleteScanDirectory(slug: string) returns (fault: Option<Status>)
      modifies this
      ensures Does(WithoutDirectory(old(config), slug), fault, config)
    {
      var index := FindIndex(ScannerSlugs(config.scanDirectories), slug);
      if index == |config.scanDirectories| {
        return Some(NotFound);
      }
      config := config.(scanDirectories := config.scanDirectories[..index] + config.scanDirectories[index + 1..]);
      fault := None;
    }

    method CompileSidecarRegistry(env: Env) returns (fault: Option<Status>)
      ensures fault == if Accepted(env, config.sidecarTypes) then None else Some(BadRequest)
    {
      var registry := NewSidecarRegistry(env.lang, env.defaults, config.sidecarTypes);
      fault := if registry.Ok? then None else Some(BadRequest);
    }

    method CreateSidecarType(env: Env, minted: string, entry: SidecarEntry) returns (fault: Option<Status>)
      modifies this
      ensures Does(WithNewEntry(env, old(config), minted, entry), fault, config)
    {
      if entry.id != "" || entry.order != 0 || entry.typeName == "" || entry.category !in CATEGORIES {
        return Some(BadRequest);
      }
      config := config.(sidecarTypes := config.sidecarTypes + [entry.(id := minted, order := 0)]);
      fault := CompileSidecarRegistry(env);
    }

    method UpdateSidecarType(env: Env, id: string, mask: SidecarEntry -> Option<SidecarEntry>)
      returns (fault: Option<Status>)
      modifies this
      ensures Does(WithUpdatedEntry(env, old(config), id, mask), fault, config)
    {
      var index := FindIndex(SidecarIds(config.sidecarTypes), id);
      if index == |config.sidecarTypes| {
        return Some(NotFound);
      }
      var masked := mask(config.sidecarTypes[index]);
      if masked.None? {
        return Some(BadMask);
      }
      var merged := masked.value.(id := id, order := config.sidecarTypes[index].order);
      if merged.typeName == "" || merged.category !in CATEGORIES {
        return Some(BadRequest);
      }
      config := config.(sidecarTypes := config.sidecarTypes[index := merged]);
      fault := CompileSidecarRegistry(env);
    }

    method DeleteSidecarType(id: string) returns (fault: Option<Status>)
      modifies this
      ensures Does(WithoutEntry(old(config), id), fault, config)
    {
      var index := FindIndex(SidecarIds(config.sidecarTypes), id);
      if index == |config.sidecarTypes| {
        return Some(NotFound);
      }
      config := config.(sidecarTypes := config.sidecarTypes[..index] + config.sidecarTypes[index + 1..]);
      fault := None;
    }

    /** Both directions are checked before any order moves. */
    method ReorderSidecarTypes(env: Env, orders: map<string, int>) returns (fault: Option<Status>)
      modifies this
      ensures Does(WithOrders(env, old(config), orders), fault, config)
    {
      var types := config.sidecarTypes;
      for k := 0 to |types|
        invariant forall i :: 0 <= i < k ==> types[i].id in orders
      {
        if types[k].id !in orders {
          return Some(BadRequest);
        }
      }
      var remaining := orders.Keys;
      while remaining != {}
        invariant remaining <= orders.Keys && unchanged(this)
        invariant forall id :: id in orders.Keys - remaining ==> id in SidecarIds(types)
      {
        ghost var _ := AnId(remaining);
        var id :| id in remaining;
        remaining := remaining - {id};
        var index := FindIndex(SidecarIds(types), id);
        MissingKey(SidecarIds(types), id);
        if index == |types| {
          return Some(BadRequest);
        }
      }
      ghost var stored := types;
      for k := 0 to |types|
        invariant |types| == |stored| && unchanged(this)
        invariant forall i :: 0 <= i < k ==> types[i] == stored[i].(order := orders[stored[i].id])
        invariant forall i :: k <= i < |types| ==> types[i] == stored[i]
      {
        types := types[k := types[k].(order := orders[types[k].id])];
      }
      assert types == Reordered(stored, orders);
      config := config.(sidecarTypes := types);
      fault := CompileSidecarRegistry(env);
    }

    method ResetSidecarTypes(env: Env)
      modifies this
      ensures Does(Applied(env, Op.ResetSidecarTypes, old(config)), None, config)
    {
      config := config.(sidecarTypes := env.defaults);
    }

    method AppendNewSonarrInstance(instance: SonarrInstance) returns (fault: Option<Status>)
      modifies this
      ensures Does(WithNewSonarr(old(config), instance), fault, config)
    {
      var stored := if instance.storage.None? then instance.(storage := Some("")) else instance;
      if stored.slug == "" {
        return Some(BadRequest);
      }
      var index := FindIndex(SonarrSlugs(config.sonarr), stored.slug);
      MissingKey(SonarrSlugs(config.sonarr), stored.slug);
      if index != |config.sonarr| {
        return Some(Conflict);
      }
      config := config.(sonarr := config.sonarr + [stored]);
      fault := None;
    }

    method UpdateSonarrInstance(slug: string, patch: SonarrInstance, mask: SonarrInstance -> Option<SonarrInstance>,
                                allowMissing: bool) returns (fault: Option<Status>)
      modifies this
      ensures Does(WithUpdatedSonarr(old(config), slug, patch, mask, allowMissing), fault, config)
    {
      var index := FindIndex(SonarrSlugs(config.sonarr), slug);
      if index == |config.sonarr| {
        if !allowMissing {
          return Some(NotFound);
        }
        fault := AppendNewSonarrInstance(patch);
        return;
      }
      var masked := mask(config.sonarr[index]);
      if masked.None? {
        return Some(BadMask);
      }
      var merged := masked.value.(slug := slug);
      if merged.storage.None? {
        merged := merged.(storage := Some(""));
      }
      if merged.slug == "" {
        return Some(BadRequest);
      }
      config := config.(sonarr := config.sonarr[index := merged]);
      fault := None;
    }

    method DeleteSonarrInstance(slug: string) returns (fault: Option<Status>)
      modifies this
      ensures Does(WithoutSonarr(old(config), slug), fault, config)
    {
      var index := FindIndex(SonarrSlugs(config.sonarr), slug);
      if index == |config.sonarr| {
        return Some(NotFound);
      }
      config := config.(sonarr := config.sonarr[..index] + config.sonarr[index + 1..]);
      fault := None;
    }

    method UpdateScannerConfig(mask: int -> Option<int>) returns (fault: Option<Status>)
      modifies this
      ensures Does(WithParallelCount(old(config), mask), fault, config)
    {
      var masked := mask(config.parallelCount);
      if masked.None? {
        return Some(BadMask);
      }
      if masked.value <= 0 {
        return Some(BadRequest);
      }
      config := config.(parallelCount := masked.value);
      fault := None;
    }

    /** Each given field is checked and set on its own. */
    method UpdateAdmin(username: Option<string>, email: Option<string>, scheme: Option<AuthScheme>,
                       credential: Option<string>) returns (fault: Option<Status>)
      modifies this
      ensures Does(WithAdmin(old(config), username, email, scheme, credential), fault, config)
    {
      if username == Some("") || email == Some("") || scheme == Some(Unspecified) {
        return Some(BadRequest);
      }
      if username.None? && email.None? && scheme.None? && credential.None? {
        return Some(BadMask);
      }
      if username.Some? {
        config := config.(admin := config.admin.(username := username.value));
      }
      if email.Some? {
        config := config.(admin := config.admin.(email := email.value));
      }
      if credential.Some? {
        config := config.(admin := config.admin.(credential := credential.value));
      }
      if scheme.Some? {
        config := config.(admin := config.admin.(scheme := scheme.value));
      }
      fault := None;
    }

    method UpdateLogging(mask: string -> Option<string>) returns (fault: Option<Status>)
      modifies this
      ensures Does(WithServerLevel(old(config), mask), fault, config)
    {
      var masked := mask(config.serverLevel);
      if masked.None? {
        return Some(BadMask);
      }
      if masked.value != "info" && masked.value != "debug" {
        return Some(BadRequest);
      }
      config := config.(serverLevel := masked.value);
      fault := None;
    }

    method UpdateEventBus(mask: EventBusSettings -> Option<EventBusSettings>) returns (fault: Option<Status>)
      modifies this
      ensures Does(WithEventBus(old(config), mask), fault, config)
    {
      var masked := mask(config.eventBus);
      if masked.None? {
        return Some(BadMask);
      }
      if !ValidBus(masked.value) {
        return Some(BadRequest);
      }
      config := config.(eventBus := masked.value);
      fault := None;
    }

    /** Any call, as its closure runs on the document. */
    method Apply(env: Env, op: Op) returns (fault: Option<Status>)
      modifies this
      ensures Does(Applied(env, op, old(config)), fault, config)
    {
      match op {
        case CreateAgent(agent) => fault := AppendNewAgent(agent);
        case UpdateAgent(slug, patch, mask, allowMissing) => fault := UpdateAgent(slug, patch, mask, allowMissing);
        case DeleteAgent(slug) => fault := DeleteAgent(slug);
        case SetLogLevel(slug, level) => fault := SetLogLevel(slug, level);
        case CreateScanDirectory(d) => fault := AppendNewScanDirectory(d);
        case UpdateScanDirectory(slug, patch, mask, allowMissing) =>
          fault := UpdateScanDirectory(slug, patch, mask, allowMissing);
        case DeleteScanDirectory(slug) => fault := DeleteScanDirectory(slug);
        case CreateSidecarType(minted, entry) => fault := CreateSidecarType(env, minted, entry);
        case UpdateSidecarType(id, mask) => fault := UpdateSidecarType(env, id, mask);
        case DeleteSidecarType(id) => fault := DeleteSidecarType(id);
        case ReorderSidecarTypes(orders) => fault := ReorderSidecarTypes(env, orders);
        case ResetSidecarTypes =>
          ResetSidecarTypes(env);
          fault := None;
        case CreateSonarr(instance) => fault := AppendNewSonarrInstance(instance);
        case UpdateSonarr(slug, patch, mask, allowMissing) => fault := UpdateSonarrInstance(slug, patch, mask, allowMissing);
        case DeleteSonarr(slug) => fault := DeleteSonarrInstance(slug);
        case UpdateScannerConfig(mask) => fault := UpdateScannerConfig(mask);
        case UpdateAdmin(username, email, scheme, credential) => fault := UpdateAdmin(username, email, scheme, credential);
        case UpdateLogging(mask) => fault := UpdateLogging(mask);
        case UpdateEventBus(mask) => fault := UpdateEventBus(mask);
        case RotateSecret(secret) =>
          config := config.(hmacSecret := secret);
          fault := None;
      }
    }
  }

  lemma AnId(ids: set<string>) returns (id: string)
    requires ids != {}
    ensures id in ids
  {
    id :| id in ids;
  }

  // The first fault of a longer mapping list is the first fault of a shorter one.
  lemma {:induction false} FaultStays(cfg: Config, slug: string, mappings: seq<Mapping>, k: nat)
    requires k < |mappings| && MappingFault(cfg, slug, mappings[..k]).None?
    ensures MappingFault(cfg, slug, mappings[..k + 1]).Some? ==>
      MappingFault(cfg, slug, mappings) == MappingFault(cfg, slug, mappings[..k + 1])
    ensures MappingFault(cfg, slug, mappings[..k + 1]) ==
      if mappings[k].scannerSlug !in ScannerSlugs(cfg.scanDirectories) then Some(BadRequest)
      else if mappings[k].scannerSlug in MappedSlugs(mappings[..k]) then Some(BadRequest)
      else if AgentForScanner(cfg.agents, mappings[k].scannerSlug).Some? &&
              AgentForScanner(cfg.agents, mappings[k].scannerSlug).value.slug != slug then Some(Conflict)
      else None
    decreases |mappings|
  {
    assert mappings[..k + 1][..k] == mappings[..k];
    if k + 1 == |mappings| {
      assert mappings[..k + 1] == mappings;
    } else {
      var init := mappings[..|mappings| - 1];
      assert init[..k] == mappings[..k] && init[..k + 1] == mappings[..k + 1] && init[k] == mappings[k];
      FaultStays(cfg, slug, init, k);
    }
  }
}

/** What a reader of the document sees of each call: the addressed entry as the
    call left it, every other entry and section as it was, and which calls are
    refused. */
module ConfigEffects {
  import opened Options
  import opened ConfigModel
  import opened ConfigOps
  import opened SidecarTable

  // ---------------------------------------------------------------------
  // Reading a section by key
  // ---------------------------------------------------------------------

  /** The first entry of that key. */
  function Find<T>(entries: seq<T>, keyOf: T -> string, key: string): Option<T> {
    if entries == [] then None
    else if keyOf(entries[0]) == key then Some(entries[0])
    else Find(entries[1..], keyOf, key)
  }

  /** The entries of all other keys, in their order. */
  function Besides<T>(entries: seq<T>, keyOf: T -> string, key: string): seq<T> {
    if entries == [] then []
    else (if keyOf(entries[0]) == key then [] else [entries[0]]) + Besides(entries[1..], keyOf, key)
  }

  predicate KeysAre<T>(entries: seq<T>, keyOf: T -> string, keys: seq<string>) {
    |keys| == |entries| && forall i :: 0 <= i < |keys| ==> keys[i] == keyOf(entries[i])
  }

  lemma {:induction false} FoundAt<T>(entries: seq<T>, keyOf: T -> string, keys: seq<string>, key: string)
    requires KeysAre(entries, keyOf, keys)
    ensures var i := IndexOf(keys, key);
            Find(entries, keyOf, key) == if i < |entries| then Some(entries[i]) else None
    decreases |entries|
  {
    if entries != [] {
      FoundAt(entries[1..], keyOf, keys[1..], key);
    }
  }

  lemma {:induction false} AfterAppend<T>(entries: seq<T>, keyOf: T -> string, x: T)
    ensures Besides(entries + [x], keyOf, keyOf(x)) == Besides(entries, keyOf, keyOf(x))
    ensures Find(entries, keyOf, keyOf(x)).None? ==> Find(entries + [x], keyOf, keyOf(x)) == Some(x)
    decreases |entries|
  {
    if entries != [] {
      AfterAppend(entries[1..], keyOf, x);
      assert (entries + [x])[1..] == entries[1..] + [x];
    } else {
      assert [x][1..] == [] && Besides([x][1..], keyOf, keyOf(x)) == [];
    }
  }

  lemma {:induction false} AfterReplace<T>(entries: seq<T>, keyOf: T -> string, i: nat, x: T)
    requires i < |entries| && keyOf(entries[i]) == keyOf(x) && forall j :: 0 <= j < i ==> keyOf(entries[j]) != keyOf(x)
    ensures Besides(entries[i := x], keyOf, keyOf(x)) == Besides(entries, keyOf, keyOf(x))
    ensures Find(entries[i := x], keyOf, keyOf(x)) == Some(x)
    decreases |entries|
  {
    if i > 0 {
      AfterReplace(entries[1..], keyOf, i - 1, x);
      assert entries[i := x][1..] == entries[1..][i - 1 := x];
    } else {
      assert entries[0 := x][1..] == entries[1..];
    }
  }

  lemma {:induction false} AfterRemove<T>(entries: seq<T>, keyOf: T -> string, keys: seq<string>, i: nat)
    requires KeysAre(entries, keyOf, keys) && i < |entries|
    ensures Besides(Without(entries, i), keyOf, keys[i]) == Besides(entries, keyOf, keys[i])
    ensures Distinct(keys) ==> Find(Without(entries, i), keyOf, keys[i]).None?
    decreases |entries|
  {
    if i > 0 {
      AfterRemove(entries[1..], keyOf, keys[1..], i - 1);
      assert Without(entries, i)[1..] == Without(entries[1..], i - 1);
      assert Distinct(keys) ==> Distinct(keys[1..]);
    } else {
      assert Without(entries, 0) == entries[1..];
      if Distinct(keys) {
        NotFound(entries[1..], keyOf, keys[0]);
      }
    }
  }

  lemma {:induction false} NotFound<T>(entries: seq<T>, keyOf: T -> string, key: string)
    requires forall i :: 0 <= i < |entries| ==> keyOf(entries[i]) != key
    ensures Find(entries, keyOf, key).None?
    decreases |entries|
  {
    if entries != [] {
      NotFound(entries[1..], keyOf, key);
    }
  }

  /** With every other entry kept, every other key reads as before. */
  lemma {:induction false} OthersReadTheSame<T>(entries: seq<T>, keyOf: T -> string, key: string, other: string)
    requires other != key
    ensures Find(Besides(entries, keyOf, key), keyOf, other) == Find(entries, keyOf, other)
    decreases |entries|
  {
    if entries != [] {
      OthersReadTheSame(entries[1..], keyOf, key, other);
      if keyOf(entries[0]) != key {
        assert Besides(entries, keyOf, key)[1..] == Besides(entries[1..], keyOf, key);
      } else {
        assert Besides(entries, keyOf, key) == Besides(entries[1..], keyOf, key);
      }
    }
  }

  function AgentKey(a: Agent): string { a.slug }

  function DirectoryKey(d: ScanDirectory): string { d.scannerSlug }

  function EntryKey(e: SidecarEntry): string { e.id }

  function InstanceKey(s: SonarrInstance): string { s.slug }

  function AgentAt(cfg: Config, slug: string): Option<Agent> { Find(cfg.agents, AgentKey, slug) }

  function DirectoryAt(cfg: Config, slug: string): Option<ScanDirectory> {
    Find(cfg.scanDirectories, DirectoryKey, slug)
  }

  function EntryAt(cfg: Config, id: string): Option<SidecarEntry> { Find(cfg.sidecarTypes, EntryKey, id) }

  function InstanceAt(cfg: Config, slug: string): Option<SonarrInstance> { Find(cfg.sonarr, InstanceKey, slug) }

  // ---------------------------------------------------------------------
  // The frame: one section a call
  // ---------------------------------------------------------------------

  datatype Section = AdminSection | SonarrSection | Parallelism | Directories | SidecarTypes | Agents | Logging | Bus | Secret

  function SectionOf(op: Op): Section {
    match op
    case CreateAgent(_) => Agents
    case UpdateAgent(_, _, _, _) => Agents
    case DeleteAgent(_) => Agents
    case SetLogLevel(_, _) => Agents
    case CreateScanDirectory(_) => Directories
    case UpdateScanDirectory(_, _, _, _) => Directories
    case DeleteScanDirectory(_) => Directories
    case CreateSidecarType(_, _) => SidecarTypes
    case UpdateSidecarType(_, _) => SidecarTypes
    case DeleteSidecarType(_) => SidecarTypes
    case ReorderSidecarTypes(_) => SidecarTypes
    case ResetSidecarTypes => SidecarTypes
    case CreateSonarr(_) => SonarrSection
    case UpdateSonarr(_, _, _, _) => SonarrSection
    case DeleteSonarr(_) => SonarrSection
    case UpdateScannerConfig(_) => Parallelism
    case UpdateAdmin(_, _, _, _) => AdminSection
    case UpdateLogging(_) => Logging
    case UpdateEventBus(_) => Bus
    case RotateSecret(_) => Secret
  }

  predicate SameSection(section: Section, a: Config, b: Config) {
    match section
    case AdminSection => a.admin == b.admin
    case SonarrSection => a.sonarr == b.sonarr
    case Parallelism => a.parallelCount == b.parallelCount
    case Directories => a.scanDirectories == b.scanDirectories
    case SidecarTypes => a.sidecarTypes == b.sidecarTypes
    case Agents => a.agents == b.agents
    case Logging => a.serverLevel == b.serverLevel
    case Bus => a.eventBus == b.eventBus
    case Secret => a.hmacSecret == b.hmacSecret
  }

  /** A call changes its own section and no other. */
  lemma OnlyItsSection(env: Env, op: Op, cfg: Config, section: Section)
    requires Applied(env, op, cfg).Ok? && section != SectionOf(op)
    ensures SameSection(section, cfg, Applied(env, op, cfg).value)
  {
    hide Accepted, MappingFault, ValidSlug, ValidDirectory, ValidEntry, Reordered, NamesEveryEntry, ValidBus, WithStorage;
  }

  // ---------------------------------------------------------------------
  // Agents
  // ---------------------------------------------------------------------

  /** A mapping list that could work: each directory once, each one existing, and
      no agent of another slug found to own it. */
  predicate Mappable(cfg: Config, slug: string, mappings: seq<Mapping>) {
    && (forall i, j :: 0 <= i < j < |mappings| ==> mappings[i].scannerSlug != mappings[j].scannerSlug)
    && (forall i :: 0 <= i < |mappings| ==> MappingFits(cfg, slug, mappings[i].scannerSlug))
  }

  lemma FaultFreeIsMappable(cfg: Config, slug: string, mappings: seq<Mapping>)
    ensures MappingFault(cfg, slug, mappings).None? <==> Mappable(cfg, slug, mappings)
  {
    FaultFree(cfg, slug, mappings);
    hide MappingFault, MappingFits;
    if Mappable(cfg, slug, mappings) {
      forall m | m in MappedSlugs(mappings) ensures MappingFits(cfg, slug, m) {
        var i :| 0 <= i < |mappings| && MappedSlugs(mappings)[i] == m;
      }
    }
    if Distinct(MappedSlugs(mappings)) && forall m :: m in MappedSlugs(mappings) ==> MappingFits(cfg, slug, m) {
      forall i | 0 <= i < |mappings| ensures MappingFits(cfg, slug, mappings[i].scannerSlug) {
        assert MappedSlugs(mappings)[i] in MappedSlugs(mappings);
      }
      forall i, j | 0 <= i < j < |mappings| ensures mappings[i].scannerSlug != mappings[j].scannerSlug {
        assert MappedSlugs(mappings)[i] != MappedSlugs(mappings)[j];
      }
    }
  }

  /** A refused list is refused for its first bad mapping: a directory that does not
      exist or is listed twice is a bad request, one that another agent has is a
      conflict. */
  lemma {:induction false} FirstFaultDecides(cfg: Config, slug: string, mappings: seq<Mapping>, k: nat)
    requires k < |mappings| && Mappable(cfg, slug, mappings[..k]) && !Mappable(cfg, slug, mappings[..k + 1])
    ensures MappingFault(cfg, slug, mappings) ==
      if DirectoryAt(cfg, mappings[k].scannerSlug).None? then Some(BadRequest)
      else if exists j :: 0 <= j < k && mappings[j].scannerSlug == mappings[k].scannerSlug then Some(BadRequest)
      else Some(Conflict)
    decreases |mappings|
  {
    var n := |mappings| - 1;
    var init := mappings[..n];
    if k < n {
      assert init[..k] == mappings[..k] && init[..k + 1] == mappings[..k + 1];
      FirstFaultDecides(cfg, slug, init, k);
    } else {
      assert mappings[..k + 1] == mappings;
      FaultFreeIsMappable(cfg, slug, init);
      FaultFreeIsMappable(cfg, slug, mappings);
      hide Mappable;
      LastFault(cfg, slug, mappings);
    }
  }

  lemma LastFault(cfg: Config, slug: string, mappings: seq<Mapping>)
    requires mappings != [] && MappingFault(cfg, slug, mappings[..|mappings| - 1]).None?
    requires MappingFault(cfg, slug, mappings).Some?
    ensures var k := |mappings| - 1;
      MappingFault(cfg, slug, mappings) ==
      if DirectoryAt(cfg, mappings[k].scannerSlug).None? then Some(BadRequest)
      else if exists j :: 0 <= j < k && mappings[j].scannerSlug == mappings[k].scannerSlug then Some(BadRequest)
      else Some(Conflict)
  {
    var k := |mappings| - 1;
    var listed, last := MappedSlugs(mappings[..k]), mappings[k].scannerSlug;
    var slugs := ScannerSlugs(cfg.scanDirectories);
    FoundAt(cfg.scanDirectories, DirectoryKey, slugs, last);
    MissingKey(slugs, last);
    hide Find;
    if last in listed {
      var j :| 0 <= j < k && listed[j] == last;
      assert mappings[j].scannerSlug == mappings[k].scannerSlug;
    }
    if j :| 0 <= j < k && mappings[j].scannerSlug == mappings[k].scannerSlug {
      assert listed[j] == last;
    }
  }

  lemma CreatedAgentReadsBack(env: Env, cfg: Config, agent: Agent)
    ensures var outcome := Applied(env, CreateAgent(agent), cfg);
      && (outcome.Ok? <==>
            ValidSlug(agent.slug) && AgentAt(cfg, agent.slug).None? && Mappable(cfg, agent.slug, agent.mappings))
      && (outcome.Ok? ==>
            && AgentAt(outcome.value, agent.slug) == Some(agent)
            && Besides(outcome.value.agents, AgentKey, agent.slug) == Besides(cfg.agents, AgentKey, agent.slug))
      && (!ValidSlug(agent.slug) ==> outcome == Err(BadRequest))
      && (ValidSlug(agent.slug) && AgentAt(cfg, agent.slug).Some? ==> outcome == Err(Conflict))
  {
    hide MappingFault, Mappable, ValidSlug;
    FoundAt(cfg.agents, AgentKey, AgentSlugs(cfg.agents), agent.slug);
    MissingKey(AgentSlugs(cfg.agents), agent.slug);
    FaultFreeIsMappable(cfg, agent.slug, agent.mappings);
    AfterAppend(cfg.agents, AgentKey, agent);
  }

  /** After a successful update the agent found under the slug is what the mask made
      of the stored one, slug aside. */
  lemma UpdatedAgentReadsBack(env: Env, cfg: Config, slug: string, patch: Agent, mask: Agent -> Option<Agent>,
                              allowMissing: bool)
    ensures var outcome := Applied(env, UpdateAgent(slug, patch, mask, allowMissing), cfg);
      match AgentAt(cfg, slug)
      case None => outcome == if allowMissing then Applied(env, CreateAgent(patch), cfg) else Err(Status.NotFound)
      case Some(stored) =>
        match mask(stored)
        case None => outcome == Err(BadMask)
        case Some(m) =>
          && (outcome.Ok? <==> Mappable(cfg, slug, m.mappings))
          && (outcome.Ok? ==>
                var after := outcome.value;
                && AgentAt(after, slug).Some?
                && var agent := AgentAt(after, slug).value;
                   && agent.slug == slug && agent.displayName == m.displayName && agent.logLevel == m.logLevel
                   && agent.mappings == m.mappings && |after.agents| == |cfg.agents|
                   && Besides(after.agents, AgentKey, slug) == Besides(cfg.agents, AgentKey, slug))
  {
    hide MappingFault, Mappable, ValidSlug;
    var index := IndexOf(AgentSlugs(cfg.agents), slug);
    FoundAt(cfg.agents, AgentKey, AgentSlugs(cfg.agents), slug);
    if index < |cfg.agents| && mask(cfg.agents[index]).Some? {
      var merged := mask(cfg.agents[index]).value.(slug := slug);
      FaultFreeIsMappable(cfg, slug, merged.mappings);
      assert forall j :: 0 <= j < index ==> AgentSlugs(cfg.agents)[j] == cfg.agents[j].slug;
      AfterReplace(cfg.agents, AgentKey, index, merged);
    }
  }

  lemma DeletedAgentIsGone(env: Env, cfg: Config, slug: string)
    ensures var outcome := Applied(env, DeleteAgent(slug), cfg);
      match AgentAt(cfg, slug)
      case None => outcome == Err(Status.NotFound)
      case Some(_) =>
        && outcome.Ok? && |outcome.value.agents| == |cfg.agents| - 1
        && (Distinct(AgentSlugs(cfg.agents)) ==> AgentAt(outcome.value, slug).None?)
        && Besides(outcome.value.agents, AgentKey, slug) == Besides(cfg.agents, AgentKey, slug)
  {
    var keys := AgentSlugs(cfg.agents);
    FoundAt(cfg.agents, AgentKey, keys, slug);
    var index := IndexOf(keys, slug);
    if index < |cfg.agents| {
      AfterRemove(cfg.agents, AgentKey, keys, index);
    }
  }

  /** The level alone is set, on an agent made up for the purpose if need be. */
  lemma LogLevelReadsBack(env: Env, cfg: Config, slug: string, level: string)
    ensures var outcome := Applied(env, SetLogLevel(slug, level), cfg);
      && (outcome.Ok? <==> level == "info" || level == "debug")
      && (outcome.Err? ==> outcome == Err(BadRequest))
      && (outcome.Ok? ==>
            && AgentAt(outcome.value, slug).Some?
            && var agent := AgentAt(outcome.value, slug).value;
               && agent.slug == slug && agent.logLevel == level
               && (match AgentAt(cfg, slug)
                   case None => agent.displayName == "" && agent.mappings == []
                   case Some(stored) => agent.displayName == stored.displayName && agent.mappings == stored.mappings)
               && Besides(outcome.value.agents, AgentKey, slug) == Besides(cfg.agents, AgentKey, slug))
  {
    var keys := AgentSlugs(cfg.agents);
    FoundAt(cfg.agents, AgentKey, keys, slug);
    var index := IndexOf(keys, slug);
    if index < |cfg.agents| {
      assert forall j :: 0 <= j < index ==> keys[j] == cfg.agents[j].slug;
      AfterReplace(cfg.agents, AgentKey, index, cfg.agents[index].(logLevel := level));
    } else {
      AfterAppend(cfg.agents, AgentKey, Agent(slug, "", level, []));
    }
  }

  // ---------------------------------------------------------------------
  // Scan directories
  // ---------------------------------------------------------------------

  predicate KnownType(scanType: string) {
    scanType == "movie" || scanType == "tv" || scanType == "music_video"
  }

  lemma CreatedDirectoryReadsBack(env: Env, cfg: Config, d: ScanDirectory)
    ensures var outcome := Applied(env, CreateScanDirectory(d), cfg);
      && (outcome.Ok? <==> d.scannerSlug != "" && KnownType(d.scanType) && DirectoryAt(cfg, d.scannerSlug).None?)
      && (outcome.Ok? ==>
            && DirectoryAt(outcome.value, d.scannerSlug) == Some(d)
            && Besides(outcome.value.scanDirectories, DirectoryKey, d.scannerSlug) ==
                 Besides(cfg.scanDirectories, DirectoryKey, d.scannerSlug))
      && (d.scannerSlug == "" || !KnownType(d.scanType) ==> outcome == Err(BadRequest))
      && (d.scannerSlug != "" && KnownType(d.scanType) && DirectoryAt(cfg, d.scannerSlug).Some? ==> outcome == Err(Conflict))
  {
    var keys := ScannerSlugs(cfg.scanDirectories);
    FoundAt(cfg.scanDirectories, DirectoryKey, keys, d.scannerSlug);
    MissingKey(keys, d.scannerSlug);
    AfterAppend(cfg.scanDirectories, DirectoryKey, d);
    TypesAreKnown(d.scanType);
  }

  lemma TypesAreKnown(scanType: string)
    ensures scanType in DIRECTORY_TYPES <==> KnownType(scanType)
  {
    assert DIRECTORY_TYPES[0] == "movie" && DIRECTORY_TYPES[1] == "tv" && DIRECTORY_TYPES[2] == "music_video";
  }

  lemma UpdatedDirectoryReadsBack(env: Env, cfg: Config, slug: string, patch: ScanDirectory,
                                  mask: ScanDirectory -> Option<ScanDirectory>, allowMissing: bool)
    ensures var outcome := Applied(env, UpdateScanDirectory(slug, patch, mask, allowMissing), cfg);
      match DirectoryAt(cfg, slug)
      case None => outcome == if allowMissing then Applied(env, CreateScanDirectory(patch), cfg) else Err(Status.NotFound)
      case Some(stored) =>
        match mask(stored)
        case None => outcome == Err(BadMask)
        case Some(m) =>
          if slug == "" || !KnownType(m.scanType) then outcome == Err(BadRequest)
          else
            && outcome.Ok? && DirectoryAt(outcome.value, slug).Some?
            && var d := DirectoryAt(outcome.value, slug).value;
               && d.scannerSlug == slug && d.directory == m.directory && d.scanType == m.scanType
               && |outcome.value.scanDirectories| == |cfg.scanDirectories|
               && Besides(outcome.value.scanDirectories, DirectoryKey, slug) ==
                    Besides(cfg.scanDirectories, DirectoryKey, slug)
  {
    var keys := ScannerSlugs(cfg.scanDirectories);
    FoundAt(cfg.scanDirectories, DirectoryKey, keys, slug);
    var index := IndexOf(keys, slug);
    if index < |cfg.scanDirectories| && mask(cfg.scanDirectories[index]).Some? {
      var merged := mask(cfg.scanDirectories[index]).value.(scannerSlug := slug);
      assert forall j :: 0 <= j < index ==> keys[j] == cfg.scanDirectories[j].scannerSlug;
      AfterReplace(cfg.scanDirectories, DirectoryKey, index, merged);
      TypesAreKnown(merged.scanType);
    }
  }

  lemma DeletedDirectoryIsGone(env: Env, cfg: Config, slug: string)
    ensures var outcome := Applied(env, DeleteScanDirectory(slug), cfg);
      match DirectoryAt(cfg, slug)
      case None => outcome == Err(Status.NotFound)
      case Some(_) =>
        && outcome.Ok? && |outcome.value.scanDirectories| == |cfg.scanDirectories| - 1
        && (Distinct(ScannerSlugs(cfg.scanDirectories)) ==> DirectoryAt(outcome.value, slug).None?)
        && Besides(outcome.value.scanDirectories, DirectoryKey, slug) == Besides(cfg.scanDirectories, DirectoryKey, slug)
  {
    var keys := ScannerSlugs(cfg.scanDirectories);
    FoundAt(cfg.scanDirectories, DirectoryKey, keys, slug);
    var index := IndexOf(keys, slug);
    if index < |cfg.scanDirectories| {
      AfterRemove(cfg.scanDirectories, DirectoryKey, keys, index);
    }
  }

  // ---------------------------------------------------------------------
  // Sidecar types
  // ---------------------------------------------------------------------

  /** A new type comes in disabled, under the minted id, if the table then
      compiles. */
  lemma CreatedEntryReadsBack(env: Env, cfg: Config, minted: string, e: SidecarEntry)
    ensures var outcome := Applied(env, CreateSidecarType(minted, e), cfg);
      && (outcome.Err? ==> outcome == Err(BadRequest))
      && (outcome.Ok? ==>
            && e.id == "" && e.order == 0 && ValidEntry(e) && Accepted(env, outcome.value.sidecarTypes)
            && |outcome.value.sidecarTypes| == |cfg.sidecarTypes| + 1
            && Besides(outcome.value.sidecarTypes, EntryKey, minted) == Besides(cfg.sidecarTypes, EntryKey, minted)
            && (EntryAt(cfg, minted).None? ==>
                  && EntryAt(outcome.value, minted).Some?
                  && var r := EntryAt(outcome.value, minted).value;
                     && r.id == minted && r.order == 0 && r.typeName == e.typeName && r.category == e.category
                     && r.patterns == e.patterns && r.extensions == e.extensions))
      && (e.id == "" && e.order == 0 && ValidEntry(e) && Accepted(env, cfg.sidecarTypes + [e.(id := minted)]) ==>
            outcome.Ok?)
  {
    hide Accepted, ValidEntry;
    AfterAppend(cfg.sidecarTypes, EntryKey, e.(id := minted));
  }

  /** An update moves neither the id nor the order. */
  lemma UpdatedEntryReadsBack(env: Env, cfg: Config, id: string, mask: SidecarEntry -> Option<SidecarEntry>)
    ensures var outcome := Applied(env, UpdateSidecarType(id, mask), cfg);
      match EntryAt(cfg, id)
      case None => outcome == Err(Status.NotFound)
      case Some(stored) =>
        match mask(stored)
        case None => outcome == Err(BadMask)
        case Some(m) =>
          && (outcome.Err? ==> outcome == Err(BadRequest))
          && (outcome.Ok? ==>
                && ValidEntry(m) && Accepted(env, outcome.value.sidecarTypes) && EntryAt(outcome.value, id).Some?
                && var r := EntryAt(outcome.value, id).value;
                   && r.id == id && r.order == stored.order && r.typeName == m.typeName && r.category == m.category
                   && r.patterns == m.patterns && r.extensions == m.extensions
                   && |outcome.value.sidecarTypes| == |cfg.sidecarTypes|
                   && Besides(outcome.value.sidecarTypes, EntryKey, id) == Besides(cfg.sidecarTypes, EntryKey, id))
  {
    hide Accepted;
    var keys := SidecarIds(cfg.sidecarTypes);
    FoundAt(cfg.sidecarTypes, EntryKey, keys, id);
    var index := IndexOf(keys, id);
    if index < |cfg.sidecarTypes| && mask(cfg.sidecarTypes[index]).Some? {
      var merged := mask(cfg.sidecarTypes[index]).value.(id := id, order := cfg.sidecarTypes[index].order);
      assert forall j :: 0 <= j < index ==> keys[j] == cfg.sidecarTypes[j].id;
      AfterReplace(cfg.sidecarTypes, EntryKey, index, merged);
    }
  }

  /** And it is refused only for a blank name, an unknown category, or a table that
      no longer compiles. */
  lemma UpdatedEntryIsAccepted(env: Env, cfg: Config, id: string, mask: SidecarEntry -> Option<SidecarEntry>, i: nat)
    requires Distinct(SidecarIds(cfg.sidecarTypes)) && i < |cfg.sidecarTypes| && cfg.sidecarTypes[i].id == id
    requires mask(cfg.sidecarTypes[i]).Some?
    ensures var m := mask(cfg.sidecarTypes[i]).value;
      var table := cfg.sidecarTypes[i := SidecarEntry(id, m.typeName, m.category, cfg.sidecarTypes[i].order, m.patterns, m.extensions)];
      Applied(env, UpdateSidecarType(id, mask), cfg).Ok? <==> ValidEntry(m) && Accepted(env, table)
  {
    hide Accepted;
    assert SidecarIds(cfg.sidecarTypes)[i] == id;
    assert IndexOf(SidecarIds(cfg.sidecarTypes), id) == i;
  }

  lemma DeletedEntryIsGone(env: Env, cfg: Config, id: string)
    ensures var outcome := Applied(env, DeleteSidecarType(id), cfg);
      match EntryAt(cfg, id)
      case None => outcome == Err(Status.NotFound)
      case Some(_) =>
        && outcome.Ok? && |outcome.value.sidecarTypes| == |cfg.sidecarTypes| - 1
        && (Distinct(SidecarIds(cfg.sidecarTypes)) ==> EntryAt(outcome.value, id).None?)
        && Besides(outcome.value.sidecarTypes, EntryKey, id) == Besides(cfg.sidecarTypes, EntryKey, id)
  {
    var keys := SidecarIds(cfg.sidecarTypes);
    FoundAt(cfg.sidecarTypes, EntryKey, keys, id);
    var index := IndexOf(keys, id);
    if index < |cfg.sidecarTypes| {
      AfterRemove(cfg.sidecarTypes, EntryKey, keys, index);
    }
  }

  /** A row moved to another order and otherwise as it was. */
  predicate Moved(before: SidecarEntry, after: SidecarEntry, order: int) {
    && after.order == order && after.id == before.id && after.typeName == before.typeName
    && after.category == before.category && after.patterns == before.patterns && after.extensions == before.extensions
  }

  ghost predicate MovedTo(before: seq<SidecarEntry>, after: seq<SidecarEntry>, orders: map<string, int>) {
    && |after| == |before|
    && forall i :: 0 <= i < |before| ==> before[i].id in orders && Moved(before[i], after[i], orders[before[i].id])
  }

  /** A reorder that succeeds moves every row to its order, in place; one succeeds
      exactly when it names the stored ids, all and only, and the table so moved
      compiles. */
  lemma ReorderReadsBack(env: Env, cfg: Config, orders: map<string, int>)
    ensures var outcome := Applied(env, ReorderSidecarTypes(orders), cfg);
      && (outcome.Err? ==> outcome == Err(BadRequest))
      && (outcome.Ok? ==> MovedTo(cfg.sidecarTypes, outcome.value.sidecarTypes, orders))
      && (outcome.Ok? <==>
            && (forall id :: id in orders <==> id in SidecarIds(cfg.sidecarTypes))
            && exists table :: MovedTo(cfg.sidecarTypes, table, orders) && Accepted(env, table))
  {
    hide Accepted;
    var types := cfg.sidecarTypes;
    if NamesEveryEntry(types, orders) {
      assert MovedTo(types, Reordered(types, orders), orders);
      forall id | id in SidecarIds(types) ensures id in orders {
        var i :| 0 <= i < |types| && SidecarIds(types)[i] == id;
        assert types[i].id in orders;
      }
    }
    if table :| MovedTo(types, table, orders) && Accepted(env, table) {
      assert table == Reordered(types, orders);
    }
  }

  lemma ResetReadsBack(env: Env, cfg: Config)
    ensures Applied(env, ResetSidecarTypes, cfg).Ok? && Applied(env, ResetSidecarTypes, cfg).value.sidecarTypes == env.defaults
  {
  }

  // ---------------------------------------------------------------------
  // Sonarr instances
  // ---------------------------------------------------------------------

  /** The instance as given, with a storage section made up if it has none. */
  predicate StoredAs(given: SonarrInstance, stored: SonarrInstance) {
    && stored.settings == given.settings
    && stored.storage == Some(if given.storage.Some? then given.storage.value else "")
  }

  lemma CreatedSonarrReadsBack(env: Env, cfg: Config, s: SonarrInstance)
    ensures var outcome := Applied(env, CreateSonarr(s), cfg);
      && (outcome.Ok? <==> s.slug != "" && InstanceAt(cfg, s.slug).None?)
      && (outcome.Ok? ==>
            && InstanceAt(outcome.value, s.slug).Some?
            && var r := InstanceAt(outcome.value, s.slug).value;
               && r.slug == s.slug && StoredAs(s, r)
               && Besides(outcome.value.sonarr, InstanceKey, s.slug) == Besides(cfg.sonarr, InstanceKey, s.slug))
      && (s.slug == "" ==> outcome == Err(BadRequest))
      && (s.slug != "" && InstanceAt(cfg, s.slug).Some? ==> outcome == Err(Conflict))
  {
    var keys := SonarrSlugs(cfg.sonarr);
    FoundAt(cfg.sonarr, InstanceKey, keys, s.slug);
    MissingKey(keys, s.slug);
    AfterAppend(cfg.sonarr, InstanceKey, WithStorage(s));
  }

  lemma UpdatedSonarrReadsBack(env: Env, cfg: Config, slug: string, patch: SonarrInstance,
                               mask: SonarrInstance -> Option<SonarrInstance>, allowMissing: bool)
    ensures var outcome := Applied(env, UpdateSonarr(slug, patch, mask, allowMissing), cfg);
      match InstanceAt(cfg, slug)
      case None => outcome == if allowMissing then Applied(env, CreateSonarr(patch), cfg) else Err(Status.NotFound)
      case Some(stored) =>
        match mask(stored)
        case None => outcome == Err(BadMask)
        case Some(m) =>
          if slug == "" then outcome == Err(BadRequest)
          else
            && outcome.Ok? && InstanceAt(outcome.value, slug).Some?
            && var r := InstanceAt(outcome.value, slug).value;
               && r.slug == slug && StoredAs(m, r) && |outcome.value.sonarr| == |cfg.sonarr|
               && Besides(outcome.value.sonarr, InstanceKey, slug) == Besides(cfg.sonarr, InstanceKey, slug)
  {
    var keys := SonarrSlugs(cfg.sonarr);
    FoundAt(cfg.sonarr, InstanceKey, keys, slug);
    var index := IndexOf(keys, slug);
    if index < |cfg.sonarr| && mask(cfg.sonarr[index]).Some? {
      var merged := WithStorage(mask(cfg.sonarr[index]).value.(slug := slug));
      assert forall j :: 0 <= j < index ==> keys[j] == cfg.sonarr[j].slug;
      AfterReplace(cfg.sonarr, InstanceKey, index, merged);
    }
  }

  lemma DeletedSonarrIsGone(env: Env, cfg: Config, slug: string)
    ensures var outcome := Applied(env, DeleteSonarr(slug), cfg);
      match InstanceAt(cfg, slug)
      case None => outcome == Err(Status.NotFound)
      case Some(_) =>
        && outcome.Ok? && |outcome.value.sonarr| == |cfg.sonarr| - 1
        && (Distinct(SonarrSlugs(cfg.sonarr)) ==> InstanceAt(outcome.value, slug).None?)
        && Besides(outcome.value.sonarr, InstanceKey, slug) == Besides(cfg.sonarr, InstanceKey, slug)
  {
    var keys := SonarrSlugs(cfg.sonarr);
    FoundAt(cfg.sonarr, InstanceKey, keys, slug);
    var index := IndexOf(keys, slug);
    if index < |cfg.sonarr| {
      AfterRemove(cfg.sonarr, InstanceKey, keys, index);
    }
  }

  // ---------------------------------------------------------------------
  // The scalar sections, and what a read fills in
  // ---------------------------------------------------------------------

  predicate Given(field: Option<string>, before: string, after: string) {
    after == if field.Some? then field.value else before
  }

  /** Each admin field is set on its own or left alone; a blank one is refused, and
      so is a request that gives none. */
  lemma AdminReadsBack(env: Env, cfg: Config, username: Option<string>, email: Option<string>, scheme: Option<AuthScheme>,
                       credential: Option<string>)
    ensures var outcome := Applied(env, UpdateAdmin(username, email, scheme, credential), cfg);
      && (outcome.Ok? <==>
            && username != Some("") && email != Some("") && scheme != Some(Unspecified)
            && (username.Some? || email.Some? || scheme.Some? || credential.Some?))
      && (outcome.Ok? ==>
            var was, now := cfg.admin, outcome.value.admin;
            && Given(username, was.username, now.username) && Given(email, was.email, now.email)
            && Given(credential, was.credential, now.credential)
            && now.scheme == if scheme.Some? then scheme.value else was.scheme)
      && (outcome.Err? ==> outcome == Err(
            if username.None? && email.None? && scheme.None? && credential.None? then BadMask else BadRequest))
  {
  }

  lemma ScalarsReadBack(env: Env, cfg: Config, countMask: int -> Option<int>, levelMask: string -> Option<string>,
                        busMask: EventBusSettings -> Option<EventBusSettings>, secret: string)
    ensures var outcome := Applied(env, UpdateScannerConfig(countMask), cfg);
      && (outcome.Ok? <==> countMask(cfg.parallelCount).Some? && countMask(cfg.parallelCount).value > 0)
      && (outcome.Ok? ==> Some(outcome.value.parallelCount) == countMask(cfg.parallelCount))
    ensures var outcome := Applied(env, UpdateLogging(levelMask), cfg);
      && (outcome.Ok? <==> levelMask(cfg.serverLevel) == Some("info") || levelMask(cfg.serverLevel) == Some("debug"))
      && (outcome.Ok? ==> Some(outcome.value.serverLevel) == levelMask(cfg.serverLevel))
    ensures var outcome := Applied(env, UpdateEventBus(busMask), cfg);
      && (outcome.Ok? <==> busMask(cfg.eventBus).Some? && ValidBus(busMask(cfg.eventBus).value))
      && (outcome.Ok? ==> Some(outcome.value.eventBus) == busMask(cfg.eventBus))
    ensures Applied(env, RotateSecret(secret), cfg).Ok? && Applied(env, RotateSecret(secret), cfg).value.hmacSecret == secret
  {
  }

  /** A read fills an unset scheme and missing storage sections, and nothing else. */
  lemma NormalizeFillsOnly(cfg: Config, section: Section, i: nat)
    ensures var r := Normalize(cfg);
      && (section != AdminSection && section != SonarrSection ==> SameSection(section, cfg, r))
      && (r.admin.username, r.admin.email, r.admin.credential) == (cfg.admin.username, cfg.admin.email, cfg.admin.credential)
      && r.admin.scheme == (if cfg.admin.scheme == Unspecified then NoAuth else cfg.admin.scheme)
      && |r.sonarr| == |cfg.sonarr|
      && (i < |r.sonarr| ==> r.sonarr[i].slug == cfg.sonarr[i].slug && StoredAs(cfg.sonarr[i], r.sonarr[i]))
  {
  }
}

/** Startup seeding: one pass over the admin account, one over every other
    section, each writing only when it changed something. */
module Bootstrap {
  import opened Options
  import opened ConfigModel
  import opened ConfigDocument
  import opened ConfigOps
  import opened SidecarMerge
  import opened SidecarTable

  /** The embedded defaults. */
  datatype Builtins = Builtins(
    parallelCount: int, sidecarTypes: seq<SidecarEntry>, serverLevel: string, eventBus: EventBusSettings,
    username: string, email: string)

  /** Every default is one a later pass recognises as set. */
  predicate WholeBuiltins(b: Builtins) {
    b.parallelCount != 0 && b.sidecarTypes != [] && b.serverLevel != "" && b.eventBus.retentionHours != 0 && b.username != ""
  }

  /** Nothing left for the static steps to fill. */
  predicate Seeded(b: Builtins, cfg: Config) {
    && cfg.parallelCount != 0 && cfg.sidecarTypes != [] && cfg.serverLevel != "" && cfg.eventBus.retentionHours != 0
    && (forall d :: d in b.sidecarTypes ==> d.id in Ids(cfg.sidecarTypes))
    && cfg.hmacSecret != ""
  }

  predicate AdminSeeded(cfg: Config) {
    cfg.admin.username != "" && cfg.admin.credential != ""
  }

  method DirectoryScannerDefaultsStep(d: Document, b: Builtins) returns (changed: bool)
    modifies d
    ensures changed <==> old(d.config.parallelCount) == 0
    ensures d.config == if changed then old(d.config).(parallelCount := b.parallelCount, scanDirectories := []) else old(d.config)
  {
    changed := d.config.parallelCount == 0;
    if changed {
      d.config := d.config.(parallelCount := b.parallelCount, scanDirectories := []);
    }
  }

  method SidecarTypesSeedStep(d: Document, b: Builtins) returns (changed: bool)
    modifies d
    ensures changed <==> old(d.config.sidecarTypes) == []
    ensures d.config == if changed then old(d.config).(sidecarTypes := b.sidecarTypes) else old(d.config)
  {
    changed := |d.config.sidecarTypes| == 0;
    if changed {
      d.config := d.config.(sidecarTypes := b.sidecarTypes);
    }
  }

  method LoggingDefaultsStep(d: Document, b: Builtins) returns (changed: bool)
    modifies d
    ensures changed <==> old(d.config.serverLevel) == ""
    ensures d.config == if changed then old(d.config).(serverLevel := b.serverLevel) else old(d.config)
  {
    changed := d.config.serverLevel == "";
    if changed {
      d.config := d.config.(serverLevel := b.serverLevel);
    }
  }

  method EventBusDefaultsStep(d: Document, b: Builtins) returns (changed: bool)
    modifies d
    ensures changed <==> old(d.config.eventBus.retentionHours) == 0
    ensures d.config == if changed then old(d.config).(eventBus := b.eventBus) else old(d.config)
  {
    changed := d.config.eventBus.retentionHours == 0;
    if changed {
      d.config := d.config.(eventBus := b.eventBus);
    }
  }

  /** The table after the merge step: the stored rows kept as they are, first. */
  predicate TableMerged(b: Builtins, before: seq<SidecarEntry>, after: seq<SidecarEntry>) {
    && before <= after
    && (IdsDiffer(before) ==> IdsDiffer(after))
    && (OrdersOnce(before) && Headroom(before, b.sidecarTypes) ==> OrdersOnce(after))
    && (before != [] ==> forall d :: d in b.sidecarTypes ==> d.id in Ids(after))
  }

  method SidecarTypesMergeMissingStep(d: Document, b: Builtins) returns (changed: bool, added: nat)
    modifies d
    ensures changed <==> old(d.config.sidecarTypes) != [] &&
                         exists e :: e in b.sidecarTypes && e.id !in Ids(old(d.config.sidecarTypes))
    ensures d.config == old(d.config).(sidecarTypes := d.config.sidecarTypes)
    ensures TableMerged(b, old(d.config.sidecarTypes), d.config.sidecarTypes)
    ensures |d.config.sidecarTypes| == |old(d.config.sidecarTypes)| + added && (!changed ==> added == 0)
  {
    var merged, n := MergeMissingSidecarTypes(d.config.sidecarTypes, b.sidecarTypes);
    if n == 0 {
      return false, 0;
    }
    d.config := d.config.(sidecarTypes := merged);
    changed, added := true, n;
  }

  method HmacSecretSeedStep(d: Document, generated: Option<string>) returns (changed: Result<bool, ()>)
    modifies d
    ensures changed.Err? <==> old(d.config.hmacSecret) == "" && generated.None?
    ensures changed.Err? ==> d.config == old(d.config)
    ensures changed.Ok? ==> (changed.value <==> old(d.config.hmacSecret) == "")
    ensures changed.Ok? ==>
      d.config == if changed.value then old(d.config).(hmacSecret := generated.value) else old(d.config)
  {
    if d.config.hmacSecret != "" {
      return Ok(false);
    }
    if generated.None? {
      return Err(());
    }
    d.config := d.config.(hmacSecret := generated.value);
    changed := Ok(true);
  }

  /** What the static steps may have touched. */
  predicate OnlyStaticSections(before: Config, after: Config) {
    && after.admin == before.admin && after.sonarr == before.sonarr && after.agents == before.agents
    && (after.scanDirectories == if before.parallelCount == 0 then [] else before.scanDirectories)
  }

  /** The steps in order. They report a change exactly when something was missing,
      and after them nothing is. */
  method StaticConfigSteps(d: Document, b: Builtins, generated: Option<string>) returns (changed: Result<bool, ()>)
    requires generated != Some("")
    modifies d
    ensures changed.Err? <==> old(d.config.hmacSecret) == "" && generated.None?
    ensures changed.Ok? ==> (changed.value <==> !Seeded(b, old(d.config)))
    ensures changed == Ok(false) ==> d.config == old(d.config)
    ensures changed.Ok? && WholeBuiltins(b) ==> Seeded(b, d.config)
    ensures OnlyStaticSections(old(d.config), d.config)
    ensures var was := old(d.config.sidecarTypes);
            TableMerged(b, if was == [] then b.sidecarTypes else was, d.config.sidecarTypes)
  {
    hide TableMerged, Ids;
    var first := DirectoryScannerDefaultsStep(d, b);
    var second := SidecarTypesSeedStep(d, b);
    var third := LoggingDefaultsStep(d, b);
    var fourth := EventBusDefaultsStep(d, b);
    BuiltinsNameThemselves(b);
    var fifth, added := SidecarTypesMergeMissingStep(d, b);
    MergedNamesBuiltins(b, if old(d.config.sidecarTypes) == [] then b.sidecarTypes else old(d.config.sidecarTypes),
                        d.config.sidecarTypes);
    var last := HmacSecretSeedStep(d, generated);
    if last.Err? {
      return last;
    }
    changed := Ok(first || second || third || fourth || fifth || last.value);
  }

  lemma BuiltinsNameThemselves(b: Builtins)
    ensures forall d :: d in b.sidecarTypes ==> d.id in Ids(b.sidecarTypes)
  {
  }

  lemma MergedNamesBuiltins(b: Builtins, before: seq<SidecarEntry>, after: seq<SidecarEntry>)
    ensures TableMerged(b, before, after) && before != [] ==>
      after != [] && forall d :: d in b.sidecarTypes ==> d.id in Ids(after)
    ensures TableMerged(b, before, after) && |after| == |before| ==> after == before
  {
  }

  /** A missing account is created open; a locked-out one only gets a credential. */
  function WithSeededAdmin(b: Builtins, cfg: Config, credential: string): (r: Config)
    ensures credential != "" && b.username != "" ==> AdminSeeded(r)
  {
    if cfg.admin.username == "" then cfg.(admin := Admin(b.username, b.email, credential, NoAuth))
    else cfg.(admin := cfg.admin.(credential := credential))
  }

  /** Either way only the account changes: one that had a name keeps it, its mail
      address and its scheme. */
  lemma SeedingKeepsTheAccount(b: Builtins, cfg: Config, credential: string)
    ensures var r := WithSeededAdmin(b, cfg, credential);
      && r == cfg.(admin := r.admin) && r.admin.credential == credential
      && (cfg.admin.username != "" ==>
            r.admin.username == cfg.admin.username && r.admin.email == cfg.admin.email && r.admin.scheme == cfg.admin.scheme)
      && (cfg.admin.username == "" ==>
            r.admin.username == b.username && r.admin.email == b.email && r.admin.scheme == NoAuth)
  {
  }

  // ---------------------------------------------------------------------
  // The stored document, and the two writes of a startup
  // ---------------------------------------------------------------------

  /** The stored document, and how often it has been written. */
  class ConfigFile {
    var stored: Config
    var writes: nat

    constructor (stored: Config)
      ensures this.stored == stored && writes == 0
    {
      this.stored, writes := stored, 0;
    }

    /** Seeds the admin account, or recovers one locked out, never both. */
    method SeedAdmin(b: Builtins, credential: Option<string>) returns (ok: bool)
      requires credential != Some("")
      modifies this
      ensures ok <==> AdminSeeded(old(stored)) || credential.Some?
      ensures !ok || AdminSeeded(old(stored)) ==> stored == old(stored) && writes == old(writes)
      ensures ok && !AdminSeeded(old(stored)) ==> writes == old(writes) + 1
      ensures ok && !AdminSeeded(old(stored)) ==> stored == WithSeededAdmin(b, Normalize(old(stored)), credential.value)
    {
      var cfg := Normalize(stored);
      if cfg.admin.username != "" && cfg.admin.credential != "" {
        return true;
      }
      if credential.None? {
        return false;
      }
      if cfg.admin.username == "" {
        cfg := cfg.(admin := Admin(b.username, b.email, credential.value, NoAuth));
      } else {
        cfg := cfg.(admin := cfg.admin.(credential := credential.value));
      }
      stored, writes := cfg, writes + 1;
      ok := true;
    }

    method SeedStaticConfig(b: Builtins, generated: Option<string>) returns (ok: bool)
      requires generated != Some("")
      modifies this
      ensures ok <==> old(stored).hmacSecret != "" || generated.Some?
      ensures !ok || Seeded(b, old(stored)) ==> stored == old(stored) && writes == old(writes)
      ensures ok && !Seeded(b, old(stored)) ==> writes == old(writes) + 1
      ensures ok && WholeBuiltins(b) ==> Seeded(b, stored)
      ensures OnlyStaticSections(Normalize(old(stored)), stored) || stored == old(stored)
      ensures var was := old(stored).sidecarTypes;
              ok ==> TableMerged(b, if was == [] then b.sidecarTypes else was, stored.sidecarTypes) || stored == old(stored)
    {
      hide TableMerged, Ids;
      var d := new Document(Normalize(stored));
      var changed := StaticConfigSteps(d, b, generated);
      if changed.Err? {
        return false;
      }
      if changed.value {
        stored, writes := d.config, writes + 1;
      }
      ok := true;
    }

    /** A startup. Once one has succeeded, the next writes nothing. */
    method Startup(b: Builtins, credential: Option<string>, generated: Option<string>) returns (ok: bool)
      requires credential != Some("") && generated != Some("")
      modifies this
      ensures ok && WholeBuiltins(b) ==> Seeded(b, stored) && AdminSeeded(stored)
      ensures Seeded(b, old(stored)) && AdminSeeded(old(stored)) ==> ok && stored == old(stored) && writes == old(writes)
      ensures credential.Some? && generated.Some? ==> ok
      ensures writes <= old(writes) + 2
    {
      hide TableMerged, Ids;
      ok := SeedAdmin(b, credential);
      if !ok {
        return;
      }
      ok := SeedStaticConfig(b, generated);
    }
  }

  /** A restart right after a startup finds nothing to do. */
  method StartTwice(file: ConfigFile, b: Builtins, credential: string, generated: string)
    returns (afterFirst: Config, writesAfterFirst: nat)
    requires WholeBuiltins(b) && credential != "" && generated != ""
    modifies file
    ensures file.stored == afterFirst && file.writes == writesAfterFirst <= old(file.writes) + 2
    ensures Seeded(b, file.stored) && AdminSeeded(file.stored)
  {
    hide Seeded, AdminSeeded;
    var ok := file.Startup(b, Some(credential), Some(generated));
    afterFirst, writesAfterFirst := file.stored, file.writes;
    ok := file.Startup(b, Some(credential), Some(generated));
  }

  /** No call puts a scalar section back to its unset value, so a later startup
      never empties the list of scan directories. */
  lemma NoCallUndoesTheDefaults(env: Env, op: Op, cfg: Config)
    requires cfg.parallelCount != 0 && cfg.serverLevel != "" && cfg.eventBus.retentionHours != 0
    ensures var outcome := Applied(env, op, cfg);
            outcome.Ok? ==>
              && outcome.value.parallelCount != 0 && outcome.value.serverLevel != ""
              && outcome.value.eventBus.retentionHours != 0
  {
    hide Accepted, MappingFault, ValidSlug, ValidDirectory, ValidEntry, Reordered, NamesEveryEntry;
  }
}

/** The application config document and the lookups every service shares. */
module ConfigModel {
  import opened Options

  datatype Mapping = Mapping(scannerSlug: string, agentPath: string)

  datatype Agent = Agent(slug: string, displayName: string, logLevel: string, mappings: seq<Mapping>)

  datatype ScanDirectory = ScanDirectory(scannerSlug: string, directory: string, scanType: string)

  /** One stored row of the sidecar classification table. Order zero is the
      disabled sentinel, so any number of rows may hold it. */
  datatype SidecarEntry = SidecarEntry(
    id: string, typeName: string, category: string, order: int, patterns: seq<string>, extensions: seq<string>)

  /** settings stands for the fields no rule reads: name, address, key. */
  datatype SonarrInstance = SonarrInstance(slug: string, settings: seq<string>, storage: Option<string>)

  datatype AuthScheme = Unspecified | NoAuth | Password

  datatype Admin = Admin(username: string, email: string, credential: string, scheme: AuthScheme)

  datatype Config = Config(
    admin: Admin,
    sonarr: seq<SonarrInstance>,
    parallelCount: int,
    scanDirectories: seq<ScanDirectory>,
    sidecarTypes: seq<SidecarEntry>,
    agents: seq<Agent>,
    serverLevel: string,
    eventBus: EventBusSettings,
    hmacSecret: string)

  datatype EventBusSettings = EventBusSettings(
    maxLen: int, retentionHours: int, retryAttempts: int, retryBackoffBaseMs: int, retryBackoffMaxMs: int)

  /** The first position whose key is the one asked for, or the length. */
  function IndexOf(keys: seq<string>, key: string): (i: nat)
    ensures i <= |keys|
    ensures forall j :: 0 <= j < i ==> keys[j] != key
    ensures i < |keys| ==> keys[i] == key
  {
    if keys == [] || keys[0] == key then 0
    else
      var rest := IndexOf(keys[1..], key);
      assert forall j :: 1 <= j < rest + 1 ==> keys[j] == keys[1..][j - 1];
      rest + 1
  }

  function AgentSlugs(agents: seq<Agent>): (r: seq<string>)
    ensures |r| == |agents| && forall i :: 0 <= i < |r| ==> r[i] == agents[i].slug
  {
    seq(|agents|, i requires 0 <= i < |agents| => agents[i].slug)
  }

  function ScannerSlugs(directories: seq<ScanDirectory>): (r: seq<string>)
    ensures |r| == |directories| && forall i :: 0 <= i < |r| ==> r[i] == directories[i].scannerSlug
  {
    seq(|directories|, i requires 0 <= i < |directories| => directories[i].scannerSlug)
  }

  function MappedSlugs(mappings: seq<Mapping>): (r: seq<string>)
    ensures |r| == |mappings| && forall i :: 0 <= i < |r| ==> r[i] == mappings[i].scannerSlug
  {
    seq(|mappings|, i requires 0 <= i < |mappings| => mappings[i].scannerSlug)
  }

  function SidecarIds(entries: seq<SidecarEntry>): (r: seq<string>)
    ensures |r| == |entries| && forall i :: 0 <= i < |r| ==> r[i] == entries[i].id
  {
    seq(|entries|, i requires 0 <= i < |entries| => entries[i].id)
  }

  function SonarrSlugs(instances: seq<SonarrInstance>): (r: seq<string>)
    ensures |r| == |instances| && forall i :: 0 <= i < |r| ==> r[i] == instances[i].slug
  {
    seq(|instances|, i requires 0 <= i < |instances| => instances[i].slug)
  }

  predicate Maps(agent: Agent, scannerSlug: string) {
    scannerSlug in MappedSlugs(agent.mappings)
  }

  /** The first agent mapped to a scan directory. */
  function AgentForScanner(agents: seq<Agent>, scannerSlug: string): (r: Option<Agent>)
    ensures r.Some? ==> r.value in agents && Maps(r.value, scannerSlug)
    ensures r.None? ==> forall a :: a in agents ==> !Maps(a, scannerSlug)
  {
    if agents == [] then None
    else if Maps(agents[0], scannerSlug) then Some(agents[0])
    else AgentForScanner(agents[1..], scannerSlug)
  }

  predicate Distinct(keys: seq<string>) {
    forall i, j :: 0 <= i < j < |keys| ==> keys[i] != keys[j]
  }

  /** Each scan directory belongs to at most one agent, and that agent maps it
      once. */
  ghost predicate OwnersAreUnique(agents: seq<Agent>) {
    && (forall i :: 0 <= i < |agents| ==> Distinct(MappedSlugs(agents[i].mappings)))
    && (forall i, j, slug :: 0 <= i < j < |agents| && Maps(agents[i], slug) ==> !Maps(agents[j], slug))
  }

  /** With unique owners, the first match is the only one. */
  lemma {:induction false} FirstOwnerIsTheOnlyOne(agents: seq<Agent>, i: nat, scannerSlug: string)
    requires OwnersAreUnique(agents) && i < |agents| && Maps(agents[i], scannerSlug)
    ensures AgentForScanner(agents, scannerSlug) == Some(agents[i])
    decreases |agents|
  {
    if i > 0 {
      assert !Maps(agents[0], scannerSlug);
      assert OwnersAreUnique(agents[1..]);
      FirstOwnerIsTheOnlyOne(agents[1..], i - 1, scannerSlug);
    }
  }
}

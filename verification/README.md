# Metarr: verified model

Metarr scans media libraries on agents, streams what it finds to a server that
keeps one record per path, and is configured, monitored and watched through a
small set of concurrent services. This project models its six hardest parts in
Dafny 4.11 and proves what they are for. `dafny verify dfyconfig.toml` checks
everything; a module is a file.

| part | files |
|---|---|
| The scan protocol, end to end: stored timestamps, path algebra, translation between machines, the record store, splitting, at-least-once delivery | Calendar, StoredTime, GoPath, AgentPaths, ScanStore, Splitting, ScanProtocol, ScanRun, LibraryScan |
| Classifying one directory | MediaScan, MediaRules |
| The workflow type system | WorkflowTypes |
| Configuration: the document, the calls that edit it, the locked store, the sidecar table, startup seeding | ConfigModel, ConfigOps, ConfigDocument, ConfigEffects, ConfigStore, SidecarTable, SidecarMerge, Bootstrap |
| Concurrent machines: request/reply, the browser's stream, the rate limiter, the presence watcher, the bus sampler | RequestReply, ReplyHazard, StreamClient, RateLimiter, PresenceWatcher, BusSampler |
| The NFO adapter | TextRules, MetadataValues, NfoAdapter |

How the model is built:

- Code that edits state in place is a class (`LocalDirectoryRepo`,
  `DirectoryScanner`, `Document`, `Store`, `ConfigFile`, `Stream`,
  `InMemoryPubSub`, `Watcher`, `Sampler`, `LinkCollector`, `MethodRateLimit`)
  or a method with loops, proved equal to a function; the laws are lemmas about
  that function.
- Concurrency is a step machine. One event is one step of one call (read the
  clock, load, compare, swap; lock, read, apply, write, propagate, unlock), and
  a theorem quantifies over every sequence of events.
- Regular expressions and name recognisers are functions the model takes as
  arguments and knows nothing about. Field masks are arbitrary partial
  functions on the resource, so the configuration theorems hold for every mask.
- Map iteration picks keys in any order.

Results that go against a first reading of the code or its comments:

- Merging built-in sidecar types guards ids and orders but not type names. The
  merged table still compiles exactly when no missing built-in bears the name of
  a stored type (`SidecarMerge.MergedCompilesIff`); a table that does not
  compile is logged and kept out of the active registry.
- Deleting a scan directory leaves agent mappings dangling exactly when some
  agent was mapped to it (`ConfigOps.DeletionKeepsMappingsIff`).
- The browser's stream leaves a stray timeout behind exactly when a handler that
  is already the only subscriber subscribes again while disconnected
  (`StreamClient.StrayTimerIff`). It never does harm: the stray callback's
  generation is old, and counting only timeouts that would still reconnect,
  "connection or pending reconnect, never both" holds in every history.
- A call that subscribes under a correlation id still in use can leave it, or the
  other call, holding the other's reply. The invariant of the bus survives the
  subscription exactly when the id is free (`RequestReply.FreeIdsExactly`), and
  steps that end in a wrong reply exist exactly when the id is a hazard
  (`ReplyHazard.WrongReplyIff`). The two differ in few cases: an id whose other
  call has its reply waiting unread is in use and harmless
  (`ReplyHazard.ServedHazard`).
- A POSIX directory whose name holds a backslash is read as two directories. The
  path round trip returns exactly the reported path when and only when it holds
  no backslash (`AgentPaths.PathRoundTrip`).
- Agent roots are cleaned but not refused when they end in "..". Translated paths
  stay inside the server's root, and distinct spots keep distinct paths, exactly
  for the roots that do not (`AgentPaths.StaysInsideIffAnchored`,
  `InjectiveIffAnchored`; `ParentRootEscapes` is one that does).
- What narrowing or a shared representation alone allows, some subtype of the
  source always loses: a connection is inherited by all subtypes exactly when the
  source reaches the target by subtyping, transform or wrap
  (`WorkflowTypes.InheritedExactly`).
- If an item's first part is not stored before a later one, the later one's files
  link to the record an older scan left. The link still resolves after the sweep
  exactly when some message of the run wrote that directory after all or the
  sweep spares the old record (`ScanProtocol.LinkSurvivesIff`).
- A clock before the epoch can wrap the rate limiter's subtraction
  (`RateLimiter.ClockBeforeTheEpochBreaksTheOrder`); `ComparisonIsTrueIff` says
  for which readings.

## Model

| member | source | states |
|---|---|---|
| WorkflowTypes.SubtypeIsLayered | internal/shared/workflow/types.go:85-122 | the recursive string test is exactly the reference relation: peel equally many list layers, then equal, dotted prefix or `any` |
| WorkflowTypes.SubtypeAntisymmetric | internal/shared/workflow/types.go:104-122 | two types that are subtypes of each other are the same string |
| WorkflowTypes.SubtypeTransitive | internal/shared/workflow/types.go:104-122 | subtyping composes, for all strings |
| WorkflowTypes.SupertypesAreComparable | internal/shared/workflow/types.go:104-122 | the supertypes of a type form a chain |
| WorkflowTypes.ListSubtyping | internal/shared/workflow/types.go:80-122 | lists are covariant both ways, never comparable with a scalar other than `any`, and never above `any` |
| WorkflowTypes.CanConnect | internal/shared/workflow/types.go:287-320 | the registry loop answers exactly the specified connection |
| WorkflowTypes.FindTransform | internal/shared/workflow/types.go:215-222 | the first transform of a name is the only one |
| WorkflowTypes.ResolveTransform | internal/shared/workflow/types.go:224-238 | a name resolves to a registered transform or to the wrap between those two types, or to nothing |
| WorkflowTypes.ResolutionIsUnique | internal/shared/workflow/types.go:181-238 | a name resolves to at most one transform |
| WorkflowTypes.WrapsExactly | internal/shared/workflow/types.go:318-335 | a wrap is offered exactly from a value that is no list to a list whose element it is a subtype of |
| WorkflowTypes.CandidatesFitAndResolve | internal/shared/workflow/types.go:287-335 | candidates are exactly the transforms that fit plus wrap; each accepts the source, yields a subtype of the target, and its name resolves back to it |
| WorkflowTypes.AutoApplyIsForced | internal/shared/workflow/types.go:267-320 | a transform is attached unasked exactly when it is the one unambiguous bridge and the sockets do not connect directly |
| WorkflowTypes.AllowedExactly | internal/shared/workflow/types.go:267-320 | a connection is allowed exactly by reaching, narrowing or shared representation, and directly exactly without a transform |
| WorkflowTypes.ReachIsMonotone | internal/shared/workflow/types.go:287-335 | a subtype of the source reaches every supertype of the target, and is allowed to |
| WorkflowTypes.InheritedExactly | internal/shared/workflow/types.go:129-335 | a connection stays allowed for every subtype of the source and every supertype of the target exactly when the source reaches the target; any other allowed connection is lost by a named subtype |
| WorkflowTypes.FreshIsRefused | internal/shared/workflow/types.go:129-320 | that subtype: a fresh name below the source, under the list layers both sides share |
| WorkflowTypes.RepresentationIsNotMonotone | internal/shared/workflow/types.go:129-175 | a concrete pair connected by representation whose subtype is refused |
| WorkflowTypes.NarrowingIsNotMonotone | internal/shared/workflow/types.go:287-320 | a concrete narrowing whose subtype is refused |
| StoredTime.StoredOrderIsTimeOrder | internal/shared/scanmodel/stored.go:40-56 | for any two instants in years 0000 to 9999 the stored strings compare bytewise as the instants do |
| StoredTime.ProtoFormParses | internal/shared/scanmodel/stored.go:58-67 | a timestamp with any number of fraction digits that holds it parses back to the instant |
| StoredTime.NormalizeKeepsTheInstant | internal/shared/scanmodel/stored.go:58-67 | normalising rewrites to the stored form of the same instant, and is idempotent |
| StoredTime.SweepFilterMeansOlder | internal/server/mongostore/local_directory_repo.go:256-268 | after normalising, the string filter of the sweep is "older than the start of the scan" |
| StoredTime.RawFormsMisorder | internal/shared/scanmodel/stored.go:40-50 | without normalising, a later instant in the same second sorts first |
| Calendar.DateOrder | internal/shared/scanmodel/stored.go:50-56 | field-by-field order of dates is the order of day numbers |
| Calendar.DigitsOrder | internal/shared/scanmodel/stored.go:50-56 | equally padded decimals compare as numbers, the rest deciding only ties |
| Calendar.GregorianCount | internal/shared/scanmodel/stored.go:50-56 | the days before a year are 365 for each earlier one and one more for every fourth, not for every hundredth, again for every four hundredth |
| GoPath.ParseRender | internal/agent/runtime/nfo_reader.go:99-146 | a cleaned path reads back as its segments |
| GoPath.CleanIsIdempotent | internal/agent/runtime/nfo_reader.go:99-146 | cleaning twice is cleaning once and keeps the meaning |
| GoPath.JoinResolves | internal/agent/runtime/nfo_reader.go:99-146 | joining resolves the second path from where the first ends |
| GoPath.SlashedPrefix | internal/server/agentregistry/paths.go:70-114 | a string prefix ending in a slash is a prefix of whole segments |
| GoPath.RelStaysInside | internal/agent/runtime/nfo_reader.go:114-128 | the test on a relative path accepts exactly the targets at or below the base |
| GoPath.BelowIsTransitive | internal/agent/runtime/nfo_reader.go:99-146 | inside of inside is inside |
| AgentPaths.FoldingIgnoresCase | internal/server/agentregistry/paths.go:90-114 | folded paths compare equal exactly when they agree letter by letter whatever the case |
| AgentPaths.TranslatesExactly | internal/server/agentregistry/paths.go:44-114 | for any root: translation succeeds exactly at or under the agent's root, case folded for Windows roots only, and resolves what lies below from the server's; for a root not ending in ".." that is the same spot |
| AgentPaths.NormalizedForm | internal/server/agentregistry/paths.go:54-68 | a normalised agent path is its components joined, no slash at the end |
| AgentPaths.TranslationStaysInside | internal/server/agentregistry/paths.go:70-88 | under an agent root not ending in "..", every translated path lies inside the server root |
| AgentPaths.StaysInsideIffAnchored | internal/server/agentregistry/paths.go:54-88 | and only under such a root, over all server roots and paths |
| AgentPaths.TranslationIsInjective | internal/server/agentregistry/paths.go:54-102 | under such a root, POSIX or Windows, two paths share a server path exactly when the same names lie below the root; on POSIX, when they normalise alike |
| AgentPaths.InjectiveIffAnchored | internal/server/agentregistry/paths.go:54-102 | no two spots ever share a server path exactly when the root does not end in ".." |
| AgentPaths.ParentRootEscapes | internal/server/agentregistry/paths.go:54-88 | with root "..", a path two levels up is accepted and stored outside the server's library |
| AgentPaths.BackslashNamesCollide | internal/server/agentregistry/paths.go:54-68 | a name holding a backslash collides with a subdirectory |
| AgentPaths.ResolveUnderExactly | internal/agent/runtime/nfo_reader.go:99-128 | refused are exactly absolute paths and those leading out of the root; accepted ones are the cleaned join |
| AgentPaths.ResolveWithinExactly | internal/agent/runtime/nfo_reader.go:114-146 | the second hop: refused are exactly absolute paths, those without an .nfo extension in some case, and those leading out of the directory |
| AgentPaths.ReadsStayInsideTheLibrary | internal/agent/runtime/nfo_reader.go:55-146 | both hops together: the path that is read lies inside the library root and itself ends in .nfo |
| AgentPaths.LocateOnAgent | internal/server/services/local_directories.go:247-299 | the search loop answers exactly the specified location |
| AgentPaths.SameRootIffSameSpot | internal/server/services/local_directories.go:285-299 | a stored root is a configured one exactly when the two lead to one place, as they stand or from the working directory |
| AgentPaths.PathRoundTrip | internal/server/services/local_directories.go:247-276 | translate, store, locate, resolve: the agent gets the path it reported with backslashes read as slashes, so exactly that path if and only if it holds none |
| AgentPaths.LocatedWhereItCameFrom | internal/server/services/local_directories.go:247-276 | the same through the whole configuration, with unique owners: the right agent and slug always, the very path if and only if it holds no backslash |
| ScanStore.LocalDirectoryRepo.ReplaceOne | internal/server/mongostore/local_directory_repo.go:130-186 | replace or insert on path; an existing id is kept |
| ScanStore.LocalDirectoryRepo.UpsertDirectory | internal/server/mongostore/local_directory_repo.go:220-250 | the directory record is stored and its id returned |
| ScanStore.LocalDirectoryRepo.DirectoryIdForPath | internal/server/mongostore/local_directory_repo.go:191-212 | finds the directory record of a path, and only such a record |
| ScanStore.LocalDirectoryRepo.BulkWrite | internal/server/mongostore/local_directory_repo.go:165-186 | every write of the list lands, in order |
| ScanStore.LocalDirectoryRepo.UpsertScanResult | internal/server/mongostore/local_directory_repo.go:130-186 | the store becomes the upsert of the result: directory first, files linked to it |
| ScanStore.LocalDirectoryRepo.EncodeFiles | internal/server/mongostore/local_directory_repo.go:139-186 | the write list holds each file once, with root, link and stored timestamps set |
| ScanStore.LocalDirectoryRepo.DeleteStaleRecords | internal/server/mongostore/local_directory_repo.go:256-268 | exactly this root's records with an older timestamp are gone |
| ScanStore.PutAllLands | internal/server/mongostore/local_directory_repo.go:165-186 | with distinct paths every document is stored, whatever the order |
| ScanStore.PutAllFrame | internal/server/mongostore/local_directory_repo.go:165-186 | unnamed paths are untouched and existing ids kept |
| ScanStore.PutAllAgain | internal/server/mongostore/local_directory_repo.go:165-186 | writing what is stored changes nothing |
| ScanStore.OperationsKeepIdsSound | internal/server/mongostore/local_directory_repo.go:130-268 | ids are never shared nor reissued by upsert or sweep |
| Splitting.SendResult | internal/agent/runtime/scanner.go:203-227 | publishes exactly the item's messages, or a prefix when a publish fails |
| Splitting.SendResultInParts | internal/agent/runtime/scanner.go:229-286 | the loop publishes the parts in order and stops at the first failure |
| Splitting.PartCountIsCeiling | internal/agent/runtime/scanner.go:229-286 | the part count is the least number of chunks that holds every file |
| Splitting.PartsFitTheCap | internal/agent/runtime/scanner.go:19-25 | an item that does not fit whole goes out in parts of one file or of a file count whose estimated size is within the cap, and every part but the last is as full as the cap allows |
| Splitting.FewestParts | internal/agent/runtime/scanner.go:229-286 | no other split within the cap has fewer parts |
| Splitting.PartsHoldTheItem | internal/agent/runtime/scanner.go:203-286 | parts are non-empty, numbered in order, carry the directory once in front, and concatenate to the item's files |
| Splitting.SplittingIsInvisible | internal/agent/runtime/scanner.go:203-286 | storing the parts in order gives the very store the whole item would, links included |
| ScanProtocol.SettledIsFixed | internal/server/listeners/agent_scan_result_listener.go:62-154 | applying a message the store already reflects changes nothing |
| ScanProtocol.UpsertFrame | internal/server/mongostore/local_directory_repo.go:130-186 | an upsert touches only the paths its result names, and keeps every id |
| ScanProtocol.UpsertSays | internal/server/mongostore/local_directory_repo.go:130-186 | after an upsert each record holds its own file's or directory's kind, root, content and timestamp, field by field, and each file links to the directory of the result |
| ScanProtocol.ResultsSettle | internal/server/mongostore/local_directory_repo.go:130-186 | once applied, a result stays reflected for the rest of the run |
| ScanProtocol.SweepKeepsSettled | internal/server/mongostore/local_directory_repo.go:256-268 | the sweep removes nothing the run wrote |
| ScanProtocol.DuplicatesChangeNothing | internal/server/listeners/agent_scan_result_listener.go:62-154 | redelivering any messages, any number of times, gives the store of delivering each once, ids included |
| ScanProtocol.CompletedRun | internal/server/listeners/agent_scan_result_listener.go:62-154 | after completion this root holds exactly the paths the results wrote, each record saying what its result said, every file's link is its directory record's id, ids kept, every other root untouched |
| ScanProtocol.DoneIsOlder | internal/server/mongostore/local_directory_repo.go:256-268 | after a completed run every record under the root is older than any cutoff above the timestamps the run reported |
| ScanProtocol.SecondScan | internal/server/mongostore/local_directory_repo.go:130-268 | so a second run, whatever it reports, removes exactly the paths of this root it does not report |
| ScanProtocol.LinkSurvivesIff | internal/server/mongostore/local_directory_repo.go:130-268 | in any run, first parts missing or late: which record a later part's files link to, and that after the sweep the link resolves exactly when the run wrote that directory or the older record is not stale |
| ScanProtocol.DroppedFirstPartDangles | internal/server/mongostore/local_directory_repo.go:188-212 | one later part alone: its link resolves after the sweep exactly when no older directory record was there or the sweep spares it |
| ScanRun.TranslateResult | internal/server/agentregistry/paths.go:116-161 | each of the five absolute paths of a result is rewritten, empty optional ones left alone, or the whole result is refused |
| ScanRun.Handle | internal/server/listeners/agent_scan_result_listener.go:62-154 | the listener applies exactly the server's message, or fails leaving the store alone |
| ScanRun.FirstPartCameFirst | internal/agent/runtime/scanner.go:157-201 | in any interleaving of senders, a later part was preceded by its item's first |
| ScanRun.PartsAreApart | internal/agent/runtime/scanner.go:229-286 | parts of an item name no path twice |
| ScanRun.SentIsRun | internal/agent/runtime/scanner.go:82-201 | whatever the interleaving, and wherever items stop, what the agent sends meets the protocol's conditions |
| ScanRun.ArrivedPart | internal/server/agentregistry/paths.go:116-161 | translation and normalisation commute with splitting |
| ScanRun.WholeRun | internal/agent/runtime/scanner.go:82-286 | one scan end to end: any agent root not ending in "..", POSIX or Windows, any items, interleaving, splitting and redelivery; under the server root exactly the reported paths remain, each holding the content, kind and instant the agent sent and each file linked to the directory it names; nothing else changes |
| ScanRun.ItemArrives | internal/agent/runtime/scanner.go:157-286 | with every part sent, the records of every item have arrived whole |
| ScanRun.RunsChain | internal/agent/runtime/scanner.go:82-201 | a whole run leaves the store as a later one needs to find it: all records under the root older than its start |
| ScanRun.ListenerAppliesTheLog | internal/server/listeners/agent_scan_result_listener.go:62-200 | with the mapping configured, a result is accepted exactly when all its paths lie under the agent's root, and each accepted message becomes exactly the message the run theorem speaks of |
| ScanRun.TranslatesIff | internal/server/agentregistry/paths.go:116-161 | a result translates exactly when every path it writes or mentions lies under the agent's root |
| ScanRun.SentIsEverything | internal/agent/runtime/scanner.go:157-286 | when every part went out, the messages write exactly the paths the items do |
| LibraryScan.PosixJoinsNames | internal/agent/mediascan/scan.go:714-760 | joining sound names onto a POSIX root appends them, segment by segment |
| LibraryScan.WindowsJoinsNames | internal/agent/mediascan/scan.go:714-760 | so does joining with backslashes onto a Windows root |
| LibraryScan.ScannedIsItem | internal/agent/mediascan/scan.go:714-778 | what a completed classification sends is one whole item: under the root, no path twice, every file naming the item's directory |
| LibraryScan.LibraryIsAgentItems | internal/agent/runtime/scanner.go:298-318 | the item directories of one library, classified, meet all that the run theorem asks |
| LibraryScan.LibraryIsMirrored | internal/agent/runtime/scanner.go:82-286 | from tree to store: with everything sent, the server's records under its root stand exactly where the library has an item directory or a video that plays, read off the tree, name for name; each says what its own item's scan found, with the instant of that scan, and each file links to its item's directory |
| MediaScan.WalkIsParentsFirst | internal/agent/mediascan/scan.go:157-222 | a folder is met before anything in it |
| MediaScan.WalkedPathsAreDistinct | internal/agent/mediascan/scan.go:157-222 | no path is met twice |
| MediaScan.DirectoryScanner.Walk | internal/agent/mediascan/scan.go:157-271 | the memoised context of each folder is the fold over its ancestors, and each file carries its folder's |
| MediaRules.WalkIsTheTree | internal/agent/mediascan/scan.go:157-222 | the walk hands over exactly the nodes of the tree that are readable, not ignored and in no ignored folder |
| MediaRules.DiscFoldersMark | internal/agent/mediascan/scan.go:223-271 | a file is in a disc structure exactly when some folder above it is a disc folder |
| MediaRules.OutermostExtrasDecide | internal/agent/mediascan/scan.go:223-271 | the kind of extra is that of the outermost extras folder, none without one |
| MediaRules.OutermostSeasonDecides | internal/agent/mediascan/scan.go:223-271 | season number and season folder are those of the outermost season folder, none without one |
| MediaRules.InnermostTrickplayDecides | internal/agent/mediascan/scan.go:223-271 | the previewed video is named by the innermost trickplay folder, the sizes by the first folder below it that gives a width |
| MediaRules.ScanFindsThePlayable | internal/agent/mediascan/scan.go:157-295 | the media records of a scan are exactly the videos of the tree with no disc or extras folder above them and no extras suffix |
| MediaScan.DirectoryScanner.IdentifyMediaFiles | internal/agent/mediascan/scan.go:273-295 | candidates are exactly the playable videos in walk order, and the name index finds the last of a name |
| MediaScan.DirectoryScanner.MatchMediaPrefix | internal/agent/mediascan/scan.go:638-657 | whatever the map order, the longest non-empty base name that is a prefix |
| MediaScan.DirectoryScanner.TrickplayOwnerOf | internal/agent/mediascan/scan.go:454-476 | the video the folder names, and one warning per orphaned folder |
| MediaScan.DirectoryScanner.FindOwner | internal/agent/mediascan/scan.go:403-430 | the owner by trickplay folder, then name, then season artwork, then folder, then the directory |
| MediaScan.DirectoryScanner.ClassifySidecars | internal/agent/mediascan/scan.go:388-430 | every file that is not a media file is filed with its owner, and with nobody else |
| MediaScan.DirectoryScanner.SeasonNumbers | internal/agent/mediascan/scan.go:820-833 | exactly the seasons some folder or sidecar shows, named by a folder that declares them or unnamed |
| MediaScan.DirectoryScanner.AssembleSeasons | internal/agent/mediascan/scan.go:849-868 | season records in ascending order, each with its sidecars |
| MediaScan.LongestNameWins | internal/agent/mediascan/scan.go:388-430 | a sidecar follows the longest-named video of its folder whose name starts its own |
| MediaRules.OwnerExactly | internal/agent/mediascan/scan.go:388-430 | whose sidecar a file is, as a definite rule: the last video a trickplay folder above it names, else the last of the longest-named videos of its folder whose name starts its own, else in a series the season its name gives, else the season of its folder, else the directory |
| MediaScan.NothingLostNothingTwice | internal/agent/mediascan/scan.go:714-868 | the result mentions each file as often as the walk met it |
| MediaScan.Scan | internal/agent/mediascan/scan.go:29-60 | a whole scan: each owner has what its rules give it, every walked file is mentioned exactly once and nothing else at all, and the seasons are exactly those a folder or a sidecar shows, named by a folder that shows it |
| SidecarTable.NormalizedExtensions | internal/shared/scanmodel/sidecar.go:328-344 | trimmed, lowered, dotted, blanks dropped |
| SidecarTable.NewSidecarRegistry | internal/shared/scanmodel/sidecar.go:206-314 | accepted exactly when every entry is sound and no two clash in id, type or non-zero order; every unsound entry is among the reported ones; an empty table means the built-ins |
| SidecarTable.Consider | internal/shared/scanmodel/sidecar.go:222-299 | one entry is registered exactly when it is sound and takes no id, type or order already taken |
| SidecarTable.Match | internal/shared/scanmodel/sidecar.go:350-360 | for any file name: the enabled entry of least order accepting its stem and lowered extension, or none when none accepts |
| SidecarTable.MatchFallsTo | internal/shared/scanmodel/sidecar.go:328-360 | in terms of the stored rows: least order among the enabled ones one of whose patterns matches the stem and which list the extension, trimmed, lowered and dotted, or list none |
| GoPath.StemAndExt | internal/shared/scanmodel/sidecar.go:350-352 | a bare file name is its stem followed by its extension |
| GoPath.ExtIsFromLastDot | internal/shared/scanmodel/sidecar.go:350-352 | the extension starts at the last dot of the last segment, and is empty exactly without one |
| SidecarTable.Lookup | internal/shared/scanmodel/sidecar.go:371-383 | exactly the table's type names resolve, each to its own compiled entry, disabled ones included; enabled means taking part in matching |
| SidecarTable.SortingPermutes | internal/shared/scanmodel/sidecar.go:302-314 | sorting neither drops nor repeats an entry |
| SidecarTable.DisabledComeLast | internal/shared/scanmodel/sidecar.go:302-314 | the full listing goes by order, disabled types last |
| SidecarTable.StrictOrderIsUnique | internal/shared/scanmodel/sidecar.go:302-314 | with distinct orders the evaluation order is determined |
| SidecarTable.TableOrderIsIrrelevant | internal/shared/scanmodel/sidecar.go:206-360 | permuting the stored array changes neither whether it compiles nor any match or lookup |
| SidecarMerge.Place | internal/shared/appconfig/sidecar_types.go:96-108 | a default keeps a free slot, else gets one ten above every taken order |
| SidecarMerge.MergeMissingSidecarTypes | internal/shared/appconfig/sidecar_types.go:70-114 | stored rows untouched and first, every built-in id present, nothing added exactly when nothing is missing; given 32-bit headroom ids and non-zero orders stay distinct, and each addition stands at its own order or, that taken, ten above all before it |
| SidecarMerge.MergedCompilesIff | internal/shared/appconfig/sidecar_types.go:70-114 | the merged table compiles exactly when no missing built-in bears a stored type's name |
| SidecarMerge.RenamedTypeSpoilsTheMerge | internal/shared/appconfig/sidecar_types.go:60-69 | a concrete renamed type that spoils it |
| Bootstrap.StaticConfigSteps | internal/server/bootstrap/bootstrap.go:94-118 | the steps report a change exactly when something was missing, and leave nothing missing |
| Bootstrap.SidecarTypesMergeMissingStep | internal/server/bootstrap/steps.go:56-71 | a change exactly when a built-in id was missing from a non-empty table |
| Bootstrap.DirectoryScannerDefaultsStep | internal/server/bootstrap/steps.go:11-18 | a zero count, and only that, is defaulted, the scan directories emptied with it |
| Bootstrap.SidecarTypesSeedStep | internal/server/bootstrap/steps.go:25-31 | an empty table, and only that, becomes the built-in one |
| Bootstrap.LoggingDefaultsStep | internal/server/bootstrap/steps.go:37-43 | an unset level, and only that, is defaulted |
| Bootstrap.EventBusDefaultsStep | internal/server/bootstrap/steps.go:48-54 | an unset retention, and only that, resets the section |
| Bootstrap.HmacSecretSeedStep | internal/server/bootstrap/steps.go:73-92 | fails exactly when a secret is needed and none can be made |
| Bootstrap.ConfigFile.SeedAdmin | internal/server/appconfigstore/admin_seed.go:32-98 | seeds a missing account or recovers a locked-out one, never both, and writes only then |
| Bootstrap.SeedingKeepsTheAccount | internal/server/appconfigstore/admin_seed.go:32-98 | a locked-out account gets the credential and keeps all else; a missing one is the default account, open |
| Bootstrap.ConfigFile.SeedStaticConfig | internal/server/appconfigstore/store.go:117-140 | one write exactly when a step changed something |
| Bootstrap.ConfigFile.Startup | internal/server/bootstrap/bootstrap.go:64-85 | a startup on a seeded document writes nothing |
| Bootstrap.StartTwice | internal/server/bootstrap/bootstrap.go:64-118 | the second of two startups changes and writes nothing |
| Bootstrap.NoCallUndoesTheDefaults | internal/server/bootstrap/steps.go:8-19 | no call unsets a seeded scalar, so no later startup empties the scan directories |
| ConfigModel.FirstOwnerIsTheOnlyOne | internal/shared/appconfig/model.go:186-200 | with unique owners the first agent mapped to a directory is the only one |
| ConfigOps.FaultFree | internal/server/services/agents.go:346-375 | the mapping check passes exactly the lists that name existing directories, once each, owned by nobody else |
| ConfigOps.NewAgentIsSound | internal/server/services/agents.go:331-344 | adding a checked agent keeps slugs and owners unique |
| ConfigOps.UpdatedAgentIsSound | internal/server/services/agents.go:167-197 | replacing an agent by a checked one does too, whatever the mask did |
| ConfigOps.AgentCallsKeepValid | internal/server/services/agents.go:89-270 | create, update, delete and log level keep the document's rules |
| ConfigOps.DirectoryCallsKeepValid | internal/server/services/directory_scanner.go:159-304 | so do the scan directory calls |
| ConfigOps.SidecarCallsKeepValid | internal/server/services/directory_scanner.go:350-545 | so do the sidecar type calls, deletion to an empty table included |
| ConfigOps.SonarrCallsKeepValid | internal/server/services/sonarr_interfaces.go:69-233 | so do the Sonarr calls |
| ConfigOps.EveryCallKeepsValid | internal/server/services/directory_scanner.go:120-545 | every successful call, of every service, leaves slugs unique, owners unique and the table compilable |
| ConfigOps.EveryCallKeepsNormal | internal/shared/appconfig/model.go:111-174 | no call leaves Normalize anything to fill |
| ConfigOps.DeletionKeepsMappingsIff | internal/server/services/directory_scanner.go:259-280 | deleting a scan directory leaves every mapping resolved exactly when no agent was mapped to it |
| ConfigOps.ResetForgetsTableCalls | internal/server/services/directory_scanner.go:329-545 | after any sidecar-type calls, a reset leaves the document a reset of the first one would: none of them reaches outside the table or can stand in the way, and the table compiles again |
| ConfigEffects.OnlyItsSection | internal/server/services/agents.go:70-262 | a successful call changes its own section of the document and no other |
| ConfigEffects.OthersReadTheSame | internal/server/services/agents.go:167-197 | with the other entries kept, every other key reads as before |
| ConfigEffects.FirstFaultDecides | internal/server/services/agents.go:346-375 | a refused mapping list is refused for its first bad mapping, with the status that mapping deserves |
| ConfigEffects.CreatedAgentReadsBack | internal/server/services/agents.go:70-98 | exactly when a create is accepted, what is then found under the slug, and that all other agents are kept |
| ConfigEffects.UpdatedAgentReadsBack | internal/server/services/agents.go:145-199 | the agent then found under the slug has the display name, level and mappings the mask gave; all others kept; accepted exactly when those mappings could work |
| ConfigEffects.DeletedAgentIsGone | internal/server/services/agents.go:201-228 | the agent alone is gone, or the slug was unknown |
| ConfigEffects.LogLevelReadsBack | internal/server/services/agents.go:230-262 | the level alone is set, on a bare agent if the slug was unknown |
| ConfigEffects.CreatedDirectoryReadsBack | internal/server/services/directory_scanner.go:143-168 | as for agents: accepted exactly with a slug that is not blank or taken and a known type |
| ConfigEffects.UpdatedDirectoryReadsBack | internal/server/services/directory_scanner.go:210-257 | path and type then read as the mask gave them, the slug as before, all others kept |
| ConfigEffects.DeletedDirectoryIsGone | internal/server/services/directory_scanner.go:259-280 | the directory alone is gone, or the slug was unknown |
| ConfigEffects.CreatedEntryReadsBack | internal/server/services/directory_scanner.go:322-366 | the type then found under the minted id is the given one, disabled; all others kept |
| ConfigEffects.UpdatedEntryReadsBack | internal/server/services/directory_scanner.go:412-462 | name, category, patterns and extensions then read as the mask gave them, id and order as before, all others kept |
| ConfigEffects.UpdatedEntryIsAccepted | internal/server/services/directory_scanner.go:412-462 | accepted exactly with a name, a known category and a table that compiles |
| ConfigEffects.DeletedEntryIsGone | internal/server/services/directory_scanner.go:464-483 | the type alone is gone, or the id was unknown |
| ConfigEffects.ReorderReadsBack | internal/server/services/directory_scanner.go:485-529 | every row moves to the order its id was given and is otherwise unchanged; accepted exactly when the stored ids are named, all and only, and the table so moved compiles |
| ConfigEffects.CreatedSonarrReadsBack | internal/server/services/sonarr_interfaces.go:53-78 | accepted exactly with a slug that is not blank or taken; settings read back, storage made up when missing |
| ConfigEffects.UpdatedSonarrReadsBack | internal/server/services/sonarr_interfaces.go:120-168 | settings and storage then read as the mask gave them, all others kept |
| ConfigEffects.DeletedSonarrIsGone | internal/server/services/sonarr_interfaces.go:170-193 | the instance alone is gone, or the slug was unknown |
| ConfigEffects.AdminReadsBack | internal/server/services/admin.go:78-153 | each field is set on its own or left alone; blank fields and empty requests are refused |
| ConfigEffects.ScalarsReadBack | internal/server/services/directory_scanner.go:102-139 | worker count, level, bus settings and secret read back as set, and are refused exactly when out of range |
| ConfigEffects.NormalizeFillsOnly | internal/shared/appconfig/model.go:96-174 | a read fills an unset scheme and missing storage sections, nothing else |
| ConfigDocument.Document.Apply | internal/server/services/directory_scanner.go:226-545 | any call of any service, run in place on the document, does what the specification says or reports its fault |
| ConfigDocument.Document.ValidateMappings | internal/server/services/agents.go:346-375 | the loop returns the first fault of the list, or none |
| ConfigDocument.Document.AppendNewAgent | internal/server/services/agents.go:331-344 | refuses or appends, as specified |
| ConfigDocument.Document.UpdateAgent | internal/server/services/agents.go:167-197 | merges, re-imposes the slug, checks, replaces in place; or upgrades to a create |
| ConfigDocument.Document.UpdateScanDirectory | internal/server/services/directory_scanner.go:226-254 | as specified, the slug never moving |
| ConfigDocument.Document.AppendNewScanDirectory | internal/server/services/directory_scanner.go:294-304 | refuses a bad type, a blank or a taken slug, else appends |
| ConfigDocument.Document.CreateSidecarType | internal/server/services/directory_scanner.go:329-360 | appended disabled under a minted id, and refused if the table no longer compiles |
| ConfigDocument.Document.UpdateSidecarType | internal/server/services/directory_scanner.go:434-458 | id and order never move; refused if the table no longer compiles |
| ConfigDocument.Document.CompileSidecarRegistry | internal/server/services/directory_scanner.go:567-572 | refuses exactly the tables the registry does not accept |
| ConfigDocument.Document.ReorderSidecarTypes | internal/server/services/directory_scanner.go:493-527 | all entries named and no stranger, then every order set at once, or nothing |
| ConfigDocument.Document.UpdateSonarrInstance | internal/server/services/sonarr_interfaces.go:136-163 | as specified, a storage section always present |
| ConfigDocument.Document.AppendNewSonarrInstance | internal/server/services/sonarr_interfaces.go:218-233 | refuses a blank or taken slug, else appends with a storage section |
| ConfigStore.Store.MutateSync | internal/server/appconfigstore/store.go:93-115 | running the call's closure in place on a fresh copy: a refused or failed call changes nothing, a successful one stores the edited copy and makes it live |
| ConfigStore.Store.PropagateInProcess | internal/server/listeners/config_propagator.go:106-134 | live config swapped; the registry only when the table compiles |
| ConfigStore.UninterruptedCall | internal/server/appconfigstore/store.go:93-115 | the steps of one call by itself do what MutateSync does |
| ConfigStore.InvAlways | internal/server/appconfigstore/store.go:93-115 | in every interleaving the lock holder's private copy is what its call makes of the stored document |
| ConfigStore.EveryInterleavingIsSerial | internal/server/appconfigstore/store.go:93-115 | the stored document is the committed calls run one after another, none lost; a call answers ok exactly when committed, once; the document's rules hold; with the lock free after a write, live config and registry are the stored ones |
| StreamClient.Delay | ui/src/api/streams.ts:102-115 | every delay is between 1000 and 30000 milliseconds |
| StreamClient.DelayDoubles | ui/src/api/streams.ts:102-115 | one second first, then twice the last delay up to thirty seconds |
| StreamClient.LossesBackOff | ui/src/api/streams.ts:77-115 | a lost connection closes, waits as long as the losses since the last frame have made it, and is retried counting one more; a frame opens and starts over |
| StreamClient.FirstInLastOut | ui/src/api/streams.ts:49-127 | the first subscriber connects; the last one leaving, or a reset, aborts what is up, leaves nothing due and starts the backing off over |
| StreamClient.StepKeepsInv | ui/src/api/streams.ts:28-128 | each event keeps: one connection, one due reconnect, and listeners exactly when there is either |
| StreamClient.EveryHistory | ui/src/api/streams.ts:28-128 | in every history at most one connection is not aborted, connection and due reconnect exclude each other, and a frame reaches all subscribers when its run is the current one, else nobody |
| StreamClient.StrayTimerIff | ui/src/api/streams.ts:49-57 | a pending timeout that can only fire for nothing appears exactly by resubscribing the sole handler while disconnected |
| StreamClient.OneConnectionOrTimeout | ui/src/api/streams.ts:28-128 | without that, no subscriber means neither connection nor timeout, any subscriber means exactly one |
| StreamClient.ResubscribingLeavesATimer | ui/src/api/streams.ts:49-75 | the shortest history that leaves one |
| StreamClient.Stream.Add | ui/src/api/streams.ts:49-57 | the object's subscribe is the machine's step |
| StreamClient.Stream.Remove | ui/src/api/streams.ts:53-56 | the unsubscribe closure is the machine's step, called however often |
| StreamClient.Stream.Clear | ui/src/api/streams.ts:59-63 | reset drops every subscriber and stops |
| StreamClient.Stream.ScheduleReconnect | ui/src/api/streams.ts:102-115 | one more timeout with the backed-off delay, or none without subscribers |
| StreamClient.Stream.OnFrame | ui/src/api/streams.ts:83-88 | a frame reaches the subscribers, or ends a superseded run |
| StreamClient.Stream.OnEnd | ui/src/api/streams.ts:96-115 | an ended run reconnects only if it is current and not aborted |
| StreamClient.Stream.OnTimeout | ui/src/api/streams.ts:111-114 | a timeout runs again only in its own generation |
| StreamClient.Stream.Stop | ui/src/api/streams.ts:117-127 | aborts, clears the timeout it knows, and moves the generation on |
| RequestReply.InMemoryPubSub.Subscribe | internal/shared/eventbus/pubsubtransport.go:122-131 | live at once, with an empty box of its own |
| RequestReply.InMemoryPubSub.Publish | internal/shared/eventbus/pubsubtransport.go:136-146 | one copy to every subscriber of the channel with room, nobody else touched |
| RequestReply.InMemoryPubSub.Close | internal/shared/eventbus/pubsubtransport.go:148-178 | the subscription is gone, its channel too when it was the last |
| RequestReply.ReplyChannelsAreScoped | internal/shared/eventbus/bus_pubsub.go:40-46 | one reply channel per correlation id |
| RequestReply.NoReplyIsLost | internal/shared/eventbus/bus_pubsub.go:281-325 | a reply published while its caller waits is the only thing in that caller's box, and reaches nobody else |
| RequestReply.NextKeepsInv | internal/shared/eventbus/bus_pubsub.go:138-325 | each step keeps requests genuine, channels private, and mail one's own |
| RequestReply.FreeIdsExactly | internal/shared/eventbus/bus_pubsub.go:138-189 | a subscription keeps the invariant exactly when its id is free, a condition on the state before it |
| RequestReply.EveryAnswerIsItsOwn | internal/shared/eventbus/bus_pubsub.go:138-189 | with free ids, in every interleaving a call that returns got what its own topic's handler made of its own request, under its own id |
| RequestReply.ReuseIsReachable | internal/shared/eventbus/bus_pubsub.go:138-189 | a caller can time out and a second one reuse its id while the request is still queued |
| RequestReply.ReusedIdGetsTheWrongReply | internal/shared/eventbus/bus_pubsub.go:176-189 | in that run the second caller is handed the first one's answer |
| ReplyHazard.WrongReplyIff | internal/shared/eventbus/bus_pubsub.go:138-325 | from any state reached with free ids, subscribing under any id: some later steps hand some call another call's reply exactly when the id is a hazard before the call; never when it is free |
| ReplyHazard.ServedHazard | internal/shared/eventbus/bus_pubsub.go:138-325 | where everything is answered, a hazard is exactly a request in flight under the id or another call under it with an empty box |
| ReplyHazard.UsedIdCanBeHarmless | internal/shared/eventbus/bus_pubsub.go:138-189 | a reachable state whose id is in use and no hazard: its one call has its reply unread |
| ReplyHazard.QuietStaysCalm | internal/shared/eventbus/bus_pubsub.go:138-325 | no send, receive, timeout, take or answer ever brings about a box another call's reply can reach first |
| ReplyHazard.Drain | internal/shared/eventbus/bus_pubsub.go:281-325 | working off a topic's queue either hands an exposed caller somebody else's reply or empties the queue |
| PresenceWatcher.Watcher.ScanOnce | internal/server/agentregistry/presence_watcher.go:98-144 | the new belief, each departed slug once, and every subscriber offered them; a failed scan changes nothing |
| PresenceWatcher.OfferedExactly | internal/server/agentregistry/presence_watcher.go:132-144 | a subscriber gets the slugs in order, as many as its channel has room for |
| PresenceWatcher.Watcher.DropAbsent | internal/server/agentregistry/presence_watcher.go:119-130 | in any map order, exactly the slugs absent for a TTL go offline, each listed once |
| PresenceWatcher.BeliefTracksHistory | internal/server/agentregistry/presence_watcher.go:98-131 | what the maps hold, said of the history of scans alone |
| PresenceWatcher.SignalledExactlyAfterGrace | internal/server/agentregistry/presence_watcher.go:98-144 | a scan signals a slug exactly when it is the first at least one TTL after the slug's last presence, for any clock |
| PresenceWatcher.SignalsAreEdges | internal/server/agentregistry/presence_watcher.go:33-37 | never a signal while present, and a presence between any two |
| RateLimiter.StepKeepsInv | internal/server/httpserver/connect_ratelimit.go:20-27 | each step of each call keeps the admitted times spaced |
| RateLimiter.AdmittedTimesAreSpaced | internal/server/httpserver/middleware.go:39-51 | in every interleaving the admitted times increase strictly and any two are an interval apart, in whatever order the clock is read |
| RateLimiter.ComparisonIsTrueIff | internal/server/httpserver/connect_ratelimit.go:20-27 | exactly which readings the wrapped difference admits |
| RateLimiter.ClockBeforeTheEpochBreaksTheOrder | internal/server/httpserver/connect_ratelimit.go:20-27 | a concrete run that admits an earlier time second |
| RateLimiter.UninterruptedCall | internal/server/httpserver/connect_ratelimit.go:20-27 | a call nobody interrupts is admitted when its comparison passes |
| RateLimiter.MethodRateLimit.Allow | internal/server/httpserver/connect_ratelimit.go:20-27 | admits exactly when the difference is large enough, and remembers the time |
| BusSampler.RingKeepsNewest | internal/server/busstats/busstats.go:327-333 | pushing keeps the newest values up to the depth |
| BusSampler.RingOrCarry | internal/server/busstats/busstats.go:317-325 | a failed read repeats the last sample, and records nothing when there is none |
| BusSampler.CarriedIsLastKnown | internal/server/busstats/busstats.go:317-325 | over any passes, each adds the last value known by then, and nothing before there is one |
| BusSampler.RatesSumToGrowth | internal/server/busstats/busstats.go:356-384 | reported rates sum to the non-negative growth between known readings, an unread pass being caught up |
| BusSampler.SteadyGrowth | internal/server/busstats/busstats.go:410-418 | without a reset that is last minus first |
| BusSampler.Sampler.RecordStreamMetrics | internal/server/busstats/busstats.go:343-408 | the nested loops leave exactly the listed rows' histories, each one sample longer |
| BusSampler.StreamRowIsNewest | internal/server/busstats/busstats.go:343-366 | after a pass the stream's ring ends in its own length and its counter is the one published for it |
| BusSampler.GroupRowIsNewest | internal/server/busstats/busstats.go:367-396 | after a pass each group's rings end in its own consumers, pending, lag and oldest pending age, in that order, its counter the one read for it |
| BusSampler.Push | internal/server/busstats/busstats.go:350-366 | one series found or created, its rate taken, every ring pushed once |
| BusSampler.Prune | internal/server/busstats/busstats.go:398-407 | exactly the unlisted series are dropped |
| BusSampler.SeriesAreTheNewestSamples | internal/server/busstats/busstats.go:343-408 | over any passes the keys are those of the last pass, and every ring holds the newest values since the series was last missing |
| BusSampler.ReportedRatesAreTheGrowth | internal/server/busstats/busstats.go:343-418 | while a series stays listed and the ring is deep enough, its reported rates sum to its growth |
| BusSampler.GroupKeysAreDistinct | internal/server/busstats/streams.go:90-96 | one stream and one group per key |
| MetadataValues.LinkCollector.Add | internal/shared/metadata/links.go:123-152 | a new canonical link, or the default flag on the one already there |
| MetadataValues.LinkCollector.AddLegacyID | internal/shared/metadata/links.go:164-174 | an id of IMDb's shape under imdb, any other under id |
| MetadataValues.LinksFromUniqueIDs | internal/shared/metadata/links.go:59-71 | the loop gives exactly the specified links |
| MetadataValues.UniqueIDsFromLinks | internal/shared/metadata/links.go:89-108 | every link but the derived and the blank, in order |
| MetadataValues.LinksAreTheTags | internal/shared/metadata/links.go:59-152 | a link is there exactly when some tag gives it, trimmed and under its provider's canonical key, and is a default exactly when some such tag says so |
| MetadataValues.AliasesMeet | internal/shared/metadata/links.go:9-28 | the shipped aliases of one provider are one key, and a plain name the table does not know stands for itself |
| MetadataValues.GenuineExactly | internal/shared/metadata/links.go:73-108 | what a rewrite keeps is each link that is not derived, as often as it was there |
| TextRules.FoldingSettles | internal/shared/metadata/links.go:123-125 | trimming, and lowering then trimming, settle at once and leave plain text alone, for any character table |
| TextRules.TrimsTheEnds | internal/shared/metadata/links.go:123-125 | trimming takes the spaces at both ends and nothing else |
| MetadataValues.ShippedTextIsSane | internal/shared/metadata/links.go:9-28 | the shipped provider table and text rules meet what the link theorems ask |
| MetadataValues.CanonicalKeyIsStable | internal/shared/metadata/links.go:9-28 | a canonical key is its own canonical form, blank only for a blank key |
| MetadataValues.LinksAreCanonical | internal/shared/metadata/links.go:59-152 | links read from any tags are canonical and free of duplicates |
| MetadataValues.CanonicalLinksReadBack | internal/shared/metadata/links.go:59-108 | canonical links written as tags read back as themselves, order and flags kept |
| MetadataValues.RewritingKeepsGenuineLinks | internal/shared/metadata/links.go:73-108 | a rewrite loses exactly the derived links, a second one nothing |
| MetadataValues.DatesAreStable | internal/shared/metadata/accessors.go:40-46 | a stored date is a bare date or nothing, and parsing it again keeps it |
| MetadataValues.DatesParse | internal/shared/metadata/accessors.go:13-38 | the trimmed text when it is a calendar date, its first ten characters when they are one and the whole is a date with a time, and empty exactly when neither |
| MetadataValues.BareDatesArrive | internal/shared/metadata/accessors.go:13-38 | every calendar date written as a tag is the stored date |
| MetadataValues.IntegersReadBack | internal/agent/nfo/translate.go:386-403 | printing and parsing are inverse on every 32-bit value |
| MetadataValues.IntegersArrive | internal/agent/nfo/translate.go:386-397 | an optional sign and digits give their number cut to 32 bits, zero beyond 64; any other text gives zero |
| NfoAdapter.ExtraFromXML | internal/agent/nfo/xmlvalues.go:153-166 | unknown tags copied, namespaces dropped |
| NfoAdapter.ExtraToXML | internal/agent/nfo/xmlvalues.go:246-265 | unknown tags written back |
| NfoAdapter.ExtraReadsBack | internal/agent/nfo/xmlvalues.go:153-265 | an unknown tag written out reads back as it was |
| NfoAdapter.MovieTagsArrive | internal/agent/nfo/translate.go:37-74 | every tag of a movie arrives in its own field of the record |
| NfoAdapter.ShowTagsArrive | internal/agent/nfo/translate.go:76-109 | every tag of a series likewise, when the document has no movie |
| NfoAdapter.EpisodeTagsArrive | internal/agent/nfo/translate.go:111-150 | every tag of the first episode likewise |
| NfoAdapter.MusicVideoTagsArrive | internal/agent/nfo/translate.go:152-187 | every tag of a music video likewise |
| NfoAdapter.NothingElseArrives | internal/agent/nfo/translate.go:16-35 | a document without a body gives its kind and nothing else |
| NfoAdapter.SharedReadsBack | internal/agent/nfo/translate.go:37-367 | the part every kind fills survives a rewrite, derived links apart |
| NfoAdapter.ReadWriteRead | internal/agent/nfo/translate.go:16-208 | for every document, read-write-read gives the same record but for derived links, exactly unless the document claims a kind it has no body for |
| NfoAdapter.OneRewriteIsEnough | internal/agent/nfo/translate.go:16-208 | after one rewrite a second changes nothing |

## Left out

- Redis, Mongo and Watermill: the collection is a map, delivery is at-least-once and in order on first delivery; a failed write leaves the document as it was.
- ScanStore.LocalDirectoryRepo.BulkWrite: runs the replacements in list order; the driver may run them in any, which with distinct paths changes only which new record gets which new id.
- Reading the directory tree, stat calls, image headers, NFO contents met during a scan, the parsed video name and the season summary: what a walked file is described by, not where it goes.
- Sidecar types of scanned files: context beats table, but the order of the tests is not modelled; the table's own matching is.
- Compiling and matching regular expressions, the season, extras, trickplay and disc recognisers: arguments of the model.
- Two extreme season numbers that narrow to one 32-bit number: season numbers are unbounded.
- ScanRun.WholeRun: assumes an agent root that does not end in "..", where alone translation is injective (AgentPaths.InjectiveIffAnchored), and no two records at one spot below the root.
- LibraryScan.LibraryIsMirrored: names hold no slash and no backslash, and the outcome is any one the classifier's contract allows; what a record says beside its path is an encoding the model does not open.
- AgentPaths.TranslatesExactly: case folding is modelled for ASCII letters only.
- ScanRun.TranslateResult: returns a rewritten result instead of changing the message in place, so aliasing between messages is not captured.
- StoredTime.NormalizeStoredTime: reads the `Z` form only; numeric zone offsets and lenient spellings that the parser also takes are not modelled, and pass through unchanged.
- Late results of an older scan overwriting newer ones: the scan id is carried and not checked, so nothing is claimed.
- Field masks as protobuf paths: a mask is any partial function on the stored resource.
- Sinks, endpoints and stream names of the logging section, season and show fields no rule reads: opaque or absent.
- The lock itself, request contexts and cancellation: taking a free lock is one step, and a call that starts is assumed to reach its unlock.
- ConfigOps.EveryCallKeepsValid: slugs of agents created by setting a log level are not validated by the code, and no claim is made that slugs are well formed.
- Bootstrap.ConfigFile.SeedAdmin: one credential stands for the password's salt and hash.
- ConfigStore.Store.PropagateInProcess: swaps the live document and the registry; the process log level and the publication to agents are not modelled.
- Failing reads and writes during startup: the two seeding calls are modelled with a store that answers.
- SidecarTable.NewSidecarRegistry: the order of the reported problems and their texts are not stated, nor the per-category listing, which is never sorted.
- Handlers that throw, or that subscribe and unsubscribe from inside a frame or status callback; status handlers themselves.
- ReplyHazard.WrongReplyIff: asks about one subscription after which no other call subscribes.
- RequestReply.EveryAnswerIsItsOwn: assumes request topics are not named like reply channels; decode failures and handler errors are the responder giving no reply.
- Notification handlers and the durable streams of the bus.
- The presence watcher's subscriber list while a scan runs, and saturation of time differences beyond 292 years.
- BusSampler.Sampler.RecordStreamMetrics: a row's metrics are a list in column order instead of named fields, and the copies put on snapshot rows are the rings themselves; counters do not overflow.
- Snapshots, their fan-out, topology and the INFO parser of the sampler.
- NfoAdapter.ReadWriteRead: nil and empty lists are not told apart; XML encoding and decoding are not modelled, so tags that XML cannot carry are not excluded.
- MetadataValues.LinksAreTheTags: assumes provider names without a NUL character, which XML cannot carry.
- MetadataValues.DatesAreStable: the two layouts with a time of day are a recogniser for text that starts with a date.
- Links derived from the legacy id field and from trailers.
- The per-kind conversions of ratings, thumbs, actors and other records whose fields are the same on both sides.
- HTTP, Connect, JSON web tokens, password hashing, React components, the workflow graph validator and catalog.

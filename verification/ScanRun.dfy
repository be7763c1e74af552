/** A whole scan across both machines: items split and interleaved by the agent,
    translated and applied by the server. */
module ScanRun {
  import opened Options
  import GoPath
  import opened ConfigModel
  import opened AgentPaths
  import opened StoredTime
  import opened Calendar
  import opened ScanStore
  import opened Splitting
  import opened ScanProtocol

  // ---------------------------------------------------------------------
  // Translating a result
  // ---------------------------------------------------------------------

  type Mover = string -> Result<string, string>

  /** What the server does to a result before storing it: move every absolute
      path, stamp every scanned_at. */
  datatype Wire = Wire(move: Mover, stamp: Stamp)

  function ServerWire(t: PathTranslator): Wire {
    Wire((p: string) => t.Path(p), StoredAt)
  }

  /** The server's path, for a path that translates. */
  function Moved(move: Mover, p: string): string {
    match move(p) case Ok(moved) => moved case Err(_) => ""
  }

  function MovedIfSet(move: Mover, p: string): string {
    if p == "" then "" else Moved(move, p)
  }

  function MovedFile(move: Mover, f: MediaFile): MediaFile {
    f.(path := Moved(move, f.path), directoryPath := MovedIfSet(move, f.directoryPath),
       scanRoot := MovedIfSet(move, f.scanRoot))
  }

  function MovedDirectory(move: Mover, d: Directory): Directory {
    d.(path := Moved(move, d.path), scanRoot := MovedIfSet(move, d.scanRoot))
  }

  function MovedFiles(move: Mover, files: seq<MediaFile>): (r: seq<MediaFile>)
    ensures |r| == |files| && forall i :: 0 <= i < |r| ==> r[i] == MovedFile(move, files[i])
  {
    seq(|files|, i requires 0 <= i < |files| => MovedFile(move, files[i]))
  }

  function MovedResult(move: Mover, result: ScanResult): ScanResult {
    ScanResult(
      match result.directory case Some(d) => Some(MovedDirectory(move, d)) case None => None,
      MovedFiles(move, result.mediaFiles))
  }

  predicate TranslatesIfSet(move: Mover, p: string) {
    p == "" || move(p).Ok?
  }

  predicate FileTranslates(move: Mover, f: MediaFile) {
    move(f.path).Ok? && TranslatesIfSet(move, f.directoryPath) && TranslatesIfSet(move, f.scanRoot)
  }

  predicate Translates(move: Mover, result: ScanResult) {
    && (result.directory.Some? ==>
          move(result.directory.value.path).Ok? && TranslatesIfSet(move, result.directory.value.scanRoot))
    && (forall i :: 0 <= i < |result.mediaFiles| ==> FileTranslates(move, result.mediaFiles[i]))
  }

  /** An empty path is an absent one and is left alone. */
  method RewriteIfSet(move: Mover, p: string) returns (r: Result<string, string>)
    ensures r.Ok? <==> TranslatesIfSet(move, p)
    ensures r.Ok? ==> r.value == MovedIfSet(move, p)
  {
    if p == "" {
      return Ok("");
    }
    r := move(p);
  }

  /** Each of the five absolute paths is rewritten, or the whole result is refused. */
  method TranslateResult(move: Mover, result: ScanResult) returns (r: Result<ScanResult, string>)
    ensures r.Ok? <==> Translates(move, result)
    ensures r.Ok? ==> r.value == MovedResult(move, result)
  {
    var directory := result.directory;
    if directory.Some? {
      var path := move(directory.value.path);
      if path.Err? {
        return Err(path.error);
      }
      var scanRoot := RewriteIfSet(move, directory.value.scanRoot);
      if scanRoot.Err? {
        return Err(scanRoot.error);
      }
      directory := Some(directory.value.(path := path.value, scanRoot := scanRoot.value));
    }
    var files: seq<MediaFile> := [];
    for i := 0 to |result.mediaFiles|
      invariant |files| == i
      invariant forall j :: 0 <= j < i ==>
        FileTranslates(move, result.mediaFiles[j]) && files[j] == MovedFile(move, result.mediaFiles[j])
    {
      var f := result.mediaFiles[i];
      var path := move(f.path);
      if path.Err? {
        return Err(path.error);
      }
      var directoryPath := RewriteIfSet(move, f.directoryPath);
      if directoryPath.Err? {
        return Err(directoryPath.error);
      }
      var scanRoot := RewriteIfSet(move, f.scanRoot);
      if scanRoot.Err? {
        return Err(scanRoot.error);
      }
      files := files + [f.(path := path.value, directoryPath := directoryPath.value, scanRoot := scanRoot.value)];
    }
    assert files == MovedFiles(move, result.mediaFiles);
    r := Ok(ScanResult(directory, files));
  }

  // ---------------------------------------------------------------------
  // The listener
  // ---------------------------------------------------------------------

  datatype AgentMessage =
    | ResultMessage(agentSlug: string, scannerSlug: string, scanRootPath: string, result: ScanResult)
    | CompleteMessage(agentSlug: string, scannerSlug: string, scanRootPath: string, startedAt: nat)

  predicate WellTimed(m: AgentMessage) { m.CompleteMessage? ==> InRange(m.startedAt) }

  /** What the server makes of one agent message under the current config. */
  function ServerMessage(config: Config, m: AgentMessage): Result<Message, string>
    requires WellTimed(m)
  {
    var t := TranslatorFor(config, m.agentSlug, m.scannerSlug);
    if t.Err? then Err(t.error)
    else if m.ResultMessage? && !Translates(ServerWire(t.value).move, m.result) then Err("untranslatable path")
    else
      var root := t.value.Path(m.scanRootPath);
      if root.Err? then Err(root.error)
      else if m.ResultMessage? then Ok(Results(root.value, Arrived(ServerWire(t.value), m.result)))
      else Ok(Complete(root.value, FormatStoredTime(m.startedAt)))
  }

  /** storeScanResult and completeScan: apply the message, or fail and leave the
      collection as it was. */
  method Handle(repo: LocalDirectoryRepo, config: Config, m: AgentMessage) returns (error: Option<string>)
    requires WellTimed(m)
    modifies repo
    ensures error.None? <==> ServerMessage(config, m).Ok?
    ensures error.None? ==> repo.State() == Apply(old(repo.State()), ServerMessage(config, m).value)
    ensures error.Some? ==> repo.State() == old(repo.State())
  {
    var t := TranslatorFor(config, m.agentSlug, m.scannerSlug);
    if t.Err? {
      return Some(t.error);
    }
    var translated := ScanResult(None, []);
    if m.ResultMessage? {
      var moved := TranslateResult(ServerWire(t.value).move, m.result);
      if moved.Err? {
        return Some(moved.error);
      }
      translated := moved.value;
    }
    var root := t.value.Path(m.scanRootPath);
    if root.Err? {
      return Some(root.error);
    }
    if m.ResultMessage? {
      repo.UpsertScanResult(root.value, Some(translated));
    } else {
      repo.DeleteStaleRecords(root.value, m.startedAt);
    }
    error := None;
  }

  // ---------------------------------------------------------------------
  // The agent's side: split items, interleaved
  // ---------------------------------------------------------------------

  datatype Item = Item(result: ScanResult, encodedSize: nat)

  function ItemParts(item: Item): seq<Part> { Parts(item.result, item.encodedSize) }

  function Count(picks: seq<nat>, i: nat): nat
    decreases |picks|
  {
    if picks == [] then 0
    else Count(picks[..|picks| - 1], i) + (if picks[|picks| - 1] == i then 1 else 0)
  }

  /** An interleaving of concurrent senders: each pick publishes the next part of
      one item. An item that fails is simply not picked again. */
  predicate ValidPicks(items: seq<Item>, picks: seq<nat>) {
    forall k :: 0 <= k < |picks| ==>
      picks[k] < |items| && Count(picks[..k], picks[k]) < |ItemParts(items[picks[k]])|
  }

  function SentAt(items: seq<Item>, picks: seq<nat>, k: nat): ScanResult
    requires ValidPicks(items, picks) && k < |picks|
  {
    ItemParts(items[picks[k]])[Count(picks[..k], picks[k])].result
  }

  function Sent(items: seq<Item>, picks: seq<nat>): (log: seq<ScanResult>)
    requires ValidPicks(items, picks)
    ensures |log| == |picks| && forall k :: 0 <= k < |log| ==> log[k] == SentAt(items, picks, k)
  {
    seq(|picks|, k requires 0 <= k < |picks| => SentAt(items, picks, k))
  }

  lemma {:induction false} CountGrows(picks: seq<nat>, j: nat, k: nat, i: nat)
    requires j <= k <= |picks|
    ensures Count(picks[..j], i) <= Count(picks[..k], i)
    ensures j < k && picks[j] == i ==> Count(picks[..j], i) < Count(picks[..k], i)
    decreases k
  {
    if j < k {
      CountGrows(picks, j, k - 1, i);
      assert picks[..k][..k - 1] == picks[..k - 1];
    }
  }

  /** A later part was preceded by the item's first one. */
  lemma {:induction false} FirstPartCameFirst(picks: seq<nat>, k: nat, i: nat) returns (j: nat)
    requires k <= |picks| && Count(picks[..k], i) > 0
    ensures j < k && picks[j] == i && Count(picks[..j], i) == 0
    decreases k
  {
    assert picks[..k][..k - 1] == picks[..k - 1];
    if Count(picks[..k - 1], i) > 0 {
      j := FirstPartCameFirst(picks, k - 1, i);
    } else {
      j := k - 1;
    }
  }

  // ---------------------------------------------------------------------
  // Parts within their item
  // ---------------------------------------------------------------------

  function Chunk(item: Item): (c: nat)
    ensures c > 0
  {
    if item.result.mediaFiles == [] then 1 else ChunkSize(item.encodedSize, |item.result.mediaFiles|)
  }

  /** Where a part's path stands among the item's paths. */
  function Position(item: Item, k: nat, a: nat): nat {
    if k == 0 then a else 1 + k * Chunk(item) + a
  }

  /** A part is a run of the item's files, with the directory in front of the
      first. */
  lemma PartShape(item: Item, k: nat) returns (start: nat, end: nat)
    requires k < |ItemParts(item)|
    ensures start <= end <= |item.result.mediaFiles|
    ensures end == if |ItemParts(item)| == 1 then |item.result.mediaFiles|
                   else Min(start + Chunk(item), |item.result.mediaFiles|)
    ensures ItemParts(item)[k].result ==
      ScanResult(if k == 0 then item.result.directory else None, item.result.mediaFiles[start..end])
    ensures start == k * Chunk(item)
    ensures k > 0 || |ItemParts(item)| > 1 ==> end - start <= Chunk(item)
  {
    var result := item.result;
    var n := |result.mediaFiles|;
    if FitsWhole(result, item.encodedSize) {
      start, end := 0, n;
      assert result.mediaFiles[0..n] == result.mediaFiles;
    } else {
      var chunk := Chunk(item);
      ChunkStarts(n, chunk, k);
      PartCountIsCeiling(n, chunk);
      start, end := k * chunk, Min(k * chunk + chunk, n);
      assert ItemParts(item)[k] == PartAt(result, chunk, k);
    }
  }

  lemma PartPathAt(item: Item, k: nat, a: nat)
    requires IsItem(item.result) && k < |ItemParts(item)| && a < |Writes(ItemParts(item)[k].result)|
    ensures Position(item, k, a) < |Writes(item.result)|
    ensures Writes(ItemParts(item)[k].result)[a] == Writes(item.result)[Position(item, k, a)]
    ensures k > 0 ==> a < Chunk(item)
    ensures k == 0 && |ItemParts(item)| > 1 ==> a <= Chunk(item)
  {
    var start, end := PartShape(item, k);
  }

  lemma PositionsDiffer(item: Item, k: nat, a: nat, l: nat, b: nat)
    requires k < l
    requires a <= Chunk(item) && (k > 0 ==> a < Chunk(item))
    ensures Position(item, k, a) < Position(item, l, b)
  {
    ProductGrows(k + 1, l, Chunk(item));
    assert (k + 1) * Chunk(item) == k * Chunk(item) + Chunk(item);
  }

  /** Parts of one item share no path, and none names a path twice. */
  lemma PartsAreApart(item: Item, k: nat, l: nat)
    requires IsItem(item.result) && DistinctPathsIn(item.result)
    requires k < |ItemParts(item)| && l < |ItemParts(item)|
    ensures k != l ==> Apart(ItemParts(item)[k].result, ItemParts(item)[l].result)
    ensures DistinctPathsIn(ItemParts(item)[k].result)
  {
    var p, q := ItemParts(item)[k].result, ItemParts(item)[l].result;
    forall a, b | 0 <= a < b < |Writes(p)| ensures Writes(p)[a] != Writes(p)[b] {
      PartPathAt(item, k, a);
      PartPathAt(item, k, b);
    }
    if k != l {
      forall a, b | 0 <= a < |Writes(p)| && 0 <= b < |Writes(q)| ensures Writes(p)[a] != Writes(q)[b] {
        PartPathAt(item, k, a);
        PartPathAt(item, l, b);
        if k < l {
          PositionsDiffer(item, k, a, l, b);
        } else {
          PositionsDiffer(item, l, b, k, a);
        }
      }
    }
  }

  lemma PartPathsAreTheItems(item: Item, k: nat, p: string)
    requires IsItem(item.result) && k < |ItemParts(item)| && p in Writes(ItemParts(item)[k].result)
    ensures p in Writes(item.result)
  {
    var a :| 0 <= a < |Writes(ItemParts(item)[k].result)| && Writes(ItemParts(item)[k].result)[a] == p;
    PartPathAt(item, k, a);
  }

  lemma PartIsFresh(item: Item, k: nat, cutoff: string)
    requires IsItem(item.result) && k < |ItemParts(item)| && Fresh(item.result, cutoff)
    ensures Fresh(ItemParts(item)[k].result, cutoff)
  {
    var start, end := PartShape(item, k);
    var files, part := item.result.mediaFiles, ItemParts(item)[k].result;
    forall i | 0 <= i < |part.mediaFiles| ensures NotBelow(part.mediaFiles[i].scannedAt, cutoff) {
      assert part.mediaFiles[i] == files[start + i];
      assert NotBelow(files[start + i].scannedAt, cutoff);
    }
  }

  /** The items of one scan: each whole, none sharing a path with another. */
  predicate ScanItems(items: seq<Item>, cutoff: string) {
    && (forall i :: 0 <= i < |items| ==>
          IsItem(items[i].result) && DistinctPathsIn(items[i].result) && Fresh(items[i].result, cutoff))
    && (forall i, j :: 0 <= i < |items| && 0 <= j < |items| && i != j ==> Apart(items[i].result, items[j].result))
  }

  lemma SentIsApart(items: seq<Item>, picks: seq<nat>, cutoff: string, j: nat, k: nat)
    requires ScanItems(items, cutoff) && ValidPicks(items, picks) && j < k < |picks|
    ensures Apart(SentAt(items, picks, j), SentAt(items, picks, k))
  {
    var a, b := picks[j], picks[k];
    if a == b {
      CountGrows(picks, j, k, a);
      PartsAreApart(items[a], Count(picks[..j], a), Count(picks[..k], a));
    } else {
      assert Apart(items[a].result, items[b].result);
      forall p | p in Writes(SentAt(items, picks, j)) ensures p !in Writes(SentAt(items, picks, k)) {
        PartPathsAreTheItems(items[a], Count(picks[..j], a), p);
        if p in Writes(SentAt(items, picks, k)) {
          PartPathsAreTheItems(items[b], Count(picks[..k], b), p);
        }
      }
    }
  }

  lemma SentIsLinked(items: seq<Item>, picks: seq<nat>, cutoff: string, k: nat)
    requires ScanItems(items, cutoff) && ValidPicks(items, picks) && k < |picks|
    ensures Linked(Sent(items, picks), k)
  {
    var i := picks[k];
    var c := Count(picks[..k], i);
    PartsHoldTheItem(items[i].result, items[i].encodedSize);
    if c > 0 {
      var j := FirstPartCameFirst(picks, k, i);
      LaterPartNamesItem(items[i].result, items[i].encodedSize, c);
      assert HasDirectory(Sent(items, picks)[j], Sent(items, picks)[k].mediaFiles[0].directoryPath);
    }
  }

  /** Whatever the interleaving and wherever items stop, what the agent sends is
      a well-formed run. */
  lemma SentIsRun(items: seq<Item>, picks: seq<nat>, cutoff: string)
    requires ScanItems(items, cutoff) && ValidPicks(items, picks)
    ensures RunResults(Sent(items, picks), cutoff)
  {
    var log := Sent(items, picks);
    forall k | 0 <= k < |log| ensures DistinctPathsIn(log[k]) && Fresh(log[k], cutoff) && Linked(log, k) {
      var i := picks[k];
      var c := Count(picks[..k], i);
      PartsAreApart(items[i], c, c);
      PartIsFresh(items[i], c, cutoff);
      SentIsLinked(items, picks, cutoff, k);
    }
    forall j, k | 0 <= j < k < |log| ensures Apart(log[j], log[k]) {
      SentIsApart(items, picks, cutoff, j, k);
    }
  }

  lemma PartNamesDirectory(item: Item, k: nat)
    requires IsItem(item.result) && k < |ItemParts(item)|
    ensures NamesDirectory(ItemParts(item)[k].result)
  {
    var start, end := PartShape(item, k);
    SliceNamesDirectory(item.result, start, end, k == 0);
  }

  lemma SliceNamesDirectory(result: ScanResult, start: nat, end: nat, first: bool)
    requires IsItem(result) && start <= end <= |result.mediaFiles|
    ensures NamesDirectory(ScanResult(if first then result.directory else None, result.mediaFiles[start..end]))
  {
    var files := result.mediaFiles[start..end];
    forall i | 0 <= i < |files| ensures files[i].directoryPath == result.directory.value.path {
      assert files[i] == result.mediaFiles[start + i];
    }
    assert files != [] ==> files[0].directoryPath == result.directory.value.path;
  }

  /** Every file names the directory the result as a whole belongs to. */
  predicate NamesDirectory(result: ScanResult) {
    forall i :: 0 <= i < |result.mediaFiles| ==>
      DirectoryOf(result) != "" && result.mediaFiles[i].directoryPath == DirectoryOf(result)
  }

  lemma SentNamesDirectories(items: seq<Item>, picks: seq<nat>, cutoff: string)
    requires ScanItems(items, cutoff) && ValidPicks(items, picks)
    ensures forall k :: 0 <= k < |picks| ==> NamesDirectory(Sent(items, picks)[k])
  {
    hide NamesDirectory;
    forall k | 0 <= k < |picks| ensures NamesDirectory(Sent(items, picks)[k]) {
      PartNamesDirectory(items[picks[k]], Count(picks[..k], picks[k]));
    }
  }

  // ---------------------------------------------------------------------
  // Scans in which nothing failed
  // ---------------------------------------------------------------------

  /** Every item was sent to its last part. */
  predicate AllSent(items: seq<Item>, picks: seq<nat>) {
    forall i :: 0 <= i < |items| ==> Count(picks, i) == |ItemParts(items[i])|
  }

  lemma {:induction false} NthPick(picks: seq<nat>, i: nat, c: nat) returns (j: nat)
    requires c < Count(picks, i)
    ensures j < |picks| && picks[j] == i && Count(picks[..j], i) == c
    decreases |picks|
  {
    var n := |picks| - 1;
    if c < Count(picks[..n], i) {
      j := NthPick(picks[..n], i, c);
      assert picks[..n][..j] == picks[..j];
    } else {
      j := n;
    }
  }

  lemma {:induction false} InSomePart(parts: seq<Part>, f: MediaFile) returns (c: nat)
    requires f in FilesOf(parts)
    ensures c < |parts| && f in parts[c].result.mediaFiles
    decreases |parts|
  {
    var n := |parts| - 1;
    if f in FilesOf(parts[..n]) {
      c := InSomePart(parts[..n], f);
    } else {
      c := n;
    }
  }

  lemma PathInSomePart(item: Item, p: string) returns (c: nat)
    requires p in Writes(item.result)
    ensures c < |ItemParts(item)| && p in Writes(ItemParts(item)[c].result)
  {
    PartsHoldTheItem(item.result, item.encodedSize);
    var a :| 0 <= a < |Writes(item.result)| && Writes(item.result)[a] == p;
    if a < |DirectoryPaths(item.result)| {
      c := 0;
      DirectoryIsWritten(ItemParts(item)[0].result);
    } else {
      var f := item.result.mediaFiles[a - |DirectoryPaths(item.result)|];
      c := InSomePart(ItemParts(item), f);
      var i :| 0 <= i < |ItemParts(item)[c].result.mediaFiles| && ItemParts(item)[c].result.mediaFiles[i] == f;
      FileIsWritten(ItemParts(item)[c].result, i);
    }
  }

  ghost predicate SomeItemWrites(items: seq<Item>, p: string) {
    exists i :: 0 <= i < |items| && p in Writes(items[i].result)
  }

  /** With every part sent, the messages write exactly what the items do. */
  lemma SentIsEverything(items: seq<Item>, picks: seq<nat>, p: string)
    requires ValidPicks(items, picks) && AllSent(items, picks)
    requires forall i :: 0 <= i < |items| ==> IsItem(items[i].result)
    ensures Wrote(Sent(items, picks), |picks|, p) <==> SomeItemWrites(items, p)
  {
    hide ItemParts, Writes, IsItem;
    if Wrote(Sent(items, picks), |picks|, p) {
      var k :| 0 <= k < |picks| && p in Writes(Sent(items, picks)[k]);
      PartPathsAreTheItems(items[picks[k]], Count(picks[..k], picks[k]), p);
    }
    if SomeItemWrites(items, p) {
      var i :| 0 <= i < |items| && p in Writes(items[i].result);
      var c := PathInSomePart(items[i], p);
      var j := NthPick(picks, i, c);
      assert Sent(items, picks)[j] == ItemParts(items[i])[c].result;
    }
  }

  // ---------------------------------------------------------------------
  // Both machines together
  // ---------------------------------------------------------------------

  function AgentWire(root: string, serverRoot: string): Wire {
    ServerWire(NewPathTranslator(root, serverRoot))
  }

  /** Every path a result writes lies under the agent's root. */
  predicate AllUnder(root: string, result: ScanResult) {
    forall a :: 0 <= a < |Writes(result)| ==> UnderRoot(root, Writes(result)[a])
  }

  /** What a written path is below the root. */
  function Spot(root: string, result: ScanResult, a: nat): seq<string>
    requires AllUnder(root, result) && a < |Writes(result)|
  {
    Remainder(root, Writes(result)[a])
  }

  predicate DistinctBelow(root: string, result: ScanResult)
    requires AllUnder(root, result)
  {
    forall a, b :: 0 <= a < b < |Writes(result)| ==> Spot(root, result, a) != Spot(root, result, b)
  }

  predicate ApartBelow(root: string, x: ScanResult, y: ScanResult)
    requires AllUnder(root, x) && AllUnder(root, y)
  {
    forall a, b :: 0 <= a < |Writes(x)| && 0 <= b < |Writes(y)| ==> Spot(root, x, a) != Spot(root, y, b)
  }

  /** The result as the server applies it. */
  function Arrived(w: Wire, result: ScanResult): ScanResult {
    Stamped(MovedResult(w.move, result), w.stamp)
  }

  lemma ArrivedWrites(w: Wire, result: ScanResult)
    ensures |Writes(Arrived(w, result))| == |Writes(result)|
    ensures forall a :: 0 <= a < |Writes(result)| ==> Writes(Arrived(w, result))[a] == Moved(w.move, Writes(result)[a])
  {
    var arrived := Arrived(w, result);
    DirectoryIsWritten(result);
    DirectoryIsWritten(arrived);
    var first := |DirectoryPaths(result)|;
    forall a | 0 <= a < |Writes(result)| ensures Writes(arrived)[a] == Moved(w.move, Writes(result)[a]) {
      if a >= first {
        FileIsWritten(result, a - first);
        FileIsWritten(arrived, a - first);
      }
    }
  }

  ghost predicate TakenSince(scannedAt: Option<string>, startedAt: nat)
    requires InRange(startedAt)
  {
    scannedAt.Some? && scannedAt.value != "" &&
    exists instant: nat, digits: nat ::
      InRange(instant) && digits <= 9 && Representable(instant, digits) &&
      scannedAt.value == ProtoForm(instant, digits) && startedAt <= instant
  }

  /** A timestamp taken since the run began is never below the run's cutoff. */
  lemma TakenSinceIsNotBelow(scannedAt: Option<string>, startedAt: nat)
    requires InRange(startedAt) && TakenSince(scannedAt, startedAt)
    ensures NotBelow(StoredAt(scannedAt), FormatStoredTime(startedAt))
  {
    var instant: nat, digits: nat :|
      InRange(instant) && digits <= 9 && Representable(instant, digits) &&
      scannedAt.value == ProtoForm(instant, digits) && startedAt <= instant;
    SweepFilterMeansOlder(instant, digits, startedAt);
  }

  /** The items one agent finds under one root after startedAt, in its own paths
      and with its own clock: each whole, and no two records at one spot below the
      root. */
  ghost predicate AgentItems(root: string, startedAt: nat, items: seq<Item>) {
    && InRange(startedAt) && Anchored(root)
    && (forall i :: 0 <= i < |items| ==>
          IsItem(items[i].result) && AllUnder(root, items[i].result) && DistinctBelow(root, items[i].result) &&
          RecordsTakenSince(items[i].result, startedAt))
    && (forall i, j :: 0 <= i < |items| && 0 <= j < |items| && i != j ==>
          ApartBelow(root, items[i].result, items[j].result))
  }

  ghost predicate RecordsTakenSince(result: ScanResult, startedAt: nat)
    requires InRange(startedAt)
  {
    && (result.directory.Some? ==> TakenSince(result.directory.value.scannedAt, startedAt))
    && (forall i :: 0 <= i < |result.mediaFiles| ==> TakenSince(result.mediaFiles[i].scannedAt, startedAt))
  }

  function ArrivedItems(w: Wire, items: seq<Item>): (r: seq<Item>)
    ensures |r| == |items|
    ensures forall i :: 0 <= i < |r| ==> r[i] == Item(Arrived(w, items[i].result), items[i].encodedSize)
  {
    seq(|items|, i requires 0 <= i < |items| => Item(Arrived(w, items[i].result), items[i].encodedSize))
  }

  // Two records share a server path exactly when they share a spot.
  lemma PathOf(root: string, serverRoot: string, result: ScanResult, a: nat, other: ScanResult, b: nat)
    requires Anchored(root) && AllUnder(root, result) && AllUnder(root, other)
    requires a < |Writes(result)| && b < |Writes(other)|
    ensures var w := AgentWire(root, serverRoot);
            Writes(Arrived(w, result))[a] == Writes(Arrived(w, other))[b] <==>
              Spot(root, result, a) == Spot(root, other, b)
  {
    hide UnderRoot, Remainder, NewPathTranslator, PathTranslator.Path;
    var w := AgentWire(root, serverRoot);
    ArrivedWrites(w, result);
    ArrivedWrites(w, other);
    var p, q := Writes(result)[a], Writes(other)[b];
    TranslatesExactly(root, serverRoot, p);
    TranslatesExactly(root, serverRoot, q);
    TranslationIsInjective(root, serverRoot, p, q);
  }

  lemma ArrivedIsApart(root: string, serverRoot: string, x: ScanResult, y: ScanResult)
    requires Anchored(root) && AllUnder(root, x) && AllUnder(root, y) && ApartBelow(root, x, y)
    ensures var w := AgentWire(root, serverRoot); Apart(Arrived(w, x), Arrived(w, y))
  {
    hide Spot;
    var w := AgentWire(root, serverRoot);
    ArrivedWrites(w, x);
    ArrivedWrites(w, y);
    forall a, b | 0 <= a < |Writes(x)| && 0 <= b < |Writes(y)|
      ensures Writes(Arrived(w, x))[a] != Writes(Arrived(w, y))[b] {
      PathOf(root, serverRoot, x, a, y, b);
    }
  }

  lemma ArrivedIsDistinct(root: string, serverRoot: string, result: ScanResult)
    requires Anchored(root) && AllUnder(root, result) && DistinctBelow(root, result)
    ensures DistinctPathsIn(Arrived(AgentWire(root, serverRoot), result))
  {
    hide Spot, UnderRoot;
    var arrived := Arrived(AgentWire(root, serverRoot), result);
    ArrivedWrites(AgentWire(root, serverRoot), result);
    forall a, b | 0 <= a < b < |Writes(arrived)| ensures Writes(arrived)[a] != Writes(arrived)[b] {
      PathOf(root, serverRoot, result, a, result, b);
    }
  }

  lemma ItemStaysWhole(w: Wire, result: ScanResult)
    requires IsItem(result) && DistinctPathsIn(Arrived(w, result)) && Moved(w.move, result.directory.value.path) != ""
    ensures IsItem(Arrived(w, result))
  {
    var arrived := Arrived(w, result);
    DirectoryIsWritten(arrived);
    forall i | 0 <= i < |result.mediaFiles|
      ensures arrived.mediaFiles[i].directoryPath == arrived.directory.value.path
      ensures arrived.mediaFiles[i].path != arrived.directory.value.path {
      FileIsWritten(arrived, i);
      assert Writes(arrived)[0] != Writes(arrived)[1 + i];
    }
  }

  lemma ArrivedIsItem(root: string, serverRoot: string, result: ScanResult, startedAt: nat)
    requires Anchored(root) && AllUnder(root, result) && InRange(startedAt)
    requires IsItem(result) && DistinctBelow(root, result) && RecordsTakenSince(result, startedAt)
    ensures var arrived := Arrived(AgentWire(root, serverRoot), result);
            IsItem(arrived) && DistinctPathsIn(arrived) && Fresh(arrived, FormatStoredTime(startedAt))
  {
    hide Spot, UnderRoot, Anchored, DistinctPathsIn, DistinctBelow, Fresh, RecordsTakenSince;
    var w := AgentWire(root, serverRoot);
    DirectoryIsWritten(result);
    ArrivedIsDistinct(root, serverRoot, result);
    assert UnderRoot(root, Writes(result)[0]);
    MovedIsNonEmpty(root, serverRoot, result.directory.value.path);
    ItemStaysWhole(w, result);
    ArrivedIsFresh(w, result, startedAt);
  }

  lemma ArrivedIsFresh(w: Wire, result: ScanResult, startedAt: nat)
    requires InRange(startedAt) && RecordsTakenSince(result, startedAt) && w.stamp == StoredAt
    ensures Fresh(Arrived(w, result), FormatStoredTime(startedAt))
  {
    if result.directory.Some? {
      TakenSinceIsNotBelow(result.directory.value.scannedAt, startedAt);
    }
    forall i | 0 <= i < |result.mediaFiles|
      ensures NotBelow(Arrived(w, result).mediaFiles[i].scannedAt, FormatStoredTime(startedAt)) {
      TakenSinceIsNotBelow(result.mediaFiles[i].scannedAt, startedAt);
    }
  }

  lemma MovedIsNonEmpty(root: string, serverRoot: string, p: string)
    requires UnderRoot(root, p)
    ensures Moved(AgentWire(root, serverRoot).move, p) != ""
  {
    hide UnderRoot, NewPathTranslator, PathTranslator.Path;
    TranslatesExactly(root, serverRoot, p);
  }

  /** Translation and normalisation commute with splitting, so what arrives is
      what an agent on the server's own paths would have sent. */
  lemma ArrivedPart(w: Wire, item: Item, k: nat)
    requires IsItem(item.result) && k < |ItemParts(item)|
    ensures var moved := Item(Arrived(w, item.result), item.encodedSize);
            |ItemParts(moved)| == |ItemParts(item)| &&
            ItemParts(moved)[k].result == Arrived(w, ItemParts(item)[k].result)
  {
    var moved := Item(Arrived(w, item.result), item.encodedSize);
    var start, end := PartShape(item, k);
    var start', end' := PartShape(moved, k);
  }

  function ArrivedLog(w: Wire, log: seq<ScanResult>): (r: seq<ScanResult>)
    ensures |r| == |log| && forall k :: 0 <= k < |r| ==> r[k] == Arrived(w, log[k])
  {
    seq(|log|, k requires 0 <= k < |log| => Arrived(w, log[k]))
  }

  lemma ArrivedIsSent(w: Wire, items: seq<Item>, picks: seq<nat>)
    requires ValidPicks(items, picks) && forall i :: 0 <= i < |items| ==> IsItem(items[i].result)
    ensures ValidPicks(ArrivedItems(w, items), picks)
    ensures ArrivedLog(w, Sent(items, picks)) == Sent(ArrivedItems(w, items), picks)
  {
    var moved := ArrivedItems(w, items);
    forall k | 0 <= k < |picks|
      ensures picks[k] < |moved| && Count(picks[..k], picks[k]) < |ItemParts(moved[picks[k]])|
      ensures ItemParts(moved[picks[k]])[Count(picks[..k], picks[k])].result == Arrived(w, SentAt(items, picks, k)) {
      ArrivedPart(w, items[picks[k]], Count(picks[..k], picks[k]));
    }
  }

  lemma ArrivedItemsAreAScan(root: string, serverRoot: string, startedAt: nat, items: seq<Item>)
    requires AgentItems(root, startedAt, items)
    ensures ScanItems(ArrivedItems(AgentWire(root, serverRoot), items), FormatStoredTime(startedAt))
  {
    forall i | 0 <= i < |items|
      ensures var arrived := Arrived(AgentWire(root, serverRoot), items[i].result);
              IsItem(arrived) && DistinctPathsIn(arrived) && Fresh(arrived, FormatStoredTime(startedAt)) {
      ArrivedIsItem(root, serverRoot, items[i].result, startedAt);
    }
    forall i, j | 0 <= i < |items| && 0 <= j < |items| && i != j
      ensures Apart(Arrived(AgentWire(root, serverRoot), items[i].result),
                    Arrived(AgentWire(root, serverRoot), items[j].result)) {
      ArrivedIsApart(root, serverRoot, items[i].result, items[j].result);
    }
  }

  /** Whether some message of the run carried a record for a server path. */
  ghost predicate Reported(w: Wire, items: seq<Item>, picks: seq<nat>, p: string)
    requires ValidPicks(items, picks)
  {
    exists k, q :: 0 <= k < |picks| && q in Writes(Sent(items, picks)[k]) && p == Moved(w.move, q)
  }

  lemma ReportedIsWritten(w: Wire, items: seq<Item>, picks: seq<nat>, p: string)
    requires ValidPicks(items, picks)
    ensures Reported(w, items, picks, p) <==>
      Wrote(ArrivedLog(w, Sent(items, picks)), |picks|, p)
  {
    var log := Sent(items, picks);
    if Reported(w, items, picks, p) {
      var k, q :| 0 <= k < |picks| && q in Writes(log[k]) && p == Moved(w.move, q);
      var a :| 0 <= a < |Writes(log[k])| && Writes(log[k])[a] == q;
      ArrivedWrites(w, log[k]);
      assert Writes(ArrivedLog(w, log)[k])[a] == p;
    }
    if Wrote(ArrivedLog(w, log), |picks|, p) {
      var k :| 0 <= k < |picks| && p in Writes(ArrivedLog(w, log)[k]);
      var a :| 0 <= a < |Writes(ArrivedLog(w, log)[k])| && Writes(ArrivedLog(w, log)[k])[a] == p;
      ArrivedWrites(w, log[k]);
      assert Writes(log[k])[a] in Writes(log[k]) && p == Moved(w.move, Writes(log[k])[a]);
    }
  }

  // ---------------------------------------------------------------------
  // What the server's records say, in the agent's terms
  // ---------------------------------------------------------------------

  /** Where the agent wrote an instant, the server stores that instant. */
  ghost predicate StampedAs(stored: Option<string>, sent: Option<string>) {
    forall instant: nat, digits: nat ::
      InRange(instant) && digits <= 9 && Representable(instant, digits) && sent == Some(ProtoForm(instant, digits)) ==>
        stored == Some(FormatStoredTime(instant))
  }

  /** The record of a sent file: its own content and instant, under the server
      root, linked to the record of the directory it names. */
  ghost predicate FileArrived(s: Store, root: string, move: Mover, f: MediaFile) {
    var p := Moved(move, f.path);
    && p in s.records && s.records[p].doc.kind == MediaFileKind && s.records[p].doc.root == root
    && s.records[p].doc.content == f.content && StampedAs(s.records[p].doc.scannedAt, f.scannedAt)
    && LinkedTo(s, p, MovedIfSet(move, f.directoryPath))
  }

  ghost predicate DirectoryArrived(s: Store, root: string, move: Mover, d: Directory) {
    var p := Moved(move, d.path);
    && p in s.records && s.records[p].doc.kind == DirectoryKind && s.records[p].doc.root == root
    && s.records[p].doc.content == d.content && StampedAs(s.records[p].doc.scannedAt, d.scannedAt)
  }

  ghost predicate ResultArrived(s: Store, root: string, move: Mover, result: ScanResult) {
    && (result.directory.Some? ==> DirectoryArrived(s, root, move, result.directory.value))
    && (forall i :: 0 <= i < |result.mediaFiles| ==> FileArrived(s, root, move, result.mediaFiles[i]))
  }

  lemma StoredAtStamps(sent: Option<string>)
    ensures StampedAs(StoredAt(sent), sent)
  {
    forall instant: nat, digits: nat |
      InRange(instant) && digits <= 9 && Representable(instant, digits) && sent == Some(ProtoForm(instant, digits))
      ensures StoredAt(sent) == Some(FormatStoredTime(instant)) {
      ProtoFormIsNonEmpty(instant, digits);
      NormalizeKeepsTheInstant(instant, digits);
    }
  }

  lemma ProtoFormIsNonEmpty(instant: nat, digits: nat)
    requires InRange(instant) && digits <= 9 && Representable(instant, digits)
    ensures ProtoForm(instant, digits) != ""
  {
    ProtoFormParses(instant, digits);
    assert ParseRFC3339("").None?;
  }

  lemma SaidIsArrived(s: Store, root: string, w: Wire, result: ScanResult)
    requires w.stamp == StoredAt && Says(s, root, Arrived(w, result))
    requires var files := Arrived(w, result).mediaFiles;
      forall i :: 0 <= i < |files| ==> LinkedTo(s, files[i].path, files[i].directoryPath)
    ensures ResultArrived(s, root, w.move, result)
  {
    hide StampedAs, StoredAt, LinkedTo;
    if result.directory.Some? {
      StoredAtStamps(result.directory.value.scannedAt);
    }
    forall i | 0 <= i < |result.mediaFiles| ensures FileArrived(s, root, w.move, result.mediaFiles[i]) {
      StoredAtStamps(result.mediaFiles[i].scannedAt);
      assert SaysFile(s, root, Arrived(w, result).mediaFiles[i]);
    }
  }

  /** One scan, end to end. For any items an agent finds under an anchored root, any
      sizes and splits, any interleaving and any item stopping early, any number
      of redeliveries at any time: once the completion has been applied, the
      records under the server's root are exactly those the applied messages
      reported, each stored as reported, every file linked to the record of the
      directory it names; every path keeps the id it had; and nothing under another
      root changes unless the run reported that very path. */
  lemma WholeRun(s: Store, root: string, serverRoot: string, startedAt: nat,
                 items: seq<Item>, picks: seq<nat>, steps: seq<Step>, p: string)
    requires AgentItems(root, startedAt, items) && ValidPicks(items, picks)
    requires OlderUnderRoot(s, GoPath.Clean(serverRoot), FormatStoredTime(startedAt))
    requires var t := NewPathTranslator(root, serverRoot);
      var log := RunLog(t.serverRoot, ArrivedLog(ServerWire(t), Sent(items, picks)), FormatStoredTime(startedAt));
      Run(s, log, steps).applied == |log|
    ensures var t := NewPathTranslator(root, serverRoot);
      var results := ArrivedLog(ServerWire(t), Sent(items, picks));
      var final := Run(s, RunLog(t.serverRoot, results, FormatStoredTime(startedAt)), steps).store;
      && AllSettled(final, t.serverRoot, results, |results|)
      && (forall k :: 0 <= k < |picks| ==> ResultArrived(final, t.serverRoot, ServerWire(t).move, Sent(items, picks)[k]))
      && (p in final.records && final.records[p].doc.root == t.serverRoot <==> Reported(ServerWire(t), items, picks, p))
      && (p in s.records && p in final.records ==> final.records[p].id == s.records[p].id)
      && (!Reported(ServerWire(t), items, picks, p) ==>
            (p in final.records <==> p in s.records && s.records[p].doc.root != t.serverRoot) &&
            (p in final.records ==> final.records[p] == s.records[p]))
  {
    var t := NewPathTranslator(root, serverRoot);
    var cutoff := FormatStoredTime(startedAt);
    hide AgentItems, NewPathTranslator, ValidPicks, Reported, Wrote, InRange, FormatStoredTime;
    ArrivedItemsAreAScan(root, serverRoot, startedAt, items);
    ArrivedIsSent(ServerWire(t), items, picks);
    SentIsRun(ArrivedItems(ServerWire(t), items), picks, cutoff);
    ReportedIsWritten(ServerWire(t), items, picks, p);
    CompletedRun(s, t.serverRoot, ArrivedLog(ServerWire(t), Sent(items, picks)), cutoff, steps, p);
    SentNamesDirectories(ArrivedItems(ServerWire(t), items), picks, cutoff);
    hide ResultArrived, Says;
    ghost var final := Run(s, RunLog(t.serverRoot, ArrivedLog(ServerWire(t), Sent(items, picks)), cutoff), steps).store;
    forall k | 0 <= k < |picks| ensures ResultArrived(final, t.serverRoot, ServerWire(t).move, Sent(items, picks)[k]) {
      assert Says(final, t.serverRoot, ArrivedLog(ServerWire(t), Sent(items, picks))[k]);
      SaidIsArrived(final, t.serverRoot, ServerWire(t), Sent(items, picks)[k]);
    }
  }

  lemma SomePartHolds(item: Item, f: MediaFile) returns (c: nat)
    requires f in item.result.mediaFiles
    ensures c < |ItemParts(item)| && f in ItemParts(item)[c].result.mediaFiles
  {
    PartsHoldTheItem(item.result, item.encodedSize);
    c := InSomePart(ItemParts(item), f);
  }

  /** With every part sent, each item has arrived whole. */
  lemma ItemArrives(s: Store, root: string, move: Mover, items: seq<Item>, picks: seq<nat>, i: nat)
    requires ValidPicks(items, picks) && AllSent(items, picks) && i < |items|
    requires forall k :: 0 <= k < |picks| ==> ResultArrived(s, root, move, Sent(items, picks)[k])
    ensures ResultArrived(s, root, move, items[i].result)
  {
    var result := items[i].result;
    PartsHoldTheItem(result, items[i].encodedSize);
    assert |ItemParts(items[i])| > 0 && ItemParts(items[i])[0].result.directory == result.directory;
    hide ItemParts, FileArrived, DirectoryArrived;
    if result.directory.Some? {
      var j := NthPick(picks, i, 0);
      assert ResultArrived(s, root, move, Sent(items, picks)[j]);
    }
    forall a | 0 <= a < |result.mediaFiles| ensures FileArrived(s, root, move, result.mediaFiles[a]) {
      var c := SomePartHolds(items[i], result.mediaFiles[a]);
      var j := NthPick(picks, i, c);
      assert ResultArrived(s, root, move, Sent(items, picks)[j]);
    }
  }

  // ---------------------------------------------------------------------
  // One scan after another
  // ---------------------------------------------------------------------

  ghost predicate TakenBefore(scannedAt: Option<string>, startedAt: nat)
    requires InRange(startedAt)
  {
    exists instant: nat, digits: nat ::
      InRange(instant) && digits <= 9 && Representable(instant, digits) &&
      scannedAt == Some(ProtoForm(instant, digits)) && instant < startedAt
  }

  ghost predicate RecordsTakenBefore(result: ScanResult, startedAt: nat)
    requires InRange(startedAt)
  {
    && (result.directory.Some? ==> TakenBefore(result.directory.value.scannedAt, startedAt))
    && (forall i :: 0 <= i < |result.mediaFiles| ==> TakenBefore(result.mediaFiles[i].scannedAt, startedAt))
  }

  lemma TakenBeforeIsBelow(scannedAt: Option<string>, startedAt: nat)
    requires InRange(startedAt) && TakenBefore(scannedAt, startedAt)
    ensures TakenBelow(StoredAt(scannedAt), FormatStoredTime(startedAt))
  {
    var instant: nat, digits: nat :|
      InRange(instant) && digits <= 9 && Representable(instant, digits) &&
      scannedAt == Some(ProtoForm(instant, digits)) && instant < startedAt;
    ProtoFormIsNonEmpty(instant, digits);
    SweepFilterMeansOlder(instant, digits, startedAt);
  }

  lemma ArrivedIsBelow(w: Wire, result: ScanResult, startedAt: nat)
    requires InRange(startedAt) && RecordsTakenBefore(result, startedAt) && w.stamp == StoredAt
    ensures AllTakenBelow(Arrived(w, result), FormatStoredTime(startedAt))
  {
    if result.directory.Some? {
      TakenBeforeIsBelow(result.directory.value.scannedAt, startedAt);
    }
    forall i | 0 <= i < |result.mediaFiles|
      ensures TakenBelow(Arrived(w, result).mediaFiles[i].scannedAt, FormatStoredTime(startedAt)) {
      TakenBeforeIsBelow(result.mediaFiles[i].scannedAt, startedAt);
    }
  }

  /** Scans chain: a whole run leaves the store as the next one needs to find it,
      every record under the server's root older than a later start. So the next
      run's sweep removes whatever it does not report itself. */
  lemma RunsChain(s: Store, root: string, serverRoot: string, startedAt: nat,
                  items: seq<Item>, picks: seq<nat>, steps: seq<Step>, later: nat)
    requires AgentItems(root, startedAt, items) && ValidPicks(items, picks) && InRange(later)
    requires OlderUnderRoot(s, GoPath.Clean(serverRoot), FormatStoredTime(startedAt))
    requires forall k :: 0 <= k < |picks| ==> RecordsTakenBefore(Sent(items, picks)[k], later)
    requires var t := NewPathTranslator(root, serverRoot);
      var log := RunLog(t.serverRoot, ArrivedLog(ServerWire(t), Sent(items, picks)), FormatStoredTime(startedAt));
      Run(s, log, steps).applied == |log|
    ensures var t := NewPathTranslator(root, serverRoot);
      var results := ArrivedLog(ServerWire(t), Sent(items, picks));
      OlderUnderRoot(Run(s, RunLog(t.serverRoot, results, FormatStoredTime(startedAt)), steps).store,
                     t.serverRoot, FormatStoredTime(later))
  {
    var t := NewPathTranslator(root, serverRoot);
    var cutoff := FormatStoredTime(startedAt);
    hide AgentItems, NewPathTranslator, ValidPicks, FormatStoredTime, RecordsTakenBefore, AllTakenBelow;
    ArrivedItemsAreAScan(root, serverRoot, startedAt, items);
    ArrivedIsSent(ServerWire(t), items, picks);
    SentIsRun(ArrivedItems(ServerWire(t), items), picks, cutoff);
    forall k | 0 <= k < |picks|
      ensures AllTakenBelow(ArrivedLog(ServerWire(t), Sent(items, picks))[k], FormatStoredTime(later)) {
      ArrivedIsBelow(ServerWire(t), Sent(items, picks)[k], later);
    }
    DoneIsOlder(s, t.serverRoot, ArrivedLog(ServerWire(t), Sent(items, picks)), cutoff, steps, FormatStoredTime(later));
  }

  /** The paths a result mentions beside the ones it writes. */
  function References(result: ScanResult): set<string> {
    (if result.directory.Some? then {result.directory.value.scanRoot} else {}) +
    (set f | f in result.mediaFiles :: f.directoryPath) + (set f | f in result.mediaFiles :: f.scanRoot)
  }

  predicate UnderAgentRoot(root: string, result: ScanResult) {
    && (forall p :: p in Writes(result) ==> UnderRoot(root, p))
    && (forall p :: p in References(result) ==> p == "" || UnderRoot(root, p))
  }

  lemma FileUnderAgentRoot(root: string, result: ScanResult, i: nat)
    requires i < |result.mediaFiles| && UnderAgentRoot(root, result)
    ensures var f := result.mediaFiles[i];
            && UnderRoot(root, f.path) && (f.directoryPath == "" || UnderRoot(root, f.directoryPath))
            && (f.scanRoot == "" || UnderRoot(root, f.scanRoot))
  {
    hide UnderRoot;
    FileIsWritten(result, i);
    assert result.mediaFiles[i] in result.mediaFiles;
  }

  lemma TranslatedIsUnder(move: Mover, root: string, result: ScanResult)
    requires forall p: string :: move(p).Ok? ==> UnderRoot(root, p)
    requires Translates(move, result)
    ensures UnderAgentRoot(root, result)
  {
    hide UnderRoot;
    DirectoryIsWritten(result);
    forall p | p in Writes(result) ensures UnderRoot(root, p) {
      var a :| 0 <= a < |Writes(result)| && Writes(result)[a] == p;
      assert a >= |DirectoryPaths(result)| ==> FileTranslates(move, result.mediaFiles[a - |DirectoryPaths(result)|]);
    }
    forall f | f in result.mediaFiles ensures FileTranslates(move, f) {
      var i :| 0 <= i < |result.mediaFiles| && result.mediaFiles[i] == f;
    }
  }

  lemma UnderIsTranslated(move: Mover, root: string, result: ScanResult)
    requires forall p: string :: UnderRoot(root, p) ==> move(p).Ok?
    requires UnderAgentRoot(root, result)
    ensures Translates(move, result)
  {
    hide UnderRoot;
    DirectoryIsWritten(result);
    forall i | 0 <= i < |result.mediaFiles| ensures FileTranslates(move, result.mediaFiles[i]) {
      FileUnderAgentRoot(root, result, i);
    }
  }

  /** A result translates exactly when every path it writes, and every other one
      it mentions, lies under the agent's root. */
  lemma TranslatesIff(root: string, serverRoot: string, result: ScanResult)
    ensures Translates(ServerWire(NewPathTranslator(root, serverRoot)).move, result) <==> UnderAgentRoot(root, result)
  {
    var move := ServerWire(NewPathTranslator(root, serverRoot)).move;
    forall p: string ensures move(p).Ok? <==> UnderRoot(root, p) {
      TranslatesExactly(root, serverRoot, p);
    }
    hide UnderRoot, NewPathTranslator, Translates, UnderAgentRoot, PathTranslator.Path;
    if UnderAgentRoot(root, result) {
      UnderIsTranslated(move, root, result);
    }
    if Translates(move, result) {
      TranslatedIsUnder(move, root, result);
    }
  }

  /** The listener agrees: with the mapping in place, a result whose paths all lie
      under the agent's root, of whatever shape, is applied as the log says, any
      other is refused, and a completion sweeps from the run's start. */
  lemma ListenerAppliesTheLog(config: Config, a: nat, m: nat, d: nat, result: ScanResult, startedAt: nat)
    requires a < |config.agents| && m < |config.agents[a].mappings| && d < |config.scanDirectories|
    requires Distinct(AgentSlugs(config.agents)) && Distinct(MappedSlugs(config.agents[a].mappings))
    requires Distinct(ScannerSlugs(config.scanDirectories))
    requires config.agents[a].mappings[m].scannerSlug == config.scanDirectories[d].scannerSlug
    requires InRange(startedAt)
    ensures var root := config.agents[a].mappings[m].agentPath;
      var t := NewPathTranslator(root, config.scanDirectories[d].directory);
      var slug := config.scanDirectories[d].scannerSlug;
      var served := ServerMessage(config, ResultMessage(config.agents[a].slug, slug, root, result));
      && (served.Ok? <==> UnderAgentRoot(root, result))
      && (served.Ok? ==> served.value == Results(t.serverRoot, Arrived(ServerWire(t), result)))
      && ServerMessage(config, CompleteMessage(config.agents[a].slug, slug, root, startedAt)) ==
           Ok(Complete(t.serverRoot, FormatStoredTime(startedAt)))
  {
    var root, serverRoot := config.agents[a].mappings[m].agentPath, config.scanDirectories[d].directory;
    var t := NewPathTranslator(root, serverRoot);
    MappedTranslator(config, a, m, d);
    assert t.Path(root) == Ok(t.serverRoot);
    TranslatesIff(root, serverRoot, result);
  }
}

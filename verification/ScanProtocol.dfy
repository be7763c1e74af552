/** One scan in the server's terms: messages applied at least once, in order the
    first time, and a sweep when the run completes. */
module ScanProtocol {
  import opened Options
  import opened Calendar
  import opened ScanStore

  /** A run's messages. The completion carries the sweep's cutoff, the run's
      start in stored form. */
  datatype Message =
    | Results(root: string, result: ScanResult)
    | Complete(root: string, cutoff: string)

  function Apply(s: Store, m: Message): Store {
    match m
    case Results(root, result) => Upsert(s, root, result)
    case Complete(root, cutoff) => Sweep(s, root, cutoff)
  }

  function DirectoryPaths(result: ScanResult): seq<string> {
    if result.directory.Some? then [result.directory.value.path] else []
  }

  function FilePaths(files: seq<MediaFile>): (r: seq<string>)
    ensures |r| == |files| && forall i :: 0 <= i < |r| ==> r[i] == files[i].path
  {
    seq(|files|, i requires 0 <= i < |files| => files[i].path)
  }

  /** The paths a result writes, the directory's first. */
  function Writes(result: ScanResult): seq<string> {
    DirectoryPaths(result) + FilePaths(result.mediaFiles)
  }

  lemma FileIsWritten(result: ScanResult, i: nat)
    requires i < |result.mediaFiles|
    ensures var at := |DirectoryPaths(result)| + i;
            at < |Writes(result)| && Writes(result)[at] == result.mediaFiles[i].path
    ensures result.mediaFiles[i].path in Writes(result)
  {
    assert Writes(result)[|DirectoryPaths(result)| + i] == result.mediaFiles[i].path;
  }

  lemma DirectoryIsWritten(result: ScanResult)
    ensures result.directory.Some? ==> Writes(result)[0] == result.directory.value.path
    ensures result.directory.Some? ==> result.directory.value.path in Writes(result)
  {
    assert result.directory.Some? ==> Writes(result)[0] == result.directory.value.path;
  }

  // ---------------------------------------------------------------------
  // Messages that are already in the store
  // ---------------------------------------------------------------------

  function LinkNow(s: Store, result: ScanResult): Option<nat> {
    if result.directory.Some? then
      if result.directory.value.path in s.records then Some(s.records[result.directory.value.path].id) else None
    else if result.mediaFiles == [] then None
    else DirectoryIdFor(s, result.mediaFiles[0].directoryPath)
  }

  predicate Holds(s: Store, path: string, doc: Document) {
    path in s.records && s.records[path].doc == doc
  }

  predicate FilesSettled(s: Store, root: string, link: Option<nat>, files: seq<MediaFile>) {
    forall i :: 0 <= i < |files| ==> Holds(s, files[i].path, FileDocument(root, link, files[i]))
  }

  /** The store already says everything the message has to say. */
  predicate Settled(s: Store, m: Message) {
    match m
    case Complete(root, cutoff) => forall p :: p in s.records ==> !Stale(s.records[p], root, cutoff)
    case Results(root, result) =>
      && (result.directory.Some? ==>
            Holds(s, result.directory.value.path, DirectoryDocument(root, result.directory.value)))
      && FilesSettled(s, root, LinkNow(s, result), result.mediaFiles)
  }

  /** Applying a settled message again changes nothing at all. */
  lemma SettledIsFixed(s: Store, m: Message)
    requires Settled(s, m)
    ensures Apply(s, m) == s
  {
    match m {
      case Complete(root, cutoff) =>
        assert Sweep(s, root, cutoff).records == s.records;
      case Results(root, result) =>
        if result.directory.Some? {
          PutAgain(s, result.directory.value.path, DirectoryDocument(root, result.directory.value));
        }
        var writes := FileWrites(root, LinkOf(s, root, result), result.mediaFiles);
        forall i | 0 <= i < |writes| ensures writes[i].0 in s.records && s.records[writes[i].0].doc == writes[i].1 {
          assert Holds(s, result.mediaFiles[i].path, FileDocument(root, LinkNow(s, result), result.mediaFiles[i]));
        }
        PutAllAgain(s, writes);
    }
  }

  predicate DistinctPathsIn(result: ScanResult) {
    forall a, b :: 0 <= a < b < |Writes(result)| ==> Writes(result)[a] != Writes(result)[b]
  }

  /** An upsert touches only the paths its result names, and keeps every id. */
  lemma UpsertFrame(s: Store, root: string, result: ScanResult, p: string)
    ensures var t := Upsert(s, root, result);
      && (p !in Writes(result) ==>
            (p in t.records <==> p in s.records) && (p in s.records ==> t.records[p] == s.records[p]))
      && (p in s.records ==> p in t.records && t.records[p].id == s.records[p].id)
  {
    var writes := FileWrites(root, LinkOf(s, root, result), result.mediaFiles);
    PutAllFrame(WithDirectory(s, root, result), writes, p);
    DirectoryIsWritten(result);
    forall i | 0 <= i < |writes| ensures writes[i].0 in Writes(result) {
      FileIsWritten(result, i);
    }
  }

  /** The directory record a result looks up, when it carries none itself. */
  predicate LooksUp(result: ScanResult, p: string) {
    result.directory.None? && result.mediaFiles != [] && p == result.mediaFiles[0].directoryPath
  }

  predicate LooksElsewhere(result: ScanResult) {
    result.directory.None? && result.mediaFiles != [] ==> result.mediaFiles[0].directoryPath !in Writes(result)
  }

  lemma DistinctPathsSplit(root: string, link: Option<nat>, result: ScanResult)
    requires DistinctPathsIn(result)
    ensures DistinctWrites(FileWrites(root, link, result.mediaFiles))
    ensures result.directory.Some? ==> !Names(FileWrites(root, link, result.mediaFiles), result.directory.value.path)
  {
    var writes := FileWrites(root, link, result.mediaFiles);
    var first := |DirectoryPaths(result)|;
    DirectoryIsWritten(result);
    forall j | 0 <= j < |writes| ensures result.directory.Some? ==> writes[j].0 != result.directory.value.path {
      FileIsWritten(result, j);
    }
    forall i, j | 0 <= i < j < |writes| ensures writes[i].0 != writes[j].0 {
      FileIsWritten(result, i);
      FileIsWritten(result, j);
      assert Writes(result)[first + i] != Writes(result)[first + j];
    }
  }

  lemma UpsertLinks(s: Store, root: string, result: ScanResult)
    requires DistinctPathsIn(result) && LooksElsewhere(result)
    ensures LinkNow(Upsert(s, root, result), result) == LinkOf(s, root, result)
    ensures result.directory.Some? ==>
      Holds(Upsert(s, root, result), result.directory.value.path, DirectoryDocument(root, result.directory.value))
  {
    var link := LinkOf(s, root, result);
    if result.directory.Some? {
      DistinctPathsSplit(root, link, result);
      PutAllFrame(WithDirectory(s, root, result), FileWrites(root, link, result.mediaFiles), result.directory.value.path);
    } else if result.mediaFiles != [] {
      UpsertFrame(s, root, result, result.mediaFiles[0].directoryPath);
    }
  }

  // Each file of a result is stored with the link its upsert found.
  lemma UpsertLands(s: Store, root: string, result: ScanResult, i: nat)
    requires DistinctPathsIn(result) && i < |result.mediaFiles|
    ensures var f := result.mediaFiles[i];
            Holds(Upsert(s, root, result), f.path, FileDocument(root, LinkOf(s, root, result), f))
  {
    var link := LinkOf(s, root, result);
    var writes := FileWrites(root, link, result.mediaFiles);
    DistinctPathsSplit(root, link, result);
    PutAllLands(WithDirectory(s, root, result), writes);
    assert writes[i].0 == result.mediaFiles[i].path;
  }

  /** Right after an upsert its result is settled. */
  lemma UpsertSettles(s: Store, root: string, result: ScanResult)
    requires DistinctPathsIn(result) && LooksElsewhere(result)
    ensures Settled(Upsert(s, root, result), Results(root, result))
  {
    UpsertLinks(s, root, result);
    forall i | 0 <= i < |result.mediaFiles|
      ensures Holds(Upsert(s, root, result), result.mediaFiles[i].path,
                    FileDocument(root, LinkOf(s, root, result), result.mediaFiles[i])) {
      UpsertLands(s, root, result, i);
    }
  }

  predicate DependsOn(result: ScanResult, p: string) {
    p in Writes(result) || LooksUp(result, p)
  }

  predicate SameAt(s: Store, t: Store, p: string) {
    (p in t.records <==> p in s.records) && (p in s.records ==> t.records[p] == s.records[p])
  }

  lemma SettledByRecords(s: Store, t: Store, root: string, result: ScanResult)
    requires Settled(s, Results(root, result))
    requires forall p :: DependsOn(result, p) ==> SameAt(s, t, p)
    ensures Settled(t, Results(root, result))
  {
    DirectoryIsWritten(result);
    if result.directory.Some? {
      assert DependsOn(result, result.directory.value.path);
      assert SameAt(s, t, result.directory.value.path);
    } else if result.mediaFiles != [] {
      assert DependsOn(result, result.mediaFiles[0].directoryPath);
      assert SameAt(s, t, result.mediaFiles[0].directoryPath);
    }
    assert LinkNow(t, result) == LinkNow(s, result);
    forall i | 0 <= i < |result.mediaFiles|
      ensures Holds(t, result.mediaFiles[i].path, FileDocument(root, LinkNow(s, result), result.mediaFiles[i])) {
      FileIsWritten(result, i);
      assert DependsOn(result, result.mediaFiles[i].path) && SameAt(s, t, result.mediaFiles[i].path);
      assert Holds(s, result.mediaFiles[i].path, FileDocument(root, LinkNow(s, result), result.mediaFiles[i]));
    }
  }

  // ---------------------------------------------------------------------
  // The results of one run
  // ---------------------------------------------------------------------

  predicate NotBelow(scannedAt: Option<string>, cutoff: string) {
    scannedAt.Some? && !Before(scannedAt.value, cutoff)
  }

  predicate Fresh(result: ScanResult, cutoff: string) {
    && (result.directory.Some? ==> NotBelow(result.directory.value.scannedAt, cutoff))
    && (forall i :: 0 <= i < |result.mediaFiles| ==> NotBelow(result.mediaFiles[i].scannedAt, cutoff))
  }

  /** Two results share no path. */
  predicate Apart(a: ScanResult, b: ScanResult) {
    forall p :: p in Writes(a) ==> p !in Writes(b)
  }

  predicate HasDirectory(result: ScanResult, path: string) {
    result.directory.Some? && result.directory.value.path == path
  }

  /** The directory record a result without one refers to came earlier. */
  predicate Linked(log: seq<ScanResult>, j: nat)
    requires j < |log|
  {
    log[j].directory.None? && log[j].mediaFiles != [] ==>
      exists i :: 0 <= i < j && HasDirectory(log[i], log[j].mediaFiles[0].directoryPath)
  }

  /** Fresh records, and no path twice. */
  predicate FreshAndApart(log: seq<ScanResult>, cutoff: string) {
    && (forall i :: 0 <= i < |log| ==> DistinctPathsIn(log[i]) && Fresh(log[i], cutoff))
    && (forall i, j :: 0 <= i < j < |log| ==> Apart(log[i], log[j]))
  }

  /** What one run may send, in the order it is first delivered: fresh records,
      no path twice, and no later part ahead of its directory. */
  predicate RunResults(log: seq<ScanResult>, cutoff: string) {
    FreshAndApart(log, cutoff) && forall j :: 0 <= j < |log| ==> Linked(log, j)
  }

  function InOrder(s: Store, root: string, log: seq<ScanResult>, n: nat): Store
    requires n <= |log|
  {
    if n == 0 then s else Upsert(InOrder(s, root, log, n - 1), root, log[n - 1])
  }

  predicate AllSettled(s: Store, root: string, log: seq<ScanResult>, n: nat)
    requires n <= |log|
  {
    forall j :: 0 <= j < n ==> Settled(s, Results(root, log[j]))
  }

  // A later result touches nothing an earlier one depends on.
  lemma LaterIsApart(log: seq<ScanResult>, cutoff: string, j: nat, k: nat, p: string)
    requires RunResults(log, cutoff) && j < k < |log| && DependsOn(log[j], p)
    ensures p !in Writes(log[k])
  {
    assert Apart(log[j], log[k]);
    if LooksUp(log[j], p) {
      assert Linked(log, j);
      var i :| 0 <= i < j && HasDirectory(log[i], p);
      DirectoryIsWritten(log[i]);
      assert Apart(log[i], log[k]);
    }
  }

  lemma LookupIsApart(log: seq<ScanResult>, cutoff: string, j: nat)
    requires RunResults(log, cutoff) && j < |log|
    ensures LooksElsewhere(log[j])
  {
    assert Linked(log, j);
    if log[j].directory.None? && log[j].mediaFiles != [] {
      var i :| 0 <= i < j && HasDirectory(log[i], log[j].mediaFiles[0].directoryPath);
      DirectoryIsWritten(log[i]);
      assert Apart(log[i], log[j]);
    }
  }

  lemma SettledStays(s: Store, root: string, log: seq<ScanResult>, cutoff: string, j: nat, k: nat)
    requires RunResults(log, cutoff) && j < k < |log| && Settled(s, Results(root, log[j]))
    ensures Settled(Upsert(s, root, log[k]), Results(root, log[j]))
  {
    var t := Upsert(s, root, log[k]);
    forall p | DependsOn(log[j], p) ensures SameAt(s, t, p) {
      LaterIsApart(log, cutoff, j, k, p);
      UpsertFrame(s, root, log[k], p);
    }
    SettledByRecords(s, t, root, log[j]);
  }

  lemma NextSettles(s: Store, root: string, log: seq<ScanResult>, cutoff: string, k: nat)
    requires RunResults(log, cutoff) && k < |log| && AllSettled(s, root, log, k)
    ensures AllSettled(Upsert(s, root, log[k]), root, log, k + 1)
  {
    LookupIsApart(log, cutoff, k);
    UpsertSettles(s, root, log[k]);
    forall j | 0 <= j < k ensures Settled(Upsert(s, root, log[k]), Results(root, log[j])) {
      SettledStays(s, root, log, cutoff, j, k);
    }
  }

  /** Once applied, a result stays settled for the rest of the run. */
  lemma {:induction false} ResultsSettle(s: Store, root: string, log: seq<ScanResult>, cutoff: string, n: nat)
    requires RunResults(log, cutoff) && n <= |log|
    ensures AllSettled(InOrder(s, root, log, n), root, log, n)
    decreases n
  {
    if n > 0 {
      var before, k := InOrder(s, root, log, n - 1), n - 1;
      ResultsSettle(s, root, log, cutoff, k);
      NextSettles(before, root, log, cutoff, k);
      assert InOrder(s, root, log, n) == Upsert(before, root, log[k]);
    }
  }

  // ---------------------------------------------------------------------
  // The sweep
  // ---------------------------------------------------------------------

  predicate FreshAt(s: Store, root: string, cutoff: string, p: string) {
    p in s.records && s.records[p].doc.root == root && !Stale(s.records[p], root, cutoff)
  }

  lemma WrittenIsFresh(s: Store, root: string, result: ScanResult, cutoff: string, p: string)
    requires Fresh(result, cutoff) && Settled(s, Results(root, result)) && p in Writes(result)
    ensures FreshAt(s, root, cutoff, p)
  {
    var a :| 0 <= a < |Writes(result)| && Writes(result)[a] == p;
    DirectoryIsWritten(result);
    if result.directory.None? || a > 0 {
      var i := a - |DirectoryPaths(result)|;
      FileIsWritten(result, i);
      assert Holds(s, p, FileDocument(root, LinkNow(s, result), result.mediaFiles[i]));
      assert NotBelow(result.mediaFiles[i].scannedAt, cutoff);
    }
  }

  lemma DependencyIsFresh(s: Store, root: string, log: seq<ScanResult>, cutoff: string, j: nat, p: string)
    requires RunResults(log, cutoff) && AllSettled(s, root, log, |log|) && j < |log| && DependsOn(log[j], p)
    ensures FreshAt(s, root, cutoff, p)
  {
    if p in Writes(log[j]) {
      WrittenIsFresh(s, root, log[j], cutoff, p);
    } else {
      assert Linked(log, j);
      var i :| 0 <= i < j && HasDirectory(log[i], p);
      DirectoryIsWritten(log[i]);
      WrittenIsFresh(s, root, log[i], cutoff, p);
    }
  }

  lemma SweepKeepsSettled(s: Store, root: string, log: seq<ScanResult>, cutoff: string)
    requires RunResults(log, cutoff) && AllSettled(s, root, log, |log|)
    ensures AllSettled(Sweep(s, root, cutoff), root, log, |log|)
    ensures Settled(Sweep(s, root, cutoff), Complete(root, cutoff))
  {
    var t := Sweep(s, root, cutoff);
    forall j | 0 <= j < |log| ensures Settled(t, Results(root, log[j])) {
      forall p | DependsOn(log[j], p) ensures SameAt(s, t, p) {
        DependencyIsFresh(s, root, log, cutoff, j, p);
      }
      SettledByRecords(s, t, root, log[j]);
    }
  }

  // ---------------------------------------------------------------------
  // Delivery
  // ---------------------------------------------------------------------

  /** A finished run: its results, then its completion. */
  function RunLog(root: string, results: seq<ScanResult>, cutoff: string): (log: seq<Message>)
    ensures |log| == |results| + 1
    ensures forall i :: 0 <= i < |results| ==> log[i] == Results(root, results[i])
    ensures log[|results|] == Complete(root, cutoff)
  {
    seq(|results|, i requires 0 <= i < |results| => Results(root, results[i])) + [Complete(root, cutoff)]
  }

  /** The store after the first n messages, each applied once and in order. */
  function OnceEach(s: Store, root: string, results: seq<ScanResult>, cutoff: string, n: nat): Store
    requires n <= |results| + 1
  {
    if n <= |results| then InOrder(s, root, results, n)
    else Sweep(InOrder(s, root, results, |results|), root, cutoff)
  }

  lemma AppliedIsSettled(s: Store, root: string, results: seq<ScanResult>, cutoff: string, n: nat, i: nat)
    requires RunResults(results, cutoff) && i < n <= |results| + 1
    ensures Settled(OnceEach(s, root, results, cutoff, n), RunLog(root, results, cutoff)[i])
  {
    if n <= |results| {
      ResultsSettle(s, root, results, cutoff, n);
    } else {
      ResultsSettle(s, root, results, cutoff, |results|);
      SweepKeepsSettled(InOrder(s, root, results, |results|), root, results, cutoff);
    }
  }

  /** At-least-once delivery: the next message for the first time, or any earlier
      one again. */
  datatype Step = Next | Again(index: nat)

  datatype Delivery = Delivery(store: Store, applied: nat)

  function Deliver(d: Delivery, log: seq<Message>, step: Step): Delivery {
    match step
    case Next =>
      if d.applied < |log| then Delivery(Apply(d.store, log[d.applied]), d.applied + 1) else d
    case Again(i) =>
      if i < d.applied && i < |log| then Delivery(Apply(d.store, log[i]), d.applied) else d
  }

  function Run(s: Store, log: seq<Message>, steps: seq<Step>): (d: Delivery)
    ensures d.applied <= |log|
    decreases |steps|
  {
    if steps == [] then Delivery(s, 0) else Deliver(Run(s, log, steps[..|steps| - 1]), log, steps[|steps| - 1])
  }

  lemma OneMoreDelivery(s: Store, root: string, results: seq<ScanResult>, cutoff: string, d: Delivery, step: Step)
    requires RunResults(results, cutoff) && d.applied <= |results| + 1
    requires d.store == OnceEach(s, root, results, cutoff, d.applied)
    ensures var e := Deliver(d, RunLog(root, results, cutoff), step);
            e.applied <= |results| + 1 && e.store == OnceEach(s, root, results, cutoff, e.applied)
  {
    if step.Again? && step.index < d.applied {
      AppliedIsSettled(s, root, results, cutoff, d.applied, step.index);
      SettledIsFixed(d.store, RunLog(root, results, cutoff)[step.index]);
    }
  }

  /** Redelivering any message of the run, at any time and any number of times,
      gives the same store with the same ids as delivering each once. */
  lemma {:induction false} DuplicatesChangeNothing(
      s: Store, root: string, results: seq<ScanResult>, cutoff: string, steps: seq<Step>)
    requires RunResults(results, cutoff)
    ensures var d := Run(s, RunLog(root, results, cutoff), steps);
            d.store == OnceEach(s, root, results, cutoff, d.applied)
    decreases |steps|
  {
    if steps != [] {
      var shorter := steps[..|steps| - 1];
      DuplicatesChangeNothing(s, root, results, cutoff, shorter);
      OneMoreDelivery(s, root, results, cutoff, Run(s, RunLog(root, results, cutoff), shorter), steps[|steps| - 1]);
    }
  }

  // ---------------------------------------------------------------------
  // What the run leaves behind
  // ---------------------------------------------------------------------

  predicate Wrote(log: seq<ScanResult>, n: nat, p: string)
    requires n <= |log|
  {
    exists i :: 0 <= i < n && p in Writes(log[i])
  }

  lemma {:induction false} ResultsFrame(s: Store, root: string, log: seq<ScanResult>, n: nat, p: string)
    requires n <= |log|
    ensures var t := InOrder(s, root, log, n);
      && (!Wrote(log, n, p) ==> SameAt(s, t, p))
      && (p in s.records ==> p in t.records && t.records[p].id == s.records[p].id)
    decreases n
  {
    if n > 0 {
      ResultsFrame(s, root, log, n - 1, p);
      UpsertFrame(InOrder(s, root, log, n - 1), root, log[n - 1], p);
      assert p in Writes(log[n - 1]) ==> Wrote(log, n, p);
    }
  }

  /** A timestamp is there and sorts below the cutoff. */
  predicate TakenBelow(scannedAt: Option<string>, cutoff: string) {
    scannedAt.Some? && Before(scannedAt.value, cutoff)
  }

  /** Every record an earlier scan left under this root is older than the run. */
  predicate OlderUnderRoot(s: Store, root: string, cutoff: string) {
    forall p :: p in s.records && s.records[p].doc.root == root ==> TakenBelow(s.records[p].doc.scannedAt, cutoff)
  }

  // ---------------------------------------------------------------------
  // What a record says, field by field
  // ---------------------------------------------------------------------

  /** A file's record says what its own scan said of it, under the run's root. */
  predicate SaysFile(s: Store, root: string, f: MediaFile) {
    && f.path in s.records
    && s.records[f.path].doc.kind == MediaFileKind
    && s.records[f.path].doc.root == root
    && s.records[f.path].doc.scannedAt == f.scannedAt
    && s.records[f.path].doc.content == f.content
  }

  predicate SaysDirectory(s: Store, root: string, d: Directory) {
    && d.path in s.records
    && s.records[d.path].doc.kind == DirectoryKind
    && s.records[d.path].doc.root == root
    && s.records[d.path].doc.scannedAt == d.scannedAt
    && s.records[d.path].doc.content == d.content
    && s.records[d.path].doc.link == None
  }

  /** The store says of every path of a result what the result said of it. */
  predicate Says(s: Store, root: string, result: ScanResult) {
    && (result.directory.Some? ==> SaysDirectory(s, root, result.directory.value))
    && (forall i :: 0 <= i < |result.mediaFiles| ==> SaysFile(s, root, result.mediaFiles[i]))
  }

  lemma SettledSays(s: Store, root: string, result: ScanResult)
    requires Settled(s, Results(root, result))
    ensures Says(s, root, result)
  {
    forall i | 0 <= i < |result.mediaFiles| ensures SaysFile(s, root, result.mediaFiles[i]) {
      assert Holds(s, result.mediaFiles[i].path, FileDocument(root, LinkNow(s, result), result.mediaFiles[i]));
    }
  }

  /** An upsert leaves each record saying what its own scan said, and each file
      linked to the directory the result brought or looked up, or as it came. */
  lemma UpsertSays(s: Store, root: string, result: ScanResult)
    requires DistinctPathsIn(result)
    ensures Says(Upsert(s, root, result), root, result)
    ensures forall i :: 0 <= i < |result.mediaFiles| ==>
      var f := result.mediaFiles[i];
      Upsert(s, root, result).records[f.path].doc.link ==
        if LinkOf(s, root, result).Some? then LinkOf(s, root, result) else f.link
  {
    var t := Upsert(s, root, result);
    if result.directory.Some? {
      UpsertLinks(s, root, result);
    }
    forall i | 0 <= i < |result.mediaFiles| ensures SaysFile(t, root, result.mediaFiles[i])
      ensures t.records[result.mediaFiles[i].path].doc.link ==
        if LinkOf(s, root, result).Some? then LinkOf(s, root, result) else result.mediaFiles[i].link
    {
      UpsertLands(s, root, result, i);
    }
  }

  /** A path a result wrote has a record with the result's own timestamp. */
  lemma SaidTimestamp(s: Store, root: string, result: ScanResult, cutoff: string, p: string)
    requires Says(s, root, result) && p in Writes(result) && AllTakenBelow(result, cutoff)
    ensures p in s.records && TakenBelow(s.records[p].doc.scannedAt, cutoff)
  {
    var a :| 0 <= a < |Writes(result)| && Writes(result)[a] == p;
    DirectoryIsWritten(result);
    if a >= |DirectoryPaths(result)| {
      var i := a - |DirectoryPaths(result)|;
      FileIsWritten(result, i);
      assert SaysFile(s, root, result.mediaFiles[i]);
    }
  }

  predicate AllTakenBelow(result: ScanResult, cutoff: string) {
    && (result.directory.Some? ==> TakenBelow(result.directory.value.scannedAt, cutoff))
    && (forall i :: 0 <= i < |result.mediaFiles| ==> TakenBelow(result.mediaFiles[i].scannedAt, cutoff))
  }

  /** The directory a result's files belong to. */
  function DirectoryOf(result: ScanResult): string {
    if result.directory.Some? then result.directory.value.path
    else if result.mediaFiles == [] then ""
    else result.mediaFiles[0].directoryPath
  }

  /** A file's record points at its directory's. */
  predicate LinkedTo(s: Store, file: string, directory: string) {
    && file in s.records && directory in s.records && s.records[directory].doc.kind == DirectoryKind
    && s.records[file].doc.link == Some(s.records[directory].id)
  }

  lemma SettledIsLinked(s: Store, root: string, log: seq<ScanResult>, cutoff: string, j: nat, i: nat)
    requires RunResults(log, cutoff) && AllSettled(s, root, log, |log|) && j < |log| && i < |log[j].mediaFiles|
    ensures DirectoryOf(log[j]) != "" ==> LinkedTo(s, log[j].mediaFiles[i].path, DirectoryOf(log[j]))
  {
    var f := log[j].mediaFiles[i];
    assert Settled(s, Results(root, log[j])) && Linked(log, j);
    assert Holds(s, f.path, FileDocument(root, LinkNow(s, log[j]), f));
    if log[j].directory.None? {
      var k :| 0 <= k < j && HasDirectory(log[k], DirectoryOf(log[j]));
      assert Settled(s, Results(root, log[k]));
    }
  }

  /** After a completed run, whatever was redelivered along the way: under its
      root stand exactly the records its results wrote, each as it was written,
      every file linked to its directory's record, with the id the path had before
      if it had one; a path the run did not write is untouched under any other
      root. */
  lemma CompletedRun(s: Store, root: string, results: seq<ScanResult>, cutoff: string, steps: seq<Step>, p: string)
    requires RunResults(results, cutoff) && OlderUnderRoot(s, root, cutoff)
    requires Run(s, RunLog(root, results, cutoff), steps).applied == |results| + 1
    ensures var t := Run(s, RunLog(root, results, cutoff), steps).store;
      && AllSettled(t, root, results, |results|)
      && (forall j :: 0 <= j < |results| ==> Says(t, root, results[j]))
      && (forall j, i :: 0 <= j < |results| && 0 <= i < |results[j].mediaFiles| && DirectoryOf(results[j]) != "" ==>
            LinkedTo(t, results[j].mediaFiles[i].path, DirectoryOf(results[j])))
      && (p in t.records && t.records[p].doc.root == root <==> Wrote(results, |results|, p))
      && (p in s.records && p in t.records ==> t.records[p].id == s.records[p].id)
      && (!Wrote(results, |results|, p) ==>
            (p in t.records <==> p in s.records && s.records[p].doc.root != root) &&
            (p in t.records ==> t.records[p] == s.records[p]))
  {
    DuplicatesChangeNothing(s, root, results, cutoff, steps);
    var before := InOrder(s, root, results, |results|);
    var t := Run(s, RunLog(root, results, cutoff), steps).store;
    ResultsSettle(s, root, results, cutoff, |results|);
    SweepKeepsSettled(before, root, results, cutoff);
    ResultsFrame(s, root, results, |results|, p);
    if Wrote(results, |results|, p) {
      var i :| 0 <= i < |results| && p in Writes(results[i]);
      WrittenIsFresh(before, root, results[i], cutoff, p);
    }
    forall j, i | 0 <= j < |results| && 0 <= i < |results[j].mediaFiles| && DirectoryOf(results[j]) != ""
      ensures LinkedTo(t, results[j].mediaFiles[i].path, DirectoryOf(results[j])) {
      SettledIsLinked(t, root, results, cutoff, j, i);
    }
    forall j | 0 <= j < |results| ensures Says(t, root, results[j]) {
      assert Settled(t, Results(root, results[j]));
      SettledSays(t, root, results[j]);
    }
  }

  predicate RunDone(s: Store, root: string, results: seq<ScanResult>, cutoff: string, steps: seq<Step>) {
    Run(s, RunLog(root, results, cutoff), steps).applied == |results| + 1
  }

  /** One scan prepares the next: once it is done, every record under its root is
      older than any cutoff above the timestamps it reported. */
  lemma DoneIsOlder(s: Store, root: string, results: seq<ScanResult>, cutoff: string, steps: seq<Step>, next: string)
    requires RunResults(results, cutoff) && OlderUnderRoot(s, root, cutoff) && RunDone(s, root, results, cutoff, steps)
    requires forall j :: 0 <= j < |results| ==> AllTakenBelow(results[j], next)
    ensures OlderUnderRoot(Run(s, RunLog(root, results, cutoff), steps).store, root, next)
  {
    var t := Run(s, RunLog(root, results, cutoff), steps).store;
    forall p | p in t.records && t.records[p].doc.root == root ensures TakenBelow(t.records[p].doc.scannedAt, next) {
      CompletedRun(s, root, results, cutoff, steps, p);
      var j :| 0 <= j < |results| && p in Writes(results[j]);
      SaidTimestamp(t, root, results[j], next, p);
    }
  }

  /** Two scans of one root, the second started after everything the first
      reported: then the root holds exactly what the second reported, a path both
      reported under its old id, a path only the first one did gone. */
  lemma SecondScan(s: Store, root: string, first: seq<ScanResult>, cutoff: string, steps: seq<Step>,
                   second: seq<ScanResult>, next: string, again: seq<Step>, p: string)
    requires RunResults(first, cutoff) && OlderUnderRoot(s, root, cutoff) && RunDone(s, root, first, cutoff, steps)
    requires forall j :: 0 <= j < |first| ==> AllTakenBelow(first[j], next)
    requires var mid := Run(s, RunLog(root, first, cutoff), steps).store;
             RunResults(second, next) && RunDone(mid, root, second, next, again)
    ensures var mid := Run(s, RunLog(root, first, cutoff), steps).store;
            var end := Run(mid, RunLog(root, second, next), again).store;
            && (p in end.records && end.records[p].doc.root == root <==> Wrote(second, |second|, p))
            && (Wrote(first, |first|, p) && Wrote(second, |second|, p) ==>
                  p in mid.records && p in end.records && end.records[p].id == mid.records[p].id)
            && (Wrote(first, |first|, p) && !Wrote(second, |second|, p) ==> p in mid.records && p !in end.records)
  {
    var mid := Run(s, RunLog(root, first, cutoff), steps).store;
    DoneIsOlder(s, root, first, cutoff, steps, next);
    CompletedRun(s, root, first, cutoff, steps, p);
    CompletedRun(mid, root, second, next, again, p);
  }

  // ---------------------------------------------------------------------
  // Runs that lost the first part of an item
  // ---------------------------------------------------------------------

  lemma {:induction false} InOrderKeepsIdsSound(s: Store, root: string, log: seq<ScanResult>, n: nat)
    requires IdsAreSound(s) && n <= |log|
    ensures IdsAreSound(InOrder(s, root, log, n))
    decreases n
  {
    if n > 0 {
      InOrderKeepsIdsSound(s, root, log, n - 1);
      OperationsKeepIdsSound(InOrder(s, root, log, n - 1), root, log[n - 1], "", "");
    }
  }

  lemma {:induction false} IdsAreKept(s: Store, root: string, log: seq<ScanResult>, j: nat, n: nat, p: string)
    requires j <= n <= |log| && p in InOrder(s, root, log, j).records
    ensures p in InOrder(s, root, log, n).records
    ensures InOrder(s, root, log, n).records[p].id == InOrder(s, root, log, j).records[p].id
    decreases n
  {
    if j < n {
      IdsAreKept(s, root, log, j, n - 1, p);
      UpsertFrame(InOrder(s, root, log, n - 1), root, log[n - 1], p);
    }
  }

  // A file keeps the document its own upsert gave it.
  lemma {:induction false} FileStays(s: Store, root: string, log: seq<ScanResult>, cutoff: string, j: nat, i: nat, n: nat)
    requires FreshAndApart(log, cutoff) && j < n <= |log| && i < |log[j].mediaFiles|
    ensures var f, link := log[j].mediaFiles[i], LinkOf(InOrder(s, root, log, j), root, log[j]);
            Holds(InOrder(s, root, log, n), f.path, FileDocument(root, link, f))
    decreases n
  {
    hide Upsert, LinkOf, FileDocument, Writes, DistinctPathsIn, Fresh;
    if j == n - 1 {
      UpsertLands(InOrder(s, root, log, j), root, log[j], i);
    } else {
      FileStays(s, root, log, cutoff, j, i, n - 1);
      FileIsWritten(log[j], i);
      assert Apart(log[j], log[n - 1]);
      UpsertFrame(InOrder(s, root, log, n - 1), root, log[n - 1], log[j].mediaFiles[i].path);
    }
  }

  lemma UpsertedIsFresh(s: Store, root: string, result: ScanResult, cutoff: string, p: string)
    requires DistinctPathsIn(result) && Fresh(result, cutoff) && p in Writes(result)
    ensures FreshAt(Upsert(s, root, result), root, cutoff, p)
  {
    var a :| 0 <= a < |Writes(result)| && Writes(result)[a] == p;
    if result.directory.Some? && a == 0 {
      UpsertLinks(s, root, result);
    } else {
      var i := a - |DirectoryPaths(result)|;
      UpsertLands(s, root, result, i);
      assert NotBelow(result.mediaFiles[i].scannedAt, cutoff);
    }
  }

  lemma {:induction false} WrittenStaysFresh(s: Store, root: string, log: seq<ScanResult>, cutoff: string, n: nat, p: string)
    requires FreshAndApart(log, cutoff) && n <= |log| && Wrote(log, n, p)
    ensures FreshAt(InOrder(s, root, log, n), root, cutoff, p)
    decreases n
  {
    hide Upsert, Writes, DistinctPathsIn, Fresh;
    var before := InOrder(s, root, log, n - 1);
    if p in Writes(log[n - 1]) {
      UpsertedIsFresh(before, root, log[n - 1], cutoff, p);
    } else {
      WrittenStaysFresh(s, root, log, cutoff, n - 1, p);
      UpsertFrame(before, root, log[n - 1], p);
    }
  }

  ghost predicate Resolves(s: Store, id: nat) {
    exists p :: p in s.records && s.records[p].id == id
  }

  /** Runs in any order, first parts missing or late: a file of a part without a
      directory is stored with the id of the directory record its path had at that
      moment, and after the sweep that link still resolves exactly when some part
      wrote the directory after all or the older record is not itself swept. */
  lemma LinkSurvivesIff(s: Store, root: string, log: seq<ScanResult>, cutoff: string, j: nat, i: nat)
    requires IdsAreSound(s) && FreshAndApart(log, cutoff)
    requires j < |log| && log[j].directory.None? && i < |log[j].mediaFiles|
    ensures var d, f := log[j].mediaFiles[0].directoryPath, log[j].mediaFiles[i];
            var found := DirectoryIdFor(InOrder(s, root, log, j), d);
            var t := Sweep(InOrder(s, root, log, |log|), root, cutoff);
            && Holds(t, f.path, FileDocument(root, found, f))
            && (found.Some? ==>
                  (Resolves(t, found.value) <==>
                    Wrote(log, |log|, d) || (d in s.records && !Stale(s.records[d], root, cutoff))))
  {
    var n, d, f := |log|, log[j].mediaFiles[0].directoryPath, log[j].mediaFiles[i];
    FileStays(s, root, log, cutoff, j, i, n);
    FileIsWritten(log[j], i);
    assert Wrote(log, n, f.path);
    WrittenStaysFresh(s, root, log, cutoff, n, f.path);
    hide InOrder, Writes, FreshAndApart, IdsAreSound, FileDocument;
    if DirectoryIdFor(InOrder(s, root, log, j), d).Some? {
      IdsAreKept(s, root, log, j, n, d);
      InOrderKeepsIdsSound(s, root, log, n);
      SweptResolves(InOrder(s, root, log, n), root, cutoff, d);
      StaleAtTheEnd(s, root, log, cutoff, d);
    }
  }

  lemma SweptResolves(s: Store, root: string, cutoff: string, d: string)
    requires IdsAreSound(s) && d in s.records
    ensures Resolves(Sweep(s, root, cutoff), s.records[d].id) <==> !Stale(s.records[d], root, cutoff)
  {
    var t := Sweep(s, root, cutoff);
    if !Stale(s.records[d], root, cutoff) {
      assert d in t.records && t.records[d].id == s.records[d].id;
    }
  }

  // A record at the end of the run is stale if it was before and nothing wrote it.
  lemma StaleAtTheEnd(s: Store, root: string, log: seq<ScanResult>, cutoff: string, d: string)
    requires FreshAndApart(log, cutoff) && d in InOrder(s, root, log, |log|).records
    ensures !Stale(InOrder(s, root, log, |log|).records[d], root, cutoff) <==>
      Wrote(log, |log|, d) || (d in s.records && !Stale(s.records[d], root, cutoff))
  {
    hide Upsert, Writes;
    ResultsFrame(s, root, log, |log|, d);
    if Wrote(log, |log|, d) {
      WrittenStaysFresh(s, root, log, cutoff, |log|, d);
    }
  }

  /** Why the first part matters: a later part applied without it links its files
      to the record an older scan left, and once the sweep has run the links
      resolve exactly when there was no such record or the sweep spares it. */
  lemma DroppedFirstPartDangles(s: Store, root: string, cutoff: string, result: ScanResult)
    requires IdsAreSound(s) && Fresh(result, cutoff) && DistinctPathsIn(result)
    requires result.directory.None? && result.mediaFiles != [] && result.mediaFiles[0].link.None?
    requires result.mediaFiles[0].directoryPath !in Writes(result)
    ensures var d, f := result.mediaFiles[0].directoryPath, result.mediaFiles[0].path;
            var t := Sweep(Upsert(s, root, result), root, cutoff);
            && f in t.records
            && ((t.records[f].doc.link.Some? ==> Resolves(t, t.records[f].doc.link.value)) <==>
                  DirectoryIdFor(s, d).None? || !Stale(s.records[d], root, cutoff))
  {
    var d := result.mediaFiles[0].directoryPath;
    assert InOrder(s, root, [result], 0) == s && InOrder(s, root, [result], 1) == Upsert(s, root, result);
    LinkSurvivesIff(s, root, [result], cutoff, 0, 0);
    assert Wrote([result], 1, d) <==> d in Writes(result);
  }
}

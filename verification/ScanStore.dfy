/** The local_directory collection: records keyed on path, written by
    whole-document replacement and swept by age. */
module ScanStore {
  import opened Options
  import opened Calendar
  import opened StoredTime

  datatype Kind = DirectoryKind | MediaFileKind

  /** A stored document without its identity. scannedAt is absent when the record
      carried none; link is directory_id. */
  datatype Document = Document(kind: Kind, root: string, scannedAt: Option<string>, link: Option<nat>, content: string)

  datatype Record = Record(id: nat, doc: Document)

  /** The collection and the next _id it will mint. */
  datatype Store = Store(records: map<string, Record>, nextId: nat)

  // What a scan sends. Timestamps arrive as protojson text and are normalised
  // once, before anything is written; see Normalized. A scan root that came with
  // a record is overwritten by the message's own.
  datatype Directory = Directory(path: string, scanRoot: string, scannedAt: Option<string>, content: string)

  datatype MediaFile = MediaFile(
    path: string, directoryPath: string, scanRoot: string, scannedAt: Option<string>, link: Option<nat>, content: string)

  datatype ScanResult = ScanResult(directory: Option<Directory>, mediaFiles: seq<MediaFile>)

  function DirectoryDocument(root: string, d: Directory): Document {
    Document(DirectoryKind, root, d.scannedAt, None, d.content)
  }

  /** An unlinked file keeps whatever link it arrived with. */
  function FileDocument(root: string, link: Option<nat>, f: MediaFile): Document {
    Document(MediaFileKind, root, f.scannedAt, if link.Some? then link else f.link, f.content)
  }

  // ---------------------------------------------------------------------
  // What the operations do to the store
  // ---------------------------------------------------------------------

  /** Replace-or-insert on path: an existing _id is kept, a new one is minted. */
  function Put(s: Store, path: string, doc: Document): Store {
    if path in s.records then s.(records := s.records[path := Record(s.records[path].id, doc)])
    else Store(s.records[path := Record(s.nextId, doc)], s.nextId + 1)
  }

  type Write = (string, Document)

  function PutAll(s: Store, writes: seq<Write>): Store
    decreases |writes|
  {
    if writes == [] then s
    else
      var last := |writes| - 1;
      Put(PutAll(s, writes[..last]), writes[last].0, writes[last].1)
  }

  function FileWrites(root: string, link: Option<nat>, files: seq<MediaFile>): (w: seq<Write>)
    ensures |w| == |files|
    ensures forall i :: 0 <= i < |w| ==> w[i] == (files[i].path, FileDocument(root, link, files[i]))
  {
    seq(|files|, i requires 0 <= i < |files| => (files[i].path, FileDocument(root, link, files[i])))
  }

  function PutFiles(s: Store, root: string, link: Option<nat>, files: seq<MediaFile>): Store {
    PutAll(s, FileWrites(root, link, files))
  }

  function DirectoryIdFor(s: Store, path: string): Option<nat> {
    if path != "" && path in s.records && s.records[path].doc.kind == DirectoryKind then Some(s.records[path].id)
    else None
  }

  function WithDirectory(s: Store, root: string, result: ScanResult): Store {
    match result.directory
    case Some(d) => Put(s, d.path, DirectoryDocument(root, d))
    case None => s
  }

  /** The directory id a result's files are written with. */
  function LinkOf(s: Store, root: string, result: ScanResult): Option<nat> {
    match result.directory
    case Some(d) => Some(WithDirectory(s, root, result).records[d.path].id)
    case None =>
      if result.mediaFiles == [] then None else DirectoryIdFor(s, result.mediaFiles[0].directoryPath)
  }

  function Upsert(s: Store, root: string, result: ScanResult): Store {
    PutFiles(WithDirectory(s, root, result), root, LinkOf(s, root, result), result.mediaFiles)
  }

  /** The sweep's filter: this root, and a timestamp string below the cutoff. */
  predicate Stale(r: Record, root: string, cutoff: string) {
    r.doc.root == root && r.doc.scannedAt.Some? && Before(r.doc.scannedAt.value, cutoff)
  }

  function Sweep(s: Store, root: string, cutoff: string): Store {
    s.(records := map p | p in s.records && !Stale(s.records[p], root, cutoff) :: s.records[p])
  }

  // ---------------------------------------------------------------------
  // Encoding
  // ---------------------------------------------------------------------

  function StoredAt(scannedAt: Option<string>): Option<string> {
    if scannedAt.Some? && scannedAt.value != "" then Some(NormalizeStoredTime(scannedAt.value)) else scannedAt
  }

  type Stamp = Option<string> -> Option<string>

  function StampedFiles(files: seq<MediaFile>, stamp: Stamp): (r: seq<MediaFile>)
    ensures |r| == |files|
    ensures forall i :: 0 <= i < |r| ==> r[i] == files[i].(scannedAt := stamp(files[i].scannedAt))
  {
    seq(|files|, i requires 0 <= i < |files| => files[i].(scannedAt := stamp(files[i].scannedAt)))
  }

  function Stamped(result: ScanResult, stamp: Stamp): ScanResult {
    ScanResult(
      match result.directory case Some(d) => Some(d.(scannedAt := stamp(d.scannedAt))) case None => None,
      StampedFiles(result.mediaFiles, stamp))
  }

  /** A result with every scanned_at in the fixed-width form the sweep compares. */
  function Normalized(result: ScanResult): ScanResult {
    Stamped(result, StoredAt)
  }

  // ---------------------------------------------------------------------
  // The repository
  // ---------------------------------------------------------------------

  class LocalDirectoryRepo {
    var records: map<string, Record>
    var nextId: nat

    function State(): Store
      reads this
    {
      Store(records, nextId)
    }

    constructor ()
      ensures State() == Store(map[], 1)
    {
      records, nextId := map[], 1;
    }

    method ReplaceOne(path: string, doc: Document)
      modifies this
      ensures State() == Put(old(State()), path, doc)
    {
      if path in records {
        records := records[path := Record(records[path].id, doc)];
      } else {
        records := records[path := Record(nextId, doc)];
        nextId := nextId + 1;
      }
    }

    method UpsertDirectory(root: string, directory: Directory) returns (id: nat)
      modifies this
      ensures State() ==
        Put(old(State()), directory.path, DirectoryDocument(root, directory.(scannedAt := StoredAt(directory.scannedAt))))
      ensures directory.path in records && id == records[directory.path].id
    {
      ReplaceOne(directory.path, Document(DirectoryKind, root, StoredAt(directory.scannedAt), None, directory.content));
      id := records[directory.path].id;
    }

    method DirectoryIdForPath(directoryPath: string) returns (id: Option<nat>)
      ensures id == DirectoryIdFor(State(), directoryPath)
    {
      if directoryPath == "" {
        return None;
      }
      if directoryPath !in records || records[directoryPath].doc.kind != DirectoryKind {
        return None;
      }
      id := Some(records[directoryPath].id);
    }

    method BulkWrite(writes: seq<Write>)
      modifies this
      ensures State() == PutAll(old(State()), writes)
    {
      for i := 0 to |writes|
        invariant State() == PutAll(old(State()), writes[..i])
      {
        ReplaceOne(writes[i].0, writes[i].1);
        assert writes[..i + 1][..i] == writes[..i];
      }
      assert writes[..|writes|] == writes;
    }

    method UpsertScanResult(root: string, result: Option<ScanResult>)
      modifies this
      ensures State() == if result.Some? then Upsert(old(State()), root, Normalized(result.value)) else old(State())
    {
      if result.None? {
        return;
      }
      var files := result.value.mediaFiles;
      var directoryId: Option<nat> := None;
      if result.value.directory.Some? {
        var id := UpsertDirectory(root, result.value.directory.value);
        directoryId := Some(id);
      } else if |files| > 0 {
        directoryId := DirectoryIdForPath(files[0].directoryPath);
      }
      if |files| == 0 {
        return;
      }
      var writes := EncodeFiles(root, directoryId, files);
      BulkWrite(writes);
    }

    /** One replacement per file, linked when the directory's id is known. */
    method EncodeFiles(root: string, directoryId: Option<nat>, files: seq<MediaFile>) returns (writes: seq<Write>)
      ensures writes == FileWrites(root, directoryId, StampedFiles(files, StoredAt))
    {
      writes := [];
      for i := 0 to |files|
        invariant |writes| == i
        invariant forall j :: 0 <= j < i ==>
          writes[j] == (files[j].path, FileDocument(root, directoryId, StampedFiles(files, StoredAt)[j]))
      {
        var link := if directoryId.Some? then directoryId else files[i].link;
        var replacement := Document(MediaFileKind, root, StoredAt(files[i].scannedAt), link, files[i].content);
        writes := writes + [(files[i].path, replacement)];
      }
    }

    method DeleteStaleRecords(root: string, startedAt: nat)
      requires InRange(startedAt)
      modifies this
      ensures State() == Sweep(old(State()), root, FormatStoredTime(startedAt))
    {
      var cutoff := FormatStoredTime(startedAt);
      records := map p | p in records && !Stale(records[p], root, cutoff) :: records[p];
    }
  }

  // ---------------------------------------------------------------------
  // Replacing by path
  // ---------------------------------------------------------------------

  predicate DistinctWrites(writes: seq<Write>) {
    forall i, j :: 0 <= i < j < |writes| ==> writes[i].0 != writes[j].0
  }

  /** Writing a document that is already there changes nothing. */
  lemma PutAgain(s: Store, path: string, doc: Document)
    requires path in s.records && s.records[path].doc == doc
    ensures Put(s, path, doc) == s
  {
    assert s.records[path := Record(s.records[path].id, doc)] == s.records;
  }

  lemma {:induction false} PutAllConcat(s: Store, a: seq<Write>, b: seq<Write>)
    ensures PutAll(PutAll(s, a), b) == PutAll(s, a + b)
    decreases |b|
  {
    if b == [] {
      assert a + b == a;
    } else {
      PutAllConcat(s, a, b[..|b| - 1]);
      assert (a + b)[..|a + b| - 1] == a + b[..|b| - 1];
    }
  }

  /** With distinct paths every write lands, in whatever order the bulk runs. */
  lemma {:induction false} PutAllLands(s: Store, writes: seq<Write>)
    requires DistinctWrites(writes)
    ensures forall i :: 0 <= i < |writes| ==>
      writes[i].0 in PutAll(s, writes).records && PutAll(s, writes).records[writes[i].0].doc == writes[i].1
    decreases |writes|
  {
    if writes != [] {
      var last := |writes| - 1;
      PutAllLands(s, writes[..last]);
      assert forall i :: 0 <= i < last ==> writes[..last][i] == writes[i];
    }
  }

  predicate Names(writes: seq<Write>, path: string) {
    exists i :: 0 <= i < |writes| && writes[i].0 == path
  }

  /** A path no write names is left exactly as it was, and a path that was there
      keeps its id. */
  lemma {:induction false} PutAllFrame(s: Store, writes: seq<Write>, path: string)
    ensures var t := PutAll(s, writes);
      && (!Names(writes, path) ==>
            (path in t.records <==> path in s.records) && (path in s.records ==> t.records[path] == s.records[path]))
      && (path in s.records ==> path in t.records && t.records[path].id == s.records[path].id)
      && (path in t.records ==> path in s.records || Names(writes, path))
    decreases |writes|
  {
    if writes != [] {
      var last := |writes| - 1;
      PutAllFrame(s, writes[..last], path);
      if Names(writes[..last], path) {
        var i :| 0 <= i < last && writes[..last][i].0 == path;
        assert writes[i].0 == path;
      }
      assert writes[last].0 == path ==> Names(writes, path);
    }
  }

  /** Writes whose documents are already stored change nothing. */
  lemma {:induction false} PutAllAgain(s: Store, writes: seq<Write>)
    requires forall i :: 0 <= i < |writes| ==>
      writes[i].0 in s.records && s.records[writes[i].0].doc == writes[i].1
    ensures PutAll(s, writes) == s
    decreases |writes|
  {
    if writes != [] {
      var last := |writes| - 1;
      assert forall i :: 0 <= i < last ==> writes[..last][i] == writes[i];
      PutAllAgain(s, writes[..last]);
      PutAgain(s, writes[last].0, writes[last].1);
    }
  }

  lemma PutFilesConcat(s: Store, root: string, link: Option<nat>, a: seq<MediaFile>, b: seq<MediaFile>)
    ensures PutFiles(PutFiles(s, root, link, a), root, link, b) == PutFiles(s, root, link, a + b)
  {
    assert FileWrites(root, link, a + b) == FileWrites(root, link, a) + FileWrites(root, link, b);
    PutAllConcat(s, FileWrites(root, link, a), FileWrites(root, link, b));
  }

  /** Ids are never shared and never reissued. */
  ghost predicate IdsAreSound(s: Store) {
    && (forall p :: p in s.records ==> s.records[p].id < s.nextId)
    && (forall p, q :: p in s.records && q in s.records && p != q ==> s.records[p].id != s.records[q].id)
  }

  lemma {:induction false} PutAllKeepsIdsSound(s: Store, writes: seq<Write>)
    requires IdsAreSound(s)
    ensures IdsAreSound(PutAll(s, writes))
    decreases |writes|
  {
    if writes != [] {
      PutAllKeepsIdsSound(s, writes[..|writes| - 1]);
    }
  }

  /** Upserting and sweeping keep ids sound, and an upsert keeps the id of every
      path that was there. */
  lemma OperationsKeepIdsSound(s: Store, root: string, result: ScanResult, cutoff: string, path: string)
    requires IdsAreSound(s)
    ensures IdsAreSound(Upsert(s, root, result)) && IdsAreSound(Sweep(s, root, cutoff))
    ensures path in s.records ==>
      path in Upsert(s, root, result).records && Upsert(s, root, result).records[path].id == s.records[path].id
  {
    var writes := FileWrites(root, LinkOf(s, root, result), result.mediaFiles);
    PutAllKeepsIdsSound(WithDirectory(s, root, result), writes);
    PutAllFrame(WithDirectory(s, root, result), writes, path);
  }
}

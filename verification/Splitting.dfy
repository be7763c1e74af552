/** How the agent sends one scanned item: whole, or in numbered parts. */
module Splitting {
  import opened Options
  import opened ScanStore

  const MAX_RESULT_BYTES: nat := 262144

  /** One message of an item. The envelope fields that name the run are added by
      the protocol. */
  datatype Part = Part(result: ScanResult, index: nat, count: nat)

  function Max(a: nat, b: nat): nat { if a < b then b else a }

  function Min(a: nat, b: nat): nat { if a < b then a else b }

  function ChunkSize(encodedSize: nat, files: nat): (c: nat)
    requires files > 0
    ensures c > 0
  {
    Max(1, MAX_RESULT_BYTES / Max(encodedSize / files, 1))
  }

  function PartCount(files: nat, chunk: nat): nat
    requires chunk > 0
  {
    (files + chunk - 1) / chunk
  }

  /** partCount is the least number of chunks that holds every file. */
  lemma PartCountIsCeiling(files: nat, chunk: nat)
    requires chunk > 0 && files > 0
    ensures var n := PartCount(files, chunk); n > 0 && (n - 1) * chunk < files <= n * chunk
  {
    var n := PartCount(files, chunk);
    assert n * chunk <= files + chunk - 1 < n * chunk + chunk;
  }

  lemma ChunkStarts(files: nat, chunk: nat, k: nat)
    requires chunk > 0 && files > 0 && k < PartCount(files, chunk)
    ensures k * chunk < files
    ensures k * chunk + chunk == (k + 1) * chunk
    ensures k + 1 < PartCount(files, chunk) ==> (k + 1) * chunk < files
  {
    var n := PartCount(files, chunk);
    PartCountIsCeiling(files, chunk);
    ProductGrows(k, n - 1, chunk);
    if k + 1 < n {
      ProductGrows(k + 1, n - 1, chunk);
    }
  }

  lemma ProductGrows(a: nat, b: nat, unit: nat)
    requires a <= b
    ensures a * unit <= b * unit
  {
  }

  predicate FitsWhole(result: ScanResult, encodedSize: nat) {
    encodedSize <= MAX_RESULT_BYTES || |result.mediaFiles| <= 1
  }

  function PartAt(result: ScanResult, chunk: nat, k: nat): Part
    requires chunk > 0 && result.mediaFiles != [] && k < PartCount(|result.mediaFiles|, chunk)
  {
    var n := |result.mediaFiles|;
    ChunkStarts(n, chunk, k);
    Part(ScanResult(if k == 0 then result.directory else None,
                    result.mediaFiles[k * chunk..Min(k * chunk + chunk, n)]),
         k, PartCount(n, chunk))
  }

  /** The messages of one item, in the order they are published. */
  function Parts(result: ScanResult, encodedSize: nat): (parts: seq<Part>) {
    if FitsWhole(result, encodedSize) then [Part(result, 0, 1)]
    else
      var chunk := ChunkSize(encodedSize, |result.mediaFiles|);
      seq(PartCount(|result.mediaFiles|, chunk), k requires 0 <= k < PartCount(|result.mediaFiles|, chunk) =>
        PartAt(result, chunk, k))
  }

  /** Publishes an item. `accepted` publishes go through before one fails; the
      item then stops where it is and reports the failure. */
  method SendResult(result: ScanResult, encodedSize: nat, accepted: nat) returns (published: seq<Part>, ok: bool)
    ensures published == Parts(result, encodedSize)[..Min(accepted, |Parts(result, encodedSize)|)]
    ensures ok <==> |Parts(result, encodedSize)| <= accepted
  {
    if encodedSize <= MAX_RESULT_BYTES {
      ok := accepted > 0;
      published := if ok then [Part(result, 0, 1)] else [];
      return;
    }
    published, ok := SendResultInParts(result, encodedSize, accepted);
  }

  method SendResultInParts(result: ScanResult, encodedSize: nat, accepted: nat) returns (published: seq<Part>, ok: bool)
    requires encodedSize > MAX_RESULT_BYTES
    ensures published == Parts(result, encodedSize)[..Min(accepted, |Parts(result, encodedSize)|)]
    ensures ok <==> |Parts(result, encodedSize)| <= accepted
  {
    var files := result.mediaFiles;
    if |files| <= 1 {
      ok := accepted > 0;
      published := if ok then [Part(result, 0, 1)] else [];
      return;
    }
    var perFile := encodedSize / |files|;
    var chunkSize := Max(1, MAX_RESULT_BYTES / Max(perFile, 1));
    var partCount := (|files| + chunkSize - 1) / chunkSize;
    published := [];
    for part := 0 to partCount
      invariant part <= accepted
      invariant published == Parts(result, encodedSize)[..part]
    {
      ChunkStarts(|files|, chunkSize, part);
      var start := part * chunkSize;
      var end := Min(start + chunkSize, |files|);
      var message: Part;
      if part == 0 {
        message := Part(ScanResult(result.directory, files[start..end]), part, partCount);
      } else {
        message := Part(ScanResult(None, files[start..end]), part, partCount);
      }
      if part == accepted {
        ok := false;
        return;
      }
      assert Parts(result, encodedSize)[part] == message;
      published := published + [message];
    }
    ok := true;
  }

  function FilesOf(parts: seq<Part>): seq<MediaFile>
    decreases |parts|
  {
    if parts == [] then [] else FilesOf(parts[..|parts| - 1]) + parts[|parts| - 1].result.mediaFiles
  }

  lemma {:induction false} PrefixFiles(result: ScanResult, encodedSize: nat, k: nat)
    requires !FitsWhole(result, encodedSize) && k <= |Parts(result, encodedSize)|
    ensures var chunk := ChunkSize(encodedSize, |result.mediaFiles|);
            FilesOf(Parts(result, encodedSize)[..k]) == result.mediaFiles[..Min(k * chunk, |result.mediaFiles|)]
    decreases k
  {
    if k > 0 {
      var n := |result.mediaFiles|;
      var chunk := ChunkSize(encodedSize, n);
      var parts := Parts(result, encodedSize);
      PrefixFiles(result, encodedSize, k - 1);
      ChunkStarts(n, chunk, k - 1);
      assert parts[..k][..k - 1] == parts[..k - 1];
      assert parts[..k][k - 1] == PartAt(result, chunk, k - 1);
    }
  }

  /** The parts are non-empty, numbered in order, carry the directory once in
      front, and hold the item's files exactly, in order. */
  lemma PartsHoldTheItem(result: ScanResult, encodedSize: nat)
    ensures var parts := Parts(result, encodedSize);
      && |parts| > 0
      && FilesOf(parts) == result.mediaFiles
      && parts[0].result.directory == result.directory
      && (forall k :: 0 <= k < |parts| ==> parts[k].index == k && parts[k].count == |parts|)
      && (forall k :: 1 <= k < |parts| ==> parts[k].result.directory.None?)
      && (|parts| > 1 ==> forall k :: 0 <= k < |parts| ==> parts[k].result.mediaFiles != [])
  {
    var parts := Parts(result, encodedSize);
    if FitsWhole(result, encodedSize) {
      assert parts[..0] == [];
      assert FilesOf(parts) == [] + result.mediaFiles;
    } else {
      var n := |result.mediaFiles|;
      var chunk := ChunkSize(encodedSize, n);
      PartCountIsCeiling(n, chunk);
      PrefixFiles(result, encodedSize, |parts|);
      assert parts[..|parts|] == parts;
      assert result.mediaFiles[..n] == result.mediaFiles;
      forall k | 0 <= k < |parts| ensures parts[k].result.mediaFiles != [] && parts[k].index == k
          && parts[k].count == |parts| && (k > 0 ==> parts[k].result.directory.None?) {
        ChunkStarts(n, chunk, k);
        assert parts[k] == PartAt(result, chunk, k);
      }
    }
  }

  // ---------------------------------------------------------------------
  // How large the parts are
  // ---------------------------------------------------------------------

  /** What one file of an item takes on average, at least one byte. */
  function PerFile(result: ScanResult, encodedSize: nat): (bytes: nat)
    requires result.mediaFiles != []
    ensures bytes > 0
  {
    Max(encodedSize / |result.mediaFiles|, 1)
  }

  /** A part is as small as can be, or its files fit the cap at their average size. */
  predicate WithinCap(perFile: nat, files: nat) {
    files <= 1 || files * perFile <= MAX_RESULT_BYTES
  }

  // The chunk is the largest number of files within the cap.
  lemma ChunkIsLargest(perFile: nat, chunk: nat, files: nat)
    requires perFile > 0 && chunk == Max(1, MAX_RESULT_BYTES / perFile)
    ensures WithinCap(perFile, files) <==> files <= chunk
  {
    var q := MAX_RESULT_BYTES / perFile;
    assert q * perFile <= MAX_RESULT_BYTES < (q + 1) * perFile;
    if files <= q {
      ProductGrows(files, q, perFile);
    } else {
      ProductGrows(q + 1, files, perFile);
    }
  }

  lemma PartSize(result: ScanResult, encodedSize: nat, k: nat)
    requires encodedSize > MAX_RESULT_BYTES && |result.mediaFiles| > 1 && k < |Parts(result, encodedSize)|
    ensures var parts := Parts(result, encodedSize);
            var chunk := ChunkSize(encodedSize, |result.mediaFiles|);
            |parts[k].result.mediaFiles| <= chunk && (k + 1 < |parts| ==> |parts[k].result.mediaFiles| == chunk)
  {
    var n, chunk := |result.mediaFiles|, ChunkSize(encodedSize, |result.mediaFiles|);
    ChunkStarts(n, chunk, k);
    assert Parts(result, encodedSize)[k] == PartAt(result, chunk, k);
  }

  /** What splitting is for. An item within the cap, or of one file, goes whole. Of
      any other, no part exceeds the cap at the files' average size unless it is a
      single file, and every part but the last is as full as that allows. */
  lemma PartsFitTheCap(result: ScanResult, encodedSize: nat)
    ensures encodedSize <= MAX_RESULT_BYTES || |result.mediaFiles| <= 1 ==> Parts(result, encodedSize) == [Part(result, 0, 1)]
    ensures encodedSize > MAX_RESULT_BYTES && |result.mediaFiles| > 1 ==>
      var parts, perFile := Parts(result, encodedSize), PerFile(result, encodedSize);
      && (forall k :: 0 <= k < |parts| ==> WithinCap(perFile, |parts[k].result.mediaFiles|))
      && (forall k :: 0 <= k < |parts| - 1 ==> !WithinCap(perFile, |parts[k].result.mediaFiles| + 1))
  {
    if encodedSize > MAX_RESULT_BYTES && |result.mediaFiles| > 1 {
      var parts, perFile := Parts(result, encodedSize), PerFile(result, encodedSize);
      var chunk := ChunkSize(encodedSize, |result.mediaFiles|);
      forall k | 0 <= k < |parts|
        ensures WithinCap(perFile, |parts[k].result.mediaFiles|)
        ensures k < |parts| - 1 ==> !WithinCap(perFile, |parts[k].result.mediaFiles| + 1)
      {
        PartSize(result, encodedSize, k);
        ChunkIsLargest(perFile, chunk, |parts[k].result.mediaFiles|);
        ChunkIsLargest(perFile, chunk, |parts[k].result.mediaFiles| + 1);
      }
    }
  }

  function Total(sizes: seq<nat>): nat
    decreases |sizes|
  {
    if sizes == [] then 0 else Total(sizes[..|sizes| - 1]) + sizes[|sizes| - 1]
  }

  lemma {:induction false} TotalIsBounded(sizes: seq<nat>, chunk: nat)
    requires forall i :: 0 <= i < |sizes| ==> sizes[i] <= chunk
    ensures Total(sizes) <= |sizes| * chunk
    decreases |sizes|
  {
    if sizes != [] {
      TotalIsBounded(sizes[..|sizes| - 1], chunk);
      assert |sizes| * chunk == (|sizes| - 1) * chunk + chunk;
    }
  }

  /** No division of the item's files into parts within the cap has fewer parts. */
  lemma FewestParts(result: ScanResult, encodedSize: nat, sizes: seq<nat>)
    requires encodedSize > MAX_RESULT_BYTES && |result.mediaFiles| > 1
    requires Total(sizes) == |result.mediaFiles|
    requires forall i :: 0 <= i < |sizes| ==> WithinCap(PerFile(result, encodedSize), sizes[i])
    ensures |Parts(result, encodedSize)| <= |sizes|
  {
    var chunk, n := ChunkSize(encodedSize, |result.mediaFiles|), |Parts(result, encodedSize)|;
    forall i | 0 <= i < |sizes| ensures sizes[i] <= chunk {
      ChunkIsLargest(PerFile(result, encodedSize), chunk, sizes[i]);
    }
    TotalIsBounded(sizes, chunk);
    PartCountIsCeiling(|result.mediaFiles|, chunk);
    if |sizes| <= n - 1 {
      ProductGrows(|sizes|, n - 1, chunk);
    }
  }

  // ---------------------------------------------------------------------
  // Splitting is invisible in the store
  // ---------------------------------------------------------------------

  /** What one directory scan returns: the directory record, and files that name
      it as theirs. */
  predicate IsItem(result: ScanResult) {
    && result.directory.Some? && result.directory.value.path != ""
    && forall i :: 0 <= i < |result.mediaFiles| ==>
         result.mediaFiles[i].directoryPath == result.directory.value.path &&
         result.mediaFiles[i].path != result.directory.value.path
  }

  function UpsertAll(s: Store, root: string, parts: seq<Part>): Store
    decreases |parts|
  {
    if parts == [] then s
    else Upsert(UpsertAll(s, root, parts[..|parts| - 1]), root, parts[|parts| - 1].result)
  }

  // After some parts, the store is the directory plus the files sent so far.
  lemma {:induction false} UpsertedPrefix(s: Store, root: string, result: ScanResult, encodedSize: nat, k: nat)
    requires IsItem(result) && 0 < k <= |Parts(result, encodedSize)|
    ensures UpsertAll(s, root, Parts(result, encodedSize)[..k]) ==
              PutFiles(WithDirectory(s, root, result), root, LinkOf(s, root, result),
                       FilesOf(Parts(result, encodedSize)[..k]))
    decreases k
  {
    var parts := Parts(result, encodedSize);
    var base, link := WithDirectory(s, root, result), LinkOf(s, root, result);
    PartsHoldTheItem(result, encodedSize);
    assert parts[..k][..k - 1] == parts[..k - 1];
    if k == 1 {
      assert parts[..0] == [];
      assert FilesOf(parts[..1]) == parts[0].result.mediaFiles;
    } else {
      var before := FilesOf(parts[..k - 1]);
      UpsertedPrefix(s, root, result, encodedSize, k - 1);
      PrefixWithin(result, encodedSize, k - 1);
      DirectoryStays(base, root, link, before, result.directory.value.path);
      LaterPartNamesItem(result, encodedSize, k - 1);
      PutFilesConcat(base, root, link, before, parts[k - 1].result.mediaFiles);
    }
  }

  lemma {:induction false} PrefixWithin(result: ScanResult, encodedSize: nat, k: nat)
    requires IsItem(result) && k <= |Parts(result, encodedSize)|
    ensures forall i :: 0 <= i < |FilesOf(Parts(result, encodedSize)[..k])| ==>
      FilesOf(Parts(result, encodedSize)[..k])[i].path != result.directory.value.path
  {
    if FitsWhole(result, encodedSize) {
      var parts := Parts(result, encodedSize);
      if k == 1 {
        assert parts[..1][..0] == [];
        assert FilesOf(parts[..1]) == result.mediaFiles;
      }
    } else {
      PrefixFiles(result, encodedSize, k);
    }
  }

  lemma DirectoryStays(base: Store, root: string, link: Option<nat>, files: seq<MediaFile>, path: string)
    requires path in base.records && base.records[path].doc.kind == DirectoryKind && path != ""
    requires forall i :: 0 <= i < |files| ==> files[i].path != path
    ensures DirectoryIdFor(PutFiles(base, root, link, files), path) == Some(base.records[path].id)
  {
    PutAllFrame(base, FileWrites(root, link, files), path);
  }

  lemma LaterPartNamesItem(result: ScanResult, encodedSize: nat, k: nat)
    requires IsItem(result) && 0 < k < |Parts(result, encodedSize)|
    ensures var part := Parts(result, encodedSize)[k].result;
      part.directory.None? && part.mediaFiles != [] && part.mediaFiles[0].directoryPath == result.directory.value.path
  {
    PartsHoldTheItem(result, encodedSize);
    var chunk := ChunkSize(encodedSize, |result.mediaFiles|);
    ChunkStarts(|result.mediaFiles|, chunk, k);
    assert Parts(result, encodedSize)[k] == PartAt(result, chunk, k);
    assert Parts(result, encodedSize)[k].result.mediaFiles[0] == result.mediaFiles[k * chunk];
  }

  /** Storing the parts in order leaves exactly the store the whole item would
      have left, ids and directory links included. */
  lemma SplittingIsInvisible(s: Store, root: string, result: ScanResult, encodedSize: nat)
    requires IsItem(result)
    ensures UpsertAll(s, root, Parts(result, encodedSize)) == Upsert(s, root, result)
  {
    var parts := Parts(result, encodedSize);
    PartsHoldTheItem(result, encodedSize);
    UpsertedPrefix(s, root, result, encodedSize, |parts|);
    assert parts[..|parts|] == parts;
  }
}

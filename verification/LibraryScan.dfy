/** A whole library: every item directory classified on the agent, sent, and
    standing under the server's root as the agent's tree has it. */
module LibraryScan {
  import opened Options
  import opened GoPath
  import opened AgentPaths
  import StoredTime
  import opened Calendar
  import opened ScanStore
  import opened Splitting
  import opened ScanProtocol
  import opened ScanRun
  import MediaRules
  import MediaScan

  // ---------------------------------------------------------------------
  // Paths made of names
  // ---------------------------------------------------------------------

  /** A name a file can have on the agent, and mean there what it means here. */
  predicate Nameable(name: string) {
    Plain(name) && '\\' !in name
  }

  predicate AllNameable(names: seq<string>) {
    names != [] && forall i :: 0 <= i < |names| ==> Nameable(names[i])
  }

  /** The agent's way to put names below its root. */
  type Joiner = seq<string> -> string

  ghost predicate JoinsNames(root: string, join: Joiner) {
    forall names :: AllNameable(names) ==>
      join(names) != "" && AgentComponents(join(names)) == AgentComponents(root) + names
  }

  lemma JoinedIsUnder(root: string, join: Joiner, names: seq<string>)
    requires JoinsNames(root, join) && AllNameable(names)
    ensures join(names) != "" && UnderRoot(root, join(names)) && Remainder(root, join(names)) == names
  {
    LongerIsUnder(root, join(names), names);
  }

  // The slashed root, a slash, and the names: the names are appended.
  lemma NamesAppend(root: string, p: string, names: seq<string>)
    requires AllNameable(names) && Slashed(root) != ""
    requires Parse(Slashed(root)).rooted || Parse(Slashed(root)).segments != []
    requires Slashed(p) == Slashed(root) + "/" + JoinSegments(names)
    ensures AgentComponents(p) == AgentComponents(root) + names
  {
    var r := Parse(Slashed(root));
    assert AllPlain(names) by {
      assert forall i :: 0 <= i < |names| ==> Nameable(names[i]);
    }
    NamesBelow(Slashed(root), names);
    hide Slashed, Parse, JoinSegments, Nameable;
    assert [""] + (r.segments + names) == ([""] + r.segments) + names;
  }

  /** filepath.Join on a POSIX agent. */
  function PosixJoin(root: string): Joiner {
    names => if names == [] then root else Join(root, JoinSegments(names))
  }

  lemma PosixJoinsNames(root: string)
    requires IsAbs(root) && !LooksWindows(root)
    ensures JoinsNames(root, PosixJoin(root))
  {
    PosixPath(root);
    forall names | AllNameable(names)
      ensures PosixJoin(root)(names) != "" && AgentComponents(PosixJoin(root)(names)) == AgentComponents(root) + names
    {
      PosixJoinAppends(root, names);
    }
  }

  lemma PosixJoinAppends(root: string, names: seq<string>)
    requires IsAbs(root) && '\\' !in root && AllNameable(names)
    ensures var p := PosixJoin(root)(names); p != "" && AgentComponents(p) == AgentComponents(root) + names
  {
    var s := root + "/" + JoinSegments(names);
    JoinAvoids(names, '\\');
    PosixPath(root);
    assert '\\' !in s;
    assert Slashed(s) == s by {
      assert forall i :: 0 <= i < |s| ==> s[i] in s;
    }
    SlashedForm(s);
    NamesAppend(root, s, names);
    assert JoinSegments(names) != "" by {
      assert forall i :: 0 <= i < |names| ==> Nameable(names[i]);
      LastLetter(names, true);
    }
  }

  function Backslashed(names: seq<string>): string
    requires names != []
  {
    if |names| == 1 then names[0] else names[0] + "\\" + Backslashed(names[1..])
  }

  /** A Windows agent puts backslashes between its names. */
  function WindowsJoin(root: string): Joiner {
    names => if names == [] then root else root + "\\" + Backslashed(names)
  }

  lemma {:induction false} BackslashedIsSlashed(names: seq<string>)
    requires AllNameable(names)
    ensures Slashed(Backslashed(names)) == JoinSegments(names)
    decreases |names|
  {
    assert Nameable(names[0]);
    assert forall i :: 0 <= i < |names[0]| ==> names[0][i] in names[0];
    assert Slashed(names[0]) == names[0];
    if |names| > 1 {
      BackslashedIsSlashed(names[1..]);
      assert Slashed(Backslashed(names)) == Slashed(names[0]) + "/" + Slashed(Backslashed(names[1..]));
    }
  }

  lemma WindowsJoinsNames(root: string)
    requires Slashed(root) != "" && (Parse(Slashed(root)).rooted || Parse(Slashed(root)).segments != [])
    ensures JoinsNames(root, WindowsJoin(root))
  {
    forall names | AllNameable(names)
      ensures WindowsJoin(root)(names) != "" && AgentComponents(WindowsJoin(root)(names)) == AgentComponents(root) + names
    {
      var p := WindowsJoin(root)(names);
      BackslashedIsSlashed(names);
      assert Slashed(p) == Slashed(root) + "/" + JoinSegments(names);
      NamesAppend(root, p, names);
    }
  }

  // ---------------------------------------------------------------------
  // What one item directory turns into
  // ---------------------------------------------------------------------

  /** One item directory: its name below the root, its tree, and what the scan
      made of it. stamp is the scan's scanned_at. */
  datatype Found = Found(name: string, kind: MediaScan.DirectoryType, nodes: seq<MediaScan.Node>,
                         outcome: MediaScan.Outcome, stamp: string, encodedSize: nat)

  /** What a record says beside its path: an encoding this model does not open. */
  datatype Encoder = Encoder(directory: Found -> string, file: MediaScan.MediaCandidate -> string)

  function FileRecord(join: Joiner, encode: Encoder, d: Found, c: MediaScan.MediaCandidate): MediaFile {
    MediaFile(join([d.name] + c.file.path), join([d.name]), "", Some(d.stamp), None, encode.file(c))
  }

  function ItemResult(join: Joiner, encode: Encoder, d: Found): (r: ScanResult)
    ensures |r.mediaFiles| == |d.outcome.media|
    ensures forall i :: 0 <= i < |r.mediaFiles| ==> r.mediaFiles[i] == FileRecord(join, encode, d, d.outcome.media[i])
  {
    ScanResult(Some(Directory(join([d.name]), "", Some(d.stamp), encode.directory(d))),
               seq(|d.outcome.media|, i requires 0 <= i < |d.outcome.media| =>
                 FileRecord(join, encode, d, d.outcome.media[i])))
  }

  /** The files the walk of one item meets. */
  function Walked(rules: MediaScan.Rules, d: Found): seq<MediaScan.WalkedFile> {
    MediaScan.FilesOf(rules, MediaScan.Entries(rules, [], d.nodes))
  }

  /** Sound names all the way down. */
  predicate NameableTree(nodes: seq<MediaScan.Node>)
    decreases nodes
  {
    forall i :: 0 <= i < |nodes| ==>
      Nameable(nodes[i].name) && (nodes[i].Folder? ==> NameableTree(nodes[i].children))
  }

  /** A classified item, as a scan of its tree leaves it. */
  ghost predicate Scanned(rules: MediaScan.Rules, d: Found) {
    && Nameable(d.name) && NameableTree(d.nodes) && MediaScan.ProperTree(d.nodes)
    && var files := Walked(rules, d);
       MediaScan.Complete(MediaScan.Assignment(rules, d.kind, MediaScan.MediaIn(rules, files)), files, d.outcome)
  }

  lemma {:induction false} WalkedNamesAreNameable(rules: MediaScan.Rules, at: MediaScan.Path, nodes: seq<MediaScan.Node>,
                                                  e: MediaScan.Entry)
    requires NameableTree(nodes) && e in MediaScan.Entries(rules, at, nodes)
    ensures |at| < |e.path| && forall i :: |at| <= i < |e.path| ==> Nameable(e.path[i])
    decreases nodes
  {
    hide Nameable;
    var name := nodes[0].name;
    assert Nameable(name);
    MediaScan.EntriesAreBelow(rules, at, nodes, e);
    if e in MediaScan.Entries(rules, at, nodes[1..]) {
      WalkedNamesAreNameable(rules, at, nodes[1..], e);
    } else if nodes[0].Folder? && e != MediaScan.FolderEntry(at + [name]) {
      WalkedNamesAreNameable(rules, at + [name], nodes[0].children, e);
      MediaScan.EntriesAreBelow(rules, at + [name], nodes[0].children, e);
      assert e.path[|at|] == e.path[..|at| + 1][|at|] == name;
    }
  }

  lemma {:induction false} MediaAreDistinct(rules: MediaScan.Rules, files: seq<MediaScan.WalkedFile>)
    requires MediaScan.DistinctFiles(files)
    ensures MediaScan.DistinctFiles(MediaScan.MediaIn(rules, files))
    decreases |files|
  {
    if files != [] {
      var n := |files| - 1;
      MediaAreDistinct(rules, files[..n]);
      MediaScan.MediaAreFiles(rules, files[..n]);
      var before := MediaScan.MediaIn(rules, files[..n]);
      forall i | 0 <= i < |before| ensures before[i].path != files[n].path {
        assert before[i] in before;
        var j :| 0 <= j < n && files[..n][j] == before[i];
        assert files[j].path != files[n].path;
      }
    }
  }

  /** The playable files of one item. */
  function MediaOf(rules: MediaScan.Rules, d: Found): seq<MediaScan.WalkedFile> {
    MediaScan.MediaIn(rules, Walked(rules, d))
  }

  // The outcome holds one record per playable file, in walk order.
  lemma OutcomeMedia(rules: MediaScan.Rules, d: Found)
    requires Scanned(rules, d)
    ensures |d.outcome.media| == |MediaOf(rules, d)|
    ensures forall i :: 0 <= i < |d.outcome.media| ==> d.outcome.media[i].file == MediaOf(rules, d)[i]
  {
    MediaScan.MediaAreHeldByThemselves(rules, d.kind, MediaOf(rules, d), Walked(rules, d));
    hide Walked, MediaScan.MediaIn, MediaScan.Held, MediaScan.Assignment, NameableTree, MediaScan.ProperTree;
  }

  lemma MediaPathsDiffer(rules: MediaScan.Rules, d: Found)
    requires Scanned(rules, d)
    ensures MediaScan.DistinctFiles(MediaOf(rules, d))
  {
    hide MediaScan.Complete, MediaScan.FilesOf, MediaScan.Entries, MediaScan.MediaIn, MediaScan.DistinctFiles;
    MediaScan.WalkedPathsAreDistinct(rules, [], d.nodes);
    MediaScan.FilesAreDistinct(rules, MediaScan.Entries(rules, [], d.nodes));
    MediaAreDistinct(rules, Walked(rules, d));
  }

  lemma MediaAreNameable(rules: MediaScan.Rules, d: Found, f: MediaScan.WalkedFile)
    requires Scanned(rules, d) && f in MediaOf(rules, d)
    ensures f.path != [] && AllNameable([d.name] + f.path)
  {
    hide MediaScan.Complete, MediaScan.FilesOf, MediaScan.Entries, MediaScan.MediaIn, MediaScan.DistinctFiles, Nameable;
    var entries := MediaScan.Entries(rules, [], d.nodes);
    MediaScan.WalkedPathsAreDistinct(rules, [], d.nodes);
    MediaScan.FilesAreDistinct(rules, entries);
    MediaScan.MediaAreFiles(rules, Walked(rules, d));
    var i :| 0 <= i < |entries| && entries[i].path == f.path;
    WalkedNamesAreNameable(rules, [], d.nodes, entries[i]);
  }

  /** Where the records of one item stand below the root. */
  function SpotOf(rules: MediaScan.Rules, d: Found, a: nat): seq<string>
    requires a <= |MediaOf(rules, d)|
  {
    if a == 0 then [d.name] else [d.name] + MediaOf(rules, d)[a - 1].path
  }

  lemma SpotIsNameable(rules: MediaScan.Rules, d: Found, a: nat)
    requires Scanned(rules, d) && a <= |MediaOf(rules, d)|
    ensures AllNameable(SpotOf(rules, d, a))
  {
    hide MediaOf;
    if a > 0 {
      MediaAreNameable(rules, d, MediaOf(rules, d)[a - 1]);
    }
  }

  lemma SpotsDiffer(rules: MediaScan.Rules, d: Found, a: nat, b: nat)
    requires Scanned(rules, d) && a < b <= |MediaOf(rules, d)|
    ensures SpotOf(rules, d, a) != SpotOf(rules, d, b)
  {
    hide MediaOf, Scanned;
    var media := MediaOf(rules, d);
    MediaPathsDiffer(rules, d);
    MediaAreNameable(rules, d, media[b - 1]);
    assert a > 0 ==> media[a - 1].path != media[b - 1].path && SpotOf(rules, d, a)[1..] == media[a - 1].path;
    assert SpotOf(rules, d, b)[1..] == media[b - 1].path;
  }

  lemma WritesSpots(join: Joiner, encode: Encoder, rules: MediaScan.Rules, d: Found)
    requires Scanned(rules, d)
    ensures var r := ItemResult(join, encode, d);
            |Writes(r)| == |MediaOf(rules, d)| + 1 &&
            forall a :: 0 <= a < |Writes(r)| ==> Writes(r)[a] == join(SpotOf(rules, d, a))
  {
    OutcomeMedia(rules, d);
    hide Scanned, MediaOf, SpotOf, WritesAt;
    forall a | 0 <= a <= |MediaOf(rules, d)| ensures WritesAt(join, encode, rules, d, a) {
      WritesSpot(join, encode, rules, d, a);
    }
    AllWritesAt(join, encode, rules, d);
  }

  lemma AllWritesAt(join: Joiner, encode: Encoder, rules: MediaScan.Rules, d: Found)
    requires forall a :: 0 <= a <= |MediaOf(rules, d)| ==> WritesAt(join, encode, rules, d, a)
    ensures var r := ItemResult(join, encode, d);
            |Writes(r)| == |MediaOf(rules, d)| + 1 &&
            forall a :: 0 <= a < |Writes(r)| ==> Writes(r)[a] == join(SpotOf(rules, d, a))
  {
    hide MediaOf, SpotOf, Writes, ItemResult;
    assert WritesAt(join, encode, rules, d, 0);
    var r := ItemResult(join, encode, d);
    forall a | 0 <= a < |Writes(r)| ensures Writes(r)[a] == join(SpotOf(rules, d, a)) {
      assert WritesAt(join, encode, rules, d, a);
    }
  }

  predicate WritesAt(join: Joiner, encode: Encoder, rules: MediaScan.Rules, d: Found, a: nat)
    requires a <= |MediaOf(rules, d)|
  {
    var r := ItemResult(join, encode, d);
    |Writes(r)| == |MediaOf(rules, d)| + 1 && Writes(r)[a] == join(SpotOf(rules, d, a))
  }

  lemma WritesSpot(join: Joiner, encode: Encoder, rules: MediaScan.Rules, d: Found, a: nat)
    requires |d.outcome.media| == |MediaOf(rules, d)| && a <= |MediaOf(rules, d)|
    requires forall i :: 0 <= i < |d.outcome.media| ==> d.outcome.media[i].file == MediaOf(rules, d)[i]
    ensures WritesAt(join, encode, rules, d, a)
  {
    hide MediaOf;
    var r := ItemResult(join, encode, d);
    DirectoryIsWritten(r);
    if a > 0 {
      FileIsWritten(r, a - 1);
    }
  }

  /** Each record's path is under the root, at its spot. */
  lemma ItemSpots(root: string, join: Joiner, encode: Encoder, rules: MediaScan.Rules, d: Found)
    requires JoinsNames(root, join) && Scanned(rules, d)
    ensures var r := ItemResult(join, encode, d);
            && AllUnder(root, r) && |Writes(r)| == |MediaOf(rules, d)| + 1
            && forall a :: 0 <= a < |Writes(r)| ==> Spot(root, r, a) == SpotOf(rules, d, a)
  {
    hide JoinsNames, Scanned, SpotOf, UnderRoot, Remainder;
    var r := ItemResult(join, encode, d);
    WritesSpots(join, encode, rules, d);
    forall a | 0 <= a < |Writes(r)|
      ensures UnderRoot(root, Writes(r)[a]) && Remainder(root, Writes(r)[a]) == SpotOf(rules, d, a) {
      SpotIsNameable(rules, d, a);
      JoinedIsUnder(root, join, SpotOf(rules, d, a));
    }
  }

  lemma ItemIsDistinctBelow(root: string, join: Joiner, encode: Encoder, rules: MediaScan.Rules, d: Found)
    requires JoinsNames(root, join) && Scanned(rules, d)
    ensures var r := ItemResult(join, encode, d); AllUnder(root, r) && DistinctBelow(root, r)
  {
    hide JoinsNames, Scanned, SpotOf, UnderRoot, Remainder, Spot, Writes, ItemResult, AllUnder;
    var r := ItemResult(join, encode, d);
    ItemSpots(root, join, encode, rules, d);
    forall a, b | 0 <= a < b < |Writes(r)| ensures Spot(root, r, a) != Spot(root, r, b) {
      SpotsDiffer(rules, d, a, b);
    }
  }

  // A directory with files that name it, no two records at one spot, is whole.
  lemma DistinctIsItem(root: string, r: ScanResult)
    requires AllUnder(root, r) && DistinctBelow(root, r)
    requires r.directory.Some? && r.directory.value.path != ""
    requires forall i :: 0 <= i < |r.mediaFiles| ==> r.mediaFiles[i].directoryPath == r.directory.value.path
    ensures IsItem(r)
  {
    hide UnderRoot, Remainder;
    DirectoryIsWritten(r);
    forall i | 0 <= i < |r.mediaFiles| ensures r.mediaFiles[i].path != r.directory.value.path {
      FileIsWritten(r, i);
      assert Spot(root, r, 0) != Spot(root, r, i + 1);
    }
  }

  /** What the agent sends of one item is whole, and names no spot twice. */
  lemma ScannedIsItem(root: string, join: Joiner, encode: Encoder, rules: MediaScan.Rules, d: Found)
    requires JoinsNames(root, join) && Scanned(rules, d)
    ensures var r := ItemResult(join, encode, d); IsItem(r) && AllUnder(root, r) && DistinctBelow(root, r)
  {
    assert AllNameable([d.name]);
    hide JoinsNames, Scanned, UnderRoot, Remainder, AllUnder, DistinctBelow, AllNameable, Writes, IsItem;
    JoinedIsUnder(root, join, [d.name]);
    ItemIsDistinctBelow(root, join, encode, rules, d);
    DistinctIsItem(root, ItemResult(join, encode, d));
  }

  // ---------------------------------------------------------------------
  // The whole library
  // ---------------------------------------------------------------------

  function Items(join: Joiner, encode: Encoder, library: seq<Found>): (r: seq<Item>)
    ensures |r| == |library|
    ensures forall i :: 0 <= i < |r| ==> r[i] == Item(ItemResult(join, encode, library[i]), library[i].encodedSize)
  {
    seq(|library|, i requires 0 <= i < |library| => Item(ItemResult(join, encode, library[i]), library[i].encodedSize))
  }

  /** The item directories of one library, each scanned since the run began. */
  ghost predicate Library(rules: MediaScan.Rules, library: seq<Found>, startedAt: nat)
    requires StoredTime.InRange(startedAt)
  {
    && (forall i :: 0 <= i < |library| ==> Scanned(rules, library[i]) && TakenSince(Some(library[i].stamp), startedAt))
    && (forall i, j :: 0 <= i < j < |library| ==> library[i].name != library[j].name)
  }

  lemma ItemsAreApart(root: string, join: Joiner, encode: Encoder, rules: MediaScan.Rules, x: Found, y: Found)
    requires JoinsNames(root, join) && Scanned(rules, x) && Scanned(rules, y) && x.name != y.name
    ensures var r, q := ItemResult(join, encode, x), ItemResult(join, encode, y);
            AllUnder(root, r) && AllUnder(root, q) && ApartBelow(root, r, q)
  {
    ItemSpots(root, join, encode, rules, x);
    ItemSpots(root, join, encode, rules, y);
    hide JoinsNames, Scanned, UnderRoot, Remainder, Spot, Writes, ItemResult, MediaOf;
    var r, q := ItemResult(join, encode, x), ItemResult(join, encode, y);
    forall a, b | 0 <= a < |Writes(r)| && 0 <= b < |Writes(q)| ensures Spot(root, r, a) != Spot(root, q, b) {
      assert SpotOf(rules, x, a)[0] == x.name && SpotOf(rules, y, b)[0] == y.name;
    }
  }

  /** What the classifier makes of a library is what the run theorem asks of the
      agent's items. */
  lemma LibraryIsAgentItems(root: string, join: Joiner, encode: Encoder, rules: MediaScan.Rules, library: seq<Found>,
                            startedAt: nat)
    requires StoredTime.InRange(startedAt) && Anchored(root) && JoinsNames(root, join)
    requires Library(rules, library, startedAt)
    ensures AgentItems(root, startedAt, Items(join, encode, library))
  {
    hide JoinsNames, Scanned, UnderRoot, Remainder, Spot, Writes, IsItem, AllUnder, DistinctBelow, ApartBelow, TakenSince;
    var items := Items(join, encode, library);
    forall i | 0 <= i < |items|
      ensures IsItem(items[i].result) && AllUnder(root, items[i].result) && DistinctBelow(root, items[i].result)
      ensures RecordsTakenSince(items[i].result, startedAt) {
      ScannedIsItem(root, join, encode, rules, library[i]);
    }
    forall i, j | 0 <= i < |items| && 0 <= j < |items| && i != j
      ensures ApartBelow(root, items[i].result, items[j].result) {
      ItemsAreApart(root, join, encode, rules, library[i], library[j]);
    }
  }

  /** A path of names below the server's root. */
  function ServerPath(serverRoot: string, names: seq<string>): string {
    Render(Segmented(Parse(serverRoot).rooted, Parse(serverRoot).segments + names))
  }

  lemma MovedIsBelow(root: string, join: Joiner, serverRoot: string, names: seq<string>)
    requires Anchored(root) && JoinsNames(root, join) && AllNameable(names)
    ensures Moved(AgentWire(root, serverRoot).move, join(names)) == ServerPath(serverRoot, names)
  {
    JoinedIsUnder(root, join, names);
    hide UnderRoot, Remainder, JoinsNames, AllNameable, NewPathTranslator, PathTranslator.Path;
    TranslatesExactly(root, serverRoot, join(names));
  }

  /** The item directory itself, or the place of a playable file in its tree. */
  ghost predicate Holds(rules: MediaScan.Rules, d: Found, names: seq<string>) {
    names != [] && names[0] == d.name && (|names| == 1 || MediaRules.PlayableAt(rules, d.nodes, names[1..]))
  }

  lemma SpotsAreHeld(rules: MediaScan.Rules, d: Found, names: seq<string>)
    requires Scanned(rules, d)
    ensures Holds(rules, d, names) <==> exists a :: 0 <= a <= |MediaOf(rules, d)| && names == SpotOf(rules, d, a)
  {
    hide Scanned, MediaRules.PlayableAt, MediaScan.MediaIn, Walked;
    var media := MediaOf(rules, d);
    if Holds(rules, d, names) {
      if |names| == 1 {
        assert names == [d.name] == SpotOf(rules, d, 0);
      } else {
        PlayableIsMedia(rules, d, names[1..]);
        var i :| 0 <= i < |media| && media[i].path == names[1..];
        assert names == [d.name] + names[1..] == SpotOf(rules, d, i + 1);
      }
    }
    if a :| 0 <= a <= |media| && names == SpotOf(rules, d, a) {
      if a > 0 {
        assert names[1..] == media[a - 1].path;
        PlayableIsMedia(rules, d, names[1..]);
        MediaAreNameable(rules, d, media[a - 1]);
      }
    }
  }

  lemma PlayableIsMedia(rules: MediaScan.Rules, d: Found, path: MediaScan.Path)
    ensures MediaRules.PlayableAt(rules, d.nodes, path) <==>
      exists i :: 0 <= i < |MediaOf(rules, d)| && MediaOf(rules, d)[i].path == path
  {
    MediaRules.MediaArePlayable(rules, d.nodes, path);
    hide MediaRules.PlayableAt, MediaScan.MediaIn, MediaScan.FilesOf, MediaScan.Entries;
    var media := MediaOf(rules, d);
    if f :| f in media && f.path == path {
      var i :| 0 <= i < |media| && media[i] == f;
      assert media[i].path == path;
    }
  }

  /** A playable file or an item directory of the library stands at that path. */
  ghost predicate Mirrored(rules: MediaScan.Rules, library: seq<Found>, serverRoot: string, p: string) {
    exists i, names :: 0 <= i < |library| && Holds(rules, library[i], names) && p == ServerPath(serverRoot, names)
  }

  lemma MirroredBySpot(rules: MediaScan.Rules, library: seq<Found>, serverRoot: string, p: string)
    requires forall i :: 0 <= i < |library| ==> Scanned(rules, library[i])
    ensures Mirrored(rules, library, serverRoot, p) <==>
      exists i, a :: 0 <= i < |library| && 0 <= a <= |MediaOf(rules, library[i])| &&
        p == ServerPath(serverRoot, SpotOf(rules, library[i], a))
  {
    hide Scanned, MediaOf, SpotOf, ServerPath, Holds;
    if i, names :| 0 <= i < |library| && Holds(rules, library[i], names) && p == ServerPath(serverRoot, names) {
      SpotsAreHeld(rules, library[i], names);
    }
    if i, a :| 0 <= i < |library| && 0 <= a <= |MediaOf(rules, library[i])| &&
               p == ServerPath(serverRoot, SpotOf(rules, library[i], a)) {
      SpotsAreHeld(rules, library[i], SpotOf(rules, library[i], a));
    }
  }

  /** The server's record of an item directory, and of each media file in it: its
      own content and instant, every file linked to its directory. */
  ghost predicate ItemRecorded(encode: Encoder, d: Found, serverRoot: string, s: Store) {
    var home := ServerPath(serverRoot, [d.name]);
    && home in s.records && s.records[home].doc.kind == DirectoryKind
    && s.records[home].doc.root == Clean(serverRoot)
    && s.records[home].doc.content == encode.directory(d) && StampedAs(s.records[home].doc.scannedAt, Some(d.stamp))
    && (forall i :: 0 <= i < |d.outcome.media| ==> FileRecorded(encode, d, d.outcome.media[i], serverRoot, s))
  }

  ghost predicate FileRecorded(encode: Encoder, d: Found, c: MediaScan.MediaCandidate, serverRoot: string, s: Store) {
    var p := ServerPath(serverRoot, [d.name] + c.file.path);
    && p in s.records && s.records[p].doc.kind == MediaFileKind && s.records[p].doc.root == Clean(serverRoot)
    && s.records[p].doc.content == encode.file(c) && StampedAs(s.records[p].doc.scannedAt, Some(d.stamp))
    && LinkedTo(s, p, ServerPath(serverRoot, [d.name]))
  }

  lemma ArrivedIsRecorded(root: string, join: Joiner, encode: Encoder, rules: MediaScan.Rules, d: Found,
                          serverRoot: string, s: Store)
    requires Anchored(root) && JoinsNames(root, join) && Scanned(rules, d)
    requires ResultArrived(s, Clean(serverRoot), AgentWire(root, serverRoot).move, ItemResult(join, encode, d))
    ensures ItemRecorded(encode, d, serverRoot, s)
  {
    assert AllNameable([d.name]);
    hide JoinsNames, Scanned, StampedAs, LinkedTo, ServerPath, AllNameable, NewPathTranslator;
    var r := ItemResult(join, encode, d);
    MovedIsBelow(root, join, serverRoot, [d.name]);
    JoinedIsUnder(root, join, [d.name]);
    hide UnderRoot, Remainder;
    assert DirectoryArrived(s, Clean(serverRoot), AgentWire(root, serverRoot).move, r.directory.value);
    forall i | 0 <= i < |d.outcome.media| ensures FileRecorded(encode, d, d.outcome.media[i], serverRoot, s) {
      OutcomeIsNameable(rules, d, i);
      MovedIsBelow(root, join, serverRoot, [d.name] + d.outcome.media[i].file.path);
      assert FileArrived(s, Clean(serverRoot), AgentWire(root, serverRoot).move, r.mediaFiles[i]);
    }
  }

  lemma OutcomeIsNameable(rules: MediaScan.Rules, d: Found, i: nat)
    requires Scanned(rules, d) && i < |d.outcome.media|
    ensures AllNameable([d.name] + d.outcome.media[i].file.path)
  {
    OutcomeMedia(rules, d);
    hide Scanned, MediaOf;
    MediaAreNameable(rules, d, MediaOf(rules, d)[i]);
  }

  lemma ReportedIsMirrored(root: string, join: Joiner, encode: Encoder, rules: MediaScan.Rules, library: seq<Found>,
                           serverRoot: string, picks: seq<nat>, p: string)
    requires Anchored(root) && JoinsNames(root, join)
    requires forall i :: 0 <= i < |library| ==> Scanned(rules, library[i])
    requires var items := Items(join, encode, library); ValidPicks(items, picks) && AllSent(items, picks)
    ensures Reported(AgentWire(root, serverRoot), Items(join, encode, library), picks, p) <==>
      Mirrored(rules, library, serverRoot, p)
  {
    var items, move := Items(join, encode, library), AgentWire(root, serverRoot).move;
    hide JoinsNames, Scanned, Writes, ItemResult, MediaOf, SpotOf, ServerPath, Moved, AllSent, ValidPicks, Mirrored, Holds;
    MirroredBySpot(rules, library, serverRoot, p);
    forall i | 0 <= i < |library|
      ensures IsItem(items[i].result) && |Writes(items[i].result)| == |MediaOf(rules, library[i])| + 1
      ensures forall a :: 0 <= a <= |MediaOf(rules, library[i])| ==>
        Moved(move, Writes(items[i].result)[a]) == ServerPath(serverRoot, SpotOf(rules, library[i], a)) {
      ScannedIsItem(root, join, encode, rules, library[i]);
      WritesSpots(join, encode, rules, library[i]);
      forall a | 0 <= a <= |MediaOf(rules, library[i])|
        ensures Moved(move, Writes(items[i].result)[a]) == ServerPath(serverRoot, SpotOf(rules, library[i], a)) {
        SpotIsNameable(rules, library[i], a);
        MovedIsBelow(root, join, serverRoot, SpotOf(rules, library[i], a));
      }
    }
    if Reported(AgentWire(root, serverRoot), items, picks, p) {
      var k, q :| 0 <= k < |picks| && q in Writes(Sent(items, picks)[k]) && p == Moved(move, q);
      SentIsEverything(items, picks, q);
      var i :| 0 <= i < |items| && q in Writes(items[i].result);
      var a :| 0 <= a < |Writes(items[i].result)| && Writes(items[i].result)[a] == q;
      assert p == ServerPath(serverRoot, SpotOf(rules, library[i], a));
    }
    if Mirrored(rules, library, serverRoot, p) {
      var i, a :| 0 <= i < |library| && 0 <= a <= |MediaOf(rules, library[i])| &&
        p == ServerPath(serverRoot, SpotOf(rules, library[i], a));
      var q := Writes(items[i].result)[a];
      assert q in Writes(items[i].result);
      SentIsEverything(items, picks, q);
      var k :| 0 <= k < |picks| && q in Writes(Sent(items, picks)[k]);
    }
  }

  /** From the agent's tree to the server's records: once every part of every item
      has been sent and the completion applied, whatever was redelivered, the
      records under the server's root stand exactly where the library has an item
      directory or a playable file, name for name, each saying what the scan of its
      own item found, and nothing else changed. */
  lemma LibraryIsMirrored(s: Store, root: string, join: Joiner, encode: Encoder, rules: MediaScan.Rules,
                          library: seq<Found>, serverRoot: string, startedAt: nat, picks: seq<nat>, steps: seq<Step>,
                          p: string)
    requires StoredTime.InRange(startedAt) && Anchored(root) && JoinsNames(root, join)
    requires Library(rules, library, startedAt)
    requires var items := Items(join, encode, library); ValidPicks(items, picks) && AllSent(items, picks)
    requires OlderUnderRoot(s, Clean(serverRoot), StoredTime.FormatStoredTime(startedAt))
    requires var t := NewPathTranslator(root, serverRoot);
      var sent := Sent(Items(join, encode, library), picks);
      var log := RunLog(t.serverRoot, ArrivedLog(ServerWire(t), sent), StoredTime.FormatStoredTime(startedAt));
      Run(s, log, steps).applied == |log|
    ensures var t := NewPathTranslator(root, serverRoot);
      var sent := Sent(Items(join, encode, library), picks);
      var log := RunLog(t.serverRoot, ArrivedLog(ServerWire(t), sent), StoredTime.FormatStoredTime(startedAt));
      var final := Run(s, log, steps).store;
      && (p in final.records && final.records[p].doc.root == t.serverRoot <==> Mirrored(rules, library, serverRoot, p))
      && (forall i :: 0 <= i < |library| ==> ItemRecorded(encode, library[i], serverRoot, final))
      && (!Mirrored(rules, library, serverRoot, p) ==>
            (p in final.records <==> p in s.records && s.records[p].doc.root != t.serverRoot) &&
            (p in final.records ==> final.records[p] == s.records[p]))
  {
    hide JoinsNames, Scanned, Mirrored, Reported, ValidPicks, AllSent, AgentItems, NewPathTranslator, OlderUnderRoot;
    LibraryIsAgentItems(root, join, encode, rules, library, startedAt);
    ReportedIsMirrored(root, join, encode, rules, library, serverRoot, picks, p);
    WholeRun(s, root, serverRoot, startedAt, Items(join, encode, library), picks, steps, p);
    var t := NewPathTranslator(root, serverRoot);
    RootIsCleaned(root, serverRoot);
    hide ItemRecorded, ResultArrived;
    ghost var sent := Sent(Items(join, encode, library), picks);
    ghost var log := RunLog(t.serverRoot, ArrivedLog(ServerWire(t), sent), StoredTime.FormatStoredTime(startedAt));
    forall i | 0 <= i < |library| ensures ItemRecorded(encode, library[i], serverRoot, Run(s, log, steps).store) {
      ItemArrives(Run(s, log, steps).store, t.serverRoot, ServerWire(t).move, Items(join, encode, library), picks, i);
      ArrivedIsRecorded(root, join, encode, rules, library[i], serverRoot, Run(s, log, steps).store);
    }
  }

  lemma RootIsCleaned(root: string, serverRoot: string)
    ensures NewPathTranslator(root, serverRoot).serverRoot == Clean(serverRoot)
  {
  }
}

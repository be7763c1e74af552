/** Directory classification: walk a tree, decide which videos are media files,
    and give every other file to one owner. */
module MediaScan {
  import opened Options

  /** A path below the scanned directory, as segments; [] is the directory. */
  type Path = seq<string>

  datatype FileClass = Video | Nfo | Image | OtherClass

  datatype DirectoryType = Movie | TV | MusicVideo

  datatype Trickplay = Trickplay(ownerFolder: Path, baseName: string, width: int, tileWidth: int, tileHeight: int)

  datatype FolderContext = FolderContext(
    seasonNumber: Option<int>, seasonFolder: string, extraType: string, isDiscFolder: bool, trickplay: Option<Trickplay>)

  const NO_CONTEXT := FolderContext(None, "", "", false, None)

  /** The name recognisers, which this model does not look inside. */
  datatype Rules = Rules(
    ignoredFolder: string -> bool,
    ignoredFile: string -> bool,
    seasonFolder: string -> Option<int>,
    extrasFolder: string -> Option<string>,
    discFolder: string -> bool,
    trickplayFolder: string -> Option<string>,
    resolutionFolder: string -> Option<(int, int, int)>,
    extrasSuffix: string -> bool,
    seasonArtwork: string -> Option<int>)

  // ---------------------------------------------------------------------
  // The tree and its folder contexts
  // ---------------------------------------------------------------------

  /** A directory tree as the walk meets it. A file whose stat fails is skipped
      with a warning; an unreadable folder is one without children. */
  datatype Node =
    | Folder(name: string, children: seq<Node>)
    | File(name: string, baseName: string, kind: FileClass, statOk: bool)

  datatype Entry =
    | FolderEntry(path: Path)
    | FileEntry(path: Path, baseName: string, kind: FileClass)

  /** What filepath.WalkDir hands the scanner, parents first, with ignored
      folders cut off at the root. */
  function Entries(rules: Rules, at: Path, nodes: seq<Node>): seq<Entry>
    decreases nodes
  {
    if nodes == [] then []
    else
      (match nodes[0]
       case Folder(name, children) =>
         if rules.ignoredFolder(name) then []
         else [FolderEntry(at + [name])] + Entries(rules, at + [name], children)
       case File(name, baseName, kind, statOk) =>
         if rules.ignoredFile(name) || !statOk then [] else [FileEntry(at + [name], baseName, kind)])
      + Entries(rules, at, nodes[1..])
  }

  function Parent(p: Path): Path {
    if p == [] then [] else p[..|p| - 1]
  }

  function Name(p: Path): string {
    if p == [] then "" else p[|p| - 1]
  }

  /** One folder's own meaning, laid over its parent's context. */
  function Layer(rules: Rules, inherited: FolderContext, path: Path): FolderContext {
    var name := Name(path);
    var season := if inherited.seasonNumber.None? then rules.seasonFolder(name) else None;
    var withSeason := if season.Some? then inherited.(seasonNumber := season, seasonFolder := name) else inherited;
    var extra := if withSeason.extraType == "" then rules.extrasFolder(name) else None;
    var withExtra := if extra.Some? then withSeason.(extraType := extra.value) else withSeason;
    var withDisc := if rules.discFolder(name) then withExtra.(isDiscFolder := true) else withExtra;
    var base := rules.trickplayFolder(name);
    if base.Some? then withDisc.(trickplay := Some(Trickplay(Parent(path), base.value, 0, 0, 0)))
    else if withDisc.trickplay.Some? && withDisc.trickplay.value.width == 0 then
      match rules.resolutionFolder(name)
      case None => withDisc
      case Some((w, tw, th)) =>
        withDisc.(trickplay := Some(withDisc.trickplay.value.(width := w, tileWidth := tw, tileHeight := th)))
    else withDisc
  }

  /** The recursive reading: a folder's context folds over all its ancestors. */
  function ContextOf(rules: Rules, path: Path): FolderContext
    decreases |path|
  {
    if path == [] then NO_CONTEXT else Layer(rules, ContextOf(rules, Parent(path)), path)
  }

  predicate FolderBefore(entries: seq<Entry>, i: nat, p: Path)
    requires i <= |entries|
  {
    exists j :: 0 <= j < i && entries[j] == FolderEntry(p)
  }

  /** Every entry's parent is the root or an earlier folder entry. */
  predicate ParentsFirst(entries: seq<Entry>, at: Path) {
    forall i :: 0 <= i < |entries| ==> ParentKnown(entries, i, at)
  }

  predicate ParentKnown(entries: seq<Entry>, i: nat, at: Path)
    requires i < |entries|
  {
    entries[i].path != [] && (Parent(entries[i].path) == at || FolderBefore(entries, i, Parent(entries[i].path)))
  }

  lemma {:induction false} WalkIsParentsFirst(rules: Rules, at: Path, nodes: seq<Node>)
    ensures ParentsFirst(Entries(rules, at, nodes), at)
    decreases nodes
  {
    if nodes != [] {
      var rest := Entries(rules, at, nodes[1..]);
      WalkIsParentsFirst(rules, at, nodes[1..]);
      match nodes[0] {
        case File(name, baseName, kind, statOk) =>
          PrependParentsFirst([FileEntry(at + [name], baseName, kind)], rest, at);
          PrependParentsFirst([], rest, at);
        case Folder(name, children) =>
          WalkIsParentsFirst(rules, at + [name], children);
          var inner := Entries(rules, at + [name], children);
          UnderFolder(inner, at, name);
          PrependParentsFirst([FolderEntry(at + [name])] + inner, rest, at);
          PrependParentsFirst([], rest, at);
      }
    }
  }

  lemma FolderBeforeShifts(front: seq<Entry>, rest: seq<Entry>, i: nat, p: Path)
    requires i <= |rest| && FolderBefore(rest, i, p)
    ensures FolderBefore(front + rest, |front| + i, p)
  {
    var j :| 0 <= j < i && rest[j] == FolderEntry(p);
    assert (front + rest)[|front| + j] == FolderEntry(p);
  }

  lemma FolderBeforeExtends(front: seq<Entry>, rest: seq<Entry>, i: nat, p: Path)
    requires i <= |front| && FolderBefore(front, i, p)
    ensures FolderBefore(front + rest, i, p)
  {
    var j :| 0 <= j < i && front[j] == FolderEntry(p);
    assert (front + rest)[j] == FolderEntry(p);
  }

  lemma UnderFolder(inner: seq<Entry>, at: Path, name: string)
    requires ParentsFirst(inner, at + [name])
    ensures ParentsFirst([FolderEntry(at + [name])] + inner, at)
  {
    var front := [FolderEntry(at + [name])];
    var entries := front + inner;
    forall i | 0 <= i < |entries| ensures ParentKnown(entries, i, at) {
      if i > 0 {
        assert entries[i] == inner[i - 1] && ParentKnown(inner, i - 1, at + [name]);
        var parent := Parent(inner[i - 1].path);
        if parent == at + [name] {
          assert entries[0] == FolderEntry(parent);
        } else {
          FolderBeforeShifts(front, inner, i - 1, parent);
        }
      }
    }
  }

  lemma PrependParentsFirst(front: seq<Entry>, rest: seq<Entry>, at: Path)
    requires ParentsFirst(rest, at) && (ParentsFirst(front, at) || |front| == 1)
    requires |front| == 1 ==> front[0].path != [] && Parent(front[0].path) == at
    ensures ParentsFirst(front + rest, at)
  {
    var entries := front + rest;
    forall i | 0 <= i < |entries| ensures ParentKnown(entries, i, at) {
      if i < |front| {
        assert entries[i] == front[i];
        if |front| > 1 {
          assert ParentKnown(front, i, at);
        }
        if Parent(front[i].path) != at {
          FolderBeforeExtends(front, rest, i, Parent(front[i].path));
        }
      } else {
        var k := i - |front|;
        assert entries[i] == rest[k] && ParentKnown(rest, k, at);
        if Parent(rest[k].path) != at {
          FolderBeforeShifts(front, rest, k, Parent(rest[k].path));
        }
      }
    }
  }

  /** Siblings have distinct names, all the way down. */
  predicate ProperTree(nodes: seq<Node>)
    decreases nodes
  {
    && (forall i, j :: 0 <= i < j < |nodes| ==> nodes[i].name != nodes[j].name)
    && (forall i :: 0 <= i < |nodes| && nodes[i].Folder? ==> ProperTree(nodes[i].children))
  }

  predicate DistinctEntries(entries: seq<Entry>) {
    forall i, j :: 0 <= i < j < |entries| ==> entries[i].path != entries[j].path
  }

  // Everything an Entries call yields sits below one of its nodes.
  lemma {:induction false} EntriesAreBelow(rules: Rules, at: Path, nodes: seq<Node>, e: Entry)
    requires e in Entries(rules, at, nodes)
    ensures |at| < |e.path| && e.path[..|at|] == at
    ensures exists i :: 0 <= i < |nodes| && nodes[i].name == e.path[|at|]
    decreases nodes
  {
    var rest := Entries(rules, at, nodes[1..]);
    if e in rest {
      EntriesAreBelow(rules, at, nodes[1..], e);
      var i :| 0 <= i < |nodes[1..]| && nodes[1..][i].name == e.path[|at|];
      assert nodes[i + 1].name == e.path[|at|];
    } else {
      var name := nodes[0].name;
      if nodes[0].Folder? && e != FolderEntry(at + [name]) {
        EntriesAreBelow(rules, at + [name], nodes[0].children, e);
        assert e.path[..|at|] == e.path[..|at| + 1][..|at|] == at;
        assert e.path[|at|] == (at + [name])[|at|];
      }
      assert nodes[0].name == e.path[|at|];
    }
  }

  lemma {:induction false} WalkedPathsAreDistinct(rules: Rules, at: Path, nodes: seq<Node>)
    requires ProperTree(nodes)
    ensures DistinctEntries(Entries(rules, at, nodes))
    decreases nodes
  {
    if nodes != [] {
      var name := nodes[0].name;
      var rest := Entries(rules, at, nodes[1..]);
      var front := Entries(rules, at, [nodes[0]]);
      assert forall i :: 0 <= i < |nodes[1..]| ==> nodes[1..][i] == nodes[i + 1];
      WalkedPathsAreDistinct(rules, at, nodes[1..]);
      if nodes[0].Folder? {
        WalkedPathsAreDistinct(rules, at + [name], nodes[0].children);
        forall e | e in Entries(rules, at + [name], nodes[0].children) ensures e.path != at + [name] {
          EntriesAreBelow(rules, at + [name], nodes[0].children, e);
        }
      }
      assert [nodes[0]][1..] == [] && Entries(rules, at, [nodes[0]][1..]) == [];
      assert Entries(rules, at, nodes) == front + rest;
      assert DistinctEntries(front);
      forall d, e | d in front && e in rest ensures d.path != e.path {
        EntriesAreBelow(rules, at, [nodes[0]], d);
        EntriesAreBelow(rules, at, nodes[1..], e);
      }
      ConcatIsDistinct(front, rest);
    }
  }

  lemma ConcatIsDistinct(a: seq<Entry>, b: seq<Entry>)
    requires DistinctEntries(a) && DistinctEntries(b)
    requires forall d, e :: d in a && e in b ==> d.path != e.path
    ensures DistinctEntries(a + b)
  {
    forall i, j | 0 <= i < j < |a + b| ensures (a + b)[i].path != (a + b)[j].path {
      if i < |a| && j >= |a| {
        assert a[i] in a && b[j - |a|] in b;
      }
    }
  }

  // ---------------------------------------------------------------------
  // What the three passes compute
  // ---------------------------------------------------------------------

  datatype WalkedFile = WalkedFile(path: Path, baseName: string, kind: FileClass, context: FolderContext)

  function FilesOf(rules: Rules, entries: seq<Entry>): seq<WalkedFile>
    decreases |entries|
  {
    if entries == [] then []
    else
      var last := entries[|entries| - 1];
      FilesOf(rules, entries[..|entries| - 1]) +
      match last
      case FolderEntry(_) => []
      case FileEntry(path, baseName, kind) =>
        [WalkedFile(path, baseName, kind, ContextOf(rules, Parent(path)))]
  }

  predicate IsMedia(rules: Rules, f: WalkedFile) {
    f.kind == Video && !f.context.isDiscFolder && f.context.extraType == "" && !rules.extrasSuffix(f.baseName)
  }

  function MediaIn(rules: Rules, files: seq<WalkedFile>): seq<WalkedFile>
    decreases |files|
  {
    if files == [] then []
    else
      var last := files[|files| - 1];
      MediaIn(rules, files[..|files| - 1]) + if IsMedia(rules, last) then [last] else []
  }

  /** The last media file of that base name in that folder. */
  function LastNamed(media: seq<WalkedFile>, folder: Path, baseName: string): (r: Option<nat>)
    ensures r.Some? ==> r.value < |media| && Parent(media[r.value].path) == folder && media[r.value].baseName == baseName
    decreases |media|
  {
    if media == [] then None
    else
      var last := |media| - 1;
      if Parent(media[last].path) == folder && media[last].baseName == baseName then Some(last)
      else LastNamed(media[..last], folder, baseName)
  }

  function BaseNames(media: seq<WalkedFile>, folder: Path): set<string> {
    set i | 0 <= i < |media| && Parent(media[i].path) == folder :: media[i].baseName
  }

  lemma {:induction false} NamedIsFound(media: seq<WalkedFile>, folder: Path, baseName: string)
    ensures LastNamed(media, folder, baseName).Some? <==> baseName in BaseNames(media, folder)
    decreases |media|
  {
    if media != [] {
      var last := |media| - 1;
      NamedIsFound(media[..last], folder, baseName);
      if baseName in BaseNames(media[..last], folder) {
        var i :| 0 <= i < last && Parent(media[..last][i].path) == folder && media[..last][i].baseName == baseName;
        assert media[i] == media[..last][i];
      }
      if baseName in BaseNames(media, folder) {
        var i :| 0 <= i < |media| && Parent(media[i].path) == folder && media[i].baseName == baseName;
        if i < last {
          assert media[..last][i] == media[i];
        }
      }
    }
  }

  /** The longest non-empty prefix of a name among some keys, tried from the
      whole name down. */
  function LongestPrefix(keys: set<string>, baseName: string, length: nat): (r: Option<string>)
    requires length <= |baseName|
    ensures r.Some? ==> r.value in keys && r.value <= baseName && 0 < |r.value| <= length
    ensures forall c :: c in keys && c <= baseName && 0 < |c| <= length ==> r.Some? && |c| <= |r.value|
    decreases length
  {
    assert forall c :: c <= baseName && |c| == length ==> c == baseName[..length];
    if length == 0 then None
    else if baseName[..length] in keys then Some(baseName[..length])
    else LongestPrefix(keys, baseName, length - 1)
  }

  datatype Owner = Itself | OfMedia(index: nat) | OfSeason(number: int) | OfDirectory

  function OwnerOf(rules: Rules, kind: DirectoryType, media: seq<WalkedFile>, f: WalkedFile): (o: Owner)
    ensures o.OfMedia? ==> o.index < |media|
  {
    var trickplay := f.context.trickplay;
    var folder := Parent(f.path);
    if trickplay.Some? && LastNamed(media, trickplay.value.ownerFolder, trickplay.value.baseName).Some? then
      OfMedia(LastNamed(media, trickplay.value.ownerFolder, trickplay.value.baseName).value)
    else
      var target := LongestPrefix(BaseNames(media, folder), f.baseName, |f.baseName|);
      if target.Some? then
        NamedIsFound(media, folder, target.value);
        OfMedia(LastNamed(media, folder, target.value).value)
      else if kind == TV && rules.seasonArtwork(f.baseName).Some? then
        OfSeason(rules.seasonArtwork(f.baseName).value)
      else if f.context.seasonNumber.Some? then OfSeason(f.context.seasonNumber.value)
      else OfDirectory
  }

  /** A sidecar follows a video of its own folder whose name starts its name, and
      of several such videos the one with the longest name. */
  lemma LongestNameWins(rules: Rules, kind: DirectoryType, media: seq<WalkedFile>, f: WalkedFile, c: nat)
    requires f.context.trickplay.None? && c < |media|
    requires Parent(media[c].path) == Parent(f.path) && media[c].baseName != "" && media[c].baseName <= f.baseName
    ensures var o := OwnerOf(rules, kind, media, f);
            && o.OfMedia? && Parent(media[o.index].path) == Parent(f.path)
            && media[c].baseName <= media[o.index].baseName <= f.baseName
  {
    var keys := BaseNames(media, Parent(f.path));
    var longest := LongestPrefix(keys, f.baseName, |f.baseName|);
    assert media[c].baseName in keys;
    NamedIsFound(media, Parent(f.path), longest.value);
    assert media[c].baseName == f.baseName[..|media[c].baseName|] == longest.value[..|media[c].baseName|];
  }

  /** Where a file ends up: as a media file itself, or as somebody's sidecar. */
  function Assignment(rules: Rules, kind: DirectoryType, media: seq<WalkedFile>): WalkedFile -> Owner {
    f => if IsMedia(rules, f) then Itself else OwnerOf(rules, kind, media, f)
  }

  // The index of a media owner is one of the media's.
  lemma AssignsWithin(rules: Rules, kind: DirectoryType, media: seq<WalkedFile>)
    ensures forall f: WalkedFile :: Assignment(rules, kind, media)(f).OfMedia? ==>
      Assignment(rules, kind, media)(f).index < |media|
  {
  }

  /** The files an assignment gives to one owner, in walk order. */
  function Held(assign: WalkedFile -> Owner, files: seq<WalkedFile>, owner: Owner): seq<WalkedFile>
    decreases |files|
  {
    if files == [] then []
    else
      var last := files[|files| - 1];
      Held(assign, files[..|files| - 1], owner) + if assign(last) == owner then [last] else []
  }

  lemma OneMoreFile(assign: WalkedFile -> Owner, done: seq<WalkedFile>, f: WalkedFile)
    ensures forall o :: Held(assign, done + [f], o) == Held(assign, done, o) + if assign(f) == o then [f] else []
  {
    assert (done + [f])[..|done|] == done;
  }

  // The parent of the next entry is a folder already met.
  lemma ParentIsKnown(entries: seq<Entry>, k: nat)
    requires ParentsFirst(entries, []) && k < |entries|
    ensures Parent(entries[k].path) == [] || FolderEntry(Parent(entries[k].path)) in entries[..k]
    ensures entries[k].path != []
  {
    assert ParentKnown(entries, k, []);
    if Parent(entries[k].path) != [] {
      var j :| 0 <= j < k && entries[j] == FolderEntry(Parent(entries[k].path));
      assert entries[..k][j] == entries[j];
    }
  }

  datatype MediaCandidate = MediaCandidate(file: WalkedFile, sidecars: seq<WalkedFile>)

  datatype Season = Season(number: int, folderName: string, sidecars: seq<WalkedFile>)

  datatype Outcome = Outcome(media: seq<MediaCandidate>, seasons: seq<Season>, sidecars: seq<WalkedFile>)

  predicate DistinctFiles(files: seq<WalkedFile>) {
    forall i, j :: 0 <= i < j < |files| ==> files[i].path != files[j].path
  }

  function LookUp(names: map<Path, map<string, nat>>, folder: Path, baseName: string): Option<nat> {
    if folder in names && baseName in names[folder] then Some(names[folder][baseName]) else None
  }

  function SeasonList(seasons: map<int, seq<WalkedFile>>, number: int): seq<WalkedFile> {
    if number in seasons then seasons[number] else []
  }

  // ---------------------------------------------------------------------
  // The scanner
  // ---------------------------------------------------------------------

  class DirectoryScanner {
    const rules: Rules
    const directoryType: DirectoryType
    var contexts: map<Path, FolderContext>
    var files: seq<WalkedFile>
    var mediaBaseNames: map<Path, map<string, nat>>
    var mediaCandidates: seq<MediaCandidate>
    var mediaRelativePaths: set<Path>
    var directorySidecars: seq<WalkedFile>
    var seasonSidecars: map<int, seq<WalkedFile>>
    var trickplayOrphansWarned: set<(Path, string)>
    var orphanWarnings: seq<(Path, string)>

    constructor (rules: Rules, directoryType: DirectoryType)
      ensures this.rules == rules && this.directoryType == directoryType
      ensures contexts == map[[] := NO_CONTEXT] && files == [] && mediaBaseNames == map[]
      ensures mediaCandidates == [] && mediaRelativePaths == {} && directorySidecars == []
      ensures seasonSidecars == map[] && trickplayOrphansWarned == {} && orphanWarnings == []
    {
      this.rules, this.directoryType := rules, directoryType;
      contexts, files, mediaBaseNames := map[[] := NO_CONTEXT], [], map[];
      mediaCandidates, mediaRelativePaths, directorySidecars := [], {}, [];
      seasonSidecars, trickplayOrphansWarned, orphanWarnings := map[], {}, [];
    }

    // A map read in Go: the zero context when the folder is not there.
    function ContextAt(path: Path): FolderContext
      reads this
    {
      if path in contexts then contexts[path] else NO_CONTEXT
    }

    /** Pass one. Each folder's context is memoised, and equals the fold over its
        ancestors; each file carries its folder's. */
    method Walk(entries: seq<Entry>)
      requires ParentsFirst(entries, []) && contexts == map[[] := NO_CONTEXT] && files == []
      modifies this`contexts, this`files
      ensures files == FilesOf(rules, entries)
      ensures ContextsAre(entries)
    {
      for k := 0 to |entries|
        invariant files == FilesOf(rules, entries[..k])
        invariant ContextsAre(entries[..k])
      {
        var entry := entries[k];
        var parent := Parent(entry.path);
        ParentIsKnown(entries, k);
        assert parent in contexts;
        assert entries[..k + 1][..k] == entries[..k];
        match entry {
          case FolderEntry(path) =>
            contexts := contexts[path := Layer(rules, ContextAt(parent), path)];
          case FileEntry(path, baseName, kind) =>
            files := files + [WalkedFile(path, baseName, kind, ContextAt(parent))];
        }
      }
      assert entries[..|entries|] == entries;
    }

    /** The memo holds exactly the folders met, each with its folded context. */
    ghost predicate ContextsAre(entries: seq<Entry>)
      reads this`contexts
    {
      && (forall p :: p in contexts <==> p == [] || FolderEntry(p) in entries)
      && (forall p :: p in contexts ==> contexts[p] == ContextOf(rules, p))
    }

    ghost predicate NamesMedia(media: seq<WalkedFile>)
      reads this`mediaBaseNames
    {
      forall folder, baseName :: LookUp(mediaBaseNames, folder, baseName) == LastNamed(media, folder, baseName)
    }

    ghost predicate HoldsMedia(media: seq<WalkedFile>)
      reads this
    {
      && |mediaCandidates| == |media|
      && (forall i :: 0 <= i < |media| ==> mediaCandidates[i].file == media[i])
      && NamesMedia(media)
      && mediaRelativePaths == PathsOf(media)
    }

    method IdentifyMediaFiles()
      requires mediaBaseNames == map[] && mediaCandidates == [] && mediaRelativePaths == {}
      modifies this`mediaBaseNames, this`mediaCandidates, this`mediaRelativePaths
      ensures HoldsMedia(MediaIn(rules, files))
      ensures forall i :: 0 <= i < |mediaCandidates| ==> mediaCandidates[i].sidecars == []
    {
      for k := 0 to |files|
        invariant HoldsMedia(MediaIn(rules, files[..k]))
        invariant forall i :: 0 <= i < |mediaCandidates| ==> mediaCandidates[i].sidecars == []
      {
        var file := files[k];
        assert files[..k + 1][..k] == files[..k];
        assert MediaIn(rules, files[..k + 1]) ==
          MediaIn(rules, files[..k]) + if IsMedia(rules, file) then [file] else [];
        assert MediaIn(rules, files[..k]) + [] == MediaIn(rules, files[..k]);
        if file.kind == Video && !file.context.isDiscFolder && file.context.extraType == "" &&
           !rules.extrasSuffix(file.baseName)
        {
          AddCandidate(file, MediaIn(rules, files[..k]));
        }
      }
      assert files[..|files|] == files;
    }

    method AddCandidate(file: WalkedFile, ghost media: seq<WalkedFile>)
      requires HoldsMedia(media)
      requires forall i :: 0 <= i < |mediaCandidates| ==> mediaCandidates[i].sidecars == []
      modifies this`mediaBaseNames, this`mediaCandidates, this`mediaRelativePaths
      ensures HoldsMedia(media + [file])
      ensures forall i :: 0 <= i < |mediaCandidates| ==> mediaCandidates[i].sidecars == []
    {
      var folder := Parent(file.path);
      mediaCandidates := mediaCandidates + [MediaCandidate(file, [])];
      mediaRelativePaths := mediaRelativePaths + {file.path};
      var inner := if folder in mediaBaseNames then mediaBaseNames[folder] else map[];
      mediaBaseNames := mediaBaseNames[folder := inner[file.baseName := |mediaCandidates| - 1]];
      assert (media + [file])[..|media|] == media;
      PathsGrow(media, file);
    }

    method MatchMediaPrefix(folder: Path, baseName: string) returns (target: Option<string>)
      ensures var keys := if folder in mediaBaseNames then mediaBaseNames[folder].Keys else {};
              target == LongestPrefix(keys, baseName, |baseName|)
    {
      if folder !in mediaBaseNames {
        return None;
      }
      var keys := mediaBaseNames[folder].Keys;
      var best := "";
      var remaining := keys;
      while remaining != {}
        invariant remaining <= keys
        invariant best == "" || (best in keys && best <= baseName)
        invariant forall c :: c in keys - remaining && c <= baseName ==> |c| <= |best|
      {
        var candidate :| candidate in remaining;
        remaining := remaining - {candidate};
        if |candidate| > |best| && (candidate == baseName || candidate <= baseName) {
          best := candidate;
        }
      }
      target := if best == "" then None else Some(best);
      var longest := LongestPrefix(keys, baseName, |baseName|);
      assert longest.Some? ==> longest.value in keys - remaining;
      assert best != "" ==> longest.Some? && best == baseName[..|best|] && longest.value == baseName[..|longest.value|];
    }

    /** The media file a trickplay tile previews. A folder naming none is reported
        once. */
    method TrickplayOwnerOf(file: WalkedFile) returns (index: Option<nat>)
      requires WarnsOnce()
      modifies this`trickplayOrphansWarned, this`orphanWarnings
      ensures WarnsOnce()
      ensures index == match file.context.trickplay
                       case None => None
                       case Some(t) => LookUp(mediaBaseNames, t.ownerFolder, t.baseName)
      ensures orphanWarnings == old(orphanWarnings) ||
        (file.context.trickplay.Some? && index.None? &&
          var key := (file.context.trickplay.value.ownerFolder, file.context.trickplay.value.baseName);
          key !in old(orphanWarnings) && orphanWarnings == old(orphanWarnings) + [key])
      ensures file.context.trickplay.Some? && index.None? ==>
        (file.context.trickplay.value.ownerFolder, file.context.trickplay.value.baseName) in orphanWarnings
    {
      if file.context.trickplay.None? {
        return None;
      }
      var trickplay := file.context.trickplay.value;
      if trickplay.ownerFolder in mediaBaseNames && trickplay.baseName in mediaBaseNames[trickplay.ownerFolder] {
        return Some(mediaBaseNames[trickplay.ownerFolder][trickplay.baseName]);
      }
      var key := (trickplay.ownerFolder, trickplay.baseName);
      if key !in trickplayOrphansWarned {
        trickplayOrphansWarned := trickplayOrphansWarned + {key};
        orphanWarnings := orphanWarnings + [key];
      }
      index := None;
    }

    lemma KeysAreBaseNames(media: seq<WalkedFile>, folder: Path)
      requires NamesMedia(media)
      ensures (if folder in mediaBaseNames then mediaBaseNames[folder].Keys else {}) == BaseNames(media, folder)
    {
      forall b: string ensures b in BaseNames(media, folder) <==> LookUp(mediaBaseNames, folder, b).Some? {
        NamedIsFound(media, folder, b);
        assert LookUp(mediaBaseNames, folder, b) == LastNamed(media, folder, b);
      }
    }
  
    // The season a sidecar names itself, consulted for a series only.
    function SeasonNamedBy(file: WalkedFile): Option<int> {
      if directoryType != TV then None else rules.seasonArtwork(file.baseName)
    }

    /** Everything filed so far is exactly what each owner is due. */
    ghost predicate Filed(assign: WalkedFile -> Owner, media: seq<WalkedFile>, done: seq<WalkedFile>)
      reads this`mediaCandidates, this`seasonSidecars, this`directorySidecars
    {
      && |mediaCandidates| == |media|
      && (forall i :: 0 <= i < |media| ==> mediaCandidates[i] == MediaCandidate(media[i], Held(assign, done, OfMedia(i))))
      && (forall n :: SeasonList(seasonSidecars, n) == Held(assign, done, OfSeason(n)))
      && (forall n :: n in seasonSidecars ==> seasonSidecars[n] != [])
      && directorySidecars == Held(assign, done, OfDirectory)
    }

    /** The warned set mirrors the warnings, and no folder is warned of twice. */
    ghost predicate WarnsOnce()
      reads this`trickplayOrphansWarned, this`orphanWarnings
    {
      && (forall o :: o in trickplayOrphansWarned <==> o in orphanWarnings)
      && (forall i, j :: 0 <= i < j < |orphanWarnings| ==> orphanWarnings[i] != orphanWarnings[j])
    }

    /** Pass one is over: the media index is built, and the assignment is the one it implies. */
    ghost predicate Indexed(assign: WalkedFile -> Owner, media: seq<WalkedFile>)
      reads this`files, this`mediaBaseNames, this`mediaRelativePaths
    {
      && DistinctFiles(files) && media == MediaIn(rules, files)
      && assign == Assignment(rules, directoryType, media)
      && mediaRelativePaths == PathsOf(media)
      && NamesMedia(media)
    }

    /** Pass two: every file that is not a media file goes to the owner its own
        folder, name and position give it. */
    method ClassifySidecars(ghost assign: WalkedFile -> Owner)
      requires DistinctFiles(files) && HoldsMedia(MediaIn(rules, files))
      requires assign == Assignment(rules, directoryType, MediaIn(rules, files))
      requires forall i :: 0 <= i < |mediaCandidates| ==> mediaCandidates[i].sidecars == []
      requires seasonSidecars == map[] && directorySidecars == []
      requires trickplayOrphansWarned == {} && orphanWarnings == []
      modifies this`mediaCandidates, this`seasonSidecars, this`directorySidecars
      modifies this`trickplayOrphansWarned, this`orphanWarnings
      ensures Filed(assign, MediaIn(rules, files), files) && WarnsOnce()
    {
      ghost var media := MediaIn(rules, files);
      assert Indexed(assign, media);
      ClassifyAll(assign, media);
    }

    method ClassifyAll(ghost assign: WalkedFile -> Owner, ghost media: seq<WalkedFile>)
      requires Indexed(assign, media) && Filed(assign, media, []) && WarnsOnce()
      modifies this`mediaCandidates, this`seasonSidecars, this`directorySidecars
      modifies this`trickplayOrphansWarned, this`orphanWarnings
      ensures Filed(assign, media, files) && WarnsOnce()
    {
      for k := 0 to |files|
        invariant Filed(assign, media, files[..k]) && WarnsOnce()
      {
        Classify(k, assign, media);
      }
      assert files[..|files|] == files;
    }

    method Classify(k: nat, ghost assign: WalkedFile -> Owner, ghost media: seq<WalkedFile>)
      requires k < |files| && Indexed(assign, media) && Filed(assign, media, files[..k]) && WarnsOnce()
      modifies this`mediaCandidates, this`seasonSidecars, this`directorySidecars
      modifies this`trickplayOrphansWarned, this`orphanWarnings
      ensures Filed(assign, media, files[..k + 1]) && WarnsOnce()
    {
      hide Indexed, Filed, WarnsOnce;
      var owner := PlaceOf(k, assign, media);
      AddSidecar(owner, files[k], assign, media, files[..k], files[..k + 1]);
    }

    // A media file is a record in its own right, never a sidecar.
    method PlaceOf(k: nat, ghost assign: WalkedFile -> Owner, ghost media: seq<WalkedFile>) returns (owner: Owner)
      requires k < |files| && Indexed(assign, media) && WarnsOnce()
      modifies this`trickplayOrphansWarned, this`orphanWarnings
      ensures owner == assign(files[k]) && (owner.OfMedia? ==> owner.index < |media|) && WarnsOnce()
    {
      MediaByPath(rules, files, k);
      if files[k].path in mediaRelativePaths {
        return Itself;
      }
      owner := FindOwner(files[k], media);
    }

    method FindOwner(file: WalkedFile, ghost media: seq<WalkedFile>) returns (owner: Owner)
      requires NamesMedia(media) && WarnsOnce()
      modifies this`trickplayOrphansWarned, this`orphanWarnings
      ensures owner == OwnerOf(rules, directoryType, media, file) && WarnsOnce()
    {
      var index := TrickplayOwnerOf(file);
      if index.Some? {
        return OfMedia(index.value);
      }
      var folder := Parent(file.path);
      var target := MatchMediaPrefix(folder, file.baseName);
      KeysAreBaseNames(media, folder);
      if target.Some? {
        NamedIsFound(media, folder, target.value);
        assert LookUp(mediaBaseNames, folder, target.value) == LastNamed(media, folder, target.value);
        return OfMedia(mediaBaseNames[folder][target.value]);
      }
      var named := SeasonNamedBy(file);
      if named.Some? {
        return OfSeason(named.value);
      }
      if file.context.seasonNumber.Some? {
        return OfSeason(file.context.seasonNumber.value);
      }
      owner := OfDirectory;
    }

    method AddSidecar(owner: Owner, file: WalkedFile, ghost assign: WalkedFile -> Owner, ghost media: seq<WalkedFile>,
                      ghost done: seq<WalkedFile>, ghost next: seq<WalkedFile>)
      requires Filed(assign, media, done) && assign(file) == owner && next == done + [file]
      requires owner.OfMedia? ==> owner.index < |media|
      modifies this`mediaCandidates, this`seasonSidecars, this`directorySidecars
      ensures Filed(assign, media, next)
    {
      OneMoreFile(assign, done, file);
      match owner {
        case Itself =>
        case OfMedia(index) =>
          var candidate := mediaCandidates[index];
          mediaCandidates := mediaCandidates[index := MediaCandidate(candidate.file, candidate.sidecars + [file])];
        case OfSeason(number) =>
          var listed := if number in seasonSidecars then seasonSidecars[number] else [];
          seasonSidecars := seasonSidecars[number := listed + [file]];
        case OfDirectory =>
          directorySidecars := directorySidecars + [file];
      }
    }

    /** Every season some folder or sidecar is evidence of. */
    ghost predicate HasSeason(number: int)
      reads this
    {
      number in seasonSidecars || exists p :: p in contexts && DeclaresSeason(contexts[p], number)
    }

    method SeasonNumbers() returns (folderNames: map<int, string>)
      ensures forall n :: n in folderNames <==> HasSeason(n)
      ensures forall n :: n in folderNames ==> NamedByContext(n, folderNames[n])
    {
      folderNames := map[];
      var remaining := contexts.Keys;
      while remaining != {}
        invariant remaining <= contexts.Keys
        invariant forall p :: p in contexts.Keys - remaining ==>
          forall n :: DeclaresSeason(contexts[p], n) ==> n in folderNames
        invariant forall n :: n in folderNames ==> DeclaredAs(n, folderNames[n])
      {
        var path :| path in remaining;
        remaining := remaining - {path};
        var context := contexts[path];
        if context.seasonNumber.Some? && context.seasonFolder != "" {
          folderNames := folderNames[context.seasonNumber.value := context.seasonFolder];
        }
      }
      var numbers := seasonSidecars.Keys;
      ghost var declared := folderNames;
      while numbers != {}
        invariant numbers <= seasonSidecars.Keys
        invariant forall n :: n in folderNames <==> n in declared || n in seasonSidecars.Keys - numbers
        invariant forall n :: n in folderNames ==> folderNames[n] == if n in declared then declared[n] else ""
      {
        ghost var _ := AMember(numbers);
        var number :| number in numbers;
        numbers := numbers - {number};
        if number !in folderNames {
          folderNames := folderNames[number := ""];
        }
      }
    }

    ghost predicate DeclaredAs(number: int, folder: string)
      reads this
    {
      exists p :: p in contexts && DeclaresSeason(contexts[p], number) && contexts[p].seasonFolder == folder
    }

    /** The folder a season is recorded under: one that declared it, or none. */
    ghost predicate NamedByContext(number: int, folder: string)
      reads this
    {
      DeclaredAs(number, folder) ||
      (folder == "" && !exists p :: p in contexts && DeclaresSeason(contexts[p], number))
    }

    method AssembleSeasons() returns (seasons: seq<Season>)
      ensures Ordered(seasons) && forall n :: HasSeason(n) <==> HasNumber(seasons, n)
      ensures forall i :: 0 <= i < |seasons| ==> seasons[i].sidecars == SeasonList(seasonSidecars, seasons[i].number)
      ensures forall i :: 0 <= i < |seasons| ==> NamedByContext(seasons[i].number, seasons[i].folderName)
    {
      var folderNames := SeasonNumbers();
      seasons := SeasonRecords(folderNames);
      forall i | 0 <= i < |seasons| ensures NamedByContext(seasons[i].number, seasons[i].folderName) {
        assert HasNumber(seasons, seasons[i].number);
      }
    }

    method SeasonRecords(folderNames: map<int, string>) returns (seasons: seq<Season>)
      ensures Ordered(seasons) && forall n :: n in folderNames <==> HasNumber(seasons, n)
      ensures forall i :: 0 <= i < |seasons| ==> seasons[i].number in folderNames
      ensures forall i :: 0 <= i < |seasons| ==> seasons[i].folderName == folderNames[seasons[i].number]
      ensures forall i :: 0 <= i < |seasons| ==> seasons[i].sidecars == SeasonList(seasonSidecars, seasons[i].number)
    {
      var numbers := Ascending(folderNames.Keys);
      seasons := [];
      for k := 0 to |numbers|
        invariant |seasons| == k
        invariant forall i :: 0 <= i < k ==>
          seasons[i] == Season(numbers[i], folderNames[numbers[i]], SeasonList(seasonSidecars, numbers[i]))
      {
        var number := numbers[k];
        var sidecars := if number in seasonSidecars then seasonSidecars[number] else [];
        seasons := seasons + [Season(number, folderNames[number], sidecars)];
      }
      SeasonsAreNumbered(numbers, seasons);
    }

    /** The passes after the walk. */
    method Run(ghost assign: WalkedFile -> Owner, ghost media: seq<WalkedFile>, ghost entries: seq<Entry>)
      returns (o: Outcome)
      requires ContextsAre(entries)
      requires DistinctFiles(files) && media == MediaIn(rules, files) && Held(assign, files, Itself) == media
      requires assign == Assignment(rules, directoryType, media)
      requires mediaBaseNames == map[] && mediaCandidates == [] && mediaRelativePaths == {}
      requires seasonSidecars == map[] && directorySidecars == []
      requires trickplayOrphansWarned == {} && orphanWarnings == []
      modifies this
      ensures files == old(files) && Complete(assign, files, o) && WarnsOnce()
      ensures SeasonsShown(rules, entries, assign, files, o)
    {
      AssignsWithin(rules, directoryType, media);
      hide Complete, Follows, OwnersExist, SeasonsShown, Filed, WarnsOnce, ContextsAre, Assignment, Held, MediaIn;
      IdentifyMediaFiles();
      ClassifySidecars(assign);
      o := Assemble(assign, media, entries);
      Completed(assign, files, o);
    }

    /** Pass three. */
    method Assemble(ghost assign: WalkedFile -> Owner, ghost media: seq<WalkedFile>, ghost entries: seq<Entry>)
      returns (o: Outcome)
      requires Filed(assign, media, files) && Held(assign, files, Itself) == media && ContextsAre(entries)
      requires forall f: WalkedFile :: assign(f).OfMedia? ==> assign(f).index < |media|
      ensures Follows(assign, files, o) && OwnersExist(assign, files, o)
      ensures SeasonsShown(rules, entries, assign, files, o)
    {
      var seasons := AssembleSeasons();
      o := Outcome(mediaCandidates, seasons, directorySidecars);
      SeasonsAreThere(assign, media, seasons);
      SeasonsAreShown(assign, media, entries, o);
    }

    // The memo and the filed sidecars, said of the walk.
    lemma SeasonsAreShown(assign: WalkedFile -> Owner, media: seq<WalkedFile>, entries: seq<Entry>, o: Outcome)
      requires Filed(assign, media, files) && ContextsAre(entries)
      requires forall n :: HasSeason(n) <==> HasNumber(o.seasons, n)
      requires forall i :: 0 <= i < |o.seasons| ==> NamedByContext(o.seasons[i].number, o.seasons[i].folderName)
      ensures SeasonsShown(rules, entries, assign, files, o)
    {
      forall p, n ensures p in contexts && DeclaresSeason(contexts[p], n) <==> Declares(rules, entries, p, n) {
      }
      forall n ensures n in seasonSidecars <==> exists f :: f in files && assign(f) == OfSeason(n) {
        HeldIsEmptyIff(assign, files, OfSeason(n));
      }
      forall n, folder ensures DeclaredAs(n, folder) <==>
        exists p :: Declares(rules, entries, p, n) && ContextOf(rules, p).seasonFolder == folder
      {
      }
    }

    lemma SeasonsAreThere(assign: WalkedFile -> Owner, media: seq<WalkedFile>, seasons: seq<Season>)
      requires Filed(assign, media, files)
      requires forall n :: HasSeason(n) <==> HasNumber(seasons, n)
      ensures forall f :: f in files && assign(f).OfSeason? ==> HasNumber(seasons, assign(f).number)
    {
      forall f | f in files && assign(f).OfSeason? ensures HasNumber(seasons, assign(f).number) {
        var number := assign(f).number;
        HeldCount(assign, files, OfSeason(number), f);
        assert f in multiset(files);
        assert f in multiset(SeasonList(seasonSidecars, number));
        assert HasSeason(number);
      }
    }
  }

  lemma SeasonsAreNumbered(numbers: seq<int>, seasons: seq<Season>)
    requires |numbers| == |seasons| && forall i :: 0 <= i < |numbers| ==> seasons[i].number == numbers[i]
    ensures forall n :: n in numbers <==> HasNumber(seasons, n)
  {
    forall n | n in numbers ensures HasNumber(seasons, n) {
      var i :| 0 <= i < |numbers| && numbers[i] == n;
      assert seasons[i].number == n;
    }
  }

  predicate DeclaresSeason(context: FolderContext, number: int) {
    context.seasonNumber == Some(number) && context.seasonFolder != ""
  }

  lemma AMember<T>(s: set<T>) returns (x: T)
    requires s != {}
    ensures x in s
  {
    x :| x in s;
  }

  lemma LeastExists(s: set<int>)
    requires s != {}
    ensures exists m :: m in s && forall x :: x in s ==> m <= x
    decreases |s|
  {
    var _ := AMember(s);
    var x :| x in s;
    if s != {x} {
      assert s - {x} != {};
      LeastExists(s - {x});
      var m :| m in s - {x} && forall y :: y in s - {x} ==> m <= y;
      assert forall y :: y in s ==> y == x || y in s - {x};
      var least := if m < x then m else x;
      assert least in s && forall y :: y in s ==> least <= y;
    }
  }

  function Ascending(s: set<int>): (r: seq<int>)
    ensures forall i, j :: 0 <= i < j < |r| ==> r[i] < r[j]
    ensures forall n :: n in r <==> n in s
    decreases |s|
  {
    if s == {} then []
    else
      LeastExists(s);
      var m :| m in s && forall x :: x in s ==> m <= x;
      [m] + Ascending(s - {m})
  }

  function PathsOf(media: seq<WalkedFile>): set<Path> {
    set i | 0 <= i < |media| :: media[i].path
  }

  lemma PathsGrow(media: seq<WalkedFile>, f: WalkedFile)
    ensures PathsOf(media + [f]) == PathsOf(media) + {f.path}
  {
    var grown := media + [f];
    forall p ensures p in PathsOf(grown) <==> p in PathsOf(media) || p == f.path {
      if p in PathsOf(media) {
        var i :| 0 <= i < |media| && media[i].path == p;
        assert grown[i].path == p;
      }
      assert grown[|media|].path == f.path;
    }
  }

  predicate HasPath(media: seq<WalkedFile>, path: Path) {
    exists i :: 0 <= i < |media| && media[i].path == path
  }

  // With distinct paths, a file is recognised as media exactly when it is one.
  lemma MediaByPath(rules: Rules, files: seq<WalkedFile>, k: nat)
    requires DistinctFiles(files) && k < |files|
    ensures IsMedia(rules, files[k]) <==> HasPath(MediaIn(rules, files), files[k].path)
  {
    MediaAreFiles(rules, files);
    var media := MediaIn(rules, files);
    if i :| 0 <= i < |media| && media[i].path == files[k].path {
      assert media[i] in media;
      var j :| 0 <= j < |files| && files[j] == media[i];
      assert j == k;
    }
    if IsMedia(rules, files[k]) {
      assert files[k] in media;
      var i :| 0 <= i < |media| && media[i] == files[k];
      assert media[i].path == files[k].path;
    }
  }

  lemma {:induction false} MediaAreFiles(rules: Rules, files: seq<WalkedFile>)
    ensures forall f :: f in MediaIn(rules, files) <==> f in files && IsMedia(rules, f)
    decreases |files|
  {
    if files != [] {
      MediaAreFiles(rules, files[..|files| - 1]);
      assert files == files[..|files| - 1] + [files[|files| - 1]];
    }
  }

  // ---------------------------------------------------------------------
  // Nothing lost, nothing twice
  // ---------------------------------------------------------------------

  function Times(files: seq<WalkedFile>, f: WalkedFile): nat {
    multiset(files)[f]
  }

  function MediaMentions(media: seq<MediaCandidate>, f: WalkedFile): nat
    decreases |media|
  {
    if media == [] then 0
    else
      var last := media[|media| - 1];
      MediaMentions(media[..|media| - 1], f) + (if last.file == f then 1 else 0) + Times(last.sidecars, f)
  }

  function SeasonMentions(seasons: seq<Season>, f: WalkedFile): nat
    decreases |seasons|
  {
    if seasons == [] then 0
    else SeasonMentions(seasons[..|seasons| - 1], f) + Times(seasons[|seasons| - 1].sidecars, f)
  }

  /** How often an outcome mentions a file, in any role. */
  function Mentions(o: Outcome, f: WalkedFile): nat {
    MediaMentions(o.media, f) + SeasonMentions(o.seasons, f) + Times(o.sidecars, f)
  }

  predicate HasNumber(seasons: seq<Season>, number: int) {
    exists i :: 0 <= i < |seasons| && seasons[i].number == number
  }

  predicate Ordered(seasons: seq<Season>) {
    forall i, j :: 0 <= i < j < |seasons| ==> seasons[i].number < seasons[j].number
  }

  /** Each owner in the outcome carries exactly the files assigned to it. */
  ghost predicate Follows(assign: WalkedFile -> Owner, files: seq<WalkedFile>, o: Outcome) {
    && |o.media| == |Held(assign, files, Itself)|
    && (forall i :: 0 <= i < |o.media| ==>
          o.media[i] == MediaCandidate(Held(assign, files, Itself)[i], Held(assign, files, OfMedia(i))))
    && Ordered(o.seasons)
    && (forall i :: 0 <= i < |o.seasons| ==> o.seasons[i].sidecars == Held(assign, files, OfSeason(o.seasons[i].number)))
    && o.sidecars == Held(assign, files, OfDirectory)
  }

  /** A folder of the walk that is, or lies in, a season's folder. */
  predicate Declares(rules: Rules, entries: seq<Entry>, p: Path, number: int) {
    FolderEntry(p) in entries && DeclaresSeason(ContextOf(rules, p), number)
  }

  /** The seasons are exactly those a folder of the walk or a sidecar shows, each
      named by a folder that shows it, or by nothing when none does. */
  ghost predicate SeasonsShown(rules: Rules, entries: seq<Entry>, assign: WalkedFile -> Owner, files: seq<WalkedFile>,
                               o: Outcome)
  {
    && (forall n :: HasNumber(o.seasons, n) <==>
          (exists p :: Declares(rules, entries, p, n)) || (exists f :: f in files && assign(f) == OfSeason(n)))
    && (forall i :: 0 <= i < |o.seasons| ==> SeasonNamed(rules, entries, o.seasons[i]))
  }

  ghost predicate SeasonNamed(rules: Rules, entries: seq<Entry>, season: Season) {
    || (exists p :: Declares(rules, entries, p, season.number) && ContextOf(rules, p).seasonFolder == season.folderName)
    || (season.folderName == "" && forall p :: !Declares(rules, entries, p, season.number))
  }

  lemma {:induction false} HeldIsEmptyIff(assign: WalkedFile -> Owner, files: seq<WalkedFile>, owner: Owner)
    ensures Held(assign, files, owner) != [] <==> exists f :: f in files && assign(f) == owner
    decreases |files|
  {
    if files != [] {
      HeldIsEmptyIff(assign, files[..|files| - 1], owner);
      assert files == files[..|files| - 1] + [files[|files| - 1]];
    }
  }

  /** Every file's owner is one the outcome has. */
  predicate OwnersExist(assign: WalkedFile -> Owner, files: seq<WalkedFile>, o: Outcome) {
    forall f :: f in files ==>
      match assign(f)
      case OfMedia(i) => i < |o.media|
      case OfSeason(n) => HasNumber(o.seasons, n)
      case _ => true
  }

  lemma {:induction false} HeldCount(assign: WalkedFile -> Owner, files: seq<WalkedFile>, owner: Owner, f: WalkedFile)
    ensures Times(Held(assign, files, owner), f) == if assign(f) == owner then Times(files, f) else 0
    decreases |files|
  {
    if files != [] {
      var init, last := files[..|files| - 1], files[|files| - 1];
      HeldCount(assign, init, owner, f);
      assert files == init + [last];
      assert Held(assign, files, owner) == Held(assign, init, owner) + if assign(last) == owner then [last] else [];
    }
  }

  lemma {:induction false} MediaCount(assign: WalkedFile -> Owner, files: seq<WalkedFile>, media: seq<WalkedFile>,
                                      candidates: seq<MediaCandidate>, f: WalkedFile)
    requires |candidates| == |media|
    requires forall i :: 0 <= i < |media| ==> candidates[i] == MediaCandidate(media[i], Held(assign, files, OfMedia(i)))
    ensures MediaMentions(candidates, f) == Times(media, f) +
      if assign(f).OfMedia? && assign(f).index < |media| then Times(files, f) else 0
    decreases |media|
  {
    if media != [] {
      var n := |media| - 1;
      MediaCount(assign, files, media[..n], candidates[..n], f);
      HeldCount(assign, files, OfMedia(n), f);
      assert media == media[..n] + [media[n]];
    }
  }

  lemma {:induction false} SeasonsCount(assign: WalkedFile -> Owner, files: seq<WalkedFile>, seasons: seq<Season>,
                                        f: WalkedFile)
    requires Ordered(seasons)
    requires forall i :: 0 <= i < |seasons| ==> seasons[i].sidecars == Held(assign, files, OfSeason(seasons[i].number))
    ensures SeasonMentions(seasons, f) ==
      if assign(f).OfSeason? && HasNumber(seasons, assign(f).number) then Times(files, f) else 0
    decreases |seasons|
  {
    if seasons != [] {
      var n := |seasons| - 1;
      SeasonsCount(assign, files, seasons[..n], f);
      HeldCount(assign, files, OfSeason(seasons[n].number), f);
      if assign(f).OfSeason? {
        var number := assign(f).number;
        assert HasNumber(seasons[..n], number) ==> HasNumber(seasons, number) && number != seasons[n].number by {
          if i :| 0 <= i < n && seasons[..n][i].number == number {
            assert seasons[i].number == number;
          }
        }
        assert HasNumber(seasons, number) ==> number == seasons[n].number || HasNumber(seasons[..n], number) by {
          if i :| 0 <= i < |seasons| && seasons[i].number == number && i < n {
            assert seasons[..n][i].number == number;
          }
        }
      }
    }
  }

  /** The assembled result mentions every file of the walk as often as the walk
      did, and no other file. */
  lemma NothingLostNothingTwice(assign: WalkedFile -> Owner, files: seq<WalkedFile>, o: Outcome, f: WalkedFile)
    requires Follows(assign, files, o) && OwnersExist(assign, files, o)
    ensures Mentions(o, f) == Times(files, f)
  {
    MediaCount(assign, files, Held(assign, files, Itself), o.media, f);
    SeasonsCount(assign, files, o.seasons, f);
    HeldCount(assign, files, Itself, f);
    HeldCount(assign, files, OfDirectory, f);
    assert f !in files ==> Times(files, f) == 0;
  }

  lemma {:induction false} MediaAreHeldByThemselves(rules: Rules, kind: DirectoryType, media: seq<WalkedFile>,
                                                    files: seq<WalkedFile>)
    ensures Held(Assignment(rules, kind, media), files, Itself) == MediaIn(rules, files)
    decreases |files|
  {
    if files != [] {
      MediaAreHeldByThemselves(rules, kind, media, files[..|files| - 1]);
    }
  }

  lemma {:induction false} FilesAreDistinct(rules: Rules, entries: seq<Entry>)
    requires DistinctEntries(entries)
    ensures DistinctFiles(FilesOf(rules, entries))
    ensures forall f :: f in FilesOf(rules, entries) ==> exists i :: 0 <= i < |entries| && entries[i].path == f.path
    decreases |entries|
  {
    if entries != [] {
      var n := |entries| - 1;
      FilesAreDistinct(rules, entries[..n]);
      forall f | f in FilesOf(rules, entries) ensures exists i :: 0 <= i < |entries| && entries[i].path == f.path {
        if f in FilesOf(rules, entries[..n]) {
          var i :| 0 <= i < n && entries[..n][i].path == f.path;
          assert entries[i].path == f.path;
        } else {
          assert entries[n].path == f.path;
        }
      }
    }
  }

  lemma {:induction false} DistinctCount(files: seq<WalkedFile>, f: WalkedFile)
    requires DistinctFiles(files) && f in files
    ensures Times(files, f) == 1
    decreases |files|
  {
    var n := |files| - 1;
    assert files == files[..n] + [files[n]];
    if f == files[n] {
      assert f !in files[..n];
    } else {
      DistinctCount(files[..n], f);
    }
  }

  /** The result of a scan: each owner has what its rules give it, every walked
      file is mentioned exactly once and nothing else is mentioned at all. */
  ghost predicate Complete(assign: WalkedFile -> Owner, files: seq<WalkedFile>, o: Outcome) {
    && Follows(assign, files, o)
    && (forall f :: Mentions(o, f) == if f in files then 1 else 0)
  }

  lemma Completed(assign: WalkedFile -> Owner, files: seq<WalkedFile>, o: Outcome)
    requires Follows(assign, files, o) && OwnersExist(assign, files, o) && DistinctFiles(files)
    ensures Complete(assign, files, o)
  {
    forall f: WalkedFile ensures Mentions(o, f) == if f in files then 1 else 0 {
      NothingLostNothingTwice(assign, files, o, f);
      if f in files {
        DistinctCount(files, f);
      }
    }
  }

  /** The whole scan of one directory. */
  method Scan(rules: Rules, directoryType: DirectoryType, nodes: seq<Node>)
    returns (o: Outcome, warnings: seq<(Path, string)>)
    requires ProperTree(nodes)
    ensures var files := FilesOf(rules, Entries(rules, [], nodes));
            Complete(Assignment(rules, directoryType, MediaIn(rules, files)), files, o)
    ensures var files := FilesOf(rules, Entries(rules, [], nodes));
            SeasonsShown(rules, Entries(rules, [], nodes), Assignment(rules, directoryType, MediaIn(rules, files)), files, o)
    ensures forall i, j :: 0 <= i < j < |warnings| ==> warnings[i] != warnings[j]
  {
    var entries := Entries(rules, [], nodes);
    WalkIsParentsFirst(rules, [], nodes);
    WalkedPathsAreDistinct(rules, [], nodes);
    FilesAreDistinct(rules, entries);
    ghost var media := MediaIn(rules, FilesOf(rules, entries));
    MediaAreHeldByThemselves(rules, directoryType, media, FilesOf(rules, entries));
    var scanner := new DirectoryScanner(rules, directoryType);
    scanner.Walk(entries);
    o := scanner.Run(Assignment(rules, directoryType, media), media, entries);
    warnings := scanner.orphanWarnings;
  }
}

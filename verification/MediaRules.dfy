/** What a scan decides, said of the tree alone: which nodes the walk meets, what
    the names above a file mean for it, and whose sidecar it is. */
module MediaRules {
  import opened Options
  import opened MediaScan

  // ---------------------------------------------------------------------
  // The walk
  // ---------------------------------------------------------------------

  /** A node the walk keeps: not ignored, and for a file one that could be read. */
  predicate Visible(rules: Rules, node: Node) {
    match node
    case Folder(name, _) => !rules.ignoredFolder(name)
    case File(name, _, _, statOk) => !rules.ignoredFile(name) && statOk
  }

  /** The node stands at that path, and no folder on the way is ignored. */
  ghost predicate Meets(rules: Rules, nodes: seq<Node>, path: Path, node: Node)
    decreases |path|
  {
    path != [] &&
    exists i :: 0 <= i < |nodes| && nodes[i].name == path[0] && Visible(rules, nodes[i]) &&
      if |path| == 1 then nodes[i] == node
      else nodes[i].Folder? && Meets(rules, nodes[i].children, path[1..], node)
  }

  function EntryFor(path: Path, node: Node): Entry {
    match node
    case Folder(_, _) => FolderEntry(path)
    case File(_, baseName, kind, _) => FileEntry(path, baseName, kind)
  }

  lemma MeetsLater(rules: Rules, nodes: seq<Node>, path: Path, node: Node)
    requires nodes != [] && Meets(rules, nodes[1..], path, node)
    ensures Meets(rules, nodes, path, node)
  {
    var i :| 0 <= i < |nodes[1..]| && nodes[1..][i].name == path[0] && Visible(rules, nodes[1..][i]) &&
      if |path| == 1 then nodes[1..][i] == node
      else nodes[1..][i].Folder? && Meets(rules, nodes[1..][i].children, path[1..], node);
    assert nodes[i + 1] == nodes[1..][i];
  }

  // The paths of one node's entries go on from its own.
  lemma WalkedIsBelow(rules: Rules, at: Path, nodes: seq<Node>, e: Entry)
    requires e in Entries(rules, at, nodes)
    ensures |at| < |e.path| && e.path == at + e.path[|at|..]
  {
    EntriesAreBelow(rules, at, nodes, e);
    assert e.path == e.path[..|at|] + e.path[|at|..];
  }

  /** Whatever the walk hands over stands in the tree. */
  lemma {:induction false} WalkedIsMet(rules: Rules, at: Path, nodes: seq<Node>, e: Entry) returns (node: Node)
    requires e in Entries(rules, at, nodes)
    ensures |at| < |e.path| && e.path == at + e.path[|at|..]
    ensures Meets(rules, nodes, e.path[|at|..], node) && e == EntryFor(e.path, node)
    decreases nodes
  {
    WalkedIsBelow(rules, at, nodes, e);
    if e in Entries(rules, at, nodes[1..]) {
      node := WalkedIsMet(rules, at, nodes[1..], e);
      MeetsLater(rules, nodes, e.path[|at|..], node);
    } else if nodes[0].File? || e == FolderEntry(at + [nodes[0].name]) {
      node := nodes[0];
      assert e.path[|at|..] == [node.name];
    } else {
      var name, inner := nodes[0].name, at + [nodes[0].name];
      node := WalkedIsMet(rules, inner, nodes[0].children, e);
      assert e.path[|at|..] == [name] + e.path[|inner|..];
      assert e.path[|at|..][1..] == e.path[|inner|..];
    }
  }

  lemma LaterIsWalked(rules: Rules, at: Path, nodes: seq<Node>, i: nat, e: Entry)
    requires i < |nodes| && e in Entries(rules, at, [nodes[i]])
    ensures e in Entries(rules, at, nodes)
    decreases i
  {
    assert [nodes[i]][1..] == [] && Entries(rules, at, []) == [];
    if i > 0 {
      LaterIsWalked(rules, at, nodes[1..], i - 1, e);
    }
  }

  /** And whatever stands in the tree the walk hands over. */
  lemma {:induction false} MetIsWalked(rules: Rules, at: Path, nodes: seq<Node>, path: Path, node: Node)
    requires Meets(rules, nodes, path, node)
    ensures EntryFor(at + path, node) in Entries(rules, at, nodes)
    decreases |path|
  {
    var i :| 0 <= i < |nodes| && nodes[i].name == path[0] && Visible(rules, nodes[i]) &&
      if |path| == 1 then nodes[i] == node
      else nodes[i].Folder? && Meets(rules, nodes[i].children, path[1..], node);
    var e := EntryFor(at + path, node);
    assert [nodes[i]][1..] == [] && Entries(rules, at, [nodes[i]][1..]) == [];
    if |path| == 1 {
      assert path == [nodes[i].name];
    } else {
      var inner := at + [path[0]];
      MetIsWalked(rules, inner, nodes[i].children, path[1..], node);
      assert inner + path[1..] == at + path;
    }
    assert e in Entries(rules, at, [nodes[i]]);
    LaterIsWalked(rules, at, nodes, i, e);
  }

  /** The walk hands over exactly the visible nodes no ignored folder hides. */
  lemma WalkIsTheTree(rules: Rules, nodes: seq<Node>, e: Entry)
    ensures e in Entries(rules, [], nodes) <==> exists node :: Meets(rules, nodes, e.path, node) && e == EntryFor(e.path, node)
  {
    if e in Entries(rules, [], nodes) {
      var node := WalkedIsMet(rules, [], nodes, e);
      assert e.path[0..] == e.path;
    }
    if node :| Meets(rules, nodes, e.path, node) && e == EntryFor(e.path, node) {
      MetIsWalked(rules, [], nodes, e.path, node);
      assert [] + e.path == e.path;
    }
  }

  // ---------------------------------------------------------------------
  // What the names above a file mean
  // ---------------------------------------------------------------------

  predicate IsExtras(rules: Rules, name: string) {
    rules.extrasFolder(name).Some? && rules.extrasFolder(name).value != ""
  }

  // One folder's layer, field by field; its own name is the last of its path.
  lemma OneDiscLayer(rules: Rules, path: Path)
    requires path != []
    ensures ContextOf(rules, path).isDiscFolder <==>
      ContextOf(rules, path[..|path| - 1]).isDiscFolder || rules.discFolder(path[|path| - 1])
  {
  }

  lemma OneExtrasLayer(rules: Rules, path: Path)
    requires path != []
    ensures var before, name := ContextOf(rules, path[..|path| - 1]).extraType, path[|path| - 1];
            ContextOf(rules, path).extraType ==
              if before == "" && IsExtras(rules, name) then rules.extrasFolder(name).value else before
  {
    var inherited := ContextOf(rules, path[..|path| - 1]);
    assert ContextOf(rules, path) == Layer(rules, inherited, path);
    hide ContextOf;
    LayerExtras(rules, inherited, path);
  }

  lemma LayerExtras(rules: Rules, c: FolderContext, path: Path)
    requires path != []
    ensures Layer(rules, c, path).extraType ==
      if c.extraType == "" && IsExtras(rules, path[|path| - 1]) then rules.extrasFolder(path[|path| - 1]).value
      else c.extraType
  {
    if c.extraType == "" {
      assert rules.extrasFolder(path[|path| - 1]).Some? ==>
        Layer(rules, c, path).extraType == rules.extrasFolder(path[|path| - 1]).value;
    }
  }

  lemma OneSeasonLayer(rules: Rules, path: Path)
    requires path != []
    ensures var before, after := ContextOf(rules, path[..|path| - 1]), ContextOf(rules, path);
            var name := path[|path| - 1];
            (after.seasonNumber, after.seasonFolder) ==
              if before.seasonNumber.None? && rules.seasonFolder(name).Some? then (rules.seasonFolder(name), name)
              else (before.seasonNumber, before.seasonFolder)
  {
    var inherited := ContextOf(rules, path[..|path| - 1]);
    assert ContextOf(rules, path) == Layer(rules, inherited, path);
    hide ContextOf;
    LayerSeason(rules, inherited, path);
  }

  lemma LayerSeason(rules: Rules, c: FolderContext, path: Path)
    requires path != []
    ensures var after, name := Layer(rules, c, path), path[|path| - 1];
            (after.seasonNumber, after.seasonFolder) ==
              if c.seasonNumber.None? && rules.seasonFolder(name).Some? then (rules.seasonFolder(name), name)
              else (c.seasonNumber, c.seasonFolder)
  {
  }

  lemma OneTrickplayLayer(rules: Rules, path: Path)
    requires path != []
    ensures var n := |path| - 1;
            var before, after := ContextOf(rules, path[..n]).trickplay, ContextOf(rules, path).trickplay;
            && (rules.trickplayFolder(path[n]).Some? ==>
                  after == Some(Trickplay(path[..n], rules.trickplayFolder(path[n]).value, 0, 0, 0)))
            && (rules.trickplayFolder(path[n]).None? && before.None? ==> after.None?)
            && (rules.trickplayFolder(path[n]).None? && before.Some? ==>
                  if before.value.width != 0 || rules.resolutionFolder(path[n]).None? then after == before
                  else
                    var (w, tw, th) := rules.resolutionFolder(path[n]).value;
                    after == Some(Trickplay(before.value.ownerFolder, before.value.baseName, w, tw, th)))
  {
  }

  /** Inside a disc folder is any path with one among its names. */
  lemma {:induction false} DiscFoldersMark(rules: Rules, path: Path)
    ensures ContextOf(rules, path).isDiscFolder <==> exists i :: 0 <= i < |path| && rules.discFolder(path[i])
    decreases |path|
  {
    if path != [] {
      hide Layer;
      var n := |path| - 1;
      OneDiscLayer(rules, path);
      DiscFoldersMark(rules, path[..n]);
      assert forall i :: 0 <= i < n ==> path[..n][i] == path[i];
    }
  }

  /** The outermost extras folder names the kind of extra. */
  lemma {:induction false} OutermostExtrasDecide(rules: Rules, path: Path, i: nat)
    ensures (forall j :: 0 <= j < |path| ==> !IsExtras(rules, path[j])) ==> ContextOf(rules, path).extraType == ""
    ensures i < |path| && IsExtras(rules, path[i]) && (forall j :: 0 <= j < i ==> !IsExtras(rules, path[j])) ==>
      ContextOf(rules, path).extraType == rules.extrasFolder(path[i]).value
    decreases |path|
  {
    if path != [] {
      hide Layer;
      var n := |path| - 1;
      OneExtrasLayer(rules, path);
      OutermostExtrasDecide(rules, path[..n], i);
      assert forall j :: 0 <= j < n ==> path[..n][j] == path[j];
    }
  }

  /** The outermost season folder gives the number and its own name. */
  lemma {:induction false} OutermostSeasonDecides(rules: Rules, path: Path, i: nat)
    ensures (forall j :: 0 <= j < |path| ==> rules.seasonFolder(path[j]).None?) ==>
      ContextOf(rules, path).seasonNumber == None && ContextOf(rules, path).seasonFolder == ""
    ensures i < |path| && rules.seasonFolder(path[i]).Some? && (forall j :: 0 <= j < i ==> rules.seasonFolder(path[j]).None?) ==>
      ContextOf(rules, path).seasonNumber == rules.seasonFolder(path[i]) && ContextOf(rules, path).seasonFolder == path[i]
    decreases |path|
  {
    if path != [] {
      hide Layer;
      var n := |path| - 1;
      OneSeasonLayer(rules, path);
      OutermostSeasonDecides(rules, path[..n], i);
      assert forall j :: 0 <= j < n ==> path[..n][j] == path[j];
    }
  }

  predicate InnermostTrickplay(rules: Rules, path: Path, i: nat) {
    i < |path| && rules.trickplayFolder(path[i]).Some? &&
    forall j :: i < j < |path| ==> rules.trickplayFolder(path[j]).None?
  }

  predicate Sized(rules: Rules, name: string) {
    rules.resolutionFolder(name).Some? && rules.resolutionFolder(name).value.0 != 0
  }

  /** The innermost trickplay folder names the video, the folder it stands in, and
      the first folder below it that gives a width gives the tile sizes. */
  lemma {:induction false} InnermostTrickplayDecides(rules: Rules, path: Path, i: nat, r: nat)
    ensures (forall j :: 0 <= j < |path| ==> rules.trickplayFolder(path[j]).None?) ==> ContextOf(rules, path).trickplay.None?
    ensures InnermostTrickplay(rules, path, i) ==>
      var t := ContextOf(rules, path).trickplay;
      && t.Some? && t.value.ownerFolder == path[..i] && t.value.baseName == rules.trickplayFolder(path[i]).value
      && ((forall j :: i < j < |path| ==> !Sized(rules, path[j])) ==> t.value.width == 0)
      && ((forall j :: i < j < |path| ==> rules.resolutionFolder(path[j]).None?) ==>
            t.value.tileWidth == 0 && t.value.tileHeight == 0)
      && (i < r < |path| && Sized(rules, path[r]) && (forall j :: i < j < r ==> !Sized(rules, path[j])) ==>
            (t.value.width, t.value.tileWidth, t.value.tileHeight) == rules.resolutionFolder(path[r]).value)
    decreases |path|
  {
    if path != [] {
      hide Layer;
      var n := |path| - 1;
      OneTrickplayLayer(rules, path);
      InnermostTrickplayDecides(rules, path[..n], i, r);
      assert forall j :: 0 <= j < n ==> path[..n][j] == path[j];
      assert i <= n ==> path[..n][..i] == path[..i];
    }
  }

  // ---------------------------------------------------------------------
  // Which files are played
  // ---------------------------------------------------------------------

  /** A video nothing keeps from being played: no extras suffix of its own, and
      neither a disc nor an extras folder above it. */
  predicate Playable(rules: Rules, path: Path, node: Node) {
    && node.File? && node.kind == Video && !rules.extrasSuffix(node.baseName)
    && forall i :: 0 <= i < |path| - 1 ==> !rules.discFolder(path[i]) && !IsExtras(rules, path[i])
  }

  ghost predicate PlayableAt(rules: Rules, nodes: seq<Node>, path: Path) {
    exists node :: Meets(rules, nodes, path, node) && Playable(rules, path, node)
  }

  lemma {:induction false} FilesAreEntries(rules: Rules, entries: seq<Entry>, f: WalkedFile)
    ensures f in FilesOf(rules, entries) <==>
      FileEntry(f.path, f.baseName, f.kind) in entries && f.context == ContextOf(rules, Parent(f.path))
    decreases |entries|
  {
    hide ContextOf;
    if entries != [] {
      var n := |entries| - 1;
      FilesAreEntries(rules, entries[..n], f);
      assert entries == entries[..n] + [entries[n]];
    }
  }

  lemma ContextAllows(rules: Rules, path: Path)
    requires path != []
    ensures var c := ContextOf(rules, Parent(path));
            !c.isDiscFolder && c.extraType == "" <==>
              forall i :: 0 <= i < |path| - 1 ==> !rules.discFolder(path[i]) && !IsExtras(rules, path[i])
  {
    hide ContextOf;
    var above := Parent(path);
    assert forall i :: 0 <= i < |above| ==> above[i] == path[i];
    DiscFoldersMark(rules, above);
    OutermostExtrasDecide(rules, above, 0);
    if i :| 0 <= i < |above| && IsExtras(rules, above[i]) {
      var k := FirstExtras(rules, above, i);
      OutermostExtrasDecide(rules, above, k);
    }
  }

  lemma {:induction false} FirstExtras(rules: Rules, path: Path, i: nat) returns (k: nat)
    requires i < |path| && IsExtras(rules, path[i])
    ensures k < |path| && IsExtras(rules, path[k]) && forall j :: 0 <= j < k ==> !IsExtras(rules, path[j])
    decreases i
  {
    k := i;
    if j :| 0 <= j < i && IsExtras(rules, path[j]) {
      k := FirstExtras(rules, path, j);
    }
  }

  /** The media files of a walk are the playable videos of its tree. */
  lemma MediaArePlayable(rules: Rules, nodes: seq<Node>, path: Path)
    ensures PlayableAt(rules, nodes, path) <==>
      exists f :: f in MediaIn(rules, FilesOf(rules, Entries(rules, [], nodes))) && f.path == path
  {
    var entries := Entries(rules, [], nodes);
    var files := FilesOf(rules, entries);
    hide FilesOf, Entries, MediaIn, ContextOf, Meets;
    MediaAreFiles(rules, files);
    if f :| f in MediaIn(rules, files) && f.path == path {
      FilesAreEntries(rules, entries, f);
      var node := WalkedIsMet(rules, [], nodes, FileEntry(path, f.baseName, f.kind));
      assert path[0..] == path;
      ContextAllows(rules, path);
    }
    if node :| Meets(rules, nodes, path, node) && Playable(rules, path, node) {
      assert path != [] by { assert Meets(rules, nodes, path, node); NoEmptyPath(rules, nodes, path, node); }
      MetIsWalked(rules, [], nodes, path, node);
      assert [] + path == path;
      ContextAllows(rules, path);
      var f := WalkedFile(path, node.baseName, node.kind, ContextOf(rules, Parent(path)));
      FilesAreEntries(rules, entries, f);
    }
  }

  lemma NoEmptyPath(rules: Rules, nodes: seq<Node>, path: Path, node: Node)
    requires Meets(rules, nodes, path, node)
    ensures path != []
  {
  }

  /** A finished scan records exactly the playable videos of the tree as media. */
  lemma ScanFindsThePlayable(rules: Rules, kind: DirectoryType, nodes: seq<Node>, o: Outcome, path: Path)
    requires var files := FilesOf(rules, Entries(rules, [], nodes));
             Complete(Assignment(rules, kind, MediaIn(rules, files)), files, o)
    ensures PlayableAt(rules, nodes, path) <==> exists i :: 0 <= i < |o.media| && o.media[i].file.path == path
  {
    var files := FilesOf(rules, Entries(rules, [], nodes));
    var media := MediaIn(rules, files);
    MediaAreHeldByThemselves(rules, kind, media, files);
    MediaArePlayable(rules, nodes, path);
    hide FilesOf, Entries, MediaIn, Held, Assignment, PlayableAt;
    assert |o.media| == |media| && forall i :: 0 <= i < |media| ==> o.media[i].file == media[i];
    if f :| f in media && f.path == path {
      var i :| 0 <= i < |media| && media[i] == f;
      assert o.media[i].file.path == path;
    }
  }

  // ---------------------------------------------------------------------
  // Whose sidecar a file is
  // ---------------------------------------------------------------------

  predicate BearsName(media: seq<WalkedFile>, folder: Path, baseName: string, i: nat)
    requires i < |media|
  {
    Parent(media[i].path) == folder && media[i].baseName == baseName
  }

  /** The last media file of that name in that folder. */
  predicate LastBearing(media: seq<WalkedFile>, folder: Path, baseName: string, i: nat) {
    i < |media| && BearsName(media, folder, baseName, i) &&
    forall j :: i < j < |media| ==> !BearsName(media, folder, baseName, j)
  }

  lemma {:induction false} LastNamedIsLast(media: seq<WalkedFile>, folder: Path, baseName: string, i: nat)
    ensures LastNamed(media, folder, baseName) == Some(i) <==> LastBearing(media, folder, baseName, i)
    decreases |media|
  {
    if media != [] {
      var last := |media| - 1;
      LastNamedIsLast(media[..last], folder, baseName, i);
      assert forall j :: 0 <= j < last ==> media[..last][j] == media[j];
      assert i < last ==> (LastBearing(media[..last], folder, baseName, i) && !BearsName(media, folder, baseName, last)
                           <==> LastBearing(media, folder, baseName, i)) by {
        assert i < last ==> BearsName(media[..last], folder, baseName, i) == BearsName(media, folder, baseName, i);
        assert forall j :: 0 <= j < last ==> BearsName(media[..last], folder, baseName, j) == BearsName(media, folder, baseName, j);
      }
    }
  }

  /** The video a trickplay folder above the file belongs to. */
  predicate Previews(media: seq<WalkedFile>, f: WalkedFile, i: nat) {
    f.context.trickplay.Some? &&
    LastBearing(media, f.context.trickplay.value.ownerFolder, f.context.trickplay.value.baseName, i)
  }

  /** A video of the file's folder whose non-empty name starts the file's name. */
  predicate Heads(media: seq<WalkedFile>, f: WalkedFile, i: nat)
    requires i < |media|
  {
    Parent(media[i].path) == Parent(f.path) && media[i].baseName != "" && media[i].baseName <= f.baseName
  }

  /** The longest-named of those, the last of them when names agree. */
  predicate Leads(media: seq<WalkedFile>, f: WalkedFile, i: nat) {
    i < |media| && Heads(media, f, i) &&
    forall j :: 0 <= j < |media| && Heads(media, f, j) ==>
      |media[j].baseName| < |media[i].baseName| || (media[j].baseName == media[i].baseName && j <= i)
  }

  ghost predicate Previewed(media: seq<WalkedFile>, f: WalkedFile) {
    exists i: nat :: Previews(media, f, i)
  }

  ghost predicate Headed(media: seq<WalkedFile>, f: WalkedFile) {
    exists i :: 0 <= i < |media| && Heads(media, f, i)
  }

  /** Who gets a sidecar, in the order the rules are asked: the video it previews,
      the video its name follows, the season its own name says in a series, the
      season of its folder, and else the directory. */
  ghost predicate Owns(rules: Rules, kind: DirectoryType, media: seq<WalkedFile>, f: WalkedFile, o: Owner) {
    var named := if kind == TV then rules.seasonArtwork(f.baseName) else None;
    match o
    case Itself => false
    case OfMedia(i) => Previews(media, f, i) || (!Previewed(media, f) && Leads(media, f, i))
    case OfSeason(n) =>
      && !Previewed(media, f) && !Headed(media, f)
      && (named == Some(n) || (named.None? && f.context.seasonNumber == Some(n)))
    case OfDirectory =>
      !Previewed(media, f) && !Headed(media, f) && named.None? && f.context.seasonNumber.None?
  }

  lemma PreviewedIff(media: seq<WalkedFile>, f: WalkedFile, i: nat)
    requires f.context.trickplay.Some?
    ensures var t := f.context.trickplay.value;
            var found := LastNamed(media, t.ownerFolder, t.baseName);
            && (Previews(media, f, i) <==> found == Some(i))
            && (Previewed(media, f) <==> found.Some?)
  {
    hide LastNamed, LastBearing;
    var t := f.context.trickplay.value;
    forall j: nat ensures LastNamed(media, t.ownerFolder, t.baseName) == Some(j) <==> Previews(media, f, j) {
      LastNamedIsLast(media, t.ownerFolder, t.baseName, j);
    }
    var found := LastNamed(media, t.ownerFolder, t.baseName);
    assert found.Some? ==> Previews(media, f, found.value);
  }

  lemma HeadedIff(media: seq<WalkedFile>, f: WalkedFile)
    ensures var longest := LongestPrefix(BaseNames(media, Parent(f.path)), f.baseName, |f.baseName|);
            && (longest.Some? <==> Headed(media, f))
            && (longest.Some? ==> longest.value in BaseNames(media, Parent(f.path)))
            && forall i: nat :: Leads(media, f, i) <==>
                 longest.Some? && LastBearing(media, Parent(f.path), longest.value, i)
  {
    var folder := Parent(f.path);
    var keys := BaseNames(media, folder);
    var longest := LongestPrefix(keys, f.baseName, |f.baseName|);
    forall j | 0 <= j < |media| && Heads(media, f, j)
      ensures longest.Some? && media[j].baseName in keys && |media[j].baseName| <= |longest.value|
      ensures |media[j].baseName| == |longest.value| ==> media[j].baseName == longest.value {
      assert media[j].baseName in keys;
      assert media[j].baseName == f.baseName[..|media[j].baseName|];
      assert longest.value == f.baseName[..|longest.value|];
    }
    if longest.Some? {
      var j :| 0 <= j < |media| && Parent(media[j].path) == folder && media[j].baseName == longest.value;
      assert Heads(media, f, j);
      forall i: nat ensures Leads(media, f, i) <==> LastBearing(media, folder, longest.value, i) {
        LeadsIsLast(media, f, longest.value, j, i);
      }
    }
  }

  // With one longest name among the heads, leading is being its last bearer.
  lemma LeadsIsLast(media: seq<WalkedFile>, f: WalkedFile, longest: string, j: nat, i: nat)
    requires j < |media| && Heads(media, f, j) && media[j].baseName == longest
    requires forall k :: 0 <= k < |media| && Heads(media, f, k) ==>
      |media[k].baseName| < |longest| || media[k].baseName == longest
    ensures Leads(media, f, i) <==> LastBearing(media, Parent(f.path), longest, i)
  {
    assert forall k :: 0 <= k < |media| && BearsName(media, Parent(f.path), longest, k) ==> Heads(media, f, k);
    if LastBearing(media, Parent(f.path), longest, i) {
      forall k | 0 <= k < |media| && Heads(media, f, k)
        ensures |media[k].baseName| < |longest| || (media[k].baseName == longest && k <= i) {
        assert media[k].baseName == longest ==> BearsName(media, Parent(f.path), longest, k);
      }
    }
    if Leads(media, f, i) {
      assert media[i].baseName == longest;
    }
  }

  /** The owner the scanner finds is exactly the one those rules name. */
  lemma OwnerExactly(rules: Rules, kind: DirectoryType, media: seq<WalkedFile>, f: WalkedFile, o: Owner)
    ensures OwnerOf(rules, kind, media, f) == o <==> Owns(rules, kind, media, f, o)
  {
    hide LastNamed, LongestPrefix, BaseNames, Headed, Previews, Leads, LastBearing;
    var i := if o.OfMedia? then o.index else 0;
    if f.context.trickplay.Some? {
      PreviewedIff(media, f, i);
    } else {
      NotPreviewed(media, f);
    }
    hide Previewed;
    HeadedIff(media, f);
    var folder := Parent(f.path);
    var longest := LongestPrefix(BaseNames(media, folder), f.baseName, |f.baseName|);
    if longest.Some? {
      NamedIsFound(media, folder, longest.value);
      LastNamedIsLast(media, folder, longest.value, i);
    }
  }

  lemma NotPreviewed(media: seq<WalkedFile>, f: WalkedFile)
    requires f.context.trickplay.None?
    ensures !Previewed(media, f) && forall i: nat :: !Previews(media, f, i)
  {
  }
}

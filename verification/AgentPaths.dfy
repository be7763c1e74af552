/** Paths crossing machines: the server's translation of what an agent reports,
    the reverse lookup of a stored directory, and the agent's containment check. */
module AgentPaths {
  import opened Options
  import opened GoPath
  import opened ConfigModel

  // ---------------------------------------------------------------------
  // The translator
  // ---------------------------------------------------------------------

  /** Backslashes become slashes on every agent path, whatever the agent runs. */
  function Slashed(p: string): (s: string)
    ensures |s| == |p| && forall i :: 0 <= i < |p| ==> s[i] == if p[i] == '\\' then '/' else p[i]
  {
    seq(|p|, i requires 0 <= i < |p| => if p[i] == '\\' then '/' else p[i])
  }

  function NormalizeAgentPath(p: string): string {
    var cleaned := Clean(Slashed(p));
    if cleaned[|cleaned| - 1] == '/' then cleaned[..|cleaned| - 1] else cleaned
  }

  // strings.EqualFold, on ASCII letters.
  function Fold(c: char): char {
    if 'A' <= c <= 'Z' then c - 'A' + 'a' else c
  }

  function FoldAll(s: string): (r: string)
    ensures |r| == |s| && forall i :: 0 <= i < |s| ==> r[i] == Fold(s[i])
  {
    seq(|s|, i requires 0 <= i < |s| => Fold(s[i]))
  }

  /** Comparing folded is comparing letters whatever their case, and nothing else
      alike. */
  lemma FoldingIgnoresCase(a: string, b: string)
    ensures FoldAll(a) == FoldAll(b) <==> |a| == |b| && forall i :: 0 <= i < |a| ==> SameLetter(a[i], b[i])
  {
    if |a| == |b| {
      forall i | 0 <= i < |a| ensures SameLetter(a[i], b[i]) <==> FoldAll(a)[i] == FoldAll(b)[i] {
      }
    }
  }

  predicate SameLetter(c: char, d: char) {
    c == d || ('A' <= c <= 'Z' && d as int == c as int + 32) || ('A' <= d <= 'Z' && c as int == d as int + 32)
  }

  /** A drive letter or a UNC share, the two shapes a Windows root takes. */
  predicate LooksWindows(root: string) {
    || (|root| >= 2 && 'a' <= Fold(root[0]) <= 'z' && root[1] == ':')
    || "\\\\" <= root
    || '\\' in root
  }

  datatype PathTranslator = PathTranslator(agentRoot: string, serverRoot: string, agentIsWindows: bool) {

    // The form two paths are compared in.
    function Comparable(s: string): string {
      if agentIsWindows then FoldAll(s) else s
    }

    predicate Equal(a: string, b: string) {
      Comparable(a) == Comparable(b)
    }

    predicate HasPrefix(value: string, prefix: string) {
      |prefix| <= |value| && Equal(value[..|prefix|], prefix)
    }

    function Path(agentPath: string): Result<string, string> {
      var cleaned := NormalizeAgentPath(agentPath);
      if Equal(cleaned, agentRoot) then Ok(serverRoot)
      else
        var prefix := agentRoot + "/";
        if !HasPrefix(cleaned, prefix) then Err("not under the agent's library root")
        else Ok(Join(serverRoot, cleaned[|prefix|..]))
    }
  }

  function NewPathTranslator(agentRoot: string, serverRoot: string): PathTranslator {
    PathTranslator(NormalizeAgentPath(agentRoot), Clean(serverRoot), LooksWindows(agentRoot))
  }

  // ---------------------------------------------------------------------
  // The translator, read over segments
  // ---------------------------------------------------------------------

  /** The segments of a normalised agent path, the empty one in front standing
      for the root slash. */
  function Components(p: Segmented): (c: seq<string>)
    ensures |c| > 0
  {
    if p.rooted then [""] + p.segments
    else if p.segments == [] then ["."]
    else p.segments
  }

  function AgentComponents(p: string): (c: seq<string>)
    ensures |c| > 0 && AllSlashFree(c)
  {
    Components(Parse(Slashed(p)))
  }

  function FoldSegments(segments: seq<string>): (r: seq<string>)
    ensures |r| == |segments| && forall i :: 0 <= i < |r| ==> r[i] == FoldAll(segments[i])
  {
    seq(|segments|, i requires 0 <= i < |segments| => FoldAll(segments[i]))
  }

  function ComparableSegments(windows: bool, segments: seq<string>): (r: seq<string>)
    ensures |r| == |segments|
  {
    if windows then FoldSegments(segments) else segments
  }

  lemma {:induction false} FoldJoin(segments: seq<string>)
    requires |segments| > 0
    ensures FoldAll(JoinSegments(segments)) == JoinSegments(FoldSegments(segments))
    decreases |segments|
  {
    if |segments| > 1 {
      FoldJoin(segments[1..]);
      assert FoldSegments(segments)[1..] == FoldSegments(segments[1..]);
      FoldConcat(segments[0], "/" + JoinSegments(segments[1..]));
      FoldConcat("/", JoinSegments(segments[1..]));
      assert segments[0] + "/" + JoinSegments(segments[1..]) == segments[0] + ("/" + JoinSegments(segments[1..]));
    }
  }

  lemma FoldConcat(a: string, b: string)
    ensures FoldAll(a + b) == FoldAll(a) + FoldAll(b)
    ensures FoldAll("/") == "/"
  {
  }

  lemma FoldKeepsSlashFree(segments: seq<string>)
    requires AllSlashFree(segments)
    ensures AllSlashFree(FoldSegments(segments))
  {
    forall i | 0 <= i < |segments| ensures SlashFree(FoldAll(segments[i])) {
      assert SlashFree(segments[i]);
      assert forall c: char :: Fold(c) == '/' ==> c == '/';
      assert forall k :: 0 <= k < |segments[i]| ==> segments[i][k] in segments[i];
    }
  }

  lemma ComparableFacts(windows: bool, segments: seq<string>)
    requires |segments| > 0 && AllSlashFree(segments)
    ensures AllSlashFree(ComparableSegments(windows, segments))
    ensures PathTranslator("", "", windows).Comparable(JoinSegments(segments)) ==
              JoinSegments(ComparableSegments(windows, segments))
    ensures |JoinSegments(ComparableSegments(windows, segments))| == |JoinSegments(segments)|
  {
    if windows {
      FoldKeepsSlashFree(segments);
      FoldJoin(segments);
    }
  }

  /** A normalised agent path is its components joined: the root slash is kept
      in front and never left at the end. */
  lemma NormalizedForm(p: string)
    ensures NormalizeAgentPath(p) == JoinSegments(AgentComponents(p))
  {
    var q := Parse(Slashed(p));
    if q.segments != [] {
      LastLetter(q.segments, q.rooted);
      if q.rooted {
        assert ([""] + q.segments)[1..] == q.segments;
      }
    }
  }

  lemma {:induction false} LastLetter(segments: seq<string>, rooted: bool)
    requires |segments| > 0 && forall i :: 0 <= i < |segments| ==> Kept(segments[i], rooted)
    ensures var s := JoinSegments(segments); s != "" && s[|s| - 1] != '/'
    decreases |segments|
  {
    assert Kept(segments[0], rooted);
    if |segments| > 1 {
      LastLetter(segments[1..], rooted);
    } else {
      var s := segments[0];
      assert s[|s| - 1] in s;
    }
  }

  /** Roots below which ".." cannot reappear: every absolute one, every drive. */
  predicate Anchored(root: string) {
    var p := Parse(Slashed(root));
    p.segments == [] || p.segments[|p.segments| - 1] != ".."
  }

  /** Whether a path sits at or under a root, segment by segment; case is folded
      only here, on a Windows agent. */
  predicate UnderRoot(root: string, p: string) {
    var windows := LooksWindows(root);
    ComparableSegments(windows, AgentComponents(root)) <= ComparableSegments(windows, AgentComponents(p))
  }

  /** The part of an agent path below the root, letter case untouched. */
  function Remainder(root: string, p: string): seq<string>
    requires UnderRoot(root, p)
  {
    AgentComponents(p)[|AgentComponents(root)|..]
  }

  // What lies below a root are names, or ".." when the path is a relative one.
  lemma RemainderIsKept(root: string, p: string)
    requires UnderRoot(root, p)
    ensures AllSlashFree(Remainder(root, p))
    ensures forall i :: 0 <= i < |Remainder(root, p)| ==> Kept(Remainder(root, p)[i], false)
  {
    var q := Parse(Slashed(p));
    var cp, k := AgentComponents(p), |AgentComponents(root)|;
    forall i | k <= i < |cp| ensures Kept(cp[i], false) {
      assert Kept(q.segments[if q.rooted then i - 1 else i], q.rooted);
    }
  }

  /** Below an anchored root there are only names. */
  lemma RemainderIsPlain(root: string, p: string)
    requires Anchored(root) && UnderRoot(root, p)
    ensures AllPlain(Remainder(root, p))
  {
    var r, q := Parse(Slashed(root)), Parse(Slashed(p));
    var cr, cp := AgentComponents(root), AgentComponents(p);
    var windows := LooksWindows(root);
    var k := |cr|;
    assert SameShape(cr, cp[..k]) by {
      forall i | 0 <= i < k ensures |cr[i]| == |cp[i]| && (cr[i] == "." || cr[i] == ".." || cr[i] == "" ==> cp[i] == cr[i])
          && (cp[i] == "." || cp[i] == ".." || cp[i] == "" ==> cp[i] == cr[i]) {
        assert ComparableSegments(windows, cr)[i] == ComparableSegments(windows, cp)[i];
        FoldKeepsDots(cr[i], cp[i]);
      }
    }
    assert cr[k - 1] != "..";
    assert cp[..k][k - 1] != "..";
    forall i | k <= i < |cp| ensures Plain(cp[i]) {
      var at := if q.rooted then i - 1 else i;
      assert q.segments != [] && cp[i] == q.segments[at];
      assert Kept(q.segments[at], q.rooted);
      DotsAllTheWay(q, at);
    }
  }

  predicate SameShape(a: seq<string>, b: seq<string>) {
    |a| == |b| &&
    forall i :: 0 <= i < |a| ==>
      |a[i]| == |b[i]| && (a[i] == "." || a[i] == ".." || a[i] == "" ==> b[i] == a[i])
      && (b[i] == "." || b[i] == ".." || b[i] == "" ==> b[i] == a[i])
  }

  lemma FoldKeepsDots(a: string, b: string)
    ensures FoldAll(a) == FoldAll(b) ==> |a| == |b|
    ensures FoldAll(a) == FoldAll(b) && (a == "." || a == ".." || a == "") ==> a == b
    ensures FoldAll(a) == FoldAll(b) && (b == "." || b == ".." || b == "") ==> a == b
  {
    assert forall c: char :: Fold(c) == '.' <==> c == '.';
    if FoldAll(a) == FoldAll(b) {
      assert |FoldAll(a)| == |FoldAll(b)|;
      assert forall i :: 0 <= i < |a| ==> FoldAll(a)[i] == FoldAll(b)[i] && Fold(a[i]) == Fold(b[i]);
    }
  }

  lemma {:induction false} DotsAllTheWay(p: Segmented, at: nat)
    requires Normal(p) && at < |p.segments|
    ensures p.segments[at] == ".." ==> !p.rooted && forall i :: 0 <= i <= at ==> p.segments[i] == ".."
    decreases at
  {
    assert Kept(p.segments[at], p.rooted);
    if at > 0 {
      DotsAllTheWay(p, at - 1);
    }
  }

  // Both sides of the string test, in comparable form.
  lemma ComparedForms(root: string, serverRoot: string, p: string)
    ensures var t := NewPathTranslator(root, serverRoot);
            var fr := ComparableSegments(t.agentIsWindows, AgentComponents(root));
            var fp := ComparableSegments(t.agentIsWindows, AgentComponents(p));
            && AllSlashFree(fr) && AllSlashFree(fp)
            && t.Comparable(t.agentRoot) == JoinSegments(fr)
            && t.Comparable(t.agentRoot + "/") == JoinSegments(fr) + "/"
            && t.Comparable(NormalizeAgentPath(p)) == JoinSegments(fp)
            && |t.agentRoot| == |JoinSegments(fr)|
  {
    var t := NewPathTranslator(root, serverRoot);
    NormalizedForm(root);
    NormalizedForm(p);
    ComparableFacts(t.agentIsWindows, AgentComponents(root));
    ComparableFacts(t.agentIsWindows, AgentComponents(p));
    FoldConcat(t.agentRoot, "/");
  }

  /** The string test with the trailing slash is the segment test. */
  lemma PrefixIsSegmentPrefix(root: string, serverRoot: string, p: string)
    ensures var t := NewPathTranslator(root, serverRoot);
            var cleaned := NormalizeAgentPath(p);
            && (t.Equal(cleaned, t.agentRoot) || t.HasPrefix(cleaned, t.agentRoot + "/") <==> UnderRoot(root, p))
            && (t.Equal(cleaned, t.agentRoot) <==> UnderRoot(root, p) && Remainder(root, p) == [])
  {
    var t := NewPathTranslator(root, serverRoot);
    var cr, cp := AgentComponents(root), AgentComponents(p);
    var fr, fp := ComparableSegments(t.agentIsWindows, cr), ComparableSegments(t.agentIsWindows, cp);
    ComparedForms(root, serverRoot, p);
    SlashedPrefix(fr, fp);
    ComparablePrefix(t, NormalizeAgentPath(p), t.agentRoot + "/");
    assert fr <= fp ==> (Remainder(root, p) == [] <==> |fr| == |fp|);
  }

  /** What is left of the string after the prefix is the remainder, joined. */
  lemma RemainderOfString(root: string, serverRoot: string, p: string)
    requires UnderRoot(root, p) && Remainder(root, p) != []
    ensures var t := NewPathTranslator(root, serverRoot);
            var cleaned := NormalizeAgentPath(p);
            |t.agentRoot + "/"| <= |cleaned| && cleaned[|t.agentRoot + "/"|..] == JoinSegments(Remainder(root, p))
  {
    hide AgentComponents, JoinSegments, LooksWindows, NormalizeAgentPath, FoldAll, Clean;
    var t := NewPathTranslator(root, serverRoot);
    var windows := t.agentIsWindows;
    var cr, cp := AgentComponents(root), AgentComponents(p);
    ComparedForms(root, serverRoot, p);
    NormalizedForm(p);
    JoinConcat(cp[..|cr|], cp[|cr|..]);
    assert cp == cp[..|cr|] + cp[|cr|..];
    ComparableFacts(windows, cp[..|cr|]);
    assert ComparableSegments(windows, cp[..|cr|]) == ComparableSegments(windows, cr);
  }

  lemma ComparablePrefix(t: PathTranslator, value: string, prefix: string)
    ensures t.HasPrefix(value, prefix) <==> t.Comparable(prefix) <= t.Comparable(value)
  {
    if |prefix| <= |value| {
      assert t.Comparable(value[..|prefix|]) == t.Comparable(value)[..|prefix|];
    }
  }

  /** Path succeeds exactly on the paths at or under the agent's root, and
      resolves what is left from the server's root; under an anchored root that
      is the same spot. */
  lemma TranslatesExactly(root: string, serverRoot: string, p: string)
    ensures var t := NewPathTranslator(root, serverRoot);
            var s := Parse(serverRoot);
            && (t.Path(p).Ok? <==> UnderRoot(root, p))
            && (UnderRoot(root, p) ==>
                  Parse(t.Path(p).value) == Segmented(s.rooted, Resolve(s.segments, Remainder(root, p), s.rooted)))
            && (UnderRoot(root, p) && Anchored(root) ==>
                  Parse(t.Path(p).value) == Segmented(s.rooted, s.segments + Remainder(root, p)))
            && (t.Path(p).Ok? ==> Clean(t.Path(p).value) == t.Path(p).value)
  {
    var t := NewPathTranslator(root, serverRoot);
    PrefixIsSegmentPrefix(root, serverRoot, p);
    CleanIsIdempotent(serverRoot);
    if UnderRoot(root, p) {
      var rest := Remainder(root, p);
      if rest == [] {
        assert Parse(serverRoot).segments + rest == Parse(serverRoot).segments;
      } else {
        RemainderOfString(root, serverRoot, p);
        RemainderIsKept(root, p);
        SplitJoin(rest);
        JoinResolves(t.serverRoot, JoinSegments(rest));
        CleanIsIdempotent(t.serverRoot + "/" + JoinSegments(rest));
        assert JoinSegments(rest) != "" by { LastLetter(rest, false); }
        if Anchored(root) {
          RemainderIsPlain(root, p);
          AppendPlainIsNormal(Parse(serverRoot), rest);
          ResolveKeeps(Parse(serverRoot).segments, rest, Parse(serverRoot).rooted);
        }
      }
    }
  }

  /** Under an anchored root every translated path sits inside the server's. */
  lemma TranslationStaysInside(root: string, serverRoot: string, p: string)
    requires Anchored(root) && NewPathTranslator(root, serverRoot).Path(p).Ok?
    ensures Below(Parse(serverRoot), Parse(NewPathTranslator(root, serverRoot).Path(p).value))
  {
    TranslatesExactly(root, serverRoot, p);
    RemainderIsPlain(root, p);
    var rest := Remainder(root, p);
    if rest != [] {
      assert Plain(rest[0]);
    }
  }

  /** Two paths share a server path exactly when the same names lie below the
      root; on a POSIX root, when they normalise alike. */
  lemma TranslationIsInjective(root: string, serverRoot: string, p: string, q: string)
    requires Anchored(root) && UnderRoot(root, p) && UnderRoot(root, q)
    ensures var t := NewPathTranslator(root, serverRoot);
            && (t.Path(p) == t.Path(q) <==> Remainder(root, p) == Remainder(root, q))
            && (!LooksWindows(root) ==> (t.Path(p) == t.Path(q) <==> NormalizeAgentPath(p) == NormalizeAgentPath(q)))
  {
    var t := NewPathTranslator(root, serverRoot);
    TranslatesExactly(root, serverRoot, p);
    TranslatesExactly(root, serverRoot, q);
    if t.Path(p) == t.Path(q) {
      ConcatCancels(Parse(serverRoot).segments, Remainder(root, p), Remainder(root, q));
    }
    if Remainder(root, p) == Remainder(root, q) && !LooksWindows(root) {
      RemainderDecides(root, p, q);
    }
  }

  // ---------------------------------------------------------------------
  // Roots that end in ".."
  // ---------------------------------------------------------------------

  predicate OnlyParents(p: Segmented) {
    !p.rooted && p.segments != [] && forall i :: 0 <= i < |p.segments| ==> p.segments[i] == ".."
  }

  lemma UnanchoredIsParents(root: string)
    requires !Anchored(root)
    ensures OnlyParents(Parse(Slashed(root)))
  {
    var r := Parse(Slashed(root));
    assert Kept(r.segments[|r.segments| - 1], r.rooted);
    DotsAllTheWay(r, |r.segments| - 1);
  }

  // One more ".." after nothing but "..".
  lemma OneMoreParent(p: string)
    requires OnlyParents(Parse(Slashed(p)))
    ensures Parse(Slashed(p + "/..")) == Segmented(false, Parse(Slashed(p)).segments + [".."])
    ensures AgentComponents(p + "/..") == AgentComponents(p) + [".."]
  {
    var s, before := Slashed(p), Parse(Slashed(p)).segments;
    assert Slashed(p + "/..") == s + "/" + "..";
    assert s != "" by {
      assert Split("") == [""];
      assert Resolve([], [""], false) == [];
    }
    hide AgentComponents, Slashed;
    SplitConcat(s, "..");
    SplitSlashFree("..");
    ResolveAppend([], Split(s), [".."], false);
    assert Resolve(before, [".."], false) == before + [".."];
  }

  lemma LongerIsUnder(root: string, p: string, more: seq<string>)
    requires AgentComponents(p) == AgentComponents(root) + more
    ensures UnderRoot(root, p) && Remainder(root, p) == more
  {
    hide AgentComponents, LooksWindows;
    var windows := LooksWindows(root);
    assert ComparableSegments(windows, AgentComponents(p))[..|AgentComponents(root)|] ==
           ComparableSegments(windows, AgentComponents(root));
  }

  lemma ParentsOfRoot(root: string)
    requires !Anchored(root)
    ensures UnderRoot(root, root + "/..") && Remainder(root, root + "/..") == [".."]
    ensures UnderRoot(root, root + "/../..") && Remainder(root, root + "/../..") == ["..", ".."]
  {
    hide UnderRoot;
    UnanchoredIsParents(root);
    OneMoreParent(root);
    assert root + "/.." + "/.." == root + "/../..";
    OneMoreParent(root + "/..");
    LongerIsUnder(root, root + "/..", [".."]);
    assert (AgentComponents(root) + [".."]) + [".."] == AgentComponents(root) + ["..", ".."];
    LongerIsUnder(root, root + "/../..", ["..", ".."]);
  }

  // The two server roots of the witness below.
  lemma ShortRoots()
    ensures Parse("/a") == Segmented(true, ["a"]) && Parse("/") == Segmented(true, [])
    ensures Resolve(["a"], [".."], true) == [] && Resolve([], [".."], true) == []
    ensures Resolve([], ["..", ".."], true) == []
  {
    ParseRender(Segmented(true, ["a"]));
    ParseRender(Segmented(true, []));
    assert Resolve([], ["..", ".."], true) == Resolve([], [".."], true);
  }

  /** A root ending in ".." lets its own parents through: "<root>/.." lands above
      the server's root, and from "/" so does every parent, on one path. */
  lemma ParentsEscape(root: string)
    requires !Anchored(root)
    ensures var t := NewPathTranslator(root, "/a");
            t.Path(root + "/..").Ok? && !Below(Parse("/a"), Parse(t.Path(root + "/..").value))
    ensures var t := NewPathTranslator(root, "/");
            && UnderRoot(root, root + "/..") && UnderRoot(root, root + "/../..")
            && t.Path(root + "/..") == t.Path(root + "/../..")
            && Remainder(root, root + "/..") != Remainder(root, root + "/../..")
  {
    hide Parse, Resolve, UnderRoot, Remainder, NewPathTranslator, PathTranslator.Path;
    ParentsOfRoot(root);
    ShortRoots();
    TranslatesExactly(root, "/a", root + "/..");
    TranslatesExactly(root, "/", root + "/..");
    TranslatesExactly(root, "/", root + "/../..");
    assert Remainder(root, root + "/..") != Remainder(root, root + "/../..");
  }

  /** Whatever the server's root, every translated path lies inside it exactly
      when the agent's root does not end in "..". */
  lemma StaysInsideIffAnchored(root: string)
    ensures (forall serverRoot, p :: NewPathTranslator(root, serverRoot).Path(p).Ok? ==>
               Below(Parse(serverRoot), Parse(NewPathTranslator(root, serverRoot).Path(p).value))) <==> Anchored(root)
  {
    if Anchored(root) {
      forall serverRoot, p | NewPathTranslator(root, serverRoot).Path(p).Ok?
        ensures Below(Parse(serverRoot), Parse(NewPathTranslator(root, serverRoot).Path(p).value)) {
        TranslationStaysInside(root, serverRoot, p);
      }
    } else {
      ParentsEscape(root);
    }
  }

  predicate SharesPath(root: string, serverRoot: string, p: string, q: string) {
    && UnderRoot(root, p) && UnderRoot(root, q)
    && NewPathTranslator(root, serverRoot).Path(p) == NewPathTranslator(root, serverRoot).Path(q)
  }

  /** And exactly then no two different spots below the root share a server path. */
  lemma InjectiveIffAnchored(root: string)
    ensures (forall serverRoot, p, q :: SharesPath(root, serverRoot, p, q) ==> Remainder(root, p) == Remainder(root, q)) <==>
              Anchored(root)
  {
    if Anchored(root) {
      forall serverRoot, p, q | SharesPath(root, serverRoot, p, q)
        ensures Remainder(root, p) == Remainder(root, q) {
        TranslationIsInjective(root, serverRoot, p, q);
      }
    } else {
      ParentsEscape(root);
      assert SharesPath(root, "/", root + "/..", root + "/../..");
    }
  }

  /** The agent root "..": a path two levels up is accepted and stored outside
      the server's library. */
  lemma ParentRootEscapes()
    ensures var stored := NewPathTranslator("..", "/srv/media").Path("../../etc");
            stored.Ok? && Parse(stored.value) == Segmented(true, ["srv", "etc"])
  {
    hide *;
    TwoParents();
    MediaRoot();
    LongerIsUnder("..", "../../etc", ["..", "etc"]);
    TranslatesExactly("..", "/srv/media", "../../etc");
  }

  lemma TwoParents()
    ensures AgentComponents("../../etc") == AgentComponents("..") + ["..", "etc"]
  {
    hide Parse;
    var root, p := Segmented(false, [".."]), Segmented(false, ["..", "..", "etc"]);
    assert JoinSegments([".."]) == ".." && ["..", "etc"][1..] == ["etc"] && JoinSegments(["etc"]) == "etc";
    assert p.segments[1..] == ["..", "etc"];
    assert JoinSegments(["..", "etc"]) == "../etc";
    assert Render(root) == ".." && Render(p) == "../../etc";
    ParseRender(root);
    ParseRender(p);
    assert Slashed("..") == ".." && Slashed("../../etc") == "../../etc";
    assert [".."] + ["..", "etc"] == p.segments;
  }

  lemma MediaRoot()
    ensures Parse("/srv/media") == Segmented(true, ["srv", "media"])
    ensures Resolve(["srv", "media"], ["..", "etc"], true) == ["srv", "etc"]
  {
    hide Parse;
    var server := Segmented(true, ["srv", "media"]);
    assert JoinSegments(["media"]) == "media" && ["srv", "media"][1..] == ["media"];
    assert Render(server) == "/srv/media";
    ParseRender(server);
    assert Step(["srv", "media"], "..", true) == ["srv"];
    assert ["..", "etc"][1..] == ["etc"] && Resolve(["srv"], ["etc"], true) == ["srv", "etc"];
  }

  lemma RemainderDecides(root: string, p: string, q: string)
    requires !LooksWindows(root) && UnderRoot(root, p) && UnderRoot(root, q)
    requires Remainder(root, p) == Remainder(root, q)
    ensures NormalizeAgentPath(p) == NormalizeAgentPath(q)
  {
    NormalizedForm(p);
    NormalizedForm(q);
    var c := AgentComponents(root);
    assert AgentComponents(p) == c + Remainder(root, p);
    assert AgentComponents(q) == c + Remainder(root, q);
  }

  lemma ConcatCancels(prefix: seq<string>, a: seq<string>, b: seq<string>)
    requires prefix + a == prefix + b
    ensures a == b
  {
    assert a == (prefix + a)[|prefix|..] && b == (prefix + b)[|prefix|..];
  }

  /** A POSIX name holding a backslash is read as two names, so it lands on the
      path of a file one level down. */
  lemma BackslashNamesCollide(t: PathTranslator, directory: string, a: string, b: string)
    ensures t.Path(directory + "/" + a + "\\" + b) == t.Path(directory + "/" + a + "/" + b)
  {
    var prefix := directory + "/" + a;
    SlashedOnly(t, prefix + "\\" + b, prefix + "/" + b);
  }

  lemma SlashedOnly(t: PathTranslator, p: string, q: string)
    requires |p| == |q|
    requires forall i :: 0 <= i < |p| ==> p[i] == q[i] || (p[i] == '\\' && q[i] == '/')
    ensures t.Path(p) == t.Path(q)
  {
    assert Slashed(p) == Slashed(q);
  }

  // ---------------------------------------------------------------------
  // The agent's containment check
  // ---------------------------------------------------------------------

  predicate IsWithin(root: string, candidate: string) {
    var relative := Rel(root, candidate);
    relative.Ok? && StaysInside(relative.value)
  }

  function ResolveUnder(root: string, relative: string): Result<string, string> {
    if IsAbs(relative) then Err("directory must be relative to the library root")
    else
      var cleanedRoot := Clean(root);
      var candidate := Clean(Join(cleanedRoot, relative));
      if !IsWithin(cleanedRoot, candidate) then Err("not inside the library mapped for this agent")
      else Ok(candidate)
  }

  function ResolveWithinDirectory(directory: string, requested: string): Result<string, string> {
    if IsAbs(requested) then Err("path must be relative to the directory")
    else if FoldAll(Ext(requested)) != ".nfo" then Err("path must name an .nfo file")
    else
      var cleaned := Clean(directory);
      var candidate := Clean(Join(cleaned, requested));
      if !IsWithin(cleaned, candidate) then Err("path is not inside the directory")
      else Ok(candidate)
  }

  /** The check refuses exactly the absolute paths and those whose ".." lead out
      of the root; what it accepts is the cleaned join. */
  lemma ResolveUnderExactly(root: string, relative: string)
    ensures var target := Segmented(IsAbs(root), Resolve(Parse(root).segments, Split(relative), IsAbs(root)));
            && (ResolveUnder(root, relative).Ok? <==> !IsAbs(relative) && Below(Parse(root), target))
            && (ResolveUnder(root, relative).Ok? ==> ResolveUnder(root, relative).value == Render(target))
  {
    CleanIsIdempotent(root);
    JoinResolves(Clean(root), relative);
    CleanIsIdempotent(Join(Clean(root), relative));
    RelStaysInside(Clean(root), Clean(Join(Clean(root), relative)));
  }

  /** The second hop likewise, for a file: refused are exactly absolute paths, those
      without the .nfo extension in some case, and those leading out. */
  lemma ResolveWithinExactly(directory: string, requested: string)
    ensures var target := Segmented(IsAbs(directory), Resolve(Parse(directory).segments, Split(requested), IsAbs(directory)));
            var answer := ResolveWithinDirectory(directory, requested);
            && (answer.Ok? <==> !IsAbs(requested) && FoldAll(Ext(requested)) == ".nfo" && Below(Parse(directory), target))
            && (answer.Ok? ==> answer.value == Render(target))
  {
    CleanIsIdempotent(directory);
    JoinResolves(Clean(directory), requested);
    CleanIsIdempotent(Join(Clean(directory), requested));
    RelStaysInside(Clean(directory), Clean(Join(Clean(directory), requested)));
  }

  predicate EndsIn(s: string, last: string) {
    |last| < |s| && s[|s| - |last| - 1] == '/' && s[|s| - |last|..] == last
  }

  // The extension is the last segment's.
  lemma {:induction false} ExtOfLast(s: string, last: string)
    requires EndsIn(s, last) && SlashFree(last)
    ensures Ext(s) == Ext(last)
    decreases |last|
  {
    if last != "" {
      var shorter := last[..|last| - 1];
      assert last[|last| - 1] in last && s[|s| - 1] == s[|s| - |last|..][|last| - 1];
      assert s[..|s| - 1][|s| - |last|..] == shorter;
      assert forall c :: c in shorter ==> c in last;
      ExtOfLast(s[..|s| - 1], shorter);
    }
  }

  // A joined path of two segments or more ends in its last one.
  lemma JoinedLast(segments: seq<string>)
    requires |segments| > 1
    ensures EndsIn(JoinSegments(segments), segments[|segments| - 1])
  {
    var n := |segments| - 1;
    var front, last := segments[..n], segments[n];
    assert segments == front + [last];
    assert JoinSegments([last]) == last;
    JoinConcat(front, [last]);
    hide JoinSegments;
    EndsInAfter(JoinSegments(front), last);
  }

  lemma EndsInAfter(front: string, last: string)
    ensures EndsIn(front + "/" + last, last)
  {
  }

  lemma ExtOfJoined(segments: seq<string>)
    requires |segments| > 0 && AllSlashFree(segments)
    ensures Ext(JoinSegments(segments)) == Ext(segments[|segments| - 1])
    ensures Ext("/" + JoinSegments(segments)) == Ext(segments[|segments| - 1])
  {
    var last := segments[|segments| - 1];
    if |segments| == 1 {
      assert JoinSegments(segments) == last;
    } else {
      JoinedLast(segments);
    }
    hide Ext, JoinSegments;
    var s := JoinSegments(segments);
    assert EndsIn("/" + s, last) by {
      SlashedEndsIn(s, last);
    }
    ExtOfLast("/" + s, last);
    if |segments| > 1 {
      ExtOfLast(s, last);
    }
  }

  lemma SlashedEndsIn(s: string, last: string)
    requires s == last || EndsIn(s, last)
    ensures EndsIn("/" + s, last)
  {
  }

  lemma NamedLast(s: string)
    requires |Ext(s)| > 2
    ensures var last := Split(s)[|Split(s)| - 1]; Plain(last) && Ext(last) == Ext(s)
  {
    JoinSplit(s);
    ExtOfJoined(Split(s));
    var last := Split(s)[|Split(s)| - 1];
    assert Ext("") == "" && Ext(".") == ".";
    assert Ext("..") == ".";
  }

  /** Joining a path that names a file keeps its extension. */
  lemma ExtOfTarget(directory: Segmented, requested: string, target: Segmented)
    requires Normal(directory) && Normal(target) && |Ext(requested)| > 2
    requires target == Segmented(directory.rooted, Resolve(directory.segments, Split(requested), directory.rooted))
    ensures Ext(Render(target)) == Ext(requested)
  {
    var segments := Split(requested);
    var n := |segments| - 1;
    NamedLast(requested);
    ResolveAppend(directory.segments, segments[..n], [segments[n]], directory.rooted);
    assert segments[..n] + [segments[n]] == segments;
    var before := Resolve(directory.segments, segments[..n], directory.rooted);
    assert Resolve(before, [segments[n]], directory.rooted) == before + [segments[n]];
    forall i | 0 <= i < |target.segments| ensures SlashFree(target.segments[i]) {
      assert Kept(target.segments[i], target.rooted);
    }
    ExtOfJoined(target.segments);
  }

  /** Both hops together: whatever the two relative paths say, a file that is
      read lies inside the library root and is itself an .nfo file. */
  lemma ReadsStayInsideTheLibrary(root: string, directory: string, file: string)
    requires ResolveUnder(root, directory).Ok?
    requires ResolveWithinDirectory(ResolveUnder(root, directory).value, file).Ok?
    ensures var absolute := ResolveWithinDirectory(ResolveUnder(root, directory).value, file).value;
            Below(Parse(root), Parse(absolute)) && FoldAll(Ext(absolute)) == ".nfo"
  {
    var d := ResolveUnder(root, directory).value;
    var f := ResolveWithinDirectory(d, file).value;
    CleanIsIdempotent(root);
    CleanIsIdempotent(d);
    RelStaysInside(Clean(root), d);
    RelStaysInside(Clean(d), f);
    BelowIsTransitive(Parse(root), Parse(d), Parse(f));
    JoinResolves(Clean(d), file);
    CleanIsIdempotent(Join(Clean(d), file));
    assert |FoldAll(Ext(file))| == |Ext(file)|;
    ExtOfTarget(Parse(d), file, Parse(f));
  }

  // ---------------------------------------------------------------------
  // Back to the agent
  // ---------------------------------------------------------------------

  function Abs(cwd: string, p: string): string {
    if IsAbs(p) then Clean(p) else Join(cwd, p)
  }

  predicate SameScanRoot(cwd: string, configured: string, stored: string) {
    Clean(configured) == Clean(stored) || Abs(cwd, configured) == Abs(cwd, stored)
  }

  /** Where a path leads, a relative one from the working directory on. */
  function Spotted(cwd: string, p: string): Segmented {
    if IsAbs(p) then Parse(p) else Segmented(IsAbs(cwd), Resolve(Parse(cwd).segments, Split(p), IsAbs(cwd)))
  }

  /** A stored scan root is a configured directory's exactly when the two lead to
      one place, as they stand or from the working directory. */
  lemma SameRootIffSameSpot(cwd: string, configured: string, stored: string)
    requires cwd != ""
    ensures SameScanRoot(cwd, configured, stored) <==>
      Parse(configured) == Parse(stored) || Spotted(cwd, configured) == Spotted(cwd, stored)
  {
    CleanIsIdempotent(configured);
    CleanIsIdempotent(stored);
    AbsIsSpotted(cwd, configured);
    AbsIsSpotted(cwd, stored);
    hide Spotted, Abs;
  }

  lemma AbsIsSpotted(cwd: string, p: string)
    requires cwd != ""
    ensures Parse(Abs(cwd, p)) == Spotted(cwd, p) && Abs(cwd, p) == Render(Spotted(cwd, p))
  {
    JoinResolves(cwd, p);
    CleanIsIdempotent(p);
    CleanIsIdempotent(cwd);
    if !IsAbs(p) && p != "" {
      CleanIsIdempotent(cwd + "/" + p);
    }
  }

  datatype Location = Location(agent: string, scannerSlug: string, relativeDirectory: string)

  /** The relative directory sent to the agent, for a directory in its root. */
  function RelativeDirectory(scanRoot: string, directory: string): Result<string, string> {
    var relative := Rel(Clean(scanRoot), Clean(directory));
    if relative.Err? || !StaysInside(relative.value) then Err("not inside its own scan root")
    else Ok(if relative.value == "." then "" else relative.value)
  }

  function FirstTrue(flags: seq<bool>): (i: nat)
    ensures i <= |flags|
    ensures forall j :: 0 <= j < i ==> !flags[j]
    ensures i < |flags| ==> flags[i]
  {
    if flags == [] || flags[0] then 0
    else
      var rest := FirstTrue(flags[1..]);
      assert forall j :: 1 <= j < rest + 1 ==> flags[j] == flags[1..][j - 1];
      rest + 1
  }

  function RootFlags(cwd: string, directories: seq<ScanDirectory>, scanRoot: string): (flags: seq<bool>)
    ensures |flags| == |directories|
    ensures forall i :: 0 <= i < |flags| ==> flags[i] == SameScanRoot(cwd, directories[i].directory, scanRoot)
  {
    seq(|directories|, i requires 0 <= i < |directories| => SameScanRoot(cwd, directories[i].directory, scanRoot))
  }

  function FirstRoot(cwd: string, directories: seq<ScanDirectory>, scanRoot: string): (i: nat)
    ensures i <= |directories|
    ensures forall j :: 0 <= j < i ==> !SameScanRoot(cwd, directories[j].directory, scanRoot)
    ensures i < |directories| ==> SameScanRoot(cwd, directories[i].directory, scanRoot)
  {
    FirstTrue(RootFlags(cwd, directories, scanRoot))
  }

  function Located(cwd: string, config: Config, scanRoot: string, directory: string): Result<Location, string> {
    var index := FirstRoot(cwd, config.scanDirectories, scanRoot);
    if index == |config.scanDirectories| then Err("not under any configured scan directory")
    else
      var slug := config.scanDirectories[index].scannerSlug;
      var owner := AgentForScanner(config.agents, slug);
      var relative := RelativeDirectory(scanRoot, directory);
      if owner.None? then Err("no agent is mapped")
      else if relative.Err? then Err(relative.error)
      else Ok(Location(owner.value.slug, slug, relative.value))
  }

  method LocateOnAgent(cwd: string, config: Config, scanRoot: string, directory: string)
    returns (located: Result<Location, string>)
    ensures located == Located(cwd, config, scanRoot, directory)
  {
    hide SameScanRoot, RelativeDirectory, AgentForScanner, Clean, Rel;
    var index := -1;
    var i := 0;
    while i < |config.scanDirectories|
      invariant 0 <= i <= |config.scanDirectories| && index == -1
      invariant forall j :: 0 <= j < i ==> !SameScanRoot(cwd, config.scanDirectories[j].directory, scanRoot)
    {
      if SameScanRoot(cwd, config.scanDirectories[i].directory, scanRoot) {
        index := i;
        break;
      }
      i := i + 1;
    }
    if index < 0 {
      return Err("not under any configured scan directory");
    }
    assert index == FirstRoot(cwd, config.scanDirectories, scanRoot);
    var slug := config.scanDirectories[index].scannerSlug;
    var owner := AgentForScanner(config.agents, slug);
    if owner.None? {
      return Err("no agent is mapped");
    }
    var relative := RelativeDirectory(scanRoot, directory);
    if relative.Err? {
      return Err(relative.error);
    }
    located := Ok(Location(owner.value.slug, slug, relative.value));
  }

  /** translatorFor: the current mapping between one agent and one library. */
  function TranslatorFor(config: Config, agentSlug: string, scannerSlug: string): Result<PathTranslator, string> {
    var a := IndexOf(AgentSlugs(config.agents), agentSlug);
    if a == |config.agents| then Err("agent is no longer configured")
    else
      var m := IndexOf(MappedSlugs(config.agents[a].mappings), scannerSlug);
      if m == |config.agents[a].mappings| then Err("no longer mapped")
      else
        var s := IndexOf(ScannerSlugs(config.scanDirectories), scannerSlug);
        if s == |config.scanDirectories| then Err("scan directory no longer exists")
        else Ok(NewPathTranslator(config.agents[a].mappings[m].agentPath, config.scanDirectories[s].directory))
  }

  // What the remainder under the root is, for a clean absolute POSIX path.
  lemma PosixPath(p: string)
    requires IsAbs(p) && '\\' !in p
    ensures Slashed(p) == p && AgentComponents(p) == [""] + Parse(p).segments && Anchored(p)
  {
    assert forall i :: 0 <= i < |p| ==> p[i] in p;
    assert Slashed(p) == p;
    var segments := Parse(p).segments;
    if segments != [] {
      assert Kept(segments[|segments| - 1], true);
    }
  }

  /** A path's spelling in the translator's terms; it is the path itself exactly
      when that is clean and free of backslashes. */
  lemma SlashedForm(p: string)
    ensures var d := Clean(Slashed(p));
            && '\\' !in d && Clean(d) == d && Slashed(d) == d && AgentComponents(d) == AgentComponents(p)
            && (Clean(p) == p ==> (d == p <==> '\\' !in p))
  {
    var d := Clean(Slashed(p));
    assert '\\' !in Slashed(p);
    CleanAvoids(Slashed(p), '\\');
    CleanIsIdempotent(Slashed(p));
    assert forall i :: 0 <= i < |d| ==> d[i] in d;
    assert Slashed(d) == d;
    if '\\' !in p {
      assert forall i :: 0 <= i < |p| ==> p[i] in p;
      assert Slashed(p) == p;
    }
  }

  /** The path round trip: a directory the agent reports is translated, stored,
      located again and resolved by the agent to the path it came from, backslashes
      read as slashes; so to exactly that path when and only when it holds none. */
  lemma PathRoundTrip(root: string, serverRoot: string, directory: string)
    requires IsAbs(root) && !LooksWindows(root) && Clean(directory) == directory
    requires NewPathTranslator(root, serverRoot).Path(directory).Ok?
    ensures var t := NewPathTranslator(root, serverRoot);
            var relative := RelativeDirectory(t.serverRoot, t.Path(directory).value);
            && relative.Ok? && ResolveUnder(root, relative.value) == Ok(Clean(Slashed(directory)))
            && (ResolveUnder(root, relative.value) == Ok(directory) <==> '\\' !in directory)
  {
    var t, d := NewPathTranslator(root, serverRoot), Clean(Slashed(directory));
    hide Clean, Parse, ResolveUnder, RelativeDirectory, AgentComponents, PathTranslator.Path;
    SlashedForm(directory);
    PosixPath(root);
    TranslatesExactly(root, serverRoot, directory);
    StoredRelative(root, serverRoot, directory);
    SlashedRebuilds(root, directory);
    RemainderIsPlain(root, directory);
    ResolvesBack(root, d, Remainder(root, directory));
  }

  /** The relative directory of a stored path is the remainder below the root. */
  lemma StoredRelative(root: string, serverRoot: string, directory: string)
    requires Anchored(root) && NewPathTranslator(root, serverRoot).Path(directory).Ok?
    ensures UnderRoot(root, directory)
    ensures var t := NewPathTranslator(root, serverRoot);
            RelativeDirectory(t.serverRoot, t.Path(directory).value) == Ok(RelativeText(Remainder(root, directory)))
  {
    var t := NewPathTranslator(root, serverRoot);
    TranslatesExactly(root, serverRoot, directory);
    TranslationStaysInside(root, serverRoot, directory);
    var stored := t.Path(directory).value;
    var rest, s := Remainder(root, directory), Parse(serverRoot);
    RemainderIsPlain(root, directory);
    CleanIsIdempotent(serverRoot);
    CleanIsIdempotent(t.serverRoot);
    CleanIsIdempotent(stored);
    RelStaysInside(Clean(t.serverRoot), Clean(stored));
    assert (s.segments + rest)[|s.segments|..] == rest;
    if rest == [] {
      assert s.segments + rest == s.segments;
    } else {
      RelativeIsNotDot(rest);
    }
  }

  function RelativeText(rest: seq<string>): string {
    if rest == [] then "" else JoinSegments(rest)
  }

  // The root's names and the remainder make up the slashed path.
  lemma SlashedRebuilds(root: string, directory: string)
    requires IsAbs(root) && !LooksWindows(root) && UnderRoot(root, directory)
    ensures var d := Clean(Slashed(directory));
            IsAbs(d) && Parse(d).segments == Parse(root).segments + Remainder(root, directory)
  {
    PosixPath(root);
    CleanIsIdempotent(Slashed(directory));
    hide Parse, Clean, Slashed, LooksWindows, Components;
    assert AgentComponents(directory) == AgentComponents(root) + Remainder(root, directory);
    RootedSegments(Parse(Slashed(directory)), Parse(root).segments, Remainder(root, directory));
  }

  lemma RootedSegments(p: Segmented, front: seq<string>, rest: seq<string>)
    requires Normal(p) && Components(p) == ([""] + front) + rest
    ensures p.rooted && p.segments == front + rest
  {
    FirstIsEmpty(p);
    assert ([""] + front) + rest == [""] + (front + rest);
    ConcatCancels([""], p.segments, front + rest);
  }

  lemma FirstIsEmpty(p: Segmented)
    requires Normal(p)
    ensures Components(p)[0] == "" <==> p.rooted
  {
    assert p.segments != [] ==> Kept(p.segments[0], p.rooted);
  }

  lemma ResolvesBack(root: string, directory: string, rest: seq<string>)
    requires IsAbs(root) && IsAbs(directory) && Clean(directory) == directory && AllPlain(rest)
    requires Parse(directory).segments == Parse(root).segments + rest
    ensures ResolveUnder(root, RelativeText(rest)) == Ok(directory)
  {
    var r := Parse(root).segments;
    ResolveUnderExactly(root, RelativeText(rest));
    if rest == [] {
      assert Split("") == [""];
      assert Resolve(r, [""], true) == r == r + rest;
    } else {
      RelativeIsNotDot(rest);
      SplitJoin(rest);
      AppendPlainIsNormal(Parse(root), rest);
      ResolveKeeps(r, rest, true);
      assert Plain(rest[0]);
    }
  }

  lemma RelativeIsNotDot(rest: seq<string>)
    requires |rest| > 0 && AllPlain(rest)
    ensures JoinSegments(rest) != "." && !IsAbs(JoinSegments(rest))
  {
    assert Plain(rest[0]);
    assert SlashFree(".");
    SplitJoin(rest);
    SplitJoin(["."]);
    assert JoinSegments(["."]) == ".";
    assert JoinSegments(rest)[0] == rest[0][0];
    assert rest[0][0] in rest[0];
  }

  /** The round trip through the whole configuration: with unique owners, and no
      other library configured at the same server root, the located agent is the
      one that reported the directory. */
  lemma LocatedWhereItCameFrom(cwd: string, config: Config, a: nat, m: nat, s: nat, directory: string)
    requires a < |config.agents| && m < |config.agents[a].mappings| && s < |config.scanDirectories|
    requires config.agents[a].mappings[m].scannerSlug == config.scanDirectories[s].scannerSlug
    requires Distinct(AgentSlugs(config.agents)) && Distinct(ScannerSlugs(config.scanDirectories))
    requires OwnersAreUnique(config.agents)
    requires forall j :: 0 <= j < |config.scanDirectories| && j != s ==>
               !SameScanRoot(cwd, config.scanDirectories[j].directory, Clean(config.scanDirectories[s].directory))
    requires var root := config.agents[a].mappings[m].agentPath;
             IsAbs(root) && !LooksWindows(root)
    requires Clean(directory) == directory
    requires var slug := config.scanDirectories[s].scannerSlug;
             var t := TranslatorFor(config, config.agents[a].slug, slug);
             t.Ok? && t.value.Path(directory).Ok?
    ensures var slug := config.scanDirectories[s].scannerSlug;
            var t := TranslatorFor(config, config.agents[a].slug, slug).value;
            var located := Located(cwd, config, t.serverRoot, t.Path(directory).value);
            && located.Ok? && located.value.agent == config.agents[a].slug && located.value.scannerSlug == slug
            && (ResolveUnder(config.agents[a].mappings[m].agentPath, located.value.relativeDirectory) == Ok(directory) <==>
                  '\\' !in directory)
  {
    var slug := config.scanDirectories[s].scannerSlug;
    var root, serverRoot := config.agents[a].mappings[m].agentPath, config.scanDirectories[s].directory;
    var t := NewPathTranslator(root, serverRoot);
    assert Distinct(MappedSlugs(config.agents[a].mappings));
    MappedTranslator(config, a, m, s);
    CleanIsIdempotent(serverRoot);
    assert MappedSlugs(config.agents[a].mappings)[m] == slug;
    FirstOwnerIsTheOnlyOne(config.agents, a, slug);
    PathRoundTrip(root, serverRoot, directory);
    hide TranslatorFor, Clean, Slashed, LooksWindows, RelativeDirectory, ResolveUnder, OwnersAreUnique, IsAbs;
    assert SameScanRoot(cwd, serverRoot, t.serverRoot);
    assert FirstRoot(cwd, config.scanDirectories, t.serverRoot) == s;
  }

  /** With distinct slugs, the translator found is the mapping's own. */
  lemma MappedTranslator(config: Config, a: nat, m: nat, s: nat)
    requires a < |config.agents| && m < |config.agents[a].mappings| && s < |config.scanDirectories|
    requires config.agents[a].mappings[m].scannerSlug == config.scanDirectories[s].scannerSlug
    requires Distinct(AgentSlugs(config.agents)) && Distinct(MappedSlugs(config.agents[a].mappings))
    requires Distinct(ScannerSlugs(config.scanDirectories))
    ensures TranslatorFor(config, config.agents[a].slug, config.scanDirectories[s].scannerSlug) ==
      Ok(NewPathTranslator(config.agents[a].mappings[m].agentPath, config.scanDirectories[s].directory))
  {
    IndexOfDistinct(AgentSlugs(config.agents), a);
    IndexOfDistinct(MappedSlugs(config.agents[a].mappings), m);
    IndexOfDistinct(ScannerSlugs(config.scanDirectories), s);
  }

  lemma IndexOfDistinct(keys: seq<string>, i: nat)
    requires Distinct(keys) && i < |keys|
    ensures IndexOf(keys, keys[i]) == i
  {
  }
}

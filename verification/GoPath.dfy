/** Slash-separated paths: Go's path.Clean, filepath.Join and filepath.Rel on a
    POSIX machine, over strings, with the segment view they are proved against. */
module GoPath {
  import opened Options

  // ---------------------------------------------------------------------
  // Strings and segments
  // ---------------------------------------------------------------------

  predicate SlashFree(s: string) { '/' !in s }

  predicate AllSlashFree(segments: seq<string>) {
    forall i :: 0 <= i < |segments| ==> SlashFree(segments[i])
  }

  function Split(s: string): (segments: seq<string>)
    ensures |segments| > 0 && AllSlashFree(segments)
  {
    if s == "" then [""] else Prepend(s[0], Split(s[1..]))
  }

  function Prepend(c: char, segments: seq<string>): (r: seq<string>)
    requires |segments| > 0
    ensures |r| > 0 && (AllSlashFree(segments) ==> AllSlashFree(r))
  {
    if c == '/' then [""] + segments else [[c] + segments[0]] + segments[1..]
  }

  lemma PrependConcat(c: char, a: seq<string>, b: seq<string>)
    requires |a| > 0
    ensures Prepend(c, a + b) == Prepend(c, a) + b
  {
    assert (a + b)[0] == a[0] && (a + b)[1..] == a[1..] + b;
  }

  function JoinSegments(segments: seq<string>): string
    requires |segments| > 0
  {
    if |segments| == 1 then segments[0] else segments[0] + "/" + JoinSegments(segments[1..])
  }

  lemma {:induction false} SplitConcat(a: string, b: string)
    ensures Split(a + "/" + b) == Split(a) + Split(b)
    decreases |a|
  {
    var s := a + "/" + b;
    if a == "" {
      assert s[0] == '/' && s[1..] == b;
    } else {
      SplitConcat(a[1..], b);
      assert s[0] == a[0] && s[1..] == a[1..] + "/" + b;
      PrependConcat(a[0], Split(a[1..]), Split(b));
    }
  }

  lemma {:induction false} SplitSlashFree(s: string)
    requires SlashFree(s)
    ensures Split(s) == [s]
    decreases |s|
  {
    if s != "" {
      assert forall c :: c in s[1..] ==> c in s;
      SplitSlashFree(s[1..]);
      assert [s[0]] + s[1..] == s;
    }
  }

  lemma {:induction false} SplitJoin(segments: seq<string>)
    requires |segments| > 0 && AllSlashFree(segments)
    ensures Split(JoinSegments(segments)) == segments
    decreases |segments|
  {
    SplitSlashFree(segments[0]);
    if |segments| > 1 {
      SplitJoin(segments[1..]);
      SplitConcat(segments[0], JoinSegments(segments[1..]));
    }
  }

  lemma {:induction false} JoinConcat(a: seq<string>, b: seq<string>)
    requires |a| > 0 && |b| > 0
    ensures JoinSegments(a + b) == JoinSegments(a) + "/" + JoinSegments(b)
    decreases |a|
  {
    assert (a + b)[1..] == a[1..] + b;
    if |a| > 1 {
      JoinConcat(a[1..], b);
    }
  }

  lemma {:induction false} JoinSplit(s: string)
    ensures JoinSegments(Split(s)) == s
    decreases |s|
  {
    if s != "" {
      JoinSplit(s[1..]);
      var rest := Split(s[1..]);
      if s[0] == '/' {
        assert ([""] + rest)[1..] == rest;
      } else if |rest| > 1 {
        assert ([[s[0]] + rest[0]] + rest[1..])[1..] == rest[1..];
      }
    }
  }

  /** A string prefix ending in a slash is a prefix of whole segments. */
  lemma SlashedPrefix(a: seq<string>, b: seq<string>)
    requires |a| > 0 && |b| > 0 && AllSlashFree(a) && AllSlashFree(b)
    ensures JoinSegments(a) + "/" <= JoinSegments(b) <==> a < b
    ensures a < b ==> JoinSegments(b)[|JoinSegments(a)| + 1..] == JoinSegments(b[|a|..])
    ensures JoinSegments(a) == JoinSegments(b) <==> a == b
  {
    SplitJoin(a);
    SplitJoin(b);
    var s, t := JoinSegments(a), JoinSegments(b);
    if s + "/" <= t {
      var r := t[|s| + 1..];
      assert t == s + "/" + r;
      SplitConcat(s, r);
    }
    if a < b {
      assert b == a + b[|a|..];
      JoinConcat(a, b[|a|..]);
    }
  }

  // ---------------------------------------------------------------------
  // Cleaned paths
  // ---------------------------------------------------------------------

  /** A path as Clean sees it: whether it starts at the root, and the segments
      that are left once ".", ".." and doubled slashes are resolved. */
  datatype Segmented = Segmented(rooted: bool, segments: seq<string>)

  predicate Plain(segment: string) {
    segment != "" && segment != "." && segment != ".." && SlashFree(segment)
  }

  predicate AllPlain(segments: seq<string>) {
    forall i :: 0 <= i < |segments| ==> Plain(segments[i])
  }

  /** Only a relative path may keep "..", and only in front. */
  predicate Normal(p: Segmented) {
    && (forall i :: 0 <= i < |p.segments| ==> Kept(p.segments[i], p.rooted))
    && (forall i :: 0 < i < |p.segments| && p.segments[i] == ".." ==> p.segments[i - 1] == "..")
  }

  predicate Kept(segment: string, rooted: bool) {
    Plain(segment) || (!rooted && segment == "..")
  }

  function Step(stack: seq<string>, segment: string, rooted: bool): seq<string> {
    if segment == "" || segment == "." then stack
    else if segment == ".." then
      if stack != [] && stack[|stack| - 1] != ".." then stack[..|stack| - 1]
      else if rooted then stack
      else stack + [".."]
    else stack + [segment]
  }

  function Resolve(stack: seq<string>, segments: seq<string>, rooted: bool): seq<string>
    decreases |segments|
  {
    if segments == [] then stack
    else Resolve(Step(stack, segments[0], rooted), segments[1..], rooted)
  }

  predicate IsAbs(s: string) { s != "" && s[0] == '/' }

  function Parse(s: string): (p: Segmented)
    ensures Normal(p) && p.rooted == IsAbs(s)
  {
    ResolveIsNormal([], Split(s), IsAbs(s));
    Segmented(IsAbs(s), Resolve([], Split(s), IsAbs(s)))
  }

  function Render(p: Segmented): (s: string)
    ensures Normal(p) ==> s != ""
  {
    if p.rooted then "/" + (if p.segments == [] then "" else JoinSegments(p.segments))
    else if p.segments == [] then "."
    else
      JoinSegments(p.segments)
  }

  function Clean(s: string): string { Render(Parse(s)) }

  /** filepath.Join of two elements. */
  function Join(a: string, b: string): string {
    if a == "" && b == "" then ""
    else if a == "" then Clean(b)
    else if b == "" then Clean(a)
    else Clean(a + "/" + b)
  }

  lemma {:induction false} ResolveIsNormal(stack: seq<string>, segments: seq<string>, rooted: bool)
    requires Normal(Segmented(rooted, stack)) && AllSlashFree(segments)
    ensures Normal(Segmented(rooted, Resolve(stack, segments, rooted)))
    decreases |segments|
  {
    if segments != [] {
      ResolveIsNormal(Step(stack, segments[0], rooted), segments[1..], rooted);
    }
  }

  lemma {:induction false} ResolveAppend(stack: seq<string>, a: seq<string>, b: seq<string>, rooted: bool)
    ensures Resolve(stack, a + b, rooted) == Resolve(Resolve(stack, a, rooted), b, rooted)
    decreases |a|
  {
    if a == [] {
      assert a + b == b;
    } else {
      assert (a + b)[1..] == a[1..] + b;
      ResolveAppend(Step(stack, a[0], rooted), a[1..], b, rooted);
    }
  }

  lemma {:induction false} ResolveKeeps(stack: seq<string>, segments: seq<string>, rooted: bool)
    requires Normal(Segmented(rooted, stack + segments))
    ensures Resolve(stack, segments, rooted) == stack + segments
    decreases |segments|
  {
    if segments == [] {
      assert stack + segments == stack;
    } else {
      var p := Segmented(rooted, stack + segments);
      assert p.segments[|stack|] == segments[0] && Kept(p.segments[|stack|], rooted);
      if stack != [] {
        assert p.segments[|stack| - 1] == stack[|stack| - 1];
      }
      assert stack + segments == (stack + [segments[0]]) + segments[1..];
      ResolveKeeps(stack + [segments[0]], segments[1..], rooted);
    }
  }

  /** A cleaned path reads back as itself, so cleaning twice is cleaning once. */
  lemma ParseRender(p: Segmented)
    requires Normal(p)
    ensures Parse(Render(p)) == p
  {
    var s := Render(p);
    if p.segments == [] {
      if p.rooted {
        assert "/"[1..] == "";
        assert Split(s) == ["", ""];
        assert Resolve([], Split(s), true) == Resolve([], [""], true) == [];
      } else {
        SplitSlashFree(".");
      }
    } else {
      SplitJoin(p.segments);
      assert Segmented(p.rooted, [] + p.segments) == p;
      ResolveKeeps([], p.segments, p.rooted);
      assert [] + p.segments == p.segments;
      if p.rooted {
        assert s[1..] == JoinSegments(p.segments);
        assert ([""] + p.segments)[1..] == p.segments;
      } else {
        RenderStartsWithoutSlash(p);
      }
    }
  }

  lemma RenderStartsWithoutSlash(p: Segmented)
    requires Normal(p) && !p.rooted && p.segments != []
    ensures !IsAbs(JoinSegments(p.segments))
  {
    assert JoinSegments(p.segments)[0] == p.segments[0][0];
  }

  lemma CleanIsIdempotent(s: string)
    ensures Clean(Clean(s)) == Clean(s)
    ensures Parse(Clean(s)) == Parse(s)
  {
    ParseRender(Parse(s));
  }

  /** Joining resolves the second path from where the first one ends. */
  lemma JoinResolves(a: string, b: string)
    requires a != ""
    ensures Parse(Join(a, b)) ==
              Segmented(IsAbs(a), Resolve(Parse(a).segments, Split(b), IsAbs(a)))
  {
    if b == "" {
      CleanIsIdempotent(a);
      assert Split(b) == [""];
      assert Resolve(Parse(a).segments, [""], IsAbs(a)) == Parse(a).segments;
    } else {
      var s := a + "/" + b;
      assert IsAbs(s) == IsAbs(a);
      SplitConcat(a, b);
      ResolveAppend([], Split(a), Split(b), IsAbs(a));
      CleanIsIdempotent(s);
    }
  }

  lemma AppendPlainIsNormal(p: Segmented, rest: seq<string>)
    requires Normal(p) && AllPlain(rest)
    ensures Normal(Segmented(p.rooted, p.segments + rest))
  {
    var q := Segmented(p.rooted, p.segments + rest);
    forall i | 0 <= i < |q.segments| ensures Kept(q.segments[i], q.rooted) {
      if i < |p.segments| {
        assert Kept(p.segments[i], p.rooted);
      } else {
        assert Plain(rest[i - |p.segments|]);
      }
    }
    assert forall i :: |p.segments| <= i < |q.segments| ==> Plain(rest[i - |p.segments|]) && q.segments[i] != "..";
  }

  /** Plain names after a slash are appended. */
  lemma NamesBelow(a: string, rest: seq<string>)
    requires a != "" && |rest| > 0 && AllPlain(rest)
    ensures Parse(a + "/" + JoinSegments(rest)) == Segmented(IsAbs(a), Parse(a).segments + rest)
  {
    var s := a + "/" + JoinSegments(rest);
    assert IsAbs(s) == IsAbs(a);
    SplitConcat(a, JoinSegments(rest));
    SplitJoin(rest);
    ResolveAppend([], Split(a), rest, IsAbs(a));
    AppendPlainIsNormal(Parse(a), rest);
    ResolveKeeps(Parse(a).segments, rest, IsAbs(a));
  }

  // ---------------------------------------------------------------------
  // Characters
  // ---------------------------------------------------------------------

  predicate Avoid(segments: seq<string>, c: char) {
    forall i :: 0 <= i < |segments| ==> c !in segments[i]
  }

  lemma {:induction false} SplitAvoids(s: string, c: char)
    requires c !in s
    ensures Avoid(Split(s), c)
    decreases |s|
  {
    if s != "" {
      assert forall d :: d in s[1..] ==> d in s;
      SplitAvoids(s[1..], c);
    }
  }

  lemma {:induction false} ResolveAvoids(stack: seq<string>, segments: seq<string>, rooted: bool, c: char)
    requires Avoid(stack, c) && Avoid(segments, c)
    ensures Avoid(Resolve(stack, segments, rooted), c)
    decreases |segments|
  {
    if segments != [] {
      ResolveAvoids(Step(stack, segments[0], rooted), segments[1..], rooted, c);
    }
  }

  lemma {:induction false} JoinAvoids(segments: seq<string>, c: char)
    requires |segments| > 0 && Avoid(segments, c) && c != '/'
    ensures c !in JoinSegments(segments)
    decreases |segments|
  {
    if |segments| > 1 {
      JoinAvoids(segments[1..], c);
    }
  }

  /** Cleaning brings in no character but slashes and dots. */
  lemma CleanAvoids(s: string, c: char)
    requires c !in s && c != '/' && c != '.'
    ensures c !in Clean(s)
  {
    SplitAvoids(s, c);
    ResolveAvoids([], Split(s), IsAbs(s), c);
    if Parse(s).segments != [] {
      JoinAvoids(Parse(s).segments, c);
    }
  }

  // ---------------------------------------------------------------------
  // Rel
  // ---------------------------------------------------------------------

  function CommonLength(a: seq<string>, b: seq<string>): (n: nat)
    ensures n <= |a| && n <= |b| && a[..n] == b[..n]
    ensures n < |a| && n < |b| ==> a[n] != b[n]
  {
    if a == [] || b == [] || a[0] != b[0] then 0
    else
      var n := CommonLength(a[1..], b[1..]);
      assert a[..n + 1] == [a[0]] + a[1..][..n] && b[..n + 1] == [b[0]] + b[1..][..n];
      1 + n
  }

  function Ups(n: nat): seq<string> { seq(n, _ => "..") }

  /** filepath.Rel: up out of the base, then down into the target. It fails when
      one path is absolute and the other is not, or when the way up leads
      through an unknown parent. */
  function Rel(base: string, target: string): Result<string, string> {
    var b, t := Parse(base), Parse(target);
    if b == t then Ok(".")
    else if b.rooted != t.rooted then Err("can't make relative")
    else
      var n := CommonLength(b.segments, t.segments);
      if n < |b.segments| && b.segments[n] == ".." then Err("can't make relative")
      else Ok(JoinSegments(RelSegments(b, t)))
  }

  function RelSegments(b: Segmented, t: Segmented): (r: seq<string>)
    requires b != t && b.rooted == t.rooted
    ensures |r| > 0
  {
    var n := CommonLength(b.segments, t.segments);
    Ups(|b.segments| - n) + t.segments[n..]
  }

  /** The test every caller applies to a relative path before trusting it. */
  predicate StaysInside(relative: string) {
    relative != ".." && !("../" <= relative)
  }

  /** That test accepts exactly the targets that sit at or below the base. */
  lemma RelStaysInside(base: string, target: string)
    ensures (Rel(base, target).Ok? && StaysInside(Rel(base, target).value)) <==> Below(Parse(base), Parse(target))
    ensures Below(Parse(base), Parse(target)) ==>
              Rel(base, target) == Ok(RelativeTo(Parse(base), Parse(target)))
  {
    var b, t := Parse(base), Parse(target);
    if b != t && b.rooted == t.rooted {
      var n := CommonLength(b.segments, t.segments);
      FirstSegmentDecides(RelSegments(b, t), n, b, t);
      BelowByCommonLength(b, t, n);
    }
  }

  lemma BelowByCommonLength(b: Segmented, t: Segmented, n: nat)
    requires b != t && b.rooted == t.rooted && n == CommonLength(b.segments, t.segments)
    ensures Below(b, t) <==> n == |b.segments| && RelSegments(b, t)[0] != ".."
    ensures Below(b, t) ==> RelSegments(b, t) == t.segments[|b.segments|..]
  {
    assert b.segments <= t.segments ==> forall i :: 0 <= i < |b.segments| ==> b.segments[i] == t.segments[i];
    if n == |b.segments| {
      assert b.segments <= t.segments;
      assert Ups(0) + t.segments[n..] == t.segments[n..];
    } else {
      assert RelSegments(b, t)[0] == "..";
    }
  }

  /** At or below, with no ".." left over. */
  predicate Below(b: Segmented, t: Segmented) {
    && b.rooted == t.rooted
    && b.segments <= t.segments
    && (|b.segments| < |t.segments| ==> t.segments[|b.segments|] != "..")
  }

  function RelativeTo(b: Segmented, t: Segmented): string
    requires Below(b, t)
  {
    if b == t then "." else JoinSegments(t.segments[|b.segments|..])
  }

  lemma FirstSegmentDecides(r: seq<string>, n: nat, b: Segmented, t: Segmented)
    requires Normal(b) && Normal(t) && b != t && b.rooted == t.rooted
    requires n == CommonLength(b.segments, t.segments) && r == RelSegments(b, t)
    ensures StaysInside(JoinSegments(r)) <==> r[0] != ".."
  {
    assert SlashFree("..");
    assert AllSlashFree(r) by {
      forall i | 0 <= i < |r| ensures SlashFree(r[i]) {
        if i >= |b.segments| - n {
          assert r[i] == t.segments[n..][i - (|b.segments| - n)];
        }
      }
    }
    SlashedPrefix([".."], r);
    assert JoinSegments([".."]) == "..";
    assert ".." + "/" == "../";
    assert [".."] < r || [".."] == r <==> r[0] == "..";
  }

  /** Below is transitive: a path inside a directory inside a root is inside the
      root. */
  lemma BelowIsTransitive(a: Segmented, b: Segmented, c: Segmented)
    requires Normal(a) && Normal(b) && Normal(c) && Below(a, b) && Below(b, c)
    ensures Below(a, c)
  {
    if |a.segments| < |b.segments| {
      assert c.segments[|a.segments|] == b.segments[|a.segments|];
    }
  }

  // ---------------------------------------------------------------------
  // File names
  // ---------------------------------------------------------------------

  /** filepath.Ext: from the last dot of the last segment. */
  function Ext(s: string): string
    decreases |s|
  {
    if s == "" || s[|s| - 1] == '/' then ""
    else if s[|s| - 1] == '.' then "."
    else
      var shorter := Ext(s[..|s| - 1]);
      if shorter == "" then "" else shorter + [s[|s| - 1]]
  }

  function TrimSlashes(s: string): string
    decreases |s|
  {
    if s != "" && s[|s| - 1] == '/' then TrimSlashes(s[..|s| - 1]) else s
  }

  /** filepath.Base: the last segment, trailing slashes aside. */
  function Base(s: string): string {
    var trimmed := TrimSlashes(s);
    if s == "" then "." else if trimmed == "" then "/" else Split(trimmed)[|Split(trimmed)| - 1]
  }

  /** The last segment without the extension. */
  function Stem(s: string): string {
    var base, extension := Base(s), Ext(s);
    if |extension| <= |base| && base[|base| - |extension|..] == extension then base[..|base| - |extension|] else base
  }

  lemma {:induction false} ExtIsSuffix(s: string)
    ensures |Ext(s)| <= |s| && s[|s| - |Ext(s)|..] == Ext(s)
    decreases |s|
  {
    if s != "" {
      ExtIsSuffix(s[..|s| - 1]);
    }
  }

  /** An extension starts at the last dot of the last segment, and there is none
      when that segment has no dot. */
  lemma {:induction false} ExtIsFromLastDot(s: string)
    ensures var x := Ext(s);
      && |x| <= |s| && s[|s| - |x|..] == x
      && (x != "" ==> x[0] == '.' && forall i :: 1 <= i < |x| ==> x[i] != '.' && x[i] != '/')
      && (x == "" ==> forall i :: 0 <= i < |s| && s[i] == '.' ==> exists j :: i < j < |s| && s[j] == '/')
    decreases |s|
  {
    if s != "" {
      var n := |s| - 1;
      ExtIsFromLastDot(s[..n]);
      ExtIsSuffix(s);
      if Ext(s) == "" {
        forall i | 0 <= i < |s| && s[i] == '.' ensures exists j :: i < j < |s| && s[j] == '/' {
          if s[n] != '/' {
            assert s[..n][i] == '.';
            var j :| i < j < n && s[..n][j] == '/';
            assert s[j] == '/';
          }
        }
      }
    }
  }

  /** A bare file name is its stem and its extension. */
  lemma StemAndExt(name: string)
    requires name != "" && SlashFree(name)
    ensures Stem(name) + Ext(name) == name
  {
    hide Ext, Base;
    ExtIsSuffix(name);
    BareIsBase(name);
  }

  lemma BareIsBase(name: string)
    requires name != "" && SlashFree(name)
    ensures Base(name) == name
  {
    SplitSlashFree(name);
    assert name[|name| - 1] in name;
  }
}

/** The workflow type system: subtyping on dotted names and list<T>, and the
    connection check the editor runs between two sockets. */
module WorkflowTypes {
  import opened Options

  // A type is its name. Subtyping reads nothing but the characters.
  type Type = string

  const TYPE_ANY: Type := "any"
  const LIST_PREFIX := "list<"
  const LIST_SUFFIX := ">"

  function ListOf(element: Type): Type {
    LIST_PREFIX + element + LIST_SUFFIX
  }

  predicate HasSuffix(s: string, suffix: string) {
    |suffix| <= |s| && s[|s| - |suffix|..] == suffix
  }

  predicate IsList(t: Type) {
    LIST_PREFIX <= t && HasSuffix(t, LIST_SUFFIX)
  }

  function ElementType(t: Type): (r: Option<Type>)
    ensures r.Some? ==> |r.value| < |t| && t == ListOf(r.value)
    ensures r.None? ==> forall e: Type :: t != ListOf(e)
  {
    ListShape(t);
    if !IsList(t) then None else Some(t[|LIST_PREFIX|..|t| - |LIST_SUFFIX|])
  }

  // The prefix ends in '<' and the suffix is '>', so they never overlap.
  lemma ListShape(t: Type)
    ensures IsList(t) ==> |t| >= 6 && t == ListOf(t[5..|t| - 1])
    ensures forall e: Type :: IsList(ListOf(e))
  {
    if IsList(t) {
      assert t[4] == LIST_PREFIX[4] == '<';
      assert t[|t| - 1..][0] == t[|t| - 1] == '>';
      assert t == t[..5] + t[5..|t| - 1] + t[|t| - 1..];
    }
    forall e: Type ensures IsList(ListOf(e)) {
      assert ListOf(e)[|ListOf(e)| - 1..] == LIST_SUFFIX;
    }
  }

  predicate IsSubtypeOf(sub: Type, super: Type)
    decreases |sub|
  {
    if super == TYPE_ANY || sub == super then true
    else
      var subElement := ElementType(sub);
      var superElement := ElementType(super);
      if subElement.Some? || superElement.Some? then
        subElement.Some? && superElement.Some? && IsSubtypeOf(subElement.value, superElement.value)
      else
        super + "." <= sub
  }

  lemma ScalarByLastLetter(t: Type)
    requires |t| > 0 && t[|t| - 1] != '>'
    ensures ElementType(t).None?
  {
    assert t[|t| - 1..][0] == t[|t| - 1];
  }

  // "any" names no list and has no dot, so nothing sits strictly above it.
  lemma AnyIsTop(t: Type)
    ensures ElementType(TYPE_ANY).None?
    ensures IsSubtypeOf(t, TYPE_ANY)
    ensures IsSubtypeOf(TYPE_ANY, t) ==> t == TYPE_ANY
  {
    ScalarByLastLetter(TYPE_ANY);
    assert (t + ".")[|t|] == '.';
  }

  lemma FirstLettersDiffer(sub: Type, super: Type)
    requires |sub| > 0 && |super| > 0 && sub[0] != super[0]
    requires super != TYPE_ANY && ElementType(super).None?
    ensures !IsSubtypeOf(sub, super)
  {
    assert (super + ".")[0] == super[0];
  }

  // ---------------------------------------------------------------------
  // The order
  // ---------------------------------------------------------------------

  /** The layered reading of subtyping: wrap both names in the same number of
      list<...> layers around two scalar-or-top cores. */
  function Wrapped(layers: nat, core: Type): Type {
    if layers == 0 then core else ListOf(Wrapped(layers - 1, core))
  }

  predicate CoreSubtype(sub: Type, super: Type) {
    || super == TYPE_ANY
    || sub == super
    || (ElementType(sub).None? && ElementType(super).None? && super + "." <= sub)
  }

  ghost predicate LayeredSubtype(sub: Type, super: Type) {
    exists layers: nat, a: Type, b: Type ::
      sub == Wrapped(layers, a) && super == Wrapped(layers, b) && CoreSubtype(a, b)
  }

  lemma {:induction false} LayersPeel(layers: nat, a: Type, b: Type)
    requires CoreSubtype(a, b)
    ensures IsSubtypeOf(Wrapped(layers, a), Wrapped(layers, b))
    decreases layers
  {
    if layers > 0 {
      LayersPeel(layers - 1, a, b);
    }
  }

  lemma {:induction false} SubtypeHasLayers(sub: Type, super: Type)
    requires IsSubtypeOf(sub, super)
    ensures LayeredSubtype(sub, super)
    decreases |sub|
  {
    if CoreSubtype(sub, super) {
      assert sub == Wrapped(0, sub) && super == Wrapped(0, super);
    } else {
      var s, t := ElementType(sub).value, ElementType(super).value;
      SubtypeHasLayers(s, t);
      var layers: nat, a: Type, b: Type :|
        s == Wrapped(layers, a) && t == Wrapped(layers, b) && CoreSubtype(a, b);
      assert sub == Wrapped(layers + 1, a) && super == Wrapped(layers + 1, b);
    }
  }

  /** IsSubtypeOf is exactly the layered relation. */
  lemma SubtypeIsLayered(sub: Type, super: Type)
    ensures IsSubtypeOf(sub, super) <==> LayeredSubtype(sub, super)
  {
    if LayeredSubtype(sub, super) {
      var layers: nat, a: Type, b: Type :|
        sub == Wrapped(layers, a) && super == Wrapped(layers, b) && CoreSubtype(a, b);
      LayersPeel(layers, a, b);
    }
    if IsSubtypeOf(sub, super) {
      SubtypeHasLayers(sub, super);
    }
  }

  lemma {:induction false} SubtypeAntisymmetric(a: Type, b: Type)
    requires IsSubtypeOf(a, b) && IsSubtypeOf(b, a)
    ensures a == b
    decreases |a|
  {
    AnyIsTop(a);
    AnyIsTop(b);
    if a != b && ElementType(a).Some? && ElementType(b).Some? {
      SubtypeAntisymmetric(ElementType(a).value, ElementType(b).value);
    }
  }

  lemma {:induction false} SubtypeTransitive(a: Type, b: Type, c: Type)
    requires IsSubtypeOf(a, b) && IsSubtypeOf(b, c)
    ensures IsSubtypeOf(a, c)
    decreases |a|
  {
    AnyIsTop(c);
    if c == TYPE_ANY || a == b || b == c {
    } else if ElementType(b).Some? {
      SubtypeTransitive(ElementType(a).value, ElementType(b).value, ElementType(c).value);
    } else {
      assert c + "." <= b && b <= a;
    }
  }

  /** Supertypes of one type form a chain. */
  lemma {:induction false} SupertypesAreComparable(t: Type, a: Type, b: Type)
    requires IsSubtypeOf(t, a) && IsSubtypeOf(t, b)
    ensures IsSubtypeOf(a, b) || IsSubtypeOf(b, a)
    decreases |t|
  {
    AnyIsTop(t);
    if a == TYPE_ANY || b == TYPE_ANY || t == a || t == b {
    } else if ElementType(t).Some? {
      SupertypesAreComparable(ElementType(t).value, ElementType(a).value, ElementType(b).value);
    } else {
      DottedPrefixesNest(t, a, b);
    }
  }

  lemma DottedPrefixesNest(t: string, a: string, b: string)
    requires a + "." <= t && b + "." <= t
    ensures a == b || a + "." <= b || b + "." <= a
  {
    assert a == t[..|a|] && b == t[..|b|];
    assert t[|a|] == (a + ".")[|a|] == '.' && t[|b|] == (b + ".")[|b|] == '.';
    if |a| < |b| {
      assert a + "." == t[..|a| + 1] == b[..|a| + 1];
    } else if |b| < |a| {
      assert b + "." == t[..|b| + 1] == a[..|b| + 1];
    }
  }

  /** list is covariant, and a list and a scalar are comparable only when one
      of them is the top. */
  lemma ListSubtyping(a: Type, b: Type)
    ensures IsSubtypeOf(ListOf(a), ListOf(b)) <==> IsSubtypeOf(a, b)
    ensures ElementType(b).None? && b != TYPE_ANY ==>
              !IsSubtypeOf(ListOf(a), b) && !IsSubtypeOf(b, ListOf(a))
    ensures !IsSubtypeOf(TYPE_ANY, ListOf(a)) && IsSubtypeOf(ListOf(a), TYPE_ANY)
  {
    AnyIsTop(ListOf(a));
  }

  // ---------------------------------------------------------------------
  // Representations, transforms and connections
  // ---------------------------------------------------------------------

  function RepresentationOf(t: Type): Option<string> {
    if t == "string" || t == "agent.slug" || t == "scanner.slug" then Some("primitive.string")
    else if t == "media.file" || t == "path.file" then Some("io/fs.File")
    else None
  }

  predicate SameRepresentation(a: Type, b: Type)
    decreases |a|
  {
    var aElement := ElementType(a);
    var bElement := ElementType(b);
    if aElement.Some? || bElement.Some? then
      aElement.Some? && bElement.Some? && SameRepresentation(aElement.value, bElement.value)
    else
      RepresentationOf(a).Some? && RepresentationOf(a) == RepresentationOf(b)
  }

  datatype Transform = Transform(name: string, from: Type, to: Type, impliesIteration: bool, ambiguous: bool)

  const REGISTRY: seq<Transform> := [
    Transform("parentDir", "path.file", "path.dir", false, false),
    Transform("eachFile", "path.dir", "path.file", true, false),
    Transform("toString", "path", "string", false, false),
    Transform("media.file.parentDir", "media.file", "path.dir", false, false),
    Transform("parseNumber", "string", "number", false, false),
    Transform("format", "number", "string", false, false)
  ]

  datatype Connection = Connection(direct: bool, candidates: seq<Transform>, typeUnsafe: bool) {
    predicate Allowed() {
      direct || |candidates| > 0
    }

    function AutoApply(): Option<Transform> {
      if direct || |candidates| != 1 || candidates[0].ambiguous then None else Some(candidates[0])
    }
  }

  predicate Fits(transform: Transform, from: Type, to: Type) {
    IsSubtypeOf(from, transform.from) && IsSubtypeOf(transform.to, to)
  }

  function FittingFrom(transforms: seq<Transform>, from: Type, to: Type): seq<Transform> {
    if transforms == [] then []
    else
      var last := |transforms| - 1;
      FittingFrom(transforms[..last], from, to) + (if Fits(transforms[last], from, to) then [transforms[last]] else [])
  }

  function WrapTransform(from: Type, to: Type): Option<Transform> {
    if ElementType(from).Some? || ElementType(to).None? || !IsSubtypeOf(from, ElementType(to).value) then None
    else Some(Transform("wrap", from, to, false, false))
  }

  /** A single value is wrapped into a one-element list exactly when it is no list
      itself and fits the element. */
  lemma WrapsExactly(from: Type, to: Type, t: Transform)
    ensures WrapTransform(from, to) == Some(t) <==>
              && t.name == "wrap" && t.from == from && t.to == to && !t.impliesIteration && !t.ambiguous
              && (forall e: Type :: from != ListOf(e))
              && (exists e: Type :: to == ListOf(e) && IsSubtypeOf(from, e))
  {
    forall e: Type | to == ListOf(e) ensures ElementType(to) == Some(e) {
      ListElement(e);
    }
  }

  function Offered(from: Type, to: Type): seq<Transform> {
    FittingFrom(REGISTRY, from, to) + match WrapTransform(from, to) case Some(wrap) => [wrap] case None => []
  }

  /** What CanConnect answers. */
  function ConnectionOf(from: Type, to: Type): Connection {
    if IsSubtypeOf(from, to) then Connection(true, [], false)
    else if IsSubtypeOf(to, from) then Connection(true, [], true)
    else if SameRepresentation(from, to) then Connection(true, [], false)
    else Connection(false, Offered(from, to), false)
  }

  method CanConnect(from: Type, to: Type) returns (connection: Connection)
    ensures connection == ConnectionOf(from, to)
  {
    if IsSubtypeOf(from, to) {
      return Connection(true, [], false);
    }
    if IsSubtypeOf(to, from) {
      return Connection(true, [], true);
    }
    if SameRepresentation(from, to) {
      return Connection(true, [], false);
    }
    var candidates: seq<Transform> := [];
    for i := 0 to |REGISTRY|
      invariant candidates == FittingFrom(REGISTRY[..i], from, to)
    {
      assert REGISTRY[..i + 1][..i] == REGISTRY[..i];
      if IsSubtypeOf(from, REGISTRY[i].from) && IsSubtypeOf(REGISTRY[i].to, to) {
        candidates := candidates + [REGISTRY[i]];
      }
    }
    assert REGISTRY[..|REGISTRY|] == REGISTRY;
    var wrap := WrapTransform(from, to);
    if wrap.Some? {
      candidates := candidates + [wrap.value];
    }
    connection := Connection(false, candidates, false);
  }

  /** The first registered transform of that name, which is the only one. */
  method FindTransform(name: string) returns (found: Option<Transform>)
    ensures found.Some? ==> found.value in REGISTRY && found.value.name == name
    ensures found.None? ==> forall t :: t in REGISTRY ==> t.name != name
  {
    for i := 0 to |REGISTRY|
      invariant forall j :: 0 <= j < i ==> REGISTRY[j].name != name
    {
      if REGISTRY[i].name == name {
        return Some(REGISTRY[i]);
      }
    }
    found := None;
  }

  /** Everything a name may resolve to for one pair of sockets. */
  predicate Resolves(name: string, from: Type, to: Type, transform: Transform) {
    transform.name == name &&
    (transform in REGISTRY || (name == "wrap" && WrapTransform(from, to) == Some(transform)))
  }

  method ResolveTransform(name: string, from: Type, to: Type) returns (found: Option<Transform>)
    ensures found.Some? ==> Resolves(name, from, to, found.value)
    ensures found.None? ==> forall t :: !Resolves(name, from, to, t)
  {
    found := FindTransform(name);
    if found.Some? {
      return;
    }
    if name == "wrap" {
      found := WrapTransform(from, to);
      return;
    }
    found := None;
  }

  /** A name resolves to at most one transform, so ResolveTransform's answer is
      the only possible one. */
  lemma ResolutionIsUnique(name: string, from: Type, to: Type, t: Transform, u: Transform)
    requires Resolves(name, from, to, t) && Resolves(name, from, to, u)
    ensures t == u
  {
    if t in REGISTRY && u in REGISTRY {
      var i :| 0 <= i < |REGISTRY| && REGISTRY[i] == t;
      var j :| 0 <= j < |REGISTRY| && REGISTRY[j] == u;
      assert i == j;
    }
  }

  lemma {:induction false} FittingIsFilter(transforms: seq<Transform>, from: Type, to: Type)
    ensures forall t :: t in FittingFrom(transforms, from, to) <==> t in transforms && Fits(t, from, to)
    decreases |transforms|
  {
    if transforms != [] {
      var last := |transforms| - 1;
      FittingIsFilter(transforms[..last], from, to);
      assert transforms == transforms[..last] + [transforms[last]];
    }
  }

  /** Every candidate has a source that accepts `from` and a result `to`
      accepts, is complete with respect to the registry, and resolves by name
      back to itself. */
  lemma CandidatesFitAndResolve(from: Type, to: Type)
    requires !ConnectionOf(from, to).direct
    ensures forall c :: c in ConnectionOf(from, to).candidates <==>
              (c in REGISTRY && Fits(c, from, to)) || WrapTransform(from, to) == Some(c)
    ensures forall c :: c in ConnectionOf(from, to).candidates ==>
              IsSubtypeOf(from, c.from) && IsSubtypeOf(c.to, to) && Resolves(c.name, from, to, c)
  {
    FittingIsFilter(REGISTRY, from, to);
  }

  /** The transforms that would bridge two sockets, as a condition rather than a
      list. */
  predicate Bridges(c: Transform, from: Type, to: Type) {
    (c in REGISTRY && Fits(c, from, to)) || WrapTransform(from, to) == Some(c)
  }

  predicate DistinctNames(ts: seq<Transform>) {
    forall i, j :: 0 <= i < j < |ts| ==> ts[i].name != ts[j].name
  }

  lemma {:induction false} FittingKeepsDistinct(transforms: seq<Transform>, from: Type, to: Type)
    requires DistinctNames(transforms)
    ensures DistinctNames(FittingFrom(transforms, from, to))
    decreases |transforms|
  {
    if transforms != [] {
      var last := |transforms| - 1;
      FittingKeepsDistinct(transforms[..last], from, to);
      FittingIsFilter(transforms[..last], from, to);
      AppendKeepsDistinct(FittingFrom(transforms[..last], from, to), transforms[..last], transforms[last]);
    }
  }

  lemma AppendKeepsDistinct(ts: seq<Transform>, within: seq<Transform>, t: Transform)
    requires DistinctNames(ts)
    requires forall u :: u in ts ==> u in within
    requires forall u :: u in within ==> u.name != t.name
    ensures DistinctNames(ts + [t])
  {
    assert forall i :: 0 <= i < |ts| ==> ts[i] in ts;
  }

  lemma OfferedAreDistinct(from: Type, to: Type)
    ensures DistinctNames(Offered(from, to))
  {
    FittingKeepsDistinct(REGISTRY, from, to);
    FittingIsFilter(REGISTRY, from, to);
    if WrapTransform(from, to).Some? {
      AppendKeepsDistinct(FittingFrom(REGISTRY, from, to), REGISTRY, WrapTransform(from, to).value);
    }
  }

  lemma SingletonByMembership(cs: seq<Transform>, t: Transform)
    requires DistinctNames(cs)
    ensures cs == [t] <==> t in cs && forall c :: c in cs ==> c == t
  {
    if |cs| > 1 {
      assert cs[0] in cs && cs[1] in cs && cs[0] != cs[1];
    }
  }

  /** A transform is attached without asking exactly when the sockets are not
      directly connectable and it is the one and only bridge between them. */
  lemma AutoApplyIsForced(from: Type, to: Type, t: Transform)
    ensures ConnectionOf(from, to).AutoApply() == Some(t) <==>
              !ConnectionOf(from, to).direct && Bridges(t, from, to) && !t.ambiguous &&
              (forall c :: Bridges(c, from, to) ==> c == t)
    ensures ConnectionOf(from, to).typeUnsafe <==> IsSubtypeOf(to, from) && !IsSubtypeOf(from, to)
  {
    var connection := ConnectionOf(from, to);
    if !connection.direct {
      OfferedAreDistinct(from, to);
      SingletonByMembership(connection.candidates, t);
      CandidatesFitAndResolve(from, to);
      assert forall c :: Bridges(c, from, to) <==> c in connection.candidates;
    }
  }

  /** Reaching a socket other than by narrowing or by shared representation. */
  predicate Reaches(from: Type, to: Type) {
    || IsSubtypeOf(from, to)
    || (exists t :: t in REGISTRY && Fits(t, from, to))
    || WrapTransform(from, to).Some?
  }

  /** A connection is allowed exactly when the value reaches the socket, the
      socket narrows the value, or the two are one representation. */
  lemma AllowedExactly(from: Type, to: Type)
    ensures ConnectionOf(from, to).Allowed() <==>
              Reaches(from, to) || IsSubtypeOf(to, from) || SameRepresentation(from, to)
    ensures ConnectionOf(from, to).direct <==>
              IsSubtypeOf(from, to) || IsSubtypeOf(to, from) || SameRepresentation(from, to)
    ensures ConnectionOf(from, to).direct ==> ConnectionOf(from, to).candidates == []
  {
    if !ConnectionOf(from, to).direct {
      CandidatesFitAndResolve(from, to);
      var c := ConnectionOf(from, to).candidates;
      if |c| > 0 {
        assert c[0] in c;
      }
      if Reaches(from, to) {
        if t :| t in REGISTRY && Fits(t, from, to) {
          assert t in c;
        } else {
          assert WrapTransform(from, to).value in c;
        }
      }
    }
  }

  /** Reaching is monotone: a subtype of the source reaches every supertype of
      the target, so the connection stays allowed. */
  lemma ReachIsMonotone(from: Type, to: Type, narrower: Type, wider: Type)
    requires Reaches(from, to)
    requires IsSubtypeOf(narrower, from) && IsSubtypeOf(to, wider)
    ensures Reaches(narrower, wider)
    ensures ConnectionOf(narrower, wider).Allowed()
  {
    if IsSubtypeOf(from, to) {
      SubtypeTransitive(narrower, from, to);
      SubtypeTransitive(narrower, to, wider);
    } else if t :| t in REGISTRY && Fits(t, from, to) {
      SubtypeTransitive(narrower, from, t.from);
      SubtypeTransitive(t.to, to, wider);
      assert Fits(t, narrower, wider);
    } else {
      WrapIsMonotone(from, to, narrower, wider);
    }
    AllowedExactly(narrower, wider);
  }

  // A list below a wrapped scalar can only sit below "any", so wrapping turns
  // into plain subtyping there.
  lemma WrapIsMonotone(from: Type, to: Type, narrower: Type, wider: Type)
    requires WrapTransform(from, to).Some?
    requires IsSubtypeOf(narrower, from) && IsSubtypeOf(to, wider)
    ensures WrapTransform(narrower, wider).Some? || IsSubtypeOf(narrower, wider)
  {
    AnyIsTop(narrower);
    if wider != TYPE_ANY {
      var element := ElementType(to).value;
      SubtypeTransitive(narrower, from, element);
      var widerElement := ElementType(wider).value;
      SubtypeTransitive(narrower, element, widerElement);
      if ElementType(narrower).Some? {
        assert from == TYPE_ANY;
        SubtypeTransitive(TYPE_ANY, element, widerElement);
        AnyIsTop(widerElement);
      }
    }
  }

  // ---------------------------------------------------------------------
  // Exactly which connections every subtype inherits
  // ---------------------------------------------------------------------

  lemma {:induction false} WrappedSubtyping(layers: nat, a: Type, b: Type)
    ensures IsSubtypeOf(Wrapped(layers, a), Wrapped(layers, b)) <==> IsSubtypeOf(a, b)
    decreases layers
  {
    hide IsSubtypeOf, ListOf;
    if layers > 0 {
      WrappedSubtyping(layers - 1, a, b);
      ListSubtyping(Wrapped(layers - 1, a), Wrapped(layers - 1, b));
    }
  }

  lemma ListElement(e: Type)
    ensures ElementType(ListOf(e)) == Some(e)
  {
    var t := ListOf(e);
    assert t[|t| - 1..] == LIST_SUFFIX && t[|LIST_PREFIX|..|t| - 1] == e;
  }

  lemma ListRepresentation(a: Type, b: Type)
    ensures SameRepresentation(ListOf(a), ListOf(b)) <==> SameRepresentation(a, b)
  {
    ListElement(a);
    ListElement(b);
    hide ElementType, ListOf, RepresentationOf;
  }

  lemma {:induction false} WrappedRepresentation(layers: nat, a: Type, b: Type)
    ensures SameRepresentation(Wrapped(layers, a), Wrapped(layers, b)) <==> SameRepresentation(a, b)
    decreases layers
  {
    hide SameRepresentation, ListOf;
    if layers > 0 {
      WrappedRepresentation(layers - 1, a, b);
      ListRepresentation(Wrapped(layers - 1, a), Wrapped(layers - 1, b));
    }
  }

  /** Equally many list layers on both names, and no list left on the first. */
  ghost predicate SharedLayers(from: Type, to: Type, layers: nat, a: Type, b: Type) {
    from == Wrapped(layers, a) && to == Wrapped(layers, b) && ElementType(a).None?
  }

  lemma {:induction false} RepresentationHasLayers(from: Type, to: Type) returns (layers: nat, a: Type, b: Type)
    requires SameRepresentation(from, to)
    ensures SharedLayers(from, to, layers, a, b)
    decreases |from|
  {
    if ElementType(from).None? {
      return 0, from, to;
    }
    layers, a, b := RepresentationHasLayers(ElementType(from).value, ElementType(to).value);
    layers := layers + 1;
  }

  lemma NarrowingHasLayers(from: Type, to: Type) returns (layers: nat, a: Type, b: Type)
    requires IsSubtypeOf(to, from) && from != to
    ensures SharedLayers(from, to, layers, a, b)
  {
    SubtypeHasLayers(to, from);
    var k: nat, x: Type, y: Type :| to == Wrapped(k, x) && from == Wrapped(k, y) && CoreSubtype(x, y);
    AnyIsTop(x);
    layers, a, b := k, y, x;
  }

  const LONGEST_NAME := 12

  function Zs(n: nat): string { seq(n, _ => 'z') }

  /** A subtype of a scalar that no registered name and no name as short as
      `other` can be. */
  function FreshBelow(a: Type, other: Type): Type {
    a + "." + Zs(LONGEST_NAME + |other| + 1)
  }

  // Everything above the fresh name, itself apart, is above the name it extends.
  lemma AboveFresh(a: Type, other: Type, super: Type)
    requires ElementType(a).None?
    ensures var z := FreshBelow(a, other);
            && ElementType(z).None? && IsSubtypeOf(z, a)
            && (IsSubtypeOf(z, super) && super != z ==> IsSubtypeOf(a, super))
            && (IsSubtypeOf(super, z) ==> |z| <= |super|)
  {
    var z := FreshBelow(a, other);
    ScalarByLastLetter(z);
    assert a + "." <= z;
    if IsSubtypeOf(z, super) && super != z && super != TYPE_ANY {
      DottedPrefixesNest(z, a, super);
      assert |super| <= |a| by {
        assert z[|super|] == (super + ".")[|super|] == '.';
      }
    }
  }

  /** The subtype of the source that loses the connection: the fresh name, under
      the layers both sides share. */
  lemma FreshIsRefused(from: Type, to: Type, layers: nat, a: Type, b: Type)
    requires SharedLayers(from, to, layers, a, b) && !Reaches(from, to)
    ensures var n := Wrapped(layers, FreshBelow(a, b));
            IsSubtypeOf(n, from) && !ConnectionOf(n, to).Allowed()
  {
    var z := FreshBelow(a, b);
    var n := Wrapped(layers, z);
    AboveFresh(a, b, b);
    WrappedSubtyping(layers, z, a);
    WrappedSubtyping(layers, z, b);
    WrappedSubtyping(layers, b, z);
    WrappedSubtyping(layers, a, b);
    WrappedRepresentation(layers, z, b);
    assert RepresentationOf(z).None?;
    FreshMissesTransforms(from, to, layers, a, b);
    FreshMissesWrap(from, to, layers, a, b);
    AllowedExactly(n, to);
  }

  lemma FreshMissesTransforms(from: Type, to: Type, layers: nat, a: Type, b: Type)
    requires SharedLayers(from, to, layers, a, b) && !Reaches(from, to)
    ensures forall t :: t in REGISTRY ==> !Fits(t, Wrapped(layers, FreshBelow(a, b)), to)
  {
    forall t | t in REGISTRY ensures !Fits(t, Wrapped(layers, FreshBelow(a, b)), to) {
      assert t.from in ["path.file", "path.dir", "path", "media.file", "string", "number"];
      ScalarByLastLetter(t.from);
      assert !Fits(t, from, to);
      AboveFresh(a, b, t.from);
      if layers > 0 {
        ListSubtyping(Wrapped(layers - 1, FreshBelow(a, b)), t.from);
      }
    }
  }

  lemma FreshMissesWrap(from: Type, to: Type, layers: nat, a: Type, b: Type)
    requires SharedLayers(from, to, layers, a, b) && !Reaches(from, to)
    ensures WrapTransform(Wrapped(layers, FreshBelow(a, b)), to).None?
  {
    if layers > 0 {
      ListElement(Wrapped(layers - 1, FreshBelow(a, b)));
    } else if ElementType(b).Some? {
      AboveFresh(a, b, ElementType(b).value);
    }
  }

  /** A connection is inherited by every subtype of the source and every
      supertype of the target exactly when the source reaches the target: what
      narrowing or a shared representation alone allows, some subtype loses. */
  lemma InheritedExactly(from: Type, to: Type)
    ensures (forall n, w :: IsSubtypeOf(n, from) && IsSubtypeOf(to, w) ==> ConnectionOf(n, w).Allowed()) <==>
              Reaches(from, to)
  {
    if Reaches(from, to) {
      forall n, w | IsSubtypeOf(n, from) && IsSubtypeOf(to, w) ensures ConnectionOf(n, w).Allowed() {
        ReachIsMonotone(from, to, n, w);
      }
    } else if ConnectionOf(from, to).Allowed() {
      AllowedExactly(from, to);
      var layers: nat, a: Type, b: Type;
      if IsSubtypeOf(to, from) {
        layers, a, b := NarrowingHasLayers(from, to);
      } else {
        layers, a, b := RepresentationHasLayers(from, to);
      }
      FreshIsRefused(from, to, layers, a, b);
      assert IsSubtypeOf(to, to);
    } else {
      assert IsSubtypeOf(from, from) && IsSubtypeOf(to, to);
    }
  }

  /** Shared representation is not monotone: agent.slug and string are one
      representation, yet a subtype of agent.slug may not feed a string. */
  lemma RepresentationIsNotMonotone()
    ensures ConnectionOf("agent.slug", "string").Allowed()
    ensures IsSubtypeOf("agent.slug.x", "agent.slug")
    ensures !ConnectionOf("agent.slug.x", "string").Allowed()
  {
    var sub := "agent.slug.x";
    ScalarByLastLetter("agent.slug");
    ScalarByLastLetter("string");
    ScalarByLastLetter(sub);
    assert "agent.slug" + "." <= sub;
    assert sub[0] == 'a' && "string"[0] == 's';
    FirstLettersDiffer(sub, "string");
    FirstLettersDiffer("string", sub);
    assert |sub| == 12 && |"media.file"| == 10 && |"path.file"| == 9 && |"agent.slug"| == 10 && |"scanner.slug"| == 12;
    assert "scanner.slug"[0] == 's';
    NothingLeaves(sub);
    AllowedExactly(sub, "string");
  }

  // No registered transform starts from a name beginning with 'a'.
  lemma NothingLeaves(sub: Type)
    requires |sub| > 0 && sub[0] == 'a'
    ensures forall t :: t in REGISTRY ==> !IsSubtypeOf(sub, t.from)
  {
    forall t | t in REGISTRY ensures !IsSubtypeOf(sub, t.from) {
      assert t.from in ["path.file", "path.dir", "path", "media.file", "string", "number"];
      ScalarByLastLetter(t.from);
      FirstLettersDiffer(sub, t.from);
    }
  }

  /** Narrowing is not monotone either: agent may narrow to agent.slug, but the
      sibling agent.name may not feed the same socket. */
  lemma NarrowingIsNotMonotone()
    ensures ConnectionOf("agent", "agent.slug").Allowed() && ConnectionOf("agent", "agent.slug").typeUnsafe
    ensures IsSubtypeOf("agent.name", "agent")
    ensures !ConnectionOf("agent.name", "agent.slug").Allowed()
  {
    ScalarByLastLetter("agent");
    ScalarByLastLetter("agent.slug");
    ScalarByLastLetter("agent.name");
    assert "agent" + "." <= "agent.slug" && "agent" + "." <= "agent.name";
    assert |"agent"| == 5 && |"agent.slug"| == 10 && |"agent.name"| == 10 && |"media.file"| == 10 && |"path.file"| == 9;
    assert "agent.slug"[6] == 's' && "agent.name"[6] == 'n' && "agent.name"[0] == 'a' && "media.file"[0] == 'm';
    NothingLeaves("agent.name");
    AllowedExactly("agent.name", "agent.slug");
  }
}

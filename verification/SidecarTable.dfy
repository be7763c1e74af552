/** The compiled sidecar classification table: which stored tables are accepted,
    and which entry a file name falls to. */
module SidecarTable {
  import opened Options
  import opened ConfigModel
  import GoPath

  /** What the table asks of the regular-expression and string libraries. */
  datatype Language = Language(
    compiles: string -> bool,
    matches: (string, string) -> bool,
    trimLower: string -> string,
    lower: string -> string)

  const CATEGORIES: seq<string> :=
    ["image", "video_extra", "subtitle", "metadata", "audio", "disc_structure", "trickplay", "unknown"]

  datatype Definition = Definition(
    id: string, typeName: string, category: string, order: int, patterns: seq<string>, extensions: seq<string>)

  /** definitions are the enabled entries in evaluation order; all and byName
      carry the disabled ones too. */
  datatype Registry = Registry(definitions: seq<Definition>, all: seq<Definition>, byName: map<string, Definition>)

  datatype Reason =
    | TypeRequired | IdRequired | IdTaken | TypeTaken | OrderTaken | UnknownCategory | NoPattern | BadPattern(pattern: string)

  datatype Problem = Problem(index: nat, reason: Reason)

  // ---------------------------------------------------------------------
  // What makes a table acceptable
  // ---------------------------------------------------------------------

  predicate EntryIsSound(lang: Language, e: SidecarEntry) {
    && e.typeName != "" && e.id != "" && e.category in CATEGORIES
    && e.patterns != [] && forall p :: p in e.patterns ==> lang.compiles(p)
  }

  /** Two entries that cannot stand in one table. */
  predicate Clash(a: SidecarEntry, b: SidecarEntry) {
    a.id == b.id || a.typeName == b.typeName || (a.order == b.order && a.order != 0)
  }

  predicate NoClashes(entries: seq<SidecarEntry>) {
    forall i, j :: 0 <= i < j < |entries| ==> !Clash(entries[i], entries[j])
  }

  predicate Compilable(lang: Language, entries: seq<SidecarEntry>) {
    (forall e :: e in entries ==> EntryIsSound(lang, e)) && NoClashes(entries)
  }

  function WithDot(extension: string): string {
    if extension == "" || extension[0] == '.' then extension else "." + extension
  }

  /** Extensions trimmed, lowered and given a leading dot; blanks dropped. */
  function NormalExtensions(lang: Language, extensions: seq<string>): (r: seq<string>)
    ensures forall x :: x in r <==> x != "" && exists e :: e in extensions && x == WithDot(lang.trimLower(e))
  {
    if extensions == [] then []
    else
      var last := extensions[|extensions| - 1];
      assert forall e :: e in extensions <==> e in extensions[..|extensions| - 1] || e == last;
      NormalExtensions(lang, extensions[..|extensions| - 1]) +
      if lang.trimLower(last) == "" then [] else [WithDot(lang.trimLower(last))]
  }

  method NormalizedExtensions(lang: Language, extensions: seq<string>) returns (normalized: seq<string>)
    ensures normalized == NormalExtensions(lang, extensions)
  {
    normalized := [];
    for k := 0 to |extensions|
      invariant normalized == NormalExtensions(lang, extensions[..k])
    {
      assert extensions[..k + 1][..k] == extensions[..k];
      var extension := lang.trimLower(extensions[k]);
      if extension != "" {
        if extension[0] != '.' {
          extension := "." + extension;
        }
        normalized := normalized + [extension];
      }
    }
    assert extensions[..|extensions|] == extensions;
  }

  function Compiled(lang: Language, e: SidecarEntry): Definition {
    Definition(e.id, e.typeName, e.category, e.order, e.patterns, NormalExtensions(lang, e.extensions))
  }

  function AllCompiled(lang: Language, entries: seq<SidecarEntry>): (r: seq<Definition>)
    ensures |r| == |entries| && forall i :: 0 <= i < |r| ==> r[i] == Compiled(lang, entries[i])
  {
    seq(|entries|, i requires 0 <= i < |entries| => Compiled(lang, entries[i]))
  }

  // ---------------------------------------------------------------------
  // Sorting by order
  // ---------------------------------------------------------------------

  const MAX_INT := 0x7fff_ffff_ffff_ffff

  function SortKey(d: Definition): int {
    if d.order == 0 then MAX_INT else d.order
  }

  predicate SortedByKey(s: seq<Definition>) {
    forall i, j :: 0 <= i < j < |s| ==> SortKey(s[i]) <= SortKey(s[j])
  }

  predicate OrdersDiffer(s: seq<Definition>) {
    forall i, j :: 0 <= i < j < |s| ==> s[i].order != s[j].order
  }

  function Insert(s: seq<Definition>, d: Definition): (r: seq<Definition>)
    requires SortedByKey(s)
    ensures SortedByKey(r) && forall x :: x in r <==> x in s || x == d
  {
    if s == [] || SortKey(s[|s| - 1]) <= SortKey(d) then s + [d]
    else
      var init, last := s[..|s| - 1], s[|s| - 1];
      var r := Insert(init, d);
      assert s == init + [last];
      LastIsGreatest(s, r, d);
      r + [last]
  }

  lemma LastIsGreatest(s: seq<Definition>, r: seq<Definition>, d: Definition)
    requires s != [] && SortedByKey(s) && SortKey(d) < SortKey(s[|s| - 1])
    requires forall x :: x in r ==> x in s[..|s| - 1] || x == d
    ensures forall i :: 0 <= i < |r| ==> SortKey(r[i]) <= SortKey(s[|s| - 1])
  {
    forall i | 0 <= i < |r| ensures SortKey(r[i]) <= SortKey(s[|s| - 1]) {
      assert r[i] in r;
      if r[i] != d {
        var j :| 0 <= j < |s| - 1 && s[..|s| - 1][j] == r[i];
        assert SortKey(s[j]) <= SortKey(s[|s| - 1]);
      }
    }
  }

  /** What the library sort returns. */
  function Sorted(s: seq<Definition>): (r: seq<Definition>)
    ensures SortedByKey(r) && forall x :: x in r <==> x in s
  {
    if s == [] then []
    else
      assert s == s[..|s| - 1] + [s[|s| - 1]];
      Insert(Sorted(s[..|s| - 1]), s[|s| - 1])
  }

  lemma {:induction false} InsertAddsOne(s: seq<Definition>, d: Definition)
    requires SortedByKey(s)
    ensures multiset(Insert(s, d)) == multiset(s) + multiset{d}
    decreases |s|
  {
    if s != [] && SortKey(s[|s| - 1]) > SortKey(d) {
      InsertAddsOne(s[..|s| - 1], d);
      assert s == s[..|s| - 1] + [s[|s| - 1]];
    }
  }

  /** Sorting neither drops nor repeats an entry. */
  lemma {:induction false} SortingPermutes(s: seq<Definition>)
    ensures multiset(Sorted(s)) == multiset(s)
    decreases |s|
  {
    hide Insert, SortedByKey;
    if s != [] {
      SortingPermutes(s[..|s| - 1]);
      InsertAddsOne(Sorted(s[..|s| - 1]), s[|s| - 1]);
      assert s == s[..|s| - 1] + [s[|s| - 1]];
    }
  }

  lemma {:induction false} InsertKeepsOrdersApart(s: seq<Definition>, d: Definition)
    requires SortedByKey(s) && OrdersDiffer(s) && forall x :: x in s ==> x.order != d.order
    ensures OrdersDiffer(Insert(s, d))
    decreases |s|
  {
    if s != [] && SortKey(s[|s| - 1]) > SortKey(d) {
      var init, last := s[..|s| - 1], s[|s| - 1];
      InsertKeepsOrdersApart(init, d);
      forall x | x in Insert(init, d) ensures x.order != last.order {
        if x in init {
          var i :| 0 <= i < |init| && init[i] == x;
          assert s[i].order != s[|s| - 1].order;
        } else {
          assert last in s;
        }
      }
    }
  }

  lemma {:induction false} SortingKeepsOrdersApart(s: seq<Definition>)
    requires OrdersDiffer(s)
    ensures OrdersDiffer(Sorted(s))
    decreases |s|
  {
    if s != [] {
      SortingKeepsOrdersApart(s[..|s| - 1]);
      InsertKeepsOrdersApart(Sorted(s[..|s| - 1]), s[|s| - 1]);
    }
  }

  function Enabled(s: seq<Definition>): (r: seq<Definition>)
    ensures forall d :: d in r <==> d in s && d.order != 0
  {
    if s == [] then []
    else
      var init, last := s[..|s| - 1], s[|s| - 1];
      assert s == init + [last];
      Enabled(init) + if last.order != 0 then [last] else []
  }

  lemma OrdersAppend(s: seq<Definition>, d: Definition)
    requires OrdersDiffer(s) && forall x :: x in s ==> x.order != d.order
    ensures OrdersDiffer(s + [d])
  {
  }

  lemma {:induction false} EnabledDiffer(s: seq<Definition>)
    requires forall i, j :: 0 <= i < j < |s| ==> s[i].order != s[j].order || s[i].order == 0
    ensures OrdersDiffer(Enabled(s))
    decreases |s|
  {
    if s != [] {
      var n := |s| - 1;
      EnabledDiffer(s[..n]);
      if s[n].order != 0 {
        forall d | d in Enabled(s[..n]) ensures d.order != s[n].order {
          var i :| 0 <= i < n && s[i] == d;
        }
        hide OrdersDiffer;
        OrdersAppend(Enabled(s[..n]), s[n]);
      }
    }
  }

  lemma EnabledAreStrict(lang: Language, entries: seq<SidecarEntry>)
    requires NoClashes(entries)
    ensures StrictlySorted(Sorted(Enabled(AllCompiled(lang, entries))))
  {
    hide NormalExtensions;
    var all := AllCompiled(lang, entries);
    forall i, j | 0 <= i < j < |all| ensures all[i].order != all[j].order || all[i].order == 0 {
      assert !Clash(entries[i], entries[j]);
    }
    EnabledDiffer(all);
    SortingKeepsOrdersApart(Enabled(AllCompiled(lang, entries)));
    var s := Sorted(Enabled(AllCompiled(lang, entries)));
    forall i, j | 0 <= i < j < |s| ensures s[i].order < s[j].order {
      assert s[i] in s && s[j] in s;
      assert SortKey(s[i]) <= SortKey(s[j]);
    }
  }

  predicate StrictlySorted(s: seq<Definition>) {
    forall i, j :: 0 <= i < j < |s| ==> s[i].order < s[j].order
  }

  /** Holding the same entries in strictly rising order leaves no choice. */
  lemma {:induction false} StrictOrderIsUnique(s: seq<Definition>, t: seq<Definition>)
    requires StrictlySorted(s) && StrictlySorted(t) && forall d :: d in s <==> d in t
    ensures s == t
    decreases |s|
  {
    if s != [] {
      assert s[0] in t;
      assert t[0] in s;
      forall d ensures d in s[1..] <==> d in t[1..] {
        InTail(s, d);
        InTail(t, d);
      }
      StrictOrderIsUnique(s[1..], t[1..]);
      assert s == [s[0]] + s[1..] && t == [t[0]] + t[1..];
    } else if t != [] {
      var _ := FirstMember(t);
      assert false;
    }
  }

  lemma FirstMember<T>(s: seq<T>) returns (x: T)
    requires s != []
    ensures x in s
  {
    x := s[0];
  }

  lemma InTail(s: seq<Definition>, d: Definition)
    requires s != [] && StrictlySorted(s)
    ensures d in s[1..] <==> d in s && d != s[0]
  {
    if d in s && d != s[0] {
      var i :| 0 <= i < |s| && s[i] == d;
      assert s[1..][i - 1] == d;
    }
  }

  // ---------------------------------------------------------------------
  // Building the registry
  // ---------------------------------------------------------------------

  /** The state of the building loop when nothing has been refused so far. */
  datatype Build = Build(
    kept: seq<Definition>, byName: map<string, Definition>, idsSeen: map<string, string>, ordersSeen: map<int, string>)

  ghost predicate Holds(lang: Language, b: Build, done: seq<SidecarEntry>) {
    && b.kept == AllCompiled(lang, done)
    && b.idsSeen.Keys == Ids(done) && b.byName.Keys == TypeNames(done) && b.ordersSeen.Keys == Orders(done)
    && (forall i :: 0 <= i < |done| ==> b.byName[done[i].typeName] == b.kept[i])
  }

  function Ids(entries: seq<SidecarEntry>): set<string> {
    set e | e in entries :: e.id
  }

  function TypeNames(entries: seq<SidecarEntry>): set<string> {
    set e | e in entries :: e.typeName
  }

  function Orders(entries: seq<SidecarEntry>): set<int> {
    set e | e in entries && e.order != 0 :: e.order
  }

  lemma PrefixCompiles(lang: Language, entries: seq<SidecarEntry>, k: nat)
    requires k <= |entries| && Compilable(lang, entries)
    ensures Compilable(lang, entries[..k])
  {
    assert forall i :: 0 <= i < k ==> entries[..k][i] == entries[i];
  }

  // A refused table stays refused however it goes on.
  lemma RefusalStays(lang: Language, entries: seq<SidecarEntry>, k: nat)
    requires k <= |entries| && !Compilable(lang, entries[..k])
    ensures !Compilable(lang, entries)
  {
    if Compilable(lang, entries) {
      PrefixCompiles(lang, entries, k);
    }
  }

  // The checks the loop makes decide whether one more entry fits.
  lemma OneMoreEntry(lang: Language, b: Build, done: seq<SidecarEntry>, e: SidecarEntry)
    requires Compilable(lang, done) && Holds(lang, b, done)
    ensures Compilable(lang, done + [e]) <==>
      EntryIsSound(lang, e) && e.id !in b.idsSeen && e.typeName !in b.byName && (e.order == 0 || e.order !in b.ordersSeen)
  {
    var next := done + [e];
    if i :| 0 <= i < |done| && Clash(done[i], e) {
      assert Clash(next[i], next[|done|]);
      assert done[i] in done;
    } else {
      assert forall i :: 0 <= i < |done| ==> !Clash(done[i], e);
      assert EntryIsSound(lang, e) ==> Compilable(lang, next);
    }
    assert next[|done|] == e;
  }

  // The first rule an entry breaks, in the order the loop tests them.
  method FirstFault(b: Build, e: SidecarEntry) returns (fault: Option<Reason>)
    ensures fault.None? <==>
      && e.typeName != "" && e.id != "" && e.category in CATEGORIES && e.patterns != []
      && e.id !in b.idsSeen && e.typeName !in b.byName && (e.order == 0 || e.order !in b.ordersSeen)
  {
    if e.typeName == "" {
      return Some(TypeRequired);
    }
    if e.id == "" {
      return Some(IdRequired);
    }
    if e.id in b.idsSeen {
      return Some(IdTaken);
    }
    if e.typeName in b.byName {
      return Some(TypeTaken);
    }
    if e.order != 0 && e.order in b.ordersSeen {
      return Some(OrderTaken);
    }
    if e.category !in CATEGORIES {
      return Some(UnknownCategory);
    }
    if e.patterns == [] {
      return Some(NoPattern);
    }
    fault := None;
  }

  method BadPatterns(lang: Language, index: nat, patterns: seq<string>) returns (problems: seq<Problem>)
    ensures problems == [] <==> forall p :: p in patterns ==> lang.compiles(p)
    ensures forall p :: p in problems ==> p.index == index
  {
    problems := [];
    for k := 0 to |patterns|
      invariant problems == [] <==> forall p :: p in patterns[..k] ==> lang.compiles(p)
      invariant forall p :: p in problems ==> p.index == index
    {
      assert patterns[..k + 1] == patterns[..k] + [patterns[k]];
      if !lang.compiles(patterns[k]) {
        problems := problems + [Problem(index, BadPattern(patterns[k]))];
      }
    }
    assert patterns[..|patterns|] == patterns;
  }

  function Registered(b: Build, d: Definition): Build {
    Build(b.kept + [d], b.byName[d.typeName := d], b.idsSeen[d.id := d.typeName],
          if d.order != 0 then b.ordersSeen[d.order := d.typeName] else b.ordersSeen)
  }

  lemma RegisteredHolds(lang: Language, b: Build, done: seq<SidecarEntry>, e: SidecarEntry)
    requires Holds(lang, b, done) && e.typeName !in b.byName
    ensures Holds(lang, Registered(b, Compiled(lang, e)), done + [e])
  {
    hide NormalExtensions, Ids, TypeNames, Orders;
    KeysGrow(done, e);
    NamedInSet(done);
  }

  lemma NamedInSet(done: seq<SidecarEntry>)
    ensures forall i :: 0 <= i < |done| ==> done[i].typeName in TypeNames(done)
  {
    assert forall i :: 0 <= i < |done| ==> done[i] in done;
  }

  lemma KeysGrow(done: seq<SidecarEntry>, e: SidecarEntry)
    ensures Ids(done + [e]) == Ids(done) + {e.id}
    ensures TypeNames(done + [e]) == TypeNames(done) + {e.typeName}
    ensures Orders(done + [e]) == Orders(done) + if e.order != 0 then {e.order} else {}
  {
    assert forall x :: x in done + [e] <==> x in done || x == e;
  }

  /** The registry an acceptable table stands for. */
  ghost predicate BuiltFrom(lang: Language, r: Registry, entries: seq<SidecarEntry>) {
    && StrictlySorted(r.definitions)
    && (forall d :: d in r.definitions <==> d in AllCompiled(lang, entries) && d.order != 0)
    && SortedByKey(r.all) && multiset(r.all) == multiset(AllCompiled(lang, entries))
    && NamesEntries(lang, r.byName, entries)
  }

  ghost predicate NamesEntries(lang: Language, byName: map<string, Definition>, entries: seq<SidecarEntry>) {
    && byName.Keys == TypeNames(entries)
    && (forall e :: e in entries ==> e.typeName in byName && byName[e.typeName] == Compiled(lang, e))
  }

  // One turn of the loop: every fault of one entry, or the entry registered.
  method Consider(lang: Language, index: nat, entry: SidecarEntry, b: Build)
    returns (faults: seq<Problem>, next: Build)
    ensures forall p :: p in faults ==> p.index == index
    ensures faults == [] <==>
      EntryIsSound(lang, entry) && entry.id !in b.idsSeen && entry.typeName !in b.byName &&
      (entry.order == 0 || entry.order !in b.ordersSeen)
    ensures faults == [] ==> next == Registered(b, Compiled(lang, entry))
  {
    var fault := FirstFault(b, entry);
    if fault.Some? {
      return [Problem(index, fault.value)], b;
    }
    var extensions := NormalizedExtensions(lang, entry.extensions);
    faults := BadPatterns(lang, index, entry.patterns);
    if faults != [] {
      return faults, b;
    }
    var definition := Definition(entry.id, entry.typeName, entry.category, entry.order, entry.patterns, extensions);
    next := Registered(b, definition);
  }

  lemma FaultsDecide(lang: Language, b: Build, table: seq<SidecarEntry>, k: nat, refused: bool, fits: bool)
    requires k < |table| && (refused <==> !Compilable(lang, table[..k])) && (!refused ==> Holds(lang, b, table[..k]))
    requires fits <==> EntryIsSound(lang, table[k]) && table[k].id !in b.idsSeen && table[k].typeName !in b.byName &&
                       (table[k].order == 0 || table[k].order !in b.ordersSeen)
    ensures !refused && fits <==> Compilable(lang, table[..k + 1])
    ensures !refused && fits ==> Holds(lang, Registered(b, Compiled(lang, table[k])), table[..k + 1])
  {
    assert table[..k + 1] == table[..k] + [table[k]];
    if refused {
      assert table[..k + 1][..k] == table[..k];
      RefusalStays(lang, table[..k + 1], k);
    } else {
      OneMoreEntry(lang, b, table[..k], table[k]);
      if fits {
        RegisteredHolds(lang, b, table[..k], table[k]);
      }
    }
  }

  method NewSidecarRegistry(lang: Language, defaults: seq<SidecarEntry>, entries: seq<SidecarEntry>)
    returns (r: Result<Registry, seq<Problem>>)
    ensures var table := if entries == [] then defaults else entries;
            && (r.Ok? <==> Compilable(lang, table))
            && (r.Ok? ==> BuiltFrom(lang, r.value, table))
            && (r.Err? ==> Reports(lang, r.error, table, |table|))
  {
    hide Compilable, Holds, Reports, BuiltFrom, EntryIsSound, Sorted, Enabled, Registered, Compiled;
    var table := if |entries| == 0 then defaults else entries;
    var problems: seq<Problem> := [];
    var b := Build([], map[], map[], map[]);
    NothingYet(lang, table);
    for k := 0 to |table|
      invariant problems == [] <==> Compilable(lang, table[..k])
      invariant problems == [] ==> Holds(lang, b, table[..k])
      invariant Reports(lang, problems, table, k)
    {
      var faults, next := Consider(lang, k, table[k], b);
      FaultsDecide(lang, b, table, k, problems != [], faults == []);
      MoreReports(lang, problems, faults, table, k);
      b := next;
      problems := problems + faults;
    }
    assert table[..|table|] == table;
    if problems != [] {
      return Err(problems);
    }
    r := Ok(Registry(Sorted(Enabled(b.kept)), Sorted(b.kept), b.byName));
    HeldIsBuilt(lang, b, table);
  }

  lemma NothingYet(lang: Language, table: seq<SidecarEntry>)
    ensures Compilable(lang, table[..0]) && Holds(lang, Build([], map[], map[], map[]), table[..0])
    ensures Reports(lang, [], table, 0)
  {
  }

  /** What the loop kept of a whole acceptable table, sorted, is its registry. */
  lemma HeldIsBuilt(lang: Language, b: Build, table: seq<SidecarEntry>)
    requires Compilable(lang, table) && Holds(lang, b, table)
    ensures BuiltFrom(lang, Registry(Sorted(Enabled(b.kept)), Sorted(b.kept), b.byName), table)
  {
    HeldNamesAreEntries(lang, b, table);
    hide EntryIsSound, Compiled, NamesEntries, Ids, TypeNames, Orders;
    EnabledAreStrict(lang, table);
    SortingPermutes(b.kept);
  }

  lemma HeldNamesAreEntries(lang: Language, b: Build, table: seq<SidecarEntry>)
    requires Holds(lang, b, table)
    ensures NamesEntries(lang, b.byName, table)
  {
  }

  lemma MoreReports(lang: Language, problems: seq<Problem>, faults: seq<Problem>, table: seq<SidecarEntry>, k: nat)
    requires k < |table| && Reports(lang, problems, table, k) && forall p :: p in faults ==> p.index == k
    requires faults == [] ==> EntryIsSound(lang, table[k])
    ensures Reports(lang, problems + faults, table, k + 1)
  {
    forall i | 0 <= i < k + 1 && !EntryIsSound(lang, table[i]) ensures exists p :: p in problems + faults && p.index == i {
      if i < k {
        var p :| p in problems && p.index == i;
        assert p in problems + faults;
      } else {
        assert faults[0] in problems + faults;
      }
    }
  }

  /** Every entry unsound on its own is among the reported ones. */
  ghost predicate Reports(lang: Language, problems: seq<Problem>, table: seq<SidecarEntry>, k: nat)
    requires k <= |table|
  {
    forall i :: 0 <= i < k && !EntryIsSound(lang, table[i]) ==> exists p :: p in problems && p.index == i
  }

  // ---------------------------------------------------------------------
  // Matching
  // ---------------------------------------------------------------------

  /** The extension gate and the patterns of one entry. */
  predicate Accepts(lang: Language, d: Definition, extension: string, baseName: string) {
    && (d.extensions == [] || extension in d.extensions)
    && exists p :: p in d.patterns && lang.matches(p, baseName)
  }

  method Match(lang: Language, r: Registry, fileName: string, ghost entries: seq<SidecarEntry>)
    returns (m: Option<Definition>)
    requires BuiltFrom(lang, r, entries)
    ensures IsMatch(lang, entries, fileName, m)
  {
    hide Accepts, GoPath.Ext, GoPath.Stem, AllCompiled, BuiltFrom, IsMatch;
    var extension := lang.lower(GoPath.Ext(fileName));
    var baseName := GoPath.Stem(fileName);
    for k := 0 to |r.definitions|
      invariant forall i :: 0 <= i < k ==> !Accepts(lang, r.definitions[i], extension, baseName)
    {
      if Accepts(lang, r.definitions[k], extension, baseName) {
        FirstIsMatch(lang, r, fileName, entries, k);
        return Some(r.definitions[k]);
      }
    }
    NoneIsMatch(lang, r, fileName, entries);
    m := None;
  }

  lemma FirstIsMatch(lang: Language, r: Registry, fileName: string, entries: seq<SidecarEntry>, k: nat)
    requires BuiltFrom(lang, r, entries) && k < |r.definitions|
    requires var extension, baseName := lang.lower(GoPath.Ext(fileName)), GoPath.Stem(fileName);
      && Accepts(lang, r.definitions[k], extension, baseName)
      && forall i :: 0 <= i < k ==> !Accepts(lang, r.definitions[i], extension, baseName)
    ensures IsMatch(lang, entries, fileName, Some(r.definitions[k]))
  {
    hide Accepts, GoPath.Ext, GoPath.Stem, AllCompiled, NamesEntries, SortedByKey;
    var extension, baseName := lang.lower(GoPath.Ext(fileName)), GoPath.Stem(fileName);
    LeastIsFirst(r.definitions, k, d => Accepts(lang, d, extension, baseName));
    hide StrictlySorted;
  }

  lemma NoneIsMatch(lang: Language, r: Registry, fileName: string, entries: seq<SidecarEntry>)
    requires BuiltFrom(lang, r, entries)
    requires var extension, baseName := lang.lower(GoPath.Ext(fileName)), GoPath.Stem(fileName);
      forall i :: 0 <= i < |r.definitions| ==> !Accepts(lang, r.definitions[i], extension, baseName)
    ensures IsMatch(lang, entries, fileName, None)
  {
    hide Accepts, GoPath.Ext, GoPath.Stem, AllCompiled, NamesEntries, SortedByKey, StrictlySorted;
  }

  lemma LeastIsFirst(s: seq<Definition>, k: nat, accepts: Definition -> bool)
    requires StrictlySorted(s) && k < |s| && forall i :: 0 <= i < k ==> !accepts(s[i])
    ensures s[k] in s && forall d :: d in s && accepts(d) ==> s[k].order <= d.order
  {
    forall d | d in s && accepts(d) ensures s[k].order <= d.order {
      var i :| 0 <= i < |s| && s[i] == d;
      assert k <= i;
    }
  }

  /** The entry of least order among the enabled ones that accept the file's stem and
      lowered extension, or none when none does. */
  ghost predicate IsMatch(lang: Language, entries: seq<SidecarEntry>, fileName: string, m: Option<Definition>) {
    var extension, baseName := lang.lower(GoPath.Ext(fileName)), GoPath.Stem(fileName);
    var candidates := AllCompiled(lang, entries);
    match m
    case None => forall d :: d in candidates && d.order != 0 ==> !Accepts(lang, d, extension, baseName)
    case Some(first) =>
      && first in candidates && first.order != 0 && Accepts(lang, first, extension, baseName)
      && (forall d :: d in candidates && d.order != 0 && Accepts(lang, d, extension, baseName) ==> first.order <= d.order)
  }

  /** Whether a stored entry takes a file: one of its patterns matches the stem, and
      the lowered extension is one it lists, trimmed, lowered and dotted, unless it
      lists none that is not blank. */
  ghost predicate Takes(lang: Language, e: SidecarEntry, extension: string, baseName: string) {
    && (exists p :: p in e.patterns && lang.matches(p, baseName))
    && ((forall x :: x in e.extensions ==> lang.trimLower(x) == "") || Lists(lang, e, extension))
  }

  ghost predicate Lists(lang: Language, e: SidecarEntry, extension: string) {
    exists x :: x in e.extensions && lang.trimLower(x) != "" &&
      extension == if lang.trimLower(x)[0] == '.' then lang.trimLower(x) else "." + lang.trimLower(x)
  }

  lemma AcceptsExactly(lang: Language, e: SidecarEntry, extension: string, baseName: string)
    ensures Accepts(lang, Compiled(lang, e), extension, baseName) <==> Takes(lang, e, extension, baseName)
  {
    var normal := NormalExtensions(lang, e.extensions);
    assert extension in normal <==> Lists(lang, e, extension);
    if x :| x in e.extensions && lang.trimLower(x) != "" {
      assert WithDot(lang.trimLower(x)) in normal;
    }
    if normal != [] {
      assert normal[0] in normal;
    }
  }

  /** The file falls to the stored entry of least order among the enabled ones that
      take it, and to none when none does. */
  ghost predicate FallsTo(lang: Language, entries: seq<SidecarEntry>, fileName: string, m: Option<Definition>) {
    var extension, baseName := lang.lower(GoPath.Ext(fileName)), GoPath.Stem(fileName);
    match m
    case None => forall e :: e in entries && e.order != 0 ==> !Takes(lang, e, extension, baseName)
    case Some(d) =>
      && (exists e :: e in entries && e.order != 0 && Takes(lang, e, extension, baseName) && Bears(d, e))
      && (forall e :: e in entries && e.order != 0 && Takes(lang, e, extension, baseName) ==> d.order <= e.order)
  }

  predicate Bears(d: Definition, e: SidecarEntry) {
    d.id == e.id && d.typeName == e.typeName && d.category == e.category && d.order == e.order && d.patterns == e.patterns
  }

  lemma MatchFallsTo(lang: Language, entries: seq<SidecarEntry>, fileName: string, m: Option<Definition>)
    requires IsMatch(lang, entries, fileName, m)
    ensures FallsTo(lang, entries, fileName, m)
  {
    var extension, baseName := lang.lower(GoPath.Ext(fileName)), GoPath.Stem(fileName);
    hide Accepts, Takes, NormalExtensions, GoPath.Ext, GoPath.Stem;
    var compiled := AllCompiled(lang, entries);
    forall e | e in entries ensures Compiled(lang, e) in compiled {
      var i :| 0 <= i < |entries| && entries[i] == e;
      assert compiled[i] == Compiled(lang, e);
    }
    forall e | e in entries
      ensures Accepts(lang, Compiled(lang, e), extension, baseName) <==> Takes(lang, e, extension, baseName) {
      AcceptsExactly(lang, e, extension, baseName);
    }
    if m.Some? {
      var i :| 0 <= i < |entries| && compiled[i] == m.value;
      assert entries[i] in entries && Bears(m.value, entries[i]);
    }
  }

  /** A type of the table resolves to its own entry, compiled, disabled or not, and
      any other name to nothing; enabled are exactly the entries with an order. */
  method Lookup(lang: Language, r: Registry, typeName: string, ghost entries: seq<SidecarEntry>)
    returns (found: Option<Definition>, enabled: bool)
    requires BuiltFrom(lang, r, entries)
    ensures found.Some? <==> typeName in TypeNames(entries)
    ensures forall e :: e in entries && e.typeName == typeName ==> found == Some(Compiled(lang, e)) && enabled == (e.order != 0)
    ensures found.None? ==> !enabled
    ensures enabled <==> exists d :: d in r.definitions && d.typeName == typeName
  {
    EnabledAreDefinitions(lang, r, entries, typeName);
    if typeName !in r.byName {
      return None, false;
    }
    found := Some(r.byName[typeName]);
    enabled := found.value.order != 0;
  }

  // A type takes part in matching exactly when its own entry is enabled.
  lemma EnabledAreDefinitions(lang: Language, r: Registry, entries: seq<SidecarEntry>, typeName: string)
    requires BuiltFrom(lang, r, entries)
    ensures (exists d :: d in r.definitions && d.typeName == typeName) <==>
      typeName in r.byName && r.byName[typeName].order != 0
  {
    if d :| d in r.definitions && d.typeName == typeName {
      var i :| 0 <= i < |entries| && d == Compiled(lang, entries[i]);
      assert entries[i] in entries;
    }
    if typeName in r.byName && r.byName[typeName].order != 0 {
      assert typeName in TypeNames(entries);
      var e :| e in entries && e.typeName == typeName;
      var i :| 0 <= i < |entries| && entries[i] == e;
      assert AllCompiled(lang, entries)[i] == r.byName[typeName];
    }
  }

  /** The full listing goes by order, disabled types last. */
  lemma DisabledComeLast(lang: Language, r: Registry, entries: seq<SidecarEntry>, i: nat, j: nat)
    requires BuiltFrom(lang, r, entries) && i < j < |r.all|
    requires forall e :: e in entries ==> e.order < MAX_INT
    ensures r.all[j].order != 0 ==> r.all[i].order != 0 && r.all[i].order <= r.all[j].order
  {
    assert r.all[i] in multiset(r.all) && r.all[j] in multiset(r.all);
    var b :| 0 <= b < |entries| && AllCompiled(lang, entries)[b] == r.all[j];
    assert entries[b] in entries;
    assert SortKey(r.all[i]) <= SortKey(r.all[j]);
  }

  // ---------------------------------------------------------------------
  // The order of the stored array means nothing
  // ---------------------------------------------------------------------

  lemma TwiceMeansTwice<T>(s: seq<T>, i: nat, j: nat)
    requires i < j < |s| && s[i] == s[j]
    ensures multiset(s)[s[i]] >= 2
  {
    assert s == s[..j] + s[j..];
    assert s[..j][i] == s[i] && s[j..][0] == s[j];
  }

  lemma {:induction false} TwoPositions<T>(s: seq<T>, x: T) returns (i: nat, j: nat)
    requires multiset(s)[x] >= 2
    ensures i < j < |s| && s[i] == s[j] == x
    decreases |s|
  {
    var n := |s| - 1;
    assert s == s[..n] + [s[n]];
    if s[n] == x && multiset(s[..n])[x] == 1 {
      i :| 0 <= i < n && s[..n][i] == x;
      j := n;
    } else {
      i, j := TwoPositions(s[..n], x);
    }
  }

  lemma ClashesSurvive(p: seq<SidecarEntry>, q: seq<SidecarEntry>)
    requires multiset(p) == multiset(q) && NoClashes(p)
    ensures NoClashes(q)
  {
    forall i, j | 0 <= i < j < |q| ensures !Clash(q[i], q[j]) {
      SameMembers(p, q);
      if q[i] == q[j] {
        TwiceMeansTwice(q, i, j);
        var a, b := TwoPositions(p, q[i]);
        assert !Clash(p[a], p[b]);
      } else {
        var a :| 0 <= a < |p| && p[a] == q[i];
        var b :| 0 <= b < |p| && p[b] == q[j];
        assert a < b ==> !Clash(p[a], p[b]);
        assert b < a ==> !Clash(p[b], p[a]);
      }
    }
  }

  lemma SameMembers<T>(p: seq<T>, q: seq<T>)
    requires multiset(p) == multiset(q)
    ensures forall x :: x in p <==> x in q
  {
    forall x ensures x in p <==> x in q {
      assert x in p <==> x in multiset(p);
      assert x in q <==> x in multiset(q);
    }
  }

  /** Permuting the stored array changes neither whether it is accepted nor the
      evaluation order it compiles to, and so no match and no lookup. */
  lemma TableOrderIsIrrelevant(lang: Language, p: seq<SidecarEntry>, q: seq<SidecarEntry>, rp: Registry, rq: Registry)
    requires multiset(p) == multiset(q)
    ensures Compilable(lang, p) <==> Compilable(lang, q)
    ensures BuiltFrom(lang, rp, p) && BuiltFrom(lang, rq, q) ==>
      rp.definitions == rq.definitions && rp.byName == rq.byName
  {
    SameMembers(p, q);
    if NoClashes(p) {
      ClashesSurvive(p, q);
    }
    if NoClashes(q) {
      ClashesSurvive(q, p);
    }
    if BuiltFrom(lang, rp, p) && BuiltFrom(lang, rq, q) {
      SameRegistry(lang, p, q, rp, rq);
    }
  }

  lemma SameRegistry(lang: Language, p: seq<SidecarEntry>, q: seq<SidecarEntry>, rp: Registry, rq: Registry)
    requires forall e :: e in p <==> e in q
    requires BuiltFrom(lang, rp, p) && BuiltFrom(lang, rq, q)
    ensures rp.definitions == rq.definitions && rp.byName == rq.byName
  {
    hide NamesEntries;
    SameCompiled(lang, p, q);
    SameCompiled(lang, q, p);
    StrictOrderIsUnique(rp.definitions, rq.definitions);
    forall s ensures s in rp.byName <==> s in rq.byName {
      SameNames(lang, rp.byName, rq.byName, p, q, s);
      SameNames(lang, rq.byName, rp.byName, q, p, s);
    }
    forall s | s in rp.byName ensures rp.byName[s] == rq.byName[s] {
      SameNames(lang, rp.byName, rq.byName, p, q, s);
    }
  }

  lemma SameCompiled(lang: Language, p: seq<SidecarEntry>, q: seq<SidecarEntry>)
    requires forall e :: e in p ==> e in q
    ensures forall d :: d in AllCompiled(lang, p) ==> d in AllCompiled(lang, q)
  {
    forall d | d in AllCompiled(lang, p) ensures d in AllCompiled(lang, q) {
      var i :| 0 <= i < |p| && d == Compiled(lang, p[i]);
      assert p[i] in q;
      var j :| 0 <= j < |q| && q[j] == p[i];
      assert AllCompiled(lang, q)[j] == d;
    }
  }

  lemma SameNames(lang: Language, pn: map<string, Definition>, qn: map<string, Definition>, p: seq<SidecarEntry>,
                  q: seq<SidecarEntry>, s: string)
    requires NamesEntries(lang, pn, p) && NamesEntries(lang, qn, q) && forall e :: e in p ==> e in q
    ensures s in pn ==> s in qn && pn[s] == qn[s]
  {
    if s in pn {
      assert s in TypeNames(p);
      var e :| e in p && e.typeName == s;
    }
  }
}

/** Adding the built-in sidecar types a stored table has never seen. */
module SidecarMerge {
  import opened ConfigModel
  import opened SidecarTable

  const INT32_MAX := 0x7fff_ffff

  /** Adding in the source's 32-bit order arithmetic. */
  function Add32(a: int, b: int): int {
    (a + b + 0x8000_0000) % 0x1_0000_0000 - 0x8000_0000
  }

  function Max(a: int, b: int): int {
    if a < b then b else a
  }

  /** The highest order of some entries, zero at least. */
  function Peak(entries: seq<SidecarEntry>): (r: int)
    ensures 0 <= r && forall e :: e in entries ==> e.order <= r
  {
    if entries == [] then 0
    else
      var init, last := entries[..|entries| - 1], entries[|entries| - 1];
      assert entries == init + [last];
      Max(Peak(init), last.order)
  }

  /** Room above every order in play to give each default a fresh slot. */
  predicate Headroom(stored: seq<SidecarEntry>, defaults: seq<SidecarEntry>) {
    Max(Peak(stored), Peak(defaults)) + 10 * |defaults| <= INT32_MAX
  }

  predicate IdsDiffer(entries: seq<SidecarEntry>) {
    forall i, j :: 0 <= i < j < |entries| ==> entries[i].id != entries[j].id
  }

  predicate OrdersOnce(entries: seq<SidecarEntry>) {
    forall i, j :: 0 <= i < j < |entries| ==> entries[i].order != entries[j].order || entries[i].order == 0
  }

  /** An added entry: some default the stored table lacked, perhaps moved. */
  predicate FromDefault(stored: seq<SidecarEntry>, defaults: seq<SidecarEntry>, e: SidecarEntry) {
    exists d :: d in defaults && e == d.(order := e.order) && d.id !in Ids(stored)
  }

  /** The stored rows, untouched and first, then defaults; no built-in id missing. */
  predicate IsMerge(stored: seq<SidecarEntry>, defaults: seq<SidecarEntry>, merged: seq<SidecarEntry>) {
    && stored <= merged
    && (forall i :: |stored| <= i < |merged| ==> FromDefault(stored, defaults, merged[i]))
    && (forall d :: d in defaults ==> d.id in Ids(merged))
  }

  // What the merge loop keeps about the slots already taken.
  ghost predicate Slots(merged: seq<SidecarEntry>, takenOrders: set<int>, highest: int, reach: int) {
    && Orders(merged) <= takenOrders && 0 <= highest <= reach
    && (forall o :: o in takenOrders ==> o <= highest)
  }

  /** An order some stored row or earlier addition already has. */
  predicate Taken(stored: seq<SidecarEntry>, merged: seq<SidecarEntry>, order: int) {
    order in Orders(stored) || exists i :: |stored| <= i < |merged| && merged[i].order == order
  }

  /** An added default stands at its own order, or ten above every order before it
      when its own was taken. */
  predicate SeatedAt(stored: seq<SidecarEntry>, defaults: seq<SidecarEntry>, merged: seq<SidecarEntry>, i: nat)
    requires i < |merged|
  {
    exists d :: d in defaults && merged[i] == d.(order := merged[i].order) &&
      merged[i].order == if Taken(stored, merged[..i], d.order) then Peak(merged[..i]) + 10 else d.order
  }

  predicate Seated(stored: seq<SidecarEntry>, defaults: seq<SidecarEntry>, merged: seq<SidecarEntry>) {
    forall i :: |stored| <= i < |merged| ==> SeatedAt(stored, defaults, merged, i)
  }

  lemma TakenGrows(stored: seq<SidecarEntry>, merged: seq<SidecarEntry>, placed: SidecarEntry, order: int)
    requires |stored| <= |merged|
    ensures Taken(stored, merged + [placed], order) <==> Taken(stored, merged, order) || order == placed.order
  {
    hide Orders;
    var next := merged + [placed];
    if i :| |stored| <= i < |merged| && merged[i].order == order {
      assert next[i].order == order;
    }
    assert next[|merged|].order == placed.order;
  }

  lemma PeakGrows(merged: seq<SidecarEntry>, placed: SidecarEntry)
    ensures Peak(merged + [placed]) == Max(Peak(merged), placed.order)
  {
    assert (merged + [placed])[..|merged|] == merged;
  }

  lemma NextSeat(stored: seq<SidecarEntry>, defaults: seq<SidecarEntry>, merged: seq<SidecarEntry>, missing: SidecarEntry,
                 placed: SidecarEntry)
    requires |stored| <= |merged| && Seated(stored, defaults, merged) && missing in defaults
    requires placed == missing.(order := placed.order)
    requires placed.order == if Taken(stored, merged, missing.order) then Peak(merged) + 10 else missing.order
    ensures Seated(stored, defaults, merged + [placed])
  {
    hide Taken, Peak;
    var next := merged + [placed];
    assert next[..|merged|] == merged;
    forall i | |stored| <= i < |next| ensures SeatedAt(stored, defaults, next, i) {
      if i < |merged| {
        assert SeatedAt(stored, defaults, merged, i) && next[..i] == merged[..i] && next[i] == merged[i];
      } else {
        assert next[i] == missing.(order := next[i].order);
      }
    }
  }

  // What the loop knows of the seats: the orders taken, and the highest of them.
  ghost predicate Counted(stored: seq<SidecarEntry>, defaults: seq<SidecarEntry>, merged: seq<SidecarEntry>,
                          takenOrders: set<int>, highest: int)
  {
    && |stored| <= |merged| && Seated(stored, defaults, merged) && highest == Peak(merged)
    && (forall o :: o in takenOrders <==> Taken(stored, merged, o))
  }

  lemma SeatIsCounted(stored: seq<SidecarEntry>, defaults: seq<SidecarEntry>, k: nat, merged: seq<SidecarEntry>,
                      takenOrders: set<int>, was: int, placed: SidecarEntry, highest: int)
    requires k < |defaults| && placed == defaults[k].(order := placed.order)
    requires defaults[k].order !in takenOrders ==>
      placed.order == defaults[k].order && highest == Max(was, defaults[k].order)
    requires defaults[k].order in takenOrders ==> placed.order == highest == Add32(was, 10)
    requires Headroom(stored, defaults) ==>
      Slots(merged, takenOrders, was, Reach(stored, defaults, k)) && Counted(stored, defaults, merged, takenOrders, was)
    ensures Headroom(stored, defaults) ==>
      Counted(stored, defaults, merged + [placed], takenOrders + {placed.order}, highest)
  {
    hide Taken, Seated, Peak;
    if Headroom(stored, defaults) {
      NextSeat(stored, defaults, merged, defaults[k], placed);
      PeakGrows(merged, placed);
      forall o ensures o in takenOrders + {placed.order} <==> Taken(stored, merged + [placed], o) {
        TakenGrows(stored, merged, placed, o);
      }
    }
  }

  /** A slot for one missing default: its own when free, else one past the highest. */
  method Place(missing: SidecarEntry, takenOrders: set<int>, highestOrder: int) returns (placed: SidecarEntry, highest: int)
    ensures placed == missing.(order := placed.order)
    ensures missing.order !in takenOrders ==> placed.order == missing.order && highest == Max(highestOrder, missing.order)
    ensures missing.order in takenOrders ==> placed.order == highest == Add32(highestOrder, 10)
    ensures 0 <= highestOrder <= INT32_MAX - 10 && (forall o :: o in takenOrders ==> o <= highestOrder) ==>
      placed.order !in takenOrders && placed.order <= highest && highestOrder <= highest <= Max(highestOrder + 10, missing.order)
  {
    highest := highestOrder;
    var order := missing.order;
    if missing.order in takenOrders {
      highest := Add32(highestOrder, 10);
      order := highest;
    } else if missing.order > highest {
      highest := missing.order;
    }
    placed := missing.(order := order);
  }

  method MergeMissingSidecarTypes(stored: seq<SidecarEntry>, defaults: seq<SidecarEntry>)
    returns (merged: seq<SidecarEntry>, added: nat)
    ensures |merged| == |stored| + added
    ensures stored == [] ==> merged == []
    ensures stored != [] ==> IsMerge(stored, defaults, merged)
    ensures IdsDiffer(stored) ==> IdsDiffer(merged)
    ensures OrdersOnce(stored) && Headroom(stored, defaults) ==> OrdersOnce(merged)
    ensures stored != [] && Headroom(stored, defaults) ==> Seated(stored, defaults, merged)
    ensures added == 0 <==> stored == [] || forall d :: d in defaults ==> d.id in Ids(stored)
  {
    if |stored| == 0 {
      return stored, 0;
    }
    var takenIDs, takenOrders, highestOrder := Survey(stored);
    Surveyed(stored, defaults, takenOrders, highestOrder);
    hide *;
    merged, added := stored, 0;
    for k := 0 to |defaults|
      invariant Merging(stored, defaults, merged, k) && takenIDs == Ids(merged)
      invariant |merged| == |stored| + added
      invariant Headroom(stored, defaults) ==> Slots(merged, takenOrders, highestOrder, Reach(stored, defaults, k))
      invariant OrdersOnce(stored) && Headroom(stored, defaults) ==> OrdersOnce(merged)
      invariant Headroom(stored, defaults) ==> Counted(stored, defaults, merged, takenOrders, highestOrder)
    {
      var missing := defaults[k];
      if missing.id in takenIDs {
        Skipped(stored, defaults, merged, k);
        ReachGrows(stored, defaults, k, merged, takenOrders, highestOrder);
      } else {
        var placed, highest := Place(missing, takenOrders, highestOrder);
        SlotIsFree(stored, defaults, k, merged, takenOrders, highestOrder, placed, highest);
        SeatIsCounted(stored, defaults, k, merged, takenOrders, highestOrder, placed, highest);
        Appended(stored, defaults, merged, k, placed);
        takenOrders, takenIDs, highestOrder := takenOrders + {placed.order}, takenIDs + {placed.id}, highest;
        merged, added := merged + [placed], added + 1;
      }
    }
    MergeIsDone(stored, defaults, merged, takenOrders, highestOrder);
  }

  method Survey(stored: seq<SidecarEntry>) returns (takenIDs: set<string>, takenOrders: set<int>, highestOrder: int)
    ensures takenIDs == Ids(stored) && takenOrders == Orders(stored) && highestOrder == Peak(stored)
  {
    takenIDs, takenOrders, highestOrder := {}, {}, 0;
    assert stored[..0] == [];
    assert Ids([]) == {} && Orders([]) == {} && Peak([]) == 0;
    hide Ids, Orders, Peak, TypeNames;
    for k := 0 to |stored|
      invariant takenIDs == Ids(stored[..k]) && takenOrders == Orders(stored[..k])
      invariant highestOrder == Peak(stored[..k])
    {
      var entry := stored[k];
      assert stored[..k + 1] == stored[..k] + [entry];
      KeysGrow(stored[..k], entry);
      PeakGrows(stored[..k], entry);
      takenIDs := takenIDs + {entry.id};
      if entry.order != 0 {
        takenOrders := takenOrders + {entry.order};
        if entry.order > highestOrder {
          highestOrder := entry.order;
        }
      }
    }
    assert stored[..|stored|] == stored;
  }

  /** The merge after its first k defaults. */
  ghost predicate Merging(stored: seq<SidecarEntry>, defaults: seq<SidecarEntry>, merged: seq<SidecarEntry>, k: nat)
    requires k <= |defaults|
  {
    && stored <= merged
    && (forall i :: |stored| <= i < |merged| ==> FromDefault(stored, defaults, merged[i]))
    && (forall i :: 0 <= i < k ==> defaults[i].id in Ids(merged))
    && (IdsDiffer(stored) ==> IdsDiffer(merged))
    && (merged == stored <==> forall i :: 0 <= i < k ==> defaults[i].id in Ids(stored))
  }

  // Before the first default nothing is placed.
  lemma Surveyed(stored: seq<SidecarEntry>, defaults: seq<SidecarEntry>, takenOrders: set<int>, highestOrder: int)
    requires takenOrders == Orders(stored) && highestOrder == Peak(stored)
    ensures Merging(stored, defaults, stored, 0) && Slots(stored, takenOrders, highestOrder, Reach(stored, defaults, 0))
    ensures Counted(stored, defaults, stored, takenOrders, highestOrder)
  {
  }

  lemma MergeIsDone(stored: seq<SidecarEntry>, defaults: seq<SidecarEntry>, merged: seq<SidecarEntry>,
                    takenOrders: set<int>, highestOrder: int)
    requires Merging(stored, defaults, merged, |defaults|)
    ensures IsMerge(stored, defaults, merged) && (IdsDiffer(stored) ==> IdsDiffer(merged))
    ensures |merged| == |stored| <==> forall d :: d in defaults ==> d.id in Ids(stored)
    ensures Counted(stored, defaults, merged, takenOrders, highestOrder) ==> Seated(stored, defaults, merged)
  {
    hide Ids, IdsDiffer, FromDefault, Seated;
    assert |merged| == |stored| ==> merged == stored;
    assert forall i :: 0 <= i < |defaults| ==> defaults[i] in defaults;
  }

  lemma Skipped(stored: seq<SidecarEntry>, defaults: seq<SidecarEntry>, merged: seq<SidecarEntry>, k: nat)
    requires k < |defaults| && Merging(stored, defaults, merged, k) && defaults[k].id in Ids(merged)
    ensures Merging(stored, defaults, merged, k + 1)
  {
  }

  lemma Appended(stored: seq<SidecarEntry>, defaults: seq<SidecarEntry>, merged: seq<SidecarEntry>, k: nat,
                 placed: SidecarEntry)
    requires k < |defaults| && Merging(stored, defaults, merged, k) && defaults[k].id !in Ids(merged)
    requires placed == defaults[k].(order := placed.order)
    ensures Merging(stored, defaults, merged + [placed], k + 1) && Ids(merged + [placed]) == Ids(merged) + {placed.id}
  {
    hide IdsDiffer, FromDefault, Ids, Orders, TypeNames;
    NotYetStored(stored, merged, placed.id);
    OneMoreDefault(stored, defaults, merged, defaults[k], placed);
    KeysGrow(merged, placed);
    assert merged + [placed] != stored;
  }

  lemma NotYetStored(stored: seq<SidecarEntry>, merged: seq<SidecarEntry>, id: string)
    requires stored <= merged && id !in Ids(merged)
    ensures id !in Ids(stored)
  {
    assert forall e :: e in stored ==> e in merged;
  }

  /** The highest order the merge can have handed out after k defaults. */
  function Reach(stored: seq<SidecarEntry>, defaults: seq<SidecarEntry>, k: nat): int {
    Max(Peak(stored), Peak(defaults)) + 10 * k
  }

  lemma ReachGrows(stored: seq<SidecarEntry>, defaults: seq<SidecarEntry>, k: nat, merged: seq<SidecarEntry>,
                   takenOrders: set<int>, highest: int)
    ensures Slots(merged, takenOrders, highest, Reach(stored, defaults, k)) ==>
      Slots(merged, takenOrders, highest, Reach(stored, defaults, k + 1))
  {
  }

  lemma SlotIsFree(stored: seq<SidecarEntry>, defaults: seq<SidecarEntry>, k: nat, merged: seq<SidecarEntry>,
                   takenOrders: set<int>, was: int, placed: SidecarEntry, highest: int)
    requires k < |defaults|
    requires 0 <= was <= INT32_MAX - 10 && (forall o :: o in takenOrders ==> o <= was) ==>
      placed.order !in takenOrders && placed.order <= highest && was <= highest <= Max(was + 10, defaults[k].order)
    ensures Headroom(stored, defaults) && Slots(merged, takenOrders, was, Reach(stored, defaults, k)) ==>
      && Slots(merged + [placed], takenOrders + {placed.order}, highest, Reach(stored, defaults, k + 1))
      && (OrdersOnce(merged) ==> OrdersOnce(merged + [placed]))
  {
    if Headroom(stored, defaults) && Slots(merged, takenOrders, was, Reach(stored, defaults, k)) {
      assert defaults[k] in defaults;
      var next := merged + [placed];
      KeysGrow(merged, placed);
      forall i | 0 <= i < |merged| ensures next[i].order != placed.order || placed.order == 0 {
        assert merged[i] in merged;
        assert merged[i].order != 0 ==> merged[i].order in Orders(merged);
      }
    }
  }

  lemma OneMoreDefault(stored: seq<SidecarEntry>, defaults: seq<SidecarEntry>, merged: seq<SidecarEntry>,
                       missing: SidecarEntry, placed: SidecarEntry)
    requires stored <= merged && missing in defaults && missing.id !in Ids(merged) && missing.id !in Ids(stored)
    requires placed == missing.(order := placed.order)
    ensures FromDefault(stored, defaults, placed)
    ensures IdsDiffer(merged) ==> IdsDiffer(merged + [placed])
  {
    forall i | 0 <= i < |merged| ensures merged[i].id != placed.id {
      assert merged[i] in merged;
      assert merged[i].id in Ids(merged);
    }
  }

  // ---------------------------------------------------------------------
  // When the merged table still compiles
  // ---------------------------------------------------------------------

  /** Merging guards ids and orders but not type names: the table still compiles
      exactly when no missing built-in bears the name of a stored type. */
  lemma MergedCompilesIff(lang: Language, stored: seq<SidecarEntry>, defaults: seq<SidecarEntry>, merged: seq<SidecarEntry>)
    requires Compilable(lang, stored) && Compilable(lang, defaults)
    requires IsMerge(stored, defaults, merged) && IdsDiffer(merged) && OrdersOnce(merged)
    ensures Compilable(lang, merged) <==>
      forall d :: d in defaults && d.id !in Ids(stored) ==> d.typeName !in TypeNames(stored)
  {
    if forall d :: d in defaults && d.id !in Ids(stored) ==> d.typeName !in TypeNames(stored) {
      forall i, j | 0 <= i < j < |merged| ensures !Clash(merged[i], merged[j]) {
        NoNewClash(lang, stored, defaults, merged, i, j);
      }
      forall e | e in merged ensures EntryIsSound(lang, e) {
        MergedIsSound(lang, stored, defaults, merged, e);
      }
    } else {
      var d :| d in defaults && d.id !in Ids(stored) && d.typeName in TypeNames(stored);
      NamesakeClashes(lang, stored, defaults, merged, d);
    }
  }

  lemma MergedIsSound(lang: Language, stored: seq<SidecarEntry>, defaults: seq<SidecarEntry>, merged: seq<SidecarEntry>,
                      e: SidecarEntry)
    requires Compilable(lang, stored) && Compilable(lang, defaults) && IsMerge(stored, defaults, merged) && e in merged
    ensures EntryIsSound(lang, e)
  {
    var i :| 0 <= i < |merged| && merged[i] == e;
    if i < |stored| {
      assert stored[i] in stored;
    } else {
      var d :| d in defaults && e == d.(order := e.order);
      assert EntryIsSound(lang, d);
    }
  }

  lemma NoNewClash(lang: Language, stored: seq<SidecarEntry>, defaults: seq<SidecarEntry>, merged: seq<SidecarEntry>,
                   i: nat, j: nat)
    requires Compilable(lang, stored) && Compilable(lang, defaults) && i < j < |merged|
    requires IsMerge(stored, defaults, merged) && IdsDiffer(merged) && OrdersOnce(merged)
    requires forall d :: d in defaults && d.id !in Ids(stored) ==> d.typeName !in TypeNames(stored)
    ensures !Clash(merged[i], merged[j])
  {
    assert merged[i].id != merged[j].id && (merged[i].order != merged[j].order || merged[i].order == 0);
    if j < |stored| {
      assert !Clash(stored[i], stored[j]);
    } else {
      var d :| d in defaults && merged[j] == d.(order := merged[j].order) && d.id !in Ids(stored);
      if i < |stored| {
        assert stored[i] in stored;
        assert stored[i].typeName in TypeNames(stored);
      } else {
        var c :| c in defaults && merged[i] == c.(order := merged[i].order);
        var p :| 0 <= p < |defaults| && defaults[p] == c;
        var q :| 0 <= q < |defaults| && defaults[q] == d;
        assert p < q ==> !Clash(defaults[p], defaults[q]);
        assert q < p ==> !Clash(defaults[q], defaults[p]);
      }
    }
  }

  lemma StoredIdsAreListed(stored: seq<SidecarEntry>, merged: seq<SidecarEntry>)
    requires stored <= merged
    ensures forall j :: 0 <= j < |stored| ==> merged[j].id in Ids(stored)
  {
    forall j | 0 <= j < |stored| ensures merged[j].id in Ids(stored) {
      assert merged[j] == stored[j] && stored[j] in stored;
    }
  }

  lemma NamesakeClashes(lang: Language, stored: seq<SidecarEntry>, defaults: seq<SidecarEntry>, merged: seq<SidecarEntry>,
                        d: SidecarEntry)
    requires Compilable(lang, defaults) && IsMerge(stored, defaults, merged)
    requires d in defaults && d.id !in Ids(stored) && d.typeName in TypeNames(stored)
    ensures !NoClashes(merged)
  {
    var s :| s in stored && s.typeName == d.typeName;
    var i :| 0 <= i < |stored| && stored[i] == s;
    assert d.id in Ids(merged);
    var e :| e in merged && e.id == d.id;
    var j :| 0 <= j < |merged| && merged[j] == e;
    StoredIdsAreListed(stored, merged);
    assert j >= |stored|;
    var c :| c in defaults && e == c.(order := e.order);
    var p :| 0 <= p < |defaults| && defaults[p] == c;
    var q :| 0 <= q < |defaults| && defaults[q] == d;
    assert Clash(defaults[p], defaults[q]) && Clash(defaults[q], defaults[p]);
    assert Clash(merged[i], merged[j]) && i < j;
  }

  /** A stored type renamed to a built-in's name is enough to spoil the merge. */
  lemma RenamedTypeSpoilsTheMerge(lang: Language)
    requires lang.compiles("^a$")
    ensures var stored := [SidecarEntry("mine", "trickplay", "image", 10, ["^a$"], [])];
            var defaults := [SidecarEntry("builtin", "trickplay", "trickplay", 210, ["^a$"], [])];
            && Compilable(lang, stored) && Compilable(lang, defaults)
            && IsMerge(stored, defaults, stored + defaults) && !Compilable(lang, stored + defaults)
  {
    var stored := [SidecarEntry("mine", "trickplay", "image", 10, ["^a$"], [])];
    var defaults := [SidecarEntry("builtin", "trickplay", "trickplay", 210, ["^a$"], [])];
    var merged := stored + defaults;
    assert defaults[0] in defaults && merged[1] == defaults[0] && merged[1] in merged;
    assert merged[1].id in Ids(merged);
    assert merged[1] == defaults[0].(order := 210) && defaults[0].id !in Ids(stored);
    assert FromDefault(stored, defaults, merged[1]);
    assert Clash(merged[0], merged[1]);
    assert stored[0].category == CATEGORIES[0] && defaults[0].category == CATEGORIES[6];
  }
}

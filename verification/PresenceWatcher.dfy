/** Noticing agents whose presence key has gone. */
module PresenceWatcher {
  import opened Options

  /** One scan: what it found and when, or that it failed. */
  datatype Scan = Scan(present: set<string>, now: int) | Failed

  /** What the watcher believes: who is online, and when each was last seen. */
  datatype Belief = Belief(online: map<string, bool>, lastSeen: map<string, int>)

  const NO_BELIEF := Belief(map[], map[])

  const BUFFER := 16

  predicate Online(b: Belief, slug: string) {
    slug in b.online && b.online[slug]
  }

  /** The slugs a scan finds absent for a whole grace period. */
  function Departed(b: Belief, grace: int, scan: Scan): set<string> {
    if scan.Failed? then {}
    else
      set slug | slug in b.online && b.online[slug] && slug !in scan.present && slug in b.lastSeen &&
        scan.now - b.lastSeen[slug] >= grace
  }

  function Noticed(b: Belief, grace: int, scan: Scan): Belief {
    if scan.Failed? then b
    else
      var gone := Departed(b, grace, scan);
      Belief(
        map slug | slug in b.online.Keys + scan.present :: slug in scan.present || (b.online[slug] && slug !in gone),
        map slug | slug in b.lastSeen.Keys + scan.present :: if slug in scan.present then scan.now else b.lastSeen[slug])
  }

  function After(grace: int, history: seq<Scan>): Belief
    decreases |history|
  {
    if history == [] then NO_BELIEF
    else Noticed(After(grace, history[..|history| - 1]), grace, history[|history| - 1])
  }

  /** Whether scan k of a history signals a slug. */
  predicate SignalledAt(grace: int, history: seq<Scan>, k: nat, slug: string)
    requires k < |history|
  {
    slug in Departed(After(grace, history[..k]), grace, history[k])
  }

  // ---------------------------------------------------------------------
  // The same, said of the history alone
  // ---------------------------------------------------------------------

  predicate PresentAt(history: seq<Scan>, i: nat, slug: string)
    requires i < |history|
  {
    history[i].Scan? && slug in history[i].present
  }

  /** The last scan that found the slug. */
  function LastPresence(history: seq<Scan>, slug: string): (r: Option<nat>)
    ensures r.Some? ==> r.value < |history| && PresentAt(history, r.value, slug)
    ensures r.Some? ==> forall j :: r.value < j < |history| ==> !PresentAt(history, j, slug)
    ensures r.None? ==> forall j :: 0 <= j < |history| ==> !PresentAt(history, j, slug)
    decreases |history|
  {
    if history == [] then None
    else
      var n := |history| - 1;
      assert forall j :: 0 <= j < n ==> (PresentAt(history[..n], j, slug) <==> PresentAt(history, j, slug));
      if PresentAt(history, n, slug) then Some(n) else LastPresence(history[..n], slug)
  }

  predicate GraceOver(grace: int, history: seq<Scan>, p: nat, j: nat)
    requires p < |history| && j < |history| && history[p].Scan?
  {
    history[j].Scan? && history[j].now - history[p].now >= grace
  }

  /** Scan k is the first at least one grace period after the slug's last presence. */
  predicate FirstAfterGrace(grace: int, history: seq<Scan>, k: nat, slug: string)
    requires k < |history|
  {
    var last := LastPresence(history[..k], slug);
    && !PresentAt(history, k, slug) && last.Some?
    && assert PresentAt(history[..k], last.value, slug);
       GraceOver(grace, history, last.value, k)
    && forall j :: last.value < j < k ==> !GraceOver(grace, history, last.value, j)
  }

  /** The belief about one slug says when it was last present, and whether any
      scan since has been a grace period later. */
  ghost predicate Tracks(grace: int, history: seq<Scan>, slug: string) {
    var b, last := After(grace, history), LastPresence(history, slug);
    && (slug in b.lastSeen <==> last.Some?) && (slug in b.online <==> last.Some?)
    && (last.Some? ==>
          && b.lastSeen[slug] == history[last.value].now
          && (Online(b, slug) <==> forall j :: last.value < j < |history| ==> !GraceOver(grace, history, last.value, j)))
  }

  lemma {:induction false} BeliefTracksHistory(grace: int, history: seq<Scan>, slug: string)
    ensures Tracks(grace, history, slug)
    decreases |history|
  {
    if history != [] {
      var n := |history| - 1;
      var init := history[..n];
      BeliefTracksHistory(grace, init, slug);
      var last := LastPresence(init, slug);
      if last.Some? && !PresentAt(history, n, slug) {
        assert forall j :: last.value < j < n ==>
          (GraceOver(grace, history, last.value, j) <==> GraceOver(grace, init, last.value, j));
        assert Online(After(grace, history), slug) <==>
          Online(After(grace, init), slug) && !GraceOver(grace, history, last.value, n);
      }
    }
  }

  /** In every history, failed scans and any clock included: a scan signals a slug
      exactly when it is the first at least one grace period after the slug's last
      presence. */
  lemma SignalledExactlyAfterGrace(grace: int, history: seq<Scan>, k: nat, slug: string)
    requires k < |history|
    ensures SignalledAt(grace, history, k, slug) <==> FirstAfterGrace(grace, history, k, slug)
  {
    var before := history[..k];
    BeliefTracksHistory(grace, before, slug);
    var last := LastPresence(before, slug);
    if last.Some? {
      assert forall j :: last.value < j < k ==>
        (GraceOver(grace, before, last.value, j) <==> GraceOver(grace, history, last.value, j));
    }
  }

  lemma {:induction false} LastPresenceOfAPrefix(history: seq<Scan>, k: nat, l: nat, slug: string)
    requires k <= l <= |history|
    ensures var last := LastPresence(history[..l], slug);
            last.Some? && last.value < k ==> LastPresence(history[..k], slug) == last
    decreases l - k
  {
    if k < l {
      assert history[..l][..l - 1] == history[..l - 1];
      LastPresenceOfAPrefix(history, k, l - 1, slug);
    }
  }

  /** Never a signal while present, and a presence between any two signals. */
  lemma SignalsAreEdges(grace: int, history: seq<Scan>, k: nat, l: nat, slug: string)
    requires k < l < |history|
    requires SignalledAt(grace, history, k, slug) && SignalledAt(grace, history, l, slug)
    ensures !PresentAt(history, k, slug) && !PresentAt(history, l, slug)
    ensures exists m :: k < m < l && PresentAt(history, m, slug)
  {
    SignalledExactlyAfterGrace(grace, history, k, slug);
    SignalledExactlyAfterGrace(grace, history, l, slug);
    LastPresenceOfAPrefix(history, k, l, slug);
    var last := LastPresence(history[..l], slug);
    assert PresentAt(history, last.value, slug);
    assert k < last.value;
  }

  // ---------------------------------------------------------------------
  // The watcher
  // ---------------------------------------------------------------------

  /** A subscriber's channel after being offered some slugs: a full one misses them. */
  function Offered(channel: seq<string>, slugs: seq<string>): (r: seq<string>)
    ensures channel <= r && |r| <= if |channel| < BUFFER then BUFFER else |channel|
    decreases |slugs|
  {
    if slugs == [] then channel
    else
      var earlier := Offered(channel, slugs[..|slugs| - 1]);
      if |earlier| < BUFFER then earlier + [slugs[|slugs| - 1]] else earlier
  }

  /** A channel takes the slugs in order, as many as it has room for. */
  lemma {:induction false} OfferedExactly(channel: seq<string>, slugs: seq<string>)
    ensures var room := if |channel| < BUFFER then BUFFER - |channel| else 0;
            Offered(channel, slugs) == channel + slugs[..if |slugs| < room then |slugs| else room]
    decreases |slugs|
  {
    if slugs != [] {
      var n := |slugs| - 1;
      OfferedExactly(channel, slugs[..n]);
      var room := if |channel| < BUFFER then BUFFER - |channel| else 0;
      assert slugs[..n][..if n < room then n else room] == slugs[..if n < room then n else room];
      assert slugs[..n] + [slugs[n]] == slugs;
    }
  }

  lemma ASlug(slugs: set<string>) returns (slug: string)
    requires slugs != {}
    ensures slug in slugs
  {
    slug :| slug in slugs;
  }

  /** Each slug of the set, once, in some order. */
  ghost predicate Lists(slugs: seq<string>, all: set<string>) {
    && (forall s :: s in slugs <==> s in all)
    && (forall i, j :: 0 <= i < j < |slugs| ==> slugs[i] != slugs[j])
  }

  class Watcher {
    const grace: int
    var online: map<string, bool>
    var lastSeen: map<string, int>
    var subs: seq<seq<string>>

    constructor (grace: int)
      ensures this.grace == grace && View() == NO_BELIEF && subs == []
    {
      this.grace, online, lastSeen, subs := grace, map[], map[], [];
    }

    function View(): Belief
      reads this
    {
      Belief(online, lastSeen)
    }

    predicate Dated()
      reads this
    {
      online.Keys == lastSeen.Keys
    }

    method ScanOnce(scan: Scan) returns (wentOffline: seq<string>)
      requires Dated()
      modifies this
      ensures Dated() && View() == Noticed(old(View()), grace, scan)
      ensures Lists(wentOffline, Departed(old(View()), grace, scan))
      ensures |subs| == |old(subs)| && forall i :: 0 <= i < |subs| ==> subs[i] == Offered(old(subs[i]), wentOffline)
    {
      wentOffline := [];
      if scan.Failed? {
        return;
      }
      SeePresent(scan);
      wentOffline := DropAbsent(scan);
      Emit(wentOffline);
      ghost var gone := Departed(old(View()), grace, scan);
      assert View().online == Noticed(old(View()), grace, scan).online;
      assert View().lastSeen == Noticed(old(View()), grace, scan).lastSeen;
    }

    method SeePresent(scan: Scan)
      requires scan.Scan? && Dated()
      modifies this`online, this`lastSeen
      ensures Dated() && online.Keys == old(online).Keys + scan.present
      ensures forall s :: s in online ==> online[s] == (s in scan.present || old(online)[s])
      ensures forall s :: s in online ==> lastSeen[s] == if s in scan.present then scan.now else old(lastSeen)[s]
    {
      var remaining := scan.present;
      while remaining != {}
        invariant remaining <= scan.present && Dated()
        invariant online.Keys == old(online).Keys + (scan.present - remaining)
        invariant forall s :: s in online ==> online[s] == (s in scan.present - remaining || old(online)[s])
        invariant forall s :: s in online ==>
          lastSeen[s] == if s in scan.present - remaining then scan.now else old(lastSeen)[s]
      {
        ghost var _ := ASlug(remaining);
        var slug :| slug in remaining;
        remaining := remaining - {slug};
        lastSeen := lastSeen[slug := scan.now];
        if slug !in online || !online[slug] {
          online := online[slug := true];
        }
      }
    }

    // Walks the online map in whatever order it gives, switching entries off.
    method DropAbsent(scan: Scan) returns (wentOffline: seq<string>)
      requires scan.Scan? && Dated()
      modifies this`online
      ensures Dated() && online.Keys == old(online).Keys
      ensures Lists(wentOffline, Departed(old(View()), grace, scan))
      ensures forall s :: s in online ==> online[s] == (old(online)[s] && s !in Departed(old(View()), grace, scan))
    {
      wentOffline := [];
      ghost var gone := Departed(View(), grace, scan);
      var remaining := online.Keys;
      while remaining != {}
        invariant remaining <= old(online).Keys && online.Keys == old(online).Keys
        invariant forall s :: s in online ==> online[s] == (old(online)[s] && s !in gone - remaining)
        invariant Lists(wentOffline, gone - remaining)
      {
        ghost var _ := ASlug(remaining);
        var slug :| slug in remaining;
        assert slug in gone <==> online[slug] && slug !in scan.present && scan.now - lastSeen[slug] >= grace;
        remaining := remaining - {slug};
        if online[slug] && slug !in scan.present && scan.now - lastSeen[slug] >= grace {
          online := online[slug := false];
          wentOffline := wentOffline + [slug];
        }
      }
      assert gone - {} == gone;
    }

    method Emit(wentOffline: seq<string>)
      modifies this`subs
      ensures |subs| == |old(subs)| && forall i :: 0 <= i < |subs| ==> subs[i] == Offered(old(subs[i]), wentOffline)
    {
      for k := 0 to |wentOffline|
        invariant |subs| == |old(subs)|
        invariant forall i :: 0 <= i < |subs| ==> subs[i] == Offered(old(subs[i]), wentOffline[..k])
      {
        assert wentOffline[..k + 1][..k] == wentOffline[..k];
        for c := 0 to |subs|
          invariant |subs| == |old(subs)|
          invariant forall i :: 0 <= i < c ==> subs[i] == Offered(old(subs[i]), wentOffline[..k + 1])
          invariant forall i :: c <= i < |subs| ==> subs[i] == Offered(old(subs[i]), wentOffline[..k])
        {
          if |subs[c]| < BUFFER {
            subs := subs[c := subs[c] + [wentOffline[k]]];
          }
        }
      }
      assert wentOffline[..|wentOffline|] == wentOffline;
    }
  }
}

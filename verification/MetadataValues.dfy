/** The values an NFO file's tags become: provider links, dates, integers. */
module MetadataValues {
  import opened Options
  import opened Calendar
  import opened TextRules

  // ---------------------------------------------------------------------
  // Text
  // ---------------------------------------------------------------------

  /** How text is trimmed, how a provider's spelling is folded (lowered, then
      trimmed), and the names providers go by. */
  datatype Text = Text(trim: string -> string, fold: string -> string, canonical: map<string, string>)

  /** A provider's name stands for itself, in plain letters. */
  predicate SaneProviders(canonical: map<string, string>) {
    forall key :: key in canonical ==>
      var name := canonical[key];
      name in canonical && canonical[name] == name && PlainText(name) && name != ""
  }

  /** Trimming and folding settle at once and leave plain text alone. */
  ghost predicate Sane(t: Text) {
    && (forall s :: t.trim(t.trim(s)) == t.trim(s))
    && (forall s :: t.fold(t.fold(s)) == t.fold(s))
    && (forall s :: PlainText(s) ==> t.trim(s) == s && t.fold(s) == s)
    && SaneProviders(t.canonical)
  }

  /** Letter-by-letter trimming and lowering, with the shipped provider table, is sane. */
  lemma ShippedTextIsSane(letters: Letters)
    requires SaneLetters(letters)
    ensures Sane(Text(s => Trim(letters, s), s => Fold(letters, s), CANONICAL_LINK_KEYS))
  {
    hide Trim, Fold, SaneLetters;
    var t := Text(s => Trim(letters, s), s => Fold(letters, s), CANONICAL_LINK_KEYS);
    forall s ensures t.trim(t.trim(s)) == t.trim(s) && t.fold(t.fold(s)) == t.fold(s) {
      FoldingSettles(letters, s);
    }
    forall s | PlainText(s) ensures t.trim(s) == s && t.fold(s) == s {
      FoldingSettles(letters, s);
    }
    ShippedProvidersAreSane();
  }

  lemma ShippedProvidersAreSane()
    ensures SaneProviders(CANONICAL_LINK_KEYS)
  {
    assert PlainText("tvdb") && PlainText("tmdb") && PlainText("imdb") && PlainText("tvmaze") && PlainText("tvrage");
    assert PlainText("anidb") && PlainText("trakt") && PlainText("musicbrainz") && PlainText("youtube");
    hide PlainText;
  }

  // ---------------------------------------------------------------------
  // Provider links
  // ---------------------------------------------------------------------

  datatype UniqueID = UniqueID(idType: string, isDefault: bool, value: string)

  datatype Link = Link(key: string, value: string, isDefault: bool)

  const CANONICAL_LINK_KEYS: map<string, string> := map[
    "tvdb" := "tvdb", "tvdbid" := "tvdb", "thetvdb" := "tvdb",
    "tmdb" := "tmdb", "tmdbid" := "tmdb", "themoviedb" := "tmdb",
    "imdb" := "imdb", "imdbid" := "imdb",
    "tvmaze" := "tvmaze", "tvmazeid" := "tvmaze", "tvrage" := "tvrage", "anidb" := "anidb",
    "trakt" := "trakt", "musicbrainz" := "musicbrainz", "youtube" := "youtube"]

  const DERIVED_LINK_KEYS: set<string> := {"id", "youtube"}

  function CanonicalKey(t: Text, key: string): string {
    var folded := t.fold(key);
    if folded in t.canonical then t.canonical[folded] else folded
  }

  /** A canonical key is its own canonical form, and blank only for a blank key. */
  lemma CanonicalKeyIsStable(t: Text, key: string)
    requires Sane(t)
    ensures var c := CanonicalKey(t, key);
            CanonicalKey(t, c) == c && t.fold(c) == c && (c == "" ==> t.fold(key) == "")
  {
  }

  function LinkIdentity(key: string, value: string): string {
    key + ['\0'] + value
  }

  function IdentityOf(l: Link): string {
    LinkIdentity(l.key, l.value)
  }

  function Identities(links: seq<Link>): set<string> {
    set l | l in links :: IdentityOf(l)
  }

  /** The collector's links after one more is offered. */
  function Added(t: Text, links: seq<Link>, key: string, value: string, isDefault: bool): seq<Link> {
    var k, v := CanonicalKey(t, key), t.trim(value);
    if t.fold(key) == "" || v == "" then links
    else if LinkIdentity(k, v) in Identities(links) then if isDefault then Flagged(links, k, v) else links
    else links + [Link(k, v, isDefault)]
  }

  function Flagged(links: seq<Link>, key: string, value: string): (r: seq<Link>)
    ensures |r| == |links|
    ensures forall i :: 0 <= i < |r| ==>
      r[i] == if links[i].key == key && links[i].value == value then links[i].(isDefault := true) else links[i]
  {
    seq(|links|, i requires 0 <= i < |links| =>
      if links[i].key == key && links[i].value == value then links[i].(isDefault := true) else links[i])
  }

  predicate IsImdbId(value: string) {
    |value| > 2 && value[..2] == "tt" && forall i :: 2 <= i < |value| ==> IsDigit(value[i])
  }

  function AddedLegacy(t: Text, links: seq<Link>, id: string): seq<Link> {
    var value := t.trim(id);
    if value == "" then links
    else if IsImdbId(value) then Added(t, links, "imdb", value, false)
    else Added(t, links, "id", value, false)
  }

  /** The links a document's id tags give, in order. */
  function LinksOf(t: Text, ids: seq<UniqueID>): seq<Link>
    decreases |ids|
  {
    if ids == [] then []
    else
      var earlier, last := LinksOf(t, ids[..|ids| - 1]), ids[|ids| - 1];
      if last.idType == "" then AddedLegacy(t, earlier, last.value)
      else Added(t, earlier, last.idType, last.value, last.isDefault)
  }

  class LinkCollector {
    var links: seq<Link>
    var seen: set<string>

    constructor ()
      ensures links == [] && seen == {}
    {
      links, seen := [], {};
    }

    method Add(t: Text, key: string, value: string, isDefault: bool)
      requires seen == Identities(links)
      modifies this
      ensures links == Added(t, old(links), key, value, isDefault) && seen == Identities(links)
    {
      var k, v := t.fold(key), t.trim(value);
      if k == "" || v == "" {
        return;
      }
      if k in t.canonical {
        k := t.canonical[k];
      }
      var identity := LinkIdentity(k, v);
      if identity in seen {
        if isDefault {
          FlagDefault(k, v);
        }
        return;
      }
      seen := seen + {identity};
      links := links + [Link(k, v, isDefault)];
      IdentitiesGrow(old(links), Link(k, v, isDefault));
    }

    method FlagDefault(key: string, value: string)
      modifies this`links
      ensures links == Flagged(old(links), key, value) && Identities(links) == Identities(old(links))
    {
      ghost var was := links;
      for i := 0 to |links|
        invariant |links| == |was|
        invariant forall j :: 0 <= j < i ==> links[j] == Flagged(was, key, value)[j]
        invariant forall j :: i <= j < |links| ==> links[j] == was[j]
      {
        if links[i].key == key && links[i].value == value {
          links := links[i := links[i].(isDefault := true)];
        }
      }
      FlaggingKeepsIdentities(was, key, value);
    }

    method AddLegacyID(t: Text, id: string)
      requires seen == Identities(links)
      modifies this
      ensures links == AddedLegacy(t, old(links), id) && seen == Identities(links)
    {
      var value := t.trim(id);
      if value == "" {
        return;
      }
      if IsImdbId(value) {
        Add(t, "imdb", value, false);
        return;
      }
      Add(t, "id", value, false);
    }
  }

  lemma IdentitiesGrow(links: seq<Link>, l: Link)
    ensures Identities(links + [l]) == Identities(links) + {IdentityOf(l)}
  {
    assert forall x :: x in links + [l] <==> x in links || x == l;
  }

  lemma FlaggingKeepsIdentities(links: seq<Link>, key: string, value: string)
    ensures Identities(Flagged(links, key, value)) == Identities(links)
  {
    var flagged := Flagged(links, key, value);
    forall x ensures x in Identities(flagged) <==> x in Identities(links) {
      if x in Identities(flagged) {
        var l :| l in flagged && IdentityOf(l) == x;
        var i :| 0 <= i < |flagged| && flagged[i] == l;
        assert links[i] in links;
      }
      if x in Identities(links) {
        var l :| l in links && IdentityOf(l) == x;
        var i :| 0 <= i < |links| && links[i] == l;
        assert flagged[i] in flagged;
      }
    }
  }

  method LinksFromUniqueIDs(t: Text, ids: seq<UniqueID>) returns (links: seq<Link>)
    ensures links == LinksOf(t, ids)
  {
    var collector := new LinkCollector();
    for k := 0 to |ids|
      invariant collector.links == LinksOf(t, ids[..k]) && collector.seen == Identities(collector.links)
    {
      assert ids[..k + 1][..k] == ids[..k];
      if ids[k].idType == "" {
        collector.AddLegacyID(t, ids[k].value);
      } else {
        collector.Add(t, ids[k].idType, ids[k].value, ids[k].isDefault);
      }
    }
    assert ids[..|ids|] == ids;
    links := collector.links;
  }

  predicate Kept(l: Link) {
    l.key !in DERIVED_LINK_KEYS && l.key != "" && l.value != ""
  }

  /** The links a rewrite keeps: all but the derived ones. */
  function Genuine(links: seq<Link>): seq<Link>
    decreases |links|
  {
    if links == [] then []
    else Genuine(links[..|links| - 1]) + if Kept(links[|links| - 1]) then [links[|links| - 1]] else []
  }

  function IdsOf(links: seq<Link>): (r: seq<UniqueID>)
    ensures |r| == |links|
    ensures forall i :: 0 <= i < |r| ==> r[i] == UniqueID(links[i].key, links[i].isDefault, links[i].value)
  {
    seq(|links|, i requires 0 <= i < |links| => UniqueID(links[i].key, links[i].isDefault, links[i].value))
  }

  method UniqueIDsFromLinks(links: seq<Link>) returns (ids: seq<UniqueID>)
    ensures ids == IdsOf(Genuine(links))
  {
    ids := [];
    for k := 0 to |links|
      invariant ids == IdsOf(Genuine(links[..k]))
    {
      assert links[..k + 1][..k] == links[..k];
      var link := links[k];
      if link.key !in DERIVED_LINK_KEYS && link.key != "" && link.value != "" {
        ids := ids + [UniqueID(link.key, link.isDefault, link.value)];
      }
    }
    assert links[..|links|] == links;
  }

  /** Canonical links: folded keys, trimmed values, no identity twice. */
  ghost predicate Canonical(t: Text, links: seq<Link>) {
    (forall i :: 0 <= i < |links| ==> CanonicalLink(t, links[i])) && NoRepeats(links)
  }

  predicate NoRepeats(links: seq<Link>) {
    forall i, j :: 0 <= i < j < |links| ==> IdentityOf(links[i]) != IdentityOf(links[j])
  }

  predicate CanonicalLink(t: Text, l: Link) {
    l.key != "" && l.value != "" && CanonicalKey(t, l.key) == l.key && t.fold(l.key) != "" && t.trim(l.value) == l.value
  }

  lemma NewLinkIsCanonical(t: Text, key: string, value: string, isDefault: bool)
    requires Sane(t) && t.fold(key) != "" && t.trim(value) != ""
    ensures CanonicalLink(t, Link(CanonicalKey(t, key), t.trim(value), isDefault))
  {
    CanonicalKeyIsStable(t, key);
  }

  lemma IdentityIsNew(links: seq<Link>, l: Link)
    requires NoRepeats(links)
    ensures NoRepeats(links + [l]) <==> IdentityOf(l) !in Identities(links)
  {
    hide IdentityOf;
    var next := links + [l];
    assert next[|links|] == l && forall i :: 0 <= i < |links| ==> next[i] == links[i];
    forall i | 0 <= i < |links| ensures IdentityOf(links[i]) in Identities(links) {
      assert links[i] in links;
    }
    if IdentityOf(l) in Identities(links) {
      var m :| m in links && IdentityOf(m) == IdentityOf(l);
      var i :| 0 <= i < |links| && links[i] == m;
      assert IdentityOf(next[i]) == IdentityOf(next[|links|]);
    }
  }

  lemma FlaggedIsCanonical(t: Text, links: seq<Link>, key: string, value: string)
    requires Canonical(t, links)
    ensures Canonical(t, Flagged(links, key, value))
  {
    hide CanonicalKey, LinkIdentity;
    var flagged := Flagged(links, key, value);
    forall i | 0 <= i < |flagged| ensures CanonicalLink(t, flagged[i]) && IdentityOf(flagged[i]) == IdentityOf(links[i]) {
      assert CanonicalLink(t, links[i]);
    }
  }

  lemma AddedIsCanonical(t: Text, links: seq<Link>, key: string, value: string, isDefault: bool)
    requires Sane(t) && Canonical(t, links)
    ensures Canonical(t, Added(t, links, key, value, isDefault))
  {
    hide CanonicalKey, LinkIdentity, CanonicalLink, Flagged, NoRepeats, Sane;
    var k, v := CanonicalKey(t, key), t.trim(value);
    var l := Link(k, v, isDefault);
    FlaggedIsCanonical(t, links, k, v);
    IdentityIsNew(links, l);
    if t.fold(key) != "" && v != "" {
      NewLinkIsCanonical(t, key, value, isDefault);
    }
  }

  /** Whatever a file's id tags say, its links are canonical. */
  lemma {:induction false} LinksAreCanonical(t: Text, ids: seq<UniqueID>)
    requires Sane(t)
    ensures Canonical(t, LinksOf(t, ids))
    decreases |ids|
  {
    if ids != [] {
      var earlier, last := LinksOf(t, ids[..|ids| - 1]), ids[|ids| - 1];
      LinksAreCanonical(t, ids[..|ids| - 1]);
      hide Canonical, Added;
      AddedIsCanonical(t, earlier, last.idType, last.value, last.isDefault);
      AddedIsCanonical(t, earlier, "imdb", t.trim(last.value), false);
      AddedIsCanonical(t, earlier, "id", t.trim(last.value), false);
    }
  }

  lemma {:induction false} GenuineIsCanonical(t: Text, links: seq<Link>)
    requires Canonical(t, links)
    ensures Canonical(t, Genuine(links))
    ensures forall l :: l in Genuine(links) ==> l in links && Kept(l)
    decreases |links|
  {
    hide CanonicalLink, IdentityOf, Kept;
    if links != [] {
      var init, last := links[..|links| - 1], links[|links| - 1];
      assert links == init + [last];
      GenuineIsCanonical(t, init);
      IdentityIsNew(init, last);
      assert Identities(Genuine(init)) <= Identities(init);
      IdentityIsNew(Genuine(init), last);
    }
  }

  lemma ReadingOneLink(t: Text, links: seq<Link>, l: Link)
    requires Sane(t) && CanonicalLink(t, l) && IdentityOf(l) !in Identities(links)
    ensures Added(t, links, l.key, l.value, l.isDefault) == links + [l]
  {
  }

  /** Canonical links written as id tags read back as themselves. */
  lemma {:induction false} CanonicalLinksReadBack(t: Text, links: seq<Link>)
    requires Sane(t) && Canonical(t, links)
    ensures LinksOf(t, IdsOf(links)) == links
    decreases |links|
  {
    hide Added, AddedLegacy, IdentityOf, CanonicalKey, Identities, Sane;
    if links != [] {
      var init, last := links[..|links| - 1], links[|links| - 1];
      assert links == init + [last];
      CanonicalLinksReadBack(t, init);
      assert IdsOf(links)[..|init|] == IdsOf(init);
      assert CanonicalLink(t, last) && last.key != "";
      IdentityIsNew(init, last);
      ReadingOneLink(t, init, last);
    }
  }

  /** Reading, writing and reading again loses exactly the derived links; once they
      are gone nothing changes any more. */
  lemma RewritingKeepsGenuineLinks(t: Text, ids: seq<UniqueID>)
    requires Sane(t)
    ensures var links := LinksOf(t, ids);
            LinksOf(t, IdsOf(Genuine(links))) == Genuine(links) && Genuine(Genuine(links)) == Genuine(links)
  {
    var links := LinksOf(t, ids);
    LinksAreCanonical(t, ids);
    GenuineIsCanonical(t, links);
    CanonicalLinksReadBack(t, Genuine(links));
    AllGenuine(Genuine(links));
  }

  lemma {:induction false} AllGenuine(links: seq<Link>)
    requires forall l :: l in links ==> Kept(l)
    ensures Genuine(links) == links
    decreases |links|
  {
    if links != [] {
      AllGenuine(links[..|links| - 1]);
      assert links == links[..|links| - 1] + [links[|links| - 1]];
    }
  }

  // ---------------------------------------------------------------------
  // Which links a document's tags give
  // ---------------------------------------------------------------------

  /** The provider a tag names: its own type's, or for a bare id the one its shape
      gives away. */
  function ProviderOf(t: Text, id: UniqueID): string {
    if id.idType != "" then CanonicalKey(t, id.idType)
    else if IsImdbId(t.trim(id.value)) then CanonicalKey(t, "imdb")
    else CanonicalKey(t, "id")
  }

  /** A tag that gives a link: it has a value, and a type that is not blank. */
  predicate Usable(t: Text, id: UniqueID) {
    t.trim(id.value) != "" && (id.idType == "" || t.fold(id.idType) != "")
  }

  predicate Gives(t: Text, id: UniqueID, key: string, value: string) {
    Usable(t, id) && ProviderOf(t, id) == key && t.trim(id.value) == value
  }

  ghost predicate HasLink(links: seq<Link>, key: string, value: string) {
    exists i :: 0 <= i < |links| && links[i].key == key && links[i].value == value
  }

  ghost predicate HasDefault(links: seq<Link>, key: string, value: string) {
    exists i :: 0 <= i < |links| && links[i] == Link(key, value, true)
  }

  ghost predicate SomeTagGives(t: Text, ids: seq<UniqueID>, key: string, value: string) {
    exists i :: 0 <= i < |ids| && Gives(t, ids[i], key, value)
  }

  ghost predicate SomeTagMakesDefault(t: Text, ids: seq<UniqueID>, key: string, value: string) {
    exists i :: 0 <= i < |ids| && Gives(t, ids[i], key, value) && ids[i].idType != "" && ids[i].isDefault
  }

  predicate NulFree(links: seq<Link>) {
    forall i :: 0 <= i < |links| ==> '\0' !in links[i].key
  }

  lemma IdentitySplits(k: string, v: string, l: Link)
    requires '\0' !in k && '\0' !in l.key
    ensures IdentityOf(l) == LinkIdentity(k, v) <==> l.key == k && l.value == v
  {
    var a, b := IdentityOf(l), LinkIdentity(k, v);
    if a == b {
      assert a[|l.key|] == '\0' && b[|k|] == '\0';
      assert forall i :: 0 <= i < |l.key| ==> a[i] == l.key[i] && l.key[i] in l.key;
      assert forall i :: 0 <= i < |k| ==> b[i] == k[i] && k[i] in k;
      assert |k| == |l.key|;
      assert l.key == a[..|l.key|] && k == b[..|k|];
      assert l.value == a[|l.key| + 1..] && v == b[|k| + 1..];
    }
  }

  lemma KnownIdentity(links: seq<Link>, k: string, v: string)
    requires NulFree(links) && '\0' !in k
    ensures LinkIdentity(k, v) in Identities(links) <==> HasLink(links, k, v)
  {
    if HasLink(links, k, v) {
      var i :| 0 <= i < |links| && links[i].key == k && links[i].value == v;
      assert links[i] in links;
    }
    if LinkIdentity(k, v) in Identities(links) {
      var l :| l in links && IdentityOf(l) == LinkIdentity(k, v);
      var i :| 0 <= i < |links| && links[i] == l;
      IdentitySplits(k, v, links[i]);
    }
  }

  lemma AppendSays(links: seq<Link>, l: Link, key: string, value: string)
    ensures HasLink(links + [l], key, value) <==> HasLink(links, key, value) || (l.key == key && l.value == value)
    ensures HasDefault(links + [l], key, value) <==> HasDefault(links, key, value) || l == Link(key, value, true)
  {
    var next := links + [l];
    assert next[|links|] == l && forall i :: 0 <= i < |links| ==> next[i] == links[i];
  }

  lemma FlaggedSays(links: seq<Link>, k: string, v: string, key: string, value: string)
    requires HasLink(links, k, v)
    ensures HasLink(Flagged(links, k, v), key, value) <==> HasLink(links, key, value)
    ensures HasDefault(Flagged(links, k, v), key, value) <==> HasDefault(links, key, value) || (k == key && v == value)
  {
    var flagged := Flagged(links, k, v);
    if HasLink(links, key, value) {
      var i :| 0 <= i < |links| && links[i].key == key && links[i].value == value;
      assert flagged[i].key == key && flagged[i].value == value;
    }
    if HasDefault(links, key, value) {
      var i :| 0 <= i < |links| && links[i] == Link(key, value, true);
      assert flagged[i] == Link(key, value, true);
    }
    if k == key && v == value {
      var i :| 0 <= i < |links| && links[i].key == k && links[i].value == v;
      assert flagged[i] == Link(key, value, true);
    }
  }

  /** One more tag: its link is there, flagged if it asks for it, and nothing else
      changes. */
  lemma AddedSays(t: Text, links: seq<Link>, name: string, raw: string, isDefault: bool, key: string, value: string)
    requires NulFree(links) && '\0' !in CanonicalKey(t, name) && t.fold(name) != "" && t.trim(raw) != ""
    ensures var next := Added(t, links, name, raw, isDefault);
            var own := CanonicalKey(t, name) == key && t.trim(raw) == value;
            && NulFree(next)
            && (HasLink(next, key, value) <==> HasLink(links, key, value) || own)
            && (HasDefault(next, key, value) <==> HasDefault(links, key, value) || (own && isDefault))
  {
    var k, v := CanonicalKey(t, name), t.trim(raw);
    hide CanonicalKey, LinkIdentity, Identities, HasLink, HasDefault;
    KnownIdentity(links, k, v);
    if HasLink(links, k, v) {
      FlaggedSays(links, k, v, key, value);
    } else {
      AppendSays(links, Link(k, v, isDefault), key, value);
    }
  }

  lemma TagSays(t: Text, earlier: seq<Link>, id: UniqueID, key: string, value: string)
    requires Sane(t) && NulFree(earlier) && '\0' !in ProviderOf(t, id)
    ensures var next := if id.idType == "" then AddedLegacy(t, earlier, id.value)
                        else Added(t, earlier, id.idType, id.value, id.isDefault);
            && NulFree(next)
            && (HasLink(next, key, value) <==> HasLink(earlier, key, value) || Gives(t, id, key, value))
            && (HasDefault(next, key, value) <==>
                  HasDefault(earlier, key, value) || (Gives(t, id, key, value) && id.idType != "" && id.isDefault))
  {
    hide HasLink, HasDefault, CanonicalKey, IsImdbId, NulFree;
    assert PlainText("imdb") && PlainText("id");
    if Usable(t, id) {
      if id.idType == "" {
        var name := if IsImdbId(t.trim(id.value)) then "imdb" else "id";
        AddedSays(t, earlier, name, t.trim(id.value), false, key, value);
      } else {
        AddedSays(t, earlier, id.idType, id.value, id.isDefault, key, value);
      }
    }
  }

  /** The links of a document are exactly those its usable tags give, each once,
      and a link is the default exactly when one of its typed tags says so. */
  lemma {:induction false} LinksAreTheTags(t: Text, ids: seq<UniqueID>, key: string, value: string)
    requires Sane(t) && forall i :: 0 <= i < |ids| ==> '\0' !in ProviderOf(t, ids[i])
    ensures NulFree(LinksOf(t, ids))
    ensures HasLink(LinksOf(t, ids), key, value) <==> SomeTagGives(t, ids, key, value)
    ensures HasDefault(LinksOf(t, ids), key, value) <==> SomeTagMakesDefault(t, ids, key, value)
    decreases |ids|
  {
    hide Sane, HasLink, HasDefault, Gives, ProviderOf, Added, AddedLegacy, NulFree;
    if ids == [] {
      NoLinks(key, value);
    } else {
      var init, last := ids[..|ids| - 1], ids[|ids| - 1];
      LinksAreTheTags(t, init, key, value);
      TagSays(t, LinksOf(t, init), last, key, value);
      OneMoreTag(t, init, last, key, value);
      assert ids == init + [last];
    }
  }

  lemma NoLinks(key: string, value: string)
    ensures NulFree([]) && !HasLink([], key, value) && !HasDefault([], key, value)
  {
  }

  lemma OneMoreTag(t: Text, ids: seq<UniqueID>, id: UniqueID, key: string, value: string)
    ensures SomeTagGives(t, ids + [id], key, value) <==> SomeTagGives(t, ids, key, value) || Gives(t, id, key, value)
    ensures SomeTagMakesDefault(t, ids + [id], key, value) <==>
      SomeTagMakesDefault(t, ids, key, value) || (Gives(t, id, key, value) && id.idType != "" && id.isDefault)
  {
    var next := ids + [id];
    assert next[|ids|] == id && forall i :: 0 <= i < |ids| ==> next[i] == ids[i];
  }

  /** The shipped aliases of one provider are one key, and a name the table does not
      know stands for itself. */
  lemma AliasesMeet(letters: Letters, name: string)
    requires SaneLetters(letters) && PlainText(name)
    ensures var t := Text(s => Trim(letters, s), s => Fold(letters, s), CANONICAL_LINK_KEYS);
            && (name in ["tvdb", "tvdbid", "thetvdb"] ==> CanonicalKey(t, name) == "tvdb")
            && (name in ["tmdb", "tmdbid", "themoviedb"] ==> CanonicalKey(t, name) == "tmdb")
            && (name in ["imdb", "imdbid"] ==> CanonicalKey(t, name) == "imdb")
            && (name in ["tvmaze", "tvmazeid"] ==> CanonicalKey(t, name) == "tvmaze")
            && (name !in CANONICAL_LINK_KEYS ==> CanonicalKey(t, name) == name)
  {
    hide Trim, Fold, SaneLetters, PlainText;
    FoldingSettles(letters, name);
  }

  /** What a rewrite keeps of some links: all but the derived and the blank, each as
      often as it was there. */
  lemma {:induction false} GenuineExactly(links: seq<Link>, l: Link)
    ensures multiset(Genuine(links))[l] ==
      if l.key != "id" && l.key != "youtube" && l.key != "" && l.value != "" then multiset(links)[l] else 0
    decreases |links|
  {
    if links != [] {
      GenuineExactly(links[..|links| - 1], l);
      assert links == links[..|links| - 1] + [links[|links| - 1]];
    }
  }

  // ---------------------------------------------------------------------
  // Dates
  // ---------------------------------------------------------------------

  predicate AllDigits(s: string) {
    forall i :: 0 <= i < |s| ==> IsDigit(s[i])
  }

  /** The bare form: four digits, two, two, naming a day that exists. */
  predicate IsDate(s: string) {
    && |s| == 10 && s[4] == '-' && s[7] == '-'
    && AllDigits(s[..4]) && AllDigits(s[5..7]) && AllDigits(s[8..])
    && ValidDate(Date(DecimalValue(s[..4]), DecimalValue(s[5..7]), DecimalValue(s[8..])))
  }

  /** timed recognises the two layouts that carry a time of day after the date. */
  function ParseDate(t: Text, timed: string -> bool, raw: string): string {
    var s := t.trim(raw);
    if s == "" then ""
    else if IsDate(s) then s
    else if |s| > 10 && IsDate(s[..10]) && timed(s) then s[..10]
    else ""
  }

  /** A stored date is a bare date or nothing, and parsing it again keeps it. */
  lemma DatesAreStable(t: Text, timed: string -> bool, raw: string)
    requires Sane(t)
    ensures var d := ParseDate(t, timed, raw);
            (d == "" || IsDate(d)) && ParseDate(t, timed, d) == d
  {
    hide ValidDate, DecimalValue;
    var d := ParseDate(t, timed, raw);
    assert PlainText("");
    if IsDate(d) {
      DatesArePlain(d);
    }
  }

  /** A date as text: year, month, day, padded. */
  function DateText(d: Date): string
    requires ValidDate(d)
  {
    Width4And2();
    Digits(d.year, 4) + "-" + Digits(d.month, 2) + "-" + Digits(d.day, 2)
  }

  lemma Width4And2()
    ensures Pow10(2) == 100 && Pow10(4) == 10000
  {
    assert Pow10(1) == 10 && Pow10(2) == 10 * Pow10(1) && Pow10(3) == 10 * Pow10(2) && Pow10(4) == 10 * Pow10(3);
  }

  lemma DateTextIsDate(d: Date)
    requires ValidDate(d)
    ensures IsDate(DateText(d))
  {
    Width4And2();
    var s := DateText(d);
    assert s[..4] == Digits(d.year, 4) && s[5..7] == Digits(d.month, 2) && s[8..] == Digits(d.day, 2);
    DigitsRoundTrip(d.year, 4);
    DigitsRoundTrip(d.month, 2);
    DigitsRoundTrip(d.day, 2);
  }

  lemma IsDateText(s: string) returns (d: Date)
    requires IsDate(s)
    ensures ValidDate(d) && s == DateText(d)
  {
    Width4And2();
    d := Date(DecimalValue(s[..4]), DecimalValue(s[5..7]), DecimalValue(s[8..]));
    ValueRoundTrip(s[..4]);
    ValueRoundTrip(s[5..7]);
    ValueRoundTrip(s[8..]);
    hide DecimalValue, Digits, ValidDate;
    assert s == s[..4] + [s[4]] + s[5..7] + [s[7]] + s[8..];
  }

  /** What parsing answers: a date written out, exactly; a date with a time of day
      after it, the date; and nothing exactly when the text is neither. */
  lemma DatesParse(t: Text, timed: string -> bool, raw: string, d: Date)
    requires ValidDate(d)
    ensures t.trim(raw) == DateText(d) ==> ParseDate(t, timed, raw) == DateText(d)
    ensures DateText(d) < t.trim(raw) && timed(t.trim(raw)) ==> ParseDate(t, timed, raw) == DateText(d)
    ensures ParseDate(t, timed, raw) == "" <==>
      forall e: Date :: ValidDate(e) ==>
        DateText(e) != t.trim(raw) && !(DateText(e) < t.trim(raw) && timed(t.trim(raw)))
  {
    hide ValidDate, DateText;
    var s := t.trim(raw);
    DateTextIsDate(d);
    if DateText(d) < s {
      assert s[..10] == DateText(d);
    }
    if ParseDate(t, timed, raw) == "" {
      forall e: Date | ValidDate(e) ensures DateText(e) != s && !(DateText(e) < s && timed(s)) {
        DateTextIsDate(e);
        assert DateText(e) < s ==> s[..10] == DateText(e);
      }
    } else if IsDate(s) {
      var e := IsDateText(s);
    } else {
      var e := IsDateText(s[..10]);
      assert DateText(e) < s;
    }
  }

  /** So a bare date in a tag comes through as it stands, for every date there is. */
  lemma BareDatesArrive(t: Text, timed: string -> bool, d: Date)
    requires Sane(t) && ValidDate(d)
    ensures ParseDate(t, timed, DateText(d)) == DateText(d)
  {
    DateTextIsDate(d);
    DatesArePlain(DateText(d));
    hide DateText, IsDate, ParseDate, ValidDate;
    DatesParse(t, timed, DateText(d), d);
  }

  lemma DatesArePlain(d: string)
    requires IsDate(d)
    ensures PlainText(d)
  {
    forall i | 0 <= i < |d| ensures PlainLetter(d[i]) {
      assert i < 4 ==> d[i] == d[..4][i];
      assert 5 <= i < 7 ==> d[i] == d[5..7][i - 5];
      assert 8 <= i ==> d[i] == d[8..][i - 8];
    }
  }

  // ---------------------------------------------------------------------
  // Integers
  // ---------------------------------------------------------------------

  const MIN_INT64 := -0x8000_0000_0000_0000
  const MAX_INT64 := 0x7fff_ffff_ffff_ffff

  function ToInt32(n: int): (r: int)
    ensures IsInt32(r) && (IsInt32(n) ==> r == n)
  {
    (n + 0x8000_0000) % 0x1_0000_0000 - 0x8000_0000
  }

  predicate IsInt32(n: int) {
    -0x8000_0000 <= n < 0x8000_0000
  }

  /** A sign and digits, in 64 bits. */
  function Atoi(s: string): Option<int> {
    var signed := s != "" && (s[0] == '-' || s[0] == '+');
    var digits := if signed then s[1..] else s;
    if digits == "" || !AllDigits(digits) then None
    else
      var magnitude: int := DecimalValue(digits);
      var n := if signed && s[0] == '-' then -magnitude else magnitude;
      if MIN_INT64 <= n <= MAX_INT64 then Some(n) else None
  }

  function Decimal(n: nat): (s: string)
    ensures s != "" && AllDigits(s)
  {
    if n < 10 then [DigitChar(n)] else Decimal(n / 10) + [DigitChar(n % 10)]
  }

  function AtoiOrZero(raw: string): (n: int)
    ensures IsInt32(n)
  {
    match Atoi(raw)
    case None => 0
    case Some(n) => ToInt32(n)
  }

  function ItoaOrEmpty(n: int): string {
    if n == 0 then "" else if n < 0 then "-" + Decimal(-n) else Decimal(n)
  }

  lemma {:induction false} DecimalReadsBack(n: nat)
    ensures DecimalValue(Decimal(n)) == n
  {
    if n >= 10 {
      DecimalReadsBack(n / 10);
      var s := Decimal(n);
      assert s[..|s| - 1] == Decimal(n / 10);
    } else {
      assert [DigitChar(n)][..0] == "";
    }
  }

  /** An optional sign and digits. */
  predicate IsIntegerText(raw: string, sign: string, digits: string) {
    (sign == "" || sign == "+" || sign == "-") && digits != "" && AllDigits(digits) && raw == sign + digits
  }

  function Number(sign: string, digits: string): int
    requires AllDigits(digits)
  {
    var magnitude: int := DecimalValue(digits);
    if sign == "-" then -magnitude else magnitude
  }

  lemma AtoiOfText(raw: string, sign: string, digits: string)
    requires IsIntegerText(raw, sign, digits)
    ensures Atoi(raw) ==
      if MIN_INT64 <= Number(sign, digits) <= MAX_INT64 then Some(Number(sign, digits)) else None
  {
    hide DecimalValue;
    if sign == "" {
      assert IsDigit(digits[0]) && raw == digits;
    } else {
      assert raw[0] == sign[0] && raw[1..] == digits;
    }
  }

  lemma AtoiTakesText(raw: string)
    requires Atoi(raw).Some?
    ensures exists sign, digits :: IsIntegerText(raw, sign, digits)
  {
    hide DecimalValue;
    if raw[0] == '-' || raw[0] == '+' {
      assert [raw[0]] + raw[1..] == raw;
      assert IsIntegerText(raw, [raw[0]], raw[1..]);
    } else {
      assert IsIntegerText(raw, "", raw);
    }
  }

  lemma CutIsCongruent(n: int)
    ensures ToInt32(n) % 0x1_0000_0000 == n % 0x1_0000_0000
  {
  }

  /** A decimal tag yields its number cut to 32 bits, or zero when it does not fit
      64; any other text yields zero. */
  lemma IntegersArrive(raw: string, sign: string, digits: string)
    ensures IsIntegerText(raw, sign, digits) ==>
      var n := Number(sign, digits);
      if MIN_INT64 <= n <= MAX_INT64 then AtoiOrZero(raw) % 0x1_0000_0000 == n % 0x1_0000_0000 else AtoiOrZero(raw) == 0
    ensures (forall s, d :: !IsIntegerText(raw, s, d)) ==> AtoiOrZero(raw) == 0
  {
    hide Atoi, Number, ToInt32, IsIntegerText;
    if IsIntegerText(raw, sign, digits) {
      AtoiOfText(raw, sign, digits);
    }
    if Atoi(raw).Some? {
      AtoiTakesText(raw);
      CutIsCongruent(Atoi(raw).value);
    }
  }

  /** Printing and parsing an integer tag are inverse on every 32-bit value. */
  lemma IntegersReadBack(n: int)
    requires IsInt32(n)
    ensures AtoiOrZero(ItoaOrEmpty(n)) == n
  {
    if n < 0 {
      DecimalReadsBack(-n);
      var digits := Decimal(-n);
      hide Decimal;
      assert ItoaOrEmpty(n) == "-" + digits && ("-" + digits)[1..] == digits;
      assert Atoi("-" + digits) == Some(n);
    } else if n > 0 {
      DecimalReadsBack(n);
      var digits := Decimal(n);
      hide Decimal;
      assert IsDigit(digits[0]);
      assert Atoi(digits) == Some(n);
    }
  }
}

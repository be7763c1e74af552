/** An NFO document and the metadata record it stands for, in both directions. */
module NfoAdapter {
  import opened Options
  import opened MetadataValues

  // Ratings, thumbs, actors and the other small records have the same fields on
  // both sides, so one type serves for both.
  datatype Rating = Rating(name: string, max: string, isDefault: bool, value: string, votes: string)

  datatype Thumb = Thumb(aspect: string, preview: string, thumbType: string, season: string, value: string)

  datatype Actor = Actor(name: string, role: string, order: string, thumb: string)

  datatype Resume = Resume(position: string, total: string)

  datatype MovieSet = MovieSet(name: string, overview: string)

  // ---------------------------------------------------------------------
  // Tags nobody knows
  // ---------------------------------------------------------------------

  datatype XmlName = XmlName(space: string, local: string)

  datatype XmlAttr = XmlAttr(name: XmlName, value: string)

  datatype XmlUnknown = XmlUnknown(name: XmlName, attrs: seq<XmlAttr>, inner: string)

  datatype Attr = Attr(name: string, value: string)

  datatype UnknownElement = UnknownElement(name: string, attrs: seq<Attr>, inner: string)

  function AttrRead(a: XmlAttr): Attr { Attr(a.name.local, a.value) }

  function AttrWritten(a: Attr): XmlAttr { XmlAttr(XmlName("", a.name), a.value) }

  function AttrsRead(attrs: seq<XmlAttr>): (r: seq<Attr>)
    ensures |r| == |attrs| && forall i :: 0 <= i < |r| ==> r[i] == AttrRead(attrs[i])
  {
    seq(|attrs|, i requires 0 <= i < |attrs| => AttrRead(attrs[i]))
  }

  function AttrsWritten(attrs: seq<Attr>): (r: seq<XmlAttr>)
    ensures |r| == |attrs| && forall i :: 0 <= i < |r| ==> r[i] == AttrWritten(attrs[i])
  {
    seq(|attrs|, i requires 0 <= i < |attrs| => AttrWritten(attrs[i]))
  }

  function ExtraRead(extra: seq<XmlUnknown>): (r: seq<UnknownElement>)
    ensures |r| == |extra|
    ensures forall i :: 0 <= i < |r| ==>
      r[i] == UnknownElement(extra[i].name.local, AttrsRead(extra[i].attrs), extra[i].inner)
  {
    seq(|extra|, i requires 0 <= i < |extra| =>
      UnknownElement(extra[i].name.local, AttrsRead(extra[i].attrs), extra[i].inner))
  }

  function ExtraWritten(extra: seq<UnknownElement>): (r: seq<XmlUnknown>)
    ensures |r| == |extra|
    ensures forall i :: 0 <= i < |r| ==>
      r[i] == XmlUnknown(XmlName("", extra[i].name), AttrsWritten(extra[i].attrs), extra[i].inner)
  {
    seq(|extra|, i requires 0 <= i < |extra| =>
      XmlUnknown(XmlName("", extra[i].name), AttrsWritten(extra[i].attrs), extra[i].inner))
  }

  method ExtraFromXML(extra: seq<XmlUnknown>) returns (out: seq<UnknownElement>)
    ensures out == ExtraRead(extra)
  {
    out := [];
    for k := 0 to |extra|
      invariant |out| == k && forall i :: 0 <= i < k ==> out[i] == ExtraRead(extra)[i]
    {
      var attrs: seq<Attr> := [];
      for a := 0 to |extra[k].attrs|
        invariant |attrs| == a && forall i :: 0 <= i < a ==> attrs[i] == AttrRead(extra[k].attrs[i])
      {
        attrs := attrs + [Attr(extra[k].attrs[a].name.local, extra[k].attrs[a].value)];
      }
      assert attrs == AttrsRead(extra[k].attrs);
      out := out + [UnknownElement(extra[k].name.local, attrs, extra[k].inner)];
    }
  }

  method ExtraToXML(extra: seq<UnknownElement>) returns (out: seq<XmlUnknown>)
    ensures out == ExtraWritten(extra)
  {
    out := [];
    for k := 0 to |extra|
      invariant |out| == k && forall i :: 0 <= i < k ==> out[i] == ExtraWritten(extra)[i]
    {
      var attrs: seq<XmlAttr> := [];
      for a := 0 to |extra[k].attrs|
        invariant |attrs| == a && forall i :: 0 <= i < a ==> attrs[i] == AttrWritten(extra[k].attrs[i])
      {
        attrs := attrs + [XmlAttr(XmlName("", extra[k].attrs[a].name), extra[k].attrs[a].value)];
      }
      assert attrs == AttrsWritten(extra[k].attrs);
      out := out + [XmlUnknown(XmlName("", extra[k].name), attrs, extra[k].inner)];
    }
  }

  /** An unknown tag written out reads back as it was. */
  lemma ExtraReadsBack(extra: seq<UnknownElement>)
    ensures ExtraRead(ExtraWritten(extra)) == extra
  {
    var back := ExtraRead(ExtraWritten(extra));
    forall i | 0 <= i < |extra| ensures back[i] == extra[i] {
      assert AttrsRead(AttrsWritten(extra[i].attrs)) == extra[i].attrs;
    }
  }

  // ---------------------------------------------------------------------
  // Documents
  // ---------------------------------------------------------------------

  /** The tags all four kinds of document carry. */
  datatype Tags = Tags(
    title: string, userRating: string, top250: string, outline: string, plot: string, tagline: string, runtime: string,
    thumbs: seq<Thumb>, mpaa: string, playCount: string, lastPlayed: string, uniqueIDs: seq<UniqueID>, id: string,
    genres: seq<string>, premiered: string, year: string, studios: seq<string>, trailer: string, actors: seq<Actor>,
    resume: Option<Resume>, dateAdded: string, extra: seq<XmlUnknown>)

  datatype Movie = Movie(
    tags: Tags, originalTitle: string, sortTitle: string, ratings: Option<seq<Rating>>, fanart: Option<seq<Thumb>>,
    tagList: seq<string>, movieSet: Option<MovieSet>, countries: seq<string>, credits: seq<string>,
    directors: seq<string>, showLinks: seq<string>, originalLanguage: string)

  /** unread holds the tags of a show the record has no place for. */
  datatype TVShow = TVShow(
    tags: Tags, originalTitle: string, ratings: Option<seq<Rating>>, tagList: seq<string>, status: string, code: string,
    aired: string, unread: seq<string>)

  datatype Episode = Episode(
    tags: Tags, originalTitle: string, ratings: Option<seq<Rating>>, credits: seq<string>, directors: seq<string>,
    status: string, code: string, aired: string, fields: EpisodeFields)

  datatype MusicVideo = MusicVideo(
    tags: Tags, tagList: seq<string>, directors: seq<string>, status: string, code: string, aired: string,
    fields: MusicVideoFields)

  datatype Document = Document(
    kind: string, movie: Option<Movie>, tvShow: Option<TVShow>, episodes: seq<Episode>, musicVideo: Option<MusicVideo>)

  // ---------------------------------------------------------------------
  // Records
  // ---------------------------------------------------------------------

  datatype CastCrew = CastCrew(directors: seq<string>, actors: seq<Actor>, credits: seq<string>)

  datatype MovieFields = MovieFields(
    sortTitle: string, fanart: Option<seq<Thumb>>, movieSet: Option<MovieSet>, countries: seq<string>,
    showLinks: seq<string>, originalLanguage: string)

  datatype EpisodeFields = EpisodeFields(
    showTitle: string, season: string, episode: string, displayEpisode: string, displaySeason: string,
    bookmark: Option<string>)

  datatype MusicVideoFields = MusicVideoFields(track: string, album: string, artists: seq<string>)

  /** The part of a record every kind fills. */
  datatype Shared = Shared(
    title: string, userRating: string, top250: string, outline: string, plot: string, tagline: string, runtime: string,
    thumbs: seq<Thumb>, mpaa: string, playCount: int, lastPlayed: string, externalLinks: seq<Link>, id: string,
    genres: seq<string>, premiered: string, year: int, studios: seq<string>, trailer: string, resume: Option<Resume>,
    dateAdded: string, extra: seq<UnknownElement>)

  const NOTHING_SHARED :=
    Shared("", "", "", "", "", "", "", [], "", 0, "", [], "", [], "", 0, [], "", None, "", [])

  /** tvShow marks that the show block is present. */
  datatype Metadata = Metadata(
    kind: string, shared: Shared, originalTitle: string, ratings: Option<seq<Rating>>, tagList: seq<string>,
    status: string, code: string, aired: string, castCrew: Option<CastCrew>,
    movie: Option<MovieFields>, tvShow: bool, episode: Option<EpisodeFields>, musicVideo: Option<MusicVideoFields>)

  function EmptyRecord(kind: string): Metadata {
    Metadata(kind, NOTHING_SHARED, "", None, [], "", "", "", None, None, false, None, None)
  }

  const KIND_MOVIE := "movie"
  const KIND_TV_SHOW := "tvshow"
  const KIND_EPISODE := "episodedetails"
  const KIND_MUSIC_VIDEO := "musicvideo"

  /** The text rules and the two timed date layouts. */
  datatype Env = Env(text: Text, timed: string -> bool)

  // ---------------------------------------------------------------------
  // Reading
  // ---------------------------------------------------------------------

  function CastCrewOf(directors: seq<string>, actors: seq<Actor>, credits: seq<string>): Option<CastCrew> {
    if directors == [] && actors == [] && credits == [] then None else Some(CastCrew(directors, actors, credits))
  }

  function CastCrewParts(c: Option<CastCrew>): (seq<string>, seq<Actor>, seq<string>) {
    match c
    case None => ([], [], [])
    case Some(people) => (people.directors, people.actors, people.credits)
  }

  function ReadShared(env: Env, t: Tags): Shared {
    Shared(t.title, t.userRating, t.top250, t.outline, t.plot, t.tagline, t.runtime, t.thumbs, t.mpaa,
           AtoiOrZero(t.playCount), t.lastPlayed, LinksOf(env.text, t.uniqueIDs), t.id, t.genres,
           ParseDate(env.text, env.timed, t.premiered), AtoiOrZero(t.year), t.studios, t.trailer, t.resume,
           ParseDate(env.text, env.timed, t.dateAdded), ExtraRead(t.extra))
  }

  function ReadMovie(env: Env, m: Movie): Metadata {
    Metadata(KIND_MOVIE, ReadShared(env, m.tags), m.originalTitle, m.ratings, m.tagList, "", "", "",
             CastCrewOf(m.directors, m.tags.actors, m.credits),
             Some(MovieFields(m.sortTitle, m.fanart, m.movieSet, m.countries, m.showLinks, m.originalLanguage)),
             false, None, None)
  }

  function ReadTVShow(env: Env, s: TVShow): Metadata {
    Metadata(KIND_TV_SHOW, ReadShared(env, s.tags), s.originalTitle, s.ratings, s.tagList, s.status, s.code, s.aired,
             CastCrewOf([], s.tags.actors, []), None, true, None, None)
  }

  function ReadEpisode(env: Env, e: Episode): Metadata {
    Metadata(KIND_EPISODE, ReadShared(env, e.tags), e.originalTitle, e.ratings, [], e.status, e.code, e.aired,
             CastCrewOf(e.directors, e.tags.actors, e.credits), None, false, Some(e.fields), None)
  }

  function ReadMusicVideo(env: Env, v: MusicVideo): Metadata {
    Metadata(KIND_MUSIC_VIDEO, ReadShared(env, v.tags), "", None, v.tagList, v.status, v.code, v.aired,
             CastCrewOf(v.directors, v.tags.actors, []), None, false, None, Some(v.fields))
  }

  function ToMetadata(env: Env, doc: Option<Document>): Metadata {
    match doc
    case None => EmptyRecord("")
    case Some(d) =>
      if d.movie.Some? then ReadMovie(env, d.movie.value)
      else if d.tvShow.Some? then ReadTVShow(env, d.tvShow.value)
      else if d.episodes != [] then ReadEpisode(env, d.episodes[0])
      else if d.musicVideo.Some? then ReadMusicVideo(env, d.musicVideo.value)
      else EmptyRecord(d.kind)
  }

  // ---------------------------------------------------------------------
  // Every tag in its own field
  // ---------------------------------------------------------------------

  /** What the shared tags of any kind become, tag by tag. */
  predicate CarriesTags(env: Env, s: Shared, t: Tags) {
    && s.title == t.title && s.userRating == t.userRating && s.top250 == t.top250
    && s.outline == t.outline && s.plot == t.plot && s.tagline == t.tagline && s.runtime == t.runtime
    && s.thumbs == t.thumbs && s.mpaa == t.mpaa && s.lastPlayed == t.lastPlayed && s.id == t.id
    && s.genres == t.genres && s.studios == t.studios && s.trailer == t.trailer && s.resume == t.resume
    && s.playCount == AtoiOrZero(t.playCount) && s.year == AtoiOrZero(t.year)
    && s.premiered == ParseDate(env.text, env.timed, t.premiered)
    && s.dateAdded == ParseDate(env.text, env.timed, t.dateAdded)
    && s.externalLinks == LinksOf(env.text, t.uniqueIDs)
    && |s.extra| == |t.extra|
    && forall i :: 0 <= i < |t.extra| ==>
         s.extra[i].name == t.extra[i].name.local && s.extra[i].inner == t.extra[i].inner &&
         |s.extra[i].attrs| == |t.extra[i].attrs| &&
         forall a :: 0 <= a < |t.extra[i].attrs| ==>
           s.extra[i].attrs[a] == Attr(t.extra[i].attrs[a].name.local, t.extra[i].attrs[a].value)
  }

  /** The people of a record, absent exactly when there are none. */
  predicate CarriesPeople(c: Option<CastCrew>, directors: seq<string>, actors: seq<Actor>, credits: seq<string>) {
    && (c.None? <==> directors == [] && actors == [] && credits == [])
    && (c.Some? ==> c.value.directors == directors && c.value.actors == actors && c.value.credits == credits)
  }

  /** A document with a movie is read as that movie, whatever else it holds. */
  lemma MovieTagsArrive(env: Env, d: Document)
    requires d.movie.Some?
    ensures var m, x := ToMetadata(env, Some(d)), d.movie.value;
      && m.kind == "movie" && CarriesTags(env, m.shared, x.tags)
      && CarriesPeople(m.castCrew, x.directors, x.tags.actors, x.credits)
      && m.originalTitle == x.originalTitle && m.ratings == x.ratings && m.tagList == x.tagList
      && m.movie.Some? && m.movie.value.sortTitle == x.sortTitle && m.movie.value.fanart == x.fanart
      && m.movie.value.movieSet == x.movieSet && m.movie.value.countries == x.countries
      && m.movie.value.showLinks == x.showLinks && m.movie.value.originalLanguage == x.originalLanguage
      && m.status == "" && m.code == "" && m.aired == "" && !m.tvShow && m.episode.None? && m.musicVideo.None?
  {
    hide ParseDate, AtoiOrZero, LinksOf;
  }

  lemma ShowTagsArrive(env: Env, d: Document)
    requires d.movie.None? && d.tvShow.Some?
    ensures var m, x := ToMetadata(env, Some(d)), d.tvShow.value;
      && m.kind == "tvshow" && CarriesTags(env, m.shared, x.tags)
      && CarriesPeople(m.castCrew, [], x.tags.actors, [])
      && m.originalTitle == x.originalTitle && m.ratings == x.ratings && m.tagList == x.tagList
      && m.status == x.status && m.code == x.code && m.aired == x.aired
      && m.tvShow && m.movie.None? && m.episode.None? && m.musicVideo.None?
  {
    hide ParseDate, AtoiOrZero, LinksOf;
  }

  /** Of a file with several episodes, the first. */
  lemma EpisodeTagsArrive(env: Env, d: Document)
    requires d.movie.None? && d.tvShow.None? && d.episodes != []
    ensures var m, x := ToMetadata(env, Some(d)), d.episodes[0];
      && m.kind == "episodedetails" && CarriesTags(env, m.shared, x.tags)
      && CarriesPeople(m.castCrew, x.directors, x.tags.actors, x.credits)
      && m.originalTitle == x.originalTitle && m.ratings == x.ratings && m.tagList == []
      && m.status == x.status && m.code == x.code && m.aired == x.aired
      && m.episode.Some? && m.episode.value.showTitle == x.fields.showTitle
      && m.episode.value.season == x.fields.season && m.episode.value.episode == x.fields.episode
      && m.episode.value.displayEpisode == x.fields.displayEpisode
      && m.episode.value.displaySeason == x.fields.displaySeason && m.episode.value.bookmark == x.fields.bookmark
      && !m.tvShow && m.movie.None? && m.musicVideo.None?
  {
    hide ParseDate, AtoiOrZero, LinksOf;
  }

  lemma MusicVideoTagsArrive(env: Env, d: Document)
    requires d.movie.None? && d.tvShow.None? && d.episodes == [] && d.musicVideo.Some?
    ensures var m, x := ToMetadata(env, Some(d)), d.musicVideo.value;
      && m.kind == "musicvideo" && CarriesTags(env, m.shared, x.tags)
      && CarriesPeople(m.castCrew, x.directors, x.tags.actors, [])
      && m.originalTitle == "" && m.ratings.None? && m.tagList == x.tagList
      && m.status == x.status && m.code == x.code && m.aired == x.aired
      && m.musicVideo.Some? && m.musicVideo.value.track == x.fields.track
      && m.musicVideo.value.album == x.fields.album && m.musicVideo.value.artists == x.fields.artists
      && !m.tvShow && m.movie.None? && m.episode.None?
  {
    hide ParseDate, AtoiOrZero, LinksOf;
  }

  /** Without a body only the kind is known. */
  lemma NothingElseArrives(env: Env, d: Document)
    requires d.movie.None? && d.tvShow.None? && d.episodes == [] && d.musicVideo.None?
    ensures ToMetadata(env, Some(d)) == EmptyRecord("").(kind := d.kind) && ToMetadata(env, None) == EmptyRecord("")
  {
  }

  // ---------------------------------------------------------------------
  // Writing
  // ---------------------------------------------------------------------

  function WriteShared(env: Env, s: Shared, actors: seq<Actor>): Tags {
    Tags(s.title, s.userRating, s.top250, s.outline, s.plot, s.tagline, s.runtime, s.thumbs, s.mpaa,
         ItoaOrEmpty(s.playCount), s.lastPlayed, IdsOf(Genuine(s.externalLinks)), s.id, s.genres,
         ParseDate(env.text, env.timed, s.premiered), ItoaOrEmpty(s.year), s.studios, s.trailer, actors, s.resume,
         ParseDate(env.text, env.timed, s.dateAdded), ExtraWritten(s.extra))
  }

  function WriteMovie(env: Env, m: Metadata): Movie {
    var (directors, actors, credits) := CastCrewParts(m.castCrew);
    var f := if m.movie.Some? then m.movie.value else MovieFields("", None, None, [], [], "");
    Movie(WriteShared(env, m.shared, actors), m.originalTitle, f.sortTitle, m.ratings, f.fanart, m.tagList, f.movieSet,
          f.countries, credits, directors, f.showLinks, f.originalLanguage)
  }

  function WriteTVShow(env: Env, m: Metadata): TVShow {
    var (directors, actors, credits) := CastCrewParts(m.castCrew);
    TVShow(WriteShared(env, m.shared, actors), m.originalTitle, m.ratings, m.tagList, m.status, m.code, m.aired, [])
  }

  function WriteEpisode(env: Env, m: Metadata): Episode {
    var (directors, actors, credits) := CastCrewParts(m.castCrew);
    Episode(WriteShared(env, m.shared, actors), m.originalTitle, m.ratings, credits, directors, m.status, m.code, m.aired,
            if m.episode.Some? then m.episode.value else EpisodeFields("", "", "", "", "", None))
  }

  function WriteMusicVideo(env: Env, m: Metadata): MusicVideo {
    var (directors, actors, credits) := CastCrewParts(m.castCrew);
    MusicVideo(WriteShared(env, m.shared, actors), m.tagList, directors, m.status, m.code, m.aired,
               if m.musicVideo.Some? then m.musicVideo.value else MusicVideoFields("", "", []))
  }

  function FromMetadata(env: Env, m: Metadata): Document {
    if m.kind == KIND_MOVIE then Document(m.kind, Some(WriteMovie(env, m)), None, [], None)
    else if m.kind == KIND_TV_SHOW then Document(m.kind, None, Some(WriteTVShow(env, m)), [], None)
    else if m.kind == KIND_EPISODE then Document(m.kind, None, None, [WriteEpisode(env, m)], None)
    else if m.kind == KIND_MUSIC_VIDEO then Document(m.kind, None, None, [], Some(WriteMusicVideo(env, m)))
    else Document(m.kind, None, None, [], None)
  }

  // ---------------------------------------------------------------------
  // The fixed point
  // ---------------------------------------------------------------------

  /** A record as its rewritten file reads: the derived links gone, all else kept. */
  function WithoutDerivedLinks(m: Metadata): Metadata {
    m.(shared := m.shared.(externalLinks := Genuine(m.shared.externalLinks)))
  }

  function Rewritten(env: Env, m: Metadata): Metadata {
    ToMetadata(env, Some(FromMetadata(env, m)))
  }

  /** Values that print and parse as themselves. */
  ghost predicate Settled(env: Env, s: Shared) {
    && IsInt32(s.playCount) && IsInt32(s.year)
    && ParseDate(env.text, env.timed, s.premiered) == s.premiered
    && ParseDate(env.text, env.timed, s.dateAdded) == s.dateAdded
    && Canonical(env.text, s.externalLinks)
  }

  lemma ReadingSettles(env: Env, t: Tags)
    requires Sane(env.text)
    ensures Settled(env, ReadShared(env, t))
  {
    hide ParseDate, AtoiOrZero, Sane, Canonical;
    DatesAreStable(env.text, env.timed, t.premiered);
    DatesAreStable(env.text, env.timed, t.dateAdded);
    LinksAreCanonical(env.text, t.uniqueIDs);
  }

  lemma SharedReadsBack(env: Env, s: Shared, actors: seq<Actor>)
    requires Sane(env.text) && Settled(env, s)
    ensures ReadShared(env, WriteShared(env, s, actors)) == s.(externalLinks := Genuine(s.externalLinks))
  {
    hide ParseDate, AtoiOrZero, ItoaOrEmpty, Sane, Canonical, Genuine, IdsOf, ExtraRead, ExtraWritten;
    IntegersReadBack(s.playCount);
    IntegersReadBack(s.year);
    GenuineIsCanonical(env.text, s.externalLinks);
    CanonicalLinksReadBack(env.text, Genuine(s.externalLinks));
    ExtraReadsBack(s.extra);
  }

  predicate Bodied(d: Document) {
    d.movie.Some? || d.tvShow.Some? || d.episodes != [] || d.musicVideo.Some?
  }

  predicate KnownKind(kind: string) {
    kind == KIND_MOVIE || kind == KIND_TV_SHOW || kind == KIND_EPISODE || kind == KIND_MUSIC_VIDEO
  }

  /** For every document: reading, writing and reading again gives the same record
      but for derived links, unless the document claims a kind it has no body for. */
  lemma ReadWriteRead(env: Env, d: Document)
    requires Sane(env.text)
    ensures var m := ToMetadata(env, Some(d));
            Rewritten(env, m) == WithoutDerivedLinks(m) <==> Bodied(d) || !KnownKind(d.kind)
  {
    hide ReadShared, WriteShared, Settled, Sane, CastCrewOf;
    if d.movie.Some? {
      BodyReadsBack(env, d.movie.value.tags, d.movie.value.directors, d.movie.value.credits);
    } else if d.tvShow.Some? {
      BodyReadsBack(env, d.tvShow.value.tags, [], []);
    } else if d.episodes != [] {
      BodyReadsBack(env, d.episodes[0].tags, d.episodes[0].directors, d.episodes[0].credits);
    } else if d.musicVideo.Some? {
      BodyReadsBack(env, d.musicVideo.value.tags, d.musicVideo.value.directors, []);
    } else {
      assert Genuine([]) == [];
    }
  }

  lemma BodyReadsBack(env: Env, t: Tags, directors: seq<string>, credits: seq<string>)
    requires Sane(env.text)
    ensures var s := ReadShared(env, t);
            && ReadShared(env, WriteShared(env, s, t.actors)) == s.(externalLinks := Genuine(s.externalLinks))
            && WriteShared(env, s, t.actors).actors == t.actors
    ensures CastCrewParts(CastCrewOf(directors, t.actors, credits)) == (directors, t.actors, credits)
  {
    hide ReadShared, Sane, Settled;
    ReadingSettles(env, t);
    SharedReadsBack(env, ReadShared(env, t), t.actors);
  }

  /** A record read from a file with a body is the same after one rewrite and after
      two: the second changes nothing. */
  lemma OneRewriteIsEnough(env: Env, d: Document)
    requires Sane(env.text) && Bodied(d)
    ensures var m := ToMetadata(env, Some(d));
            Rewritten(env, Rewritten(env, m)) == Rewritten(env, m)
  {
    hide ReadShared, WriteShared, Sane;
    var m := ToMetadata(env, Some(d));
    ReadWriteRead(env, d);
    var next := FromMetadata(env, m);
    ReadWriteRead(env, next);
    GenuineTwice(m.shared.externalLinks);
  }

  lemma {:induction false} GenuineTwice(links: seq<Link>)
    ensures Genuine(Genuine(links)) == Genuine(links)
    decreases |links|
  {
    hide Kept;
    if links != [] {
      var init, last := links[..|links| - 1], links[|links| - 1];
      GenuineTwice(init);
      if Kept(last) {
        assert Genuine(links)[..|Genuine(links)| - 1] == Genuine(init);
      } else {
        assert Genuine(links) == Genuine(init);
      }
    }
  }
}

/** TvShowService: the catalogue listing with its genre filter and sort
    switch, title search, a show's episodes and featured cast, and the
    show-details lookup with its cache rule. The cache is a map from show id
    to the details last stored for it; a lookup returns the map as it is
    afterwards. */
module TvShows {
  import opened Wrappers
  import opened Sequences
  import opened Ordering
  import opened Paging
  import opened Text
  import opened Entities
  import opened Favorites

  // ---------------------------------------------------------------- sorting

  datatype SortColumn = Title | Rating | ReleaseDate | Popularity
  datatype SortOrder = SortOrder(column: SortColumn, descending: bool)

  /** The lower-case name the sort switch matches for each column. */
  function ColumnName(c: SortColumn): string {
    match c
    case Title => "title"
    case Rating => "rating"
    case ReleaseDate => "releasedate"
    case Popularity => "popularity"
  }

  /** The switch on sortBy.ToLower(): a column name in any letter case picks
      that column in the requested direction; anything else sorts by
      popularity, descending, whatever direction was requested. */
  function ShowSort(sortBy: string, descending: bool): (r: SortOrder)
    ensures forall c :: Lower(sortBy) == ColumnName(c) ==> r == SortOrder(c, descending)
    ensures (forall c :: Lower(sortBy) != ColumnName(c)) ==> r == SortOrder(Popularity, true)
  {
    var name := Lower(sortBy);
    if name == "title" then assert name == ColumnName(Title); SortOrder(Title, descending)
    else if name == "rating" then assert name == ColumnName(Rating); SortOrder(Rating, descending)
    else if name == "releasedate" then assert name == ColumnName(ReleaseDate); SortOrder(ReleaseDate, descending)
    else if name == "popularity" then assert name == ColumnName(Popularity); SortOrder(Popularity, descending)
    else SortOrder(Popularity, true)
  }

  function TitleKey(s: Show): Key { CodePoints(s.title) }

  /** PostgreSQL orders NULL above every value: an undated show comes last
      ascending and first descending. */
  function ReleaseDateKey(s: Show): Key {
    match s.releaseDate
    case None => [1.0]
    case Some(d) => [0.0, d as real]
  }

  function SortKey(c: SortColumn): Show -> Key {
    match c
    case Title => TitleKey
    case Rating => RatingKey
    case ReleaseDate => ReleaseDateKey
    case Popularity => PopularityKey
  }

  /** In a release-date order undated shows are grouped at the NULL end, and
      dated shows follow their dates. */
  lemma UndatedShowsAtTheNullEnd(s: seq<Show>, descending: bool, i: int, j: int)
    requires Ordered(s, ReleaseDateKey, descending) && 0 <= i < j < |s|
    ensures !descending && s[i].releaseDate.None? ==> s[j].releaseDate.None?
    ensures descending && s[j].releaseDate.None? ==> s[i].releaseDate.None?
    ensures s[i].releaseDate.Some? && s[j].releaseDate.Some? ==>
              if descending then s[j].releaseDate.value <= s[i].releaseDate.value
              else s[i].releaseDate.value <= s[j].releaseDate.value
  {
    assert Before(ReleaseDateKey(s[i]), ReleaseDateKey(s[j]), descending);
    if s[i].releaseDate.Some? && s[j].releaseDate.Some? {
      var a, b := s[i].releaseDate.value, s[j].releaseDate.value;
      TwoColumns(0.0, a as real, 0.0, b as real);
      TwoColumns(0.0, b as real, 0.0, a as real);
    }
  }

  // -------------------------------------------------------------- listing

  predicate HasGenre(s: Show, genreId: Id) {
    genreId in s.genreIds
  }

  /** The shows the listing draws from: all of them, or those linked to the
      requested genre. */
  function Catalogue(shows: seq<Show>, genreId: Option<Id>): (r: seq<Show>)
    ensures forall s :: s in r <==> s in shows && (genreId.Some? ==> HasGenre(s, genreId.value))
  {
    match genreId
    case None => shows
    case Some(g) => Where(shows, (s: Show) => HasGenre(s, g))
  }

  /** The ids of the user's favourite shows; empty for an anonymous caller. */
  function FavoriteSet(favorites: seq<Favorite>, userId: Option<Id>): (r: set<Id>)
    ensures forall id :: id in r <==> userId.Some? && IsFavorite(favorites, userId.value, id)
  {
    match userId
    case None => {}
    case Some(u) => set f | f in favorites && f.userId == u :: f.showId
  }

  /** The list DTOs of a page, each flagged by whether the caller marked it
      as a favourite. */
  function Listing(page: seq<Show>, favorites: seq<Favorite>, userId: Option<Id>): (r: seq<ShowListItem>)
    ensures |r| == |page|
    ensures forall i :: 0 <= i < |page| ==>
              r[i] == ListItem(page[i], userId.Some? && IsFavorite(favorites, userId.value, page[i].id))
  {
    var favs := FavoriteSet(favorites, userId);
    Select(page, (s: Show) => ListItem(s, s.id in favs))
  }

  /** Count the query, take one page of it and map it to list DTOs. */
  function ListPage(sorted: seq<Show>, favorites: seq<Favorite>, userId: Option<Id>, pageNumber: int, pageSize: int)
    : Result<Paginated<ShowListItem>, QueryError>
    requires pageSize != 0
  {
    match Page(sorted, pageNumber, pageSize)
    case Err(e) => Err(e)
    case Ok(page) => Ok(Create(Listing(page, favorites, userId), |sorted|, pageNumber, pageSize))
  }

  /** A show whose only genre link points at a soft-deleted genre is still
      listed under that genre (the filter reads the link's GenreId), while
      its list item names no genre (the names come through the filtered
      Genre navigation). */
  lemma DeletedGenreStillFilters(s: Show, favorites: seq<Favorite>, userId: Option<Id>)
    requires s.genreIds == [7] && s.genres == []
    ensures Catalogue([s], Some(7)) == [s]
    ensures Listing([s], favorites, userId)[0].genres == []
  {
    assert HasGenre(s, 7);
    assert [s][1..] == [];
  }

  function SortedCatalogue(shows: seq<Show>, genreId: Option<Id>, order: SortOrder): (r: seq<Show>)
    ensures multiset(r) == multiset(Catalogue(shows, genreId))
  {
    SortBy(Catalogue(shows, genreId), SortKey(order.column), order.descending)
  }

  /** GetTvShowsAsync: the count of the filtered catalogue and one page of it
      in the chosen order. */
  function GetTvShows(shows: seq<Show>, favorites: seq<Favorite>, pageNumber: int, pageSize: int,
                      genreId: Option<Id>, sortBy: string, sortDescending: bool, userId: Option<Id>)
    : (r: Result<Paginated<ShowListItem>, QueryError>)
    requires pageSize != 0
    ensures r.Ok? <==> PageOffset(pageNumber, pageSize) >= 0 && pageSize > 0
    ensures r.Ok? ==> r.value.totalCount == |Catalogue(shows, genreId)|
    ensures r.Ok? ==> r.value.pageNumber == pageNumber && r.value.pageSize == pageSize
    ensures r.Ok? ==> r.value.items == Listing(
              Page(SortedCatalogue(shows, genreId, ShowSort(sortBy, sortDescending)), pageNumber, pageSize).value,
              favorites, userId)
  {
    var sorted := SortedCatalogue(shows, genreId, ShowSort(sortBy, sortDescending));
    assert |sorted| == |Catalogue(shows, genreId)| by {
      assert |multiset(sorted)| == |multiset(Catalogue(shows, genreId))|;
    }
    ListPage(sorted, favorites, userId, pageNumber, pageSize)
  }

  /** The page listed holds at most pageSize shows of the filtered catalogue,
      in the chosen order. */
  lemma {:induction false} CataloguePage(shows: seq<Show>, genreId: Option<Id>, order: SortOrder, pageNumber: int, pageSize: int)
    requires Page(SortedCatalogue(shows, genreId, order), pageNumber, pageSize).Ok?
    ensures var page := Page(SortedCatalogue(shows, genreId, order), pageNumber, pageSize).value;
            |page| <= pageSize
            && Ordered(page, SortKey(order.column), order.descending)
            && forall s :: s in page ==> s in shows && (genreId.Some? ==> HasGenre(s, genreId.value))
  {
    SortedPage(Catalogue(shows, genreId), SortKey(order.column), order.descending, pageNumber, pageSize);
  }

  // --------------------------------------------------------------- search

  /** The search predicate: the lower-cased title contains the lower-cased
      query. */
  predicate TitleMatches(s: Show, query: string) {
    Contains(Lower(s.title), Lower(query))
  }

  function SearchResults(shows: seq<Show>, query: string): (r: seq<Show>)
    ensures forall s :: s in r <==> s in shows && TitleMatches(s, query)
  {
    Where(shows, (s: Show) => TitleMatches(s, query))
  }

  /** The matching shows, most popular first. */
  function RankedResults(shows: seq<Show>, query: string): (r: seq<Show>)
    ensures multiset(r) == multiset(SearchResults(shows, query))
  {
    SortBy(SearchResults(shows, query), PopularityKey, true)
  }

  /** SearchTvShowsAsync: the count of the matching shows and one page of
      them, most popular first. */
  function SearchTvShows(shows: seq<Show>, favorites: seq<Favorite>, query: string, pageNumber: int, pageSize: int, userId: Option<Id>)
    : (r: Result<Paginated<ShowListItem>, QueryError>)
    requires pageSize != 0
    ensures r.Ok? <==> PageOffset(pageNumber, pageSize) >= 0 && pageSize > 0
    ensures r.Ok? ==> r.value.totalCount == |SearchResults(shows, query)|
    ensures r.Ok? ==> r.value.items == Listing(Page(RankedResults(shows, query), pageNumber, pageSize).value, favorites, userId)
  {
    var ranked := RankedResults(shows, query);
    assert |ranked| == |SearchResults(shows, query)| by {
      assert |multiset(ranked)| == |multiset(SearchResults(shows, query))|;
    }
    ListPage(ranked, favorites, userId, pageNumber, pageSize)
  }

  /** A title in which the query occurs, written in any letter case, is
      found. */
  lemma SearchIgnoresCase(s: Show, query: string, written: string, i: int)
    requires OccursAt(s.title, written, i) && Lower(written) == Lower(query)
    ensures TitleMatches(s, query)
  {
    LowerKeepsOccurrence(s.title, written, i);
    ContainsIffOccurs(Lower(s.title), Lower(query));
  }

  /** Every show on a search page matches and is listed by descending
      popularity. */
  lemma {:induction false} SearchPageIsRanked(shows: seq<Show>, query: string, pageNumber: int, pageSize: int)
    requires Page(RankedResults(shows, query), pageNumber, pageSize).Ok?
    ensures var page := Page(RankedResults(shows, query), pageNumber, pageSize).value;
            |page| <= pageSize
            && (forall i, j :: 0 <= i < j < |page| ==> page[j].popularity <= page[i].popularity)
            && forall s :: s in page ==> s in shows && TitleMatches(s, query)
  {
    var page := Page(RankedResults(shows, query), pageNumber, pageSize).value;
    SortedPage(SearchResults(shows, query), PopularityKey, true, pageNumber, pageSize);
    forall i, j | 0 <= i < j < |page| ensures page[j].popularity <= page[i].popularity {
      OneColumn(page[j].popularity, page[i].popularity);
    }
  }

  // ------------------------------------------------------------- episodes

  /** The key of OrderBy(SeasonNumber).ThenBy(EpisodeNumber). */
  function EpisodeKey(e: Episode): Key { [e.season as real, e.number as real] }

  predicate InSelection(e: Episode, showId: Id, season: Option<int>) {
    e.showId == showId && (season.Some? ==> e.season == season.value)
  }

  /** The Where filters of GetEpisodesAsync: the show's episodes, of one
      season when one is given, in table order. */
  function Selected(episodes: seq<Episode>, showId: Id, season: Option<int>): (r: seq<Episode>)
    ensures forall e :: e in r <==> e in episodes && InSelection(e, showId, season)
    ensures multiset(r) <= multiset(episodes)
  {
    var ofShow := Where(episodes, (e: Episode) => e.showId == showId);
    match season
    case None => ofShow
    case Some(n) => Where(ofShow, (e: Episode) => e.season == n)
  }

  /** GetEpisodesAsync: the show's episodes, of one season when one is
      given, in season then episode order. */
  function GetEpisodes(episodes: seq<Episode>, showId: Id, season: Option<int>): (r: seq<Episode>)
    ensures forall e :: e in r <==> e in episodes && InSelection(e, showId, season)
    ensures multiset(r) <= multiset(episodes)
  {
    var chosen := Selected(episodes, showId, season);
    var r := SortBy(chosen, EpisodeKey, false);
    assert multiset(r) == multiset(chosen);
    assert forall e :: e in r <==> e in chosen by {
      forall e ensures e in r <==> e in chosen {
        assert e in r <==> e in multiset(r);
        assert e in chosen <==> e in multiset(chosen);
      }
    }
    r
  }

  /** Episodes come by season, and by episode number within a season. */
  lemma {:induction false} EpisodesInOrder(episodes: seq<Episode>, showId: Id, season: Option<int>)
    ensures var r := GetEpisodes(episodes, showId, season);
            forall i, j :: 0 <= i < j < |r| ==>
              r[i].season < r[j].season || (r[i].season == r[j].season && r[i].number <= r[j].number)
  {
    var chosen := Selected(episodes, showId, season);
    var r := GetEpisodes(episodes, showId, season);
    assert r == SortBy(chosen, EpisodeKey, false);
    SortByOrdered(chosen, EpisodeKey, false);
    forall i, j | 0 <= i < j < |r|
      ensures r[i].season < r[j].season || (r[i].season == r[j].season && r[i].number <= r[j].number)
    {
      TwoColumns(r[i].season as real, r[i].number as real, r[j].season as real, r[j].number as real);
    }
  }

  // ----------------------------------------------------------------- cast

  /** A TvShowActor link with its Actor loaded. */
  datatype CastEntry = CastEntry(link: CastLink, actor: Actor)

  /** An ActorDto as the cast list returns it: the actor and the character
      played in this show. */
  datatype CastMember = CastMember(actor: Actor, characterName: Option<string>)

  const FeaturedCount := 20

  /** The show's TvShowActor links, in table order. TvShowActor has no query
      filter, so links to hidden actors are among them. */
  function ShowLinks(links: seq<CastLink>, showId: Id): (r: seq<CastLink>)
    ensures forall l :: l in r <==> l in links && l.showId == showId
    ensures multiset(r) <= multiset(links)
  {
    Where(links, (l: CastLink) => l.showId == showId)
  }

  /** OrderBy(Order): PostgreSQL puts links without an order last. */
  function BillingKey(l: CastLink): Key {
    match l.order
    case None => [1.0]
    case Some(o) => [0.0, o as real]
  }

  /** The show's links in billing order, hidden actors' links included. */
  function Billed(links: seq<CastLink>, showId: Id): (r: seq<CastLink>)
    ensures multiset(r) == multiset(ShowLinks(links, showId))
    ensures |r| == |ShowLinks(links, showId)|
    ensures Ordered(r, BillingKey, false)
  {
    var r := SortBy(ShowLinks(links, showId), BillingKey, false);
    assert |multiset(r)| == |multiset(ShowLinks(links, showId))|;
    SortByOrdered(ShowLinks(links, showId), BillingKey, false);
    r
  }

  /** Include(Actor) applied after Take: the required Actor navigation is an
      inner join to the soft-delete-filtered Actors, so a link whose actor is
      hidden yields nothing. The entries come in the links' order. */
  function JoinActors(links: seq<CastLink>, actors: seq<Actor>): (r: seq<CastEntry>)
    ensures Select(r, (e: CastEntry) => e.link) == Where(links, (l: CastLink) => ActorExists(actors, l.actorId))
    ensures forall e :: e in r ==> e.actor in actors && e.actor.id == e.link.actorId
  {
    if links == [] then []
    else
      var rest := JoinActors(links[1..], actors);
      match FindActor(actors, links[0].actorId)
      case Some(a) => [CastEntry(links[0], a)] + rest
      case None => rest
  }

  function Member(e: CastEntry): CastMember {
    CastMember(e.actor, e.link.characterName)
  }

  /** The twenty links GetTvShowActorsAsync reads: the first of the show's
      links in billing order. */
  function Featured(links: seq<CastLink>, showId: Id): (r: seq<CastLink>)
    ensures |r| == Min(FeaturedCount, |ShowLinks(links, showId)|)
    ensures r == Billed(links, showId)[..|r|]
  {
    Take(Billed(links, showId), FeaturedCount)
  }

  /** When every link of the show has a visible actor, the join keeps all
      twenty links read. */
  lemma AllVisibleKeepsFeatured(links: seq<CastLink>, actors: seq<Actor>, showId: Id)
    ensures (forall l :: l in links && l.showId == showId ==> ActorExists(actors, l.actorId)) ==>
              |Where(Featured(links, showId), (l: CastLink) => ActorExists(actors, l.actorId))| == |Featured(links, showId)|
  {
    var featured := Featured(links, showId);
    if forall l :: l in links && l.showId == showId ==> ActorExists(actors, l.actorId) {
      forall i | 0 <= i < |featured| ensures ActorExists(actors, featured[i].actorId) {
        assert featured[i] in multiset(Billed(links, showId));
      }
      WhereKeepsLength(featured, (l: CastLink) => ActorExists(actors, l.actorId));
    }
  }

  /** GetTvShowActorsAsync: the first twenty of the show's links in billing
      order, then joined with their visible actors. A hidden actor among the
      twenty leaves a gap; links beyond the twentieth never fill it. */
  function GetTvShowActors(links: seq<CastLink>, actors: seq<Actor>, showId: Id): (r: seq<CastMember>)
    ensures |r| <= FeaturedCount
    ensures (forall l :: l in links && l.showId == showId ==> ActorExists(actors, l.actorId)) ==>
              |r| == Min(FeaturedCount, |ShowLinks(links, showId)|)
    ensures |r| == |JoinActors(Featured(links, showId), actors)|
    ensures forall i :: 0 <= i < |r| ==> r[i] == Member(JoinActors(Featured(links, showId), actors)[i])
  {
    var featured := Featured(links, showId);
    var joined := JoinActors(featured, actors);
    assert |joined| == |Where(featured, (l: CastLink) => ActorExists(actors, l.actorId))| by {
      assert |Select(joined, (e: CastEntry) => e.link)| == |joined|;
    }
    AllVisibleKeepsFeatured(links, actors, showId);
    Select(joined, Member)
  }

  /** The cast list is full, with min(20, links) members, exactly when every
      one of the twenty links it reads has a visible actor. */
  lemma FeaturedCastIsFull(links: seq<CastLink>, actors: seq<Actor>, showId: Id)
    ensures var featured := Featured(links, showId);
            (|GetTvShowActors(links, actors, showId)| == |featured|
             <==> forall i :: 0 <= i < |featured| ==> ActorExists(actors, featured[i].actorId))
  {
    var featured := Featured(links, showId);
    var joined := JoinActors(featured, actors);
    assert |Select(joined, (e: CastEntry) => e.link)| == |joined|;
    WhereKeepsLength(featured, (l: CastLink) => ActorExists(actors, l.actorId));
  }

  /** Links in billing order list ordered links by ascending order and the
      links without one after all the others. */
  lemma BillingOrder(billed: seq<CastLink>)
    requires Ordered(billed, BillingKey, false)
    ensures forall i, j :: 0 <= i < j < |billed| && billed[i].order.Some? && billed[j].order.Some?
              ==> billed[i].order.value <= billed[j].order.value
    ensures forall i, j :: 0 <= i < j < |billed| && billed[i].order.None? ==> billed[j].order.None?
  {
    forall i, j | 0 <= i < j < |billed| && billed[i].order.Some? && billed[j].order.Some?
      ensures billed[i].order.value <= billed[j].order.value
    {
      var a, b := billed[i].order.value, billed[j].order.value;
      assert KeyLe(BillingKey(billed[i]), BillingKey(billed[j]));
      TwoColumns(0.0, a as real, 0.0, b as real);
    }
    forall i, j | 0 <= i < j < |billed| && billed[i].order.None? ensures billed[j].order.None? {
      assert KeyLe(BillingKey(billed[i]), BillingKey(billed[j]));
    }
  }

  /** The twenty links read are in billing order and leave out no link
      billed ahead of them: a link without a billing order is read only
      when every ordered link of the show is. */
  lemma FeaturedCastComesFirst(links: seq<CastLink>, showId: Id)
    ensures var billed := Billed(links, showId);
            var n := Min(FeaturedCount, |billed|);
            (forall i, j :: 0 <= i < j < n && billed[i].order.Some? && billed[j].order.Some?
               ==> billed[i].order.value <= billed[j].order.value)
            && forall i, j :: 0 <= i < n <= j < |billed| && billed[i].order.None? ==> billed[j].order.None?
  {
    BillingOrder(Billed(links, showId));
  }

  /** Everyone in the cast list plays in the show, as the character named. */
  lemma {:induction false} CastPlaysInShow(links: seq<CastLink>, actors: seq<Actor>, showId: Id)
    ensures var r := GetTvShowActors(links, actors, showId);
            forall i :: 0 <= i < |r| ==>
              r[i].actor in actors
              && exists l :: l in links && l.showId == showId && l.actorId == r[i].actor.id
                             && l.characterName == r[i].characterName
  {
    var r := GetTvShowActors(links, actors, showId);
    var featured := Featured(links, showId);
    var joined := JoinActors(featured, actors);
    var kept := Where(featured, (l: CastLink) => ActorExists(actors, l.actorId));
    forall i | 0 <= i < |r|
      ensures r[i].actor in actors
              && exists l :: l in links && l.showId == showId && l.actorId == r[i].actor.id
                             && l.characterName == r[i].characterName
    {
      var e := joined[i];
      assert e in joined;
      assert Select(joined, (e: CastEntry) => e.link)[i] == e.link;
      assert e.link in kept;
      assert e.link in multiset(Billed(links, showId));
      assert e.link in ShowLinks(links, showId);
    }
  }

  // -------------------------------------------------------------- details

  /** TvShowDto: the show's own columns, its genre names and the caller's
      favourite flag. */
  datatype ShowDetail = ShowDetail(
    id: Id,
    title: string,
    releaseDate: Option<Instant>,
    showType: string,
    rating: real,
    popularity: real,
    genres: seq<string>,
    isFavorite: bool)

  function Detail(s: Show, isFavorite: bool): ShowDetail {
    ShowDetail(s.id, s.title, s.releaseDate, TypeName(s.showType), s.rating, s.popularity, GenreNames(s.genres), isFavorite)
  }

  type ShowCache = map<Id, ShowDetail>

  /** GetTvShowByIdAsync. An anonymous caller is answered from the cache when
      the show's details are there, and otherwise from the database, storing
      what was read. A signed-in caller always reads the database, to get
      their own favourite flag, and never touches the cache. */
  function GetTvShowById(cache: ShowCache, shows: seq<Show>, favorites: seq<Favorite>, id: Id, userId: Option<Id>)
    : (r: (Option<ShowDetail>, ShowCache))
    ensures userId.None? && id in cache ==> r == (Some(cache[id]), cache)
    ensures userId.Some? || id !in cache ==>
              (r.0.Some? <==> ShowExists(shows, id))
              && (r.0.Some? ==> r.0.value.id == id
                                && r.0.value.isFavorite == (userId.Some? && IsFavorite(favorites, userId.value, id)))
    ensures userId.Some? ==> r.1 == cache
    ensures userId.None? && id !in cache ==> r.1 == if r.0.Some? then cache[id := r.0.value] else cache
  {
    if userId.None? && id in cache then (Some(cache[id]), cache)
    else
      match FindShow(shows, id)
      case None => (None, cache)
      case Some(s) =>
        var dto := Detail(s, userId.Some? && IsFavorite(favorites, userId.value, id));
        if userId.None? then (Some(dto), cache[id := dto]) else (Some(dto), cache)
  }

  /** The cache holds only anonymous details, each under its own show id. */
  ghost predicate AnonymousCache(cache: ShowCache) {
    forall id :: id in cache ==> cache[id].id == id && !cache[id].isFavorite
  }

  /** No caller's favourite flag ever reaches the cache. */
  lemma LookupKeepsCacheAnonymous(cache: ShowCache, shows: seq<Show>, favorites: seq<Favorite>, id: Id, userId: Option<Id>)
    requires AnonymousCache(cache)
    ensures AnonymousCache(GetTvShowById(cache, shows, favorites, id, userId).1)
  {
  }

  /** Once an anonymous lookup has found a show, later anonymous lookups get
      the same details, whatever has changed in the database since. */
  lemma {:induction false} AnonymousLookupIsCached(cache: ShowCache, shows: seq<Show>, favorites: seq<Favorite>,
                                                   shows': seq<Show>, favorites': seq<Favorite>, id: Id)
    requires GetTvShowById(cache, shows, favorites, id, None).0.Some?
    ensures var (dto, cache') := GetTvShowById(cache, shows, favorites, id, None);
            GetTvShowById(cache', shows', favorites', id, None) == (dto, cache')
  {
    var (dto, cache') := GetTvShowById(cache, shows, favorites, id, None);
    assert id in cache' && cache'[id] == dto.value;
  }

  /** A signed-in caller's answer does not depend on the cache. */
  lemma SignedInLookupIgnoresCache(cache1: ShowCache, cache2: ShowCache, shows: seq<Show>, favorites: seq<Favorite>, id: Id, userId: Id)
    ensures GetTvShowById(cache1, shows, favorites, id, Some(userId)).0
         == GetTvShowById(cache2, shows, favorites, id, Some(userId)).0
  {
  }
}

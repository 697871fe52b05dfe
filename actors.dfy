/** ActorService: the actor listing with its name search and sort switch,
    an actor's details with the shows they appeared in, and the credits
    query. The cache is a map from actor id to the details last stored for
    it; a lookup returns the map as it is afterwards. */
module Actors {
  import opened Wrappers
  import opened Sequences
  import opened Ordering
  import opened Paging
  import opened Text
  import opened Entities

  // ---------------------------------------------------------------- sorting

  datatype ActorColumn = Name | Popularity | DateOfBirth
  datatype ActorOrder = ActorOrder(column: ActorColumn, descending: bool)

  /** The lower-case name the sort switch matches for each column. */
  function ColumnName(c: ActorColumn): string {
    match c
    case Name => "name"
    case Popularity => "popularity"
    case DateOfBirth => "dateofbirth"
  }

  /** The switch on sortBy.ToLower(): a column name in any letter case picks
      that column in the requested direction; anything else sorts by
      popularity, descending, whatever direction was requested. */
  function ActorSort(sortBy: string, descending: bool): (r: ActorOrder)
    ensures forall c :: Lower(sortBy) == ColumnName(c) ==> r == ActorOrder(c, descending)
    ensures (forall c :: Lower(sortBy) != ColumnName(c)) ==> r == ActorOrder(Popularity, true)
  {
    var name := Lower(sortBy);
    if name == "name" then assert name == ColumnName(Name); ActorOrder(Name, descending)
    else if name == "popularity" then assert name == ColumnName(Popularity); ActorOrder(Popularity, descending)
    else if name == "dateofbirth" then assert name == ColumnName(DateOfBirth); ActorOrder(DateOfBirth, descending)
    else ActorOrder(Popularity, true)
  }

  /** DateTime.MinValue and DateTime.MaxValue, to the second. */
  const MinInstant: Instant := -62135596800
  const MaxInstant: Instant := 253402300799

  predicate InDateRange(d: Instant) { MinInstant <= d <= MaxInstant }

  function NameKey(a: Actor): Key { CodePoints(a.name) }

  /** Popularity ?? 0: an actor without a popularity ranks as zero. */
  function PopularityOrZero(a: Actor): Key { [a.popularity.GetOr(0.0)] }

  /** DateOfBirth ?? DateTime.MinValue, the descending key. */
  function BirthOrMin(a: Actor): Key { [a.dateOfBirth.GetOr(MinInstant) as real] }

  /** DateOfBirth ?? DateTime.MaxValue, the ascending key. */
  function BirthOrMax(a: Actor): Key { [a.dateOfBirth.GetOr(MaxInstant) as real] }

  function SortKey(order: ActorOrder): Actor -> Key {
    match order.column
    case Name => NameKey
    case Popularity => PopularityOrZero
    case DateOfBirth => if order.descending then BirthOrMin else BirthOrMax
  }

  /** Undated actors come after every dated one in both directions: an
      undated actor can be followed only by undated actors or by one born
      exactly on the sentinel date of that direction. */
  lemma UndatedActorsLast(s: seq<Actor>, descending: bool, i: int, j: int)
    requires Ordered(s, SortKey(ActorOrder(DateOfBirth, descending)), descending)
    requires 0 <= i < j < |s| && s[i].dateOfBirth.None? && s[j].dateOfBirth.Some?
    requires InDateRange(s[j].dateOfBirth.value)
    ensures s[j].dateOfBirth.value == if descending then MinInstant else MaxInstant
  {
    var d := s[j].dateOfBirth.value;
    if descending {
      assert Before(BirthOrMin(s[i]), BirthOrMin(s[j]), true);
      OneColumn(d as real, MinInstant as real);
    } else {
      assert Before(BirthOrMax(s[i]), BirthOrMax(s[j]), false);
      OneColumn(MaxInstant as real, d as real);
    }
  }

  // -------------------------------------------------------------- listing

  /** ActorListDto. */
  datatype ActorListItem = ActorListItem(
    id: Id,
    name: string,
    popularity: Option<real>,
    dateOfBirth: Option<Instant>,
    tvShowCount: nat)

  /** The search predicate: the lower-cased name contains the lower-cased
      search text. */
  predicate NameMatches(a: Actor, search: string) {
    Contains(Lower(a.name), Lower(search))
  }

  /** The actors the listing draws from: all of them when the search text is
      missing or blank, and otherwise those whose name matches it. */
  function Searched(actors: seq<Actor>, search: Option<string>): (r: seq<Actor>)
    ensures forall a :: a in r <==> a in actors && (!IsNullOrWhiteSpace(search) ==> NameMatches(a, search.value))
  {
    if IsNullOrWhiteSpace(search) then actors
    else Where(actors, (a: Actor) => NameMatches(a, search.value))
  }

  /** a.TvShows.Count: the actor's links, whatever shows they point at. */
  function ShowCount(links: seq<CastLink>, actorId: Id): (r: nat)
    ensures r <= |links|
  {
    |Where(links, (l: CastLink) => l.actorId == actorId)|
  }

  function ActorItem(a: Actor, links: seq<CastLink>): ActorListItem {
    ActorListItem(a.id, a.name, a.popularity, a.dateOfBirth, ShowCount(links, a.id))
  }

  function SortedActors(actors: seq<Actor>, search: Option<string>, order: ActorOrder): (r: seq<Actor>)
    ensures multiset(r) == multiset(Searched(actors, search))
  {
    SortBy(Searched(actors, search), SortKey(order), order.descending)
  }

  /** GetAllActorsAsync: the count of the searched actors and one page of
      them in the chosen order, each with its number of shows. */
  function GetAllActors(actors: seq<Actor>, links: seq<CastLink>, pageNumber: int, pageSize: int,
                        search: Option<string>, sortBy: string, sortDescending: bool)
    : (r: Result<Paginated<ActorListItem>, QueryError>)
    requires pageSize != 0
    ensures r.Ok? <==> PageOffset(pageNumber, pageSize) >= 0 && pageSize > 0
    ensures r.Ok? ==> r.value.totalCount == |Searched(actors, search)|
    ensures r.Ok? ==> r.value.pageNumber == pageNumber && r.value.pageSize == pageSize
    ensures r.Ok? ==>
              var page := Page(SortedActors(actors, search, ActorSort(sortBy, sortDescending)), pageNumber, pageSize).value;
              |r.value.items| == |page|
              && forall i :: 0 <= i < |page| ==> r.value.items[i] == ActorItem(page[i], links)
  {
    var sorted := SortedActors(actors, search, ActorSort(sortBy, sortDescending));
    assert |sorted| == |Searched(actors, search)| by {
      assert |multiset(sorted)| == |multiset(Searched(actors, search))|;
    }
    match Page(sorted, pageNumber, pageSize)
    case Err(e) => Err(e)
    case Ok(page) =>
      Ok(Create(Select(page, (a: Actor) => ActorItem(a, links)), |sorted|, pageNumber, pageSize))
  }

  /** The page listed holds at most pageSize of the searched actors, in the
      chosen order. */
  lemma {:induction false} ActorPage(actors: seq<Actor>, search: Option<string>, order: ActorOrder, pageNumber: int, pageSize: int)
    requires Page(SortedActors(actors, search, order), pageNumber, pageSize).Ok?
    ensures var page := Page(SortedActors(actors, search, order), pageNumber, pageSize).value;
            |page| <= pageSize
            && Ordered(page, SortKey(order), order.descending)
            && forall a :: a in page ==> a in actors && (!IsNullOrWhiteSpace(search) ==> NameMatches(a, search.value))
  {
    SortedPage(Searched(actors, search), SortKey(order), order.descending, pageNumber, pageSize);
  }

  /** A name in which the search text occurs, written in any letter case,
      is found. */
  lemma SearchIgnoresCase(a: Actor, search: string, written: string, i: int)
    requires OccursAt(a.name, written, i) && Lower(written) == Lower(search)
    ensures NameMatches(a, search)
  {
    LowerKeepsOccurrence(a.name, written, i);
    ContainsIffOccurs(Lower(a.name), Lower(search));
  }

  // -------------------------------------------------------------- credits

  /** A TvShowActor link of the actor with its TvShow loaded. */
  datatype Credit = Credit(link: CastLink, show: Show)

  /** ActorTvShowDto. */
  datatype ActorShow = ActorShow(id: Id, title: string, characterName: Option<string>, rating: real)

  /** The actor's links in table order, joined with their shows. */
  function ActorCredits(links: seq<CastLink>, shows: seq<Show>, actorId: Id): (r: seq<Credit>)
    ensures Select(r, (c: Credit) => c.link)
         == Where(links, (l: CastLink) => l.actorId == actorId && ShowExists(shows, l.showId))
    ensures forall c :: c in r ==> c.show in shows && c.show.id == c.link.showId
  {
    if links == [] then []
    else
      var l := links[0];
      var rest := ActorCredits(links[1..], shows, actorId);
      match FindShow(shows, l.showId)
      case Some(s) => if l.actorId == actorId then [Credit(l, s)] + rest else rest
      case None => rest
  }

  function ShowOf(c: Credit): ActorShow {
    ActorShow(c.show.id, c.show.title, c.link.characterName, c.show.rating)
  }

  /** OrderByDescending(ta.TvShow.Rating), before projecting. */
  function CreditRatingKey(c: Credit): Key { [c.show.rating] }

  /** OrderByDescending(t.Rating), after projecting. */
  function ShowRatingKey(s: ActorShow): Key { [s.rating] }

  /** GetActorTvShowsAsync: the actor's shows, highest rated first, each with
      the character played. */
  function GetActorTvShows(links: seq<CastLink>, shows: seq<Show>, actorId: Id): (r: seq<ActorShow>)
    ensures |r| == |ActorCredits(links, shows, actorId)|
    ensures forall i :: 0 <= i < |r| ==> r[i] == ShowOf(SortBy(ActorCredits(links, shows, actorId), CreditRatingKey, true)[i])
  {
    Select(SortBy(ActorCredits(links, shows, actorId), CreditRatingKey, true), ShowOf)
  }

  /** Credits in rating order have non-increasing ratings. */
  lemma RatingDescending(sorted: seq<Credit>)
    requires Ordered(sorted, CreditRatingKey, true)
    ensures forall i, j :: 0 <= i < j < |sorted| ==> sorted[j].show.rating <= sorted[i].show.rating
  {
    forall i, j | 0 <= i < j < |sorted| ensures sorted[j].show.rating <= sorted[i].show.rating {
      assert Before(CreditRatingKey(sorted[i]), CreditRatingKey(sorted[j]), true);
      OneColumn(sorted[j].show.rating, sorted[i].show.rating);
    }
  }

  /** The credits list is highest rated first. */
  lemma {:induction false} CreditsByRating(links: seq<CastLink>, shows: seq<Show>, actorId: Id)
    ensures var r := GetActorTvShows(links, shows, actorId);
            forall i, j :: 0 <= i < j < |r| ==> r[j].rating <= r[i].rating
  {
    var credits := ActorCredits(links, shows, actorId);
    SortByOrdered(credits, CreditRatingKey, true);
    RatingDescending(SortBy(credits, CreditRatingKey, true));
  }

  /** Each credit is one of the actor's links, with the show it points at. */
  lemma {:induction false} CreditsAreTheActors(links: seq<CastLink>, shows: seq<Show>, actorId: Id)
    ensures forall c :: c in SortBy(ActorCredits(links, shows, actorId), CreditRatingKey, true) ==>
              c.link in links && c.link.actorId == actorId && c.show in shows && c.show.id == c.link.showId
  {
    var credits := ActorCredits(links, shows, actorId);
    var picked := Where(links, (l: CastLink) => l.actorId == actorId && ShowExists(shows, l.showId));
    forall c | c in SortBy(credits, CreditRatingKey, true)
      ensures c.link in links && c.link.actorId == actorId && c.show in shows && c.show.id == c.link.showId
    {
      assert c in multiset(credits);
      var k :| 0 <= k < |credits| && credits[k] == c;
      assert Select(credits, (c: Credit) => c.link)[k] == c.link;
      assert c.link in picked;
    }
  }

  // -------------------------------------------------------------- details

  /** ActorDto with its list of shows. */
  datatype ActorDetail = ActorDetail(
    id: Id,
    name: string,
    dateOfBirth: Option<Instant>,
    popularity: Option<real>,
    tvShows: seq<ActorShow>)

  type ActorCache = map<Id, ActorDetail>

  /** The details as built in memory: the joined links projected to DTOs,
      then sorted by rating, highest first. */
  function BuildDetail(a: Actor, links: seq<CastLink>, shows: seq<Show>): ActorDetail {
    var projected := Select(ActorCredits(links, shows, a.id), ShowOf);
    ActorDetail(a.id, a.name, a.dateOfBirth, a.popularity, SortBy(projected, ShowRatingKey, true))
  }

  /** GetActorByIdAsync: the cached details when there are any, and
      otherwise the actor read from the database, whose details are stored
      in the cache; an unknown actor leaves the cache as it was. */
  function GetActorById(cache: ActorCache, actors: seq<Actor>, links: seq<CastLink>, shows: seq<Show>, id: Id)
    : (r: (Option<ActorDetail>, ActorCache))
    ensures id in cache ==> r == (Some(cache[id]), cache)
    ensures id !in cache ==> (r.0.Some? <==> ActorExists(actors, id))
    ensures id !in cache ==> r.1 == if r.0.Some? then cache[id := r.0.value] else cache
    ensures id !in cache && r.0.Some? ==> r.0.value.id == id
  {
    if id in cache then (Some(cache[id]), cache)
    else
      match FindActor(actors, id)
      case None => (None, cache)
      case Some(a) =>
        var dto := BuildDetail(a, links, shows);
        (Some(dto), cache[id := dto])
  }

  /** The shows on a freshly read actor profile are exactly the credits
      list: projecting and then sorting by rating lists the same shows in the
      same order as sorting the links by their show's rating. */
  lemma {:induction false} ProfileListsTheCredits(cache: ActorCache, actors: seq<Actor>, links: seq<CastLink>, shows: seq<Show>, id: Id)
    requires id !in cache && ActorExists(actors, id)
    ensures GetActorById(cache, actors, links, shows, id).0.value.tvShows == GetActorTvShows(links, shows, id)
  {
    var credits := ActorCredits(links, shows, id);
    SortProjected(credits, CreditRatingKey, ShowOf, ShowRatingKey, true);
  }

  /** Once an actor's details are read, later lookups get the same details,
      whatever has changed in the database since. */
  lemma {:induction false} ActorLookupIsCached(cache: ActorCache, actors: seq<Actor>, links: seq<CastLink>, shows: seq<Show>,
                                               actors': seq<Actor>, links': seq<CastLink>, shows': seq<Show>, id: Id)
    requires GetActorById(cache, actors, links, shows, id).0.Some?
    ensures var (dto, cache') := GetActorById(cache, actors, links, shows, id);
            GetActorById(cache', actors', links', shows', id) == (dto, cache')
  {
    var (dto, cache') := GetActorById(cache, actors, links, shows, id);
    assert id in cache' && cache'[id] == dto.value;
  }
}

/** The entities of the data model of the Models folder as values, the list DTO the
    show queries return, and the database context whose tables the services
    change in place. Guids are natural numbers; DateTime values are UTC
    instants in seconds; decimal columns are reals. */
module Entities {
  import opened Wrappers
  import opened RefreshTokens
  import opened Ordering
  import Sequences

  type Id = nat
  type Instant = int

  /** A genre link of a show loaded with its Genre (TvShowGenre with the
      Genre's name). */
  datatype Genre = Genre(id: Id, name: string)

  datatype ShowType = Scripted | Documentary | Reality | TalkShow | GameShow | NewsShow | Miniseries | Other

  /** TvShowType.ToString(). */
  function TypeName(t: ShowType): (r: string)
    ensures |r| > 0
  {
    match t
    case Scripted => "Scripted"
    case Documentary => "Documentary"
    case Reality => "Reality"
    case TalkShow => "TalkShow"
    case GameShow => "GameShow"
    case NewsShow => "NewsShow"
    case Miniseries => "Miniseries"
    case Other => "Other"
  }

  /** A TvShow. `genreIds` are the GenreIds of all its TvShowGenre links, in
      stored order: the queries that test `g.GenreId` read these. `genres`
      are the links that Include(Genres).ThenInclude(Genre) loads: the
      required Genre navigation is inner-joined to the soft-delete-filtered
      Genres, so a link to a deleted genre is missing there, though its id
      stays in `genreIds`. */
  datatype Show = Show(
    id: Id,
    title: string,
    releaseDate: Option<Instant>,
    showType: ShowType,
    rating: real,
    popularity: real,
    genreIds: seq<Id>,
    genres: seq<Genre>)

  datatype Actor = Actor(id: Id, name: string, dateOfBirth: Option<Instant>, popularity: Option<real>)

  /** A TvShowActor link: who plays whom, and the billing order. */
  datatype CastLink = CastLink(showId: Id, actorId: Id, characterName: Option<string>, order: Option<int>)

  datatype Episode = Episode(id: Id, showId: Id, title: string, season: int, number: int)

  /** A FavoriteTvShow row; (userId, showId) is its primary key. */
  datatype Favorite = Favorite(userId: Id, showId: Id, addedAt: Instant)

  datatype User = User(
    id: Id,
    email: string,
    passwordHash: string,
    dataProcessingConsent: bool,
    consentDate: Option<Instant>,
    createdAt: Instant,
    lastLoginAt: Option<Instant>,
    isDeleted: bool)

  /** A UserRecommendation row written by the materialiser. */
  datatype RecommendationRow = RecommendationRow(
    userId: Id,
    showId: Id,
    score: real,
    reason: string,
    emailSent: bool,
    createdAt: Instant)

  /** TvShowListDto. */
  datatype ShowListItem = ShowListItem(
    id: Id,
    title: string,
    rating: real,
    releaseDate: Option<Instant>,
    genres: seq<string>,
    isFavorite: bool)

  function GenreNames(gs: seq<Genre>): (r: seq<string>)
    ensures |r| == |gs| && forall i :: 0 <= i < |gs| ==> r[i] == gs[i].name
  {
    Sequences.Select(gs, (g: Genre) => g.name)
  }

  function ListItem(s: Show, isFavorite: bool): ShowListItem {
    ShowListItem(s.id, s.title, s.rating, s.releaseDate, GenreNames(s.genres), isFavorite)
  }

  /** The sort keys of OrderBy(Popularity) and OrderBy(Rating). */
  function PopularityKey(s: Show): Key { [s.popularity] }
  function RatingKey(s: Show): Key { [s.rating] }

  predicate ShowExists(shows: seq<Show>, id: Id) {
    exists i :: 0 <= i < |shows| && shows[i].id == id
  }

  /** The first show with the given id (FirstOrDefault). */
  function FindShow(shows: seq<Show>, id: Id): (r: Option<Show>)
    ensures r.Some? <==> ShowExists(shows, id)
    ensures r.Some? ==> r.value in shows && r.value.id == id
  {
    if shows == [] then None
    else if shows[0].id == id then Some(shows[0])
    else
      var r := FindShow(shows[1..], id);
      assert ShowExists(shows[1..], id) ==> ShowExists(shows, id) by {
        if ShowExists(shows[1..], id) {
          var k :| 0 <= k < |shows[1..]| && shows[1..][k].id == id;
          assert shows[k + 1].id == id;
        }
      }
      r
  }

  predicate ActorExists(actors: seq<Actor>, id: Id) {
    exists i :: 0 <= i < |actors| && actors[i].id == id
  }

  /** The first actor with the given id (FirstOrDefault, or the Include of a
      link's Actor). */
  function FindActor(actors: seq<Actor>, id: Id): (r: Option<Actor>)
    ensures r.Some? <==> ActorExists(actors, id)
    ensures r.Some? ==> r.value in actors && r.value.id == id
  {
    if actors == [] then None
    else if actors[0].id == id then Some(actors[0])
    else
      var r := FindActor(actors[1..], id);
      assert ActorExists(actors[1..], id) ==> ActorExists(actors, id) by {
        if ActorExists(actors[1..], id) {
          var k :| 0 <= k < |actors[1..]| && actors[1..][k].id == id;
          assert actors[k + 1].id == id;
        }
      }
      r
  }

  /** The rows of the Users table that queries see: the global query filter
      hides soft-deleted users. */
  function VisibleUsers(users: seq<User>): (r: seq<User>)
    ensures forall u :: u in r <==> u in users && !u.isDeleted
  {
    Sequences.Where(users, (u: User) => !u.isDeleted)
  }

  predicate UserExists(users: seq<User>, id: Id) {
    exists i :: 0 <= i < |users| && users[i].id == id && !users[i].isDeleted
  }

  /** The database context: the tables the core reads and writes. */
  class Database {
    var shows: seq<Show>
    var users: seq<User>
    var favorites: seq<Favorite>
    var tokens: seq<RefreshToken>
    var recommendations: seq<RecommendationRow>

    constructor (shows: seq<Show>, users: seq<User>, favorites: seq<Favorite>,
                 tokens: seq<RefreshToken>, recommendations: seq<RecommendationRow>)
      ensures this.shows == shows && this.users == users && this.favorites == favorites
      ensures this.tokens == tokens && this.recommendations == recommendations
    {
      this.shows := shows;
      this.users := users;
      this.favorites := favorites;
      this.tokens := tokens;
      this.recommendations := recommendations;
    }
  }
}

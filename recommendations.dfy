/** What GetRecommendationsAsync answers, as functions of the tables: the
    model path (score every non-favourite show, rank, cut to `count`, explain)
    and the content-based fallback used while no model is loaded. */
module Recommendations {
  import opened Wrappers
  import opened Sequences
  import opened Ordering
  import opened Text
  import opened Paging
  import opened Entities
  import opened Scoring
  import Favorites

  /** A trained model, seen through its prediction for a (user, show) pair. */
  datatype TrainedModel = TrainedModel(predict: (Id, Id) -> Prediction)

  /** TvShowRecommendationDto. */
  datatype Recommendation = Recommendation(
    id: Id,
    title: string,
    rating: real,
    releaseDate: Option<Instant>,
    genres: seq<string>,
    isFavorite: bool,
    score: real,
    reason: string)

  function ToRecommendation(show: Show, score: real, reason: string): Recommendation {
    Recommendation(show.id, show.title, show.rating, show.releaseDate, GenreNames(show.genres), false, score, reason)
  }

  /** The ids of the user's favourite shows (the exclusion list). */
  function FavoriteShowIds(favorites: seq<Favorite>, userId: Id): (r: set<Id>)
    ensures forall id :: id in r <==> Favorites.IsFavorite(favorites, userId, id)
  {
    set f | f in favorites && f.userId == userId :: f.showId
  }

  /** The distinct genre ids of the user's favourite shows; a favourite whose
      show is hidden contributes nothing (the navigation is an inner join). */
  function FavoriteGenreIds(favorites: seq<Favorite>, shows: seq<Show>, userId: Id): set<Id> {
    set f, s, g | f in favorites && f.userId == userId && s in shows && s.id == f.showId && g in s.genreIds :: g
  }

  /** The shows not excluded, in table order. */
  function Candidates(shows: seq<Show>, excluded: set<Id>): (r: seq<Show>)
    ensures forall s :: s in r <==> s in shows && s.id !in excluded
  {
    Where(shows, (s: Show) => s.id !in excluded)
  }

  // ---------------------------------------------------------------------
  // Reasons
  // ---------------------------------------------------------------------

  /** The names of the show's genres that the user favours, in the show's order. */
  function MatchingGenreNames(show: Show, favoriteGenres: set<Id>): (r: seq<string>)
    ensures r == [] <==> forall g :: g in show.genres ==> g.id !in favoriteGenres
  {
    var kept := Where(show.genres, (g: Genre) => g.id in favoriteGenres);
    assert kept != [] ==> kept[0] in kept;
    GenreNames(kept)
  }

  const LovePrefix: string := "Based on your love for "

  /** GenerateReason: the first two matching genre names joined by " and ",
      or "Highly rated {Type} show" when none match. */
  function GenerateReason(show: Show, favoriteGenres: set<Id>): (r: string)
    ensures |r| > 0
  {
    var matching := Take(MatchingGenreNames(show, favoriteGenres), 2);
    if |matching| > 0 then LovePrefix + Join(" and ", matching)
    else "Highly rated " + TypeName(show.showType) + " show"
  }

  /** The reason speaks of love exactly when some genre of the show is a
      favourite genre; it then names the first one, and the second when
      there is one; otherwise it names the show's type. */
  lemma {:induction false} ReasonNamesMatchingGenres(show: Show, favoriteGenres: set<Id>)
    ensures var r := GenerateReason(show, favoriteGenres);
      LovePrefix <= r <==> exists g :: g in show.genres && g.id in favoriteGenres
    ensures var m := MatchingGenreNames(show, favoriteGenres);
      && (|m| == 1 ==> GenerateReason(show, favoriteGenres) == LovePrefix + m[0])
      && (|m| >= 2 ==> GenerateReason(show, favoriteGenres) == LovePrefix + m[0] + " and " + m[1])
      && (m == [] ==> GenerateReason(show, favoriteGenres) == "Highly rated " + TypeName(show.showType) + " show")
  {
    var m := MatchingGenreNames(show, favoriteGenres);
    var r := GenerateReason(show, favoriteGenres);
    if m == [] {
      assert r[0] == 'H' && LovePrefix[0] == 'B';
    }
    if |m| >= 2 {
      assert Take(m, 2) == [m[0], m[1]];
    }
    if |m| == 1 {
      assert Take(m, 2) == [m[0]];
    }
  }

  // ---------------------------------------------------------------------
  // The model path
  // ---------------------------------------------------------------------

  /** A candidate and the score it is ranked by. */
  datatype Scored = Scored(show: Show, score: real)

  function ScoreCandidate(model: TrainedModel, userId: Id, show: Show): Scored {
    Scored(show, CandidateScore(model.predict(userId, show.id), show))
  }

  /** Every candidate scored once, in candidate order. */
  function ScoreAll(model: TrainedModel, userId: Id, candidates: seq<Show>): (r: seq<Scored>)
    ensures |r| == |candidates|
    ensures forall i :: 0 <= i < |r| ==> r[i] == ScoreCandidate(model, userId, candidates[i])
  {
    Select(candidates, (s: Show) => ScoreCandidate(model, userId, s))
  }

  function ScoreKey(x: Scored): Key { [x.score] }

  /** OrderByDescending(score).Take(count). */
  function Rank(scored: seq<Scored>, count: int): (r: seq<Scored>)
    ensures |r| <= |scored| && (count <= 0 ==> r == []) && (count >= 0 ==> |r| <= count)
    ensures |r| == if count <= 0 then 0 else Min(count, |scored|)
  {
    Take(SortBy(scored, ScoreKey, true), count)
  }

  /** A list ordered by descending score key has non-increasing scores. */
  lemma DescendingScores(sorted: seq<Scored>)
    requires Ordered(sorted, ScoreKey, true)
    ensures forall i, j :: 0 <= i < j < |sorted| ==> sorted[j].score <= sorted[i].score
  {
    forall i, j | 0 <= i < j < |sorted| ensures sorted[j].score <= sorted[i].score {
      assert Before(ScoreKey(sorted[i]), ScoreKey(sorted[j]), true);
      OneColumn(sorted[j].score, sorted[i].score);
    }
  }

  /** The ranking is in descending score order and drawn from the scored list. */
  lemma RankIsDescending(scored: seq<Scored>, count: int)
    ensures var r := Rank(scored, count);
      forall i, j :: 0 <= i < j < |r| ==> r[j].score <= r[i].score
    ensures forall x :: x in Rank(scored, count) ==> x in scored
  {
    var sorted := SortBy(scored, ScoreKey, true);
    var r := Rank(scored, count);
    SortByOrdered(scored, ScoreKey, true);
    DescendingScores(sorted);
    assert r == sorted[..|r|];
    forall i, j | 0 <= i < j < |r| ensures r[j].score <= r[i].score {
      assert r[i] == sorted[i] && r[j] == sorted[j];
    }
    forall x | x in r ensures x in scored {
      assert x in multiset(sorted);
    }
  }

  /** The ranking keeps the best: no entry left out scores above a kept one. */
  lemma RankKeepsTheBest(scored: seq<Scored>, count: int)
    ensures var r := Rank(scored, count);
      forall x, i :: x in multiset(scored) - multiset(r) && 0 <= i < |r| ==> x.score <= r[i].score
  {
    var sorted := SortBy(scored, ScoreKey, true);
    var r := Rank(scored, count);
    SortByOrdered(scored, ScoreKey, true);
    DescendingScores(sorted);
    var rest := sorted[|r|..];
    assert sorted == r + rest;
    assert multiset(scored) == multiset(r) + multiset(rest);
    forall x, i | x in multiset(scored) - multiset(r) && 0 <= i < |r| ensures x.score <= r[i].score {
      assert x in rest;
      var j :| 0 <= j < |rest| && rest[j] == x;
      assert sorted[|r| + j] == x && sorted[i] == r[i];
      assert sorted[|r| + j].score <= sorted[i].score;
    }
  }

  /** Entries with equal scores keep their input order (the sort is stable). */
  lemma RankIsStable(scored: seq<Scored>, count: int, k: Key)
    ensures Ties(Rank(scored, count), ScoreKey, k) <= Ties(scored, ScoreKey, k)
  {
    var sorted := SortBy(scored, ScoreKey, true);
    SortByStable(scored, ScoreKey, true, k);
    PrefixTies(sorted, |Rank(scored, count)|, ScoreKey, k);
  }

  /** Each ranked candidate as a recommendation: its display score and reason. */
  function Present(top: seq<Scored>, genres: set<Id>): (r: seq<Recommendation>)
    ensures |r| == |top|
    ensures forall k :: 0 <= k < |r| ==> r[k].id == top[k].show.id && !r[k].isFavorite
    ensures forall k :: 0 <= k < |r| ==> r[k].score == DisplayScore(Finite(top[k].score))
  {
    Select(top, (x: Scored) => ToRecommendation(x.show, DisplayScore(Finite(x.score)), GenerateReason(x.show, genres)))
  }

  /** The model path: score every non-favourite show, keep the top `count`,
      display each score on the 0-100 scale and explain it. */
  function ModelPath(model: TrainedModel, shows: seq<Show>, favorites: seq<Favorite>, userId: Id, count: int)
    : (r: seq<Recommendation>)
    ensures |r| <= |Candidates(shows, FavoriteShowIds(favorites, userId))|
    ensures count <= 0 ==> r == []
    ensures count >= 0 ==> |r| <= count
    ensures |r| == if count <= 0 then 0 else Min(count, |Candidates(shows, FavoriteShowIds(favorites, userId))|)
  {
    var candidates := Candidates(shows, FavoriteShowIds(favorites, userId));
    if candidates == [] then []
    else Present(Rank(ScoreAll(model, userId, candidates), count), FavoriteGenreIds(favorites, shows, userId))
  }

  /** Every ranked candidate is a shown, non-favourite show. */
  lemma RankedAreCandidates(model: TrainedModel, shows: seq<Show>, excluded: set<Id>, userId: Id, count: int)
    ensures forall x :: x in Rank(ScoreAll(model, userId, Candidates(shows, excluded)), count) ==>
      x.show in shows && x.show.id !in excluded
  {
    var candidates := Candidates(shows, excluded);
    var scored := ScoreAll(model, userId, candidates);
    RankIsDescending(scored, count);
    forall x | x in Rank(scored, count) ensures x.show in shows && x.show.id !in excluded {
      var m :| 0 <= m < |scored| && scored[m] == x;
      assert candidates[m] in candidates;
    }
  }

  /** Presenting candidates keeps their ids and flags none as a favourite. */
  lemma PresentedFrom(top: seq<Scored>, genres: set<Id>, shows: seq<Show>, excluded: set<Id>)
    requires forall x :: x in top ==> x.show in shows && x.show.id !in excluded
    ensures forall rec :: rec in Present(top, genres) ==> ShowExists(shows, rec.id) && rec.id !in excluded && !rec.isFavorite
  {
    var r := Present(top, genres);
    forall rec | rec in r ensures ShowExists(shows, rec.id) && rec.id !in excluded && !rec.isFavorite {
      var k :| 0 <= k < |r| && r[k] == rec;
      assert top[k] in top;
      var n :| 0 <= n < |shows| && shows[n] == top[k].show;
    }
  }

  /** On the model path every recommendation is a visible, non-favourite
      show, flagged as not favourite. */
  lemma ModelPathExcludesFavorites(model: TrainedModel, shows: seq<Show>, favorites: seq<Favorite>, userId: Id, count: int)
    ensures forall rec :: rec in ModelPath(model, shows, favorites, userId, count) ==>
      ShowExists(shows, rec.id) && !Favorites.IsFavorite(favorites, userId, rec.id) && !rec.isFavorite
  {
    var excluded := FavoriteShowIds(favorites, userId);
    var candidates := Candidates(shows, excluded);
    if candidates != [] {
      var top := Rank(ScoreAll(model, userId, candidates), count);
      RankedAreCandidates(model, shows, excluded, userId, count);
      PresentedFrom(top, FavoriteGenreIds(favorites, shows, userId), shows, excluded);
    }
  }

  /** Presenting a list in descending score order keeps the display
      scores non-increasing, each in [0, 100] with one decimal. */
  lemma PresentedScores(top: seq<Scored>, genres: set<Id>)
    requires forall i, j :: 0 <= i < j < |top| ==> top[j].score <= top[i].score
    ensures forall rec :: rec in Present(top, genres) ==> IsDisplayScore(rec.score)
  {
    var r := Present(top, genres);
    forall rec | rec in r ensures IsDisplayScore(rec.score) {
      var k :| 0 <= k < |r| && r[k] == rec;
      assert IsDisplayScore(DisplayScore(Finite(top[k].score)));
    }
  }

  lemma PresentedScoresMono(top: seq<Scored>, genres: set<Id>)
    requires forall i, j :: 0 <= i < j < |top| ==> top[j].score <= top[i].score
    ensures var r := Present(top, genres);
      forall i, j :: 0 <= i < j < |r| ==> r[j].score <= r[i].score
  {
    var r := Present(top, genres);
    forall i, j | 0 <= i < j < |r| ensures r[j].score <= r[i].score {
      DisplayScoreMonotone(top[j].score, top[i].score);
    }
  }

  /** On the model path every display score lies in [0, 100] with one
      decimal, and the display scores never increase down the list. */
  lemma ModelPathDisplayScores(model: TrainedModel, shows: seq<Show>, favorites: seq<Favorite>, userId: Id, count: int)
    ensures forall rec :: rec in ModelPath(model, shows, favorites, userId, count) ==> IsDisplayScore(rec.score)
    ensures var r := ModelPath(model, shows, favorites, userId, count);
      forall i, j :: 0 <= i < j < |r| ==> r[j].score <= r[i].score
  {
    var candidates := Candidates(shows, FavoriteShowIds(favorites, userId));
    if candidates != [] {
      var scored := ScoreAll(model, userId, candidates);
      RankIsDescending(scored, count);
      PresentedScores(Rank(scored, count), FavoriteGenreIds(favorites, shows, userId));
      PresentedScoresMono(Rank(scored, count), FavoriteGenreIds(favorites, shows, userId));
    }
  }

  // ---------------------------------------------------------------------
  // The content-based fallback
  // ---------------------------------------------------------------------

  predicate SharesGenre(show: Show, genres: set<Id>) {
    exists g :: g in show.genreIds && g in genres
  }


  const PopularReason: string := "Popular show you might enjoy"

  /** "Similar to your favorite {first two genre names, comma-joined} shows". */
  function SimilarReason(show: Show): string {
    "Similar to your favorite " + Join(", ", Take(GenreNames(show.genres), 2)) + " shows"
  }

  /** The shows the fallback considers: with no favourite genre every
      non-favourite show, otherwise those sharing a favourite genre. */
  function FallbackPool(shows: seq<Show>, favorites: seq<Favorite>, userId: Id): (r: seq<Show>)
    ensures forall s :: s in r ==> s in shows && !Favorites.IsFavorite(favorites, userId, s.id)
    ensures FavoriteGenreIds(favorites, shows, userId) != {} ==>
      forall s :: s in r ==> SharesGenre(s, FavoriteGenreIds(favorites, shows, userId))
  {
    var excluded := FavoriteShowIds(favorites, userId);
    var genres := FavoriteGenreIds(favorites, shows, userId);
    if genres == {} then Candidates(shows, excluded)
    else Similar(Candidates(shows, excluded), genres)
  }

  /** The shows sharing a genre with `genres`, in their order. */
  function Similar(shows: seq<Show>, genres: set<Id>): (r: seq<Show>)
    ensures forall s :: s in r <==> s in shows && SharesGenre(s, genres)
  {
    Where(shows, (s: Show) => SharesGenre(s, genres))
  }

  /** Popularity with no favourite genre, rating otherwise. */
  function FallbackKey(genres: set<Id>): Show -> Key {
    if genres == {} then PopularityKey else RatingKey
  }

  /** How a fallback show is presented: its popularity and a fixed reason,
      or its rating times ten and its first genres. */
  function FallbackItem(show: Show, genres: set<Id>): Recommendation {
    if genres == {} then ToRecommendation(show, show.popularity, PopularReason)
    else ToRecommendation(show, show.rating * 10.0, SimilarReason(show))
  }

  /** The first `count` shows of the pool, best first by the fallback key. */
  function Chosen(pool: seq<Show>, genres: set<Id>, count: nat): (r: seq<Show>)
    ensures |r| <= count
    ensures |r| == Min(count, |pool|)
    ensures forall s :: s in r ==> s in pool
    ensures Ordered(r, FallbackKey(genres), true)
    ensures KeepsTheBest(pool, r, FallbackKey(genres), true)
  {
    var key := FallbackKey(genres);
    var sorted := SortBy(pool, key, true);
    var n := Min(count, |pool|);
    SortByOrdered(pool, key, true);
    SliceOrdered(sorted, key, true, 0, n);
    PrefixKeepsTheBest(pool, key, true, n);
    assert sorted[..n] == sorted[0..n];
    assert forall s :: s in sorted[..n] ==> s in multiset(sorted);
    sorted[..n]
  }

  /** GetContentBasedRecommendationsAsync. The ordering and the Take run in
      the database, which refuses a negative LIMIT. */
  function Fallback(shows: seq<Show>, favorites: seq<Favorite>, userId: Id, count: int)
    : (r: Result<seq<Recommendation>, QueryError>)
    ensures r.Ok? <==> count >= 0
    ensures r.Ok? ==> |r.value| <= count
    ensures r.Ok? ==> var top := Chosen(FallbackPool(shows, favorites, userId), FavoriteGenreIds(favorites, shows, userId), count);
      |r.value| == |top| &&
      forall k :: 0 <= k < |top| ==> r.value[k] == FallbackItem(top[k], FavoriteGenreIds(favorites, shows, userId))
  {
    var genres := FavoriteGenreIds(favorites, shows, userId);
    var pool := FallbackPool(shows, favorites, userId);
    match Limit(SortBy(pool, FallbackKey(genres), true), count)
    case Err(e) => Err(e)
    case Ok(top) =>
      assert top == Chosen(pool, genres, count);
      Ok(Select(top, (s: Show) => FallbackItem(s, genres)))
  }

  /** The fallback never recommends a favourite, and flags none as one. */
  lemma FallbackExcludesFavorites(shows: seq<Show>, favorites: seq<Favorite>, userId: Id, count: int)
    requires count >= 0
    ensures forall rec :: rec in Fallback(shows, favorites, userId, count).value ==>
      ShowExists(shows, rec.id) && !Favorites.IsFavorite(favorites, userId, rec.id) && !rec.isFavorite
  {
    var genres := FavoriteGenreIds(favorites, shows, userId);
    var r := Fallback(shows, favorites, userId, count).value;
    var top := Chosen(FallbackPool(shows, favorites, userId), genres, count);
    forall rec | rec in r
      ensures ShowExists(shows, rec.id) && !Favorites.IsFavorite(favorites, userId, rec.id) && !rec.isFavorite
    {
      var k :| 0 <= k < |r| && r[k] == rec;
      assert top[k] in top;
      var n :| 0 <= n < |shows| && shows[n] == top[k];
    }
  }

  /** The fallback answers min(count, pool) shows, and no show of the pool
      left out is more popular (with no favourite genre) or better rated
      (with favourite genres) than one recommended. */
  lemma FallbackIsTheTop(shows: seq<Show>, favorites: seq<Favorite>, userId: Id, count: int)
    requires count >= 0
    ensures var pool := FallbackPool(shows, favorites, userId);
            var genres := FavoriteGenreIds(favorites, shows, userId);
            var top := Chosen(pool, genres, count);
            var r := Fallback(shows, favorites, userId, count).value;
            && |r| == Min(count, |pool|)
            && (forall i :: 0 <= i < |r| ==> r[i].id == top[i].id)
            && (genres == {} ==>
                  forall s: Show, i :: s in multiset(pool) - multiset(top) && 0 <= i < |r| ==> s.popularity <= r[i].score)
            && (genres != {} ==>
                  forall s: Show, i :: s in multiset(pool) - multiset(top) && 0 <= i < |r| ==> s.rating * 10.0 <= r[i].score)
  {
    var pool := FallbackPool(shows, favorites, userId);
    var genres := FavoriteGenreIds(favorites, shows, userId);
    var top := Chosen(pool, genres, count);
    var r := Fallback(shows, favorites, userId, count).value;
    forall s: Show, i | s in multiset(pool) - multiset(top) && 0 <= i < |r|
      ensures genres == {} ==> s.popularity <= r[i].score
      ensures genres != {} ==> s.rating * 10.0 <= r[i].score
    {
      assert Before(FallbackKey(genres)(top[i]), FallbackKey(genres)(s), true);
      assert r[i] == FallbackItem(top[i], genres);
      if genres == {} {
        OneColumn(s.popularity, top[i].popularity);
      } else {
        OneColumn(s.rating, top[i].rating);
      }
    }
  }

  /** With no favourite genre: the most popular first, each scored by its
      popularity, all with the same reason. */
  lemma FallbackByPopularity(shows: seq<Show>, favorites: seq<Favorite>, userId: Id, count: int)
    requires count >= 0 && FavoriteGenreIds(favorites, shows, userId) == {}
    ensures forall rec :: rec in Fallback(shows, favorites, userId, count).value ==> rec.reason == PopularReason
    ensures var r := Fallback(shows, favorites, userId, count).value;
      forall i, j :: 0 <= i < j < |r| ==> r[j].score <= r[i].score
  {
    var genres := FavoriteGenreIds(favorites, shows, userId);
    var r := Fallback(shows, favorites, userId, count).value;
    var top := Chosen(FallbackPool(shows, favorites, userId), genres, count);
    forall i, j | 0 <= i < j < |r| ensures r[j].score <= r[i].score {
      assert Before(PopularityKey(top[i]), PopularityKey(top[j]), true);
      OneColumn(top[j].popularity, top[i].popularity);
    }
  }

  /** With favourite genres: only shows sharing one of them, each scored
      rating times ten, the reason naming its first genres. */
  lemma FallbackByGenre(shows: seq<Show>, favorites: seq<Favorite>, userId: Id, count: int)
    requires count >= 0 && FavoriteGenreIds(favorites, shows, userId) != {}
    ensures forall rec :: rec in Fallback(shows, favorites, userId, count).value ==>
      exists s :: s in shows && FallbackMatch(s, rec, FavoriteGenreIds(favorites, shows, userId))
  {
    var genres := FavoriteGenreIds(favorites, shows, userId);
    var pool := FallbackPool(shows, favorites, userId);
    var r := Fallback(shows, favorites, userId, count).value;
    var top := Chosen(pool, genres, count);
    forall rec | rec in r ensures exists s :: s in shows && FallbackMatch(s, rec, genres) {
      var k :| 0 <= k < |r| && r[k] == rec;
      var s := top[k];
      assert rec == FallbackItem(s, genres);
      assert s in pool;
      assert s in shows && SharesGenre(s, genres);
      SimilarItem(s, genres);
    }
  }

  lemma SimilarItem(show: Show, genres: set<Id>)
    requires genres != {} && SharesGenre(show, genres)
    ensures FallbackMatch(show, FallbackItem(show, genres), genres)
  {
  }

  /** With favourite genres: the best rated first. */
  lemma FallbackByRating(shows: seq<Show>, favorites: seq<Favorite>, userId: Id, count: int)
    requires count >= 0 && FavoriteGenreIds(favorites, shows, userId) != {}
    ensures var r := Fallback(shows, favorites, userId, count).value;
      forall i, j :: 0 <= i < j < |r| ==> r[j].rating <= r[i].rating
  {
    var genres := FavoriteGenreIds(favorites, shows, userId);
    var r := Fallback(shows, favorites, userId, count).value;
    var top := Chosen(FallbackPool(shows, favorites, userId), genres, count);
    forall i, j | 0 <= i < j < |r| ensures r[j].rating <= r[i].rating {
      assert Before(RatingKey(top[i]), RatingKey(top[j]), true);
      OneColumn(top[j].rating, top[i].rating);
    }
  }

  /** `rec` presents `show`, which shares a favourite genre, scored rating
      times ten with the similar-genres reason. */
  predicate FallbackMatch(show: Show, rec: Recommendation, genres: set<Id>) {
    && SharesGenre(show, genres)
    && rec.id == show.id && rec.score == show.rating * 10.0 && rec.reason == SimilarReason(show)
  }

  // ---------------------------------------------------------------------
  // A worked case of the genre fallback
  // ---------------------------------------------------------------------

  const Drama := Genre(1, "Drama")
  const Crime := Genre(2, "Crime")
  const Comedy := Genre(3, "Comedy")

  /** The user's favourite (a Drama/Crime show), a second Drama/Crime show
      and a better rated, more popular comedy. */
  const Favourite := Show(10, "F", None, Scripted, 7.0, 50.0, [1, 2], [Drama, Crime])
  const ShowA := Show(11, "A", None, Scripted, 8.0, 40.0, [1, 2], [Drama, Crime])
  const ShowB := Show(12, "B", None, Scripted, 9.0, 99.0, [3], [Comedy])

  /** The favourite genres of the worked case: Drama and Crime. */
  lemma CaseGenres()
    ensures FavoriteGenreIds([Favorite(1, 10, 0)], [Favourite, ShowA, ShowB], 1) == {1, 2}
  {
    var shows := [Favourite, ShowA, ShowB];
    var favorites := [Favorite(1, 10, 0)];
    var genres := FavoriteGenreIds(favorites, shows, 1);
    assert favorites[0] in favorites && shows[0] in shows;
    assert 1 in shows[0].genreIds && 2 in shows[0].genreIds;
    assert 1 in genres && 2 in genres;
    forall x | x in genres ensures x == 1 || x == 2 {
      var f, s, g :| f in favorites && f.userId == 1 && s in shows && s.id == f.showId && g in s.genreIds && g == x;
      assert s == Favourite;
    }
  }

  lemma CandidatesCons(x: Show, rest: seq<Show>, excluded: set<Id>)
    ensures Candidates([x] + rest, excluded)
      == if x.id !in excluded then [x] + Candidates(rest, excluded) else Candidates(rest, excluded)
  {
    assert ([x] + rest)[1..] == rest;
  }

  lemma SimilarCons(x: Show, rest: seq<Show>, genres: set<Id>)
    ensures Similar([x] + rest, genres)
      == if SharesGenre(x, genres) then [x] + Similar(rest, genres) else Similar(rest, genres)
  {
    assert ([x] + rest)[1..] == rest;
  }

  /** The worked case excludes the favourite alone. */
  lemma CaseExcluded()
    ensures FavoriteShowIds([Favorite(1, 10, 0)], 1) == {10}
  {
    var favorites := [Favorite(1, 10, 0)];
    assert Favorites.IsFavorite(favorites, 1, 10) by { assert favorites[0] in favorites; }
  }

  lemma CaseCandidatesTail()
    ensures Candidates([ShowA, ShowB], {10}) == [ShowA, ShowB]
  {
    CandidatesCons(ShowB, [], {10});
    assert [ShowB] == [ShowB] + [];
    CandidatesCons(ShowA, [ShowB], {10});
    assert [ShowA, ShowB] == [ShowA] + [ShowB];
  }

  /** Without the favourite, the candidates are the other two shows. */
  lemma CaseCandidates()
    ensures Candidates([Favourite, ShowA, ShowB], {10}) == [ShowA, ShowB]
  {
    CaseCandidatesTail();
    CandidatesCons(Favourite, [ShowA, ShowB], {10});
    assert [Favourite, ShowA, ShowB] == [Favourite] + [ShowA, ShowB];
  }

  /** Of those, only the Drama/Crime show shares a favourite genre. */
  lemma CaseSimilar()
    ensures Similar([ShowA, ShowB], {1, 2}) == [ShowA]
  {
    assert SharesGenre(ShowA, {1, 2}) by { assert 1 in ShowA.genreIds; }
    assert !SharesGenre(ShowB, {1, 2});
    SimilarCons(ShowB, [], {1, 2});
    assert [ShowB] == [ShowB] + [];
    SimilarCons(ShowA, [ShowB], {1, 2});
    assert [ShowA, ShowB] == [ShowA] + [ShowB];
  }

  /** The pool of the worked case: the other Drama/Crime show alone. */
  lemma CasePool()
    ensures FallbackPool([Favourite, ShowA, ShowB], [Favorite(1, 10, 0)], 1) == [ShowA]
  {
    CaseGenres();
    CaseExcluded();
    CaseCandidates();
    CaseSimilar();
  }

  lemma CaseChosen()
    ensures Chosen([ShowA], {1, 2}, 10) == [ShowA]
  {
    assert SortBy([ShowA], FallbackKey({1, 2}), true) == [ShowA];
  }

  lemma CaseReason()
    ensures SimilarReason(ShowA) == "Similar to your favorite Drama, Crime shows"
  {
    assert GenreNames(ShowA.genres) == ["Drama", "Crime"];
    assert Take(GenreNames(ShowA.genres), 2) == ["Drama", "Crime"];
  }

  lemma FallbackOfOne(shows: seq<Show>, favorites: seq<Favorite>, userId: Id, count: int, show: Show, genres: set<Id>)
    requires count >= 0 && FavoriteGenreIds(favorites, shows, userId) == genres
    requires Chosen(FallbackPool(shows, favorites, userId), genres, count) == [show]
    ensures Fallback(shows, favorites, userId, count) == Ok([FallbackItem(show, genres)])
  {
    var r := Fallback(shows, favorites, userId, count);
    assert r.value == [FallbackItem(show, genres)];
  }

  /** With no model, a user whose one favourite is a Drama/Crime show is
      offered the other Drama/Crime show, scored 80 and explained by its
      genres; the comedy is not offered at all, though it rates higher. */
  lemma GenreFallbackDropsOtherGenres()
    ensures Fallback([Favourite, ShowA, ShowB], [Favorite(1, 10, 0)], 1, 10)
      == Ok([ToRecommendation(ShowA, 80.0, "Similar to your favorite Drama, Crime shows")])
  {
    CaseGenres();
    CasePool();
    CaseChosen();
    CaseReason();
    FallbackOfOne([Favourite, ShowA, ShowB], [Favorite(1, 10, 0)], 1, 10, ShowA, {1, 2});
  }

  // ---------------------------------------------------------------------
  // GetRecommendationsAsync
  // ---------------------------------------------------------------------

  /** GetRecommendationsAsync: nothing for an unknown user; the fallback
      while no model is loaded; the model path otherwise. */
  function RecommendSpec(model: Option<TrainedModel>, users: seq<User>, shows: seq<Show>, favorites: seq<Favorite>,
                         userId: Id, count: int): Result<seq<Recommendation>, QueryError>
  {
    if !UserExists(users, userId) then Ok([])
    else if model.None? then Fallback(shows, favorites, userId, count)
    else Ok(ModelPath(model.value, shows, favorites, userId, count))
  }

  /** The outcome: an empty list for an unknown or deleted user; an error
      only from the fallback's negative LIMIT; at most `count` items, none
      a favourite of the user. */
  lemma RecommendOutcome(model: Option<TrainedModel>, users: seq<User>, shows: seq<Show>, favorites: seq<Favorite>,
                         userId: Id, count: int)
    ensures !UserExists(users, userId) ==> RecommendSpec(model, users, shows, favorites, userId, count) == Ok([])
    ensures RecommendSpec(model, users, shows, favorites, userId, count).Err?
        <==> UserExists(users, userId) && model.None? && count < 0
    ensures var r := RecommendSpec(model, users, shows, favorites, userId, count);
      r.Ok? ==> |r.value| <= (if count < 0 then 0 else count)
                && forall rec :: rec in r.value ==> !Favorites.IsFavorite(favorites, userId, rec.id) && !rec.isFavorite
  {
    if UserExists(users, userId) {
      if model.None? {
        if count >= 0 {
          FallbackExcludesFavorites(shows, favorites, userId, count);
        }
      } else {
        ModelPathExcludesFavorites(model.value, shows, favorites, userId, count);
      }
    }
  }
}

/** MLRecommendationService as an object: the model it holds (loaded from
    disk when it starts, replaced by training), the scoring loop of
    GetRecommendationsAsync, and the job that stores ten recommendations for
    every user. */
module MLRecommendation {
  import opened Wrappers
  import opened Sequences
  import opened Entities
  import opened Scoring
  import opened Paging
  import opened Recommendations

  /** Training needs at least this many favourites. */
  const MinTrainingFavorites := 10

  /** The job stores this many recommendations per user. */
  const StoredCount := 10

  /** recommendation_model.zip: the last model saved, if any. */
  class ModelFile {
    var stored: Option<TrainedModel>

    constructor (stored: Option<TrainedModel>)
      ensures this.stored == stored
    {
      this.stored := stored;
    }
  }

  // ---------------------------------------------------------------------
  // The stored recommendations
  // ---------------------------------------------------------------------

  /** One UserRecommendation per recommendation, not yet emailed. */
  function Rows(userId: Id, recs: seq<Recommendation>, now: Instant): (r: seq<RecommendationRow>)
    ensures |r| == |recs|
    ensures forall k :: 0 <= k < |r| ==>
      r[k] == RecommendationRow(userId, recs[k].id, recs[k].score, recs[k].reason, false, now)
  {
    Select(recs, (rec: Recommendation) => RecommendationRow(userId, rec.id, rec.score, rec.reason, false, now))
  }

  /** Adding the row of one more recommendation extends Rows by that row. */
  lemma RowsSnoc(userId: Id, recs: seq<Recommendation>, k: nat, now: Instant)
    requires k < |recs|
    ensures Rows(userId, recs[..k + 1], now)
         == Rows(userId, recs[..k], now) + [RecommendationRow(userId, recs[k].id, recs[k].score, recs[k].reason, false, now)]
  {
  }

  /** The stored rows of one user. */
  function RowsFor(rows: seq<RecommendationRow>, userId: Id): (r: seq<RecommendationRow>)
    ensures forall row :: row in r <==> row in rows && row.userId == userId
  {
    Where(rows, (row: RecommendationRow) => row.userId == userId)
  }

  /** The table without one user's rows (RemoveRange of what that user had). */
  function Without(rows: seq<RecommendationRow>, userId: Id): (r: seq<RecommendationRow>)
    ensures forall row :: row in r <==> row in rows && row.userId != userId
  {
    Where(rows, (row: RecommendationRow) => row.userId != userId)
  }

  /** One user's turn in the job: the old rows go, the new ones come, unless
      computing the recommendations failed, which leaves the table as it was. */
  function Refresh(rows: seq<RecommendationRow>, outcome: Result<seq<Recommendation>, QueryError>,
                   userId: Id, now: Instant): seq<RecommendationRow>
  {
    match outcome
    case Ok(recs) => Without(rows, userId) + Rows(userId, recs, now)
    case Err(_) => rows
  }

  /** After a successful turn the user's rows are exactly the new ones. */
  lemma RefreshReplaces(rows: seq<RecommendationRow>, recs: seq<Recommendation>, userId: Id, now: Instant)
    ensures RowsFor(Refresh(rows, Ok(recs), userId, now), userId) == Rows(userId, recs, now)
  {
    var p := (row: RecommendationRow) => row.userId == userId;
    var newRows := Rows(userId, recs, now);
    WhereAppend(Without(rows, userId), newRows, p);
    WhereNone(Without(rows, userId), p);
    WhereAll(newRows, p);
  }

  /** A turn never touches another user's rows. */
  lemma RefreshKeepsOthers(rows: seq<RecommendationRow>, outcome: Result<seq<Recommendation>, QueryError>,
                           userId: Id, now: Instant, other: Id)
    requires other != userId
    ensures RowsFor(Refresh(rows, outcome, userId, now), other) == RowsFor(rows, other)
  {
    if outcome.Ok? {
      var p := (row: RecommendationRow) => row.userId == other;
      var newRows := Rows(userId, outcome.value, now);
      WhereAppend(Without(rows, userId), newRows, p);
      WhereNone(newRows, p);
      WhereNarrows(rows, (row: RecommendationRow) => row.userId != userId, p);
    }
  }

  /** The job over the given users in order: each one's turn asks for
      StoredCount recommendations from the same tables. */
  function Materialize(rows: seq<RecommendationRow>, model: Option<TrainedModel>, users: seq<User>,
                       shows: seq<Show>, favorites: seq<Favorite>, ids: seq<Id>, now: Instant)
    : seq<RecommendationRow>
    decreases |ids|
  {
    if ids == [] then rows
    else
      var u := ids[|ids| - 1];
      Refresh(Materialize(rows, model, users, shows, favorites, ids[..|ids| - 1], now),
              RecommendSpec(model, users, shows, favorites, u, StoredCount), u, now)
  }

  /** The job over one more user is one more turn. */
  lemma MaterializeStep(rows: seq<RecommendationRow>, model: Option<TrainedModel>, users: seq<User>,
                        shows: seq<Show>, favorites: seq<Favorite>, ids: seq<Id>, i: nat, now: Instant)
    requires i < |ids|
    ensures Materialize(rows, model, users, shows, favorites, ids[..i + 1], now)
      == Refresh(Materialize(rows, model, users, shows, favorites, ids[..i], now),
                 RecommendSpec(model, users, shows, favorites, ids[i], StoredCount), ids[i], now)
  {
    assert ids[..i + 1][..i] == ids[..i];
  }

  /** What the job leaves for one user: a user it visited holds exactly the
      rows of its fresh recommendations; anyone else keeps what they had. */
  lemma {:induction false} MaterializedRows(rows: seq<RecommendationRow>, model: Option<TrainedModel>, users: seq<User>,
                                            shows: seq<Show>, favorites: seq<Favorite>, ids: seq<Id>, now: Instant, u: Id)
    ensures var r := Materialize(rows, model, users, shows, favorites, ids, now);
      RowsFor(r, u) == if u in ids then Rows(u, RecommendSpec(model, users, shows, favorites, u, StoredCount).value, now)
                       else RowsFor(rows, u)
    decreases |ids|
  {
    if ids != [] {
      var last := ids[|ids| - 1];
      var init := ids[..|ids| - 1];
      assert ids == init + [last];
      var before := Materialize(rows, model, users, shows, favorites, init, now);
      var outcome := RecommendSpec(model, users, shows, favorites, last, StoredCount);
      RecommendOutcome(model, users, shows, favorites, last, StoredCount);
      if last == u {
        RefreshReplaces(before, outcome.value, u, now);
      } else {
        MaterializedRows(rows, model, users, shows, favorites, init, now, u);
        RefreshKeepsOthers(before, outcome, last, now, u);
      }
    }
  }

  /** Running the job a second time over the same tables stores the same
      rows for every user. */
  lemma MaterializeTwice(rows: seq<RecommendationRow>, model: Option<TrainedModel>, users: seq<User>,
                         shows: seq<Show>, favorites: seq<Favorite>, ids: seq<Id>, now: Instant, u: Id)
    ensures var once := Materialize(rows, model, users, shows, favorites, ids, now);
      RowsFor(Materialize(once, model, users, shows, favorites, ids, now), u) == RowsFor(once, u)
  {
    var once := Materialize(rows, model, users, shows, favorites, ids, now);
    MaterializedRows(rows, model, users, shows, favorites, ids, now, u);
    MaterializedRows(once, model, users, shows, favorites, ids, now, u);
  }

  /** Every visited user ends with at most StoredCount rows, none emailed,
      all stamped with the job's instant, none for a show they favour. */
  lemma MaterializedRowsAreFresh(rows: seq<RecommendationRow>, model: Option<TrainedModel>, users: seq<User>,
                                 shows: seq<Show>, favorites: seq<Favorite>, ids: seq<Id>, now: Instant, u: Id)
    requires u in ids
    ensures var mine := RowsFor(Materialize(rows, model, users, shows, favorites, ids, now), u);
      |mine| <= StoredCount
      && forall row :: row in mine ==> !row.emailSent && row.createdAt == now && !Favorites.IsFavorite(favorites, u, row.showId)
  {
    var recs := RecommendSpec(model, users, shows, favorites, u, StoredCount);
    MaterializedRows(rows, model, users, shows, favorites, ids, now, u);
    RecommendOutcome(model, users, shows, favorites, u, StoredCount);
    var mine := Rows(u, recs.value, now);
    forall row | row in mine
      ensures !row.emailSent && row.createdAt == now && !Favorites.IsFavorite(favorites, u, row.showId)
    {
      var k :| 0 <= k < |mine| && mine[k] == row;
      assert recs.value[k] in recs.value;
    }
  }

  /** The ids of the users the query filter lets through, in table order. */
  function VisibleUserIds(users: seq<User>): (r: seq<Id>)
    ensures forall id :: id in r <==> UserExists(users, id)
  {
    var visible := VisibleUsers(users);
    var r := Select(visible, (u: User) => u.id);
    forall id | UserExists(users, id) ensures id in r {
      var i :| 0 <= i < |users| && users[i].id == id && !users[i].isDeleted;
      assert users[i] in visible;
      var k :| 0 <= k < |visible| && visible[k] == users[i];
      assert r[k] == id;
    }
    forall id | id in r ensures UserExists(users, id) {
      var k :| 0 <= k < |r| && r[k] == id;
      assert visible[k] in visible;
      var i :| 0 <= i < |users| && users[i] == visible[k];
    }
    r
  }

  // ---------------------------------------------------------------------
  // The service
  // ---------------------------------------------------------------------

  class RecommendationService {
    /** _model: null until a model is loaded or trained. */
    var model: Option<TrainedModel>
    const db: Database
    const file: ModelFile

    /** The constructor loads the saved model when there is one. */
    constructor (db: Database, file: ModelFile)
      ensures this.db == db && this.file == file
      ensures model == file.stored
    {
      this.db := db;
      this.file := file;
      model := file.stored;
    }

    /** TrainModelAsync. `fit` is what Fit produced (None when it threw);
        `saveSucceeds` whether writing the file worked. Fewer than ten
        favourites, or a failed fit, change nothing; a failed save keeps the
        new model in memory only and still answers false. */
    method Train(fit: Option<TrainedModel>, saveSucceeds: bool) returns (ok: bool)
      modifies this`model, file`stored
      ensures ok <==> |db.favorites| >= MinTrainingFavorites && fit.Some? && saveSucceeds
      ensures model == if |db.favorites| >= MinTrainingFavorites && fit.Some? then fit else old(model)
      ensures file.stored == if ok then fit else old(file.stored)
    {
      if |db.favorites| < MinTrainingFavorites {
        return false;
      }
      if fit.None? {
        return false;
      }
      model := fit;
      if !saveSucceeds {
        return false;
      }
      file.stored := fit;
      return true;
    }

    /** GetRecommendationsAsync, with the foreach that scores every candidate. */
    method Recommend(userId: Id, count: int) returns (r: Result<seq<Recommendation>, QueryError>)
      ensures r == RecommendSpec(model, db.users, db.shows, db.favorites, userId, count)
    {
      if !UserExists(db.users, userId) {
        return Ok([]);
      }
      var excluded := FavoriteShowIds(db.favorites, userId);
      if model.None? {
        return Fallback(db.shows, db.favorites, userId, count);
      }
      var predictor := model.value;
      var candidates := Candidates(db.shows, excluded);
      if candidates == [] {
        return Ok([]);
      }
      var scored: seq<Scored> := [];
      var i := 0;
      while i < |candidates|
        invariant 0 <= i <= |candidates|
        invariant |scored| == i
        invariant forall k :: 0 <= k < i ==> scored[k] == ScoreCandidate(predictor, userId, candidates[k])
      {
        var show := candidates[i];
        var score: real;
        match predictor.predict(userId, show.id) {
          case Threw =>
            score := FallbackScore(show);
          case Predicted(f) =>
            score := CombinedScore(SanitizedModelScore(f), show);
        }
        scored := scored + [Scored(show, score)];
        i := i + 1;
      }
      assert scored == ScoreAll(predictor, userId, candidates);
      var top := Rank(scored, count);
      return Ok(Present(top, FavoriteGenreIds(db.favorites, db.shows, userId)));
    }

    /** One user's turn: RemoveRange of the old rows, then one Add per
        recommendation. */
    method ReplaceRows(userId: Id, recs: seq<Recommendation>, now: Instant)
      modifies db`recommendations
      ensures db.recommendations == Refresh(old(db.recommendations), Ok(recs), userId, now)
    {
      var rows := Without(db.recommendations, userId);
      ghost var kept := rows;
      var k := 0;
      while k < |recs|
        invariant 0 <= k <= |recs|
        invariant rows == kept + Rows(userId, recs[..k], now)
      {
        var rec := recs[k];
        RowsSnoc(userId, recs, k, now);
        rows := rows + [RecommendationRow(userId, rec.id, rec.score, rec.reason, false, now)];
        k := k + 1;
      }
      assert recs[..k] == recs;
      db.recommendations := rows;
    }

    /** GenerateRecommendationsForAllUsersAsync: for every visible user in
        turn, replace the stored rows with ten fresh recommendations. */
    method MaterializeAll(now: Instant)
      modifies db`recommendations
      ensures db.recommendations
        == Materialize(old(db.recommendations), model, db.users, db.shows, db.favorites, VisibleUserIds(db.users), now)
    {
      var ids := VisibleUserIds(db.users);
      var i := 0;
      while i < |ids|
        invariant 0 <= i <= |ids|
        invariant db.recommendations
          == Materialize(old(db.recommendations), model, db.users, db.shows, db.favorites, ids[..i], now)
      {
        var userId := ids[i];
        MaterializeStep(old(db.recommendations), model, db.users, db.shows, db.favorites, ids, i, now);
        var outcome := Recommend(userId, StoredCount);
        if outcome.Ok? {
          ReplaceRows(userId, outcome.value, now);
        }
        i := i + 1;
      }
      assert ids[..i] == ids;
    }
  }

  /** A model whose save fails answers false and stays only in the service
      instance that trained it. The service is scoped, so every instance
      created afterwards (each request or job scope) loads the same file,
      finds no model, and falls back to content-based recommendations. */
  method SaveFailureIsForgotten(m: TrainedModel, favorites: seq<Favorite>)
    returns (ok: bool, inMemory: Option<TrainedModel>, laterInstance: Option<TrainedModel>)
    requires |favorites| >= MinTrainingFavorites
    ensures !ok && inMemory == Some(m) && laterInstance == None
  {
    var db := new Database([], [], favorites, [], []);
    var file := new ModelFile(None);
    var service := new RecommendationService(db, file);
    ok := service.Train(Some(m), false);
    inMemory := service.model;
    var later := new RecommendationService(db, file);
    laterInstance := later.model;
  }
}

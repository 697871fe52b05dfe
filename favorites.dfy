/** FavoriteService: adding, removing, listing and testing a user's favourite
    shows. The FavoriteTvShows table is Database.favorites, keyed by
    (userId, showId). */
module Favorites {
  import opened Wrappers
  import opened Sequences
  import opened Ordering
  import opened Paging
  import opened Entities

  datatype FavoriteError = ShowNotFound

  /** IsFavoriteAsync: some row pairs the user with the show. */
  predicate IsFavorite(favorites: seq<Favorite>, userId: Id, showId: Id) {
    exists f :: f in favorites && f.userId == userId && f.showId == showId
  }

  /** The composite primary key: no two rows share (userId, showId). */
  ghost predicate KeyUnique(favorites: seq<Favorite>) {
    forall i, j :: 0 <= i < j < |favorites| ==>
      favorites[i].userId != favorites[j].userId || favorites[i].showId != favorites[j].showId
  }

  /** The table after a successful AddFavoriteAsync: unchanged when the pair
      is already there, else one row stamped with the current instant. */
  function Added(favorites: seq<Favorite>, userId: Id, showId: Id, now: Instant): (r: seq<Favorite>)
    ensures IsFavorite(r, userId, showId)
    ensures forall u, s :: IsFavorite(r, u, s) <==> IsFavorite(favorites, u, s) || (u == userId && s == showId)
    ensures favorites <= r && |r| <= |favorites| + 1
  {
    if IsFavorite(favorites, userId, showId) then favorites
    else
      var r := favorites + [Favorite(userId, showId, now)];
      assert r[|favorites|] in r;
      r
  }

  /** The table after RemoveFavoriteAsync: the first row of the pair, if any, is gone. */
  function Removed(favorites: seq<Favorite>, userId: Id, showId: Id): (r: seq<Favorite>)
    ensures !IsFavorite(favorites, userId, showId) ==> r == favorites
    ensures IsFavorite(favorites, userId, showId) ==> |r| == |favorites| - 1
    ensures multiset(r) <= multiset(favorites)
  {
    if favorites == [] then []
    else
      assert favorites == [favorites[0]] + favorites[1..];
      if favorites[0].userId == userId && favorites[0].showId == showId then favorites[1..]
      else
      assert IsFavorite(favorites[1..], userId, showId) <==> IsFavorite(favorites, userId, showId);
      [favorites[0]] + Removed(favorites[1..], userId, showId)
  }

  /** AddFavoriteAsync. */
  method AddFavorite(db: Database, userId: Id, showId: Id, now: Instant) returns (r: Result<(), FavoriteError>)
    modifies db`favorites
    ensures r.Err? <==> !ShowExists(db.shows, showId)
    ensures r.Err? ==> r.error == ShowNotFound
    ensures db.favorites == if r.Err? then old(db.favorites) else Added(old(db.favorites), userId, showId, now)
  {
    if !ShowExists(db.shows, showId) {
      return Err(ShowNotFound);
    }
    if IsFavorite(db.favorites, userId, showId) {
      return Ok(());
    }
    db.favorites := db.favorites + [Favorite(userId, showId, now)];
    r := Ok(());
  }

  /** RemoveFavoriteAsync. */
  method RemoveFavorite(db: Database, userId: Id, showId: Id)
    modifies db`favorites
    ensures db.favorites == Removed(old(db.favorites), userId, showId)
  {
    var i := 0;
    while i < |db.favorites| && !(db.favorites[i].userId == userId && db.favorites[i].showId == showId)
      invariant 0 <= i <= |db.favorites|
      invariant forall k :: 0 <= k < i ==> !(db.favorites[k].userId == userId && db.favorites[k].showId == showId)
    {
      i := i + 1;
    }
    RemovedAt(db.favorites, userId, showId, i);
    if i < |db.favorites| {
      db.favorites := db.favorites[..i] + db.favorites[i + 1..];
    }
  }

  /** Removing the pair deletes the first row that holds it. */
  lemma {:induction false} RemovedAt(favorites: seq<Favorite>, userId: Id, showId: Id, i: nat)
    requires i <= |favorites|
    requires forall k :: 0 <= k < i ==> !(favorites[k].userId == userId && favorites[k].showId == showId)
    requires i < |favorites| ==> favorites[i].userId == userId && favorites[i].showId == showId
    ensures Removed(favorites, userId, showId) ==
      if i < |favorites| then favorites[..i] + favorites[i + 1..] else favorites
  {
    if i < |favorites| && i > 0 {
      RemovedAt(favorites[1..], userId, showId, i - 1);
      assert favorites[1..][..i - 1] + favorites[1..][i..] == favorites[1..i] + favorites[i + 1..];
      assert favorites[..i] == [favorites[0]] + favorites[1..i];
    }
  }

  /** Adding twice is adding once: the second add finds the pair. */
  lemma AddIsIdempotent(favorites: seq<Favorite>, userId: Id, showId: Id, first: Instant, second: Instant)
    ensures Added(Added(favorites, userId, showId, first), userId, showId, second)
         == Added(favorites, userId, showId, first)
  {
  }

  /** Adding keeps the primary key unique. */
  lemma AddKeepsKeyUnique(favorites: seq<Favorite>, userId: Id, showId: Id, now: Instant)
    requires KeyUnique(favorites)
    ensures KeyUnique(Added(favorites, userId, showId, now))
  {
    if !IsFavorite(favorites, userId, showId) {
      var r := Added(favorites, userId, showId, now);
      forall i, j | 0 <= i < j < |r| ensures r[i].userId != r[j].userId || r[i].showId != r[j].showId {
        if j == |favorites| {
          assert r[i] in favorites;
        }
      }
    }
  }

  /** The key is unique in a table exactly when it is unique in its tail
      and the head's pair does not occur there. */
  lemma KeyUniqueCons(head: Favorite, tail: seq<Favorite>)
    ensures KeyUnique([head] + tail) <==> KeyUnique(tail) && !IsFavorite(tail, head.userId, head.showId)
  {
    var all := [head] + tail;
    if KeyUnique(all) {
      forall i, j | 0 <= i < j < |tail| ensures tail[i].userId != tail[j].userId || tail[i].showId != tail[j].showId {
        assert tail[i] == all[i + 1] && tail[j] == all[j + 1];
      }
      forall f | f in tail ensures f.userId != head.userId || f.showId != head.showId {
        var k :| 0 <= k < |tail| && tail[k] == f;
        assert all[0] == head && all[k + 1] == f;
      }
    }
    if KeyUnique(tail) && !IsFavorite(tail, head.userId, head.showId) {
      forall i, j | 0 <= i < j < |all| ensures all[i].userId != all[j].userId || all[i].showId != all[j].showId {
        if i == 0 {
          assert all[j] in tail;
        } else {
          assert all[i] == tail[i - 1] && all[j] == tail[j - 1];
        }
      }
    }
  }

  /** Removing keeps the primary key unique. */
  lemma {:induction false} RemoveKeepsKeyUnique(favorites: seq<Favorite>, userId: Id, showId: Id)
    requires KeyUnique(favorites)
    ensures KeyUnique(Removed(favorites, userId, showId))
  {
    if favorites != [] {
      var head, tail := favorites[0], favorites[1..];
      assert favorites == [head] + tail;
      KeyUniqueCons(head, tail);
      if !(head.userId == userId && head.showId == showId) {
        RemoveKeepsKeyUnique(tail, userId, showId);
        var rest := Removed(tail, userId, showId);
        assert Removed(favorites, userId, showId) == [head] + rest;
        forall f | f in rest ensures f in tail {
          assert f in multiset(rest);
        }
        KeyUniqueCons(head, rest);
      }
    }
  }

  /** Under a unique key, removing takes away exactly the one pair. */
  lemma {:induction false} RemoveDeletesExactlyThePair(favorites: seq<Favorite>, userId: Id, showId: Id, u: Id, s: Id)
    requires KeyUnique(favorites)
    ensures IsFavorite(Removed(favorites, userId, showId), u, s)
        <==> IsFavorite(favorites, u, s) && !(u == userId && s == showId)
  {
    if favorites != [] {
      var head, tail := favorites[0], favorites[1..];
      assert favorites == [head] + tail;
      KeyUniqueCons(head, tail);
      var r := Removed(favorites, userId, showId);
      assert IsFavorite(favorites, u, s) <==> (head.userId == u && head.showId == s) || IsFavorite(tail, u, s) by {
        if IsFavorite(favorites, u, s) {
          var f :| f in favorites && f.userId == u && f.showId == s;
          if f != head { assert f in tail; }
        }
      }
      if !(head.userId == userId && head.showId == showId) {
        RemoveDeletesExactlyThePair(tail, userId, showId, u, s);
        var rest := Removed(tail, userId, showId);
        assert r == [head] + rest;
        assert IsFavorite(r, u, s) <==> (head.userId == u && head.showId == s) || IsFavorite(rest, u, s) by {
          if IsFavorite(r, u, s) {
            var f :| f in r && f.userId == u && f.showId == s;
            if f != head { assert f in rest; }
          }
        }
      }
    }
  }

  /** Under a unique key, removing twice is removing once. */
  lemma RemoveIsIdempotent(favorites: seq<Favorite>, userId: Id, showId: Id)
    requires KeyUnique(favorites)
    ensures Removed(Removed(favorites, userId, showId), userId, showId) == Removed(favorites, userId, showId)
  {
    RemoveDeletesExactlyThePair(favorites, userId, showId, userId, showId);
  }

  /** The user's favourite rows, in table order. CountAsync ignores the
      Include of f.TvShow and FavoriteTvShow has no query filter, so these
      rows include those whose show is soft-deleted. */
  function UserRows(favorites: seq<Favorite>, userId: Id): (r: seq<Favorite>)
    ensures forall f :: f in r <==> f in favorites && f.userId == userId
    ensures multiset(r) <= multiset(favorites)
  {
    Where(favorites, (f: Favorite) => f.userId == userId)
  }

  function AddedAtKey(f: Favorite): Key {
    [f.addedAt as real]
  }

  /** OrderByDescending(AddedAt) over the user's rows. */
  function NewestFirst(favorites: seq<Favorite>, userId: Id): (r: seq<Favorite>)
    ensures multiset(r) == multiset(UserRows(favorites, userId))
    ensures Ordered(r, AddedAtKey, true)
  {
    SortByOrdered(UserRows(favorites, userId), AddedAtKey, true);
    SortBy(UserRows(favorites, userId), AddedAtKey, true)
  }

  /** Select(f => f.TvShow) after Skip/Take: the required navigation is an
      inner join to the soft-delete-filtered TvShows, so a row whose show is
      hidden yields nothing. The shows come in the rows' order. */
  function JoinShows(rows: seq<Favorite>, shows: seq<Show>): (r: seq<Show>)
    ensures Select(r, (s: Show) => s.id)
         == Select(Where(rows, (f: Favorite) => ShowExists(shows, f.showId)), (f: Favorite) => f.showId)
    ensures forall s :: s in r ==> s in shows
  {
    if rows == [] then []
    else
      var rest := JoinShows(rows[1..], shows);
      match FindShow(shows, rows[0].showId)
      case Some(show) => [show] + rest
      case None => rest
  }

  /** A row whose show is visible always yields that show; the join drops
      rows only for hidden shows. */
  lemma {:induction false} JoinShowsLength(rows: seq<Favorite>, shows: seq<Show>)
    ensures |JoinShows(rows, shows)| <= |rows|
    ensures (forall i :: 0 <= i < |rows| ==> ShowExists(shows, rows[i].showId)) ==> |JoinShows(rows, shows)| == |rows|
  {
    var kept := Where(rows, (f: Favorite) => ShowExists(shows, f.showId));
    assert |Select(JoinShows(rows, shows), (s: Show) => s.id)| == |Select(kept, (f: Favorite) => f.showId)|;
    if forall i :: 0 <= i < |rows| ==> ShowExists(shows, rows[i].showId) {
      WhereAll(rows, (f: Favorite) => ShowExists(shows, f.showId));
    }
  }

  /** GetUserFavoritesAsync: the count of all the user's rows, and one page
      of those rows, newest first, joined with their visible shows, every
      item flagged as a favourite. */
  function UserFavorites(favorites: seq<Favorite>, shows: seq<Show>, userId: Id, pageNumber: int, pageSize: int)
    : (r: Result<Paginated<ShowListItem>, QueryError>)
    requires pageSize != 0
    ensures r.Ok? <==> PageOffset(pageNumber, pageSize) >= 0 && pageSize > 0
    ensures r.Ok? ==> r.value.totalCount == |UserRows(favorites, userId)|
    ensures r.Ok? ==> r.value.pageNumber == pageNumber && r.value.pageSize == pageSize
    ensures r.Ok? ==> r.value.items == Select(JoinShows(Page(NewestFirst(favorites, userId), pageNumber, pageSize).value, shows),
                                               (s: Show) => ListItem(s, true))
  {
    var rows := NewestFirst(favorites, userId);
    match Page(rows, pageNumber, pageSize)
    case Err(e) => Err(e)
    case Ok(page) =>
      assert |rows| == |UserRows(favorites, userId)|;
      Ok(Create(Select(JoinShows(page, shows), (s: Show) => ListItem(s, true)), |rows|, pageNumber, pageSize))
  }

  /** The shows a page of the user's rows joins to are favourites of the user. */
  lemma {:induction false} JoinedAreFavorites(rows: seq<Favorite>, shows: seq<Show>, favorites: seq<Favorite>, userId: Id)
    requires forall f :: f in rows ==> f in favorites && f.userId == userId
    ensures forall s :: s in JoinShows(rows, shows) ==> IsFavorite(favorites, userId, s.id)
  {
    if rows != [] {
      assert forall f :: f in rows[1..] ==> f in rows;
      JoinedAreFavorites(rows[1..], shows, favorites, userId);
      assert rows[0] in rows;
      match FindShow(shows, rows[0].showId)
      case Some(show) =>
        assert IsFavorite(favorites, userId, show.id);
      case None =>
    }
  }

  /** The items a page of the user's rows lists are visible favourites of
      the user; there are no more of them than rows, and as many when every
      row's show is visible. */
  lemma JoinedItems(page: seq<Favorite>, shows: seq<Show>, favorites: seq<Favorite>, userId: Id)
    requires forall f :: f in page ==> f in favorites && f.userId == userId
    ensures var items := Select(JoinShows(page, shows), (s: Show) => ListItem(s, true));
      && (forall item :: item in items ==> item.isFavorite && IsFavorite(favorites, userId, item.id) && ShowExists(shows, item.id))
      && |items| <= |page|
      && ((forall f :: f in favorites && f.userId == userId ==> ShowExists(shows, f.showId)) ==> |items| == |page|)
  {
    var joined := JoinShows(page, shows);
    var items := Select(joined, (s: Show) => ListItem(s, true));
    JoinShowsLength(page, shows);
    JoinedAreFavorites(page, shows, favorites, userId);
    forall item | item in items ensures item.isFavorite && IsFavorite(favorites, userId, item.id) && ShowExists(shows, item.id) {
      var k :| 0 <= k < |items| && items[k] == item;
      assert joined[k] in joined;
      var i :| 0 <= i < |shows| && shows[i] == joined[k];
    }
    if forall f :: f in favorites && f.userId == userId ==> ShowExists(shows, f.showId) {
      forall i | 0 <= i < |page| ensures ShowExists(shows, page[i].showId) {
        assert page[i] in page;
      }
    }
  }

  /** Every listed item is a visible favourite of the user, flagged as such;
      the page's rows are newest first; a page holds at most pageSize items,
      and exactly as many as its rows unless one of their shows is hidden. */
  lemma {:induction false} UserFavoritesAreTheUsers(favorites: seq<Favorite>, shows: seq<Show>, userId: Id, pageNumber: int, pageSize: int)
    requires pageNumber >= 1 && pageSize >= 1
    ensures var r := UserFavorites(favorites, shows, userId, pageNumber, pageSize);
      && r.Ok?
      && (forall item :: item in r.value.items ==> item.isFavorite && IsFavorite(favorites, userId, item.id) && ShowExists(shows, item.id))
      && |r.value.items| <= pageSize
    ensures Ordered(Page(NewestFirst(favorites, userId), pageNumber, pageSize).value, AddedAtKey, true)
    ensures (forall f :: f in favorites && f.userId == userId ==> ShowExists(shows, f.showId)) ==>
      |UserFavorites(favorites, shows, userId, pageNumber, pageSize).value.items|
        == |Page(NewestFirst(favorites, userId), pageNumber, pageSize).value|
  {
    var rows := NewestFirst(favorites, userId);
    PageAccepted(rows, pageNumber, pageSize);
    assert rows == SortBy(UserRows(favorites, userId), AddedAtKey, true);
    SortedPage(UserRows(favorites, userId), AddedAtKey, true, pageNumber, pageSize);
    var page := Page(rows, pageNumber, pageSize).value;
    JoinedItems(page, shows, favorites, userId);
  }

  /** The worked case's last two rows are already newest first. */
  lemma CaseTailSorted()
    ensures SortBy([Favorite(9, 2, 2), Favorite(9, 3, 1)], AddedAtKey, true) == [Favorite(9, 2, 2), Favorite(9, 3, 1)]
  {
    var fb, fc := Favorite(9, 2, 2), Favorite(9, 3, 1);
    assert [fc][1..] == [];
    assert SortBy([fc], AddedAtKey, true) == [fc];
    assert [fb, fc][1..] == [fc];
    OneColumn(1.0, 2.0);
    assert Before(AddedAtKey(fb), AddedAtKey(fc), true);
  }

  /** The worked case's rows are already newest first. */
  lemma CaseNewestFirst()
    ensures NewestFirst([Favorite(9, 1, 3), Favorite(9, 2, 2), Favorite(9, 3, 1)], 9)
         == [Favorite(9, 1, 3), Favorite(9, 2, 2), Favorite(9, 3, 1)]
  {
    var fa, fb, fc := Favorite(9, 1, 3), Favorite(9, 2, 2), Favorite(9, 3, 1);
    var rows := [fa, fb, fc];
    WhereAll(rows, (f: Favorite) => f.userId == 9);
    assert UserRows(rows, 9) == rows;
    CaseTailSorted();
    assert rows[1..] == [fb, fc];
    OneColumn(2.0, 3.0);
    assert Before(AddedAtKey(fa), AddedAtKey(fb), true);
    assert SortBy(rows, AddedAtKey, true) == Insert(fa, [fb, fc], AddedAtKey, true);
  }

  /** The worked case's pages of two rows, and the shows they join to. */
  lemma CaseJoins(a: Show, c: Show)
    requires a.id == 1 && c.id == 3
    ensures var rows := [Favorite(9, 1, 3), Favorite(9, 2, 2), Favorite(9, 3, 1)];
      && Page(rows, 1, 2) == Ok(rows[..2]) && Page(rows, 2, 2) == Ok(rows[2..])
      && JoinShows(rows[..2], [a, c]) == [a]
      && JoinShows(rows[2..], [a, c]) == [c]
  {
    var fa, fb, fc := Favorite(9, 1, 3), Favorite(9, 2, 2), Favorite(9, 3, 1);
    var rows := [fa, fb, fc];
    var shows := [a, c];
    assert rows[..2] == [fa, fb] && rows[2..] == [fc];
    assert PageOffset(2, 2) == 2 && Min(2, 3) == 2 && Min(4, 3) == 3;
    assert rows[2..3] == rows[2..];
    assert shows[1..] == [c] && [c][1..] == [];
    assert FindShow(shows, 1) == Some(a);
    assert FindShow(shows, 2) == None;
    assert FindShow(shows, 3) == Some(c);
    assert [fa, fb][1..] == [fb] && [fb][1..] == [] && [fc][1..] == [];
    assert JoinShows([fb], shows) == [];
    assert JoinShows([fc], shows) == [c];
  }

  /** An accepted page, as the paginated response it builds. */
  lemma UserFavoritesPage(favorites: seq<Favorite>, shows: seq<Show>, userId: Id, pageNumber: int, pageSize: int)
    requires pageNumber >= 1 && pageSize >= 1
    ensures UserFavorites(favorites, shows, userId, pageNumber, pageSize)
         == Ok(Create(Select(JoinShows(Page(NewestFirst(favorites, userId), pageNumber, pageSize).value, shows),
                             (s: Show) => ListItem(s, true)),
                      |UserRows(favorites, userId)|, pageNumber, pageSize))
  {
    PageAccepted(NewestFirst(favorites, userId), pageNumber, pageSize);
  }

  /** A hidden show leaves a gap: with favourites A (newest), B and C where
      B's show is soft-deleted, the count is three, the first page of two
      holds A alone, and the second page holds C. */
  lemma HiddenShowLeavesAGap(a: Show, c: Show)
    requires a.id == 1 && c.id == 3
    ensures var favorites := [Favorite(9, 1, 3), Favorite(9, 2, 2), Favorite(9, 3, 1)];
      && UserFavorites(favorites, [a, c], 9, 1, 2)
           == Ok(Create([ListItem(a, true)], 3, 1, 2))
      && UserFavorites(favorites, [a, c], 9, 2, 2)
           == Ok(Create([ListItem(c, true)], 3, 2, 2))
  {
    var favorites := [Favorite(9, 1, 3), Favorite(9, 2, 2), Favorite(9, 3, 1)];
    CaseNewestFirst();
    CaseJoins(a, c);
    assert |UserRows(favorites, 9)| == 3;
    UserFavoritesPage(favorites, [a, c], 9, 1, 2);
    UserFavoritesPage(favorites, [a, c], 9, 2, 2);
    assert Select([a], (s: Show) => ListItem(s, true)) == [ListItem(a, true)];
    assert Select([c], (s: Show) => ListItem(s, true)) == [ListItem(c, true)];
  }
}

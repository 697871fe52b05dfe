# TvShowTracker core, modelled in Dafny

This project models the service layer of TvShowTracker, a TV-show catalogue with user
accounts, favourites and recommendations. It covers these parts:

- **Catalogue** (TvShowService, ActorService): paged listing of shows and of actors, with
  filters, sort switches, title and name search, a show's episodes, its featured cast,
  an actor's credits, and the cached detail lookups.
- **Favourites** (FavoriteService): adding, removing, listing and testing favourites.
- **Accounts** (AuthService, RefreshToken):
  - registration and login;
  - refresh-token rotation, revocation and pruning;
  - the token's `IsActive` rule.
- **Registration validation**, on both sides: the server DTO's attributes (RegisterDto) and
  the sign-up form's schema (Register.tsx).
- **Recommendations** (MLRecommendationService): the trained-model path with its scoring,
  sanitising, ranking and display rounding; the content-based fallback; the reason text;
  training with its guard and model swap; and the batch job that rewrites each user's
  stored recommendations.
- **Paging** (PaginatedResponse): `Create`, `HasPreviousPage` and `HasNextPage`, plus the
  `Skip((page - 1) * size).Take(size)` window every listing uses.

How the model is built:

- **Entities are values; tables are state.** Entities are datatypes. The database context is
  a class, `Entities.Database`, whose table fields the state-changing services update in
  place:
  - favourites: `Favorites.AddFavorite` and `Favorites.RemoveFavorite`;
  - accounts: the methods in `Auth`;
  - recommendations: the methods of `MLRecommendation.RecommendationService`.
- **Queries are pure functions of the tables.** Every LINQ/SQL query is a function.
  `ORDER BY` is a stable insertion sort on lexicographic real-valued keys (`Ordering.SortBy`).
  `Skip`/`Take` are `Paging.Page`.
- **Methods are proved against specification functions.** Each method's postcondition ties
  its result and new state to a specification function. The source's promises are then
  proved as lemmas about those functions.
- **Outside inputs become parameters.** Everything the code obtains from outside is a
  parameter:
  - the current instant, as one `now` per request;
  - the token strings and password hashes;
  - BCrypt's verdict, as `verify`;
  - ML.NET's prediction for each (user, show) pair, as a `TrainedModel`;
  - the outcome of a training run.
- **Caches are maps.** Each distributed cache is a map from id to stored details. A lookup
  returns the map as it is afterwards.

Deliberate modelling choices:

- **PostgreSQL `NULL` ordering.** NULL sorts above every value: last ascending, first
  descending. This applies to a show's release date and a cast link's billing order.
- **Database tie order.** Where the database leaves the order of ties open, the model keeps
  table order. LINQ to Objects sorts are stable, so this matches them exactly.
- **Ordinal string order.** Titles and names sort by code points.
- **Genre links and deleted genres.** A show keeps the ids of all its genre links
  (`genreIds`), which the genre filters and favourite-genre sets test. It also keeps the
  links whose genre is not soft-deleted (`genres`), which supply the listed names and the
  reason text. The Genre navigation is required, so it is inner-joined and drops the others.
- **Favourites whose show is hidden.** `GetUserFavoritesAsync` counts and pages all of the
  user's rows. Only after paging does it join each row to its show, and a soft-deleted show
  yields nothing. So the count includes hidden shows, and a page can hold fewer items than
  its rows.
- **Featured cast and hidden actors.** `GetTvShowActorsAsync` takes the show's first twenty
  links in billing order. Only then is the Actor include inner-joined, and a soft-deleted
  actor yields nothing. So a hidden actor among the twenty shortens the list, and the links
  after the twentieth do not fill the gap.

Where a description of the system and the code disagree, the model follows the code:

- **Genre fallback.** When a user with favourite genres has no trained model, the fallback
  keeps only shows that share one of those genres. It does not rank other shows below them:
  `Recommendations.GenreFallbackDropsOtherGenres` proves a better-rated comedy is left out
  entirely.
- **Popularity fallback scores.** The popularity fallback reports the raw popularity as the
  score, which is not bounded by 100 as display scores are.

## Model

| member | source | states |
|---|---|---|
| RefreshTokens.IsActive | backend/TvShowTrackerAPI/Models/RefreshToken.cs:53 | a token is active exactly when it is not revoked and expires after now |
| RefreshTokens.Issue | backend/TvShowTrackerAPI/Models/RefreshToken.cs:27-48 | a new token carries the given user, value, expiry and creation instant, is not revoked and has no revocation instant or replacement |
| RefreshTokens.RevokedIsNeverActive | backend/TvShowTrackerAPI/Models/RefreshToken.cs:53 | a revoked token is never active |
| RefreshTokens.ExpiredIsNotActive | backend/TvShowTrackerAPI/Models/RefreshToken.cs:53 | a token whose expiry is not after now is not active |
| RefreshTokens.IssuedIsActiveUntilExpiry | backend/TvShowTrackerAPI/Models/RefreshToken.cs:38-53 | a newly issued token is active exactly while now is before its expiry |
| Paging.Paginated.HasPreviousPage | backend/TvShowTrackerAPI/DTOs/Common/PaginatedResponse.cs:47 | a previous page exists exactly when the page number is above 1 |
| Paging.Paginated.HasNextPage | backend/TvShowTrackerAPI/DTOs/Common/PaginatedResponse.cs:52 | a next page exists exactly when the page number is below the page count |
| Paging.TotalPages | backend/TvShowTrackerAPI/DTOs/Common/PaginatedResponse.cs:65 | the page count is the least number of pages of pageSize that holds totalCount items |
| Paging.Create | backend/TvShowTrackerAPI/DTOs/Common/PaginatedResponse.cs:57-67 | the response carries the items, count, page number and size given, and enough pages for the count and no more |
| Paging.HasNextPageIffMoreItems | backend/TvShowTrackerAPI/DTOs/Common/PaginatedResponse.cs:52-65 | HasNextPage holds exactly when items exist beyond the current page |
| Paging.EmptyHasNoNextPage | backend/TvShowTrackerAPI/DTOs/Common/PaginatedResponse.cs:52-65 | an empty result never has a next page |
| Paging.Offset | backend/TvShowTrackerAPI/Services/TvShowService.cs:73-76 | OFFSET/LIMIT: a negative offset or limit is an error, otherwise at most limit rows from the offset on |
| Paging.Limit | backend/TvShowTrackerAPI/Services/MLRecommendationService.cs:289-290 | LIMIT alone: a negative limit is an error, otherwise the first limit rows |
| Paging.Page | backend/TvShowTrackerAPI/Services/TvShowService.cs:73-76 | the window of page pageNumber is accepted exactly when its offset and size are non-negative, and holds at most pageSize rows |
| Paging.PageAccepted | backend/TvShowTrackerAPI/Services/TvShowService.cs:73-76 | every page from 1 on with a positive size is accepted |
| Paging.PagesUpToIsPrefix | backend/TvShowTrackerAPI/Services/TvShowService.cs:73-76 | the first k pages, concatenated, are the first k * pageSize rows |
| Paging.PagesCover | backend/TvShowTrackerAPI/DTOs/Common/PaginatedResponse.cs:65 | the pages 1 to TotalPages, concatenated, are the whole result |
| Paging.NonEmptyPagesAreCounted | backend/TvShowTrackerAPI/DTOs/Common/PaginatedResponse.cs:52-65 | a page is non-empty exactly when its number is at most TotalPages |
| Paging.Int32PageOffset | backend/TvShowTrackerAPI/Services/TvShowService.cs:74 | (pageNumber - 1) * pageSize in unchecked 32-bit arithmetic stays in the int range |
| Paging.Int32OffsetWrapsToAnEarlierPage | backend/TvShowTrackerAPI/Services/TvShowService.cs:74 | page 42949674 of size 100 wraps to offset 4 and returns rows 4 to 103 instead of an empty page |
| Paging.Int32OffsetAgreesWhenInRange | backend/TvShowTrackerAPI/Services/TvShowService.cs:74 | when the offset fits in an int the 32-bit computation agrees with the exact one |
| Paging.SortedPage | backend/TvShowTrackerAPI/Services/TvShowService.cs:52-76 | a page of a sorted query is in key order and holds only queried rows |
| Ordering.SortBy | backend/TvShowTrackerAPI/Services/TvShowService.cs:52-67 | ORDER BY returns a permutation of its input |
| Ordering.SortByOrdered | backend/TvShowTrackerAPI/Services/TvShowService.cs:52-67 | ORDER BY returns its input in key order, ascending or descending |
| Ordering.SortByStable | backend/TvShowTrackerAPI/Services/MLRecommendationService.cs:117-120 | rows with equal keys keep their input order (LINQ's stable sort) |
| Ordering.SortProjected | backend/TvShowTrackerAPI/Services/ActorService.cs:116-125 | projecting then sorting by the projected key equals sorting by the key then projecting |
| Ordering.PrefixKeepsTheBest | backend/TvShowTrackerAPI/Services/MLRecommendationService.cs:289-312 | the first n of a sorted sequence keep the best: nothing left out sorts ahead of a kept element |
| Text.Lower | backend/TvShowTrackerAPI/Services/TvShowService.cs:230 | ToLower keeps the length and lower-cases letter by letter |
| Text.LowerIdempotent | backend/TvShowTrackerAPI/Services/AuthService.cs:36-44 | lower-casing twice is lower-casing once |
| Text.ContainsIffOccurs | backend/TvShowTrackerAPI/Services/TvShowService.cs:230 | Contains holds exactly when the substring occurs at some position |
| Text.LowerKeepsOccurrence | backend/TvShowTrackerAPI/Services/TvShowService.cs:230 | an occurrence survives lower-casing both strings |
| Text.CodePoints | backend/TvShowTrackerAPI/Services/TvShowService.cs:54-55 | a title's sort key is its characters' code points, one per character |
| Text.Join | backend/TvShowTrackerAPI/Services/MLRecommendationService.cs:325 | string.Join of one part is the part, of two parts the parts around the separator |
| Entities.TypeName | backend/TvShowTrackerAPI/Services/MLRecommendationService.cs:345 | every show type has a non-empty name |
| Entities.GenreNames | backend/TvShowTrackerAPI/Services/TvShowService.cs:96 | the genre names, one per genre link, in link order |
| Entities.FindShow | backend/TvShowTrackerAPI/Services/TvShowService.cs:114-120 | FirstOrDefault by id: found exactly when a show has the id, and then a show of the table with that id |
| Entities.FindActor | backend/TvShowTrackerAPI/Services/ActorService.cs:97-105 | FirstOrDefault by id: found exactly when an actor has the id, and then an actor of the table with that id |
| Entities.VisibleUsers | backend/TvShowTrackerAPI/Services/MLRecommendationService.cs:227-230 | the users the global query filter lets through are exactly the non-deleted ones |
| Favorites.Added | backend/TvShowTrackerAPI/Services/FavoriteService.cs:33-49 | after adding, the pair is a favourite and the favourite relation gains only that pair; existing rows are kept |
| Favorites.Removed | backend/TvShowTrackerAPI/Services/FavoriteService.cs:59-68 | removing a missing pair changes nothing; removing a present one deletes exactly one row |
| Favorites.AddFavorite | backend/TvShowTrackerAPI/Services/FavoriteService.cs:26-52 | an unknown show is refused with ShowNotFound and the table is unchanged; otherwise the table becomes Added |
| Favorites.RemoveFavorite | backend/TvShowTrackerAPI/Services/FavoriteService.cs:57-69 | the table becomes Removed |
| Favorites.RemovedAt | backend/TvShowTrackerAPI/Services/FavoriteService.cs:59-68 | Removed deletes the first row holding the pair and keeps the rest in order |
| Favorites.AddIsIdempotent | backend/TvShowTrackerAPI/Services/FavoriteService.cs:34-39 | adding an existing favourite again changes nothing |
| Favorites.AddKeepsKeyUnique | backend/TvShowTrackerAPI/Services/FavoriteService.cs:34-49 | adding keeps (userId, showId) a key |
| Favorites.RemoveKeepsKeyUnique | backend/TvShowTrackerAPI/Services/FavoriteService.cs:59-68 | removing keeps (userId, showId) a key |
| Favorites.RemoveDeletesExactlyThePair | backend/TvShowTrackerAPI/Services/FavoriteService.cs:59-68 | after removal a pair is a favourite exactly when it was before and is not the removed pair |
| Favorites.RemoveIsIdempotent | backend/TvShowTrackerAPI/Services/FavoriteService.cs:62-63 | removing twice is removing once |
| Favorites.IsFavorite | backend/TvShowTrackerAPI/Services/FavoriteService.cs:111-115 | a pair is a favourite exactly when some row holds that user and that show |
| Favorites.UserRows | backend/TvShowTrackerAPI/Services/FavoriteService.cs:79-86 | exactly the user's rows, from the table, whether or not their show is visible: these are what the total count counts |
| Favorites.NewestFirst | backend/TvShowTrackerAPI/Services/FavoriteService.cs:79-84 | the user's rows reordered newest AddedAt first, none gained or lost |
| Favorites.JoinShows | backend/TvShowTrackerAPI/Services/FavoriteService.cs:88-92 | the shows of a page of rows, in row order: the ids are those of the rows whose show is visible, and every show is a visible one |
| Favorites.JoinShowsLength | backend/TvShowTrackerAPI/Services/FavoriteService.cs:88-92 | the join never lengthens the page, and keeps its length when every row's show is visible |
| Favorites.UserFavorites | backend/TvShowTrackerAPI/Services/FavoriteService.cs:74-106 | the count of all the user's rows; one page of those rows newest first, then joined with their visible shows, every item flagged as a favourite; bad offsets are errors |
| Favorites.JoinedAreFavorites | backend/TvShowTrackerAPI/Services/FavoriteService.cs:88-92 | every show a page of the user's rows joins to is a favourite of the user |
| Favorites.JoinedItems | backend/TvShowTrackerAPI/Services/FavoriteService.cs:88-104 | the items of a joined page are visible favourites of the user, flagged as such, no more than the page's rows, and as many when all their shows are visible |
| Favorites.UserFavoritesAreTheUsers | backend/TvShowTrackerAPI/Services/FavoriteService.cs:74-106 | every listed item is a favourite of that user and a visible show; the page's rows are newest first; a page holds at most pageSize items, and as many as its rows when none of the user's shows is hidden |
| Favorites.HiddenShowLeavesAGap | backend/TvShowTrackerAPI/Services/FavoriteService.cs:79-92 | favourites A, B and C, newest first, with B's show hidden: the count is 3, page 1 of size 2 holds only A and page 2 holds C |
| Registration.IndexOf | backend/TvShowTrackerAPI/DTOs/Auth/RegisterDto.cs:14 | the first position of a character, or -1 exactly when it is absent |
| Registration.LastIndexOf | backend/TvShowTrackerAPI/DTOs/Auth/RegisterDto.cs:14 | the last position of a character, or -1 exactly when it is absent |
| Registration.ServerErrors | backend/TvShowTrackerAPI/DTOs/Auth/RegisterDto.cs:13-32 | an email error is reported only when the email is missing, blank, not one inner '@', or over 255 characters |
| Registration.ServerAcceptsIff | backend/TvShowTrackerAPI/DTOs/Auth/RegisterDto.cs:13-32 | the server accepts exactly a non-blank email with one inner '@' and at most 255 characters, a password of at least eight characters without a line feed that has an ASCII lower- and upper-case letter, and consent |
| Registration.PatternPasswordIsNotBlank | backend/TvShowTrackerAPI/DTOs/Auth/RegisterDto.cs:21-24 | a password the pattern can accept always passes [Required] |
| Registration.PasswordIssues | frontend/src/pages/public/Register.tsx:25-30 | the password has no issue exactly when it has at least eight characters, an upper-case letter, a lower-case letter and a digit |
| Registration.ClientIssues | frontend/src/pages/public/Register.tsx:22-39 | each reported issue names a field that really fails its rule |
| Registration.ClientAcceptsIff | frontend/src/pages/public/Register.tsx:22-39 | the form is accepted exactly when the email passes, the password rules hold, consent is given and the confirmation matches |
| Registration.MismatchIsReportedOnConfirm | frontend/src/pages/public/Register.tsx:36-39 | a mismatch is reported on confirmPassword with its message, and never on the password field when that is valid |
| Registration.ClientPasswordPassesServer | frontend/src/pages/public/Register.tsx:25-30 | a password the form accepts and that holds no line feed satisfies every server password attribute |
| Registration.LineFeedPasswordSplitsClientAndServer | backend/TvShowTrackerAPI/DTOs/Auth/RegisterDto.cs:23-24 | "Abcdefg1" plus a line feed passes the form and fails the server's pattern |
| Registration.ServerPasswordWithoutDigit | backend/TvShowTrackerAPI/DTOs/Auth/RegisterDto.cs:21-25 | the server accepts "abcdefgH", which the form refuses for lacking a digit |
| Auth.FindTokenWithUser | backend/TvShowTrackerAPI/Services/AuthService.cs:96-98 | the first token with the value whose user is visible, or none when every such token's user is deleted or missing |
| Auth.Pruned | backend/TvShowTrackerAPI/Services/AuthService.cs:181-188 | exactly the tokens neither expired before now nor revoked remain |
| Auth.GenerateAuthResponse | backend/TvShowTrackerAPI/Services/AuthService.cs:197-227 | appends a seven-day refresh token for the user and answers with a one-hour access token and the user's data |
| Auth.Register | backend/TvShowTrackerAPI/Services/AuthService.cs:32-58 | the outcome and the new users and tokens tables are those of RegisterSpec |
| Auth.Login | backend/TvShowTrackerAPI/Services/AuthService.cs:63-88 | the outcome and the new tables are those of LoginSpec |
| Auth.Refresh | backend/TvShowTrackerAPI/Services/AuthService.cs:93-152 | the outcome and the new tokens table are those of RefreshSpec |
| Auth.Revoke | backend/TvShowTrackerAPI/Services/AuthService.cs:157-174 | the outcome and the new tokens table are those of RevokeSpec |
| Auth.PruneExpiredTokens | backend/TvShowTrackerAPI/Services/AuthService.cs:179-192 | the tokens table becomes Pruned |
| Auth.NothingToPrune | backend/TvShowTrackerAPI/Services/AuthService.cs:185-191 | with nothing prunable the table stays as it is |
| Auth.RegisterTakenIff | backend/TvShowTrackerAPI/Services/AuthService.cs:35-39 | registration fails with EmailTaken exactly when a visible user has the email up to case |
| Auth.RegisterOpensSession | backend/TvShowTrackerAPI/Services/AuthService.cs:42-57 | a successful registration appends the user with the lower-cased email and consent date, and a token active for seven days and no longer |
| Auth.RegisteredEmailIsTaken | backend/TvShowTrackerAPI/Services/AuthService.cs:35-44 | registering the same email again in any letter case fails with EmailTaken |
| Auth.RegisterThenLogIn | backend/TvShowTrackerAPI/Services/AuthService.cs:32-88 | a newly registered user can log in with the email in any letter case and the right password |
| Auth.LoginOkIff | backend/TvShowTrackerAPI/Services/AuthService.cs:66-74 | login succeeds exactly when a visible user has the email up to case and the password verifies; failure changes nothing |
| Auth.DeletedUserCannotLogIn | backend/TvShowTrackerAPI/Services/AuthService.cs:66-78 | when every account with the email is deleted, login fails with InvalidCredentials and changes nothing |
| Auth.LoginRecordsInstant | backend/TvShowTrackerAPI/Services/AuthService.cs:80-87 | a login stamps LastLoginAt on that user alone, reports it, and appends an active session token |
| Auth.RefreshOutcome | backend/TvShowTrackerAPI/Services/AuthService.cs:96-114 | refresh fails with InvalidRefreshToken, TokenRevoked or TokenExpired exactly in those cases, and a failure changes nothing |
| Auth.DeletedUsersTokenIsInvalid | backend/TvShowTrackerAPI/Services/AuthService.cs:96-102 | a token whose user is deleted is refused as invalid |
| Auth.RefreshRotates | backend/TvShowTrackerAPI/Services/AuthService.cs:116-151 | the presented token is revoked now and points at its replacement; a new active token for the same user is appended; nothing else changes |
| Auth.RefreshReplayIsRejected | backend/TvShowTrackerAPI/Services/AuthService.cs:104-117 | presenting a redeemed token again fails with TokenRevoked and changes nothing |
| Auth.RevokedTokenCannotRefresh | backend/TvShowTrackerAPI/Services/AuthService.cs:157-174 | after logout, refreshing with the same token fails |
| Auth.RevokeIsIdempotent | backend/TvShowTrackerAPI/Services/AuthService.cs:165-166 | revoking again answers the same and changes nothing |
| Auth.PruneKeepsRefreshable | backend/TvShowTrackerAPI/Services/AuthService.cs:181-183 | pruning keeps every active token and keeps exactly the unrevoked tokens not expired before now |
| Auth.PruneIsIdempotent | backend/TvShowTrackerAPI/Services/AuthService.cs:179-192 | pruning twice is pruning once |
| Scoring.Clamp | backend/TvShowTrackerAPI/Services/MLRecommendationService.cs:99 | Math.Max(lo, Math.Min(x, hi)) on a finite value: the value inside the bounds, or the nearer bound |
| Scoring.SanitizedModelScore | backend/TvShowTrackerAPI/Services/MLRecommendationService.cs:93-99 | a NaN or infinite prediction scores 0, any other is clamped to [0, 10] |
| Scoring.CombinedScore | backend/TvShowTrackerAPI/Services/MLRecommendationService.cs:101-104 | 60% model score, 20% rating and 20% popularity over ten: within [0, 10] when its three inputs are in range, and never below the model's share for non-negative rating and popularity |
| Scoring.FallbackScore | backend/TvShowTrackerAPI/Services/MLRecommendationService.cs:111 | half rating, half popularity over ten: within [0, 10] when rating and popularity are in range, and equal to the rating when both parts agree |
| Scoring.CandidateScore | backend/TvShowTrackerAPI/Services/MLRecommendationService.cs:93-113 | a prediction that throws scores the fallback; any prediction leaves the combined score between 0 and 6 above the rating-and-popularity part |
| Scoring.CandidateScoreBounds | backend/TvShowTrackerAPI/Services/MLRecommendationService.cs:100-113 | for ratings in [0, 10] and popularity in [0, 100] both score formulas stay in [0, 10], and the model moves the combined score by at most 6 |
| Scoring.CombinedScoreMonotone | backend/TvShowTrackerAPI/Services/MLRecommendationService.cs:101-104 | a higher model score never lowers the combined score |
| Scoring.ClampFloat | backend/TvShowTrackerAPI/Services/MLRecommendationService.cs:131 | Math.Max(0f, Math.Min(x, 10f)) on a float keeps NaN and otherwise lands in the bounds |
| Scoring.RoundHalfEven | backend/TvShowTrackerAPI/Services/MLRecommendationService.cs:136 | Math.Round lands within one half of its argument |
| Scoring.RoundHalfEvenMonotone | backend/TvShowTrackerAPI/Services/MLRecommendationService.cs:136 | rounding preserves order |
| Scoring.DisplayScore | backend/TvShowTrackerAPI/Services/MLRecommendationService.cs:131-141 | the displayed score is in [0, 100] with one decimal, 0 for NaN, and within 0.05 of ten times the clamped score |
| Scoring.DisplayScoreMonotone | backend/TvShowTrackerAPI/Services/MLRecommendationService.cs:131-141 | a higher score never displays lower |
| Scoring.DisplayScoreOfNonFinite | backend/TvShowTrackerAPI/Services/MLRecommendationService.cs:131-141 | NaN displays 0, positive infinity 100, negative infinity 0 |
| Recommendations.FavoriteShowIds | backend/TvShowTrackerAPI/Services/MLRecommendationService.cs:52-55 | the excluded ids are exactly the user's favourites |
| Recommendations.Candidates | backend/TvShowTrackerAPI/Services/MLRecommendationService.cs:65-69 | the candidates are exactly the shows not excluded |
| Recommendations.FavoriteGenreIds | backend/TvShowTrackerAPI/Services/MLRecommendationService.cs:123-127 | the distinct GenreIds of the user's favourite shows that are visible, deleted genres included |
| Recommendations.MatchingGenreNames | backend/TvShowTrackerAPI/Services/MLRecommendationService.cs:334-338 | no name is found exactly when no genre of the show is a favourite genre |
| Recommendations.GenerateReason | backend/TvShowTrackerAPI/Services/MLRecommendationService.cs:331-346 | the reason is never empty |
| Recommendations.ReasonNamesMatchingGenres | backend/TvShowTrackerAPI/Services/MLRecommendationService.cs:331-346 | the "love" reason appears exactly when a genre matches, and names the first one or two matches; otherwise "Highly rated {type} show" |
| Recommendations.ScoreAll | backend/TvShowTrackerAPI/Services/MLRecommendationService.cs:80-114 | every candidate is scored once, in order, by the prediction or its fallback formula |
| Recommendations.Rank | backend/TvShowTrackerAPI/Services/MLRecommendationService.cs:117-120 | exactly min(count, scored) entries, none when count is not positive |
| Recommendations.DescendingScores | backend/TvShowTrackerAPI/Services/MLRecommendationService.cs:117-118 | a list in descending score order has non-increasing scores |
| Recommendations.RankIsDescending | backend/TvShowTrackerAPI/Services/MLRecommendationService.cs:117-120 | the ranking has non-increasing scores and holds only scored candidates |
| Recommendations.RankKeepsTheBest | backend/TvShowTrackerAPI/Services/MLRecommendationService.cs:117-120 | no candidate left out scores higher than one kept |
| Recommendations.RankIsStable | backend/TvShowTrackerAPI/Services/MLRecommendationService.cs:117-120 | candidates with equal scores keep their candidate order |
| Recommendations.Present | backend/TvShowTrackerAPI/Services/MLRecommendationService.cs:129-155 | one recommendation per ranked entry, same show, not flagged favourite, with the display score |
| Recommendations.ModelPath | backend/TvShowTrackerAPI/Services/MLRecommendationService.cs:65-155 | exactly min(count, candidates) recommendations, none when count is not positive |
| Recommendations.RankedAreCandidates | backend/TvShowTrackerAPI/Services/MLRecommendationService.cs:65-120 | every ranked show is a show of the table that is not excluded |
| Recommendations.PresentedFrom | backend/TvShowTrackerAPI/Services/MLRecommendationService.cs:129-155 | presenting keeps the shows' ids, so only existing, non-excluded shows are recommended |
| Recommendations.ModelPathExcludesFavorites | backend/TvShowTrackerAPI/Services/MLRecommendationService.cs:52-155 | the model never recommends a show the user already favours, nor a show that does not exist |
| Recommendations.PresentedScores | backend/TvShowTrackerAPI/Services/MLRecommendationService.cs:131-141 | every presented score is a display score |
| Recommendations.PresentedScoresMono | backend/TvShowTrackerAPI/Services/MLRecommendationService.cs:117-141 | descending raw scores stay descending after display rounding |
| Recommendations.ModelPathDisplayScores | backend/TvShowTrackerAPI/Services/MLRecommendationService.cs:117-141 | model recommendations have display scores, in non-increasing order |
| Recommendations.FallbackPool | backend/TvShowTrackerAPI/Services/MLRecommendationService.cs:283-312 | the fallback only considers existing non-favourite shows, and with favourite genres only shows sharing one |
| Recommendations.Similar | backend/TvShowTrackerAPI/Services/MLRecommendationService.cs:310 | exactly the shows sharing one of the favourite genres |
| Recommendations.Chosen | backend/TvShowTrackerAPI/Services/MLRecommendationService.cs:289-312 | exactly min(count, pool) shows of the pool, best first by popularity or by rating, and no pool show left out comes before one chosen |
| Recommendations.FallbackIsTheTop | backend/TvShowTrackerAPI/Services/MLRecommendationService.cs:283-326 | the fallback answers min(count, pool) shows, the chosen ones in order, and no pool show left out is more popular (no favourite genre) or better rated (favourite genres) than a recommended one |
| Recommendations.Fallback | backend/TvShowTrackerAPI/Services/MLRecommendationService.cs:273-326 | a negative count is an error; otherwise at most count items, each the chosen show with its fallback score and reason |
| Recommendations.FallbackExcludesFavorites | backend/TvShowTrackerAPI/Services/MLRecommendationService.cs:276-312 | the fallback never recommends a favourite or a missing show |
| Recommendations.FallbackByPopularity | backend/TvShowTrackerAPI/Services/MLRecommendationService.cs:283-303 | without favourite genres every item has the popular reason and scores fall |
| Recommendations.FallbackByGenre | backend/TvShowTrackerAPI/Services/MLRecommendationService.cs:306-326 | with favourite genres every item is a show sharing one, scored rating times ten, with the similar-genres reason |
| Recommendations.FallbackByRating | backend/TvShowTrackerAPI/Services/MLRecommendationService.cs:310-312 | with favourite genres items come by non-increasing rating |
| Recommendations.GenreFallbackDropsOtherGenres | backend/TvShowTrackerAPI/Services/MLRecommendationService.cs:306-326 | with a Drama/Crime favourite, a Drama/Crime show is recommended and a better comedy is not recommended at all |
| Recommendations.RecommendOutcome | backend/TvShowTrackerAPI/Services/MLRecommendationService.cs:42-156 | an unknown user gets nothing; only the fallback with a negative count fails; otherwise at most count items, none a favourite |
| MLRecommendation.Rows | backend/TvShowTrackerAPI/Services/MLRecommendationService.cs:245-258 | one stored row per recommendation, with its show, score and reason, not emailed, created now |
| MLRecommendation.RowsFor | backend/TvShowTrackerAPI/Services/MLRecommendationService.cs:239-241 | exactly the user's stored rows |
| MLRecommendation.Without | backend/TvShowTrackerAPI/Services/MLRecommendationService.cs:239-242 | exactly the other users' stored rows |
| MLRecommendation.RefreshReplaces | backend/TvShowTrackerAPI/Services/MLRecommendationService.cs:236-260 | after a successful refresh the user's rows are exactly the new ones |
| MLRecommendation.RefreshKeepsOthers | backend/TvShowTrackerAPI/Services/MLRecommendationService.cs:236-265 | a refresh, successful or not, leaves every other user's rows alone |
| MLRecommendation.MaterializeStep | backend/TvShowTrackerAPI/Services/MLRecommendationService.cs:232-266 | the batch over one more user is the batch so far followed by that user's refresh |
| MLRecommendation.MaterializedRows | backend/TvShowTrackerAPI/Services/MLRecommendationService.cs:223-269 | after the batch each listed user's rows are their ten-item recommendations; unlisted users keep theirs |
| MLRecommendation.MaterializeTwice | backend/TvShowTrackerAPI/Services/MLRecommendationService.cs:223-269 | running the batch twice stores the same rows per user as running it once |
| MLRecommendation.MaterializedRowsAreFresh | backend/TvShowTrackerAPI/Services/MLRecommendationService.cs:236-260 | each user gets at most ten rows, none emailed, all created now, none a favourite |
| MLRecommendation.VisibleUserIds | backend/TvShowTrackerAPI/Services/MLRecommendationService.cs:227-230 | the batch's ids are exactly the non-deleted users' |
| MLRecommendation.RecommendationService.Train | backend/TvShowTrackerAPI/Services/MLRecommendationService.cs:162-218 | training succeeds exactly with at least ten favourites, a fitted model and a successful save; the in-memory model is swapped whenever a model was fitted; the file only on success |
| MLRecommendation.RecommendationService.Recommend | backend/TvShowTrackerAPI/Services/MLRecommendationService.cs:42-156 | the scoring loop answers what RecommendSpec specifies |
| MLRecommendation.RecommendationService.ReplaceRows | backend/TvShowTrackerAPI/Services/MLRecommendationService.cs:239-258 | the table becomes the refresh of that user with the new recommendations |
| MLRecommendation.RecommendationService.MaterializeAll | backend/TvShowTrackerAPI/Services/MLRecommendationService.cs:223-269 | the table becomes the batch refresh of every visible user |
| MLRecommendation.SaveFailureIsForgotten | backend/TvShowTrackerAPI/Services/MLRecommendationService.cs:205-217 | when the save fails, training reports failure and leaves the new model only in that service instance; every instance created afterwards (each request or job scope) loads none |
| TvShows.ShowSort | backend/TvShowTrackerAPI/Services/TvShowService.cs:52-67 | a column name in any case picks that column and direction; anything else is popularity descending |
| TvShows.UndatedShowsAtTheNullEnd | backend/TvShowTrackerAPI/Services/TvShowService.cs:60-62 | undated shows come last ascending and first descending; dated shows follow their dates |
| TvShows.Catalogue | backend/TvShowTrackerAPI/Services/TvShowService.cs:45-49 | exactly the shows, or the shows linked to the requested genre |
| TvShows.FavoriteSet | backend/TvShowTrackerAPI/Services/TvShowService.cs:79-86 | exactly the caller's favourite ids; none for an anonymous caller |
| TvShows.Listing | backend/TvShowTrackerAPI/Services/TvShowService.cs:89-98 | one list item per show, flagged exactly when the caller favours it |
| TvShows.SortedCatalogue | backend/TvShowTrackerAPI/Services/TvShowService.cs:52-67 | the filtered catalogue reordered, none gained or lost |
| TvShows.GetTvShows | backend/TvShowTrackerAPI/Services/TvShowService.cs:32-101 | the count of the filtered catalogue and the listing of one page of it in the chosen order; bad offsets are errors |
| TvShows.DeletedGenreStillFilters | backend/TvShowTrackerAPI/Services/TvShowService.cs:41-48 | a show linked only to a soft-deleted genre is still found by that genre's id, yet lists no genre names |
| TvShows.CataloguePage | backend/TvShowTrackerAPI/Services/TvShowService.cs:45-76 | the page holds at most pageSize shows of the filtered catalogue, in the chosen order |
| TvShows.SearchResults | backend/TvShowTrackerAPI/Services/TvShowService.cs:230 | exactly the shows whose lower-cased title contains the lower-cased query |
| TvShows.RankedResults | backend/TvShowTrackerAPI/Services/TvShowService.cs:231 | the matches reordered by popularity, none gained or lost |
| TvShows.SearchTvShows | backend/TvShowTrackerAPI/Services/TvShowService.cs:221-262 | the count of the matches and the listing of one page of them, most popular first |
| TvShows.SearchIgnoresCase | backend/TvShowTrackerAPI/Services/TvShowService.cs:230 | a title containing the query in any letter case is found |
| TvShows.SearchPageIsRanked | backend/TvShowTrackerAPI/Services/TvShowService.cs:227-238 | a search page holds at most pageSize matching shows with non-increasing popularity |
| TvShows.Selected | backend/TvShowTrackerAPI/Services/TvShowService.cs:164-171 | exactly the show's episodes, of the season when one is given, none gained |
| TvShows.GetEpisodes | backend/TvShowTrackerAPI/Services/TvShowService.cs:162-176 | exactly the show's episodes, of the season when one is given |
| TvShows.EpisodesInOrder | backend/TvShowTrackerAPI/Services/TvShowService.cs:173-176 | episodes come by season, then by episode number |
| TvShows.ShowLinks | backend/TvShowTrackerAPI/Services/TvShowService.cs:198-200 | exactly the show's links, whether or not their actor is visible |
| TvShows.Billed | backend/TvShowTrackerAPI/Services/TvShowService.cs:198-201 | the show's links reordered by billing, none gained or lost, in billing order |
| TvShows.JoinActors | backend/TvShowTrackerAPI/Services/TvShowService.cs:198-202 | the links joined with their visible actors after the Take, in link order: exactly the links whose actor exists, each with that actor |
| TvShows.Featured | backend/TvShowTrackerAPI/Services/TvShowService.cs:201-202 | the first min(20, links) of the show's links in billing order |
| TvShows.AllVisibleKeepsFeatured | backend/TvShowTrackerAPI/Services/TvShowService.cs:198-202 | when every link of the show has a visible actor, the join keeps all twenty links read |
| TvShows.GetTvShowActors | backend/TvShowTrackerAPI/Services/TvShowService.cs:196-216 | at most twenty members, min(20, links) when no actor of the show is hidden; member i is the i-th of the twenty links read whose actor is visible, with the character played |
| TvShows.FeaturedCastIsFull | backend/TvShowTrackerAPI/Services/TvShowService.cs:198-202 | the cast list has as many members as links read exactly when every one of those links has a visible actor; a hidden actor among them shortens it |
| TvShows.BillingOrder | backend/TvShowTrackerAPI/Services/TvShowService.cs:201 | in billing order, ordered links ascend and links without an order come last |
| TvShows.FeaturedCastComesFirst | backend/TvShowTrackerAPI/Services/TvShowService.cs:201-202 | the twenty links read are in billing order and no link left out is billed ahead of them |
| TvShows.CastPlaysInShow | backend/TvShowTrackerAPI/Services/TvShowService.cs:196-214 | every cast member is a visible actor with a link to that show, playing the character named there |
| TvShows.GetTvShowById | backend/TvShowTrackerAPI/Services/TvShowService.cs:106-157 | anonymous callers are served from the cache when possible, else from the table with the details then cached; signed-in callers always read the table, get their own favourite flag, and leave the cache alone |
| TvShows.LookupKeepsCacheAnonymous | backend/TvShowTrackerAPI/Services/TvShowService.cs:150-154 | no caller's favourite flag ever enters the cache |
| TvShows.AnonymousLookupIsCached | backend/TvShowTrackerAPI/Services/TvShowService.cs:109-112 | after an anonymous hit, later anonymous lookups return the same details whatever the tables hold |
| TvShows.SignedInLookupIgnoresCache | backend/TvShowTrackerAPI/Services/TvShowService.cs:111-128 | a signed-in caller's answer does not depend on the cache |
| Actors.ActorSort | backend/TvShowTrackerAPI/Services/ActorService.cs:48-60 | a column name in any case picks that column and direction; anything else is popularity descending |
| Actors.UndatedActorsLast | backend/TvShowTrackerAPI/Services/ActorService.cs:56-58 | in either direction an undated actor is followed only by undated actors or by one born on the sentinel date |
| Actors.Searched | backend/TvShowTrackerAPI/Services/ActorService.cs:41-45 | all actors for a missing or blank search, otherwise exactly those whose lower-cased name contains it |
| Actors.ShowCount | backend/TvShowTrackerAPI/Services/ActorService.cs:80 | the number of the actor's links, at most the number of links |
| Actors.SortedActors | backend/TvShowTrackerAPI/Services/ActorService.cs:48-60 | the searched actors reordered, none gained or lost |
| Actors.GetAllActors | backend/TvShowTrackerAPI/Services/ActorService.cs:30-84 | the count of the searched actors and one page of them in the chosen order, each with its show count; bad offsets are errors |
| Actors.ActorPage | backend/TvShowTrackerAPI/Services/ActorService.cs:41-69 | the page holds at most pageSize searched actors, in the chosen order |
| Actors.SearchIgnoresCase | backend/TvShowTrackerAPI/Services/ActorService.cs:44 | a name containing the search text in any letter case is found |
| Actors.ActorCredits | backend/TvShowTrackerAPI/Services/ActorService.cs:139-141 | the actor's links whose show exists, in table order, each with its show |
| Actors.GetActorTvShows | backend/TvShowTrackerAPI/Services/ActorService.cs:137-154 | one entry per credit, in credits sorted by rating descending |
| Actors.RatingDescending | backend/TvShowTrackerAPI/Services/ActorService.cs:142 | credits in rating order have non-increasing ratings |
| Actors.CreditsByRating | backend/TvShowTrackerAPI/Services/ActorService.cs:142-150 | the credits list is highest rated first |
| Actors.CreditsAreTheActors | backend/TvShowTrackerAPI/Services/ActorService.cs:139-141 | each credit is one of the actor's links with the show it points at |
| Actors.GetActorById | backend/TvShowTrackerAPI/Services/ActorService.cs:89-132 | cached details when present; otherwise found exactly when the actor exists, and then stored in the cache |
| Actors.ProfileListsTheCredits | backend/TvShowTrackerAPI/Services/ActorService.cs:116-125 | a freshly read profile lists exactly the credits query's shows, in its order |
| Actors.ActorLookupIsCached | backend/TvShowTrackerAPI/Services/ActorService.cs:92-95 | after a hit, later lookups return the same details whatever the tables hold |

## Left out

- ML.NET itself: the matrix-factorisation trainer, its data pipeline and the prediction engine. A trained model is a function from (user, show) to a float prediction, and a training run is a parameter: the fitted model, or none when Fit throws.
- The model file's I/O. Loading and saving are the `ModelFile.stored` field. An exception while loading at start-up is not modelled.
- `float` arithmetic. Scores are reals. The only non-finite values modelled are NaN and the infinities, where they reach the sanitiser or the display clamp.
- Logging, `async`/`await`, `SaveChanges` failures and the concurrency of the background jobs.
- The catch in the materialiser. The model's recommendation call cannot fail with a count of ten, so the path that skips a user after an exception is left out.
- Access-token signing, refresh-token generation and BCrypt. Token values and password hashes are parameters; `verify` is BCrypt's verdict.
- Guid generation. Ids are natural numbers chosen by the caller.
- The clock. Each request reads one instant `now`, in seconds. The source reads `DateTime.UtcNow` several times within one request.
- Auth.Login: the account-deleted check after the password check is not modelled. The users query filter hides deleted users, so that check can never fire.
- Cache expiry. An expired entry is the same as a missing one, so the cache maps have no time-to-live.
- Fields that are only passed through (poster and backdrop paths, descriptions, biographies, places of birth, status, vote counts). The detail and list datatypes carry the fields the behaviour depends on.
- Database collation. Titles and names sort by code point.
- Tie order in database sorts. PostgreSQL leaves it open; the model keeps table order.
- `ToLower` on non-ASCII letters. Only ASCII letters are lower-cased, and strings are sequences of characters, not UTF-16 code units.
- The email check of the sign-up form. Zod's `email()` pattern is the parameter `isEmail`, because its regular expression differs between zod versions.
- A page size of zero. `Create` divides by it in floating point; every listing requires a non-zero page size.
- TvShows.GetTvShows, TvShows.SearchTvShows, Actors.GetAllActors, Favorites.UserFavorites: the offset is computed without 32-bit wrap-around. The wrap-around is modelled separately by `Paging.Int32PageOffset` (see Findings).
- Registration.ServerErrors: the error messages other than the email's are listed but not related to each attribute one by one. `Registration.ServerAcceptsIff` states the acceptance condition in full.

## Findings

| source | as written | input that shows it | evidently intended | confidence | as-written member | corrected member |
|---|---|---|---|---|---|---|
| backend/TvShowTrackerAPI/Services/TvShowService.cs:74 | `(pageNumber - 1) * pageSize` is computed in unchecked 32-bit `int`, so a large page number wraps to a small offset | pageNumber 42949674, pageSize 100: the offset 4294967300 wraps to 4, and rows 4 to 103 come back instead of an empty page | the offset of page n is (n - 1) * pageSize, so pages past the end are empty | high (not executed) | Paging.Int32OffsetWrapsToAnEarlierPage | Paging.NonEmptyPagesAreCounted |

/**
 * The rows of the three tables the application reads and writes
 * (`profiles`, `movies`, `movie_ratings`), with the column types of the
 * generated database types.  Identifiers that the backend generates for new
 * rows are natural numbers here; the authenticated user's id is text.
 */
module Schema {
  import opened Common
  import opened JsText

  type UserId = string
  type RowId = nat
  type MovieId = RowId

  datatype Profile = Profile(id: UserId, displayName: string, avatarUrl: Option<string>, createdAt: int)

  datatype Movie = Movie(
    id: MovieId,
    tmdbId: Option<JsNumber>,
    title: string,
    year: Option<JsNumber>,
    posterUrl: Option<string>,
    description: Option<string>,
    addedBy: UserId,
    createdAt: int,
    isCurrent: bool)

  datatype Rating = Rating(
    id: RowId,
    movieId: MovieId,
    userId: UserId,
    watched: bool,
    score: Option<real>,
    review: Option<string>)

  /** The pair that the rating actions use to find "the caller's rating of this movie". */
  function Key(r: Rating): (MovieId, UserId) { (r.movieId, r.userId) }

  /** Every row carries a different id. */
  ghost predicate DistinctIds(rows: seq<Rating>) {
    forall i, j :: 0 <= i < j < |rows| ==> rows[i].id != rows[j].id
  }

  /** At most one rating per (movie, user) pair. */
  ghost predicate UniquePairs(rows: seq<Rating>) {
    forall i, j :: 0 <= i < j < |rows| ==> Key(rows[i]) != Key(rows[j])
  }

  /** Every id is below the next id the backend will hand out. */
  ghost predicate IdsBelow(rows: seq<Rating>, next: nat) {
    forall i :: 0 <= i < |rows| ==> rows[i].id < next
  }
}

/**
 * The movie lifecycle actions on the `movies` table (add, guarded delete,
 * set and clear the "currently watching" flag) and the order in which the
 * movie list is fetched.
 */
module Movies {
  import opened Common
  import opened JsText
  import opened Schema

  const TitleRequired := "Title is required"
  const MovieNotFound := "Movie not found"
  const CannotDeleteCurrent := "Cannot delete the currently watching movie"
  const FailedToCheckReviews := "Failed to check reviews"
  const CannotDeleteReviewed := "Cannot delete a movie that has reviews"

  /** The fields of the add-movie form; a field the form did not send is absent. */
  datatype MovieForm = MovieForm(
    title: Option<string>,
    year: Option<string>,
    tmdbId: Option<string>,
    posterUrl: Option<string>,
    description: Option<string>)

  /** `s ? parseInt(s, 10) : null`: no number for an absent or empty field, else what `parseInt` gives (possibly NaN). */
  function FormNumber(field: Option<string>): (n: Option<JsNumber>)
    ensures n.None? <==> field.None? || field.value == []
    ensures n.Some? ==> n.value == ParseInt(field.value)
  {
    if field.None? || field.value == [] then None else Some(ParseInt(field.value))
  }

  /** A field of digits is stored as its value. */
  lemma FormNumberOfDigits(d: string)
    requires d != [] && AllDigits(d)
    ensures FormNumber(Some(d)) == Some(Num(DigitsValue(d)))
  {
    ParseIntOfDigits(d, []);
    assert d + [] == d;
  }

  /** A field that does not start like a number is not refused: it is stored as NaN, not as no number. */
  lemma FormNumberNotANumber(w: string)
    requires w != [] && !IsDigit(w[0]) && !IsJsSpace(w[0]) && w[0] != '+' && w[0] != '-'
    ensures FormNumber(Some(w)) == Some(NaN)
  {
    assert TrimStart(w) == w;
    assert LeadingDigits(w) == [];
  }

  /** The row `addMovie` inserts; the backend supplies the id, the creation time and `is_current = false`. */
  function NewMovie(form: MovieForm, user: UserId, id: MovieId, now: int): (m: Movie)
    requires form.title.Some?
    ensures m.id == id && m.title == form.title.value && m.addedBy == user && m.createdAt == now && !m.isCurrent
    ensures m.year == FormNumber(form.year) && m.tmdbId == FormNumber(form.tmdbId)
    ensures m.posterUrl.None? <==> form.posterUrl.None? || form.posterUrl.value == []
    ensures m.posterUrl.Some? ==> m.posterUrl == form.posterUrl
    ensures m.description.None? <==> form.description.None? || form.description.value == []
    ensures m.description.Some? ==> m.description == form.description
  {
    Movie(id, FormNumber(form.tmdbId), form.title.value, FormNumber(form.year),
          NullIfEmpty(form.posterUrl), NullIfEmpty(form.description), user, now, false)
  }

  /** The movie with the given id, if any. */
  function FindMovie(movies: seq<Movie>, id: MovieId): (found: Option<Movie>)
    ensures found.None? <==> forall i :: 0 <= i < |movies| ==> movies[i].id != id
    ensures found.Some? ==> found.value in movies && found.value.id == id
  {
    if movies == [] then None
    else if movies[0].id == id then Some(movies[0])
    else FindMovie(movies[1..], id)
  }

  /** `delete().eq("id", id)`. */
  function WithoutMovie(movies: seq<Movie>, id: MovieId): (r: seq<Movie>)
    ensures |r| <= |movies|
    ensures forall m :: m in r <==> m in movies && m.id != id
  {
    if movies == [] then []
    else (if movies[0].id != id then [movies[0]] else []) + WithoutMovie(movies[1..], id)
  }

  /** `update({ is_current: flag }).eq("id", id)`. */
  function WithCurrentFlag(movies: seq<Movie>, id: MovieId, flag: bool): (r: seq<Movie>)
    ensures |r| == |movies|
    ensures forall i :: 0 <= i < |r| ==> r[i].(isCurrent := movies[i].isCurrent) == movies[i]
    ensures forall i :: 0 <= i < |r| && movies[i].id == id ==> r[i].isCurrent == flag
    ensures forall i :: 0 <= i < |r| && movies[i].id != id ==> r[i] == movies[i]
  {
    seq(|movies|, i requires 0 <= i < |movies| =>
      if movies[i].id == id then movies[i].(isCurrent := flag) else movies[i])
  }

  /**
   * The database trigger that `setCurrentMovie` relies on (it is not part of
   * this code base): once a movie has been marked current, every other
   * movie is unmarked.  An update that matched no row fires nothing.
   */
  function AfterCurrentTrigger(movies: seq<Movie>, id: MovieId): (r: seq<Movie>)
    ensures |r| == |movies|
    ensures forall i :: 0 <= i < |r| ==> r[i].(isCurrent := movies[i].isCurrent) == movies[i]
    ensures FindMovie(movies, id).None? ==> r == movies
    ensures FindMovie(movies, id).Some? ==> forall i :: 0 <= i < |r| && movies[i].id == id ==> r[i] == movies[i]
    ensures FindMovie(movies, id).Some? ==> forall i :: 0 <= i < |r| && movies[i].id != id ==> !r[i].isCurrent
  {
    if FindMovie(movies, id).None? then movies
    else
      seq(|movies|, i requires 0 <= i < |movies| =>
        if movies[i].id == id then movies[i] else movies[i].(isCurrent := false))
  }

  /**
   * `select("id").eq("movie_id", movieId).eq("watched", true).limit(1)`:
   * the id of the first watched rating of the movie, if there is one.
   */
  function WatchedRatingQuery(ratings: seq<Rating>, movieId: MovieId): (ids: seq<RowId>)
    ensures |ids| <= 1
    ensures |ids| == 1 <==> exists i :: 0 <= i < |ratings| && ratings[i].movieId == movieId && ratings[i].watched
    ensures |ids| == 1 ==> exists i :: 0 <= i < |ratings| && ratings[i].movieId == movieId && ratings[i].watched && ratings[i].id == ids[0]
  {
    if ratings == [] then []
    else if ratings[0].movieId == movieId && ratings[0].watched then [ratings[0].id]
    else
      var rest := WatchedRatingQuery(ratings[1..], movieId);
      assert forall i :: 1 <= i < |ratings| ==> ratings[i] == ratings[1..][i - 1];
      assert forall i :: 0 <= i < |ratings[1..]| ==> ratings[1..][i] == ratings[i + 1];
      rest
  }

  /** `ratings && ratings.length > 0`: the movie has a watched rating, a review that blocks deletion. */
  predicate HasReviews(ratings: seq<Rating>, movieId: MovieId)
    ensures HasReviews(ratings, movieId) <==>
      exists i :: 0 <= i < |ratings| && ratings[i].movieId == movieId && ratings[i].watched
  {
    |WatchedRatingQuery(ratings, movieId)| > 0
  }

  /** Ratings that are not marked watched never block a deletion, however many there are. */
  lemma UnwatchedRatingsDoNotBlock(ratings: seq<Rating>, unwatched: seq<Rating>, movieId: MovieId)
    requires forall k :: 0 <= k < |unwatched| ==> !unwatched[k].watched
    ensures HasReviews(ratings + unwatched, movieId) <==> HasReviews(ratings, movieId)
  {
    if HasReviews(ratings + unwatched, movieId) {
      var i :| 0 <= i < |ratings + unwatched| && (ratings + unwatched)[i].movieId == movieId && (ratings + unwatched)[i].watched;
      assert i < |ratings|;
    }
    if HasReviews(ratings, movieId) {
      var i :| 0 <= i < |ratings| && ratings[i].movieId == movieId && ratings[i].watched;
      assert (ratings + unwatched)[i] == ratings[i];
    }
  }

  ghost predicate DistinctMovieIds(movies: seq<Movie>) {
    forall i, j :: 0 <= i < j < |movies| ==> movies[i].id != movies[j].id
  }

  /** At most one movie is flagged as currently watching. */
  ghost predicate AtMostOneCurrent(movies: seq<Movie>) {
    forall i, j :: 0 <= i < j < |movies| ==> !(movies[i].isCurrent && movies[j].isCurrent)
  }

  /**
   * The update `setCurrentMovie` sends does not by itself keep a single
   * current movie: marking a second movie leaves two marked.
   */
  lemma SetCurrentAloneAllowsTwo(watching: Movie, next: Movie)
    requires watching.isCurrent && !next.isCurrent && watching.id != next.id
    ensures AtMostOneCurrent([watching, next])
    ensures !AtMostOneCurrent(WithCurrentFlag([watching, next], next.id, true))
  {
    var r := WithCurrentFlag([watching, next], next.id, true);
    assert r[0].isCurrent && r[1].isCurrent;
  }

  /**
   * With the trigger, marking a movie current leaves exactly that movie
   * current, or changes nothing when no movie has that id.
   */
  lemma SetCurrentWithTrigger(movies: seq<Movie>, id: MovieId)
    requires DistinctMovieIds(movies) && AtMostOneCurrent(movies)
    ensures var after := AfterCurrentTrigger(WithCurrentFlag(movies, id, true), id);
      && AtMostOneCurrent(after)
      && (FindMovie(movies, id).None? ==> after == movies)
      && (FindMovie(movies, id).Some? ==> forall i :: 0 <= i < |after| ==> (after[i].isCurrent <==> after[i].id == id))
  {
    var flagged := WithCurrentFlag(movies, id, true);
    FlagKeepsIds(movies, id, true);
    if FindMovie(movies, id).None? {
      assert flagged == movies;
    } else {
      TriggerLeavesOnlyTarget(movies, flagged, id);
    }
  }

  lemma FlagKeepsIds(movies: seq<Movie>, id: MovieId, flag: bool)
    ensures var r := WithCurrentFlag(movies, id, flag);
      forall i :: 0 <= i < |r| ==> r[i].id == movies[i].id
  {
  }

  lemma TriggerLeavesOnlyTarget(movies: seq<Movie>, flagged: seq<Movie>, id: MovieId)
    requires DistinctMovieIds(movies) && FindMovie(movies, id).Some?
    requires flagged == WithCurrentFlag(movies, id, true)
    ensures var after := AfterCurrentTrigger(flagged, id);
      && AtMostOneCurrent(after)
      && forall i :: 0 <= i < |after| ==> (after[i].isCurrent <==> after[i].id == id)
  {
    var k :| 0 <= k < |movies| && movies[k].id == id;
    assert flagged[k].id == id;
    assert FindMovie(flagged, id).Some?;
    var after := AfterCurrentTrigger(flagged, id);
    forall i | 0 <= i < |after| ensures after[i].id == movies[i].id && (after[i].isCurrent <==> after[i].id == id) {
      assert flagged[i].id == movies[i].id;
    }
  }

  /** Clearing the flag never adds a current movie. */
  lemma ClearCurrentKeepsOne(movies: seq<Movie>, id: MovieId)
    requires AtMostOneCurrent(movies)
    ensures AtMostOneCurrent(WithCurrentFlag(movies, id, false))
  {
  }

  // ---------------------------------------------------------------------------
  // The listing order

  /** `order("is_current", desc).order("created_at", desc)`: current first, then newest first. */
  predicate ListedBefore(a: Movie, b: Movie): (first: bool)
    ensures a.isCurrent != b.isCurrent ==> (first <==> a.isCurrent)
    ensures a.isCurrent == b.isCurrent ==> (first <==> a.createdAt >= b.createdAt)
  {
    (a.isCurrent && !b.isCurrent) || (a.isCurrent == b.isCurrent && a.createdAt >= b.createdAt)
  }

  /** The listing order is a total preorder, so sorting by it is well defined up to ties. */
  lemma ListedBeforeIsTotalPreorder(a: Movie, b: Movie, c: Movie)
    ensures ListedBefore(a, a)
    ensures ListedBefore(a, b) || ListedBefore(b, a)
    ensures ListedBefore(a, b) && ListedBefore(b, c) ==> ListedBefore(a, c)
  {
  }

  predicate ListingOrdered(movies: seq<Movie>) {
    forall i, j :: 0 <= i < j < |movies| ==> ListedBefore(movies[i], movies[j])
  }

  function InsertListed(m: Movie, sorted: seq<Movie>): (r: seq<Movie>)
    requires ListingOrdered(sorted)
    ensures ListingOrdered(r)
    ensures multiset(r) == multiset(sorted) + multiset{m}
  {
    if sorted == [] || ListedBefore(m, sorted[0]) then
      InsertListedFront(m, sorted);
      [m] + sorted
    else
      var rest := InsertListed(m, sorted[1..]);
      InsertListedBehind(m, sorted, rest);
      [sorted[0]] + rest
  }

  lemma InsertListedFront(m: Movie, sorted: seq<Movie>)
    requires ListingOrdered(sorted)
    requires sorted == [] || ListedBefore(m, sorted[0])
    ensures ListingOrdered([m] + sorted)
  {
    var r := [m] + sorted;
    forall i, j | 0 <= i < j < |r| ensures ListedBefore(r[i], r[j]) {
      if i == 0 {
        assert ListedBefore(sorted[0], sorted[j - 1]) || j == 1;
      } else {
        assert r[i] == sorted[i - 1] && r[j] == sorted[j - 1];
      }
    }
  }

  lemma InsertListedBehind(m: Movie, sorted: seq<Movie>, rest: seq<Movie>)
    requires sorted != [] && ListingOrdered(sorted) && !ListedBefore(m, sorted[0])
    requires ListingOrdered(rest) && multiset(rest) == multiset(sorted[1..]) + multiset{m}
    ensures ListingOrdered([sorted[0]] + rest)
    ensures multiset([sorted[0]] + rest) == multiset(sorted) + multiset{m}
  {
    assert sorted == [sorted[0]] + sorted[1..];
    var r := [sorted[0]] + rest;
    forall i, j | 0 <= i < j < |r| ensures ListedBefore(r[i], r[j]) {
      if i == 0 {
        assert r[j] == rest[j - 1];
        assert r[j] in multiset(rest);
        if r[j] != m {
          assert r[j] in multiset(sorted[1..]);
          var k :| 0 <= k < |sorted[1..]| && sorted[1..][k] == r[j];
          assert sorted[k + 1] == r[j];
        }
      } else {
        assert r[i] == rest[i - 1] && r[j] == rest[j - 1];
      }
    }
  }

  /** The movies in listing order; movies equal in both keys keep no particular order. */
  function ListingOrder(movies: seq<Movie>): (r: seq<Movie>)
    ensures ListingOrdered(r)
    ensures multiset(r) == multiset(movies)
  {
    if movies == [] then []
    else
      assert movies == [movies[0]] + movies[1..];
      InsertListed(movies[0], ListingOrder(movies[1..]))
  }

  /** A movie as the list fetches it, with its ratings nested. */
  datatype ListedMovie = ListedMovie(movie: Movie, ratings: seq<Rating>)

  function RatingsOf(ratings: seq<Rating>, movieId: MovieId): (r: seq<Rating>)
    ensures forall x :: x in r <==> x in ratings && x.movieId == movieId
  {
    if ratings == [] then []
    else (if ratings[0].movieId == movieId then [ratings[0]] else []) + RatingsOf(ratings[1..], movieId)
  }

  /**
   * `getMoviesWithRatings`: every movie with its ratings, current movie
   * first and then newest first; a failed query gives an empty list.
   */
  function MoviesWithRatings(movies: seq<Movie>, ratings: seq<Rating>, readFails: bool): (r: seq<ListedMovie>)
    ensures readFails ==> r == []
    ensures !readFails ==> |r| == |movies|
    ensures forall i, j :: 0 <= i < j < |r| ==> ListedBefore(r[i].movie, r[j].movie)
    ensures !readFails ==> multiset(seq(|r|, i requires 0 <= i < |r| => r[i].movie)) == multiset(movies)
    ensures forall i :: 0 <= i < |r| ==> r[i].ratings == RatingsOf(ratings, r[i].movie.id)
  {
    if readFails then []
    else
      var ordered := ListingOrder(movies);
      assert |ordered| == |multiset(ordered)| == |movies|;
      var r := seq(|ordered|, i requires 0 <= i < |ordered| => ListedMovie(ordered[i], RatingsOf(ratings, ordered[i].id)));
      assert seq(|r|, i requires 0 <= i < |r| => r[i].movie) == ordered;
      r
  }

  // ---------------------------------------------------------------------------
  // The table

  /** The `movies` table with the id the backend will give the next new movie. */
  class MoviesTable {
    var movies: seq<Movie>
    var nextId: nat

    ghost predicate Valid()
      reads this
    {
      && DistinctMovieIds(movies)
      && (forall i :: 0 <= i < |movies| ==> movies[i].id < nextId)
      && AtMostOneCurrent(movies)
    }

    constructor ()
      ensures Valid() && movies == []
    {
      movies := [];
      nextId := 0;
    }

    /**
     * `addMovie`: refused for an anonymous caller, then for an absent or
     * empty title (a title of spaces is accepted); otherwise one row is
     * appended.
     */
    method AddMovie(user: Option<UserId>, form: MovieForm, now: int, writeError: Option<string>)
      returns (r: ActionResult)
      requires Valid()
      modifies this
      ensures Valid()
      ensures user.None? ==> r == Err(NotAuthenticated) && movies == old(movies) && nextId == old(nextId)
      ensures user.Some? && (form.title.None? || form.title.value == []) ==>
        r == Err(TitleRequired) && movies == old(movies) && nextId == old(nextId)
      ensures user.Some? && form.title.Some? && form.title.value != [] && writeError.Some? ==>
        r == Err(writeError.value) && movies == old(movies) && nextId == old(nextId)
      ensures user.Some? && form.title.Some? && form.title.value != [] && writeError.None? ==>
        r == Ok && movies == old(movies) + [NewMovie(form, user.value, old(nextId), now)] && nextId == old(nextId) + 1
    {
      if user.None? {
        return Err(NotAuthenticated);
      }
      if form.title.None? || form.title.value == [] {
        return Err(TitleRequired);
      }
      if writeError.Some? {
        return Err(writeError.value);
      }
      movies := movies + [NewMovie(form, user.value, nextId, now)];
      nextId := nextId + 1;
      r := Ok;
    }

    /**
     * `deleteMovie`: the guards in order are the session, the movie's
     * existence, its current flag, the reviews check, and only then the
     * delete of that one movie.
     */
    method DeleteMovie(user: Option<UserId>, movieId: MovieId, ratings: seq<Rating>,
                       movieReadFails: bool, ratingsReadFails: bool, writeError: Option<string>)
      returns (r: ActionResult)
      requires Valid()
      modifies this
      ensures Valid()
      ensures nextId == old(nextId)
      ensures r.Err? ==> movies == old(movies)
      ensures user.None? ==> r == Err(NotAuthenticated)
      ensures user.Some? && (movieReadFails || FindMovie(old(movies), movieId).None?) ==> r == Err(MovieNotFound)
      ensures user.Some? && !movieReadFails && FindMovie(old(movies), movieId).Some? ==>
        var movie := FindMovie(old(movies), movieId).value;
        && (movie.isCurrent ==> r == Err(CannotDeleteCurrent))
        && (!movie.isCurrent && ratingsReadFails ==> r == Err(FailedToCheckReviews))
        && (!movie.isCurrent && !ratingsReadFails && HasReviews(ratings, movieId) ==> r == Err(CannotDeleteReviewed))
        && (!movie.isCurrent && !ratingsReadFails && !HasReviews(ratings, movieId) ==>
              r == (if writeError.Some? then Err(writeError.value) else Ok))
      ensures r == Ok ==>
        && movies == WithoutMovie(old(movies), movieId)
        && FindMovie(old(movies), movieId).Some?
        && !FindMovie(old(movies), movieId).value.isCurrent
        && !HasReviews(ratings, movieId)
    {
      if user.None? {
        return Err(NotAuthenticated);
      }
      var movie := FindMovie(movies, movieId);
      if movieReadFails || movie.None? {
        return Err(MovieNotFound);
      }
      if movie.value.isCurrent {
        return Err(CannotDeleteCurrent);
      }
      if ratingsReadFails {
        return Err(FailedToCheckReviews);
      }
      if HasReviews(ratings, movieId) {
        return Err(CannotDeleteReviewed);
      }
      if writeError.Some? {
        return Err(writeError.value);
      }
      WithoutMovieKeepsValid(movies, movieId);
      movies := WithoutMovie(movies, movieId);
      r := Ok;
    }

    /**
     * `setCurrentMovie`: the flag is set on that one movie, and the database
     * trigger then clears it on every other movie.  No existence check.
     */
    method SetCurrentMovie(user: Option<UserId>, movieId: MovieId, writeError: Option<string>)
      returns (r: ActionResult)
      requires Valid()
      modifies this
      ensures Valid()
      ensures nextId == old(nextId)
      ensures user.None? ==> r == Err(NotAuthenticated) && movies == old(movies)
      ensures user.Some? && writeError.Some? ==> r == Err(writeError.value) && movies == old(movies)
      ensures user.Some? && writeError.None? ==>
        r == Ok && movies == AfterCurrentTrigger(WithCurrentFlag(old(movies), movieId, true), movieId)
    {
      if user.None? {
        return Err(NotAuthenticated);
      }
      if writeError.Some? {
        return Err(writeError.value);
      }
      SetCurrentWithTrigger(movies, movieId);
      movies := AfterCurrentTrigger(WithCurrentFlag(movies, movieId, true), movieId);
      r := Ok;
    }

    /** `clearCurrentMovie`: the flag is cleared on that one movie; no existence check. */
    method ClearCurrentMovie(user: Option<UserId>, movieId: MovieId, writeError: Option<string>)
      returns (r: ActionResult)
      requires Valid()
      modifies this
      ensures Valid()
      ensures nextId == old(nextId)
      ensures user.None? ==> r == Err(NotAuthenticated) && movies == old(movies)
      ensures user.Some? && writeError.Some? ==> r == Err(writeError.value) && movies == old(movies)
      ensures user.Some? && writeError.None? ==> r == Ok && movies == WithCurrentFlag(old(movies), movieId, false)
    {
      if user.None? {
        return Err(NotAuthenticated);
      }
      if writeError.Some? {
        return Err(writeError.value);
      }
      movies := WithCurrentFlag(movies, movieId, false);
      r := Ok;
    }
  }

  /** Removing a movie keeps ids distinct and at most one movie current. */
  lemma WithoutMovieKeepsValid(movies: seq<Movie>, id: MovieId)
    requires DistinctMovieIds(movies) && AtMostOneCurrent(movies)
    ensures DistinctMovieIds(WithoutMovie(movies, id)) && AtMostOneCurrent(WithoutMovie(movies, id))
  {
    WithoutMovieKeepsPairs(movies, id, (a: Movie, b: Movie) => a.id != b.id);
    WithoutMovieKeepsPairs(movies, id, (a: Movie, b: Movie) => !(a.isCurrent && b.isCurrent));
  }

  /** Any relation that holds between every earlier and later movie still holds after a removal. */
  lemma {:induction false} WithoutMovieKeepsPairs(movies: seq<Movie>, id: MovieId, ok: (Movie, Movie) -> bool)
    requires forall i, j :: 0 <= i < j < |movies| ==> ok(movies[i], movies[j])
    ensures forall i, j :: 0 <= i < j < |WithoutMovie(movies, id)| ==>
      ok(WithoutMovie(movies, id)[i], WithoutMovie(movies, id)[j])
  {
    if movies != [] {
      var tail := movies[1..];
      PairsOfTail(movies, ok);
      WithoutMovieKeepsPairs(tail, id, ok);
      var rest := WithoutMovie(tail, id);
      if movies[0].id != id {
        assert WithoutMovie(movies, id) == [movies[0]] + rest;
        PairsWithHead(movies, rest, ok);
      } else {
        assert WithoutMovie(movies, id) == rest;
      }
    }
  }

  lemma PairsOfTail(movies: seq<Movie>, ok: (Movie, Movie) -> bool)
    requires movies != []
    requires forall i, j :: 0 <= i < j < |movies| ==> ok(movies[i], movies[j])
    ensures forall i, j :: 0 <= i < j < |movies[1..]| ==> ok(movies[1..][i], movies[1..][j])
  {
    forall i, j | 0 <= i < j < |movies[1..]| ensures ok(movies[1..][i], movies[1..][j]) {
      assert movies[1..][i] == movies[i + 1] && movies[1..][j] == movies[j + 1];
    }
  }

  lemma PairsWithHead(movies: seq<Movie>, rest: seq<Movie>, ok: (Movie, Movie) -> bool)
    requires movies != []
    requires forall i, j :: 0 <= i < j < |movies| ==> ok(movies[i], movies[j])
    requires forall m :: m in rest ==> m in movies[1..]
    requires forall i, j :: 0 <= i < j < |rest| ==> ok(rest[i], rest[j])
    ensures var r := [movies[0]] + rest;
      forall i, j :: 0 <= i < j < |r| ==> ok(r[i], r[j])
  {
    var r := [movies[0]] + rest;
    forall i, j | 0 <= i < j < |r| ensures ok(r[i], r[j]) {
      if i == 0 {
        assert r[j] == rest[j - 1];
        assert r[j] in movies[1..];
        var k :| 0 <= k < |movies[1..]| && movies[1..][k] == r[j];
        assert movies[k + 1] == r[j];
      } else {
        assert r[i] == rest[i - 1] && r[j] == rest[j - 1];
      }
    }
  }
}

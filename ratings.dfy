/**
 * The four rating actions.  Each one looks up the caller's rating of a
 * movie in `movie_ratings` and then either updates that row in place or
 * inserts a new one; each has its own values for a new row and its own
 * choice of which fields an update touches.
 */
module Ratings {
  import opened Common
  import opened Schema

  const ScoreOutOfRange := "Score must be between 0 and 10"

  /** The four actions, with their arguments. */
  datatype Action =
    | SubmitReview(score: real, review: Option<string>)
    | ToggleWatched
    | UpdateScore(newScore: Option<real>)
    | UpdateReview(text: string)

  /** A partial update of a rating row: only the fields given are written. */
  datatype Change = Change(watched: Option<bool>, score: Option<Option<real>>, review: Option<Option<string>>)

  function Apply(r: Rating, c: Change): Rating {
    r.(watched := if c.watched.Some? then c.watched.value else r.watched,
       score := if c.score.Some? then c.score.value else r.score,
       review := if c.review.Some? then c.review.value else r.review)
  }

  /** The update each action sends for the caller's existing row. */
  function ChangeFor(a: Action, existing: Rating): (c: Change)
    ensures var after := Apply(existing, c); after.id == existing.id && Key(after) == Key(existing)
    ensures a.SubmitReview? ==>
      Apply(existing, c) == existing.(watched := true, score := Some(a.score), review := NullIfEmpty(a.review))
    ensures a.ToggleWatched? ==> Apply(existing, c) == existing.(watched := !existing.watched)
    ensures a.UpdateScore? ==> Apply(existing, c) == existing.(score := a.newScore)
    ensures a.UpdateReview? ==> Apply(existing, c) == existing.(review := NullIfEmpty(Some(a.text)))
  {
    match a
    case SubmitReview(s, rv) => Change(Some(true), Some(Some(s)), Some(NullIfEmpty(rv)))
    case ToggleWatched => Change(Some(!existing.watched), None, None)
    case UpdateScore(s) => Change(None, Some(s), None)
    case UpdateReview(t) => Change(None, None, Some(NullIfEmpty(Some(t))))
  }

  /** The row each action inserts when the caller has none. */
  function Inserted(a: Action, id: RowId, movieId: MovieId, userId: UserId): (r: Rating)
    ensures r.id == id && Key(r) == (movieId, userId)
    ensures r.watched <==> !a.UpdateReview?
    ensures r.score == match a
      case SubmitReview(s, _) => Some(s)
      case UpdateScore(s) => s
      case _ => None
    ensures r.review == match a
      case SubmitReview(_, rv) => NullIfEmpty(rv)
      case UpdateReview(t) => NullIfEmpty(Some(t))
      case _ => None
  {
    match a
    case SubmitReview(s, rv) => Rating(id, movieId, userId, true, Some(s), NullIfEmpty(rv))
    case ToggleWatched => Rating(id, movieId, userId, true, None, None)
    case UpdateScore(s) => Rating(id, movieId, userId, true, s, None)
    case UpdateReview(t) => Rating(id, movieId, userId, false, None, NullIfEmpty(Some(t)))
  }

  /** The rows of one (movie, user) pair, in table order. */
  function Matching(rows: seq<Rating>, movieId: MovieId, userId: UserId): (m: seq<Rating>)
    ensures |m| <= |rows|
    ensures forall r :: r in m ==> r in rows && Key(r) == (movieId, userId)
  {
    if rows == [] then []
    else (if Key(rows[0]) == (movieId, userId) then [rows[0]] else []) + Matching(rows[1..], movieId, userId)
  }

  /**
   * The lookup `select ... eq(movie_id) eq(user_id) single()`: a row only
   * when exactly one matches and the read succeeded; no row otherwise.
   */
  function Lookup(rows: seq<Rating>, movieId: MovieId, userId: UserId, readOk: bool): (found: Option<Rating>)
    ensures found.Some? <==> readOk && |Matching(rows, movieId, userId)| == 1
    ensures found.Some? ==> found.value == Matching(rows, movieId, userId)[0]
    ensures found.Some? ==> found.value in rows && Key(found.value) == (movieId, userId)
  {
    var m := Matching(rows, movieId, userId);
    if readOk && |m| == 1 then Some(m[0]) else None
  }

  /** `update(change).eq("id", id)`: every row with that id gets the change. */
  function UpdateWhereId(rows: seq<Rating>, id: RowId, c: Change): (r: seq<Rating>)
    ensures |r| == |rows|
    ensures forall i :: 0 <= i < |rows| ==> r[i] == if rows[i].id == id then Apply(rows[i], c) else rows[i]
  {
    if rows == [] then [] else [if rows[0].id == id then Apply(rows[0], c) else rows[0]] + UpdateWhereId(rows[1..], id, c)
  }

  /** The table after a successful write of action `a` by `userId` on `movieId`. */
  function Upserted(rows: seq<Rating>, a: Action, movieId: MovieId, userId: UserId, readOk: bool, freshId: RowId)
    : (after: seq<Rating>)
    ensures |after| == |rows| + 1 <==> Lookup(rows, movieId, userId, readOk).None?
    ensures |rows| <= |after| <= |rows| + 1
    ensures |after| > |rows| ==> after[|rows|] == Inserted(a, freshId, movieId, userId)
    ensures forall i :: 0 <= i < |rows| ==>
      after[i] == rows[i] || (Lookup(rows, movieId, userId, readOk).Some? && rows[i].id == Lookup(rows, movieId, userId, readOk).value.id)
  {
    match Lookup(rows, movieId, userId, readOk)
    case Some(e) => UpdateWhereId(rows, e.id, ChangeFor(a, e))
    case None => rows + [Inserted(a, freshId, movieId, userId)]
  }

  /** What the caller's row is after the action: the existing row changed, or the new row. */
  function Expected(rows: seq<Rating>, a: Action, movieId: MovieId, userId: UserId, freshId: RowId): Rating {
    match Lookup(rows, movieId, userId, true)
    case Some(e) => Apply(e, ChangeFor(a, e))
    case None => Inserted(a, freshId, movieId, userId)
  }

  // ---------------------------------------------------------------------------
  // Lemmas about the lookup

  lemma {:induction false} MatchingAtMostOne(rows: seq<Rating>, movieId: MovieId, userId: UserId)
    requires UniquePairs(rows)
    ensures |Matching(rows, movieId, userId)| <= 1
  {
    if rows != [] {
      if Key(rows[0]) == (movieId, userId) {
        forall i | 0 <= i < |rows[1..]| ensures Key(rows[1..][i]) != (movieId, userId) {
          assert rows[1..][i] == rows[i + 1];
        }
        MatchingNone(rows[1..], movieId, userId);
      } else {
        MatchingAtMostOne(rows[1..], movieId, userId);
      }
    }
  }

  lemma {:induction false} MatchingNone(rows: seq<Rating>, movieId: MovieId, userId: UserId)
    requires forall i :: 0 <= i < |rows| ==> Key(rows[i]) != (movieId, userId)
    ensures Matching(rows, movieId, userId) == []
  {
    if rows != [] {
      MatchingNone(rows[1..], movieId, userId);
    }
  }

  lemma {:induction false} MatchingEmpty(rows: seq<Rating>, movieId: MovieId, userId: UserId)
    requires Matching(rows, movieId, userId) == []
    ensures forall i :: 0 <= i < |rows| ==> Key(rows[i]) != (movieId, userId)
  {
    if rows != [] {
      MatchingEmpty(rows[1..], movieId, userId);
      forall i | 1 <= i < |rows| ensures Key(rows[i]) != (movieId, userId) {
        assert rows[i] == rows[1..][i - 1];
      }
    }
  }

  lemma {:induction false} MatchingAppend(rows: seq<Rating>, x: Rating, movieId: MovieId, userId: UserId)
    ensures Matching(rows + [x], movieId, userId) ==
      Matching(rows, movieId, userId) + (if Key(x) == (movieId, userId) then [x] else [])
  {
    if rows == [] {
      assert rows + [x] == [x];
    } else {
      var head := if Key(rows[0]) == (movieId, userId) then [rows[0]] else [];
      var tail := if Key(x) == (movieId, userId) then [x] else [];
      assert (rows + [x])[0] == rows[0];
      assert (rows + [x])[1..] == rows[1..] + [x];
      MatchingAppend(rows[1..], x, movieId, userId);
      calc {
        Matching(rows + [x], movieId, userId);
        head + Matching(rows[1..] + [x], movieId, userId);
        head + (Matching(rows[1..], movieId, userId) + tail);
        { assert head + (Matching(rows[1..], movieId, userId) + tail) == (head + Matching(rows[1..], movieId, userId)) + tail; }
        Matching(rows, movieId, userId) + tail;
      }
    }
  }

  /** Updating by id commutes with selecting a pair's rows, since no update touches the pair. */
  lemma {:induction false} MatchingUpdate(rows: seq<Rating>, id: RowId, c: Change, movieId: MovieId, userId: UserId)
    ensures Matching(UpdateWhereId(rows, id, c), movieId, userId) ==
      UpdateWhereId(Matching(rows, movieId, userId), id, c)
  {
    if rows != [] {
      MatchingUpdate(rows[1..], id, c, movieId, userId);
      var u := UpdateWhereId(rows, id, c);
      assert u[1..] == UpdateWhereId(rows[1..], id, c);
      var head := if Key(rows[0]) == (movieId, userId) then [rows[0]] else [];
      var m := Matching(rows[1..], movieId, userId);
      assert UpdateWhereId(head + m, id, c) == UpdateWhereId(head, id, c) + UpdateWhereId(m, id, c) by {
        UpdateWhereIdAppend(head, m, id, c);
      }
    }
  }

  lemma UpdateWhereIdAppend(a: seq<Rating>, b: seq<Rating>, id: RowId, c: Change)
    ensures UpdateWhereId(a + b, id, c) == UpdateWhereId(a, id, c) + UpdateWhereId(b, id, c)
  {
    var l := UpdateWhereId(a + b, id, c);
    var r := UpdateWhereId(a, id, c) + UpdateWhereId(b, id, c);
    forall i | 0 <= i < |l| ensures l[i] == r[i] {
      if i >= |a| { assert (a + b)[i] == b[i - |a|]; }
    }
  }

  // ---------------------------------------------------------------------------
  // What every action does to the caller's row and to the rest of the table

  /**
   * With at most one rating per pair before the call and a successful
   * lookup, the lookup after the write finds exactly the caller's changed
   * row, or the inserted one.
   */
  lemma UpsertedLookup(rows: seq<Rating>, a: Action, movieId: MovieId, userId: UserId, freshId: RowId)
    requires UniquePairs(rows)
    ensures Lookup(Upserted(rows, a, movieId, userId, true, freshId), movieId, userId, true)
      == Some(Expected(rows, a, movieId, userId, freshId))
  {
    MatchingAtMostOne(rows, movieId, userId);
    var m := Matching(rows, movieId, userId);
    match Lookup(rows, movieId, userId, true)
    case Some(e) =>
      MatchingUpdate(rows, e.id, ChangeFor(a, e), movieId, userId);
      assert m == [e];
    case None =>
      var x := Inserted(a, freshId, movieId, userId);
      MatchingAppend(rows, x, movieId, userId);
      assert m == [];
      assert Matching(rows + [x], movieId, userId) == [x];
  }

  /** Each action looks up before it inserts, so at most one rating per pair stays at most one. */
  lemma UpsertKeepsPairsUnique(rows: seq<Rating>, a: Action, movieId: MovieId, userId: UserId, freshId: RowId)
    requires UniquePairs(rows)
    ensures UniquePairs(Upserted(rows, a, movieId, userId, true, freshId))
  {
    MatchingAtMostOne(rows, movieId, userId);
    var after := Upserted(rows, a, movieId, userId, true, freshId);
    match Lookup(rows, movieId, userId, true)
    case Some(e) =>
      assert forall i :: 0 <= i < |after| ==> Key(after[i]) == Key(rows[i]);
    case None =>
      MatchingEmpty(rows, movieId, userId);
      var x := Inserted(a, freshId, movieId, userId);
      assert after == rows + [x];
      forall i, j | 0 <= i < j < |after| ensures Key(after[i]) != Key(after[j]) {
        if j == |rows| { assert after[j] == x; }
      }
  }

  /**
   * Updates go by the found row's id, so when ids are distinct the rows of
   * every other (movie, user) pair are left exactly as they were, and an
   * insert only adds the caller's row at the end.
   */
  lemma UpsertLeavesOtherPairs(rows: seq<Rating>, a: Action, movieId: MovieId, userId: UserId, readOk: bool, freshId: RowId)
    requires DistinctIds(rows)
    ensures var after := Upserted(rows, a, movieId, userId, readOk, freshId);
      && |rows| <= |after| <= |rows| + 1
      && (forall i :: 0 <= i < |rows| && Key(rows[i]) != (movieId, userId) ==> after[i] == rows[i])
      && (forall i :: |rows| <= i < |after| ==> Key(after[i]) == (movieId, userId))
  {
    match Lookup(rows, movieId, userId, readOk)
    case Some(e) =>
      var k :| 0 <= k < |rows| && rows[k] == e;
      assert forall i :: 0 <= i < |rows| && rows[i].id == e.id ==> i == k;
    case None =>
  }

  /**
   * A submitted review leaves the caller's row watched, with the score and
   * the review (an empty review stored as none), whether the row was
   * updated or inserted.
   */
  lemma SubmitReviewStores(rows: seq<Rating>, movieId: MovieId, userId: UserId, score: real, review: Option<string>, freshId: RowId)
    requires UniquePairs(rows)
    ensures var found := Lookup(Upserted(rows, SubmitReview(score, review), movieId, userId, true, freshId), movieId, userId, true);
      && found.Some?
      && found.value.watched
      && found.value.score == Some(score)
      && found.value.review == NullIfEmpty(review)
  {
    UpsertedLookup(rows, SubmitReview(score, review), movieId, userId, freshId);
  }

  /**
   * Toggling flips `watched` on the caller's row and touches nothing else of
   * it; with no row it creates one that is watched, without score or review.
   */
  lemma ToggleWatchedEffect(rows: seq<Rating>, movieId: MovieId, userId: UserId, freshId: RowId)
    requires UniquePairs(rows)
    ensures var before := Lookup(rows, movieId, userId, true);
      Lookup(Upserted(rows, ToggleWatched, movieId, userId, true, freshId), movieId, userId, true) ==
        if before.Some? then Some(before.value.(watched := !before.value.watched))
        else Some(Rating(freshId, movieId, userId, true, None, None))
  {
    UpsertedLookup(rows, ToggleWatched, movieId, userId, freshId);
  }

  /** Toggling twice gives back the table as it was, when the caller already had a row. */
  lemma ToggleTwiceRestores(rows: seq<Rating>, movieId: MovieId, userId: UserId, id1: RowId, id2: RowId)
    requires DistinctIds(rows)
    requires Lookup(rows, movieId, userId, true).Some?
    ensures Upserted(Upserted(rows, ToggleWatched, movieId, userId, true, id1), ToggleWatched, movieId, userId, true, id2) == rows
  {
    var e := Lookup(rows, movieId, userId, true).value;
    var once := UpdateWhereId(rows, e.id, ChangeFor(ToggleWatched, e));
    ToggleOnce(rows, movieId, userId, id1);
    var e2 := Apply(e, ChangeFor(ToggleWatched, e));
    assert Upserted(once, ToggleWatched, movieId, userId, true, id2) == UpdateWhereId(once, e2.id, ChangeFor(ToggleWatched, e2));
    ToggleBack(rows, e);
  }

  lemma ToggleOnce(rows: seq<Rating>, movieId: MovieId, userId: UserId, id1: RowId)
    requires Lookup(rows, movieId, userId, true).Some?
    ensures var e := Lookup(rows, movieId, userId, true).value;
      var once := UpdateWhereId(rows, e.id, ChangeFor(ToggleWatched, e));
      && Upserted(rows, ToggleWatched, movieId, userId, true, id1) == once
      && Lookup(once, movieId, userId, true) == Some(Apply(e, ChangeFor(ToggleWatched, e)))
  {
    var e := Lookup(rows, movieId, userId, true).value;
    var c1 := ChangeFor(ToggleWatched, e);
    MatchingUpdate(rows, e.id, c1, movieId, userId);
    assert Matching(rows, movieId, userId) == [e];
  }

  lemma ToggleBack(rows: seq<Rating>, e: Rating)
    requires DistinctIds(rows) && e in rows
    ensures var e2 := Apply(e, ChangeFor(ToggleWatched, e));
      UpdateWhereId(UpdateWhereId(rows, e.id, ChangeFor(ToggleWatched, e)), e2.id, ChangeFor(ToggleWatched, e2)) == rows
  {
    var k :| 0 <= k < |rows| && rows[k] == e;
    var e2 := Apply(e, ChangeFor(ToggleWatched, e));
    var once := UpdateWhereId(rows, e.id, ChangeFor(ToggleWatched, e));
    var twice := UpdateWhereId(once, e2.id, ChangeFor(ToggleWatched, e2));
    forall i | 0 <= i < |rows| ensures twice[i] == rows[i] {
      if rows[i].id == e.id {
        assert i == k;
      }
    }
  }

  /** A score update writes only the score, unchecked, so any score or none is stored. */
  lemma UpdateScoreEffect(rows: seq<Rating>, movieId: MovieId, userId: UserId, score: Option<real>, freshId: RowId)
    requires UniquePairs(rows)
    ensures var before := Lookup(rows, movieId, userId, true);
      Lookup(Upserted(rows, UpdateScore(score), movieId, userId, true, freshId), movieId, userId, true) ==
        if before.Some? then Some(before.value.(score := score))
        else Some(Rating(freshId, movieId, userId, true, score, None))
  {
    UpsertedLookup(rows, UpdateScore(score), movieId, userId, freshId);
  }

  /** A review update writes only the review; a new row for a review alone is not watched. */
  lemma UpdateReviewEffect(rows: seq<Rating>, movieId: MovieId, userId: UserId, text: string, freshId: RowId)
    requires UniquePairs(rows)
    ensures var before := Lookup(rows, movieId, userId, true);
      Lookup(Upserted(rows, UpdateReview(text), movieId, userId, true, freshId), movieId, userId, true) ==
        if before.Some? then Some(before.value.(review := NullIfEmpty(Some(text))))
        else Some(Rating(freshId, movieId, userId, false, None, NullIfEmpty(Some(text))))
  {
    UpsertedLookup(rows, UpdateReview(text), movieId, userId, freshId);
  }

  /**
   * When a pair already has two or more rows, or the lookup read fails, the
   * lookup finds nothing and the action inserts yet another row for the pair.
   */
  lemma DuplicatesKeepInserting(rows: seq<Rating>, a: Action, movieId: MovieId, userId: UserId, readOk: bool, freshId: RowId)
    requires !readOk || |Matching(rows, movieId, userId)| >= 2
    ensures |Matching(Upserted(rows, a, movieId, userId, readOk, freshId), movieId, userId)|
      == |Matching(rows, movieId, userId)| + 1
  {
    MatchingAppend(rows, Inserted(a, freshId, movieId, userId), movieId, userId);
  }

  /** A write keeps ids distinct and below the id counter, which moves on only for an insert. */
  lemma UpsertKeepsIds(rows: seq<Rating>, a: Action, movieId: MovieId, userId: UserId, readOk: bool, next: nat)
    requires DistinctIds(rows) && IdsBelow(rows, next)
    ensures var after := Upserted(rows, a, movieId, userId, readOk, next);
      && DistinctIds(after)
      && IdsBelow(after, if Lookup(rows, movieId, userId, readOk).Some? then next else next + 1)
  {
    var after := Upserted(rows, a, movieId, userId, readOk, next);
    match Lookup(rows, movieId, userId, readOk)
    case Some(e) =>
      assert forall i :: 0 <= i < |after| ==> after[i].id == rows[i].id;
    case None =>
      assert after == rows + [Inserted(a, next, movieId, userId)];
  }

  // ---------------------------------------------------------------------------
  // The table

  /** The `movie_ratings` table with the id the backend will give the next new row. */
  class RatingsTable {
    var rows: seq<Rating>
    var nextId: nat

    ghost predicate Valid()
      reads this
    {
      DistinctIds(rows) && IdsBelow(rows, nextId)
    }

    constructor ()
      ensures Valid() && rows == []
    {
      rows := [];
      nextId := 0;
    }

    /**
     * The lookup-then-update-or-insert shared by the four actions, for an
     * authenticated caller.  A failed write returns the backend's message
     * and changes nothing.
     */
    method Write(a: Action, movieId: MovieId, userId: UserId, readFails: bool, writeError: Option<string>)
      returns (r: ActionResult)
      requires Valid()
      modifies this
      ensures Valid()
      ensures writeError.Some? ==> r == Err(writeError.value) && rows == old(rows) && nextId == old(nextId)
      ensures writeError.None? ==> r == Ok && rows == Upserted(old(rows), a, movieId, userId, !readFails, old(nextId))
      ensures old(UniquePairs(rows)) && !readFails ==> UniquePairs(rows)
    {
      if writeError.Some? {
        return Err(writeError.value);
      }
      var existing := Lookup(rows, movieId, userId, !readFails);
      if UniquePairs(rows) && !readFails {
        UpsertKeepsPairsUnique(rows, a, movieId, userId, nextId);
      }
      UpsertKeepsIds(rows, a, movieId, userId, !readFails, nextId);
      match existing {
        case Some(e) =>
          rows := UpdateWhereId(rows, e.id, ChangeFor(a, e));
        case None =>
          rows := rows + [Inserted(a, nextId, movieId, userId)];
          nextId := nextId + 1;
      }
      r := Ok;
    }

    /**
     * `submitReview`: refused for an anonymous caller, then for a score
     * below 0 or above 10 (both ends allowed), before anything is read or
     * written.
     */
    method SubmitReviewAction(user: Option<UserId>, movieId: MovieId, score: real, review: Option<string>,
                              readFails: bool, writeError: Option<string>) returns (r: ActionResult)
      requires Valid()
      modifies this
      ensures Valid()
      ensures user.None? ==> r == Err(NotAuthenticated) && rows == old(rows) && nextId == old(nextId)
      ensures user.Some? && (score < 0.0 || score > 10.0) ==> r == Err(ScoreOutOfRange) && rows == old(rows) && nextId == old(nextId)
      ensures user.Some? && 0.0 <= score <= 10.0 && writeError.Some? ==>
        r == Err(writeError.value) && rows == old(rows) && nextId == old(nextId)
      ensures user.Some? && 0.0 <= score <= 10.0 && writeError.None? ==>
        r == Ok && rows == Upserted(old(rows), SubmitReview(score, review), movieId, user.value, !readFails, old(nextId))
      ensures old(UniquePairs(rows)) && !readFails ==> UniquePairs(rows)
    {
      if user.None? {
        return Err(NotAuthenticated);
      }
      if score < 0.0 || score > 10.0 {
        return Err(ScoreOutOfRange);
      }
      r := Write(SubmitReview(score, review), movieId, user.value, readFails, writeError);
    }

    /** `toggleWatched`. */
    method ToggleWatchedAction(user: Option<UserId>, movieId: MovieId, readFails: bool, writeError: Option<string>)
      returns (r: ActionResult)
      requires Valid()
      modifies this
      ensures Valid()
      ensures user.None? ==> r == Err(NotAuthenticated) && rows == old(rows) && nextId == old(nextId)
      ensures user.Some? && writeError.Some? ==> r == Err(writeError.value) && rows == old(rows) && nextId == old(nextId)
      ensures user.Some? && writeError.None? ==>
        r == Ok && rows == Upserted(old(rows), ToggleWatched, movieId, user.value, !readFails, old(nextId))
      ensures old(UniquePairs(rows)) && !readFails ==> UniquePairs(rows)
    {
      if user.None? {
        return Err(NotAuthenticated);
      }
      r := Write(ToggleWatched, movieId, user.value, readFails, writeError);
    }

    /** `updateScore`: no range check here, and no score at all is allowed. */
    method UpdateScoreAction(user: Option<UserId>, movieId: MovieId, score: Option<real>,
                             readFails: bool, writeError: Option<string>) returns (r: ActionResult)
      requires Valid()
      modifies this
      ensures Valid()
      ensures user.None? ==> r == Err(NotAuthenticated) && rows == old(rows) && nextId == old(nextId)
      ensures user.Some? && writeError.Some? ==> r == Err(writeError.value) && rows == old(rows) && nextId == old(nextId)
      ensures user.Some? && writeError.None? ==>
        r == Ok && rows == Upserted(old(rows), UpdateScore(score), movieId, user.value, !readFails, old(nextId))
      ensures old(UniquePairs(rows)) && !readFails ==> UniquePairs(rows)
    {
      if user.None? {
        return Err(NotAuthenticated);
      }
      r := Write(UpdateScore(score), movieId, user.value, readFails, writeError);
    }

    /** `updateReview`. */
    method UpdateReviewAction(user: Option<UserId>, movieId: MovieId, review: string,
                              readFails: bool, writeError: Option<string>) returns (r: ActionResult)
      requires Valid()
      modifies this
      ensures Valid()
      ensures user.None? ==> r == Err(NotAuthenticated) && rows == old(rows) && nextId == old(nextId)
      ensures user.Some? && writeError.Some? ==> r == Err(writeError.value) && rows == old(rows) && nextId == old(nextId)
      ensures user.Some? && writeError.None? ==>
        r == Ok && rows == Upserted(old(rows), UpdateReview(review), movieId, user.value, !readFails, old(nextId))
      ensures old(UniquePairs(rows)) && !readFails ==> UniquePairs(rows)
    {
      if user.None? {
        return Err(NotAuthenticated);
      }
      r := Write(UpdateReview(review), movieId, user.value, readFails, writeError);
    }
  }
}

/**
 * What a movie card derives from a movie's ratings and the club's members
 * before rendering: the viewer's own rating, the other members and what is
 * shown of each of their ratings, the "N others watched" count and label,
 * and the initials in each avatar.
 */
module MovieCard {
  import opened Common
  import opened JsText
  import opened Schema

  // ---------------------------------------------------------------------------
  // Initials

  /** `part[0]` as `join` sees it: the first character, or nothing for an empty part. */
  function FirstChar(part: string): string {
    if part == [] then [] else [part[0]]
  }

  /** `parts.map((part) => part[0]).join("")`. */
  function Firsts(parts: seq<string>): string {
    if parts == [] then [] else FirstChar(parts[0]) + Firsts(parts[1..])
  }

  /**
   * Reference definition of a name's initial letters: every character that
   * is not a space and stands first or right after a space, in order.
   */
  function WordStarts(s: string, atStart: bool): string {
    if s == [] then []
    else (if s[0] != ' ' && atStart then [s[0]] else []) + WordStarts(s[1..], s[0] == ' ')
  }

  /** Splitting on spaces and taking each part's first character picks exactly the word starts. */
  lemma {:induction false} FirstsOfSplit(s: string)
    ensures Firsts(Split(s, ' ')) == WordStarts(s, true)
    ensures Firsts(Split(s, ' ')[1..]) == WordStarts(s, false)
  {
    if s != [] {
      var rest := Split(s[1..], ' ');
      FirstsOfSplit(s[1..]);
      if s[0] == ' ' {
        var parts := [[]] + rest;
        assert parts[1..] == rest;
        assert Firsts(parts) == [] + Firsts(rest);
      } else {
        var parts := [[s[0]] + rest[0]] + rest[1..];
        assert parts[1..] == rest[1..];
        assert Firsts(parts) == [s[0]] + Firsts(rest[1..]);
      }
    }
  }

  /**
   * `getInitials`: the upper-cased first letters of the space-separated
   * words of the name, at most two of them.
   */
  function GetInitials(name: string): (initials: string)
    ensures |initials| <= 2
    ensures |initials| == if |WordStarts(name, true)| < 2 then |WordStarts(name, true)| else 2
    ensures initials == Upper(WordStarts(name, true))[..|initials|]
  {
    FirstsOfSplit(name);
    var all := Upper(Firsts(Split(name, ' ')));
    if |all| <= 2 then all else all[..2]
  }

  lemma {:induction false} WordStartsConcat(a: string, b: string, atStart: bool)
    ensures WordStarts(a + b, atStart) ==
      WordStarts(a, atStart) + WordStarts(b, if a == [] then atStart else a[|a| - 1] == ' ')
  {
    if a == [] {
      assert a + b == b;
    } else {
      assert (a + b)[1..] == a[1..] + b;
      WordStartsConcat(a[1..], b, a[0] == ' ');
    }
  }

  lemma {:induction false} WordStartsOfWord(w: string, atStart: bool)
    requires w != [] && ' ' !in w
    ensures WordStarts(w, atStart) == if atStart then [w[0]] else []
  {
    WordStartsInside(w[1..]);
  }

  lemma {:induction false} WordStartsInside(w: string)
    requires ' ' !in w
    ensures WordStarts(w, false) == []
  {
    if w != [] { WordStartsInside(w[1..]); }
  }

  /** A first and a last name give the two upper-cased first letters, e.g. "John Smith" gives "JS". */
  lemma InitialsOfFullName(first: string, last: string)
    requires first != [] && last != [] && ' ' !in first && ' ' !in last
    ensures GetInitials(first + " " + last) == [UpperChar(first[0]), UpperChar(last[0])]
  {
    var name := first + " " + last;
    assert name == first + (" " + last);
    WordStartsConcat(first, " " + last, true);
    WordStartsOfWord(first, true);
    WordStartsConcat(" ", last, true);
    assert WordStarts(" ", true) == [];
    WordStartsOfWord(last, true);
    var starts := WordStarts(name, true);
    assert starts == [first[0], last[0]];
    assert Upper(starts) == [UpperChar(first[0]), UpperChar(last[0])];
  }

  lemma InitialsExample(name: string)
    requires name == "John Smith"
    ensures GetInitials(name) == "JS"
    ensures GetInitials("") == ""
  {
    InitialsOfFullName("John", "Smith");
    assert name == "John" + " " + "Smith";
  }

  // ---------------------------------------------------------------------------
  // The viewer's rating and the other members

  /** The position of the first rating by `user`, or the length when there is none. */
  function FirstRatingBy(ratings: seq<Rating>, user: UserId): (k: nat)
    ensures k <= |ratings|
    ensures forall j :: 0 <= j < k ==> ratings[j].userId != user
    ensures k < |ratings| ==> ratings[k].userId == user
  {
    if ratings == [] then 0
    else if ratings[0].userId == user then 0
    else 1 + FirstRatingBy(ratings[1..], user)
  }

  /**
   * `ratings.find((r) => r.user_id === user) ?? null`: the first rating by
   * that member, or none when the member has not rated the movie.
   */
  function RatingOf(ratings: seq<Rating>, user: UserId): (r: Option<Rating>)
    ensures r.None? <==> forall i :: 0 <= i < |ratings| ==> ratings[i].userId != user
    ensures r.Some? ==> r.value.userId == user
    ensures r.Some? ==>
      exists k :: 0 <= k < |ratings| && ratings[k] == r.value && forall j :: 0 <= j < k ==> ratings[j].userId != user
  {
    var k := FirstRatingBy(ratings, user);
    if k < |ratings| then Some(ratings[k]) else None
  }

  /** `profiles.filter((p) => p.id !== viewer)`: every member but the viewer. */
  function OtherProfiles(profiles: seq<Profile>, viewer: UserId): (others: seq<Profile>)
    ensures |others| <= |profiles|
    ensures forall p :: p in others <==> p in profiles && p.id != viewer
  {
    if profiles == [] then []
    else (if profiles[0].id != viewer then [profiles[0]] else []) + OtherProfiles(profiles[1..], viewer)
  }

  /** Filtering keeps the members' order: it works piece by piece on a concatenation. */
  lemma {:induction false} OtherProfilesAppend(a: seq<Profile>, b: seq<Profile>, viewer: UserId)
    ensures OtherProfiles(a + b, viewer) == OtherProfiles(a, viewer) + OtherProfiles(b, viewer)
  {
    if a == [] {
      assert a + b == b;
    } else {
      assert (a + b)[1..] == a[1..] + b;
      OtherProfilesAppend(a[1..], b, viewer);
    }
  }

  /** The number of ratings by other members that say "watched". */
  function OthersWatched(ratings: seq<Rating>, viewer: UserId): (n: nat)
    ensures n <= |ratings|
    ensures n == 0 <==> forall i :: 0 <= i < |ratings| ==> ratings[i].userId == viewer || !ratings[i].watched
  {
    if ratings == [] then 0
    else (if ratings[0].userId != viewer && ratings[0].watched then 1 else 0) + OthersWatched(ratings[1..], viewer)
  }

  lemma {:induction false} OthersWatchedAppend(a: seq<Rating>, b: seq<Rating>, viewer: UserId)
    ensures OthersWatched(a + b, viewer) == OthersWatched(a, viewer) + OthersWatched(b, viewer)
  {
    if a == [] {
      assert a + b == b;
    } else {
      assert (a + b)[1..] == a[1..] + b;
      OthersWatchedAppend(a[1..], b, viewer);
    }
  }

  // ---------------------------------------------------------------------------
  // Labels

  function PluralSuffix(n: nat): string {
    if n != 1 then "s" else ""
  }

  /** "N other(s) watched", shown only when some other member watched. */
  function OthersWatchedLabel(count: nat): (text: Option<string>)
    ensures text.None? <==> count == 0
    ensures text.Some? ==> StartsWith(text.value, NatToString(count) + " other")
    ensures text.Some? ==> (EndsWith(text.value, "s watched") <==> count != 1)
  {
    if count > 0 then
      var head := NatToString(count) + " other";
      var s := head + PluralSuffix(count) + " watched";
      assert s[..|head|] == head;
      assert count != 1 ==> s[|s| - 9..] == "s watched";
      assert count == 1 ==> s[|s| - 9] == 'r';
      Some(s)
    else None
  }

  /** "See N other rating(s)", shown only when the club has other members. */
  function OtherRatingsLabel(otherCount: nat): (text: Option<string>)
    ensures text.None? <==> otherCount == 0
    ensures text.Some? ==> StartsWith(text.value, "See " + NatToString(otherCount) + " other rating")
    ensures text.Some? ==> (EndsWith(text.value, "ratings") <==> otherCount != 1)
  {
    if otherCount > 0 then
      var head := "See " + NatToString(otherCount) + " other rating";
      var s := head + PluralSuffix(otherCount);
      assert s[..|head|] == head;
      assert otherCount != 1 ==> s[|s| - 7..] == "ratings";
      assert otherCount == 1 ==> s[|s| - 7] == ' ';
      Some(s)
    else None
  }

  // ---------------------------------------------------------------------------
  // What is shown of another member's rating

  /** The parts of another member's rating that the card renders. */
  datatype MemberView = MemberView(watched: bool, score: Option<real>, review: Option<string>)

  /**
   * "Watched" and the score appear only for a watched rating with a score;
   * the review appears whenever it is non-empty, watched or not.
   */
  function MemberViewOf(rating: Option<Rating>): (v: MemberView)
    ensures v.watched <==> rating.Some? && rating.value.watched
    ensures v.score.Some? <==> v.watched && rating.value.score.Some?
    ensures v.score.Some? ==> v.score == rating.value.score
    ensures v.review.Some? <==> rating.Some? && rating.value.review.Some? && rating.value.review.value != []
    ensures v.review.Some? ==> v.review == rating.value.review
  {
    match rating
    case None => MemberView(false, None, None)
    case Some(r) =>
      MemberView(r.watched,
        if r.watched && r.score.Some? then r.score else None,
        if r.review.Some? && r.review.value != [] then r.review else None)
  }

  /** The other members' rows of the card, in member order. */
  function OtherRows(ratings: seq<Rating>, profiles: seq<Profile>, viewer: UserId): (rows: seq<(Profile, MemberView)>)
    ensures |rows| == |OtherProfiles(profiles, viewer)|
    ensures forall i :: 0 <= i < |rows| ==> rows[i].0.id != viewer
    ensures forall i :: 0 <= i < |rows| ==>
      rows[i] == (OtherProfiles(profiles, viewer)[i], MemberViewOf(RatingOf(ratings, OtherProfiles(profiles, viewer)[i].id)))
  {
    var others := OtherProfiles(profiles, viewer);
    seq(|others|, i requires 0 <= i < |others| => (others[i], MemberViewOf(RatingOf(ratings, others[i].id))))
  }

  function WithoutUser(ratings: seq<Rating>, user: UserId): seq<Rating> {
    if ratings == [] then []
    else (if ratings[0].userId != user then [ratings[0]] else []) + WithoutUser(ratings[1..], user)
  }

  lemma {:induction false} RatingOfIgnoresOthers(ratings: seq<Rating>, viewer: UserId, member: UserId)
    requires member != viewer
    ensures RatingOf(WithoutUser(ratings, viewer), member) == RatingOf(ratings, member)
  {
    if ratings != [] {
      RatingOfIgnoresOthers(ratings[1..], viewer, member);
      var rest := WithoutUser(ratings[1..], viewer);
      if ratings[0].userId != viewer {
        var w := [ratings[0]] + rest;
        assert w[1..] == rest;
        RatingOfHead(w, member);
      } else {
        assert WithoutUser(ratings, viewer) == rest;
      }
      RatingOfHead(ratings, member);
    }
  }

  lemma RatingOfHead(ratings: seq<Rating>, member: UserId)
    requires ratings != []
    ensures RatingOf(ratings, member) ==
      if ratings[0].userId == member then Some(ratings[0]) else RatingOf(ratings[1..], member)
  {
  }

  /**
   * There is no review gate: what the viewer sees of every other member's
   * rating does not depend on the viewer's own rating, or on whether the
   * viewer has one at all.
   */
  lemma NoReviewGate(ratings: seq<Rating>, profiles: seq<Profile>, viewer: UserId)
    ensures OtherRows(WithoutUser(ratings, viewer), profiles, viewer) == OtherRows(ratings, profiles, viewer)
  {
    var others := OtherProfiles(profiles, viewer);
    forall i | 0 <= i < |others|
      ensures RatingOf(WithoutUser(ratings, viewer), others[i].id) == RatingOf(ratings, others[i].id)
    {
      assert others[i] in others;
      RatingOfIgnoresOthers(ratings, viewer, others[i].id);
    }
  }

  /** The avatar of the viewer: their initials, or "?" when they have no profile. */
  function ViewerInitials(profiles: seq<Profile>, viewer: UserId): (s: string)
    ensures (forall i :: 0 <= i < |profiles| ==> profiles[i].id != viewer) ==> s == "?"
    ensures forall k :: (0 <= k < |profiles| && profiles[k].id == viewer
      && (forall j :: 0 <= j < k ==> profiles[j].id != viewer)) ==> s == GetInitials(profiles[k].displayName)
    ensures |s| <= 2
  {
    if profiles == [] then "?"
    else if profiles[0].id == viewer then GetInitials(profiles[0].displayName)
    else ViewerInitials(profiles[1..], viewer)
  }
}

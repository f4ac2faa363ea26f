# Movie club: a Dafny model of the decision logic

The movie club is a small web application. Members sign in with an email
link or a one-time SMS code. They propose movies, mark one movie as the one
the club is "currently watching", and record per movie whether they watched
it, a score from 0 to 10 and a short review. All data sits in three backend
tables (`profiles`, `movies`, `movie_ratings`), which the server actions
read and write directly.

This project models the sequential decision code between the pages and the
backend, and proves what it guarantees:

- `Ratings`: the four rating actions (`submitReview`, `toggleWatched`,
  `updateScore`, `updateReview`). They are methods of a `RatingsTable` class
  whose `rows` field is the `movie_ratings` table. Each action looks up the
  caller's row for the movie with a `.single()` read. It then updates that
  row by id or inserts a new one. Each action has its own defaults and its
  own set of fields that it writes.
- `Movies`: `addMovie`, the ordered guards of `deleteMovie`,
  `setCurrentMovie` and `clearCurrentMovie`, as methods of a `MoviesTable`
  class. It also has the listing order of `getMoviesWithRatings`.
- `Auth`: the required-field checks, phone normalisation, display-name
  fallbacks, the request each sign-in action sends, and `updateProfile` on a
  `ProfilesTable` class.
- `Tmdb`: `getPosterUrl` and `getYear`.
- `RouteGuard`: how the request middleware classifies paths and chooses a
  redirect.
- `MovieCard`: the values the movie card derives. These are initials, the
  viewer's rating, the count of other members who watched, the other
  profiles, the labels, and what is shown for each other member.
- Supporting modules:
  - `JsText` holds the JavaScript string operations the code relies on, with
    their ECMAScript meaning: `trim` and its white-space set, `split`,
    `parseInt(s, 10)`, ASCII `toUpperCase` and number-to-text.
  - `Schema` holds the table rows of `src/lib/types/database.ts`.
  - `Common` holds `Option` and the `{ error } | { success }` action result.

The backend is abstracted as in-memory tables. The signed-in user is an
`Option<UserId>` parameter. The outcome of each backend call is also a
parameter: `readFails` for a read that errors, and `writeError` for a write
that the backend rejects with a message. The actions therefore model every
backend outcome, not just the successful one.

For every other member, the card shows the score of a watched rating and
any non-empty review, whatever the viewer has rated
(`src/components/movie-card.tsx:104-144`).
`MovieCard.NoReviewGate` proves that what the card shows for other members
does not depend on the viewer's own rating at all.

## Model

| member | source | states |
|---|---|---|
| Common.NullIfEmpty | src/actions/ratings.ts:42 | an empty text stored as null: no value exactly when the text is missing or empty; otherwise the text itself |
| Ratings.Lookup | src/actions/ratings.ts:27-34 | the `.single()` lookup yields a row exactly when the read succeeds and the table holds exactly one row of the caller's (movie, user) pair, and then it is that row |
| Ratings.ChangeFor | src/actions/ratings.ts:39-43 | the update each action sends for an existing row: `submitReview` sets watched, the score and the review (empty as none); `toggleWatched` flips watched; `updateScore` sets the score; `updateReview` sets the review (empty as none); id, movie and user never change |
| Ratings.Inserted | src/actions/ratings.ts:50-56 | the row each action inserts has the fresh id and the caller's pair; it is watched except for `updateReview`; the score and review are the ones the action gives, or none |
| Ratings.Upserted | src/actions/ratings.ts:27-61 | an action adds exactly one row, the inserted one at the end, when the lookup finds nothing; otherwise the length is kept and only rows with the found row's id may change |
| Ratings.UpdateWhereId | src/actions/ratings.ts:37-44 | an update by id changes exactly the rows with that id and leaves every other row and the length as they were |
| Ratings.MatchingAtMostOne | src/actions/ratings.ts:27-32 | when the table holds at most one row per (movie, user) pair, the lookup matches at most one row |
| Ratings.UpsertedLookup | src/actions/ratings.ts:27-61 | after any action with a successful read, looking the pair up again finds exactly the changed existing row or the newly inserted one |
| Ratings.UpsertKeepsPairsUnique | src/actions/ratings.ts:36-50 | each action inserts only when the lookup finds nothing, so at most one row per pair before means at most one after |
| Ratings.UpsertLeavesOtherPairs | src/actions/ratings.ts:44 | with distinct row ids, every row of another (movie, user) pair keeps its place and content; at most one row is added, and it belongs to the caller's pair |
| Ratings.SubmitReviewStores | src/actions/ratings.ts:36-56 | after `submitReview` the caller's row is watched and has the given score and the review (empty stored as none), whether it was updated or inserted |
| Ratings.ToggleWatchedEffect | src/actions/ratings.ts:88-104 | `toggleWatched` flips `watched` on the existing row and changes no other field; with no row it creates a watched row without score or review |
| Ratings.ToggleTwiceRestores | src/actions/ratings.ts:88-93 | toggling twice gives back exactly the table it started from, when the caller had a row |
| Ratings.UpdateScoreEffect | src/actions/ratings.ts:136-151 | `updateScore` changes only the score (any value or none, unchecked); with no row it creates a watched row with that score |
| Ratings.UpdateReviewEffect | src/actions/ratings.ts:183-198 | `updateReview` changes only the review (empty stored as none); with no row it creates an unwatched row with that review |
| Ratings.DuplicatesKeepInserting | src/actions/ratings.ts:27-36 | when a pair already has two rows, or the lookup read fails, the action inserts yet another row for that pair |
| Ratings.UpsertKeepsIds | src/actions/ratings.ts:50-56 | a write keeps row ids distinct; a new row takes a fresh id |
| Ratings.RatingsTable.Write | src/actions/ratings.ts:36-61 | a rejected write returns the backend message and leaves the table unchanged; otherwise the table becomes the upsert of the action; at most one row per pair is kept when the read succeeds |
| Ratings.RatingsTable.SubmitReviewAction | src/actions/ratings.ts:7-65 | anonymous caller: "Not authenticated"; score below 0 or above 10: refused before any read or write (0 and 10 accepted); otherwise the upsert or the write error |
| Ratings.RatingsTable.ToggleWatchedAction | src/actions/ratings.ts:67-113 | anonymous caller: "Not authenticated" with the table unchanged; otherwise the toggle upsert or the write error |
| Ratings.RatingsTable.UpdateScoreAction | src/actions/ratings.ts:115-160 | anonymous caller: "Not authenticated" with the table unchanged; otherwise the score upsert without a range check, or the write error |
| Ratings.RatingsTable.UpdateReviewAction | src/actions/ratings.ts:162-207 | anonymous caller: "Not authenticated" with the table unchanged; otherwise the review upsert or the write error |
| Movies.FormNumber | src/actions/movies.ts:75-76 | a number field is absent exactly when the form text is missing or empty; otherwise it is the `parseInt` value of the text |
| Movies.FormNumberOfDigits | src/actions/movies.ts:75 | a field of decimal digits is stored as its value |
| Movies.FormNumberNotANumber | src/actions/movies.ts:75-76 | a non-empty field that does not start like a number is stored as NaN, not as absent |
| Movies.NewMovie | src/actions/movies.ts:73-80 | the inserted movie has the given title, the caller as `added_by`, the parsed year and TMDB id, and the poster URL and description with empty texts stored as none |
| Movies.FindMovie | src/actions/movies.ts:103-111 | the movie found has the requested id; none is found exactly when no movie has it |
| Movies.WithoutMovie | src/actions/movies.ts:133 | the delete keeps exactly the movies with another id |
| Movies.WithoutMovieKeepsValid | src/actions/movies.ts:133 | deleting keeps movie ids distinct and keeps at most one movie current |
| Movies.WithCurrentFlag | src/actions/movies.ts:156-159 | the update keeps the length and every field but `is_current`; rows with the target id get the new flag and every other row is unchanged |
| Movies.AfterCurrentTrigger | src/actions/movies.ts:155 | the assumed trigger changes at most `is_current`: when the target exists, it stays as it was and every other movie is unmarked; when it does not exist, nothing changes |
| Movies.SetCurrentAloneAllowsTwo | src/actions/movies.ts:155-159 | without the trigger, the update alone turns a table with one current movie into one with two |
| Movies.SetCurrentWithTrigger | src/actions/movies.ts:155-159 | with the trigger, after setting, exactly the target movie is current (or nothing changed for a missing id), so at most one movie is current |
| Movies.ClearCurrentKeepsOne | src/actions/movies.ts:181-184 | clearing the flag never creates a second current movie |
| Movies.WatchedRatingQuery | src/actions/movies.ts:118-123 | the `limit(1)` query returns at most one id, one exactly when the movie has a watched rating, and then the id of such a rating |
| Movies.HasReviews | src/actions/movies.ts:129 | the delete is blocked exactly when some rating of the movie is marked watched |
| Movies.UnwatchedRatingsDoNotBlock | src/actions/movies.ts:118-131 | adding ratings that are not watched never changes whether a movie counts as having reviews |
| Movies.ListedBefore | src/actions/movies.ts:25-26 | a current movie comes before one that is not; between equals in that flag, the later `created_at` comes first |
| Movies.ListedBeforeIsTotalPreorder | src/actions/movies.ts:25-26 | the listing order is reflexive, total and transitive, so sorting by it is well defined up to ties |
| Movies.InsertListed | src/actions/movies.ts:25-26 | inserting into an ordered listing keeps it ordered and adds exactly that movie |
| Movies.ListingOrder | src/actions/movies.ts:25-26 | the listing puts current movies first, then newest `created_at` first, and is a permutation of the table |
| Movies.RatingsOf | src/actions/movies.ts:19 | the nested ratings of a movie are exactly the ratings with its id |
| Movies.MoviesWithRatings | src/actions/movies.ts:11-34 | a failed query gives an empty list; otherwise every movie appears once, in listing order, each with its own ratings |
| Movies.MoviesTable.AddMovie | src/actions/movies.ts:52-89 | "Not authenticated", then "Title is required" for a missing or empty title (a title of spaces passes), neither inserting; otherwise one row is appended with the parsed numbers, empty texts as none and the caller as `added_by`, or the write error leaves the table unchanged; the id counter advances only on a successful insert |
| Movies.MoviesTable.DeleteMovie | src/actions/movies.ts:91-142 | the guards in order are the session, "Movie not found", the current flag, "Failed to check reviews" and any watched rating; every refusal leaves the table unchanged, and success removes exactly that movie; the id counter never changes |
| Movies.MoviesTable.SetCurrentMovie | src/actions/movies.ts:144-168 | with a session and no write error, the flag is set on the target and the trigger unmarks the rest; the class invariant keeps at most one movie current; the id counter never changes |
| Movies.MoviesTable.ClearCurrentMovie | src/actions/movies.ts:170-193 | with a session and no write error, only the target's flag is cleared, with no existence check; the id counter never changes |
| Auth.Digits | src/actions/auth.ts:44 | removing non-digits leaves only decimal digits |
| Auth.NormalizePhone | src/actions/auth.ts:43-56 | the normalised number starts with "+" and every later character is a decimal digit |
| Auth.NormalizePhoneDigits | src/actions/auth.ts:47-56 | the result is "+1" and the digits for exactly ten digits, else "+" and the digits; the eleven-digit branch equals the fallback |
| Auth.NormalizePhoneIdempotent | src/actions/auth.ts:44-56 | normalising a normalised number changes nothing |
| Auth.NormalizeDashedUsNumber | src/actions/auth.ts:47-49 | "555-123-4567" becomes "+15551234567" |
| Auth.NormalizeUsNumberWithCode | src/actions/auth.ts:50-52 | "15551234567" becomes "+15551234567" |
| Auth.NormalizeSpacedNumber | src/actions/auth.ts:53-56 | "+" followed by four space-separated groups of digits (not ten in total) keeps those digits behind "+" |
| Auth.NormalizeInternationalNumber | src/actions/auth.ts:53-56 | "+44 20 7946 0958" becomes "+442079460958" |
| Auth.EffectiveDisplayName | src/actions/auth.ts:63 | the fallback, or the trimmed given name when that is not empty |
| Auth.BlankDisplayNameFallsBack | src/actions/auth.ts:63 | a name of white space only gives the fallback |
| Auth.PaddedDisplayNameIsTrimmed | src/actions/auth.ts:21 | a name with surrounding white space is used without it |
| Auth.EmailLocalPart | src/actions/auth.ts:21 | the fallback name is the part of the email before its first "@" (all of it when there is none) |
| Auth.MagicLinkSignIn | src/actions/auth.ts:10-29 | an empty or missing email gives "Email is required"; otherwise the request carries the email, the callback URL and the name `EffectiveDisplayName` picks: the trimmed given name when it is not blank, else the email's local part |
| Auth.PhoneOtpSignIn | src/actions/auth.ts:38-70 | an empty phone gives "Phone number is required"; otherwise the request carries the normalised number and the name `EffectiveDisplayName` picks: the trimmed given name when it is not blank, else that number |
| Auth.PhoneWithoutDigits | src/actions/auth.ts:39-55 | a non-empty phone without digits is not refused and is sent as "+" |
| Auth.VerifyOtpInput | src/actions/auth.ts:82-84 | "Phone and code are required" exactly when either is empty |
| Auth.Renamed | src/actions/auth.ts:141-144 | only the caller's row changes, and only in `display_name` |
| Auth.ProfilesTable.UpdateProfile | src/actions/auth.ts:125-151 | an empty name is refused before the session is checked, then an anonymous caller; refusals and write errors leave the table unchanged; success renames only the caller, untrimmed |
| Tmdb.PosterUrl | src/lib/tmdb.ts:16-18 | no URL exactly for a null or empty path; otherwise the TMDB image base, then the size (default "w342"), then the path |
| Tmdb.GetYear | src/lib/tmdb.ts:21-24 | no year for a null or empty date; a year given is never negative |
| Tmdb.FirstPieceBefore | src/lib/tmdb.ts:23 | the piece before the first "-" is the text up to it |
| Tmdb.GetYearOfDate | src/lib/tmdb.ts:23 | optional white space and "+", then digits, then non-digits, then "-": the year is the value of those digits |
| Tmdb.GetYearWithoutDigits | src/lib/tmdb.ts:23-24 | when no digit follows the optional white space and "+" of the text before the first "-" (or of the whole date when it has none), there is no year; after a "+", white space counts as a non-digit |
| Tmdb.GetYearOfWordExample | src/lib/tmdb.ts:21-24 | "abc" gives no year |
| Tmdb.GetYearSpaceAfterPlusExample | src/lib/tmdb.ts:21-24 | "+ 2024-05-01" gives no year, because white space after the sign stops the parse |
| Tmdb.GetYearWithoutDash | src/lib/tmdb.ts:21-24 | a date without any "-" is parsed whole: optional white space and "+", digits, then a non-digit tail give the digits' value |
| Tmdb.GetYearOfBareYear | src/lib/tmdb.ts:21-24 | "2024" gives 2024 |
| Tmdb.GetYearExample | src/lib/tmdb.ts:21-24 | "2024-05-01" gives 2024 |
| JsText.Trim | src/actions/auth.ts:21 | `trim` gives a slice of the text such that everything before and after it is white space and the slice neither starts nor ends with white space; it is empty exactly when the text is all white space |
| JsText.Split | src/components/movie-card.tsx:155 | `split` on one character gives at least one part, none containing the separator |
| JsText.JoinSplit | src/components/movie-card.tsx:155-157 | joining the parts of a split with the separator gives the text back |
| JsText.FirstPiece | src/lib/tmdb.ts:23 | `split(sep)[0]`: the prefix before the first separator, or all the text |
| JsText.SplitFirstIsFirstPiece | src/lib/tmdb.ts:23 | the first part of a split is that prefix |
| JsText.ParseInt | src/lib/tmdb.ts:23 | a number parsed from text without "-" is never negative |
| JsText.ParseIntOfDigits | src/lib/tmdb.ts:23 | digits followed by a non-digit parse to the value of the digits |
| JsText.ParseIntSkipsSpace | src/lib/tmdb.ts:23 | leading white space does not change the result |
| JsText.ParseIntSkipsPlus | src/lib/tmdb.ts:23 | one leading "+" does not change the result when the character after it is neither white space nor a sign |
| JsText.NatToString | src/components/movie-card.tsx:67 | a count's text is non-empty decimal digits without a leading zero, whose value is the count |
| RouteGuard.IsProtectedPath | src/lib/supabase/middleware.ts:46-51 | the home page is protected, and every protected path is "/" or starts with "/a" |
| RouteGuard.IsAuthPath | src/lib/supabase/middleware.ts:54-57 | "/login" is an auth path, and every auth path has at least six characters and starts with "/l" or "/v" |
| RouteGuard.Route | src/lib/supabase/middleware.ts:59-71 | redirect to "/login" exactly for a protected path without a user; redirect to "/" exactly for an auth path with a user; pass-through exactly otherwise; a redirect keeps the rest of the URL |
| RouteGuard.NoPathIsBoth | src/lib/supabase/middleware.ts:46-57 | no path is both protected and an auth path |
| RouteGuard.NoRedirectLoop | src/lib/supabase/middleware.ts:59-69 | the target of a redirect passes through under the same user state |
| RouteGuard.AuthPathIsPrefixMatch | src/lib/supabase/middleware.ts:54-57 | any path that merely starts with "/login" or "/verify" is an auth path |
| MovieCard.FirstsOfSplit | src/components/movie-card.tsx:155-157 | the first characters of the space-separated parts are the characters that start a word |
| MovieCard.GetInitials | src/components/movie-card.tsx:153-159 | at most two characters: the first two word starts, upper-cased and in order (fewer when there are fewer words) |
| MovieCard.InitialsOfFullName | src/components/movie-card.tsx:153-159 | two words separated by one space give their upper-cased first letters |
| MovieCard.InitialsExample | src/components/movie-card.tsx:153-159 | "John Smith" gives "JS" and "" gives "" |
| MovieCard.RatingOf | src/components/movie-card.tsx:26 | the viewer's rating is the first rating by that user; none exactly when there is no rating by them |
| MovieCard.RatingOfHead | src/components/movie-card.tsx:107 | the lookup takes the first rating when it is the member's, else searches the rest |
| MovieCard.OtherProfiles | src/components/movie-card.tsx:25 | exactly the profiles other than the viewer's |
| MovieCard.OtherProfilesAppend | src/components/movie-card.tsx:25 | the filter works part by part, so the order of the profiles is kept |
| MovieCard.OthersWatched | src/components/movie-card.tsx:29-31 | at most the number of ratings; zero exactly when no other member's rating is watched |
| MovieCard.OthersWatchedAppend | src/components/movie-card.tsx:29-31 | the count adds up over concatenated rating lists |
| MovieCard.OthersWatchedLabel | src/components/movie-card.tsx:64-67 | shown exactly when the count is above 0; starts with the count and " other"; ends in "s watched" exactly when the count is not 1 |
| MovieCard.OtherRatingsLabel | src/components/movie-card.tsx:94-100 | shown exactly when there are other members; ends in "ratings" exactly when there is not one |
| MovieCard.MemberViewOf | src/components/movie-card.tsx:120-140 | a score is shown only for a watched rating with a score; the review is shown whenever it is non-empty, watched or not |
| MovieCard.OtherRows | src/components/movie-card.tsx:106-107 | one row per other member, never the viewer, in profile order: row i pairs the i-th other profile with what is shown for that member's rating |
| MovieCard.RatingOfIgnoresOthers | src/components/movie-card.tsx:107 | another member's rating is found the same way whether or not the viewer's ratings are present |
| MovieCard.NoReviewGate | src/components/movie-card.tsx:104-144 | what the card shows for other members is the same whatever the viewer has rated: there is no visibility gate |
| MovieCard.ViewerInitials | src/components/movie-card.tsx:79 | "?" when the viewer has no profile; otherwise the initials of the display name of the first profile with the viewer's id; never more than two characters |

## Left out

- The Supabase and Next.js calls are not modelled. This covers the client
  construction, `auth.getUser`, `signInWithOtp`, `verifyOtp`, `signOut`,
  `redirect`, `revalidatePath` and the cookie handling of the middleware.
  The user, each read failure and each write error are parameters instead.
- The provider's response to a one-time-code or magic-link request is not
  modelled. `Auth.MagicLinkSignIn` and `Auth.PhoneOtpSignIn` produce the
  request that would be sent.
- Console logging is not modelled.
- Concurrency is not modelled: two devices acting at once, and
  last-write-wins between them.
- Row ids and movie ids are natural numbers from a counter (`nextId`), in
  place of the backend's UUID generation.
- `created_at` is a `now` parameter of `AddMovie`. The ratings'
  `updated_at` is set by the backend and is not modelled.
- Movies.NewMovie: `is_current` of a new movie is taken to be false. The
  column default is not visible in this code base.
- Movies.AfterCurrentTrigger: the database trigger that unmarks the other
  movies is not part of this code base. Its behaviour is an assumption.
  `Movies.SetCurrentAloneAllowsTwo` shows that without it the code allows
  two current movies.
- Movies.MoviesTable.DeleteMovie: what the database does with the unwatched ratings of a
  deleted movie depends on its foreign-key rule, which is not visible here.
  The ratings table is left as it is.
- Movies.FormNumber: NaN is kept as a value. Encoding the insert as JSON
  would turn it into null before it reaches the database. The model keeps
  the value the code computes.
- JsText.ParseInt: integers are unbounded. The loss of precision of
  JavaScript numbers above 2^53 is not modelled.
- JsText.Upper: upper-casing is ASCII only. Full Unicode case mapping is not
  modelled.
- MovieCard.GetInitials: strings are sequences of characters, not UTF-16
  code units, so a `part[0]` (`src/components/movie-card.tsx:156`) or a
  `.slice(0, 2)` (`src/components/movie-card.tsx:159`) that would take half
  of a surrogate pair is not modelled.
- Ratings.RatingsTable.SubmitReviewAction: the score is a real number. A
  NaN score, which passes the JavaScript range test, is not modelled.
- MovieCard.OtherRows: the profile nested in each listed rating is not
  modelled. The card takes member names from the separate profile list.
- The application has no visibility gate that hides other members' reviews,
  so the model has none.
- `getAllProfiles`, `getProfile` and `getUser` only read and pass rows
  through, and are not modelled.
- The TMDB search proxy, the service worker, the score colour gradient and
  the rendering and local state of the React components are outside the
  core.

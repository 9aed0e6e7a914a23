# Track catalogue and movie lists, modelled in Dafny

This project models the logic core of two small applications.

- **The Track catalogue service.** An Express server keeps music tracks in one table. Each
  row has a `trackId` (an auto-increment key) and six columns: `songTitle`, `artistName`,
  `albumName`, `genre`, `duration` and `releaseYear`. `duration` is a packed integer
  `minutes * 100 + seconds`.
- **The movie front end's list logic.** This covers the watchlist context (add without
  duplicates, remove by id, membership by id) and the movie card. The card computes its
  poster address and year label, and toggles the movie in the stored favourites.

## Modules

- `Wrappers`: `Option`.
- `Decimal`: JavaScript's decimal rendering of integers (`String(n)`). It also models the
  validator's integer pattern `^[-+]?[0-9]+$` and the reading of such a text back as an
  integer.
- `Duration`: the `M:SS` rendering of a packed duration. Minutes are `Math.floor(d / 100)`.
  Seconds are JavaScript's truncating `d % 100`, padded to two characters. It is defined for
  every integer, negative ones included. Its partner is a reader that parses the text back.
- `Json`: the values a request body field can hold, and JavaScript truthiness.
- `Validation`: the six two-check validation chains, their twelve messages and the error
  handler. It also decodes a valid body into a record.
- `TrackModel`: the `Track` table as a map from key to row plus the auto-increment counter.
  It holds the table invariant, `findAll` (ascending key order), `findByPk`, `create`,
  `update` and `destroy`.
- `TrackService`: the response formatter, the five routes as transitions of the table, and
  a dispatcher over the routes.
- `TrackProperties`: properties that relate several requests: read-back after a write, key
  freshness over any request sequence with any table failures, and the catalogue example.
- `MovieLists`, `Watchlist`, `MovieCard`: the front end's list logic.

A table call that throws is modelled as a boolean fault parameter of the route. PUT makes two
table calls, the update and the re-read. If the re-read fails, the route answers 500 although
the update has already been applied.

## Behaviour worth noting

- DELETE is guarded by `validateTrack` (`server.js:152`). A DELETE without six valid fields
  therefore answers 400 and deletes nothing.
- `duration` seconds are not clamped to 0–59. `199` renders as `"1:99"`. A negative packed
  duration renders with a negative remainder: `-5` renders as `"-1:-5"`.
- Validation chains do not stop at a failure. A missing field reports both its "is required"
  message and its type message.

## Model

| member | source | states |
|---|---|---|
| Decimal.NatToString | server.js:13 | The decimal text of a natural number is non-empty and all digits. It is one character exactly for values below 10, and it starts with `0` only for zero. |
| Decimal.NatToStringRoundTrip | server.js:13 | Reading the digits of `String(n)` gives back `n`, for every natural `n`. |
| Decimal.IntToString | server.js:13 | The text of an integer starts with `-` exactly when the integer is negative, and it holds no colon, so the `M:SS` text splits at its first colon. |
| Decimal.ParseInt | server.js:52 | An integer is read from a text exactly when the text matches `isInt`'s pattern (optional sign, then one or more digits). |
| Decimal.IntToStringRoundTrip | server.js:13 | Every integer's text matches the integer pattern and reads back as that integer. |
| Duration.Minutes | server.js:11 | `Math.floor(d / 100)` is the greatest `m` with `m * 100 <= d`, for negative `d` too. |
| Duration.Seconds | server.js:12 | JavaScript's `d % 100` lies strictly between -100 and 100 and has the sign of `d`. It is congruent to `d` modulo 100. |
| Duration.PadStart2 | server.js:13 | `padStart(2, '0')` yields at least two characters. It ends with the input, and everything before the input is `0`. |
| Duration.FormatDurationReadsBack | server.js:11-13 | For every integer, `formatTrack`'s duration text reads back, through the partner reader, as the floored minutes and the truncated remainder. |
| Duration.FormatDurationRoundTrip | server.js:11-13 | A non-negative packed duration is recovered exactly from its `M:SS` text. |
| Duration.NegativeDurationRoundTrip | server.js:11-13 | A negative packed duration is recovered from its text if and only if it is a whole number of minutes. Otherwise floor and truncation disagree. |
| Duration.FormatDurationShape | server.js:11-13 | For `d >= 0` the text is digits worth `d / 100`, a colon, then exactly two digits worth `d % 100`. |
| Duration.FormatDurationExamples | server.js:11-13 | 245 renders as "2:45", 100 as "1:00" and 59 as "0:59". |
| Duration.FormatDurationUnclamped | server.js:11-13 | Seconds are not clamped: 199 renders as "1:99". 325 renders as "3:25". |
| Duration.FormatDurationNegativeExample | server.js:11-12 | -5 renders as "-1:-5": floored minutes, truncated seconds. |
| Json.IntOfReadsText | server.js:52 | Every integer's decimal text is `isInt`-valid and stands for that integer. A `+` sign or a leading zero does not change the digits' value, and a `-` sign negates it. |
| Validation.Messages | server.js:64-65 | The message list has one entry per failed check, in order, and each entry is that check's fixed message. |
| Validation.HandleValidationErrors | server.js:60-74 | The handler passes if and only if all six fields pass both checks. Otherwise it answers "Validation failed" with the messages of the failed checks, and that list is never empty. |
| Validation.ValidateEmptyIff | server.js:32-57 | The chains collect no failure if and only if every field is truthy and of its type (string, or integer-looking). |
| Validation.TextIdentifiesViolation | server.js:34-56 | The twelve messages are pairwise distinct, so a message identifies the field and the check that failed. |
| Validation.ValidateReportsEachFailure | server.js:32-57 | For every field, whatever the others hold, "is required" is collected if and only if the field is falsy. The type failure is collected if and only if the value has the wrong type. |
| Validation.MessagesReportEachFailure | server.js:32-65 | The same holds for the message strings the 400 answer carries. |
| Validation.FalsyCountsAsMissing | server.js:34-56 | An absent field, `null`, `false`, `0` and `""` all fail the existence check. Absent and `null` also fail the type check. `""` still passes `isString`, and `0` still passes `isInt`. |
| Validation.DecodeTrack | server.js:110-119 | A body that passes validation decodes to a record with non-empty texts. The record holds exactly the body's strings and the integers its duration and release year denote. |
| Validation.BodyOfRoundTrip | server.js:32-57 | The body built from a record passes validation if and only if its texts are non-empty and its two numbers are non-zero. If it passes, it decodes back to the record. |
| Validation.BodyOfPasses | server.js:60-74 | A record with non-empty texts and non-zero numbers passes the error handler and decodes back to itself. |
| Validation.StringZeroDurationAccepted | server.js:50-52 | The string "0" for `duration` is truthy and integer-looking, so a body otherwise valid passes and stores 0 as the duration. |
| TrackModel.EmptyStoreValid | database/setup.js:29-59 | The empty table satisfies the table invariant. The invariant: every row's key equals its `trackId`, keys lie below the counter, and text columns are non-empty. |
| TrackModel.KeysBetween | server.js:81 | Lists exactly the stored keys in a range, strictly ascending. |
| TrackModel.FindAll | server.js:81 | On a valid table `findAll` lists only stored rows and every stored row, in ascending key order, each once. On an empty table it lists none. |
| TrackModel.FindByPkAfterWrites | server.js:92-93 | After an insert, the new row is found under its new key. After an update, the key finds the row with the new columns, or nothing if it was absent. After a destroy, the key finds nothing. Every other key finds what it found before. |
| TrackModel.Create | database/setup.js:30-34 | The insert takes a key from the counter that no stored row has, stores the given columns under it, advances the counter, and keeps the table valid. |
| TrackModel.Update | server.js:133-136 | Reports 1 and replaces all six columns under the same key when the key is stored. Reports 0 and changes nothing otherwise. |
| TrackModel.Destroy | server.js:154-157 | Reports 1 and removes only that row when the key is stored. Reports 0 and changes nothing otherwise. |
| TrackService.FormatTrack | server.js:9-24 | Formatting copies the key and the five columns other than `duration` unchanged. The rendered duration is stated by `FormatTrackReadsBack`. |
| TrackService.FormatTrackReadsBack | server.js:9-24 | The formatted duration reads back as floored minutes and truncated seconds, so a non-negative packed duration is recovered exactly. |
| TrackService.FormatAll | server.js:82 | Formats each listed row, in order, keeping its key. |
| TrackService.ListingFaithful | server.js:79-82 | On a valid table the formatted listing shows every stored row exactly once, formatted, in ascending key order. |
| TrackService.ListTracks | server.js:79-87 | Answers 500 "Failed to fetch tracks" on a failing call, otherwise 200 with the faithful listing (empty for an empty table). It never changes the table. |
| TrackService.GetTrack | server.js:90-105 | Answers 500, 404 "Track not found" for an absent key, or 200 with the formatted row. It never changes the table. |
| TrackService.CreateTrack | server.js:108-126 | Answers 400 with the messages when validation fails, and 500 when the insert fails; both leave the table unchanged. Otherwise it answers 201 with the raw decoded record under a fresh key, stored as given, and the table stays valid. |
| TrackService.UpdateTrack | server.js:129-149 | Answers 400, 500 or 404 with the table unchanged. Otherwise it replaces the row's six columns under the same key and answers 200 with the raw row. If the re-read fails it answers 500 after the update. |
| TrackService.DeleteTrack | server.js:152-169 | Runs the validation chain (400, nothing deleted). Otherwise it answers 500, or 404 for an absent key, or 200 "Track deleted successfully" after removing only that row. |
| TrackService.Handle | server.js:79-169 | Every request keeps the table valid and answers 200, 201, 400, 404 or 500. 400 comes exactly from a failed chain on POST, PUT or DELETE. 201 comes exactly from a valid POST whose insert succeeds, with a new key. The table changes only on success, or on a PUT whose re-read fails. |
| TrackProperties.CreateThenGet | server.js:108-126 | A created record is read back by GET on the returned key, formatted. |
| TrackProperties.UpdateThenGet | server.js:129-149 | A successful PUT answers the replaced row, and GET then returns it formatted. |
| TrackProperties.DeleteThenGet | server.js:152-164 | After a DELETE that passes validation, GET on that key answers 404. |
| TrackProperties.UpdateMissingCreatesNothing | server.js:138-140 | PUT on an absent key answers 404 and does not create the row. |
| TrackProperties.EmptyBodyViolations | server.js:32-57 | An empty body fails all twelve checks, reported in chain order. |
| TrackProperties.DeleteWithoutBodyDeletesNothing | server.js:152 | DELETE with an empty body answers 400 with the twelve messages and leaves the table unchanged, even when the row exists. |
| TrackProperties.ListEmptyStore | server.js:81-82 | Listing an empty table answers 200 with an empty list. |
| TrackProperties.CreatedIdsFresh | database/setup.js:30-34 | Over any sequence of requests, whichever table calls fail (500 answers, a PUT whose re-read fails), the table stays valid. The keys of the created records strictly increase from the counter's start, so none repeats. |
| TrackProperties.StoredIdNeverReused | database/setup.js:30-34 | A key stored at any point is never handed out to a later created record, whatever requests and table failures follow. |
| TrackProperties.CreateOnEmpty | server.js:108-121 | The first valid POST on an empty table stores the record under key 1 and answers 201 with it. |
| TrackProperties.CatalogueScenario | server.js:108-121 | POST of ("A", "B", "C", "Rock", 325, 2020) answers 201 with key 1. GET of key 1 then answers 200 with duration "3:25". |
| MovieLists.HasId | src/contexts/MovieContext.jsx:41-42 | `some(m => m.id === id)` holds exactly when some entry has the id. |
| MovieLists.WithoutId | src/contexts/MovieContext.jsx:37 | The filter keeps exactly the entries whose id differs, and no kept entry has the id. |
| MovieLists.WithoutIdCounts | src/contexts/MovieContext.jsx:37 | The filter drops every copy of an entry with the id and keeps every copy of the others (a sub-multiset). |
| MovieLists.WithoutIdAppend | src/contexts/MovieContext.jsx:37 | The filter distributes over concatenation, so it keeps the relative order. |
| MovieLists.WithoutIdAbsent | src/contexts/MovieContext.jsx:37 | Filtering an id no entry has leaves the list as it is. |
| MovieLists.WithoutIdKeepsUnique | src/contexts/MovieContext.jsx:37 | Filtering keeps ids unique. |
| MovieLists.WithoutIdOtherIds | src/contexts/MovieContext.jsx:37 | Filtering one id leaves every other id's membership unchanged. |
| Watchlist.IsInWatchlist | src/contexts/MovieContext.jsx:41-42 | `some(movie => movie.id === movieId)`: true exactly when some entry has the id. |
| Watchlist.AddThenIsIn | src/contexts/MovieContext.jsx:29-33 | After adding, the movie's id is in the watchlist, and every other id's membership is as before. |
| Watchlist.AddIdempotent | src/contexts/MovieContext.jsx:29-33 | Adding the same movie twice equals adding it once. |
| Watchlist.RemoveFromWatchlist | src/contexts/MovieContext.jsx:36-38 | Removal keeps exactly the entries with other ids, each as often as before. |
| Watchlist.RemoveThenNotIn | src/contexts/MovieContext.jsx:36-42 | After removing an id it is not in the watchlist, and every other id's membership is unchanged. |
| Watchlist.RemovePreservesOrder | src/contexts/MovieContext.jsx:36-38 | Removal distributes over concatenation. |
| Watchlist.RemoveAbsentOrTwice | src/contexts/MovieContext.jsx:36-38 | Removing an absent id changes nothing, and removing twice equals removing once. |
| Watchlist.AddThenRemove | src/contexts/MovieContext.jsx:29-38 | Adding an unlisted movie and then removing its id restores the watchlist. |
| Watchlist.OperationsKeepIdsUnique | src/contexts/MovieContext.jsx:28-38 | Starting from unique ids, add and remove keep ids unique. |
| MovieCard.PosterUrlDistinguishes | src/components/MovieCard.jsx:6-8 | A poster address is never the placeholder, and it determines the poster path: two movies with posters share an address exactly when they share the path. |
| MovieCard.YearLabel | src/components/MovieCard.jsx:45 | A label exists exactly when a release date does. It is the date's first four characters, or the whole date if shorter. |
| MovieCard.NothingStoredIsEmptyList | src/components/MovieCard.jsx:12-18 | The empty-list fallback of the favourites read: with nothing stored, a card starts as no favourite and toggles exactly as with an empty stored list. |
| MovieCard.InitialIsFavorite | src/components/MovieCard.jsx:11-15 | The card starts as a favourite exactly when some stored favourite has the movie's id. With nothing stored, it is not one. |
| MovieCard.ToggleFavorite | src/components/MovieCard.jsx:17-31 | Toggling off removes every stored entry with the id and keeps every copy of the others, and the flag becomes false. Toggling on appends the movie unchecked, and the flag becomes true. |
| MovieCard.ToggleOffPreservesOrder | src/components/MovieCard.jsx:20-24 | Toggling off filters in place: the entries kept from a concatenation are those kept from each part, in order. |
| MovieCard.ToggleOnThenOff | src/components/MovieCard.jsx:17-31 | Toggling on and then off restores a favourites list that lacked the movie. |
| MovieCard.ToggleKeepsFlagInSync | src/components/MovieCard.jsx:11-31 | A flag read from storage still agrees with storage after a toggle. |
| MovieCard.ToggleOnUniqueness | src/components/MovieCard.jsx:25-29 | From unique favourites, toggling on keeps them unique if and only if the movie was not stored. A stale flag duplicates it. |
| MovieCard.ToggleOffUniqueness | src/components/MovieCard.jsx:20-24 | Toggling off keeps favourites unique. |

## Left out

- Express plumbing is not modelled: `express.json()`, `app.listen`, `testConnection`, the port setting and console logging. These are I/O with no logic of the core.
- Sequelize's SQL and the `createdAt`/`updatedAt` timestamps are not modelled. The table is an abstract map from key to row with an auto-increment counter.
- Store exceptions are boolean fault parameters. Their causes (disk, locking, concurrency) are outside the model.
- Path ids are integers. A non-numeric `:id` text, which no row can match, is not modelled.
- Arrays as body field values are not modelled, because the validator checks their elements one by one. JSON numbers are exact integers (`JInt`) or an opaque fraction (`JFraction`). Floating-point precision and exponent texts such as `1e+21` are not modelled.
- Integers outside the 64-bit range of the table's INTEGER columns are not modelled, and neither are integers beyond JavaScript's exact range of 2^53. An integer-looking string such as `"99999999999999999999"` is stored here as that exact integer. The real table would store it as the floating-point value 1e20, and the rendered `M:SS` text would differ.
- TrackService.CreateTrack: the 201 answer carries the decoded record, whose `duration` is the integer an integer-looking string denotes. The route echoes the value as sent (a string stays a string in the JSON). Storage converts it to an integer column either way.
- TrackService.UpdateTrack: the re-read after a successful update is assumed to find the row. A concurrent delete between the two calls, which would answer `null`, is outside the single-request model.
- Watchlist.AddToWatchlist: its contract restates its body. Its properties are stated by `AddThenIsIn`, `AddIdempotent`, `AddThenRemove` and `OperationsKeepIdsUnique`.
- Watchlist.AddToWatchlist: the React state batching is not modelled. `addToWatchlist` tests the watchlist of the current render but appends to the pending state, so two adds in one batch can both append.
- MovieCard.LoadFavorites: its contract restates its body. Its meaning is stated by `NothingStoredIsEmptyList`.
- The favourites' stored value is an optional list (`LoadFavorites`); writing it back (`JSON.stringify`, `setItem`) is the returned list. The watchlist is a plain list input: its load from browser storage (`stored ? JSON.parse(stored) : []`) and its save effect are not modelled.
- `useMovies`'s provider check, the movie service's HTTP calls, the pages, the routing component and the rendering of the rating (`vote_average`) are not modelled. They are view and fetch glue without list logic.

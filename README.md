# flask-movies, modelled in Dafny

A model of the core of a small Flask movie-catalogue API. Users register and log in. Logged-in users create movies, and each movie can be edited or deleted only by its creator. Users rate movies from 0 to 10, and anyone can list the catalogue with filters, a text search, a sort order and pagination.

The database is replaced by in-memory tables. The logged-in user is an id parameter (`caller`). Each handler's reply is an HTTP status with its message text.

Modules, one per source file (views.py is split in two):

- `Wrappers` (wrappers.dfy): `Option`, for Python's `None`.
- `Utils` (utils.dfy, app/utils.py): password verification over an abstract digest function, and the strict `YYYY-MM-DD` validator. Also holds the calendar-date type, its ISO text form and Python's string order, since both the validator and the serializer need them.
- `Models` (models.dfy, app/models.py): the `User`, `Movie` and `Rating` rows; `Movie.serialize`; `Movie.update`, with `setattr` and `getattr` over the movie's columns; and the `User` flag accessors.
- `MovieQuery` (movie_query.dfy, `get_movies` in app/views.py): the listing pipeline as pure functions over the movie table. It filters, searches, sorts, then paginates.
- `Views` (views.dfy, the other handlers in app/views.py): a `Store` class holding the `users`, `movies` and `ratings` tables as sequences of rows. Its methods are `register`, `login`, `logout`, `create_movie`, `update_movie`, `delete_movie` and `rate`. Each method states every outcome and the new state of the tables on each path.

Behaviour of the code worth noting:

- `rate` accepts scores from 0 to 10 inclusive (app/views.py:303), although its message says "1 to 10". An out-of-range score gets status 404, not 400.
- `serialize` returns the stored `average_rating` column (app/models.py:46). No live average of the ratings is computed anywhere in the code.
- `update_movie` and `delete_movie` answer a caller who is not the creator with status 200 and a message (app/views.py:261, 288).
- `create_movie` replies 200 on success, not 201 (app/views.py:153).

## Model

| member | source | states |
|---|---|---|
| `Utils.CheckPasswordHash` | app/utils.py:20-22 | accepts exactly when the digest of the entered password equals the stored value |
| `Utils.CheckAcceptsOwnDigest` | app/utils.py:20-22 | every password is accepted against its own digest |
| `Utils.CheckRejectsOtherDigest` | app/utils.py:22 | any stored value other than the entered password's digest is rejected |
| `Utils.DigestIsUnsalted` | app/utils.py:5-16 | the digest is a function of the password alone: equal passwords, equal digests, mutual acceptance |
| `Utils.DaysInMonth` | app/utils.py:29 | month lengths of the Gregorian calendar; February has 29 days exactly in leap years |
| `Utils.ParseDate` | app/utils.py:26-32 | yields a date only for text laid out as four digits, '-', two digits, '-', two digits; the date is a real calendar date |
| `Utils.ParseFormat` | app/utils.py:29 | parsing the ISO text of any date gives that date back |
| `Utils.FormatParse` | app/utils.py:29-30 | a text the parser accepts is exactly the ISO text of the date it names: nothing before, nothing after |
| `Utils.IsValidDate` | app/utils.py:26-32 | true exactly when the text is the YYYY-MM-DD form of some calendar date of years 1 to 9999; false, never an error, otherwise |
| `Utils.AcceptsLeapDay` | app/utils.py:26-30 | "2024-02-29" is accepted |
| `Utils.RejectsBadDates` | app/utils.py:29-32 | "2024-13-01", "2023-02-29", "01-01-2024", "not-a-date", "2024-01-01x" and "0000-01-01" are rejected |
| `Utils.StrLessConcat` | app/views.py:145 | Python string order on texts with equal-length prefixes is decided by the prefixes unless they are equal |
| `Utils.FormatOrder` | app/views.py:144-146 | comparing two ISO date texts as strings is comparing the dates chronologically |
| `Models.User.IsActive` | app/models.py:14-16 | every user is active |
| `Models.User.IsAuthenticated` | app/models.py:18-20 | reports the stored `authenticated` flag |
| `Models.User.IsAnonymous` | app/models.py:22-24 | no user is anonymous |
| `Models.NewUser` | app/models.py:4-9 | a new user carries the given name, email and digest, and is not authenticated |
| `Models.AttributesDetermineMovie` | app/models.py:26-36 | two movies that agree on all ten columns are the same movie |
| `Models.Set` | app/models.py:53 | `setattr`: the named column reads the new value and no other column changes |
| `Models.Update` | app/models.py:51-53 | after the loop, exactly the named columns hold the given values and every other column is unchanged |
| `Models.EmptyUpdateIsNoOp` | app/models.py:51-53 | an update with no keyword arguments returns the movie unchanged |
| `Models.IsoText` | app/models.py:43 | an absent release date becomes null; a present one becomes text that is a valid date and parses back to it |
| `Models.Serialize` | app/models.py:38-49 | the eight plain columns are copied unchanged, the stored `average_rating` included; the release date is null or its ISO text, which parses back to the stored date |
| `MovieQuery.SortKeyOf` | app/views.py:172-174 | only `ticket_price` selects the price order; a missing or unknown `sort_by` means `release_date` |
| `MovieQuery.ContainsIgnoreCase` | app/views.py:188-194 | true exactly when the pattern occurs at some offset of the text, ignoring letter case |
| `MovieQuery.Where` | app/views.py:179-194 | every kept row satisfies the condition; each row that satisfies it is kept as often as it occurs, and no other row is kept |
| `MovieQuery.Insert` | app/views.py:196-200 | inserting into a sorted sequence keeps it sorted and adds exactly the one row |
| `MovieQuery.SortBy` | app/views.py:196-200 | the result is sorted by the chosen key and is a permutation of the input |
| `MovieQuery.PageStart` | app/views.py:203 | page `page` starts at row (page - 1) * per_page |
| `MovieQuery.Page` | app/views.py:203 | the page holds rows (page - 1) * per_page onwards, at most per_page of them and fewer only at the end; a page past the end is empty |
| `MovieQuery.PageCount` | app/views.py:203-210 | the page count is ceil(total / per_page), and 0 when nothing matches |
| `MovieQuery.GetMovies` | app/views.py:158-213 | echoes the page, counts all matches, gives the ceiling page count, serializes exactly the page's movies in order, and returns an empty list for a page past the end |
| `MovieQuery.OrderedIsExactlyTheMatches` | app/views.py:176-200 | the sorted result holds exactly the table's rows that pass every supplied filter and the search, each as often as in the table |
| `MovieQuery.SearchOnlyNarrows` | app/views.py:187-194 | the search keeps a sub-multiset of the filtered rows |
| `MovieQuery.PageMatchesEveryFilter` | app/views.py:179-194 | every movie shown comes from the table; its genre and director equal any supplied ones, its release year equals a non-zero `release_year`, and it contains a supplied query in title, cast, description or genre |
| `MovieQuery.PageIsSorted` | app/views.py:196-200 | the page is sorted: release dates never increase, with undated movies last, or ticket prices never decrease, with unpriced movies first |
| `MovieQuery.PageOfSortedIsSorted` | app/views.py:196-203 | a page cut from a sorted result is sorted |
| `MovieQuery.FiveMatchesAtTwoPerPage` | app/views.py:203-211 | five matches at two per page make three pages, and page four or later is empty |
| `Views.FindFirst` | app/views.py:39 | the index of the first row satisfying the condition, or none when no row satisfies it |
| `Views.FindUser` | app/views.py:39 | finds the first user with the name, or reports that no user has it |
| `Views.FindMovie` | app/views.py:236 | finds the movie with the id, or reports that no movie has it |
| `Views.FindRating` | app/views.py:315 | finds the first rating of the (user, movie) pair, or reports that the pair has none |
| `Views.ReplaceKeepsDistinctIds` | app/views.py:246-255 | editing a movie without touching its id keeps movie ids distinct |
| `Views.RemoveKeepsOthers` | app/views.py:279 | deleting a movie keeps ids distinct, removes that movie's id, and keeps every other movie |
| `Views.Upsert` | app/views.py:315-323 | the pair's first rating is overwritten with the new score, or one rating is appended if the pair has none; all other ratings keep their place and value |
| `Views.UpsertKeepsOneRatingPerPair` | app/views.py:314-326 | if every pair had at most one rating before, the same holds after; the pair's rating exists and carries the new score |
| `Views.RateTwiceKeepsLatest` | app/views.py:315-326 | rating 7 then 9 leaves exactly one rating of the pair, with value 9 |
| `Views.Edited` | app/views.py:245-252 | each of the seven editable columns takes the supplied value or keeps its own; id, creator and stored average rating never change |
| `Views.Store.GetMovie` | app/views.py:217-228 | a movie is returned exactly when one has the id; it is the serialized row with that id, and the only such row when ids are distinct |
| `Views.Store.Register` | app/views.py:79-113 | empty body or missing field give 400, a taken username gives 400 "Username already taken", and a taken email gives the 500 of the failed commit, none adding a user; success appends exactly one user with the password's digest, not authenticated |
| `Views.Store.Login` | app/views.py:20-54 | non-JSON, empty or incomplete bodies are answered without change; the flag is set exactly when a user with that name has a matching digest; a complete body that fails this check gets 401, and no user changes |
| `Views.Store.Logout` | app/views.py:57-75 | clears the caller's flag and changes no other user |
| `Views.Store.CreateMovie` | app/views.py:116-153 | checks in order: required fields, date format, rating range, then refuses exactly release dates after today; a movie is created exactly when all four checks pass, appended with the next id and the caller as creator |
| `Views.Store.UpdateMovie` | app/views.py:232-264 | a missing movie gives 404 and a non-creator a message, with nothing changed; the creator's update replaces only that movie, changing only the supplied editable columns |
| `Views.Store.DeleteMovie` | app/views.py:268-291 | a missing movie gives 404 and a non-creator a message, with nothing changed; the creator's delete removes exactly that movie and keeps every other one in order |
| `Views.Store.Rate` | app/views.py:294-329 | a score outside 0..10 gives 404 before any lookup; a missing movie gives 404; neither changes ratings; success upserts so that the pair's one rating has the new score |

## Left out

- app/__init__.py is not part of this model. It covers Flask app construction, configuration loading, SQLAlchemy and LoginManager setup, and the `user_loader` lookup.
- Routing, JSON parsing, `jsonify`, `login_user`, `logout_user` and the `@login_required` gate are left out. The logged-in user is the `caller` parameter, and `Logout` requires that it names an existing user. How Flask-Login reads `User.is_authenticated` is not modelled.
- The trivial endpoints `index` and `protected` return fixed text and are not modelled.
- Request bodies are typed values. A JSON value of the wrong type is not modelled: an integer where a string is expected, a null title, or a string in a date column. The same goes for `int()` failing on a score in `rate`, and for unknown keys passed to `Movie(**data)`. In the source these end in exceptions, not replies.
- Views.Store.UpdateMovie: requires the supplied editable values to fit their columns. The source does not check this. A bad value would only fail when the transaction commits.
- Views.Store.Register: a non-JSON body is treated like an empty one (400). What `get_json` does with it depends on the Flask version.
- Views.Store.Register: models the unique constraint on `email` (app/models.py:7) as a 500 reply with no user added. The username length limit of 20 is not modelled.
- Views.Store.Rate: scores are integers. A float score, which `int()` truncates for the range check and then stores as sent, is not modelled.
- Views.Store.CreateMovie: `average_rating` is already a number. A text value that `float()` cannot convert is caught at app/views.py:140-141 and answered 400 with the conversion error's text, e.g. "could not convert string to float: 'abc'"; that reply is not modelled.
- Views.Store.CreateMovie: the body has no `id` or `creator_id` key. At app/views.py:149 every body key is passed to `Movie(**data, ...)`: a body `id` would become the primary key (a taken one fails at commit), and a body `creator_id` raises a TypeError for a repeated keyword, ending in a 500. The model always uses the next id and the caller.
- Views.Store.CreateMovie: the future-date check is proved chronological only for two-digit months and days. `strptime` also accepts "2026-10-2", and the raw string comparison at app/views.py:145 then finds "2026-10-2" > "2026-10-17", so on 2026-10-17 that past date is refused as being in the future ("2026-9-1" likewise). Since Utils.IsValidDate rejects one-digit forms, the model does not reach this case.
- Views.Store.CreateMovie: `average_rating` is an exact real. Float parsing, NaN and infinities are left out. `today` is passed in as a date in place of `datetime.now()`, and strftime's unpadded years before 1000 are not modelled.
- Models.Update: the source changes the ORM object in place. The model returns the updated record, and the tables hold values, so aliasing between ORM objects is not captured. Keys other than the ten columns, which `setattr` would also accept, are not modelled.
- Utils.IsValidDate: stricter than `strptime`. The library also accepts one-digit months and days, a space before a one-digit day, and non-ASCII digits. The model accepts only the two-digit ASCII form.
- Utils.CheckPasswordHash: `hash_password` (SHA-256 as hex text) is an uninterpreted function parameter, so its collision resistance is not modelled.
- MovieQuery.ContainsIgnoreCase: case folding covers ASCII letters only. `%` and `_` in the search query are matched literally, although SQL `ILIKE` treats them as wildcards. Database collation is left out, so genre and director filters compare exactly.
- MovieQuery.SortBy: ties keep the table's scan order, whereas SQL leaves their order unspecified. NULL dates and prices sort below every value, as in MySQL.
- MovieQuery.GetMovies: requires `page >= 1` and `per_page >= 1`. The clamping of smaller values happens inside Flask-SQLAlchemy's `paginate`. The page count uses exact integer ceiling, not float division.
- No live rating average is computed: no code for one exists.
- Views.Store.DeleteMovie: a movie that still has ratings is deleted from the movie table, and its ratings stay. Foreign-key enforcement by the database is not modelled.
- Transactions, commit atomicity and the race between the lookup and the write in `rate` are left out. The tables are single-threaded state.

# RecomenDashka movie-recommendation bot in Dafny

A model of the Telegram bot that recommends movies from a free-text request. It asks a language model (Gemini) for suggestions, checks each suggested title against TMDB, stores the accepted movies in SQLite and keeps a per-user history.

The model covers both generations of the recommendation logic:

- **Current engine** (`core/engine.py`):
  - MarkdownV2 escaping;
  - title extraction from the model's reply;
  - the title normaliser;
  - the fuzzy relevance decision;
  - `generate_recommendations`, which stores accepted movies and records them in the history.
- **Its helpers**:
  - the language helper (`agents/translator.py`);
  - the query validator (`agents/validator.py`);
  - the TMDB record mapping and retry schedule (`agents/tmdb_agent.py`);
  - the genre mapper (`agents/genre_mapper.py`).
- **Legacy engine** (`recommendation.py`):
  - model selection at start-up;
  - the personal context of a request;
  - the three attempts at the first model call, with back-off and the proxy flag;
  - the two-tier title extraction and the title cleaning;
  - the integer scoring of TMDB search results;
  - the first pass over the candidates and the extra generation rounds with their closing note;
  - person-name normalisation and matching;
  - the keyword fallback validator;
  - preference learning from ratings.
- **Persistence**, as in-memory tables in classes that update their fields in place:
  - the current store (`database/movies.py`): upserts, last-write-wins ratings, a set of preferences, per-user history;
  - the older store (`database.py`): insert-or-ignore, and a rating write that always fails;
  - the history manager (`database/history.py`);
  - the append-only feedback log (`agents/feedback.py`).
- **Telegram layer**:
  - message formatting (`tg_bot/formatter.py`);
  - the inline keyboards and the callback data they encode (`tg_bot/keyboards.py`);
  - the callbacks that decode that data and update the per-user `user_data` (`tg_bot/callbacks.py`), with the routing patterns of `main.py`;
  - the text-message and `/rate` handlers (`tg_bot/handlers.py`).

## How the model is built

**Modules.** There is one module per source file. Five helper modules support them:

- `Wrappers` (Option);
- `Text` (Python string primitives);
- `Seqs` (filtering, reversal, duplicates);
- `Retry` (the doubling back-off);
- `Patterns` (the regular expressions of the two extractors, as matchers).

**Oracles.** Everything outside the process is a parameter:

- the language model, as the reply to each attempt or the message of the exception it raised;
- TMDB, as the decoded JSON of a request;
- the `difflib` similarity ratio, as an uninterpreted `real`-valued function;
- the proxy search, the clock and `lastrowid`.

A `fault` flag stands for a SQLite error inside a `try` block.

**Contracts and proofs.**

- Loops are methods proved against a specification function on their inputs.
- Lemmas state what the source promises about those functions: round trips, bounds, ordering, and what is left unchanged.

## Model

| member | source | states |
|---|---|---|
| Validator.FirstMatching | agents/validator.py:39-41 | the index of the first pattern that fully matches the stripped query; None exactly when no pattern matches |
| Validator.InvalidReason | agents/validator.py:45-70 | the unknown-reason message is returned exactly for queries `is_valid` accepts; a long-enough rejected query gets the message of the first pattern that fully matches it |
| Validator.ReasonsAreKnown | agents/validator.py:13-70 | the length message, the empty message and every pattern message differ from the unknown-reason message |
| Validator.ValidateOrExplain | agents/validator.py:72-85 | `(True, "")` exactly when `is_valid` holds; otherwise `False` with `get_invalid_reason`'s text, which is never the unknown-reason message |
| Validator.ValidateAndLog | agents/validator.py:87-101 | returns `True` exactly when `is_valid` holds |
| Validator.ShortIsInvalid | agents/validator.py:34-58 | a query whose stripped text is shorter than the minimum is rejected with the length message |
| Validator.BlankIsInvalid | agents/validator.py:17-62 | a whitespace-only query is never valid; with a minimum of 0 it is explained by the empty-query message |
| Validator.ValidIff | agents/validator.py:12-43 | a query is valid exactly when its stripped text is long enough, non-empty, not a `/command`, not digits only, and holds some word or space character |
| Validator.LetterQueryIsValid | agents/validator.py:12-43 | a long-enough query that does not start with '/' and holds a letter is accepted |
| Feedback.ByUser | agents/feedback.py:99-106 | every row returned is the projection of a stored row of that user |
| Feedback.FeedbackAgent.constructor | agents/feedback.py:14-52 | a new log is empty and its ids start at 1 |
| Feedback.FeedbackAgent.SaveFeedback | agents/feedback.py:59-81 | appends exactly one row with the next id and the given user, query, feedback and timestamp, and keeps the ids increasing; on an error the log is unchanged; there is no result, as the source returns None |
| Feedback.FeedbackAgent.GetFeedbackByUser | agents/feedback.py:83-114 | [] on an error; otherwise only projections of that user's stored rows |
| Feedback.FeedbackAgent.GetAllFeedback | agents/feedback.py:116-143 | [] on an error; otherwise every stored row, newest first |
| Feedback.SavedIsNewest | agents/feedback.py:68-133 | a saved row comes first from both readers, followed by everything they returned before |
| Feedback.SaveLeavesOthers | agents/feedback.py:72-104 | saving for one user leaves what any other user reads unchanged |
| History.UserRows | database/history.py:68-94 | exactly that user's rows: each returned row is a stored row of the user, and every stored row of the user is returned |
| History.HistoryManager.constructor | database/history.py:13-23 | installs `sqlite3.Row` only when the connection has no row factory, and leaves the table unchanged |
| History.HistoryManager.Add | database/history.py:25-54 | True and exactly one row appended, or False and nothing written on an error |
| History.HistoryManager.Get | database/history.py:56-78 | [] on an error; otherwise only that user's stored rows, as many as `count` reports |
| History.HistoryManager.Count | database/history.py:80-102 | the number of rows `get` returns (0 on an error) |
| History.HistoryManager.Clear | database/history.py:104-124 | True and every row of that user removed, or False and nothing changed on an error |
| History.CountIsLength | database/history.py:91-96 | the row-by-row count equals the number of the user's rows |
| History.AddedRowIsNewest | database/history.py:39-94 | after `add`, the new row is the user's newest, other users read as before, and the user's count grows by one |
| History.ClearOnlyThatUser | database/history.py:115 | after `clear`, the user has no rows and a count of 0, and every other user reads as before |
| LegacyStore.RawOf | database.py:104-122 | the stored row carries the given id and fields, with genres, directors and actors joined by ", " |
| LegacyStore.FindByTmdb | database.py:99-102 | finds a row exactly when a stored row has that TMDB id, and never for a NULL id |
| LegacyStore.FindByTmdbLast | database.py:99-102 | a movie appended under a TMDB id that no stored row has is the row the lookup by that id finds |
| LegacyStore.FindById | database.py:94-97 | finds a row exactly when a stored row has that id |
| LegacyStore.InsertOrIgnore | database.py:104-123 | a TMDB id already stored leaves the table unchanged; otherwise one row is appended with the next id |
| LegacyStore.MovieDatabase.constructor | database.py:7-62 | a new database has empty tables |
| LegacyStore.MovieDatabase.GetUser | database.py:64-66 | a row exactly for a known user id, holding that user's name |
| LegacyStore.MovieDatabase.AddUser | database.py:68-70 | INSERT OR IGNORE: a known user keeps their name, a new one is added, and no other table changes |
| LegacyStore.MovieDatabase.GetUserPreferences | database.py:72-75 | every pair returned is a stored preference of that user, and every stored preference of that user is returned |
| LegacyStore.MovieDatabase.ClearUserPreferences | database.py:77-79 | removes exactly that user's preferences and changes no other table |
| LegacyStore.MovieDatabase.ClearUserHistory | database.py:81-83 | removes exactly that user's history rows and changes no other table |
| LegacyStore.MovieDatabase.GetUserHistory | database.py:85-92 | only that user's stored rows, as many as `get_user_history_count` reports |
| LegacyStore.MovieDatabase.GetMovie | database.py:94-97 | the raw row exactly when a row has that id |
| LegacyStore.MovieDatabase.GetMovieByTmdbId | database.py:99-102 | the raw row exactly when a row has that TMDB id |
| LegacyStore.MovieDatabase.AddMovie | database.py:104-124 | the table becomes `InsertOrIgnore` of the old one, with unique TMDB ids and increasing ids kept; returns the new id, or the connection's last row id when the row was ignored |
| LegacyStore.MovieDatabase.AddUserHistory | database.py:126-131 | appends exactly one history row and changes no other table |
| LegacyStore.MovieDatabase.GetUserRatings | database.py:133-136 | every pair returned is a stored rating of that user, and every stored rating of that user is returned as its (movie, score) pair |
| LegacyStore.NewestFirstComplete | database.py:133-136 | read newest first, the user's ratings are exactly that user's stored rows, each one present |
| LegacyStore.MovieDatabase.AddRating | database.py:138-144 | always raises: the ON CONFLICT target matches no UNIQUE constraint of `ratings` |
| LegacyStore.InsertKeepsValid | database.py:104-123 | insert-or-ignore keeps ids increasing and TMDB ids unique |
| LegacyStore.FirstAddWins | database.py:104-123 | a second `add_movie` with the same TMDB id changes nothing, so the first call's fields stay |
| LegacyStore.NullTmdbIdAlwaysInserted | database.py:107-111 | a movie without a TMDB id is always stored as a new row |
| LegacyStore.RawRowsKeepJoinedStrings | database.py:99-120 | a stored movie reads back with genres, directors and actors as ", "-joined strings |
| MovieStore.FindById | database/movies.py:317-320 | a stored row with that id, or None when no row has it |
| MovieStore.FindByTmdb | database/movies.py:337-340 | a stored row with that TMDB id, or None when no row has it |
| MovieStore.ParseGenres | database/movies.py:332-333 | an empty column gives no genres, and a non-empty one gives some |
| MovieStore.RowOf | database/movies.py:265-301 | the row written carries the given id, the movie's TMDB id and its title |
| MovieStore.IdOfTmdb | database/movies.py:357-361 | an id exactly when some row has that (non-NULL) TMDB id, and it is that row's id |
| MovieStore.PreferencesOf | database/movies.py:381-384 | every pair returned is a stored preference of that user, and every stored preference of that user is returned |
| MovieStore.JoinHistory | database/movies.py:457-459 | no more entries than history rows, each from a row with the same movie and action |
| MovieStore.ApplyUpdates | database/movies.py:490-512 | applying the SET clauses never changes a row's id or TMDB id |
| MovieStore.MovieDatabase.Assign | database/movies.py:236 | the tables become exactly the given contents |
| MovieStore.MovieDatabase.constructor | database/movies.py:30-236 | a new database has empty tables that meet every constraint |
| MovieStore.MovieDatabase.AddUser | database/movies.py:239-255 | insert-or-ignore: a known user keeps their name; True on both paths and False only on an error, which writes nothing |
| MovieStore.MovieDatabase.GetUser | database/movies.py:257-261 | a row exactly for a known user id, holding that user's name |
| MovieStore.MovieDatabase.AddMovie | database/movies.py:263-315 | the tables become the upsert of the old ones and keep every constraint; a new row's id is returned; an error or a record missing a NOT NULL field returns None and writes nothing |
| MovieStore.MovieDatabase.GetMovie | database/movies.py:317-335 | a movie exactly when a row has that id, carrying that id |
| MovieStore.MovieDatabase.GetMovieByTmdbId | database/movies.py:337-355 | a movie exactly when a row has that TMDB id, carrying that TMDB id |
| MovieStore.MovieDatabase.GetMovieIdByTmdbId | database/movies.py:357-361 | the id of the row with that TMDB id, exactly when one exists |
| MovieStore.MovieDatabase.AddUserPreference | database/movies.py:363-379 | type and value are lower-cased and the preference is added with set semantics; the table stays duplicate-free; False and nothing written on an error |
| MovieStore.MovieDatabase.GetUserPreferences | database/movies.py:381-384 | every pair returned is a stored preference of that user, and every stored preference of that user is returned |
| MovieStore.MovieDatabase.ClearUserPreferences | database/movies.py:386-397 | removes exactly that user's preferences; False and nothing changed on an error |
| MovieStore.MovieDatabase.AddRating | database/movies.py:399-418 | the rating is upserted on (user, movie) and the pairs stay unique; False and nothing written on an error |
| MovieStore.MovieDatabase.GetUserRatings | database/movies.py:420-429 | each row returned is a stored rating of that user, joined with the stored movie it rates; every rating of that user whose movie is stored is returned with the movie's title and TMDB id |
| MovieStore.MovieDatabase.AddUserHistory | database/movies.py:431-447 | appends exactly one history row; False and nothing written on an error |
| MovieStore.MovieDatabase.GetUserHistory | database/movies.py:449-472 | at most `limit` entries; the newest selected row whose movie is stored comes first; without a limit every selected row whose movie is stored comes back |
| MovieStore.MovieDatabase.ClearUserHistory | database/movies.py:474-485 | removes exactly that user's history rows; False and nothing changed on an error |
| MovieStore.MovieDatabase.UpdateMovie | database/movies.py:487-529 | True exactly when some key is whitelisted, a row has that id, the title is not set to NULL and there is no error; then only that movie row is rewritten, by the SET clauses, and the users, preferences, ratings and history tables are unchanged; otherwise nothing changes |
| MovieStore.UpsertKeepsValid | database/movies.py:274-287 | an upsert keeps ids increasing and TMDB ids unique |
| MovieStore.UpsertExisting | database/movies.py:274-287 | upserting a stored TMDB id keeps every row's id and TMDB id and overwrites the matching row with the new fields |
| MovieStore.UpsertLeavesOneRow | database/movies.py:270-302 | after an upsert exactly one row carries the TMDB id, holding this call's fields, and every other row is kept |
| MovieStore.SecondUpsertWins | database/movies.py:270-302 | two `add_movie` calls with the same TMDB id leave one row, holding the second call's fields |
| MovieStore.GenresRoundTrip | database/movies.py:267-333 | joining non-empty, comma-free, unpadded genre names with ", " and reading them back gives the same list |
| MovieStore.JoinedPieces | database/movies.py:267-333 | splitting the joined column on ',' gives the names, each after the first preceded by one space |
| MovieStore.SplitJoinStep | database/movies.py:267-333 | splitting `g + ", " + rest` gives `g`, then the pieces of `rest` with a space before the first |
| MovieStore.StoredMovieRoundTrip | database/movies.py:263-334 | a stored movie reads back with its id, TMDB id, title and genre list, and each actor and director as `{'name': n}` |
| MovieStore.PreferenceIsSet | database/movies.py:366-369 | re-adding a preference keeps exactly one row for it and loses no other row |
| MovieStore.RatingKeepsValid | database/movies.py:402-408 | a rating upsert keeps at most one row per (user, movie) |
| MovieStore.LastRatingWins | database/movies.py:402-408 | after a rating upsert, the new score is the pair's only and most recent row, and every other pair's row is kept |
| MovieStore.JoinedRatingsAreStored | database/movies.py:422-428 | each joined rating comes from a rating row, paired with the stored movie it rates |
| MovieStore.JoinRatingsAppend | database/movies.py:422-428 | the JOIN of ratings with movies works row by row over a concatenation |
| MovieStore.JoinRatingsComplete | database/movies.py:422-428 | the JOIN keeps every rating row whose movie is stored, with that movie's title and TMDB id |
| MovieStore.RatingsComplete | database/movies.py:420-429 | `get_user_ratings` returns every rating of that user whose movie is stored |
| MovieStore.JoinRatingsWithoutMovie | database/movies.py:422-428 | dropping one movie's ratings before the JOIN or after it gives the same rows |
| MovieStore.RatedRowsSnoc | database/movies.py:399-408 | after a rating upsert, the user's rating rows are their rows for other movies followed by the new row |
| MovieStore.AddedRatingIsNewest | database/movies.py:420-429 | after `add_rating` of a stored movie, `get_user_ratings` begins with the new rating and continues with the user's earlier ratings of every other movie, in the order returned before |
| MovieStore.HistoryGrowsByOne | database/movies.py:431-437 | `add_user_history` adds one row for that user and none for any other user |
| MovieStore.ClearHistoryOnlyThatUser | database/movies.py:474-477 | `clear_user_history` removes all of the user's rows and only those, so the user's history reads empty |
| MovieStore.HistoryOfIsTheUsers | database/movies.py:449-472 | at most `limit` entries, each from a row of that user and of the requested action |
| MovieStore.SelectedRow | database/movies.py:449-466 | every row the history query selects is a stored row of that user and, when an action type is given, of that action |
| MovieStore.JoinHistoryAppend | database/movies.py:456-459 | the JOIN with movies works row by row over a concatenation |
| MovieStore.JoinHistoryComplete | database/movies.py:456-459 | the JOIN keeps every history row whose movie is stored |
| MovieStore.JoinNewestFirst | database/movies.py:456-468 | read newest first, a joined row appended last comes first |
| MovieStore.HistoryComplete | database/movies.py:449-471 | without a limit, every row of that user (and action) whose movie is stored comes back |
| MovieStore.SelectedHistorySnoc | database/movies.py:456-466 | after `add_user_history` for any user, a query selects the rows it selected before, plus the new row when it matches the queried user and action |
| MovieStore.AddedHistoryIsNewest | database/movies.py:449-471 | `ORDER BY h.timestamp DESC`: a row just added comes back first, followed by everything returned before |
| MovieStore.UnselectedHistoryHidden | database/movies.py:456-466 | a row of another user or another action leaves what the query returns unchanged |
| Retry.Backoff | agents/tmdb_agent.py:47-64 | `n` sleeps, the k-th equal to `delay * 2^k` |
| Retry.BackoffDoubles | agents/tmdb_agent.py:64 | each sleep is twice the one before |
| Retry.FirstSuccess | agents/tmdb_agent.py:48-53 | the first attempt below `retries` whose reply is a value; None exactly when every attempt fails |
| Retry.Attempts | agents/tmdb_agent.py:47-67 | the loop returns the first successful reply, or None after `retries` failures, having slept exactly the schedule `Sleeps` |
| Retry.FirstSuccessIs | agents/tmdb_agent.py:48-53 | an attempt that succeeds after only failures is the first success |
| Retry.FirstSuccessNone | agents/tmdb_agent.py:48-67 | when every attempt fails there is no success |
| Retry.SleepsBound | agents/tmdb_agent.py:62-65 | at most `retries - 1` sleeps, exactly that many when every attempt fails: never a sleep after the last attempt |
| Tmdb.EffectiveParams | agents/tmdb_agent.py:40-45 | the keys are the caller's plus `api_key` and `language`; the caller's values override; otherwise the key and "ru-RU" are used |
| Tmdb.MakeRequest | agents/tmdb_agent.py:21-67 | the result and the sleeps follow the shared retry schedule; a result is the reply of some attempt below `retries` |
| Tmdb.SearchMovie | agents/tmdb_agent.py:69-101 | one record per result, in order, mapping its fields; [] when the request failed or `results` is missing |
| Tmdb.GenreNames | agents/tmdb_agent.py:119 | exactly the present, non-empty genre names, and nothing else |
| Tmdb.DirectorsOf | agents/tmdb_agent.py:128-130 | exactly the crew entries whose job is "Director", as their names |
| Tmdb.PosterUrl | agents/tmdb_agent.py:133 | a URL exactly when the poster path is truthy, and then the image base URL followed by that path |
| Tmdb.GetMovieDetails | agents/tmdb_agent.py:103-154 | None exactly when the request failed; otherwise the fields mapped one by one, at most the first 5 cast entries as actors, the directors of `DirectorsOf`, the genres of `GenreNames`, and no people when `credits` is missing |
| Tmdb.DirectorsOfSnoc | agents/tmdb_agent.py:128-130 | the director loop appends exactly the next crew entry when its job is "Director" |
| Tmdb.EnrichQuery | agents/tmdb_agent.py:156-176 | None without results or without a first-result id; otherwise only the details of the first result's id, and a result exactly when there are results, the first has a non-zero id and its details lookup succeeds |
| Tmdb.GetSimilarMovies | agents/tmdb_agent.py:199-223 | at most `limit` records: `results[:limit]` mapped in order; [] when the request failed or `results` is missing |
| Genres.LessIrreflexive | agents/genre_mapper.py:37 | no string sorts before itself under Python's string order |
| Genres.LessTransitive | agents/genre_mapper.py:37 | Python's string order is transitive |
| Genres.LessTotal | agents/genre_mapper.py:37 | of two different strings one sorts before the other |
| Genres.LessAsymmetric | agents/genre_mapper.py:37 | two strings never sort before each other |
| Genres.SortedNoDuplicates | agents/genre_mapper.py:37 | a strictly sorted list has no duplicates |
| Genres.Insert | agents/genre_mapper.py:35-37 | adding a genre to the sorted set keeps it sorted and adds exactly that genre |
| Genres.SortedUnique | agents/genre_mapper.py:37 | a set has only one sorted list |
| Genres.PieceGenresShape | agents/genre_mapper.py:34 | each genre from a split column is non-empty, comma-free and has no surrounding whitespace |
| Genres.LoweredPieceShape | agents/genre_mapper.py:34 | a stripped, lower-cased non-blank piece is non-empty, comma-free and unpadded |
| Genres.StripInside | agents/genre_mapper.py:34 | every character of a stripped piece comes from the piece |
| Genres.GenreMapper.constructor | agents/genre_mapper.py:12-16 | the loaded list is sorted and holds exactly the genre set of the table, or nothing when loading fails |
| Genres.GenreMapper.LoadGenres | agents/genre_mapper.py:18-44 | `genres` is sorted and holds exactly the stripped, lower-cased, non-blank comma-separated pieces of the selected columns; [] on an error |
| Genres.GenreMapper.AddPieces | agents/genre_mapper.py:34-35 | the set grows by exactly the genres of one column and stays sorted |
| Genres.GenreMapper.GetAllGenres | agents/genre_mapper.py:46-53 | the loaded list, sorted and without duplicates |
| Genres.GenreMapper.MatchGenres | agents/genre_mapper.py:55-79 | a duplicate-free list holding exactly the loaded genres that occur in the lower-cased input with a word boundary on both sides |
| Genres.LoadedIsTheSortedSet | agents/genre_mapper.py:37 | the loaded list is the one `sorted(list(unique_genres))` gives |
| Genres.GenreSetShape | agents/genre_mapper.py:28-35 | every loaded genre is non-empty, comma-free and stripped |
| Genres.ActionNotInTransaction | agents/genre_mapper.py:70-75 | 'action' is not matched inside 'transaction' but is matched in 'an action movie' |
| Formatter.Truncate | tg_bot/formatter.py:7-23 | "" for a non-string; the text itself when it fits; otherwise a prefix of the text of at most `max_length` characters, cut at its last space when there is one, followed by the suffix |
| Formatter.ReleaseYear | tg_bot/formatter.py:37-89 | for a date of at least 4 characters, the prefix before its first '-'; otherwise the dash |
| Formatter.YearIsPrefix | tg_bot/formatter.py:38 | the part before the first '-' is a dash-free prefix of the date |
| Formatter.IsoDateYear | tg_bot/formatter.py:38 | a "YYYY-MM-DD" date gives its first four characters |
| Formatter.PeopleText | tg_bot/formatter.py:45-50 | the dash when the list is missing, not a list, or empty |
| Formatter.CardLines | tg_bot/formatter.py:54-63 | a card has eight lines |
| Formatter.FormatMovie | tg_bot/formatter.py:26-67 | when no field holds a newline, splitting the card on newlines gives back its eight lines |
| Formatter.ListLines | tg_bot/formatter.py:84-91 | one line per movie, line k numbered k + 1 and formatted from movie k |
| Formatter.FormatMoviesList | tg_bot/formatter.py:70-93 | the fixed text for an empty list; otherwise the numbered lines in input order, joined by newlines |
| Formatter.FormatError | tg_bot/formatter.py:112-116 | the message placed unchanged between the fixed prefix and suffix |
| Formatter.ListHasOneLinePerMovie | tg_bot/formatter.py:84-93 | when no line holds a newline, splitting the list text on newlines gives back one line per movie |
| Formatter.ListLineStarts | tg_bot/formatter.py:91 | each line opens with its number and the title in bold |
| Keyboards.GetRatingKeyboard | tg_bot/keyboards.py:30-56 | two rows of 6 and 5 buttons which together are the eleven score buttons "0" to "10" in order, each carrying `rate:{movie_id}:{i}`; the comment's "6 buttons in each row" does not hold |
| Keyboards.ConfirmationKeyboard | tg_bot/keyboards.py:59-76 | one row: "yes" carrying `confirm:`-prefixed data, and "no" carrying `cancel` |
| Keyboards.BackKeyboard | tg_bot/keyboards.py:99-110 | a single button whose data is `back:` followed by the target |
| Keyboards.ScoreLabelsAreScores | tg_bot/keyboards.py:37-41 | read as a number, each score button's label is its score |
| Callbacks.Session.constructor | tg_bot/callbacks.py:192-197 | a fresh `user_data` holds none of the four keys the handlers read and write |
| Callbacks.ParseId | tg_bot/callbacks.py:32-33 | data without a colon is rejected; otherwise the id is the text after the first colon read as a Python integer |
| Callbacks.ParseRating | tg_bot/callbacks.py:160-162 | the data decodes exactly when `split(":", 2)` gives three parts whose second and third both read as integers |
| Callbacks.ParseSelect | tg_bot/callbacks.py:114 | a decoded id is a non-empty run of digits, possibly negated, left after removing every `select_movie_for_rating_` |
| Callbacks.ParseConfirm | tg_bot/callbacks.py:417-422 | fewer than three colon parts is an error; otherwise the action has no colon and action and payload both come from the data |
| Callbacks.ParseBack | tg_bot/callbacks.py:472 | the data decodes exactly when it holds a colon, to a proper suffix of the data |
| Callbacks.SplitNParts | tg_bot/callbacks.py:417-422 | of a three-part split the middle part holds no colon and the two parts plus two colons fit in the data |
| Callbacks.SaveMovieCallback | tg_bot/callbacks.py:22-57 | malformed data: error reply and no write; no store: error reply; otherwise exactly one "saved" history row (none on a store error) and the reply names the stored title or "Неизвестный фильм" |
| Callbacks.RateMovieCallback | tg_bot/callbacks.py:61-99 | malformed data: error reply and no rating stored; otherwise the rating is upserted (unless the store fails) and the reply gives title and score |
| Callbacks.SelectMovieForRating | tg_bot/callbacks.py:103-147 | the id is remembered before the store is checked; without a store the conversation ends; with one it moves to RATING_GET_SCORE with the eleven score buttons for that id; malformed data ends it and leaves the session alone |
| Callbacks.WithoutMovie | tg_bot/callbacks.py:192-196 | an entry is kept exactly when its store id differs from the rated one |
| Callbacks.GetRatingScore | tg_bot/callbacks.py:150-199 | every path returns END; on success the rating is stored, `movie_to_rate_db_id` is dropped and the rated movie leaves `last_recommendations`; on malformed data or no store nothing changes |
| Callbacks.SaveScore | tg_bot/callbacks.py:178-189 | the store holds the new rating unless the write fails, and the reply says which |
| Callbacks.ForgetRated | tg_bot/callbacks.py:192-197 | no movie waits for a score and the remembered list is filtered by the rated id, the other keys unchanged |
| Callbacks.CollectFeedback | tg_bot/callbacks.py:202-230 | the feedback row is written with the remembered query or "N/A (from callback)", the reply is always the failure text (the save returns nothing truthy), the remembered query is dropped and the state is END |
| Callbacks.ConfirmationCallback | tg_bot/callbacks.py:407-459 | only the action "clear_history" changes the store, and then only by removing the pressing user's history; other actions, malformed data and a failing store leave it unchanged |
| Callbacks.RecDicts | tg_bot/callbacks.py:486-488 | one movie dictionary per remembered entry, in order, carrying only its title |
| Callbacks.BackCallback | tg_bot/callbacks.py:462-528 | the reply for "main_menu", for "recommendations_list" (the remembered list, or the "no recent" text), for any other target, and for data without a colon |
| Callbacks.NoColonInNumber | tg_bot/callbacks.py:32-33 | a printed integer holds neither ':' nor 's', so it cannot disturb the split or the prefix removal |
| Callbacks.NotInDigits | main.py:159 | a run of digits holds no non-digit character |
| Callbacks.SplitRatingData | tg_bot/callbacks.py:72-74 | `rate:a:b` with a colon-free `a` splits into "rate", a and b |
| Callbacks.RatingRoundTrip | tg_bot/keyboards.py:41 | every rating button's data decodes to its movie id and score |
| Callbacks.RatingDataIsRouted | main.py:116 | a rating button for a non-negative id and a score from 0 to 10 matches the rating route: `rate:`, digits, a colon and a score text |
| Callbacks.PyIntOfDigits | tg_bot/callbacks.py:33 | `int` of a non-empty digit run is its decimal value |
| Callbacks.RoutedRatingDecodes | tg_bot/callbacks.py:160-162 | any data the rating route accepts decodes, to a non-negative id and a score from 0 to 10 |
| Callbacks.DigitsAndScoreDecode | tg_bot/callbacks.py:160-162 | `rate:` followed by digits, a colon and a score text decodes to a non-negative id and a score in 0..10 |
| Callbacks.ScoreValue | main.py:116 | a score text the route accepts reads as an integer from 0 to 10 |
| Callbacks.SaveRoundTrip | tg_bot/callbacks.py:32-33 | the `save:` and `details:` data of any id decode to that id |
| Callbacks.RoutedSaveDecodes | main.py:159 | any data the save route accepts decodes to the number after `save:` |
| Callbacks.SelectRoundTrip | tg_bot/callbacks.py:114 | the select data of any id decodes to that id |
| Callbacks.RoutedSelectDecodes | main.py:109 | any data the select route accepts decodes to the number after the prefix |
| Callbacks.ConfirmRoundTrip | tg_bot/keyboards.py:66-67 | "yes" data decodes to its action and payload when the action holds no colon |
| Callbacks.ConfirmActionWithColon | tg_bot/callbacks.py:417-422 | an action with a colon is cut at it and the rest moves into the payload |
| Callbacks.RoutedConfirmMayBeRejected | main.py:164 | the confirm route accepts `confirm:x`, which the handler then rejects as malformed |
| Callbacks.BackRoundTrip | tg_bot/keyboards.py:108 | the back data of any target decodes to that target, colons included |
| Callbacks.WithoutMovieProperties | tg_bot/callbacks.py:192-196 | with no entry for the rated id the list is unchanged, and filtering twice equals filtering once |
| Callbacks.WithoutMovieKeepsOrder | tg_bot/callbacks.py:192-196 | filtering a concatenation filters each part in place, so the kept entries keep their order |
| Callbacks.BackListLine | tg_bot/callbacks.py:486-488 | each remembered entry is shown with its title and a dash for year and rating |
| Handlers.RemoveChar | tg_bot/handlers.py:416 | one `replace(c, '')` leaves exactly the characters other than `c` |
| Handlers.FormatMovieTitleForDisplay | tg_bot/handlers.py:412-416 | a character survives exactly when it is in the title and is not '*', '_' or '`' |
| Handlers.RemoveCharAppend | tg_bot/handlers.py:416 | a replacement distributes over concatenation |
| Handlers.DisplayTitleIsFilter | tg_bot/handlers.py:412-416 | the sanitised title is the title with every '*', '_' and '`' removed and nothing else removed or reordered |
| Handlers.CaptionYear | tg_bot/handlers.py:138 | for a date of four or more characters, the prefix before the first '-'; otherwise "N/A" |
| Handlers.Captions | tg_bot/handlers.py:133-139 | one caption per recommended movie, in result order |
| Handlers.RecOf | tg_bot/handlers.py:141-147 | a movie yields an entry exactly when the store has a truthy id for its TMDB id, and the entry carries title, TMDB id and that id |
| Handlers.Rebuilt | tg_bot/handlers.py:132-147 | the rebuilt list has at most one entry per recommended movie |
| Handlers.RebuiltMembers | tg_bot/handlers.py:132-147 | an entry is remembered exactly when some recommended movie yields it |
| Handlers.RebuiltAppend | tg_bot/handlers.py:133 | rebuilding a concatenation rebuilds each part in place, so entries follow result order |
| Handlers.RebuildStep | tg_bot/handlers.py:133-147 | one loop step adds that movie's caption and its entry, if any |
| Handlers.HandleTextMessage | tg_bot/handlers.py:94-191 | always returns RECOMMENDATION; a missing engine, validator or store gives the initialisation error; an invalid query gets "Извините, " and the validator's reason, the engine is not called and `last_user_query` is not saved; a valid one is saved and the replies and `last_recommendations` follow the engine's result |
| Handlers.ReplyToResponse | tg_bot/handlers.py:119-183 | after "searching": the error, or the model's text, one caption per movie and "what else" with `last_recommendations` rebuilt, or the not-found text; the list changes only when recommendations came back |
| Handlers.RebuildRecommendations | tg_bot/handlers.py:132-175 | the loop computes the rebuilt list and the captions |
| Handlers.CaptionYearMatchesCard | tg_bot/handlers.py:138 | for dates of four or more characters the caption year equals the movie card's year; shorter dates give "N/A" where the card shows a dash |
| Handlers.CandidatesFrom | tg_bot/handlers.py:214-226 | each candidate is a truthy, unrated, not-yet-seen id of the history whose movie is stored, and no id appears twice |
| Handlers.CandidatesComplete | tg_bot/handlers.py:217-226 | every truthy, unrated, stored id of the history is offered unless it was already seen |
| Handlers.OffersAfter | tg_bot/handlers.py:222 | appending after a candidate list keeps every offer |
| Handlers.CandidateKeyboard | tg_bot/handlers.py:236-241 | one single-button row per candidate, and each button's data decodes to that candidate's id |
| Handlers.CollectCandidates | tg_bot/handlers.py:214-226 | the loop computes the candidate list |
| Handlers.RateCommand | tg_bot/handlers.py:194-257 | the candidates come from the last 20 history entries without rated ids; with none the conversation ends, otherwise it moves to RATING_SELECT_MOVIE; no store gives the initialisation error |
| Engine.CountSpecial | core/engine.py:61-66 | the number of escaped characters is at most the text's length |
| Engine.Escaped | core/engine.py:61-69 | escaping lengthens the text by exactly one backslash per special character |
| Engine.EscapedAppend | core/engine.py:64-68 | escaping works character by character: it distributes over concatenation |
| Engine.EscapeMarkdownV2 | core/engine.py:54-69 | a value that is not a string gives ""; otherwise the loop builds each special character prefixed by one backslash and every other character as is |
| Engine.EscapeRoundTrip | core/engine.py:54-69 | for text without a backslash, reading the escaped text back as MarkdownV2 gives the text |
| Engine.UnescapeEscaped | core/engine.py:66 | an escaped character reads back as that character |
| Engine.UnescapePlain | core/engine.py:68 | an ordinary character reads back as itself |
| Engine.BackslashIsLost | core/engine.py:61 | the backslash is not in the escape set, so "a\b" is left as is and reads back as "ab" |
| Engine.Candidates | core/engine.py:92-95 | one (stripped title, year) pair per match, in match order |
| Engine.AddCandidates | core/engine.py:92-98 | each match's pair is appended unless it is already listed |
| Engine.ExtractTitles | core/engine.py:71-101 | the three patterns are applied in order and the list is their matches with repeats dropped |
| Engine.AfterPatternsNoDuplicates | core/engine.py:97-98 | after any number of patterns the list holds no pair twice |
| Engine.ExtractedNoDuplicates | core/engine.py:97-98 | no (title, year) pair is extracted twice |
| Engine.CandidatesYears | core/engine.py:94-95 | a pattern's years are four-digit numbers |
| Engine.AfterPatternsYears | core/engine.py:94-95 | after any number of patterns every year is in 0..9999 |
| Engine.ExtractedYears | core/engine.py:85-95 | every extracted pair has a year, in 0..9999 |
| Engine.ExtractedGrouped | core/engine.py:91-98 | the list is the «…» matches, then the new "…" matches, then the new catch-all matches, each group drawn from its own pattern only |
| Engine.LazySkipsQuoted | core/engine.py:88 | the catch-all's lazy title grows past every index that no bracketed year follows |
| Engine.GuillemetsMatchBare | core/engine.py:86 | `«t» (y)` gives one «…» match, whose title is `t` without the quotes |
| Engine.CatchAllMatchesQuoted | core/engine.py:88 | `«t» (y)` gives one catch-all match, whose title is `«t»` with the quotes |
| Engine.CatchAllRecapturesQuoted | core/engine.py:85-98 | for a «…» title with a year, the extracted list holds both `(t, y)` and `("«t»", y)`: the catch-all captures quoted titles a second time |
| Engine.WordsAndSpaces | core/engine.py:109 | only word characters and whitespace remain, and a text made only of them is unchanged |
| Engine.CleanTitle | core/engine.py:103-110 | a value that is not a string gives "" |
| Engine.SplitWordChars | core/engine.py:110 | splitting a text of word characters and whitespace yields words of word characters only |
| Engine.JoinWordsShape | core/engine.py:110 | joining non-empty words of word characters with single spaces gives normalised text |
| Engine.JoinFirst | core/engine.py:110 | a join starts with the first word's first character |
| Engine.CleanTitleShape | core/engine.py:103-110 | the cleaned title is lower-case word characters separated by single spaces, with no space at either end |
| Engine.CleanTitleIdempotent | core/engine.py:103-110 | cleaning a cleaned title changes nothing |
| Engine.TranslatedOriginal | core/engine.py:136-142 | a translated original title exists only when the cleaned original is non-empty and its detected language is not exactly "ru" |
| Engine.PairIf | core/engine.py:146-182 | a comparison is made only when both sides are non-empty |
| Engine.Comparisons | core/engine.py:144-189 | every comparison has two non-empty sides, from the query or the model's title against one of the three TMDB titles |
| Engine.AnyHitAppend | core/engine.py:144-192 | some comparison of a concatenation reaches the threshold exactly when one of the parts has one |
| Engine.AnyHitPair | core/engine.py:146-154 | a possible comparison reaches the threshold exactly when both sides are non-empty and the ratio is at least 0.4 |
| Engine.DecisionIffSomeComparison | core/engine.py:112-192 | the movie is relevant exactly when some comparison that can be made reaches 0.4; the order of the early returns does not change the answer |
| Engine.NothingToCompare | core/engine.py:146-165 | with an empty cleaned model title and a query of one word or at most five characters, nothing is compared and no movie is relevant |
| Engine.PreferTranslation | core/engine.py:262-266 | the search title is the candidate title or its translation, and the translation only when it really differs |
| Engine.AcceptedIffFoundAndRelevant | core/engine.py:275-292 | a candidate is accepted exactly when the search finds a record that is judged relevant, and what is accepted is that record |
| Engine.Decisions | core/engine.py:261-292 | one decision per candidate, in order |
| Engine.DisplayYear | core/engine.py:293-294 | a falsy date shows "N/A"; the year is missing only for a truthy date whose first four characters `int` cannot read |
| Engine.Respond | core/engine.py:306-337 | an exception gives the fixed error; otherwise no error, the accepted movies, and for none the fixed "not found" reply |
| Engine.ProcessFailedPrefix | core/engine.py:334-337 | once an exception is raised later candidates change nothing |
| Engine.ProcessSnoc | core/engine.py:261 | the loop after one more candidate is one more step |
| Engine.ChooseSearchTitle | core/engine.py:262-266 | the title searched on TMDB is the one the specification chooses |
| Engine.Decide | core/engine.py:262-299 | the loop body's decision for a candidate is its specified decision |
| Engine.AcceptMovie | core/engine.py:281-289 | the store gains the movie when its TMDB id is not stored yet, then a "recommendation" row for its id |
| Engine.Advance | core/engine.py:281-298 | the loop body after the decision is one step of the specification |
| Engine.DetectRussian | core/engine.py:239-263 | the query counts as Russian exactly when its detected language is "ru" in any case |
| Engine.ProcessCandidates | core/engine.py:261-304 | the loop over the candidates leaves the store, recommendations, lines and failure flag the specification gives |
| Engine.GenerateRecommendations | core/engine.py:194-337 | no titles: the fixed error response and no write; otherwise at most the first five candidates are decided in order and the store and response follow the loop's result |
| Engine.ExtendsTrans | core/engine.py:281-289 | the loop's write discipline composes over steps |
| Engine.StepEffects | core/engine.py:277-298 | one step writes only new movie rows and this user's "recommendation" rows; an accepted storable movie gains one history row and can be found by its TMDB id |
| Engine.StoreAcceptedEffects | core/engine.py:281-289 | accepting a movie keeps the tables valid and writes only what the loop may write |
| Engine.RecordOnlyEffects | core/engine.py:281-289 | a movie already stored only gains a history row |
| Engine.NewMovieEffects | core/engine.py:282-289 | a movie not stored yet is added and recorded under its new id |
| Engine.ProcessEffects | core/engine.py:261-304 | the whole loop writes only new movie rows and this user's "recommendation" rows, and the tables stay valid |
| Engine.ProcessRecommendations | core/engine.py:261-298 | without an exception the recommendations are exactly the accepted candidates, in order, each with one display line |
| Engine.ProcessFailure | core/engine.py:293-337 | an exception happens at an accepted movie whose year cannot be read, and the recommendations so far are the accepted candidates up to it |
| Engine.FailureKept | core/engine.py:334-337 | after an exception a further candidate changes nothing |
| Engine.FailureAtLast | core/engine.py:292-294 | an exception at the last candidate leaves it as the last recommendation |
| Engine.ChosenUpToLonger | core/engine.py:261 | a prefix's accepted movies are accepted movies of any longer run |
| Engine.ChosenUpToWhole | core/engine.py:261 | all accepted movies are those of the whole run |
| Engine.StepShape | core/engine.py:292-298 | one step adds the accepted movie, fails exactly when its year cannot be read, and otherwise adds one line |
| Engine.Chosen | core/engine.py:277-292 | the accepted movies are drawn from the decisions, at most one each |
| Engine.IdKept | core/engine.py:281 | a stored TMDB id is still found after rows are appended |
| Engine.AcceptedAreStored | core/engine.py:281-289 | after the loop every accepted storable movie is found by its TMDB id, and with all storable the history gained one row per recommendation |
| Engine.StepKeepsFound | core/engine.py:281-289 | a step keeps every earlier accepted movie findable |
| Engine.StepKeepsCount | core/engine.py:288-289 | a step keeps one history row per storable recommendation |
| Translator.FirstAt | agents/translator.py:29-34 | `re.search`: the first index from the start at which the pattern matches, with no match before it, or none at all |
| Translator.CleanLanguageCode | agents/translator.py:25-39 | the code is "" or two lower-case ASCII letters |
| Translator.CodeIn | agents/translator.py:29-39 | the code found in the lower-cased reply is "" or two lower-case ASCII letters |
| Translator.CodeIsLettersOfReply | agents/translator.py:29-39 | the code is "" exactly when the reply holds no two consecutive letters, and otherwise is two consecutive letters of the reply |
| Translator.CodePrefersStandalone | agents/translator.py:29-31 | the first standalone two-letter word is the code, even after other letter pairs |
| Translator.CodeFallsBackToFirstLetters | agents/translator.py:34-36 | without a standalone word the first two consecutive letters are the code |
| Translator.LabelAt | agents/translator.py:43-44 | a label is recognised, ignoring case, only as a non-empty prefix of the text |
| Translator.LabelEnd | agents/translator.py:43 | the removed leading part lies within the text |
| Translator.FirstTail | agents/translator.py:43 | the trailing quote-and-space part removed starts at the first position where it matches |
| Translator.CloseAt | agents/translator.py:45 | the `)` that closes a bracket is the first one on the same line, and none means no `)` before a newline |
| Translator.RemoveQuotes | agents/translator.py:46 | no «, » or " remains |
| Translator.CleanTranslationShape | agents/translator.py:41-47 | a cleaned translation holds no «, » or ", no bracketed span on one line, and no surrounding whitespace |
| Translator.StripKeepsOut | agents/translator.py:47 | stripping adds no character |
| Translator.RemoveBracketsLeavesNoSpan | agents/translator.py:45 | after the bracket removal no `(` is followed by `)` on the same line |
| Translator.RemoveBracketsKeepsNoClose | agents/translator.py:45 | the bracket removal keeps every `)` after a newline |
| Translator.NoCloseTail | agents/translator.py:45 | dropping a first character that is not a newline keeps every `)` after a newline |
| Translator.PrependKeepsNoClose | agents/translator.py:45 | prepending a character other than `)` keeps every `)` after a newline |
| Translator.NewlineFirst | agents/translator.py:45 | after a leading newline every `)` follows a newline |
| Translator.SliceKeepsNoSpan | agents/translator.py:45-47 | a slice of text without bracketed spans has none |
| Translator.StripKeepsNoSpan | agents/translator.py:45-47 | stripping keeps text free of bracketed spans |
| Translator.RemoveQuotesKeepsNoClose | agents/translator.py:46 | removing quotes keeps every `)` after a newline |
| Translator.RemoveQuotesKeepsNoSpan | agents/translator.py:46 | removing quotes creates no bracketed span |
| Translator.DetectOutcome | agents/translator.py:97-130 | empty text gives None without a call; a code returned is two lower-case letters |
| Translator.DetectLanguage | agents/translator.py:97-130 | the code and the sleeps are those of the detection prompt's replies under the retry schedule |
| Translator.DetectWith | agents/translator.py:102-130 | the retry loop computes the detection outcome and its sleeps |
| Translator.DetectStopsAtFirstReply | agents/translator.py:112-128 | only a raised attempt is retried: the first reply that arrives settles the result, a usable code or None, after the backoff sleeps before it |
| Translator.Translate | agents/translator.py:58-95 | the translation is the first usable cleaned reply, or the input, with the backoff sleeps between attempts |
| Translator.TranslateToEnglish | agents/translator.py:49-71 | the English prompt's replies decide the translation and the sleeps |
| Translator.TranslateToRussian | agents/translator.py:73-95 | the Russian prompt's replies decide the translation and the sleeps |
| Translator.TranslationFallsBack | agents/translator.py:71-95 | with no usable attempt the input comes back unchanged |
| Translator.TranslationIsFirstUsable | agents/translator.py:59-64 | the translation is the non-empty cleaned reply of the first usable attempt |
| Translator.IsTranslationDifferent | agents/translator.py:132-145 | different only when both texts are non-empty and their cleaned lower-case forms differ |
| Translator.UnchangedIsNotDifferent | agents/translator.py:141-145 | a reply equal to the input once cleaned and lower-cased is never a translation, whatever the ratio |
| Translator.TranslateAll | agents/translator.py:151-157 | one translation per text |
| Translator.TranslateAllSnoc | agents/translator.py:153-154 | one more text adds its own translation at the end |
| Translator.TranslateAllAt | agents/translator.py:153-157 | entry k of the batch is the translation of text k |
| Translator.TranslateEach | agents/translator.py:153-157 | the loop computes each text's translation in order |
| Translator.TranslateBatch | agents/translator.py:147-161 | one result per text; an unsupported language gives the texts back; otherwise each is translated in the direction named, in any case |
| Patterns.YearTail | core/engine.py:86-88 | `\s*\((\d{4})\)` found after optional whitespace: the bracketed four digits start at or after the given index |
| Patterns.MatchAt | core/engine.py:86-88 | a match starting at an index ends after it, has a non-empty title without the stop character (or without ',' and ';' for the catch-all) and a four-digit year where the pattern has one |
| Patterns.QuotedBody | recommendation.py:608-637 | the title `([^STOP]+)` is non-empty and stops at the first stop character |
| Patterns.QuotedTail | recommendation.py:608-612 | after the closing text the year and the trailer are read when the pattern has them |
| Patterns.LazyFrom | core/engine.py:88 | the lazy title is the shortest run without ',' or ';' that a bracketed year follows |
| Patterns.FindFrom | core/engine.py:92 | every match from an index on is well formed and lies within the text |
| Patterns.FindAll | core/engine.py:92 | every match of `re.finditer` is well formed |
| Patterns.FindFromOrdered | core/engine.py:92 | successive matches end strictly further right, so they never overlap |
| Patterns.Pow10 | core/engine.py:86 | a power of ten is positive |
| Patterns.DigitsBelowPow10 | core/engine.py:95 | n digits denote a number below 10 to the n |
| Patterns.FourDigitYear | core/engine.py:95 | a year matched by `\d{4}` is between 0 and 9999 |
| LegacySelection.FirstMatch | recommendation.py:64-69 | the inner loop's match is a listed model that generates content and names the entry; none means no listed model matches it |
| LegacySelection.SelectModel | recommendation.py:47-104 | the nested loops and the two fallbacks choose the specified model name, and a listing that raises gives "gemini-1.5-flash" |
| LegacySelection.ScanModels | recommendation.py:64-69 | the inner loop stops at the first model that matches the entry |
| LegacySelection.PriorityChoiceFound | recommendation.py:62-71 | a priority choice is the name of a listed model matching some entry; no choice means no model matches any entry |
| LegacySelection.ChosenIsUsable | recommendation.py:47-104 | the chosen name is the default or that of a listed model that generates content, and such a model is chosen whenever one is listed |
| LegacySelection.NothingUsableGivesDefault | recommendation.py:93-104 | with no model that generates content, or a listing that raises, the default "gemini-1.5-flash" is used |
| LegacySelection.PriorityIsRespected | recommendation.py:63-71 | when some model matches priority entry i, the choice matches an entry no later than i |
| LegacySelection.FlashBeforeOthers | recommendation.py:74-81 | without a priority match the first flash model that generates content is chosen over any other |
| LegacyFeedback.UserPreferences | recommendation.py:973 | the preferences read back belong to the given user, and every stored preference of that user is read back |
| LegacyFeedback.FeedbackStore.constructor | recommendation.py:963-1001 | the store starts with the given movies and empty history and preference tables |
| LegacyFeedback.FeedbackStore.ProcessUserFeedback | recommendation.py:961-1006 | the result is the rating write's result; a successful write adds one `rated_{rating}` history row; the learned preferences are appended; a write that raises returns False and changes nothing |
| LegacyFeedback.FeedbackStore.LearnFrom | recommendation.py:971-1001 | the preferences gain exactly what the learning rule gives, and the history is unchanged |
| LegacyFeedback.CountKinds | recommendation.py:976-979 | the one-pass count for each type equals the number of preferences of that type |
| LegacyFeedback.OnlyExceptionalRatingsTeach | recommendation.py:971 | nothing is learned from a rating below 9 or from a movie the lookup does not find |
| LegacyFeedback.LearnsFirstGenreAndDirector | recommendation.py:982-1001 | at most two preferences are learned: the movie's first genre and, only from a 10, its first director, neither empty nor already held |
| LegacyFeedback.CountOfKindAppend | recommendation.py:976-979 | counts by type add up over concatenation |
| LegacyFeedback.LearningKeepsCaps | recommendation.py:982-993 | a user with at most five genres and three directors stays within those caps after any rating |
| LegacyFeedback.CountSingle | recommendation.py:976-979 | a single preference counts once for its own type and not for another |
| LegacyFeedback.LearningAddsNoDuplicate | recommendation.py:987-1000 | preferences without a repeated (type, value) pair stay without one after learning |
| LegacyContext.Kinds | recommendation.py:207-208 | one preference type per row, in order |
| LegacyContext.OfKind | recommendation.py:218-219 | one (type, value) pair per value, in order |
| LegacyContext.Texts | recommendation.py:219 | one `type: value` text per kept preference, in order |
| LegacyContext.LimitPreferences | recommendation.py:206-219 | grouping by type and keeping two values per type builds the texts of the kept preferences |
| LegacyContext.GroupByKind | recommendation.py:206-211 | `pref_by_type` holds each type's values in row order, and its keys follow first insertion |
| LegacyContext.GroupedStep | recommendation.py:207-211 | one row keeps the grouping exact |
| LegacyContext.KindsSnoc | recommendation.py:207-208 | one more row adds its type at the end |
| LegacyContext.ValuesOfSnoc | recommendation.py:211 | one more row adds its value to its own type only |
| LegacyContext.NewKindHasNoValues | recommendation.py:209-210 | a type not yet listed has no values |
| LegacyContext.AddValues | recommendation.py:218-219 | the inner loop appends one text per value, in order |
| LegacyContext.TextsAppend | recommendation.py:219 | the texts of a concatenation concatenate |
| LegacyContext.ValuesOfAppend | recommendation.py:211 | a type's values over a concatenation concatenate |
| LegacyContext.ValuesOfOfKind | recommendation.py:218-219 | the pairs built for one type hold only that type's values |
| LegacyContext.KeptForValues | recommendation.py:215-219 | over distinct types every listed type keeps its first two values and every other type none |
| LegacyContext.KindListedIffValued | recommendation.py:209-211 | a type is a key exactly when it has a value |
| LegacyContext.KeptIsFirstTwoPerKind | recommendation.py:213-219 | the request sees, for every type, exactly its first two values in row order |
| LegacyContext.Favorites | recommendation.py:228 | at most three favourites, each a rated movie with a rating of 8 or more |
| LegacyContext.FavoriteTexts | recommendation.py:230-231 | one `title: rating/10` text per favourite |
| LegacyContext.Titles | recommendation.py:194 | one title per rating row, in order |
| LegacyContext.WithPreferences | recommendation.py:221-232 | the notes are appended after the enriched request |
| LegacyContext.EnhancedQuery | recommendation.py:189-237 | the enriched request comes first; without a user nothing is added; with rated movies the request ends with the note naming them; without ratings only the preference note can be added |
| LegacyContext.ExclusionNamesAtMostTen | recommendation.py:235-237 | the exclusion note names the first rated titles, at most ten |
| LegacyContext.FavoritesAreFirstHighlyRated | recommendation.py:228 | the favourites are the first three movies rated 8 or more; all of them when fewer |
| LegacyEngine.PrefixedTwice | recommendation.py:347-348 | prefixing the delays slept so far twice is prefixing their concatenation, so the delays of a run accumulate in the order they were slept |
| LegacyEngine.RecommendationEngine.constructor | recommendation.py:25-104 | a new engine holds the model the selection picks from the listing (the fallback model when listing raised) and has the proxy flag off |
| LegacyEngine.RecommendationEngine.CallModel | recommendation.py:295-387 | the attempts loop ends with the outcome, the delays slept and the proxy flag of the attempts specification: a reply answers, a found proxy returns the blocked-region text, a 429 is retried after sleeping with the delay doubled, a 403 or location error sets the proxy flag and on the last attempt returns the blocked-region text, any other error is passed on; the model is unchanged |
| LegacyEngine.RecommendationEngine.ReportError | recommendation.py:558-592 | the reply is the apology followed by the explanation of the message, and the proxy flag is set exactly when the message is a 403 or location error (and stays set otherwise) |
| LegacyEngine.RecommendationEngine.GenerateRecommendations | recommendation.py:178-592 | the response and the new proxy flag are those of the request specification: prompt built from the user's context, the attempts, then the blocked-region text, the reported error or the checked answer |
| LegacyEngine.RecommendationEngine.Conclude | recommendation.py:365-392 | after the attempts the response is the blocked-region text with no recommendations, the reported error (the quota text for exhausted attempts) with no recommendations, or the checked answer |
| LegacyEngine.Respond | recommendation.py:389-556 | the answered path returns the extracted titles' first pass, the extra rounds and the closing note, as the answer specification states |
| LegacyEngine.AttemptsNeverExhaust | recommendation.py:299-387 | from any attempt the loop never falls through to the quota exception: the last attempt always answers, returns the blocked-region text or passes its exception on |
| LegacyEngine.DelaysDouble | recommendation.py:296-348 | each delay slept is the first delay times a power of two, doubling in order, and fewer delays are slept than attempts remain |
| LegacyEngine.BackoffSchedule | recommendation.py:296-348 | a request sleeps 2 seconds, then 4, and never more than those two delays |
| LegacyEngine.ProxyFlagOnlyRises | recommendation.py:302-351 | the attempts never turn the proxy flag off, and it is on whenever they end with the blocked-region answer |
| LegacyEngine.OutcomesComeFromReplies | recommendation.py:333-384 | an answer is the reply of one of the attempts from this one on, and an exception passed on was raised by one of them, is not a location error, and is a 429 only on the last attempt |
| LegacyEngine.ErrorRepliesExplain | recommendation.py:562-591 | every error reply starts with the apology; a 403 or location error is replaced by the region help; a message that is none of the three known kinds is shown verbatim at the end |
| LegacyEngine.RequestsRecommendVettedMovies | recommendation.py:178-592 | every movie a request recommends passed the TMDB lookup and the relevance check, a response carrying an error recommends nothing, and a set proxy flag stays set |
| LegacyEngine.AnswerVetted | recommendation.py:389-556 | the movies of an answered request are all vetted, and the answer text begins with the model's reply |
| LegacyHeuristics.NamesMatch | recommendation.py:1276-1301 | two names match only when each has at least two words |
| LegacyHeuristics.NamesMatchSymmetric | recommendation.py:1289-1297 | whether two names match does not depend on their order |
| LegacyHeuristics.SingleWordNeverMatches | recommendation.py:1292-1299 | a name of fewer than two words matches nothing |
| LegacyHeuristics.ContainsItself | recommendation.py:1294-1295 | every word is a substring of itself, so identical first or last words match |
| LegacyHeuristics.ContainsPrefix | recommendation.py:1294-1295 | a word is a substring of the word extended by an ending |
| LegacyHeuristics.SplitTwoWords | recommendation.py:1289-1290 | two space-free words joined by one space split back into exactly those two words |
| LegacyHeuristics.SplitOneWord | recommendation.py:1289-1290 | a non-empty word without spaces splits into itself alone |
| LegacyHeuristics.WordEndFrom | recommendation.py:1289-1290 | the word that starts at an index ends at the first space after it, or at the end of the text |
| LegacyHeuristics.InflectedFormsMatch | recommendation.py:1276-1297 | a two-word name matches every spelling that only adds case endings to its first and last word |
| LegacyHeuristics.StripEnding | recommendation.py:1727-1738 | the word loses a two-letter case ending whenever it has one, otherwise one vowel ending only when it is longer than the minimum, and otherwise stays as written; what is kept is always a prefix of the word |
| LegacyHeuristics.NormalizePersonName | recommendation.py:1674-1746 | a name whose lower-cased, stripped form is in the dictionary of known indirect forms gives its nominative form; any other name is handled as an unknown name |
| LegacyHeuristics.NormalizeUnknown | recommendation.py:1720-1742 | an unknown two-word name becomes the title-cased prefixes of its words, each at most two characters shorter; any other name is only title-cased |
| LegacyHeuristics.ShortWordsKeepVowel | recommendation.py:1729-1738 | a first name of at most 3 characters or a last name of at most 4 characters without a two-letter ending is kept unchanged |
| LegacyHeuristics.LowerAll | recommendation.py:1308 | each genre is lower-cased, in order, and none is added or dropped |
| LegacyHeuristics.FallbackVerdict | recommendation.py:1303-1391 | a movie whose genres or overview cannot be lower-cased is accepted; an action request rejects a comedy or romance genre; when the request names genres the movie is accepted only if it has one of them |
| LegacyHeuristics.FallbackValidation | recommendation.py:1303-1391 | the validation with its two loops gives the fallback verdict |
| LegacyHeuristics.CollectExpected | recommendation.py:1327-1333 | the first loop collects the genres of every keyword found in the request, and those keywords, in keyword order |
| LegacyHeuristics.FindContradiction | recommendation.py:1373-1384 | the second loop reports a contradiction exactly when some row's fragment occurs in the request and the movie has one of that row's genres |
| LegacyHeuristics.ExpectedEmpty | recommendation.py:1327-1352 | no genre is expected exactly when no keyword occurs in the request (both directions) |
| LegacyHeuristics.OnlyChildrenRowReachable | recommendation.py:1352-1384 | when no keyword occurs, only the children's row can reject: the action, horror and comedy rows are dead, since their fragments are keywords themselves |
| LegacyHeuristics.NoKeywordAccepts | recommendation.py:1343-1387 | a request without keywords is accepted unless it is an action request against a comedy or romance genre, or a children's request against a horror, thriller or adult genre |
| LegacyPipeline.FirstPass | recommendation.py:404-450 | the loop over the extracted titles ends with the tally of the first-pass specification: rated titles and their variants counted as rated, titles TMDB does not know noted as not found, relevant movies accepted, the rest noted as mismatches |
| LegacyPipeline.IsRatedVariant | recommendation.py:418-429 | the loop over the rated titles reports a variant exactly when some rated title and the movie's title, or its non-empty original title, contain one another once lower-cased |
| LegacyPipeline.FirstPassSkipsRated | recommendation.py:404-450 | the first pass keeps the movies accepted before it and accepts no variant of a rated title; each movie it accepts is TMDB's answer for an unrated title that was judged relevant |
| LegacyPipeline.FirstPassCountsEveryTitle | recommendation.py:394-450 | each title of the first pass lands in exactly one of the four counters, the accepted count stays the number of accepted movies, and the title list is unchanged |
| LegacyPipeline.Round | recommendation.py:490-531 | the loop over a round's titles, with its skips and its break, ends with the tally of the round specification |
| LegacyPipeline.RoundAddsFreshMovies | recommendation.py:491-529 | a round keeps the accepted movies, adds only movies whose lower-cased title is new, keeps the accepted count exact, never lowers the mismatch count, and from fewer than three accepted reaches at most three |
| LegacyPipeline.FreshTail | recommendation.py:508-512 | two additions that each bring only new titles together bring only new titles |
| LegacyPipeline.RetryLoop | recommendation.py:452-539 | the while loop of extra rounds ends with the outcome of the retries specification: it counts each round, runs it, and is left when a round's model call raises |
| LegacyPipeline.RunRound | recommendation.py:460-535 | one round: a raising model call stops the loop; otherwise the titles of its reply are checked, and in the first round the reply is appended to the answer |
| LegacyPipeline.RetriesAreBounded | recommendation.py:453-458 | at most two extra rounds run, whatever the rounds return, and the count never goes down |
| LegacyPipeline.NoRoundWhenEnough | recommendation.py:456-458 | when two movies were accepted or none was rejected as irrelevant, no round runs and the tally and answer are left as they are |
| LegacyPipeline.RetriesWithStopForAReason | recommendation.py:456-458 | when no round stops early, the loop ends only once retrying is no longer needed or both rounds have run |
| LegacyPipeline.RetriesStopForAReason | recommendation.py:456-539 | when every model call of the rounds answers, the loop ends only once retrying is no longer needed or both rounds have run |
| LegacyPipeline.RetriesWithKeep | recommendation.py:456-539 | any property of the tally and the answer that each round keeps holds when the loop ends |
| LegacyPipeline.NextRoundAddsFresh | recommendation.py:478-531 | one round that answers keeps the accepted count exact, adds only movies with a new lower-cased title, and from fewer than three accepted reaches at most three |
| LegacyPipeline.RetriesKeepAccepted | recommendation.py:452-539 | the rounds keep every movie accepted before them, add only movies whose lower-cased title is new, keep the accepted count exact and stop at three accepted movies |
| LegacyPipeline.FirstPassVetted | recommendation.py:404-450 | after the first pass every accepted movie was found in TMDB under a title judged relevant |
| LegacyPipeline.RoundVetted | recommendation.py:491-531 | after a round every accepted movie was found in TMDB under a title judged relevant |
| LegacyPipeline.NextRoundVetted | recommendation.py:478-531 | after one round that answers every accepted movie was found in TMDB under a title judged relevant |
| LegacyPipeline.RetriesVetted | recommendation.py:452-539 | after the rounds every accepted movie was found in TMDB under a title judged relevant |
| LegacyPipeline.NextRoundExtendsResponse | recommendation.py:533-535 | a round only appends to the answer |
| LegacyPipeline.RetriesExtendResponse | recommendation.py:452-539 | the answer the rounds leave begins with the answer they were given |
| LegacyPipeline.PrefixOfPrefix | recommendation.py:533-550 | an answer extended twice still begins with the original answer |
| LegacyPipeline.NotesAreExclusive | recommendation.py:544-550 | the warning note is appended exactly when retrying is still needed, the success note exactly when a round ran and two movies were accepted, never both, and nothing otherwise |
| LegacyPipeline.MarkedNote | recommendation.py:545-550 | a note opened by the warning mark does not start with the success mark, and the other way round |
| LegacyTitles.YearEntries | recommendation.py:620-623 | one entry per match, in order: the match's stripped title followed by its year in brackets |
| LegacyTitles.SimpleEntries | recommendation.py:642-645 | every simple title kept is longer than three characters and is not a stop word |
| LegacyTitles.ExtractMovieTitles | recommendation.py:594-718 | the extraction returns the year tier when any year pattern matched, else the simple tier when any simple pattern matched, else the language-model fallback's titles |
| LegacyTitles.ScanYearTier | recommendation.py:618-625 | the loop over the year patterns builds the year tier, pattern by pattern |
| LegacyTitles.ScanSimpleTier | recommendation.py:640-647 | the loop over the simple patterns builds the simple tier, pattern by pattern |
| LegacyTitles.AddYearEntries | recommendation.py:620-625 | the entries of a pattern's matches are appended in order, each only when not already listed |
| LegacyTitles.AddSimpleEntries | recommendation.py:642-647 | the kept titles of a pattern's matches are appended in order, each only when not already listed |
| LegacyTitles.SimpleStep | recommendation.py:642-647 | one more match appends its stripped title exactly when that title is kept and not yet listed |
| LegacyTitles.SimpleEntriesSnoc | recommendation.py:642-645 | the kept titles of one more match are those before it plus its own when kept |
| LegacyTitles.YearTierGrows | recommendation.py:618-625 | the year tier after fewer patterns is a prefix of the tier after more |
| LegacyTitles.YearTierComplete | recommendation.py:618-625 | every match of every year pattern has its entry in the year tier |
| LegacyTitles.LastPatternCounts | recommendation.py:618-625 | every match of the last pattern has its entry in the year tier |
| LegacyTitles.YearTierShape | recommendation.py:608-623 | every entry of the year tier ends in a blank and a bracketed four-digit year |
| LegacyTitles.EntryShape | recommendation.py:623 | an entry built from a four-digit year ends in a blank and that year in brackets |
| LegacyTitles.YearTierNoDuplicates | recommendation.py:624 | the year tier never lists an entry twice |
| LegacyTitles.SimpleTierShape | recommendation.py:643-647 | the simple tier never lists a title twice and lists only titles longer than three characters that are not stop words |
| LegacyTitles.ExtractionTiers | recommendation.py:594-651 | when a year pattern matches, the result is exactly the year entries, each once, every match represented; otherwise the simple titles are long enough, not stop words and listed once; otherwise the fallback's titles |
| LegacyTitles.SearchYear | recommendation.py:745-746 | a year found in the title is four digits |
| LegacyTitles.DropQuotes | recommendation.py:750 | stripping leading quotes and asterisks leaves a suffix that does not start with one |
| LegacyTitles.DropTrailingQuotes | recommendation.py:750 | stripping trailing quotes and asterisks leaves a prefix that does not end with one |
| LegacyTitles.CleanTitleRoundTrip | recommendation.py:745-750 | cleaning an extracted entry gives back the title it was built from, and its year is the year searched for |
| LegacyTitles.RemoveYearsKeepsTitle | recommendation.py:749 | removing the bracketed year from an entry keeps its title untouched |
| LegacyTitles.NoYearInTitle | recommendation.py:749 | a title without an opening bracket holds no bracketed year to remove |
| LegacyTitles.SearchSkipsTitle | recommendation.py:745 | the year search passes over a title without brackets to the year after it |
| Text.StripOfTrimmed | recommendation.py:749 | stripping a title with no blank at either end leaves it unchanged |
| LegacyTitles.TitleScore | recommendation.py:822-830 | the title score is 100, 80, 75 or 0, and it is 100 exactly when the searched title equals the localized or the original title |
| LegacyTitles.Score | recommendation.py:812-851 | without a year, the score is the title score plus 20 for each word the searched title shares with the better of the two titles |
| LegacyTitles.ScoresOf | recommendation.py:812 | one score per result, in order |
| LegacyTitles.BestSoFar | recommendation.py:809-857 | the index the scan keeps is always a position of the scores |
| LegacyTitles.ScanStep | recommendation.py:850-857 | one step keeps the scan's index or moves it to the current result, and a raising score ends the scan |
| LegacyTitles.BestSoFarPrefix | recommendation.py:812-857 | the scan over one more score is one more step of the scan |
| LegacyTitles.SelectedIndex | recommendation.py:812-866 | a selected position is among the results and among the first five |
| LegacyTitles.SelectBestMatch | recommendation.py:809-866 | the lookup goes on with the result the selection specification picks, or with none |
| LegacyTitles.ScanScores | recommendation.py:809-857 | the scoring loop ends with the scan's best score and the index where it was first reached, or with nothing once a score raises |
| LegacyTitles.ScanStopsAt | recommendation.py:850-851 | a score that raises ends the whole scan without a result |
| LegacyTitles.BestIsFirstMaximum | recommendation.py:809-857 | the scan keeps the first result with the greatest positive score: strictly better than every earlier one and at least as good as every later one |
| LegacyTitles.FirstMaximumStep | recommendation.py:855-857 | a strictly greater score becomes the new first maximum; otherwise the old one stays |
| LegacyTitles.SelectionIsFirstBest | recommendation.py:809-866 | a selected result is among the first five, scores at least 40, beats every earlier result and is at least as good as every later one |
| LegacyTitles.ScoresOfFirstFive | recommendation.py:812 | only the first five results are scored, in order |
| LegacyTitles.LowScoresSelectNothing | recommendation.py:860-862 | when every score among the first five is below 40, no result is selected |
| LegacyTitles.OnlyFirstFiveScored | recommendation.py:812 | results after the fifth never change the selection |
| LegacyTitles.EmptyTitleIsPartialMatch | recommendation.py:813-828 | a result without a localized title is a partial match (80) of any other non-empty searched title |

## Left out

**Text and numbers**

- Unicode: `Text.IsSpace` is exact. Letters, case mapping (`lower`, `title`) and the regular-expression class `\w` cover only ASCII, Latin-1 and the basic Cyrillic block.
- Digits: `Text.IsDigit`, the `\d` of every pattern and `Text.PyInt` accept only the ASCII digits. Python's `\d` and `int()` also accept the other Unicode decimal digits, and `int()` accepts `_` between digits (`int("1_0")` is 10). The model rejects such texts.
- Callback routes (`Callbacks.RatePattern`, `Callbacks.SelectPattern`, `Callbacks.SavePattern`, `Callbacks.ConfirmPattern`): `$` is read as the end of the data. Python's `$` also matches just before a final newline, so data ending in one newline that the source routes is not routed in the model.
- Floating point is not modelled:
  - `difflib` ratios are an uninterpreted function;
  - `vote_average` and popularity are not modelled;
  - the `:.1f` rating text is given by a `formatRating` parameter;
  - `UPDATE` of a float column writes nothing in the model.

**Network and external services**

- Network I/O is replaced by oracles: the Gemini calls, the TMDB HTTP exchanges and the translator's model calls.
- `agents/llm_generator.py` is not part of this model.
- Proxy discovery and testing (recommendation.py:107-176) are replaced by the `proxyFound` oracle.
- `_enrich_query_with_tmdb_data` (recommendation.py:1557-1672) and its person, genre and filmography lookups are not modelled. The enriched request is a parameter.
- `asyncio` sleeps are modelled as the list of delays slept, not as time.
- The legacy TMDB lookup is modelled only from the search results on. The search requests, their retries and the year-less second search (recommendation.py:755-806) are not modelled, and neither is the details request after the best match is chosen. The model scores a given result list.

**Legacy engine (recommendation.py)**

- The language-model JSON fallback of `_extract_movie_titles` (recommendation.py:653-714) is a model call plus `json.loads`. The titles it would return are a parameter.
- `_validate_movie_match` (recommendation.py:1121-1274) asks the language model. Its verdict is the `relevant` oracle.
- `_names_match`, `_normalize_person_name` and `_fallback_validation` are modelled on their own in `LegacyHeuristics`.
- `get_similar_movies` (recommendation.py:1008-1119) is not modelled: it is TMDB and model calls around the same checks.
- The legacy engine's `db.add_movie` calls for accepted movies (recommendation.py:441-443,522-524) are not modelled. No check reads what they write; insert-or-ignore itself is modelled in `LegacyStore`.
- `LegacyFeedback`: the rating store of `process_user_feedback` is abstract. `database.py` has no `add_user_rating` (recommendation.py:963), so the rating write's result is a parameter.
- `LegacyFeedback`: exceptions raised by the movie lookup or by the preference writes are not modelled. The movie is looked up by the database id used as a TMDB id, as the source does.
- The prompt context that `core/engine.py` builds from preferences, ratings and exclusions (core/engine.py:212-237) is not modelled. The model's candidate reply is a parameter.

**Persistence**

- Feedback.FeedbackAgent.constructor: only a new database file is modelled. On an existing file `CREATE TABLE IF NOT EXISTS` keeps the stored rows; the model starts from an empty log.
- `MovieStore.ParseGenres`: an empty `genres` column reads back as an empty list. The source leaves the empty string in place.
- `MovieStore.MovieDatabase.AddMovie`: on the upsert-update path the returned id is SQLite's `lastrowid`, which is passed in as `lastRowId`.
- MovieStore.MovieDatabase.UpdateMovie: `float(value)`, `int(value)` and `item['name']` run before the `try` (database/movies.py:490-505) and can raise. The `FieldUpdate` type carries only values those conversions accept, so these raises are not modelled.
- Engine.AcceptMovie: both store writes run without an SQLite error. In the source an `add_movie` that fails returns None, and then no history row is written (core/engine.py:281-289); a failing `add_user_history` writes nothing. The loop's write lemmas (`Engine.ProcessEffects`, `Engine.AcceptedAreStored`) assume both writes succeed.
- Rows that SQLite orders by timestamp are read newest first as the reverse of insertion order. Ties between equal timestamps are not modelled.
- SQL text, schema DDL, `database/config.py` and `core/logger.py` are not part of this model.

**Telegram layer**

- Telegram transport is modelled by the text of each reply, and keyboards are lists of (label, data) pairs. The following are not modelled:
  - sending, editing and photo messages;
  - the `BadRequest` fallbacks;
  - chat actions;
  - the ConversationHandler wiring.
- `tg_bot/bot.py` is not part of this model: it imports names `main.py` does not define.
- `show_movie_details_callback`, `more_recommendations_callback` and `cancel_callback` (tg_bot/callbacks.py:233-404) are not modelled. They only send messages built by other modelled parts.
- `Handlers.HandleTextMessage`: the reply sent when the engine raises (tg_bot/handlers.py:185-189) is not modelled, and neither are the per-movie photos and keyboards.
- `format_llm_response`, the start keyboard and the post-action keyboards are constant texts and layouts and are not modelled. `get_credits` in `agents/tmdb_agent.py` repeats the credits mapping of `get_movie_details` and is not modelled.
- `Formatter.FormatMovie`: a runtime that is a float is not modelled. A director or actor entry without a usable name, which makes the source's join raise, is not modelled either.

/** The bot's SQLite store (database/movies.py) as in-memory tables.

    Each table is a sequence of rows in insertion order (SQLite's rowid order).
    `Tables` is the whole database as a value; the functions on it below define
    what each operation does, and the `MovieDatabase` class holds the tables as
    fields and updates them in place. A `fault` parameter stands for a SQLite
    error inside a method's `try` block: the method then returns its failure
    value and changes nothing. */
module MovieStore {
  import opened Wrappers
  import opened Text
  import opened Seqs
  import Tmdb

  /** A row of `movies`: genres are stored joined with ", ", actor and director
      names as a JSON list (modelled as the list itself). */
  datatype MovieRow = MovieRow(
    id: nat, tmdbId: int, title: string, originalTitle: Option<string>,
    overview: Option<string>, releaseDate: Option<string>, posterPath: Option<string>,
    backdropPath: Option<string>, runtime: Option<int>, genres: string,
    actors: seq<Option<string>>, directors: seq<Option<string>>)

  /** A movie as `get_movie` returns it: genres split back into a list; each
      actor and director is the dictionary `{'name': n}`, modelled by `n`. */
  datatype StoredMovie = StoredMovie(
    id: nat, tmdbId: int, title: string, originalTitle: Option<string>,
    overview: Option<string>, releaseDate: Option<string>, posterPath: Option<string>,
    backdropPath: Option<string>, runtime: Option<int>, genres: seq<string>,
    actors: seq<Option<string>>, directors: seq<Option<string>>)

  datatype Preference = Preference(userId: int, kind: string, value: string)
  datatype RatingRow = RatingRow(userId: int, movieId: int, rating: int)
  datatype HistoryRow = HistoryRow(userId: int, movieId: int, action: string)

  /** A row of `get_user_ratings`. */
  datatype RatedMovie = RatedMovie(rating: int, title: string, tmdbId: int, movieId: int)
  /** A row of `get_user_history`. */
  datatype HistoryEntry = HistoryEntry(movieId: int, action: string, title: string)

  datatype Tables = Tables(
    users: map<int, Option<string>>, movies: seq<MovieRow>, nextMovieId: nat,
    preferences: seq<Preference>, ratings: seq<RatingRow>, history: seq<HistoryRow>)

  const EmptyTables := Tables(map[], [], 1, [], [], [])

  /** The table constraints: AUTOINCREMENT ids, UNIQUE(tmdb_id),
      UNIQUE(user_id, preference_type, preference_value), UNIQUE(user_id, movie_id) on ratings. */
  predicate ValidTables(t: Tables) {
    && t.nextMovieId >= 1
    && (forall k :: 0 <= k < |t.movies| ==> 1 <= t.movies[k].id < t.nextMovieId)
    && (forall i, j :: 0 <= i < j < |t.movies| ==> t.movies[i].id < t.movies[j].id)
    && (forall i, j :: 0 <= i < j < |t.movies| ==> t.movies[i].tmdbId != t.movies[j].tmdbId)
    && NoDuplicates(t.preferences)
    && (forall i, j :: 0 <= i < j < |t.ratings| ==>
          !(t.ratings[i].userId == t.ratings[j].userId && t.ratings[i].movieId == t.ratings[j].movieId))
  }

  // ---------------------------------------------------------------------------
  // movies

  function FindById(movies: seq<MovieRow>, id: int): (r: Option<MovieRow>)
    ensures r.Some? ==> r.value in movies && r.value.id == id
    ensures r.None? ==> forall k :: 0 <= k < |movies| ==> movies[k].id != id
  {
    if movies == [] then None
    else if movies[0].id == id then Some(movies[0])
    else FindById(movies[1..], id)
  }

  function FindByTmdb(movies: seq<MovieRow>, tmdbId: int): (r: Option<MovieRow>)
    ensures r.Some? ==> r.value in movies && r.value.tmdbId == tmdbId
    ensures r.None? ==> forall k :: 0 <= k < |movies| ==> movies[k].tmdbId != tmdbId
  {
    if movies == [] then None
    else if movies[0].tmdbId == tmdbId then Some(movies[0])
    else FindByTmdb(movies[1..], tmdbId)
  }

  function Names<P>(people: seq<P>, name: P -> Option<string>): (r: seq<Option<string>>)
    ensures |r| == |people| && forall k :: 0 <= k < |r| ==> r[k] == name(people[k])
  {
    seq(|people|, k requires 0 <= k < |people| => name(people[k]))
  }

  /** `", ".join(genres)` */
  function JoinGenres(genres: seq<string>): string {
    Join(", ", genres)
  }

  /** How `get_movie` reads the genres column back: split on ',' and strip
      each piece; an empty column gives no genres. */
  function ParseGenres(column: string): (r: seq<string>)
    ensures column == [] <==> r == []
  {
    if column == [] then []
    else var pieces := SplitAll(column, ',');
      seq(|pieces|, k requires 0 <= k < |pieces| => Strip(pieces[k]))
  }

  /** A movie record that SQLite accepts: `tmdb_id` and `title` are NOT NULL. */
  predicate Storable(m: Tmdb.MovieDetails) {
    m.tmdbId.Some? && m.title.Some?
  }

  /** The row `add_movie` writes for `m` under `id`. */
  function RowOf(id: nat, m: Tmdb.MovieDetails): (row: MovieRow)
    requires Storable(m)
    ensures row.id == id && row.tmdbId == m.tmdbId.value && row.title == m.title.value
  {
    MovieRow(id, m.tmdbId.value, m.title.value, m.originalTitle, m.overview, m.releaseDate,
             m.posterPath, m.backdropPath, m.runtime, JoinGenres(m.genres),
             Names(m.actors, (a: Tmdb.Actor) => a.name), Names(m.directors, (d: Tmdb.Director) => d.name))
  }

  /** `add_movie`'s upsert on `tmdb_id`: a new row under the next id, or the
      existing row's fields overwritten, keeping its id. */
  function UpsertMovie(t: Tables, m: Tmdb.MovieDetails): Tables
    requires Storable(m)
  {
    match FindByTmdb(t.movies, m.tmdbId.value)
    case None => t.(movies := t.movies + [RowOf(t.nextMovieId, m)], nextMovieId := t.nextMovieId + 1)
    case Some(old_) =>
      t.(movies := seq(|t.movies|, k requires 0 <= k < |t.movies| =>
                         if t.movies[k].tmdbId == m.tmdbId.value then RowOf(t.movies[k].id, m) else t.movies[k]))
  }

  /** The id of the row with that TMDB id; `WHERE tmdb_id = NULL` finds nothing. */
  function IdOfTmdb(movies: seq<MovieRow>, tmdbId: Option<int>): (r: Option<nat>)
    ensures r.Some? <==> tmdbId.Some? && exists k :: 0 <= k < |movies| && movies[k].tmdbId == tmdbId.value
    ensures r.Some? ==> exists k :: 0 <= k < |movies| && movies[k].tmdbId == tmdbId.value && movies[k].id == r.value
  {
    if tmdbId.None? then None
    else match FindByTmdb(movies, tmdbId.value)
      case Some(row) => Some(row.id)
      case None => None
  }

  function Stored(row: MovieRow): StoredMovie {
    StoredMovie(row.id, row.tmdbId, row.title, row.originalTitle, row.overview, row.releaseDate,
                row.posterPath, row.backdropPath, row.runtime, ParseGenres(row.genres), row.actors, row.directors)
  }

  // ---------------------------------------------------------------------------
  // users, preferences, ratings, history

  /** `INSERT OR IGNORE INTO users`: an existing user keeps their username. */
  function WithUser(t: Tables, userId: int, username: Option<string>): Tables {
    if userId in t.users then t else t.(users := t.users[userId := username])
  }

  /** `INSERT OR REPLACE` on the unique triple: the old equal row goes, the new one is appended. */
  function WithPreference(t: Tables, p: Preference): Tables {
    t.(preferences := Filter(t.preferences, (q: Preference) => q != p) + [p])
  }

  function WithoutPreferencesOf(t: Tables, userId: int): Tables {
    t.(preferences := Filter(t.preferences, (q: Preference) => q.userId != userId))
  }

  /** The upsert on (user_id, movie_id): the old row goes and the new one,
      with the new `rated_at`, becomes the most recent. */
  function WithRating(t: Tables, userId: int, movieId: int, rating: int): Tables {
    t.(ratings := Filter(t.ratings, (r: RatingRow) => !(r.userId == userId && r.movieId == movieId))
                  + [RatingRow(userId, movieId, rating)])
  }

  function WithHistory(t: Tables, userId: int, movieId: int, action: string): Tables {
    t.(history := t.history + [HistoryRow(userId, movieId, action)])
  }

  function WithoutHistoryOf(t: Tables, userId: int): Tables {
    t.(history := Filter(t.history, (h: HistoryRow) => h.userId != userId))
  }

  /** `get_user_preferences`: (type, value) pairs of that user, in rowid order. */
  function PreferencesOf(t: Tables, userId: int): (r: seq<(string, string)>)
    ensures forall k :: 0 <= k < |r| ==> Preference(userId, r[k].0, r[k].1) in t.preferences
    ensures forall p :: p in t.preferences && p.userId == userId ==> (p.kind, p.value) in r
  {
    var mine := Filter(t.preferences, (p: Preference) => p.userId == userId);
    var r := seq(|mine|, k requires 0 <= k < |mine| => (mine[k].kind, mine[k].value));
    assert forall k :: 0 <= k < |mine| ==> r[k] == (mine[k].kind, mine[k].value);
    r
  }

  /** Ratings joined with their movies; a rating whose movie is gone is dropped. */
  function JoinRatings(rows: seq<RatingRow>, movies: seq<MovieRow>): seq<RatedMovie> {
    if rows == [] then []
    else
      (match FindById(movies, rows[0].movieId)
       case Some(m) => [RatedMovie(rows[0].rating, m.title, m.tmdbId, rows[0].movieId)]
       case None => [])
      + JoinRatings(rows[1..], movies)
  }

  /** `get_user_ratings`: the user's ratings joined with movies, most recent first. */
  function RatingsOf(t: Tables, userId: int): seq<RatedMovie> {
    Reverse(JoinRatings(Filter(t.ratings, (r: RatingRow) => r.userId == userId), t.movies))
  }

  function JoinHistory(rows: seq<HistoryRow>, movies: seq<MovieRow>): (r: seq<HistoryEntry>)
    ensures |r| <= |rows|
    ensures forall e :: e in r ==> exists h :: h in rows && h.movieId == e.movieId && h.action == e.action
  {
    if rows == [] then []
    else
      var rest := JoinHistory(rows[1..], movies);
      match FindById(movies, rows[0].movieId)
      case Some(m) => [HistoryEntry(rows[0].movieId, rows[0].action, m.title)] + rest
      case None => rest
  }

  /** The rows `get_user_history` selects: that user's, and of `action_type`
      when one is given (an empty string counts as none). */
  function SelectedHistory(t: Tables, userId: int, actionType: Option<string>): seq<HistoryRow> {
    Filter(t.history, (h: HistoryRow) => Selected(userId, actionType, h))
  }

  predicate Selected(userId: int, actionType: Option<string>, h: HistoryRow) {
    h.userId == userId && (actionType.Some? && actionType.value != [] ==> h.action == actionType.value)
  }

  /** `get_user_history(user_id, limit, action_type)`: newest first, at most
      `limit` rows (SQLite treats a negative LIMIT as no limit). */
  function HistoryOf(t: Tables, userId: int, limit: int, actionType: Option<string>): seq<HistoryEntry> {
    var newest := Reverse(JoinHistory(SelectedHistory(t, userId, actionType), t.movies));
    if limit < 0 || limit >= |newest| then newest else newest[..limit]
  }

  // ---------------------------------------------------------------------------
  // update_movie

  datatype TextColumn = Title | OriginalTitle | Overview | ReleaseDate | PosterPath | BackdropPath

  /** One `key: value` item of `update_movie`'s dictionary. */
  datatype FieldUpdate =
    | SetText(column: TextColumn, text: Option<string>)
    | SetFloat(floatColumn: string)
    | SetRuntime(runtime: int)
    | SetGenres(genres: seq<string>)
    | SetActors(actors: seq<Option<string>>)
    | SetDirectors(directors: seq<Option<string>>)
    | Ignored(key: string)

  /** Whether the item becomes a `SET` clause: every key of the whitelist with a
      value of the accepted type (lists for genres, actors and directors). */
  predicate Whitelisted(u: FieldUpdate) {
    !u.Ignored?
  }

  /** The column value `UPDATE ... SET` writes. Floating-point columns are not modelled. */
  function ApplyUpdate(row: MovieRow, u: FieldUpdate): MovieRow
    requires !SetsNullTitle(u)
  {
    match u
    case SetText(c, v) =>
      (match c
       case Title => row.(title := v.value)
       case OriginalTitle => row.(originalTitle := v)
       case Overview => row.(overview := v)
       case ReleaseDate => row.(releaseDate := v)
       case PosterPath => row.(posterPath := v)
       case BackdropPath => row.(backdropPath := v))
    case SetFloat(_) => row
    case SetRuntime(r) => row.(runtime := Some(r))
    case SetGenres(gs) => row.(genres := JoinGenres(gs))
    case SetActors(ns) => row.(actors := ns)
    case SetDirectors(ns) => row.(directors := ns)
    case Ignored(_) => row
  }

  predicate SetsNullTitle(u: FieldUpdate) {
    u.SetText? && u.column == Title && u.text.None?
  }

  /** Setting `title` to NULL violates its NOT NULL constraint. */
  predicate ClearsTitle(updates: seq<FieldUpdate>) {
    exists u :: u in updates && SetsNullTitle(u)
  }

  function ApplyUpdates(row: MovieRow, updates: seq<FieldUpdate>): (r: MovieRow)
    requires !ClearsTitle(updates)
    ensures r.id == row.id && r.tmdbId == row.tmdbId
    decreases |updates|
  {
    if updates == [] then row
    else ApplyUpdates(ApplyUpdate(row, updates[0]), updates[1..])
  }

  // ---------------------------------------------------------------------------
  // The store

  class MovieDatabase {
    var users: map<int, Option<string>>
    var movies: seq<MovieRow>
    var nextMovieId: nat
    var preferences: seq<Preference>
    var ratings: seq<RatingRow>
    var history: seq<HistoryRow>

    function Contents(): Tables
      reads this
    {
      Tables(users, movies, nextMovieId, preferences, ratings, history)
    }

    predicate Valid()
      reads this
    {
      ValidTables(Contents())
    }

    method Assign(t: Tables)
      modifies this
      ensures Contents() == t
    {
      users, movies, nextMovieId := t.users, t.movies, t.nextMovieId;
      preferences, ratings, history := t.preferences, t.ratings, t.history;
    }

    /** A new database: `_ensure_tables` on an empty file. */
    constructor ()
      ensures Valid() && Contents() == EmptyTables
    {
      users, movies, nextMovieId := map[], [], 1;
      preferences, ratings, history := [], [], [];
    }

    /** `add_user`: insert-or-ignore; true whether the user is new or not. */
    method AddUser(userId: int, username: Option<string>, fault: bool) returns (ok: bool)
      requires Valid()
      modifies this
      ensures Valid() && ok == !fault
      ensures Contents() == if fault then old(Contents()) else WithUser(old(Contents()), userId, username)
    {
      if fault {
        return false;
      }
      Assign(WithUser(Contents(), userId, username));
      ok := true;
    }

    /** `get_user` */
    function GetUser(userId: int): (r: Option<(int, Option<string>)>)
      reads this
      ensures r.Some? <==> userId in users
      ensures r.Some? ==> r.value == (userId, users[userId])
    {
      if userId in users then Some((userId, users[userId])) else None
    }

    /** `add_movie`: the upsert on `tmdb_id`. On insertion the new row's id is
        returned. On update SQLite's `lastrowid` is returned, which is the
        connection's last inserted rowid and is passed in as `lastRowId`. */
    method AddMovie(m: Tmdb.MovieDetails, fault: bool, lastRowId: Option<nat>) returns (id: Option<nat>)
      requires Valid()
      modifies this
      ensures Valid()
      ensures fault || !Storable(m) ==> id.None? && Contents() == old(Contents())
      ensures !fault && Storable(m) ==> Contents() == UpsertMovie(old(Contents()), m)
      ensures !fault && Storable(m) && FindByTmdb(old(movies), m.tmdbId.value).None? ==> id == Some(old(nextMovieId))
    {
      if fault || !Storable(m) {
        return None;
      }
      var t := Contents();
      UpsertKeepsValid(t, m);
      var existing := FindByTmdb(movies, m.tmdbId.value);
      Assign(UpsertMovie(t, m));
      id := if existing.None? then Some(t.nextMovieId) else lastRowId;
    }

    /** `get_movie` */
    function GetMovie(id: int): (r: Option<StoredMovie>)
      reads this
      ensures r.Some? <==> exists k :: 0 <= k < |movies| && movies[k].id == id
      ensures r.Some? ==> r.value.id == id
    {
      match FindById(movies, id)
      case Some(row) => Some(Stored(row))
      case None => None
    }

    /** `get_movie_by_tmdb_id` */
    function GetMovieByTmdbId(tmdbId: int): (r: Option<StoredMovie>)
      reads this
      ensures r.Some? <==> exists k :: 0 <= k < |movies| && movies[k].tmdbId == tmdbId
      ensures r.Some? ==> r.value.tmdbId == tmdbId
    {
      match FindByTmdb(movies, tmdbId)
      case Some(row) => Some(Stored(row))
      case None => None
    }

    /** `get_movie_id_by_tmdb_id`; `WHERE tmdb_id = NULL` finds nothing. */
    function GetMovieIdByTmdbId(tmdbId: Option<int>): (r: Option<nat>)
      reads this
      ensures r.Some? <==> tmdbId.Some? && exists k :: 0 <= k < |movies| && movies[k].tmdbId == tmdbId.value
      ensures r.Some? ==> exists k :: 0 <= k < |movies| && movies[k].tmdbId == tmdbId.value && movies[k].id == r.value
    {
      IdOfTmdb(movies, tmdbId)
    }

    /** `add_user_preference`: type and value are lower-cased first. */
    method AddUserPreference(userId: int, kind: string, value: string, fault: bool) returns (ok: bool)
      requires Valid()
      modifies this
      ensures Valid() && ok == !fault
      ensures Contents() == if fault then old(Contents())
                            else WithPreference(old(Contents()), Preference(userId, LowerStr(kind), LowerStr(value)))
    {
      if fault {
        return false;
      }
      var t := Contents();
      var p := Preference(userId, LowerStr(kind), LowerStr(value));
      PreferenceIsSet(t, p);
      Assign(WithPreference(t, p));
      ok := true;
    }

    /** `get_user_preferences` */
    function GetUserPreferences(userId: int): (r: seq<(string, string)>)
      reads this
      ensures forall k :: 0 <= k < |r| ==> Preference(userId, r[k].0, r[k].1) in preferences
      ensures forall p :: p in preferences && p.userId == userId ==> (p.kind, p.value) in r
    {
      PreferencesOf(Contents(), userId)
    }

    /** `clear_user_preferences` */
    method ClearUserPreferences(userId: int, fault: bool) returns (ok: bool)
      requires Valid()
      modifies this
      ensures Valid() && ok == !fault
      ensures Contents() == if fault then old(Contents()) else WithoutPreferencesOf(old(Contents()), userId)
    {
      if fault {
        return false;
      }
      var t := Contents();
      FilterKeepsNoDuplicates(t.preferences, (q: Preference) => q.userId != userId);
      Assign(WithoutPreferencesOf(t, userId));
      ok := true;
    }

    /** `add_rating`: at most one rating per (user, movie); the last one wins. */
    method AddRating(userId: int, movieId: int, rating: int, fault: bool) returns (ok: bool)
      requires Valid()
      modifies this
      ensures Valid() && ok == !fault
      ensures Contents() == if fault then old(Contents()) else WithRating(old(Contents()), userId, movieId, rating)
    {
      if fault {
        return false;
      }
      var t := Contents();
      RatingKeepsValid(t, userId, movieId, rating);
      Assign(WithRating(t, userId, movieId, rating));
      ok := true;
    }

    /** `get_user_ratings` */
    function GetUserRatings(userId: int): (r: seq<RatedMovie>)
      reads this
      ensures forall k :: 0 <= k < |r| ==>
        RatingRow(userId, r[k].movieId, r[k].rating) in ratings
        && exists m :: m in movies && m.id == r[k].movieId && m.title == r[k].title && m.tmdbId == r[k].tmdbId
      ensures forall x, m :: x in ratings && x.userId == userId && FindById(movies, x.movieId) == Some(m) ==>
        RatedMovie(x.rating, m.title, m.tmdbId, x.movieId) in r
    {
      var mine := Filter(ratings, (x: RatingRow) => x.userId == userId);
      JoinedRatingsAreStored(mine, movies);
      RatingsComplete(Contents(), userId);
      var r := RatingsOf(Contents(), userId);
      assert forall k :: 0 <= k < |r| ==> r[k] in JoinRatings(mine, movies);
      r
    }

    /** `add_user_history` appends exactly one row. */
    method AddUserHistory(userId: int, movieId: int, action: string, fault: bool) returns (ok: bool)
      requires Valid()
      modifies this
      ensures Valid() && ok == !fault
      ensures Contents() == if fault then old(Contents()) else WithHistory(old(Contents()), userId, movieId, action)
    {
      if fault {
        return false;
      }
      Assign(WithHistory(Contents(), userId, movieId, action));
      ok := true;
    }

    /** `get_user_history`; `limit` defaults to 20 in the source. The newest
        selected row comes first, and without a limit every selected row
        whose movie is stored comes back. */
    function GetUserHistory(userId: int, limit: int, actionType: Option<string>): (r: seq<HistoryEntry>)
      reads this
      ensures limit >= 0 ==> |r| <= limit
      ensures limit != 0 && history != [] ==>
        var h := history[|history| - 1];
        Selected(userId, actionType, h) && FindById(movies, h.movieId).Some? ==>
          r != [] && r[0] == HistoryEntry(h.movieId, h.action, FindById(movies, h.movieId).value.title)
      ensures limit < 0 ==> forall k :: 0 <= k < |history| && Selected(userId, actionType, history[k])
                                        && FindById(movies, history[k].movieId).Some? ==>
        HistoryEntry(history[k].movieId, history[k].action, FindById(movies, history[k].movieId).value.title) in r
    {
      if limit != 0 && history != [] then
        var h := history[|history| - 1];
        var t := Contents().(history := history[..|history| - 1]);
        assert WithHistory(t, h.userId, h.movieId, h.action) == Contents();
        if Selected(userId, actionType, h) && FindById(movies, h.movieId).Some? then
          AddedHistoryIsNewest(t, h.userId, h.movieId, h.action, actionType, limit, FindById(movies, h.movieId).value);
          AllSelectedReturned(userId, limit, actionType);
          HistoryOf(Contents(), userId, limit, actionType)
        else
          AllSelectedReturned(userId, limit, actionType);
          HistoryOf(Contents(), userId, limit, actionType)
      else
        AllSelectedReturned(userId, limit, actionType);
        HistoryOf(Contents(), userId, limit, actionType)
    }

    lemma AllSelectedReturned(userId: int, limit: int, actionType: Option<string>)
      ensures limit < 0 ==> forall k :: 0 <= k < |history| && Selected(userId, actionType, history[k])
                                        && FindById(movies, history[k].movieId).Some? ==>
        HistoryEntry(history[k].movieId, history[k].action, FindById(movies, history[k].movieId).value.title)
          in HistoryOf(Contents(), userId, limit, actionType)
    {
      forall k | 0 <= k < |history| && Selected(userId, actionType, history[k]) && FindById(movies, history[k].movieId).Some?
        ensures HistoryEntry(history[k].movieId, history[k].action, FindById(movies, history[k].movieId).value.title)
                  in HistoryOf(Contents(), userId, -1, actionType)
      {
        HistoryComplete(Contents(), userId, actionType, history[k], FindById(movies, history[k].movieId).value);
      }
    }

    /** `clear_user_history` */
    method ClearUserHistory(userId: int, fault: bool) returns (ok: bool)
      requires Valid()
      modifies this
      ensures Valid() && ok == !fault
      ensures Contents() == if fault then old(Contents()) else WithoutHistoryOf(old(Contents()), userId)
    {
      if fault {
        return false;
      }
      Assign(WithoutHistoryOf(Contents(), userId));
      ok := true;
    }

    /** `update_movie`: only whitelisted keys are written; false without writing
        when there is none, when no row has that id, or when SQLite rejects the
        statement (a SQLite error, or a NULL title). */
    method UpdateMovie(id: int, updates: seq<FieldUpdate>, fault: bool) returns (ok: bool)
      requires Valid()
      modifies this
      ensures Valid()
      ensures !ok ==> Contents() == old(Contents())
      ensures ok <==> (exists k :: 0 <= k < |updates| && Whitelisted(updates[k]))
                      && !fault && !ClearsTitle(updates) && FindById(old(movies), id).Some?
      ensures ok ==> Contents() == old(Contents()).(movies := movies)
      ensures ok ==> nextMovieId == old(nextMovieId) && |movies| == |old(movies)|
                     && forall k :: 0 <= k < |movies| ==>
                          movies[k] == if old(movies)[k].id == id then ApplyUpdates(old(movies)[k], updates) else old(movies)[k]
    {
      var i := 0;
      var any := false;
      while i < |updates|
        invariant 0 <= i <= |updates|
        invariant any <==> exists k :: 0 <= k < i && Whitelisted(updates[k])
      {
        if Whitelisted(updates[i]) {
          any := true;
        }
        i := i + 1;
      }
      if !any || fault || ClearsTitle(updates) || FindById(movies, id).None? {
        return false;
      }
      var ms := movies;
      var updated := seq(|ms|, k requires 0 <= k < |ms| =>
                           if ms[k].id == id then ApplyUpdates(ms[k], updates) else ms[k]);
      assert forall k :: 0 <= k < |updated| ==> updated[k].id == ms[k].id && updated[k].tmdbId == ms[k].tmdbId;
      movies := updated;
      ok := true;
    }
  }

  // ---------------------------------------------------------------------------
  // Properties of the tables

  lemma UpsertKeepsValid(t: Tables, m: Tmdb.MovieDetails)
    requires ValidTables(t) && Storable(m)
    ensures ValidTables(UpsertMovie(t, m))
  {
    var u := UpsertMovie(t, m);
    match FindByTmdb(t.movies, m.tmdbId.value)
    case None =>
      assert u.movies == t.movies + [RowOf(t.nextMovieId, m)];
    case Some(_) =>
      UpsertExisting(t, m);
  }

  /** Upserting a TMDB id already stored keeps every row's id and TMDB id and
      overwrites the matching row in place. */
  lemma UpsertExisting(t: Tables, m: Tmdb.MovieDetails)
    requires Storable(m) && FindByTmdb(t.movies, m.tmdbId.value).Some?
    ensures var u := UpsertMovie(t, m);
      && u.nextMovieId == t.nextMovieId && u.preferences == t.preferences && u.ratings == t.ratings
      && |u.movies| == |t.movies|
      && (forall k :: 0 <= k < |u.movies| ==> u.movies[k].id == t.movies[k].id && u.movies[k].tmdbId == t.movies[k].tmdbId)
      && (forall k :: 0 <= k < |u.movies| && u.movies[k].tmdbId == m.tmdbId.value ==> u.movies[k] == RowOf(t.movies[k].id, m))
  {
  }

  /** After an upsert exactly one row carries the movie's TMDB id, and it holds
      this call's fields; every other row is untouched. */
  lemma UpsertLeavesOneRow(t: Tables, m: Tmdb.MovieDetails)
    requires ValidTables(t) && Storable(m)
    ensures var u := UpsertMovie(t, m);
      && (exists k :: 0 <= k < |u.movies| && u.movies[k].tmdbId == m.tmdbId.value
                      && u.movies[k] == RowOf(u.movies[k].id, m))
      && (forall i, j :: 0 <= i < j < |u.movies| ==> u.movies[i].tmdbId != u.movies[j].tmdbId)
      && (forall row :: row in t.movies && row.tmdbId != m.tmdbId.value ==> row in u.movies)
  {
    var u := UpsertMovie(t, m);
    match FindByTmdb(t.movies, m.tmdbId.value)
    case None =>
      assert u.movies[|t.movies|] == RowOf(t.nextMovieId, m);
    case Some(row) =>
      var k :| 0 <= k < |t.movies| && t.movies[k] == row;
      assert u.movies[k] == RowOf(t.movies[k].id, m);
      forall r | r in t.movies && r.tmdbId != m.tmdbId.value ensures r in u.movies {
        var j :| 0 <= j < |t.movies| && t.movies[j] == r;
        assert u.movies[j] == r;
      }
  }

  /** Two `add_movie` calls with the same TMDB id leave one row, holding the
      second call's fields. */
  lemma SecondUpsertWins(t: Tables, m1: Tmdb.MovieDetails, m2: Tmdb.MovieDetails)
    requires ValidTables(t) && Storable(m1) && Storable(m2) && m1.tmdbId == m2.tmdbId
    ensures var u := UpsertMovie(UpsertMovie(t, m1), m2);
      && |u.movies| == |UpsertMovie(t, m1).movies|
      && FindByTmdb(u.movies, m1.tmdbId.value).Some?
      && FindByTmdb(u.movies, m1.tmdbId.value).value == RowOf(FindByTmdb(u.movies, m1.tmdbId.value).value.id, m2)
  {
    var id := m1.tmdbId.value;
    var t1 := UpsertMovie(t, m1);
    UpsertLeavesOneRow(t, m1);
    var j :| 0 <= j < |t1.movies| && t1.movies[j].tmdbId == id && t1.movies[j] == RowOf(t1.movies[j].id, m1);
    assert FindByTmdb(t1.movies, id).Some?;
    UpsertExisting(t1, m2);
    var u := UpsertMovie(t1, m2);
    assert u.movies[j].tmdbId == id;
    var r := FindByTmdb(u.movies, id);
    var k :| 0 <= k < |u.movies| && u.movies[k] == r.value;
    assert u.movies[k] == RowOf(t1.movies[k].id, m2);
  }

  /** A genre name that survives the round trip through the genres column. */
  predicate GenreName(g: string) {
    g != [] && ',' !in g && Strip(g) == g
  }

  /** Joining genres with ", " and reading them back gives the same list, for
      non-empty, comma-free names without surrounding whitespace. */
  lemma {:induction false} GenresRoundTrip(genres: seq<string>)
    requires genres != []
    requires forall k :: 0 <= k < |genres| ==> GenreName(genres[k])
    ensures ParseGenres(JoinGenres(genres)) == genres
  {
    var pieces := SplitAll(JoinGenres(genres), ',');
    JoinedPieces(genres);
    assert JoinGenres(genres) != [] by { JoinNonEmpty(genres); }
    forall k | 1 <= k < |genres| ensures Strip(pieces[k]) == genres[k] {
      StripLeadingSpace(genres[k]);
    }
  }

  lemma {:induction false} JoinNonEmpty(genres: seq<string>)
    requires genres != [] && genres[0] != []
    ensures JoinGenres(genres) != []
  {
    if |genres| > 1 {
      assert JoinGenres(genres) == genres[0] + ", " + JoinGenres(genres[1..]);
    }
  }

  /** The pieces of the joined column are the names, each but the first
      preceded by one space. */
  lemma {:induction false} JoinedPieces(genres: seq<string>)
    requires genres != []
    requires forall k :: 0 <= k < |genres| ==> ',' !in genres[k]
    ensures var pieces := SplitAll(JoinGenres(genres), ',');
      && |pieces| == |genres| && pieces[0] == genres[0]
      && forall k :: 1 <= k < |pieces| ==> pieces[k] == " " + genres[k]
    decreases |genres|
  {
    var g := genres[0];
    if |genres| == 1 {
      assert JoinGenres(genres) == g;
      assert IndexOf(g, ',') == None;
    } else {
      var rest := JoinGenres(genres[1..]);
      assert JoinGenres(genres) == g + ", " + rest;
      JoinedPieces(genres[1..]);
      SplitJoinStep(g, rest);
      var restPieces := SplitAll(rest, ',');
      var pieces := SplitAll(JoinGenres(genres), ',');
      assert pieces == [g] + ([" " + restPieces[0]] + restPieces[1..]);
      forall k | 1 <= k < |genres| ensures pieces[k] == " " + genres[k] {
        assert genres[1..][k - 1] == genres[k];
      }
    }
  }

  /** Splitting `g + ", " + rest` on ',' gives `g`, then the pieces of `rest`
      with a space before the first. */
  lemma SplitJoinStep(g: string, rest: string)
    requires ',' !in g
    ensures var b := SplitAll(rest, ',');
      SplitAll(g + ", " + rest, ',') == [g] + ([" " + b[0]] + b[1..])
  {
    var s := g + ", " + rest;
    assert s[|g|] == ',' && s[..|g|] == g;
    IndexOfFirst(s, ',', |g|);
    assert s[|g| + 1..] == " " + rest;
    SplitAllSpace(rest);
    var a := SplitAll(" " + rest, ',');
    assert a == [a[0]] + a[1..];
  }

  /** A leading space only changes the first piece, by that space. */
  lemma SplitAllSpace(rest: string)
    ensures var a := SplitAll(" " + rest, ','); var b := SplitAll(rest, ',');
      |a| == |b| && a[0] == " " + b[0] && a[1..] == b[1..]
  {
    var s := " " + rest;
    assert s[1..] == rest;
    match IndexOf(rest, ',')
    case None =>
      assert ',' !in s;
    case Some(i) =>
      assert s[i + 1] == ',' && s[..i + 1] == " " + rest[..i];
      assert ',' !in s[..i + 1];
      IndexOfFirst(s, ',', i + 1);
      assert s[i + 2..] == rest[i + 1..];
  }

  lemma StripLeadingSpace(g: string)
    requires g != [] && Strip(g) == g
    ensures Strip(" " + g) == g
  {
    var s := " " + g;
    assert !IsSpace(g[0]) && !IsSpace(g[|g| - 1]);
    assert SkipSpaces(s, 1) == 1;
    assert SkipSpaces(s, 0) == 1;
    assert TrimEnd(s, |s|) == |s|;
    assert s[1..|s|] == g;
  }

  /** Re-adding a preference keeps exactly one row for it. */
  lemma PreferenceIsSet(t: Tables, p: Preference)
    requires ValidTables(t)
    ensures ValidTables(WithPreference(t, p))
    ensures Count(WithPreference(t, p).preferences, p) == 1
    ensures forall q :: q in t.preferences ==> q in WithPreference(t, p).preferences
  {
    var kept := Filter(t.preferences, (q: Preference) => q != p);
    FilterKeepsNoDuplicates(t.preferences, (q: Preference) => q != p);
    CountAbsentSnoc(kept, p);
    forall q | q in t.preferences ensures q in kept + [p] {
      if q != p {
        var k :| 0 <= k < |t.preferences| && t.preferences[k] == q;
      }
    }
  }

  lemma {:induction false} CountAbsentSnoc<T>(s: seq<T>, x: T)
    requires x !in s
    ensures Count(s + [x], x) == 1
    ensures NoDuplicates(s) ==> NoDuplicates(s + [x])
  {
    if s != [] {
      assert (s + [x])[1..] == s[1..] + [x];
      CountAbsentSnoc(s[1..], x);
    } else {
      assert [x][1..] == [];
    }
  }

  lemma {:induction false} FilterKeepsNoDuplicates<T>(s: seq<T>, keep: T -> bool)
    requires NoDuplicates(s)
    ensures NoDuplicates(Filter(s, keep))
  {
    if s != [] {
      FilterKeepsNoDuplicates(s[1..], keep);
      var rest := Filter(s[1..], keep);
      assert s[0] !in s[1..];
      assert s[0] !in rest;
    }
  }

  /** A rating upsert leaves exactly one row for the pair, holding the new
      score, and every other pair's row as it was. */
  lemma RatingKeepsValid(t: Tables, userId: int, movieId: int, rating: int)
    requires ValidTables(t)
    ensures ValidTables(WithRating(t, userId, movieId, rating))
  {
    var keep := (r: RatingRow) => !(r.userId == userId && r.movieId == movieId);
    var kept := Filter(t.ratings, keep);
    var rs := kept + [RatingRow(userId, movieId, rating)];
    FilterPairsUnique(t.ratings, keep);
    forall i, j | 0 <= i < j < |rs|
      ensures !(rs[i].userId == rs[j].userId && rs[i].movieId == rs[j].movieId)
    {
      if j == |rs| - 1 {
        assert rs[i] == kept[i] && keep(kept[i]);
      }
    }
  }

  predicate PairsUnique(rs: seq<RatingRow>) {
    forall i, j :: 0 <= i < j < |rs| ==> !(rs[i].userId == rs[j].userId && rs[i].movieId == rs[j].movieId)
  }

  lemma {:induction false} FilterPairsUnique(rs: seq<RatingRow>, keep: RatingRow -> bool)
    requires PairsUnique(rs)
    ensures PairsUnique(Filter(rs, keep))
  {
    if rs != [] {
      var tail := rs[1..];
      assert PairsUnique(tail) by {
        forall i, j | 0 <= i < j < |tail| ensures !(tail[i].userId == tail[j].userId && tail[i].movieId == tail[j].movieId) {
          assert tail[i] == rs[i + 1] && tail[j] == rs[j + 1];
        }
      }
      FilterPairsUnique(tail, keep);
      if keep(rs[0]) {
        HeadUnpaired(rs);
        ConsPairsUnique(rs[0], Filter(tail, keep), tail);
        assert Filter(rs, keep) == [rs[0]] + Filter(tail, keep);
      } else {
        assert Filter(rs, keep) == Filter(tail, keep);
      }
    }
  }

  /** The first row shares its (user, movie) pair with no later row. */
  lemma HeadUnpaired(rs: seq<RatingRow>)
    requires rs != [] && PairsUnique(rs)
    ensures forall x :: x in rs[1..] ==> !(rs[0].userId == x.userId && rs[0].movieId == x.movieId)
  {
    forall x | x in rs[1..] ensures !(rs[0].userId == x.userId && rs[0].movieId == x.movieId) {
      var k :| 0 <= k < |rs| - 1 && rs[1..][k] == x;
      assert rs[k + 1] == x;
    }
  }

  lemma ConsPairsUnique(r: RatingRow, rest: seq<RatingRow>, pool: seq<RatingRow>)
    requires PairsUnique(rest)
    requires forall k :: 0 <= k < |rest| ==> rest[k] in pool
    requires forall x :: x in pool ==> !(r.userId == x.userId && r.movieId == x.movieId)
    ensures PairsUnique([r] + rest)
  {
    var f := [r] + rest;
    forall i, j | 0 <= i < j < |f| ensures !(f[i].userId == f[j].userId && f[i].movieId == f[j].movieId) {
      assert f[j] == rest[j - 1];
      if i > 0 { assert f[i] == rest[i - 1]; }
    }
  }

  /** The new score is the one stored for the pair; other pairs keep theirs. */
  lemma LastRatingWins(t: Tables, userId: int, movieId: int, rating: int)
    requires ValidTables(t)
    ensures var u := WithRating(t, userId, movieId, rating);
      && u.ratings[|u.ratings| - 1] == RatingRow(userId, movieId, rating)
      && (forall k :: 0 <= k < |u.ratings| - 1 ==> !(u.ratings[k].userId == userId && u.ratings[k].movieId == movieId))
      && (forall r :: r in t.ratings && !(r.userId == userId && r.movieId == movieId) ==> r in u.ratings)
  {
    var keep := (r: RatingRow) => !(r.userId == userId && r.movieId == movieId);
    var kept := Filter(t.ratings, keep);
    var u := WithRating(t, userId, movieId, rating);
    forall k | 0 <= k < |u.ratings| - 1 ensures !(u.ratings[k].userId == userId && u.ratings[k].movieId == movieId) {
      assert u.ratings[k] == kept[k];
    }
    forall r | r in t.ratings && keep(r) ensures r in u.ratings {
      var j :| 0 <= j < |t.ratings| && t.ratings[j] == r;
    }
  }

  /** Each joined rating is a stored rating row paired with its stored movie. */
  lemma {:induction false} JoinedRatingsAreStored(rows: seq<RatingRow>, movies: seq<MovieRow>)
    ensures forall e :: e in JoinRatings(rows, movies) ==>
      (exists x :: x in rows && x.movieId == e.movieId && x.rating == e.rating)
      && exists m :: m in movies && m.id == e.movieId && m.title == e.title && m.tmdbId == e.tmdbId
  {
    if rows != [] {
      JoinedRatingsAreStored(rows[1..], movies);
    }
  }

  /** Joining rating rows with movies works row by row. */
  lemma {:induction false} JoinRatingsAppend(a: seq<RatingRow>, b: seq<RatingRow>, movies: seq<MovieRow>)
    ensures JoinRatings(a + b, movies) == JoinRatings(a, movies) + JoinRatings(b, movies)
  {
    if a != [] {
      assert (a + b)[1..] == a[1..] + b;
      JoinRatingsAppend(a[1..], b, movies);
    } else {
      assert a + b == b;
    }
  }

  /** The join keeps every rating whose movie is stored. */
  lemma {:induction false} JoinRatingsComplete(rows: seq<RatingRow>, movies: seq<MovieRow>, x: RatingRow, m: MovieRow)
    requires x in rows && FindById(movies, x.movieId) == Some(m)
    ensures RatedMovie(x.rating, m.title, m.tmdbId, x.movieId) in JoinRatings(rows, movies)
  {
    if rows[0] != x {
      JoinRatingsComplete(rows[1..], movies, x, m);
    }
  }

  /** `get_user_ratings` returns every rating of that user whose movie is
      stored, with the movie's title and TMDB id: the JOIN drops only ratings
      whose movie is gone. */
  lemma RatingsComplete(t: Tables, userId: int)
    ensures forall x, m :: x in t.ratings && x.userId == userId && FindById(t.movies, x.movieId) == Some(m) ==>
      RatedMovie(x.rating, m.title, m.tmdbId, x.movieId) in RatingsOf(t, userId)
  {
    var mine := Filter(t.ratings, (r: RatingRow) => r.userId == userId);
    var joined := JoinRatings(mine, t.movies);
    forall x, m | x in t.ratings && x.userId == userId && FindById(t.movies, x.movieId) == Some(m)
      ensures RatedMovie(x.rating, m.title, m.tmdbId, x.movieId) in RatingsOf(t, userId)
    {
      var j :| 0 <= j < |t.ratings| && t.ratings[j] == x;
      assert x in mine;
      JoinRatingsComplete(mine, t.movies, x, m);
      var i :| 0 <= i < |joined| && joined[i] == RatedMovie(x.rating, m.title, m.tmdbId, x.movieId);
      assert Reverse(joined)[|joined| - 1 - i] == joined[i];
    }
  }

  /** Dropping the ratings of one movie before or after the join is the same. */
  lemma {:induction false} JoinRatingsWithoutMovie(rows: seq<RatingRow>, movies: seq<MovieRow>, movieId: int)
    ensures JoinRatings(Filter(rows, (x: RatingRow) => x.movieId != movieId), movies)
            == Filter(JoinRatings(rows, movies), (e: RatedMovie) => e.movieId != movieId)
  {
    if rows != [] {
      var x := rows[0];
      var head := match FindById(movies, x.movieId)
        case Some(mv) => [RatedMovie(x.rating, mv.title, mv.tmdbId, x.movieId)]
        case None => [];
      assert [x][1..] == [];
      assert JoinRatings([x], movies) == head + [];
      JoinRatingsWithoutMovie(rows[1..], movies, movieId);
      FilterAppend(head, JoinRatings(rows[1..], movies), (e: RatedMovie) => e.movieId != movieId);
      JoinRatingsAppend(if x.movieId != movieId then [x] else [], Filter(rows[1..], (x: RatingRow) => x.movieId != movieId), movies);
      if head != [] {
        assert head[1..] == [];
      }
    }
  }

  /** After a rating upsert, the user's rows are their other movies' rows
      followed by the new one. */
  lemma RatedRowsSnoc(t: Tables, userId: int, movieId: int, rating: int)
    ensures Filter(WithRating(t, userId, movieId, rating).ratings, (r: RatingRow) => r.userId == userId)
            == Filter(Filter(t.ratings, (r: RatingRow) => r.userId == userId), (x: RatingRow) => x.movieId != movieId)
               + [RatingRow(userId, movieId, rating)]
  {
    var row := RatingRow(userId, movieId, rating);
    var keep := (r: RatingRow) => !(r.userId == userId && r.movieId == movieId);
    var mineOf := (r: RatingRow) => r.userId == userId;
    var other := (x: RatingRow) => x.movieId != movieId;
    FilterAppend(Filter(t.ratings, keep), [row], mineOf);
    assert [row][1..] == [];
    FilterCommute(t.ratings, keep, mineOf);
    var mine := Filter(t.ratings, mineOf);
    FilterAgree(mine, keep, other);
  }

  /** `ORDER BY r.rated_at DESC`: after `add_rating` of a stored movie, the
      user's ratings begin with the new one, followed by their ratings of
      every other movie as returned before. */
  lemma AddedRatingIsNewest(t: Tables, userId: int, movieId: int, rating: int, m: MovieRow)
    requires FindById(t.movies, movieId) == Some(m)
    ensures RatingsOf(WithRating(t, userId, movieId, rating), userId)
            == [RatedMovie(rating, m.title, m.tmdbId, movieId)]
               + Filter(RatingsOf(t, userId), (e: RatedMovie) => e.movieId != movieId)
  {
    var mine := Filter(t.ratings, (r: RatingRow) => r.userId == userId);
    var others := Filter(mine, (x: RatingRow) => x.movieId != movieId);
    var row := RatingRow(userId, movieId, rating);
    var added := RatedMovie(rating, m.title, m.tmdbId, movieId);
    RatedRowsSnoc(t, userId, movieId, rating);
    JoinRatingsAppend(others, [row], t.movies);
    assert [row][1..] == [];
    assert JoinRatings([row], t.movies) == [added];
    ReverseSnoc(JoinRatings(others, t.movies), added);
    JoinRatingsWithoutMovie(mine, t.movies, movieId);
    FilterReverse(JoinRatings(mine, t.movies), (e: RatedMovie) => e.movieId != movieId);
  }

  /** A stored movie reads back with the fields written: genres split into
      the same list (for non-empty, comma-free, unpadded names), and each
      actor and director as its name. */
  lemma StoredMovieRoundTrip(id: nat, m: Tmdb.MovieDetails)
    requires Storable(m) && m.genres != []
    requires forall k :: 0 <= k < |m.genres| ==> GenreName(m.genres[k])
    ensures var s := Stored(RowOf(id, m));
      && s.id == id && s.tmdbId == m.tmdbId.value && s.title == m.title.value
      && s.genres == m.genres
      && |s.actors| == |m.actors| && (forall k :: 0 <= k < |s.actors| ==> s.actors[k] == m.actors[k].name)
      && |s.directors| == |m.directors| && (forall k :: 0 <= k < |s.directors| ==> s.directors[k] == m.directors[k].name)
  {
    GenresRoundTrip(m.genres);
  }

  /** `add_user_history` adds one row for that user and none for anyone else. */
  lemma HistoryGrowsByOne(t: Tables, userId: int, movieId: int, action: string, other: int)
    ensures var u := WithHistory(t, userId, movieId, action);
      |Filter(u.history, (h: HistoryRow) => h.userId == userId)| == |Filter(t.history, (h: HistoryRow) => h.userId == userId)| + 1
      && (other != userId ==>
            Filter(u.history, (h: HistoryRow) => h.userId == other) == Filter(t.history, (h: HistoryRow) => h.userId == other))
  {
    var row := HistoryRow(userId, movieId, action);
    FilterAppend(t.history, [row], (h: HistoryRow) => h.userId == userId);
    FilterAppend(t.history, [row], (h: HistoryRow) => h.userId == other);
    assert [row][1..] == [];
  }

  /** `clear_user_history` removes all of the user's rows and only those. */
  lemma ClearHistoryOnlyThatUser(t: Tables, userId: int)
    ensures var u := WithoutHistoryOf(t, userId);
      && (forall k :: 0 <= k < |u.history| ==> u.history[k].userId != userId)
      && (forall h :: h in t.history && h.userId != userId ==> h in u.history)
      && HistoryOf(u, userId, -1, None) == []
  {
    var u := WithoutHistoryOf(t, userId);
    forall h | h in t.history && h.userId != userId ensures h in u.history {
      var j :| 0 <= j < |t.history| && t.history[j] == h;
    }
    NothingSelected(u.history, (h: HistoryRow) => Selected(userId, None, h));
  }

  lemma SelectedRow(t: Tables, userId: int, actionType: Option<string>, h: HistoryRow)
    requires h in SelectedHistory(t, userId, actionType)
    ensures h in t.history && h.userId == userId
    ensures actionType.Some? && actionType.value != [] ==> h.action == actionType.value
  {
    var sel := SelectedHistory(t, userId, actionType);
    var j :| 0 <= j < |sel| && sel[j] == h;
  }

  /** `get_user_history` returns at most `limit` entries, each from one of
      that user's rows of the requested action. */
  lemma HistoryOfIsTheUsers(t: Tables, userId: int, limit: int, actionType: Option<string>)
    ensures var r := HistoryOf(t, userId, limit, actionType);
      && (limit >= 0 ==> |r| <= limit)
      && forall k :: 0 <= k < |r| ==>
           exists h :: h in t.history && h.userId == userId && h.movieId == r[k].movieId && h.action == r[k].action
                       && (actionType.Some? && actionType.value != [] ==> h.action == actionType.value)
  {
    var sel := SelectedHistory(t, userId, actionType);
    var joined := JoinHistory(sel, t.movies);
    var r := HistoryOf(t, userId, limit, actionType);
    forall k | 0 <= k < |r|
      ensures exists h :: h in t.history && h.userId == userId && h.movieId == r[k].movieId && h.action == r[k].action
                          && (actionType.Some? && actionType.value != [] ==> h.action == actionType.value)
    {
      var e := joined[|joined| - 1 - k];
      assert r[k] == e;
      assert e in joined;
      var h :| h in sel && h.movieId == e.movieId && h.action == e.action;
      SelectedRow(t, userId, actionType, h);
    }
  }

  /** Joining history rows with movies works row by row. */
  lemma {:induction false} JoinHistoryAppend(a: seq<HistoryRow>, b: seq<HistoryRow>, movies: seq<MovieRow>)
    ensures JoinHistory(a + b, movies) == JoinHistory(a, movies) + JoinHistory(b, movies)
  {
    if a != [] {
      assert (a + b)[1..] == a[1..] + b;
      JoinHistoryAppend(a[1..], b, movies);
    } else {
      assert a + b == b;
    }
  }

  /** The join keeps every row whose movie is stored. */
  lemma {:induction false} JoinHistoryComplete(rows: seq<HistoryRow>, movies: seq<MovieRow>, h: HistoryRow, m: MovieRow)
    requires h in rows && FindById(movies, h.movieId) == Some(m)
    ensures HistoryEntry(h.movieId, h.action, m.title) in JoinHistory(rows, movies)
  {
    if rows[0] != h {
      JoinHistoryComplete(rows[1..], movies, h, m);
    }
  }

  /** Without a limit, `get_user_history` returns an entry for every row of
      that user (and action) whose movie is stored: the JOIN drops only rows
      whose movie is gone. */
  lemma HistoryComplete(t: Tables, userId: int, actionType: Option<string>, h: HistoryRow, m: MovieRow)
    requires h in t.history && Selected(userId, actionType, h) && FindById(t.movies, h.movieId) == Some(m)
    ensures HistoryEntry(h.movieId, h.action, m.title) in HistoryOf(t, userId, -1, actionType)
  {
    var sel := SelectedHistory(t, userId, actionType);
    var j :| 0 <= j < |t.history| && t.history[j] == h;
    assert h in sel;
    JoinHistoryComplete(sel, t.movies, h, m);
    var joined := JoinHistory(sel, t.movies);
    var i :| 0 <= i < |joined| && joined[i] == HistoryEntry(h.movieId, h.action, m.title);
    assert Reverse(joined)[|joined| - 1 - i] == joined[i];
  }

  /** After `add_user_history` for any user, a query selects the rows it
      selected before, plus the new row when the query selects it. */
  lemma SelectedHistorySnoc(t: Tables, rowUser: int, movieId: int, action: string, userId: int, actionType: Option<string>)
    ensures var row := HistoryRow(rowUser, movieId, action);
      SelectedHistory(WithHistory(t, rowUser, movieId, action), userId, actionType)
        == SelectedHistory(t, userId, actionType) + (if Selected(userId, actionType, row) then [row] else [])
  {
    var row := HistoryRow(rowUser, movieId, action);
    FilterAppend(t.history, [row], (h: HistoryRow) => Selected(userId, actionType, h));
    assert [row][1..] == [];
  }

  /** Read newest first, a joined row appended last comes first. */
  lemma JoinNewestFirst(rows: seq<HistoryRow>, row: HistoryRow, movies: seq<MovieRow>, m: MovieRow)
    requires FindById(movies, row.movieId) == Some(m)
    ensures Reverse(JoinHistory(rows + [row], movies))
            == [HistoryEntry(row.movieId, row.action, m.title)] + Reverse(JoinHistory(rows, movies))
  {
    JoinHistoryAppend(rows, [row], movies);
    assert JoinHistory([row], movies) == [HistoryEntry(row.movieId, row.action, m.title)];
    ReverseSnoc(JoinHistory(rows, movies), HistoryEntry(row.movieId, row.action, m.title));
  }

  /** `ORDER BY h.timestamp DESC`: a row just added by `add_user_history`
      comes back first, followed by everything that was returned before. */
  lemma AddedHistoryIsNewest(t: Tables, userId: int, movieId: int, action: string, actionType: Option<string>, limit: int, m: MovieRow)
    requires Selected(userId, actionType, HistoryRow(userId, movieId, action))
    requires FindById(t.movies, movieId) == Some(m)
    ensures HistoryOf(WithHistory(t, userId, movieId, action), userId, -1, actionType)
            == [HistoryEntry(movieId, action, m.title)] + HistoryOf(t, userId, -1, actionType)
    ensures limit != 0 ==> HistoryOf(WithHistory(t, userId, movieId, action), userId, limit, actionType)[0]
                           == HistoryEntry(movieId, action, m.title)
  {
    var u := WithHistory(t, userId, movieId, action);
    var sel := SelectedHistory(t, userId, actionType);
    SelectedHistorySnoc(t, userId, movieId, action, userId, actionType);
    JoinNewestFirst(sel, HistoryRow(userId, movieId, action), t.movies, m);
    assert HistoryOf(u, userId, -1, actionType) == Reverse(JoinHistory(sel + [HistoryRow(userId, movieId, action)], t.movies));
  }

  /** A row the query does not select (another user's, or another action)
      leaves what `get_user_history` returns unchanged. */
  lemma UnselectedHistoryHidden(t: Tables, rowUser: int, movieId: int, action: string, userId: int, actionType: Option<string>, limit: int)
    requires !Selected(userId, actionType, HistoryRow(rowUser, movieId, action))
    ensures HistoryOf(WithHistory(t, rowUser, movieId, action), userId, limit, actionType) == HistoryOf(t, userId, limit, actionType)
  {
    SelectedHistorySnoc(t, rowUser, movieId, action, userId, actionType);
    assert SelectedHistory(t, userId, actionType) + [] == SelectedHistory(t, userId, actionType);
  }
}

/** The older SQLite store (database.py) as in-memory tables. None of its
    methods catches an exception, so a failing statement reaches the caller;
    `add_rating` always fails, because its `ON CONFLICT(user_id, movie_id)`
    names no PRIMARY KEY or UNIQUE constraint of the `ratings` table. Genres,
    directors and actors are stored and returned as ", "-joined strings.
    The `history` table and its queries are the ones of the History module. */
module LegacyStore {
  import opened Wrappers
  import opened Text
  import opened Seqs
  import History

  /** The movie dictionary `add_movie` reads; `vote_average` (a float) is not modelled. */
  datatype MovieInput = MovieInput(
    tmdbId: Option<int>, title: Option<string>, originalTitle: Option<string>,
    overview: Option<string>, releaseDate: Option<string>, posterPath: Option<string>,
    genres: seq<string>, directors: seq<string>, actors: seq<string>, runtime: Option<int>)

  /** A raw `movies` row, as `get_movie` returns it. */
  datatype RawMovie = RawMovie(
    id: nat, tmdbId: Option<int>, title: Option<string>, originalTitle: Option<string>,
    overview: Option<string>, releaseDate: Option<string>, posterPath: Option<string>,
    genres: string, directors: string, actors: string, runtime: Option<int>)

  datatype PreferenceRow = PreferenceRow(userId: int, kind: string, value: string)
  datatype RatingRow = RatingRow(userId: int, movieId: int, rating: int)

  /** A statement that completed, or one that raised `sqlite3.OperationalError`. */
  datatype Outcome = Done | Raised

  function RawOf(id: nat, m: MovieInput): (r: RawMovie)
    ensures r.id == id && r.tmdbId == m.tmdbId && r.title == m.title
    ensures r.genres == Join(", ", m.genres) && r.directors == Join(", ", m.directors) && r.actors == Join(", ", m.actors)
  {
    RawMovie(id, m.tmdbId, m.title, m.originalTitle, m.overview, m.releaseDate, m.posterPath,
             Join(", ", m.genres), Join(", ", m.directors), Join(", ", m.actors), m.runtime)
  }

  /** The first row with that TMDB id; `WHERE tmdb_id = NULL` finds nothing. */
  function FindByTmdb(movies: seq<RawMovie>, tmdbId: Option<int>): (r: Option<RawMovie>)
    ensures r.Some? <==> tmdbId.Some? && exists k :: 0 <= k < |movies| && movies[k].tmdbId == tmdbId
    ensures r.Some? ==> r.value in movies && r.value.tmdbId == tmdbId
  {
    if tmdbId.None? || movies == [] then None
    else if movies[0].tmdbId == tmdbId then Some(movies[0])
    else FindByTmdb(movies[1..], tmdbId)
  }

  function FindById(movies: seq<RawMovie>, id: int): (r: Option<RawMovie>)
    ensures r.Some? <==> exists k :: 0 <= k < |movies| && movies[k].id == id
    ensures r.Some? ==> r.value in movies && r.value.id == id
  {
    if movies == [] then None
    else if movies[0].id == id then Some(movies[0])
    else FindById(movies[1..], id)
  }

  /** `INSERT OR IGNORE` on the UNIQUE `tmdb_id`: a row whose TMDB id is
      already stored is ignored, and NULL ids never conflict. */
  function InsertOrIgnore(movies: seq<RawMovie>, nextId: nat, m: MovieInput): (r: (seq<RawMovie>, nat))
    ensures FindByTmdb(movies, m.tmdbId).Some? ==> r == (movies, nextId)
    ensures FindByTmdb(movies, m.tmdbId).None? ==> r == (movies + [RawOf(nextId, m)], nextId + 1)
  {
    if FindByTmdb(movies, m.tmdbId).Some? then (movies, nextId)
    else (movies + [RawOf(nextId, m)], nextId + 1)
  }

  /** The AUTOINCREMENT ids and the UNIQUE `tmdb_id` of the `movies` table. */
  predicate ValidMovies(movies: seq<RawMovie>, nextId: nat) {
    && nextId >= 1
    && (forall k :: 0 <= k < |movies| ==> 1 <= movies[k].id < nextId)
    && (forall i, j :: 0 <= i < j < |movies| ==> movies[i].id < movies[j].id)
    && (forall i, j :: 0 <= i < j < |movies| && movies[i].tmdbId.Some? ==> movies[i].tmdbId != movies[j].tmdbId)
  }

  class MovieDatabase {
    var users: map<int, Option<string>>
    var movies: seq<RawMovie>
    var nextMovieId: nat
    var preferences: seq<PreferenceRow>
    var ratings: seq<RatingRow>
    var history: seq<History.HistoryRow>

    predicate Valid()
      reads this
    {
      ValidMovies(movies, nextMovieId)
    }

    /** `__init__` and `_ensure_tables` on a new database file. */
    constructor ()
      ensures Valid()
      ensures users == map[] && movies == [] && preferences == [] && ratings == [] && history == []
    {
      users, movies, nextMovieId := map[], [], 1;
      preferences, ratings, history := [], [], [];
    }

    /** `get_user` */
    function GetUser(userId: int): (r: Option<(int, Option<string>)>)
      reads this
      ensures r.Some? <==> userId in users
      ensures r.Some? ==> r.value == (userId, users[userId])
    {
      if userId in users then Some((userId, users[userId])) else None
    }

    /** `add_user`: INSERT OR IGNORE on the primary key, so a known user keeps their name. */
    method AddUser(userId: int, username: Option<string>)
      modifies this
      ensures users == if userId in old(users) then old(users) else old(users)[userId := username]
      ensures movies == old(movies) && nextMovieId == old(nextMovieId) && preferences == old(preferences)
      ensures ratings == old(ratings) && history == old(history)
    {
      if userId !in users {
        users := users[userId := username];
      }
    }

    /** `get_user_preferences`: (type, value) pairs of that user in rowid order. */
    function GetUserPreferences(userId: int): (r: seq<(string, string)>)
      reads this
      ensures forall k :: 0 <= k < |r| ==> PreferenceRow(userId, r[k].0, r[k].1) in preferences
      ensures forall p :: p in preferences && p.userId == userId ==> (p.kind, p.value) in r
    {
      var mine := Filter(preferences, (p: PreferenceRow) => p.userId == userId);
      var r := seq(|mine|, k requires 0 <= k < |mine| => (mine[k].kind, mine[k].value));
      assert forall k :: 0 <= k < |mine| ==> r[k] == (mine[k].kind, mine[k].value);
      r
    }

    /** `clear_user_preferences` */
    method ClearUserPreferences(userId: int)
      modifies this
      ensures preferences == Filter(old(preferences), (p: PreferenceRow) => p.userId != userId)
      ensures users == old(users) && movies == old(movies) && nextMovieId == old(nextMovieId)
      ensures ratings == old(ratings) && history == old(history)
    {
      preferences := Filter(preferences, (p: PreferenceRow) => p.userId != userId);
    }

    /** `clear_user_history` */
    method ClearUserHistory(userId: int)
      modifies this
      ensures history == History.Cleared(old(history), userId)
      ensures users == old(users) && movies == old(movies) && nextMovieId == old(nextMovieId)
      ensures preferences == old(preferences) && ratings == old(ratings)
    {
      history := History.Cleared(history, userId);
    }

    /** `get_user_history`: that user's rows, newest first. */
    function GetUserHistory(userId: int): (r: seq<History.HistoryRow>)
      reads this
      ensures |r| == GetUserHistoryCount(userId)
      ensures forall k :: 0 <= k < |r| ==> r[k].userId == userId && r[k] in history
    {
      History.CountIsLength(history, userId);
      History.Newest(history, userId)
    }

    /** `get_user_history_count` */
    function GetUserHistoryCount(userId: int): nat
      reads this
    {
      History.CountOf(history, userId)
    }

    /** `get_movie`: the raw row, with its joined strings. */
    function GetMovie(movieId: int): (r: Option<RawMovie>)
      reads this
      ensures r.Some? <==> exists k :: 0 <= k < |movies| && movies[k].id == movieId
      ensures r.Some? ==> r.value in movies && r.value.id == movieId
    {
      FindById(movies, movieId)
    }

    /** `get_movie_by_tmdb_id` */
    function GetMovieByTmdbId(tmdbId: int): (r: Option<RawMovie>)
      reads this
      ensures r.Some? <==> exists k :: 0 <= k < |movies| && movies[k].tmdbId == Some(tmdbId)
      ensures r.Some? ==> r.value in movies && r.value.tmdbId == Some(tmdbId)
    {
      FindByTmdb(movies, Some(tmdbId))
    }

    /** `add_movie`: INSERT OR IGNORE. A new row's id is returned; for an
        ignored row SQLite reports the connection's last inserted rowid,
        passed in as `lastRowId`. */
    method AddMovie(m: MovieInput, lastRowId: Option<int>) returns (id: Option<int>)
      requires Valid()
      modifies this
      ensures Valid()
      ensures (movies, nextMovieId) == InsertOrIgnore(old(movies), old(nextMovieId), m)
      ensures id == if FindByTmdb(old(movies), m.tmdbId).None? then Some(old(nextMovieId) as int) else lastRowId
      ensures users == old(users) && preferences == old(preferences) && ratings == old(ratings) && history == old(history)
    {
      if FindByTmdb(movies, m.tmdbId).Some? {
        return lastRowId;
      }
      id := Some(nextMovieId as int);
      movies, nextMovieId := movies + [RawOf(nextMovieId, m)], nextMovieId + 1;
    }

    /** `add_user_history` appends one row. */
    method AddUserHistory(userId: int, movieId: int, action: string)
      modifies this
      ensures history == old(history) + [History.HistoryRow(userId, movieId, action)]
      ensures users == old(users) && movies == old(movies) && nextMovieId == old(nextMovieId)
      ensures preferences == old(preferences) && ratings == old(ratings)
    {
      history := history + [History.HistoryRow(userId, movieId, action)];
    }

    /** `get_user_ratings`: (movie_id, rating) of that user, newest first. */
    function GetUserRatings(userId: int): (r: seq<(int, int)>)
      reads this
      ensures forall k :: 0 <= k < |r| ==> RatingRow(userId, r[k].0, r[k].1) in ratings
      ensures forall x :: x in ratings && x.userId == userId ==> (x.movieId, x.rating) in r
    {
      var mine := Reverse(Filter(ratings, (x: RatingRow) => x.userId == userId));
      NewestFirstComplete(ratings, userId);
      var r := seq(|mine|, k requires 0 <= k < |mine| => (mine[k].movieId, mine[k].rating));
      assert forall k :: 0 <= k < |mine| ==> r[k] == (mine[k].movieId, mine[k].rating);
      r
    }

    /** `add_rating`: SQLite rejects the statement, so it raises and writes nothing. */
    method AddRating(userId: int, movieId: int, rating: int) returns (outcome: Outcome)
      ensures outcome == Raised
    {
      outcome := Raised;
    }
  }

  // ---------------------------------------------------------------------------
  // Properties

  lemma InsertKeepsValid(movies: seq<RawMovie>, nextId: nat, m: MovieInput)
    requires ValidMovies(movies, nextId)
    ensures ValidMovies(InsertOrIgnore(movies, nextId, m).0, InsertOrIgnore(movies, nextId, m).1)
  {
  }

  /** Two `add_movie` calls with the same TMDB id keep the first call's fields. */
  lemma FirstAddWins(movies: seq<RawMovie>, nextId: nat, m1: MovieInput, m2: MovieInput)
    requires ValidMovies(movies, nextId)
    requires m1.tmdbId.Some? && m1.tmdbId == m2.tmdbId && FindByTmdb(movies, m1.tmdbId).None?
    ensures var (ms1, n1) := InsertOrIgnore(movies, nextId, m1);
      && InsertOrIgnore(ms1, n1, m2) == (ms1, n1)
      && FindByTmdb(ms1, m1.tmdbId) == Some(RawOf(nextId, m1))
  {
    var ms1 := movies + [RawOf(nextId, m1)];
    FindByTmdbLast(movies, RawOf(nextId, m1));
  }

  lemma {:induction false} FindByTmdbLast(movies: seq<RawMovie>, row: RawMovie)
    requires row.tmdbId.Some? && FindByTmdb(movies, row.tmdbId).None?
    ensures FindByTmdb(movies + [row], row.tmdbId) == Some(row)
  {
    if movies != [] {
      assert (movies + [row])[1..] == movies[1..] + [row];
      FindByTmdbLast(movies[1..], row);
    }
  }

  /** A movie without a TMDB id is always stored as a new row. */
  lemma NullTmdbIdAlwaysInserted(movies: seq<RawMovie>, nextId: nat, m: MovieInput)
    requires m.tmdbId.None?
    ensures InsertOrIgnore(movies, nextId, m).0 == movies + [RawOf(nextId, m)]
  {
  }

  /** Reading a movie back returns the list columns joined with ", ", not the lists. */
  lemma RawRowsKeepJoinedStrings(movies: seq<RawMovie>, nextId: nat, m: MovieInput)
    requires m.tmdbId.Some? && FindByTmdb(movies, m.tmdbId).None?
    ensures var r := FindByTmdb(InsertOrIgnore(movies, nextId, m).0, m.tmdbId);
      r.Some? && r.value.genres == Join(", ", m.genres) && r.value.actors == Join(", ", m.actors)
      && r.value.directors == Join(", ", m.directors)
  {
    FindByTmdbLast(movies, RawOf(nextId, m));
  }

  /** Read newest first, the user's ratings are exactly their stored rows. */
  lemma NewestFirstComplete(ratings: seq<RatingRow>, userId: int)
    ensures var mine := Reverse(Filter(ratings, (x: RatingRow) => x.userId == userId));
      && (forall k :: 0 <= k < |mine| ==> mine[k] in ratings && mine[k].userId == userId)
      && forall x :: x in ratings && x.userId == userId ==> exists k :: 0 <= k < |mine| && mine[k] == x
  {
    var sel := Filter(ratings, (x: RatingRow) => x.userId == userId);
    var mine := Reverse(sel);
    forall x | x in ratings && x.userId == userId ensures exists k :: 0 <= k < |mine| && mine[k] == x {
      var j :| 0 <= j < |ratings| && ratings[j] == x;
      var i :| 0 <= i < |sel| && sel[i] == x;
      assert mine[|sel| - 1 - i] == x;
    }
  }
}

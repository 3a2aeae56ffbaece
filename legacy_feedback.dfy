/** Learning preferences from a rating in the legacy engine
    (recommendation.py, `process_user_feedback`). The store it writes to is
    abstract: the rating write reports its own result, and the history
    and preference tables are append-only sequences. */
module LegacyFeedback {
  import opened Wrappers
  import opened Text
  import opened Seqs

  /** A row of the history table. */
  datatype HistoryRow = HistoryRow(user: int, movie: int, action: string)

  /** A row of the preference table. */
  datatype PreferenceRow = PreferenceRow(user: int, kind: string, value: string)

  /** What the movie lookup returns that preference learning reads. */
  datatype MovieFacts = MovieFacts(genres: seq<string>, directors: seq<string>)

  const GenreCap := 5
  const DirectorCap := 3

  function RatedAction(rating: int): string {
    "rated_" + IntToString(rating)
  }

  /** `get_user_preferences(user_id)` */
  function UserPreferences(rows: seq<PreferenceRow>, user: int): (r: seq<PreferenceRow>)
    ensures forall k :: 0 <= k < |r| ==> r[k].user == user
    ensures forall p :: p in rows && p.user == user ==> p in r
  {
    Filter(rows, (p: PreferenceRow) => p.user == user)
  }

  /** The number of preferences of one type. */
  function CountOfKind(prefs: seq<PreferenceRow>, kind: string): nat {
    if prefs == [] then 0
    else CountOfKind(prefs[..|prefs| - 1], kind) + (if prefs[|prefs| - 1].kind == kind then 1 else 0)
  }

  /** The user already holds `value` as a preference of type `kind`
      (the `existing_genres` and `existing_directors` checks). */
  predicate HasValue(prefs: seq<PreferenceRow>, kind: string, value: string) {
    exists k :: 0 <= k < |prefs| && prefs[k].kind == kind && prefs[k].value == value
  }

  /** The preferences one rating adds: from a rating of 9 or 10 of a known
      movie, its first genre while the user has fewer than five genres,
      and, only at 10, its first director while the user has fewer than
      three directors; an empty name or one already held is not added. */
  function Learned(current: seq<PreferenceRow>, movie: Option<MovieFacts>, rating: int, user: int): seq<PreferenceRow> {
    if movie.None? || rating < 9 then []
    else
      var m := movie.value;
      var genre :=
        if m.genres != [] && CountOfKind(current, "genre") < GenreCap && m.genres[0] != "" && !HasValue(current, "genre", m.genres[0])
        then [PreferenceRow(user, "genre", m.genres[0])] else [];
      var director :=
        if m.directors != [] && rating == 10 && CountOfKind(current, "director") < DirectorCap
           && m.directors[0] != "" && !HasValue(current, "director", m.directors[0])
        then [PreferenceRow(user, "director", m.directors[0])] else [];
      genre + director
  }

  class FeedbackStore {
    var history: seq<HistoryRow>
    var preferences: seq<PreferenceRow>
    /** Movies by TMDB id. */
    var movies: map<int, MovieFacts>

    constructor (movies: map<int, MovieFacts>)
      ensures this.movies == movies && history == [] && preferences == []
    {
      this.movies := movies;
      history := [];
      preferences := [];
    }

    function Lookup(id: int): Option<MovieFacts>
      reads this
    {
      if id in movies then Some(movies[id]) else None
    }

    /** `process_user_feedback`. `ratingSaved` is the result of the rating
        write, `None` when that write raises; the movie is looked up by
        treating the database id as a TMDB id, as the source does. */
    method ProcessUserFeedback(user: int, movieId: int, rating: int, ratingSaved: Option<bool>) returns (success: bool)
      modifies this
      ensures success == (ratingSaved == Some(true))
      ensures movies == old(movies)
      ensures ratingSaved.None? ==> history == old(history) && preferences == old(preferences)
      ensures ratingSaved.Some? ==>
        history == old(history) + (if success then [HistoryRow(user, movieId, RatedAction(rating))] else [])
        && preferences == old(preferences) + Learned(UserPreferences(old(preferences), user), Lookup(movieId), rating, user)
    {
      if ratingSaved.None? {
        return false;
      }
      success := ratingSaved.value;
      if success {
        history := history + [HistoryRow(user, movieId, RatedAction(rating))];
      }
      var movie := Lookup(movieId);
      if movie.Some? && rating >= 9 {
        LearnFrom(user, movie.value, rating);
      }
    }

    /** The learning step for a rating of 9 or 10 of a known movie. */
    method LearnFrom(user: int, m: MovieFacts, rating: int)
      requires rating >= 9
      modifies this
      ensures history == old(history) && movies == old(movies)
      ensures preferences == old(preferences) + Learned(UserPreferences(old(preferences), user), Some(m), rating, user)
    {
      var current := UserPreferences(preferences, user);
      var counts := CountKinds(current);
      var genreCount := if "genre" in counts then counts["genre"] else 0;
      var genreRows: seq<PreferenceRow> := [];
      if m.genres != [] && genreCount < GenreCap {
        var genre := m.genres[0];
        if genre != "" && !HasValue(current, "genre", genre) {
          genreRows := [PreferenceRow(user, "genre", genre)];
        }
      }
      var directorCount := if "director" in counts then counts["director"] else 0;
      var directorRows: seq<PreferenceRow> := [];
      if m.directors != [] && rating == 10 && directorCount < DirectorCap {
        var director := m.directors[0];
        if director != "" && !HasValue(current, "director", director) {
          directorRows := [PreferenceRow(user, "director", director)];
        }
      }
      assert Learned(current, Some(m), rating, user) == genreRows + directorRows;
      preferences := preferences + genreRows;
      preferences := preferences + directorRows;
      assert preferences == old(preferences) + (genreRows + directorRows);
    }
  }

  /** `pref_counts`, counted type by type in one pass. */
  method CountKinds(prefs: seq<PreferenceRow>) returns (counts: map<string, nat>)
    ensures forall kind :: (if kind in counts then counts[kind] else 0) == CountOfKind(prefs, kind)
  {
    counts := map[];
    for i := 0 to |prefs|
      invariant forall kind :: (if kind in counts then counts[kind] else 0) == CountOfKind(prefs[..i], kind)
    {
      assert prefs[..i + 1][..i] == prefs[..i];
      var kind := prefs[i].kind;
      counts := counts[kind := (if kind in counts then counts[kind] else 0) + 1];
    }
    assert prefs[..|prefs|] == prefs;
  }

  // ---------------------------------------------------------------------------
  // What preference learning promises

  /** Nothing is learned from a rating below 9 or from an unknown movie. */
  lemma OnlyExceptionalRatingsTeach(current: seq<PreferenceRow>, movie: Option<MovieFacts>, rating: int, user: int)
    requires movie.None? || rating < 9
    ensures Learned(current, movie, rating, user) == []
  {
  }

  /** At most one genre and one director are learned: the movie's first of
      each, a director only from a 10, and nothing the user already holds. */
  lemma LearnsFirstGenreAndDirector(current: seq<PreferenceRow>, movie: Option<MovieFacts>, rating: int, user: int)
    ensures var l := Learned(current, movie, rating, user);
      |l| <= 2
      && forall k :: 0 <= k < |l| ==>
        movie.Some? && rating >= 9 && l[k].user == user && l[k].value != ""
        && !HasValue(current, l[k].kind, l[k].value)
        && ((l[k].kind == "genre" && l[k].value == movie.value.genres[0])
            || (l[k].kind == "director" && rating == 10 && l[k].value == movie.value.directors[0]))
  {
  }

  lemma {:induction false} CountOfKindAppend(a: seq<PreferenceRow>, b: seq<PreferenceRow>, kind: string)
    ensures CountOfKind(a + b, kind) == CountOfKind(a, kind) + CountOfKind(b, kind)
    decreases |b|
  {
    if b == [] {
      assert a + b == a;
    } else {
      assert (a + b)[..|a + b| - 1] == a + b[..|b| - 1];
      CountOfKindAppend(a, b[..|b| - 1], kind);
    }
  }

  /** The caps hold: a user with at most five genres and at most three
      directors still has at most that many after any rating. */
  lemma LearningKeepsCaps(current: seq<PreferenceRow>, movie: Option<MovieFacts>, rating: int, user: int)
    requires CountOfKind(current, "genre") <= GenreCap && CountOfKind(current, "director") <= DirectorCap
    ensures var after := current + Learned(current, movie, rating, user);
      CountOfKind(after, "genre") <= GenreCap && CountOfKind(after, "director") <= DirectorCap
  {
    var l := Learned(current, movie, rating, user);
    CountOfKindAppend(current, l, "genre");
    CountOfKindAppend(current, l, "director");
    if movie.Some? && rating >= 9 {
      var m := movie.value;
      var g := if m.genres != [] && CountOfKind(current, "genre") < GenreCap && m.genres[0] != "" && !HasValue(current, "genre", m.genres[0])
        then [PreferenceRow(user, "genre", m.genres[0])] else [];
      var d := if m.directors != [] && rating == 10 && CountOfKind(current, "director") < DirectorCap
           && m.directors[0] != "" && !HasValue(current, "director", m.directors[0])
        then [PreferenceRow(user, "director", m.directors[0])] else [];
      assert l == g + d;
      CountOfKindAppend(g, d, "genre");
      CountOfKindAppend(g, d, "director");
      assert CountOfKind(g, "genre") == |g| by { CountSingle(g, "genre"); }
      assert CountOfKind(d, "genre") == 0 by { CountSingle(d, "genre"); }
      assert CountOfKind(d, "director") == |d| by { CountSingle(d, "director"); }
      assert CountOfKind(g, "director") == 0 by { CountSingle(g, "director"); }
    }
  }

  lemma CountSingle(s: seq<PreferenceRow>, kind: string)
    requires |s| <= 1
    ensures CountOfKind(s, kind) == if s != [] && s[0].kind == kind then 1 else 0
  {
    if s != [] {
      assert s[..0] == [];
    }
  }

  /** A user whose preferences hold no (type, value) pair twice still holds
      none twice after learning. */
  lemma LearningAddsNoDuplicate(current: seq<PreferenceRow>, movie: Option<MovieFacts>, rating: int, user: int)
    requires forall i, j :: 0 <= i < j < |current| ==> (current[i].kind, current[i].value) != (current[j].kind, current[j].value)
    ensures var after := current + Learned(current, movie, rating, user);
      forall i, j :: 0 <= i < j < |after| ==> (after[i].kind, after[i].value) != (after[j].kind, after[j].value)
  {
    var l := Learned(current, movie, rating, user);
    LearnsFirstGenreAndDirector(current, movie, rating, user);
    var after := current + l;
    forall i, j | 0 <= i < j < |after|
      ensures (after[i].kind, after[i].value) != (after[j].kind, after[j].value)
    {
      if j >= |current| {
        var lj := l[j - |current|];
        if i < |current| {
          assert !HasValue(current, lj.kind, lj.value);
          assert after[i] == current[i];
        } else {
          assert |l| == 2 && l[0].kind == "genre" && l[1].kind == "director";
        }
      }
    }
  }
}

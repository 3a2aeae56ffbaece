/** The TMDB client (agents/tmdb_agent.py): request parameters, the retry
    schedule, and the mapping of the JSON the API returns to the bot's movie
    records. The HTTP exchange itself is an oracle: each method receives the
    decoded response (`None` when every attempt failed). A JSON field that is
    missing or `null` is `None`; floating-point fields are not modelled. */
module Tmdb {
  import opened Wrappers
  import opened Text
  import Retry

  const ImageBaseUrl: string := "https://image.tmdb.org/t/p/w500"
  const DefaultLanguage: string := "ru-RU"

  // ---------------------------------------------------------------------------
  // Raw API responses

  datatype RawMovie = RawMovie(
    id: Option<int>, title: Option<string>, originalTitle: Option<string>,
    releaseDate: Option<string>, posterPath: Option<string>,
    backdropPath: Option<string>, overview: Option<string>)

  datatype RawGenre = RawGenre(name: Option<string>)
  datatype RawCast = RawCast(name: Option<string>, character: Option<string>)
  datatype RawCrew = RawCrew(name: Option<string>, job: Option<string>)

  /** The `credits` object; a missing `cast` or `crew` list is empty. */
  datatype RawCredits = RawCredits(cast: seq<RawCast>, crew: seq<RawCrew>)

  /** The response of `movie/{id}?append_to_response=credits`. */
  datatype RawDetails = RawDetails(movie: RawMovie, runtime: Option<int>, genres: seq<RawGenre>, credits: Option<RawCredits>)

  // ---------------------------------------------------------------------------
  // The bot's records

  /** An entry of `search_movie`'s result. */
  datatype SearchHit = SearchHit(
    tmdbId: Option<int>, title: Option<string>, originalTitle: Option<string>,
    releaseDate: Option<string>, posterPath: Option<string>,
    backdropPath: Option<string>, overview: Option<string>)

  datatype Actor = Actor(name: Option<string>, character: Option<string>)
  datatype Director = Director(name: Option<string>)

  /** The record `get_movie_details` returns and the engine stores. */
  datatype MovieDetails = MovieDetails(
    tmdbId: Option<int>, title: Option<string>, originalTitle: Option<string>,
    overview: Option<string>, releaseDate: Option<string>,
    posterPath: Option<string>, posterUrl: Option<string>,
    backdropPath: Option<string>, runtime: Option<int>,
    genres: seq<string>, actors: seq<Actor>, directors: seq<Director>)

  /** An entry of `get_similar_movies`'s result. */
  datatype SimilarMovie = SimilarMovie(
    tmdbId: Option<int>, title: Option<string>, releaseDate: Option<string>,
    posterPath: Option<string>, posterUrl: Option<string>)

  /** Python truthiness of an optional string: present and non-empty. */
  predicate Truthy(s: Option<string>) {
    s.Some? && s.value != []
  }

  // ---------------------------------------------------------------------------
  // _make_request

  /** The query parameters sent: the API key and `language=ru-RU`, then the
      caller's parameters, which override either. */
  function EffectiveParams(apiKey: string, params: map<string, string>): (r: map<string, string>)
    ensures r.Keys == params.Keys + {"api_key", "language"}
    ensures forall k :: k in params ==> r[k] == params[k]
    ensures "api_key" !in params ==> r["api_key"] == apiKey
    ensures "language" !in params ==> r["language"] == DefaultLanguage
  {
    map["api_key" := apiKey, "language" := DefaultLanguage] + params
  }

  /** `_make_request`: `reply(a)` is the decoded body of attempt `a`, or
      `None` when that attempt raised. */
  method MakeRequest<T>(reply: nat -> Option<T>, retries: int, delay: int) returns (data: Option<T>, sleeps: seq<int>)
    ensures data == Retry.Outcome(reply, retries)
    ensures sleeps == Retry.Sleeps(reply, retries, delay)
    ensures data.Some? ==> exists a :: 0 <= a < retries && data == reply(a)
  {
    data, sleeps := Retry.Attempts(reply, retries, delay);
  }

  // ---------------------------------------------------------------------------
  // search_movie

  function HitOf(m: RawMovie): SearchHit {
    SearchHit(m.id, m.title, m.originalTitle, m.releaseDate, m.posterPath, m.backdropPath, m.overview)
  }

  /** `search_movie` applied to the response of `search/movie`: one record per
      result, in order; no records when the request failed or `results` is
      missing or empty. */
  method SearchMovie(data: Option<Option<seq<RawMovie>>>) returns (hits: seq<SearchHit>)
    ensures data.None? || data.value.None? ==> hits == []
    ensures data.Some? && data.value.Some? ==>
      |hits| == |data.value.value| && forall k :: 0 <= k < |hits| ==> hits[k] == HitOf(data.value.value[k])
  {
    hits := [];
    if data.Some? && data.value.Some? && data.value.value != [] {
      var results := data.value.value;
      var i := 0;
      while i < |results|
        invariant 0 <= i <= |results|
        invariant |hits| == i && forall k :: 0 <= k < i ==> hits[k] == HitOf(results[k])
      {
        hits := hits + [HitOf(results[i])];
        i := i + 1;
      }
    }
  }

  // ---------------------------------------------------------------------------
  // get_movie_details

  /** The genre names that are present and non-empty, in order. */
  function GenreNames(gs: seq<RawGenre>): (names: seq<string>)
    ensures |names| <= |gs|
    ensures forall n :: n in names ==> n != [] && RawGenre(Some(n)) in gs
    ensures forall g :: g in gs && Truthy(g.name) ==> g.name.value in names
  {
    if gs == [] then []
    else (if Truthy(gs[0].name) then [gs[0].name.value] else []) + GenreNames(gs[1..])
  }

  predicate IsDirector(c: RawCrew) {
    c.job == Some("Director")
  }

  /** The directors: the crew entries whose job is exactly "Director", in order. */
  function DirectorsOf(crew: seq<RawCrew>): (ds: seq<Director>)
    ensures |ds| <= |crew|
    ensures forall d :: d in ds ==> exists c :: c in crew && IsDirector(c) && d == Director(c.name)
    ensures forall c :: c in crew && IsDirector(c) ==> Director(c.name) in ds
  {
    if crew == [] then []
    else (if IsDirector(crew[0]) then [Director(crew[0].name)] else []) + DirectorsOf(crew[1..])
  }

  /** `poster_url`: the image base URL followed by the poster path, when that is truthy. */
  function PosterUrl(posterPath: Option<string>): (r: Option<string>)
    ensures r.Some? <==> Truthy(posterPath)
    ensures r.Some? ==> StartsWith(r.value, ImageBaseUrl) && r.value[|ImageBaseUrl|..] == posterPath.value
  {
    if Truthy(posterPath) then Some(ImageBaseUrl + posterPath.value) else None
  }

  /** `get_movie_details` applied to the decoded response. */
  method GetMovieDetails(data: Option<RawDetails>) returns (details: Option<MovieDetails>)
    ensures data.None? <==> details.None?
    ensures data.Some? ==> var raw := data.value; var d := details.value;
      && d.tmdbId == raw.movie.id && d.title == raw.movie.title
      && d.originalTitle == raw.movie.originalTitle && d.overview == raw.movie.overview
      && d.releaseDate == raw.movie.releaseDate && d.posterPath == raw.movie.posterPath
      && d.backdropPath == raw.movie.backdropPath && d.runtime == raw.runtime
      && d.posterUrl == PosterUrl(raw.movie.posterPath)
      && d.genres == GenreNames(raw.genres)
      && (raw.credits.None? ==> d.actors == [] && d.directors == [])
      && (raw.credits.Some? ==>
            && |d.actors| == |PyTake(raw.credits.value.cast, 5)| <= 5
            && (forall k :: 0 <= k < |d.actors| ==>
                  d.actors[k] == Actor(raw.credits.value.cast[k].name, raw.credits.value.cast[k].character))
            && d.directors == DirectorsOf(raw.credits.value.crew))
  {
    if data.None? {
      return None;
    }
    var raw := data.value;
    var actors: seq<Actor> := [];
    var directors: seq<Director> := [];
    if raw.credits.Some? {
      var cast := PyTake(raw.credits.value.cast, 5);
      var i := 0;
      while i < |cast|
        invariant 0 <= i <= |cast|
        invariant |actors| == i && forall k :: 0 <= k < i ==> actors[k] == Actor(cast[k].name, cast[k].character)
      {
        actors := actors + [Actor(cast[i].name, cast[i].character)];
        i := i + 1;
      }
      var crew := raw.credits.value.crew;
      var j := 0;
      while j < |crew|
        invariant 0 <= j <= |crew|
        invariant directors == DirectorsOf(crew[..j])
      {
        DirectorsOfSnoc(crew[..j], crew[j]);
        assert crew[..j + 1] == crew[..j] + [crew[j]];
        if IsDirector(crew[j]) {
          directors := directors + [Director(crew[j].name)];
        }
        j := j + 1;
      }
      assert crew[..j] == crew;
    }
    var m := raw.movie;
    details := Some(MovieDetails(m.id, m.title, m.originalTitle, m.overview, m.releaseDate,
                                 m.posterPath, PosterUrl(m.posterPath), m.backdropPath, raw.runtime,
                                 GenreNames(raw.genres), actors, directors));
  }

  lemma {:induction false} DirectorsOfSnoc(crew: seq<RawCrew>, c: RawCrew)
    ensures DirectorsOf(crew + [c]) == DirectorsOf(crew) + (if IsDirector(c) then [Director(c.name)] else [])
  {
    if crew != [] {
      assert (crew + [c])[1..] == crew[1..] + [c];
      DirectorsOfSnoc(crew[1..], c);
    } else {
      assert [c][1..] == [];
    }
  }

  // ---------------------------------------------------------------------------
  // enrich_query and get_similar_movies

  /** `enrich_query`: the details of the first search result only, looked up by
      its id when that id is present and non-zero. */
  function EnrichQuery(hits: seq<SearchHit>, details: int -> Option<MovieDetails>): (r: Option<MovieDetails>)
    ensures hits == [] ==> r.None?
    ensures hits != [] && (hits[0].tmdbId.None? || hits[0].tmdbId == Some(0)) ==> r.None?
    ensures r.Some? ==> r == details(hits[0].tmdbId.value)
    ensures r.Some? <==> hits != [] && hits[0].tmdbId.Some? && hits[0].tmdbId.value != 0
                         && details(hits[0].tmdbId.value).Some?
  {
    if hits == [] then None
    else match hits[0].tmdbId
      case Some(id) => if id != 0 then details(id) else None
      case None => None
  }

  function SimilarOf(m: RawMovie): SimilarMovie {
    SimilarMovie(m.id, m.title, m.releaseDate, m.posterPath, PosterUrl(m.posterPath))
  }

  /** `get_similar_movies`: `results[:limit]` with Python slicing, mapped in order. */
  method GetSimilarMovies(data: Option<Option<seq<RawMovie>>>, limit: int) returns (similar: seq<SimilarMovie>)
    ensures data.None? || data.value.None? ==> similar == []
    ensures limit >= 0 ==> |similar| <= limit
    ensures data.Some? && data.value.Some? ==>
      var kept := PyTake(data.value.value, limit);
      |similar| == |kept| && forall k :: 0 <= k < |similar| ==> similar[k] == SimilarOf(kept[k])
  {
    similar := [];
    if data.Some? && data.value.Some? && data.value.value != [] {
      var kept := PyTake(data.value.value, limit);
      var i := 0;
      while i < |kept|
        invariant 0 <= i <= |kept|
        invariant |similar| == i && forall k :: 0 <= k < i ==> similar[k] == SimilarOf(kept[k])
      {
        similar := similar + [SimilarOf(kept[i])];
        i := i + 1;
      }
    }
  }
}

/** Message formatting for Telegram (tg_bot/formatter.py): truncation of
    long descriptions, the movie card, the numbered movie list and the error
    message. Floating-point ratings are formatted by a `formatRating`
    parameter standing for `f"{v:.1f}"`. */
module Formatter {
  import opened Wrappers
  import opened Text

  /** A dictionary entry: absent, present with the value None, or present with a value. */
  datatype Field<T> = Missing | Null | Present(value: T)

  /** The `genres` entry: a list is joined, any other value is shown as it is. */
  datatype GenresField = GenresMissing | GenresNull | GenresList(names: seq<string>) | GenresText(text: string)

  /** The movie dictionary as `format_movie` and `format_movies_list` read it.
      `directors` and `actors` are None unless they hold a list; each entry's
      `'name'` is given directly. */
  datatype MovieDict = MovieDict(
    title: Field<string>, overview: Field<string>, voteAverage: Option<real>,
    releaseDate: Field<string>, genres: GenresField, runtime: Option<int>,
    directors: Option<seq<string>>, actors: Option<seq<string>>)

  const Dash := "–"
  const DefaultMaxLength := 700
  const DefaultSuffix := "..."
  const EmptyListText := "Список фильмов пуст."
  const ErrorPrefix := "❌ Произошла ошибка: *"
  const ErrorSuffix := "*\n\nПожалуйста, попробуйте еще раз."

  /** `_truncate_text(text, max_length, suffix)`; `None` stands for a value that is not a string. */
  function Truncate(text: Option<string>, maxLength: int, suffix: string): (r: string)
    ensures text.None? ==> r == ""
    ensures text.Some? && |text.value| <= maxLength ==> r == text.value
    ensures text.Some? && |text.value| > maxLength ==>
      exists kept :: r == kept + suffix && |kept| <= |text.value| && kept == text.value[..|kept|]
                     && (maxLength >= 0 ==> |kept| <= maxLength)
                     && (|kept| < |PyTake(text.value, maxLength)| ==> text.value[|kept|] == ' ')
    ensures text.Some? && |text.value| > maxLength ==>
      var t := PyTake(text.value, maxLength);
      (' ' !in t ==> r == t + suffix)
      && (' ' in t ==> exists kept :: r == kept + suffix && |kept| < |t| && kept == t[..|kept|]
                                      && t[|kept|] == ' ' && ' ' !in t[|kept| + 1..])
  {
    if text.None? then ""
    else if |text.value| <= maxLength then text.value
    else
      var truncated := PyTake(text.value, maxLength);
      match LastIndexOf(truncated, ' ')
      case Some(i) =>
        assert truncated[..i] == text.value[..i];
        truncated[..i] + suffix
      case None => truncated + suffix
  }

  /** What `movie.get(key, default)` shows inside an f-string. */
  function Shown(f: Field<string>, default: string): string {
    match f
    case Missing => default
    case Null => "None"
    case Present(s) => s
  }

  /** The release year: the text before the first '-' of a truthy date of at
      least 4 characters, else the dash. */
  function ReleaseYear(date: Field<string>): (y: string)
    ensures date.Present? && |date.value| >= 4 ==> |y| <= |date.value| && y == date.value[..|y|] && '-' !in y
    ensures !(date.Present? && |date.value| >= 4) ==> y == Dash
  {
    if date.Present? && |date.value| >= 4 then
      var y := SplitAll(date.value, '-')[0];
      YearIsPrefix(date.value);
      y
    else Dash
  }

  lemma YearIsPrefix(s: string)
    ensures var y := SplitAll(s, '-')[0]; |y| <= |s| && y == s[..|y|] && '-' !in y
  {
    match IndexOf(s, '-')
    case None =>
    case Some(i) =>
  }

  /** The "YYYY-MM-DD" dates TMDB returns give their first four characters. */
  lemma IsoDateYear(date: string)
    requires |date| >= 5 && date[4] == '-' && '-' !in date[..4]
    ensures ReleaseYear(Present(date)) == date[..4]
  {
    IndexOfFirst(date, '-', 4);
  }

  function GenresText(g: GenresField): string {
    match g
    case GenresList(names) => Join(", ", names)
    case GenresText(t) => t
    case GenresMissing => Dash
    case GenresNull => "None"
  }

  /** Directors or actors: their names joined, or the dash for a missing or empty list. */
  function PeopleText(people: Option<seq<string>>): (r: string)
    ensures people.None? || people == Some([]) ==> r == Dash
  {
    if people.Some? && people.value != [] then Join(", ", people.value) else Dash
  }

  function RatingText(vote: Option<real>, formatRating: real -> string): string {
    if vote.Some? then formatRating(vote.value) else Dash
  }

  function RuntimeText(runtime: Option<int>): string {
    if runtime.Some? then IntToString(runtime.value) + " мин" else Dash
  }

  /** The eight lines of a movie card. */
  function CardLines(m: MovieDict, formatRating: real -> string): (lines: seq<string>)
    ensures |lines| == 8
  {
    var overview := match m.overview
      case Missing => Truncate(Some("Описание недоступно."), DefaultMaxLength, DefaultSuffix)
      case Null => Truncate(None, DefaultMaxLength, DefaultSuffix)
      case Present(s) => Truncate(Some(s), DefaultMaxLength, DefaultSuffix);
    [ "🎬 *" + Shown(m.title, "Без названия") + "* (" + ReleaseYear(m.releaseDate) + ")",
      "⭐ Рейтинг: `" + RatingText(m.voteAverage, formatRating) + "/10`",
      "🎭 Жанры: " + GenresText(m.genres),
      "⏳ Длительность: " + RuntimeText(m.runtime),
      "👨‍ directorial: " + PeopleText(m.directors),
      "👥 В ролях: " + PeopleText(m.actors),
      "",
      "📝 *Описание:* " + overview ]
  }

  /** `format_movie`: the card's lines joined by newlines. */
  function FormatMovie(m: MovieDict, formatRating: real -> string): (r: string)
    ensures (forall k :: 0 <= k < 8 ==> '\n' !in CardLines(m, formatRating)[k]) ==>
              SplitAll(r, '\n') == CardLines(m, formatRating)
  {
    var lines := CardLines(m, formatRating);
    if forall k :: 0 <= k < 8 ==> '\n' !in lines[k] then
      SplitAllJoin(lines, '\n');
      Join("\n", lines)
    else Join("\n", lines)
  }

  /** One line of `format_movies_list`, numbered from 1. */
  function ListLine(idx: int, m: MovieDict, formatRating: real -> string): string {
    IntToString(idx) + ". *" + Shown(m.title, "Без названия") + "* — " + ReleaseYear(m.releaseDate)
    + ", ⭐ " + RatingText(m.voteAverage, formatRating) + "/10"
  }

  function ListLines(movies: seq<MovieDict>, formatRating: real -> string): (lines: seq<string>)
    ensures |lines| == |movies|
    ensures forall k :: 0 <= k < |movies| ==> lines[k] == ListLine(k + 1, movies[k], formatRating)
  {
    seq(|movies|, k requires 0 <= k < |movies| => ListLine(k + 1, movies[k], formatRating))
  }

  /** `format_movies_list`: the fixed text for an empty list, else one
      numbered line per movie in input order, joined by newlines. */
  method FormatMoviesList(movies: seq<MovieDict>, formatRating: real -> string) returns (r: string)
    ensures movies == [] ==> r == EmptyListText
    ensures movies != [] ==> r == Join("\n", ListLines(movies, formatRating))
  {
    if movies == [] {
      return EmptyListText;
    }
    var lines: seq<string> := [];
    var idx := 0;
    while idx < |movies|
      invariant 0 <= idx <= |movies|
      invariant lines == ListLines(movies[..idx], formatRating)
    {
      lines := lines + [ListLine(idx + 1, movies[idx], formatRating)];
      idx := idx + 1;
    }
    assert movies[..idx] == movies;
    r := Join("\n", lines);
  }

  /** `format_error` */
  function FormatError(message: string): (r: string)
    ensures StartsWith(r, ErrorPrefix) && EndsWith(r, ErrorSuffix)
    ensures |r| == |ErrorPrefix| + |message| + |ErrorSuffix| && r[|ErrorPrefix|..|r| - |ErrorSuffix|] == message
  {
    ErrorPrefix + message + ErrorSuffix
  }

  // ---------------------------------------------------------------------------
  // Properties

  /** When no line carries a newline of its own, splitting the list text
      on newlines gives back one line per movie, line k numbered k + 1. */
  lemma ListHasOneLinePerMovie(movies: seq<MovieDict>, formatRating: real -> string)
    requires movies != []
    requires forall k :: 0 <= k < |movies| ==> '\n' !in ListLine(k + 1, movies[k], formatRating)
    ensures SplitAll(Join("\n", ListLines(movies, formatRating)), '\n') == ListLines(movies, formatRating)
  {
    SplitAllJoin(ListLines(movies, formatRating), '\n');
  }

  /** The number and title that open a line of the list. */
  function LineHead(idx: int, m: MovieDict): string {
    IntToString(idx) + ". *" + Shown(m.title, "Без названия") + "* — "
  }

  lemma ListLineStarts(idx: int, m: MovieDict, formatRating: real -> string)
    ensures StartsWith(ListLine(idx, m, formatRating), LineHead(idx, m))
  {
    var head := LineHead(idx, m);
    var tail := ReleaseYear(m.releaseDate) + ", ⭐ " + RatingText(m.voteAverage, formatRating) + "/10";
    assert ListLine(idx, m, formatRating) == head + tail;
    assert (head + tail)[..|head|] == head;
  }
}

/** Inline-button callbacks (tg_bot/callbacks.py): decoding of the callback
    data, the routing patterns that send each kind of data to its handler
    (main.py), and the handlers' effects on the per-user `user_data`, the
    movie store and the feedback log. Sending and editing Telegram messages
    is modelled by the text of the reply each handler sends. */
module Callbacks {
  import opened Wrappers
  import opened Text
  import opened Seqs
  import opened Keyboards
  import Formatter
  import MovieStore
  import Feedback

  /** Conversation states: RECOMMENDATION = 0, RATING_SELECT_MOVIE = 1,
      RATING_GET_SCORE = 2, FEEDBACK_COLLECTING = 3 and `ConversationHandler.END` = -1. */
  datatype State = Recommendation | RatingSelectMovie | RatingGetScore | FeedbackCollecting | End

  /** An entry of `user_data['last_recommendations']`: title, TMDB id and store id. */
  datatype Rec = Rec(title: Option<string>, tmdbId: Option<int>, dbId: int)

  /** The keys of one user's `context.user_data` the handlers read and write;
      None is an absent key. */
  class Session {
    var movieToRate: Option<int>
    var lastRecommendations: Option<seq<Rec>>
    var lastUserQuery: Option<string>
    var lastUserQueryForFeedback: Option<string>

    constructor ()
      ensures movieToRate.None? && lastRecommendations.None?
      ensures lastUserQuery.None? && lastUserQueryForFeedback.None?
    {
      movieToRate, lastRecommendations := None, None;
      lastUserQuery, lastUserQueryForFeedback := None, None;
    }
  }

  const BadMovieData := "Ошибка: Некорректные данные фильма."
  const BadRatingData := "Ошибка: Некорректные данные оценки фильма."
  const BadSelectData := "Ошибка: Некорректные данные фильма для оценки."
  const DbUnavailable := "Ошибка: База данных недоступна."
  const AgentUnavailable := "Ошибка: Агент обратной связи недоступен."
  const FeedbackFailed := "Произошла ошибка при сохранении отзыва. Пожалуйста, попробуйте еще раз."
  const FeedbackThanks := "Спасибо! Ваш отзыв успешно сохранен."
  const NoFeedbackQuery := "N/A (from callback)"
  const ConfirmFailed := "Ошибка: Не удалось выполнить действие подтверждения."
  const HistoryCleared := "Ваша история успешно очищена."
  const ClearFailed := "Ошибка при очистке истории."
  const UnknownConfirm := "Неизвестное действие подтверждения."
  const BackFailed := "Ошибка: Не удалось выполнить действие 'Назад'."
  const MainMenuText := "Вы вернулись в главное меню. Чем могу помочь?"
  const NoRecentText := "Вернулись назад. У вас нет недавних рекомендаций. Пожалуйста, запросите новые фильмы."
  const BackDoneText := "Действие 'Назад' выполнено."
  const RecentHeader := "Вот последние рекомендации:\n"
  const UnknownMovie := "Неизвестный фильм"
  const ThisMovie := "этот фильм"
  const SelectPrefix := "select_movie_for_rating_"

  function SavedReply(title: string): string {
    "✅ Фильм **«" + title + "»** добавлен в сохранённые!"
  }

  function SaveFailedReply(title: string): string {
    Formatter.FormatError("Произошла ошибка при сохранении фильма **«" + title + "»**.")
  }

  function RatedReply(title: string, rating: int): string {
    "Спасибо! Вы оценили фильм **«" + title + "»** на " + IntToString(rating) + "/10. ⭐"
  }

  function RateFailedReply(title: string): string {
    Formatter.FormatError("Произошла ошибка при сохранении вашей оценки для **«" + title + "»**.")
  }

  function AskScore(title: string): string {
    "Какую оценку (от 0 до 10) вы дадите фильму **«" + title + "»**?"
  }

  /** `movie_details.get('title', default) if movie_details else default` */
  function TitleOr(db: MovieStore.MovieDatabase, id: int, default: string): string
    reads db
  {
    match db.GetMovie(id)
    case Some(m) => m.title
    case None => default
  }

  // ---------------------------------------------------------------------------
  // Callback data

  /** `f"save:{id}"` and `f"details:{id}"` */
  function SaveData(id: int): string { "save:" + IntToString(id) }

  function DetailsData(id: int): string { "details:" + IntToString(id) }

  /** `f"select_movie_for_rating_{id}"` */
  function SelectData(id: int): string { SelectPrefix + IntToString(id) }

  /** `_, s = data.split(":", 1)` then `int(s)`, as `save_movie_callback` and
      `show_movie_details_callback` decode: the text after the first colon
      read as an integer. */
  function ParseId(data: string): (r: Option<int>)
    ensures IndexOf(data, ':').None? ==> r.None?
    ensures IndexOf(data, ':').Some? ==> r == PyInt(data[IndexOf(data, ':').value + 1..])
  {
    var parts := SplitN(data, ':', 1);
    if |parts| != 2 then None else PyInt(parts[1])
  }

  /** `_, a, b = data.split(":", 2)` then `int(a)` and `int(b)`. */
  function ParseRating(data: string): (r: Option<(int, int)>)
    ensures r.Some? ==> |SplitN(data, ':', 2)| == 3
    ensures r.Some? <==> |SplitN(data, ':', 2)| == 3
                         && PyInt(SplitN(data, ':', 2)[1]).Some? && PyInt(SplitN(data, ':', 2)[2]).Some?
  {
    var parts := SplitN(data, ':', 2);
    if |parts| != 3 then None
    else
      match (PyInt(parts[1]), PyInt(parts[2]))
      case (Some(id), Some(score)) => Some((id, score))
      case _ => None
  }

  /** `int(data.replace("select_movie_for_rating_", ""))` */
  function ParseSelect(data: string): (r: Option<int>)
    ensures r.Some? ==> exists t :: t != [] && AllDigits(t) && (r.value == DigitsValue(t) || r.value == -(DigitsValue(t) as int))
  {
    PyInt(RemoveAll(data, SelectPrefix))
  }

  /** `data.split(":", 2)` with at least three parts: the action and the payload. */
  function ParseConfirm(data: string): (r: Option<(string, string)>)
    ensures r.Some? ==> |r.value.0| + |r.value.1| + 2 <= |data| && ':' !in r.value.0
  {
    var parts := SplitN(data, ':', 2);
    if |parts| < 3 then None
    else
      SplitNParts(data);
      Some((parts[1], parts[2]))
  }

  /** `_, target = data.split(":", 1)` */
  function ParseBack(data: string): (r: Option<string>)
    ensures r.Some? <==> ':' in data
    ensures r.Some? ==> EndsWith(data, r.value) && |r.value| < |data|
  {
    var parts := SplitN(data, ':', 1);
    if |parts| != 2 then None
    else
      var i := IndexOf(data, ':').value;
      assert parts[1] == data[i + 1..];
      Some(parts[1])
  }

  lemma SplitNParts(data: string)
    requires |SplitN(data, ':', 2)| == 3
    ensures var parts := SplitN(data, ':', 2);
            |parts[1]| + |parts[2]| + 2 <= |data| && ':' !in parts[1]
  {
    var i := IndexOf(data, ':').value;
    var rest := data[i + 1..];
    var j := IndexOf(rest, ':').value;
    assert SplitN(data, ':', 2) == [data[..i]] + SplitN(rest, ':', 1);
    assert SplitN(rest, ':', 1) == [rest[..j], rest[j + 1..]];
  }

  // ---------------------------------------------------------------------------
  // Routing patterns of main.py

  /** `^rate:\d+:(?:[0-9]|10)$` */
  predicate RatePattern(s: string) {
    && StartsWith(s, "rate:")
    && exists j :: 5 < j < |s| && s[j] == ':' && AllDigits(s[5..j]) && ScoreText(s[j + 1..])
  }

  predicate ScoreText(t: string) {
    (|t| == 1 && IsDigit(t[0])) || t == "10"
  }

  /** `^select_movie_for_rating_\d+$` */
  predicate SelectPattern(s: string) {
    StartsWith(s, SelectPrefix) && |s| > |SelectPrefix| && AllDigits(s[|SelectPrefix|..])
  }

  /** `^save:\d+$` */
  predicate SavePattern(s: string) {
    StartsWith(s, "save:") && |s| > 5 && AllDigits(s[5..])
  }

  /** `^confirm:.+$`: at least one character other than a newline after the prefix. */
  predicate ConfirmPattern(s: string) {
    StartsWith(s, "confirm:") && |s| > 8 && '\n' !in s[8..]
  }

  // ---------------------------------------------------------------------------
  // Handlers

  /** `save_movie_callback`: one "saved" history row for a well-formed id and
      an available store; an error reply and no write otherwise. */
  method SaveMovieCallback(data: string, userId: int, db: MovieStore.MovieDatabase?, fault: bool)
    returns (reply: string)
    requires db != null ==> db.Valid()
    modifies db
    ensures db != null ==> db.Valid()
    ensures ParseId(data).None? ==> reply == Formatter.FormatError(BadMovieData)
                                     && (db != null ==> db.Contents() == old(db.Contents()))
    ensures ParseId(data).Some? && db == null ==> reply == Formatter.FormatError(DbUnavailable)
    ensures ParseId(data).Some? && db != null ==>
      var id := ParseId(data).value;
      var title := old(TitleOr(db, id, UnknownMovie));
      && db.Contents() == (if fault then old(db.Contents()) else MovieStore.WithHistory(old(db.Contents()), userId, id, "saved"))
      && reply == if fault then SaveFailedReply(title) else SavedReply(title)
  {
    var parsed := ParseId(data);
    if parsed.None? {
      return Formatter.FormatError(BadMovieData);
    }
    var id := parsed.value;
    if db == null {
      return Formatter.FormatError(DbUnavailable);
    }
    var title := TitleOr(db, id, UnknownMovie);
    var ok := db.AddUserHistory(userId, id, "saved", fault);
    reply := if ok then SavedReply(title) else SaveFailedReply(title);
  }

  /** `rate_movie_callback`: the rating stored for a well-formed (id, score)
      and an available store; an error reply and no write otherwise. */
  method RateMovieCallback(data: string, userId: int, db: MovieStore.MovieDatabase?, fault: bool)
    returns (reply: string)
    requires db != null ==> db.Valid()
    modifies db
    ensures db != null ==> db.Valid()
    ensures ParseRating(data).None? ==> reply == Formatter.FormatError(BadRatingData)
                                         && (db != null ==> db.Contents() == old(db.Contents()))
    ensures ParseRating(data).Some? && db == null ==> reply == Formatter.FormatError(DbUnavailable)
    ensures ParseRating(data).Some? && db != null ==>
      var (id, score) := ParseRating(data).value;
      var title := old(TitleOr(db, id, UnknownMovie));
      && db.Contents() == (if fault then old(db.Contents()) else MovieStore.WithRating(old(db.Contents()), userId, id, score))
      && reply == if fault then RateFailedReply(title) else RatedReply(title, score)
  {
    var parsed := ParseRating(data);
    if parsed.None? {
      return Formatter.FormatError(BadRatingData);
    }
    var (id, score) := parsed.value;
    if db == null {
      return Formatter.FormatError(DbUnavailable);
    }
    var title := TitleOr(db, id, UnknownMovie);
    var ok := db.AddRating(userId, id, score, fault);
    reply := if ok then RatedReply(title, score) else RateFailedReply(title);
  }

  /** `select_movie_for_rating`: the id is remembered before the store is
      checked; with a store the score keyboard is shown and the conversation
      moves on to RATING_GET_SCORE, otherwise it ends. */
  method SelectMovieForRating(data: string, session: Session, db: MovieStore.MovieDatabase?)
    returns (state: State, reply: string, keyboard: seq<seq<Button>>)
    modifies session
    ensures session.lastRecommendations == old(session.lastRecommendations)
    ensures session.lastUserQuery == old(session.lastUserQuery)
    ensures session.lastUserQueryForFeedback == old(session.lastUserQueryForFeedback)
    ensures ParseSelect(data).None? ==>
      state == End && reply == Formatter.FormatError(BadSelectData) && session.movieToRate == old(session.movieToRate)
    ensures ParseSelect(data).Some? ==> session.movieToRate == ParseSelect(data)
    ensures ParseSelect(data).Some? && db == null ==> state == End && reply == Formatter.FormatError(DbUnavailable)
    ensures ParseSelect(data).Some? && db != null ==>
      && state == RatingGetScore && |keyboard| == 2
      && reply == AskScore(TitleOr(db, ParseSelect(data).value, ThisMovie))
      && keyboard[0] + keyboard[1] == ScoreButtons(ParseSelect(data).value)
  {
    var parsed := ParseSelect(data);
    keyboard := [];
    if parsed.None? {
      return End, Formatter.FormatError(BadSelectData), [];
    }
    var id := parsed.value;
    session.movieToRate := Some(id);
    if db == null {
      return End, Formatter.FormatError(DbUnavailable), [];
    }
    var title := TitleOr(db, id, ThisMovie);
    keyboard := GetRatingKeyboard(id);
    state, reply := RatingGetScore, AskScore(title);
  }

  /** The `last_recommendations` filter: the entries whose store id differs
      from the rated one, in their order. */
  function WithoutMovie(recs: seq<Rec>, id: int): (r: seq<Rec>)
    ensures forall x :: x in r <==> x in recs && x.dbId != id
  {
    Filter(recs, (x: Rec) => x.dbId != id)
  }

  /** `get_rating_score`: every path ends the conversation. After a
      well-formed score with a store, the rating is written, the remembered id
      is dropped and the rated movie leaves `last_recommendations`. */
  method GetRatingScore(data: string, userId: int, session: Session, db: MovieStore.MovieDatabase?, fault: bool)
    returns (state: State, reply: string)
    requires db != null ==> db.Valid()
    modifies session, db
    ensures state == End
    ensures db != null ==> db.Valid()
    ensures session.lastUserQuery == old(session.lastUserQuery)
    ensures session.lastUserQueryForFeedback == old(session.lastUserQueryForFeedback)
    ensures ParseRating(data).None? || db == null ==>
      && reply == Formatter.FormatError(if ParseRating(data).None? then BadRatingData else DbUnavailable)
      && session.movieToRate == old(session.movieToRate)
      && session.lastRecommendations == old(session.lastRecommendations)
      && (db != null ==> db.Contents() == old(db.Contents()))
    ensures ParseRating(data).Some? && db != null ==>
      var (id, score) := ParseRating(data).value;
      var title := old(TitleOr(db, id, UnknownMovie));
      && db.Contents() == (if fault then old(db.Contents()) else MovieStore.WithRating(old(db.Contents()), userId, id, score))
      && reply == (if fault then RateFailedReply(title) else RatedReply(title, score))
      && session.movieToRate.None?
      && session.lastRecommendations == match old(session.lastRecommendations)
                                        case None => None
                                        case Some(recs) => Some(WithoutMovie(recs, id))
  {
    var parsed := ParseRating(data);
    if parsed.None? {
      return End, Formatter.FormatError(BadRatingData);
    }
    var (id, score) := parsed.value;
    if db == null {
      return End, Formatter.FormatError(DbUnavailable);
    }
    reply := SaveScore(userId, id, score, db, fault);
    ForgetRated(session, id);
    state := End;
  }

  /** The store write and its reply. */
  method SaveScore(userId: int, id: int, score: int, db: MovieStore.MovieDatabase, fault: bool) returns (reply: string)
    requires db.Valid()
    modifies db
    ensures db.Valid()
    ensures db.Contents() == (if fault then old(db.Contents()) else MovieStore.WithRating(old(db.Contents()), userId, id, score))
    ensures var title := old(TitleOr(db, id, UnknownMovie));
      reply == (if fault then RateFailedReply(title) else RatedReply(title, score))
  {
    var title := TitleOr(db, id, UnknownMovie);
    var ok := db.AddRating(userId, id, score, fault);
    reply := if ok then RatedReply(title, score) else RateFailedReply(title);
  }

  /** The session after a rating: no movie waits for a score and the rated
      one leaves the remembered recommendations. */
  method ForgetRated(session: Session, id: int)
    modifies session
    ensures session.movieToRate.None?
    ensures session.lastUserQuery == old(session.lastUserQuery)
    ensures session.lastUserQueryForFeedback == old(session.lastUserQueryForFeedback)
    ensures session.lastRecommendations == match old(session.lastRecommendations)
                                           case None => None
                                           case Some(recs) => Some(WithoutMovie(recs, id))
  {
    session.movieToRate := None;
    if session.lastRecommendations.Some? {
      session.lastRecommendations := Some(WithoutMovie(session.lastRecommendations.value, id));
    }
  }

  /** `collect_feedback`: the feedback is written with the remembered query
      (or the placeholder), but `save_feedback` returns None, so the reply is
      always the failure message; the remembered query is then dropped. */
  method CollectFeedback(userId: int, text: string, now: string, session: Session,
                         agent: Feedback.FeedbackAgent?, fault: bool)
    returns (state: State, reply: string)
    requires agent != null ==> agent.Valid()
    modifies session, agent
    ensures state == End
    ensures agent != null ==> agent.Valid()
    ensures session.movieToRate == old(session.movieToRate)
    ensures session.lastRecommendations == old(session.lastRecommendations)
    ensures session.lastUserQuery == old(session.lastUserQuery)
    ensures agent == null ==>
      reply == Formatter.FormatError(AgentUnavailable) && session.lastUserQueryForFeedback == old(session.lastUserQueryForFeedback)
    ensures agent != null ==>
      && reply == Formatter.FormatError(FeedbackFailed)
      && session.lastUserQueryForFeedback.None?
      && agent.rows == if fault then old(agent.rows)
                       else old(agent.rows) + [Feedback.FeedbackRow(old(agent.nextId), IntToString(userId),
                                                 old(session.lastUserQueryForFeedback).GetOr(NoFeedbackQuery), text, now)]
  {
    var lastQuery := session.lastUserQueryForFeedback.GetOr(NoFeedbackQuery);
    if agent == null {
      return End, Formatter.FormatError(AgentUnavailable);
    }
    agent.SaveFeedback(IntToString(userId), lastQuery, text, now, fault);
    reply := Formatter.FormatError(FeedbackFailed);
    session.lastUserQueryForFeedback := None;
    state := End;
  }

  /** `confirmation_callback`: only "clear_history" acts, and only on the
      pressing user's history. */
  method ConfirmationCallback(data: string, userId: int, db: MovieStore.MovieDatabase?, fault: bool)
    returns (reply: string)
    requires db != null ==> db.Valid()
    modifies db
    ensures db != null ==> db.Valid()
    ensures ParseConfirm(data).None? ==> reply == Formatter.FormatError(ConfirmFailed)
    ensures ParseConfirm(data).Some? && db == null ==> reply == Formatter.FormatError(DbUnavailable)
    ensures db != null && !(ParseConfirm(data).Some? && ParseConfirm(data).value.0 == "clear_history" && !fault) ==>
      db.Contents() == old(db.Contents())
    ensures db != null && ParseConfirm(data).Some? ==>
      reply == if ParseConfirm(data).value.0 != "clear_history" then Formatter.FormatError(UnknownConfirm)
               else if fault then Formatter.FormatError(ClearFailed) else HistoryCleared
    ensures db != null && ParseConfirm(data).Some? && ParseConfirm(data).value.0 == "clear_history" && !fault ==>
      db.Contents() == MovieStore.WithoutHistoryOf(old(db.Contents()), userId)
  {
    var parsed := ParseConfirm(data);
    if parsed.None? {
      return Formatter.FormatError(ConfirmFailed);
    }
    if db == null {
      return Formatter.FormatError(DbUnavailable);
    }
    if parsed.value.0 == "clear_history" {
      var ok := db.ClearUserHistory(userId, fault);
      reply := if ok then HistoryCleared else Formatter.FormatError(ClearFailed);
    } else {
      reply := Formatter.FormatError(UnknownConfirm);
    }
  }

  /** The dictionary `format_movies_list` receives for a remembered entry:
      only its title is present. */
  function RecDict(r: Rec): Formatter.MovieDict {
    Formatter.MovieDict(
      if r.title.Some? then Formatter.Present(r.title.value) else Formatter.Null,
      Formatter.Missing, None, Formatter.Missing, Formatter.GenresMissing, None, None, None)
  }

  function RecDicts(recs: seq<Rec>): (ds: seq<Formatter.MovieDict>)
    ensures |ds| == |recs| && forall k :: 0 <= k < |recs| ==> ds[k] == RecDict(recs[k])
  {
    seq(|recs|, k requires 0 <= k < |recs| => RecDict(recs[k]))
  }

  /** `back_callback`: the reply for each target; nothing is changed. */
  method BackCallback(data: string, session: Session, formatRating: real -> string) returns (reply: string)
    ensures ParseBack(data).None? ==> reply == Formatter.FormatError(BackFailed)
    ensures ParseBack(data) == Some("main_menu") ==> reply == MainMenuText
    ensures ParseBack(data) == Some("recommendations_list") ==>
      if session.lastRecommendations.Some? && session.lastRecommendations.value != [] then
        reply == RecentHeader + Join("\n", Formatter.ListLines(RecDicts(session.lastRecommendations.value), formatRating))
      else reply == NoRecentText
    ensures ParseBack(data).Some? && ParseBack(data).value !in {"main_menu", "recommendations_list"} ==> reply == BackDoneText
  {
    var target := ParseBack(data);
    if target.None? {
      return Formatter.FormatError(BackFailed);
    }
    if target.value == "main_menu" {
      reply := MainMenuText;
    } else if target.value == "recommendations_list" {
      var recs := session.lastRecommendations.GetOr([]);
      if recs != [] {
        var list := Formatter.FormatMoviesList(RecDicts(recs), formatRating);
        reply := RecentHeader + list;
      } else {
        reply := NoRecentText;
      }
    } else {
      reply := BackDoneText;
    }
  }

  // ---------------------------------------------------------------------------
  // Properties: encoding and decoding

  lemma NoColonInNumber(i: int)
    ensures ':' !in IntToString(i) && 's' !in IntToString(i)
  {
  }

  lemma NotInDigits(t: string, c: char)
    requires AllDigits(t) && !IsDigit(c)
    ensures c !in t
  {
  }

  /** The three parts of `rate:{a}:{b}` when `a` has no colon. */
  lemma SplitRatingData(a: string, b: string)
    requires ':' !in a
    ensures SplitN("rate:" + a + ":" + b, ':', 2) == ["rate", a, b]
  {
    assert "rate:" + a + ":" + b == "rate" + [':'] + (a + [':'] + b);
    SplitNStep("rate", ':', a + [':'] + b, 2);
    SplitNStep(a, ':', b, 1);
  }

  /** Every rating button's data decodes to its movie id and score. */
  lemma RatingRoundTrip(movieId: int, score: int)
    ensures ParseRating(RatingData(movieId, score)) == Some((movieId, score))
  {
    NoColonInNumber(movieId);
    SplitRatingData(IntToString(movieId), IntToString(score));
    PyIntOfIntToString(movieId);
    PyIntOfIntToString(score);
  }

  /** A rating button for a non-negative id is routed to the rating handler. */
  lemma RatingDataIsRouted(movieId: int, score: int)
    requires movieId >= 0 && 0 <= score <= 10
    ensures RatePattern(RatingData(movieId, score))
  {
    var s := RatingData(movieId, score);
    var a := IntToString(movieId);
    var j := 5 + |a|;
    assert s[..5] == "rate:";
    assert s[5..j] == a;
    assert s[j] == ':';
    assert s[j + 1..] == IntToString(score);
    assert AllDigits(a) by { assert a == NatToString(movieId); }
    if score == 10 {
      assert IntToString(10) == "10";
    } else {
      assert IntToString(score) == [DigitChar(score)];
    }
  }

  lemma PyIntOfDigits(t: string)
    requires t != [] && AllDigits(t)
    ensures PyInt(t) == Some(DigitsValue(t))
  {
    DigitsNotSpace(t);
  }

  /** Any data the rating route accepts decodes, to a non-negative id and a
      score from 0 to 10. */
  lemma RoutedRatingDecodes(s: string)
    requires RatePattern(s)
    ensures ParseRating(s).Some?
    ensures ParseRating(s).value.0 >= 0 && 0 <= ParseRating(s).value.1 <= 10
  {
    var j :| 5 < j < |s| && s[j] == ':' && AllDigits(s[5..j]) && ScoreText(s[j + 1..]);
    var a := s[5..j];
    var b := s[j + 1..];
    assert s[..5] == "rate:";
    assert s == s[..5] + a + [s[j]] + b;
    DigitsAndScoreDecode(a, b);
  }

  lemma DigitsAndScoreDecode(a: string, b: string)
    requires a != [] && AllDigits(a) && ScoreText(b)
    ensures var r := ParseRating("rate:" + a + ":" + b);
      r.Some? && r.value.0 >= 0 && 0 <= r.value.1 <= 10
  {
    NotInDigits(a, ':');
    SplitRatingData(a, b);
    PyIntOfDigits(a);
    ScoreValue(b);
  }

  lemma ScoreValue(b: string)
    requires ScoreText(b)
    ensures AllDigits(b) && PyInt(b).Some? && 0 <= PyInt(b).value <= 10
  {
    PyIntOfDigits(b);
    if b != "10" {
      assert DigitsValue(b) == DigitValue(b[0]) by { assert b[..0] == []; }
    } else {
      var one := b[..1];
      assert one[..0] == [];
      assert DigitsValue(one) == 1;
    }
  }

  /** The save and details buttons' data decode to their id. */
  lemma SaveRoundTrip(id: int)
    ensures ParseId(SaveData(id)) == Some(id)
    ensures ParseId(DetailsData(id)) == Some(id)
  {
    NoColonInNumber(id);
    SplitNStep("save", ':', IntToString(id), 1);
    assert SaveData(id) == "save" + [':'] + IntToString(id);
    SplitNStep("details", ':', IntToString(id), 1);
    assert DetailsData(id) == "details" + [':'] + IntToString(id);
    PyIntOfIntToString(id);
  }

  /** Any data the save route accepts decodes to the number after the prefix. */
  lemma RoutedSaveDecodes(s: string)
    requires SavePattern(s)
    ensures ParseId(s) == Some(DigitsValue(s[5..]) as int)
  {
    var t := s[5..];
    NotInDigits(t, ':');
    assert s == "save" + [':'] + t;
    SplitNStep("save", ':', t, 1);
    PyIntOfDigits(t);
  }

  /** The select button's data decodes to its id. */
  lemma SelectRoundTrip(id: int)
    ensures ParseSelect(SelectData(id)) == Some(id)
  {
    var t := IntToString(id);
    var s := SelectData(id);
    assert s[..|SelectPrefix|] == SelectPrefix && s[|SelectPrefix|..] == t;
    NoColonInNumber(id);
    RemoveAllAbsent(t, SelectPrefix);
    PyIntOfIntToString(id);
  }

  /** Any data the select route accepts decodes to the number after the prefix. */
  lemma RoutedSelectDecodes(s: string)
    requires SelectPattern(s)
    ensures ParseSelect(s) == Some(DigitsValue(s[|SelectPrefix|..]) as int)
  {
    var t := s[|SelectPrefix|..];
    NotInDigits(t, 's');
    RemoveAllAbsent(t, SelectPrefix);
    PyIntOfDigits(t);
  }

  /** The "yes" data decodes to the action and payload when the action has no
      colon; the payload may hold any text. */
  lemma ConfirmRoundTrip(action: string, payload: string)
    requires ':' !in action
    ensures ParseConfirm(ConfirmData(action, payload)) == Some((action, payload))
  {
    assert ConfirmData(action, payload) == "confirm" + [':'] + (action + [':'] + payload);
    SplitNStep("confirm", ':', action + [':'] + payload, 2);
    SplitNStep(action, ':', payload, 1);
  }

  /** With a colon in the action the split point moves: the action is cut at
      its colon and the rest goes to the payload. */
  lemma ConfirmActionWithColon()
    ensures ParseConfirm(ConfirmData("a:b", "c")) == Some(("a", "b:c"))
  {
    assert ConfirmData("a:b", "c") == "confirm" + [':'] + ("a" + [':'] + "b:c");
    SplitNStep("confirm", ':', "a" + [':'] + "b:c", 2);
    SplitNStep("a", ':', "b:c", 1);
  }

  /** The confirm route also accepts data with no payload part, which the
      handler then rejects. */
  lemma RoutedConfirmMayBeRejected()
    ensures ConfirmPattern("confirm:x") && ParseConfirm("confirm:x").None?
  {
    assert "confirm:x"[..8] == "confirm:";
    assert "confirm:x" == "confirm" + [':'] + "x";
    SplitNStep("confirm", ':', "x", 2);
    SplitNWhole("x", ':', 1);
  }

  /** The back button's data decodes to its target, colons included. */
  lemma BackRoundTrip(target: string)
    ensures ParseBack(BackData(target)) == Some(target)
  {
    assert BackData(target) == "back" + [':'] + target;
    SplitNStep("back", ':', target, 1);
  }

  // ---------------------------------------------------------------------------
  // Properties: the `last_recommendations` filter

  /** The filter keeps every entry in place when none has the rated id, and
      filtering again by the same id removes nothing more. */
  lemma WithoutMovieProperties(recs: seq<Rec>, id: int)
    ensures (forall k :: 0 <= k < |recs| ==> recs[k].dbId != id) ==> WithoutMovie(recs, id) == recs
    ensures WithoutMovie(WithoutMovie(recs, id), id) == WithoutMovie(recs, id)
  {
    if forall k :: 0 <= k < |recs| ==> recs[k].dbId != id {
      EverythingSelected(recs, (x: Rec) => x.dbId != id);
    }
    FilterFilter(recs, (x: Rec) => x.dbId != id, (x: Rec) => x.dbId != id);
  }

  /** Filtering the concatenation of two lists filters each in place, so the
      kept entries stay in their order. */
  lemma WithoutMovieKeepsOrder(a: seq<Rec>, b: seq<Rec>, id: int)
    ensures WithoutMovie(a + b, id) == WithoutMovie(a, id) + WithoutMovie(b, id)
  {
    FilterAppend(a, b, (x: Rec) => x.dbId != id);
  }

  /** Going back to the list shows each remembered title with a dash for the
      year and the rating, which the entries do not carry. */
  lemma BackListLine(k: nat, r: Rec, formatRating: real -> string)
    ensures Formatter.ListLine(k + 1, RecDict(r), formatRating)
            == IntToString(k + 1) + ". *" + (if r.title.Some? then r.title.value else "None") + "* — "
               + Formatter.Dash + ", ⭐ " + Formatter.Dash + "/10"
  {
  }
}

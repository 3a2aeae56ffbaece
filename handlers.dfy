/** Command and message handlers (tg_bot/handlers.py): the text-message
    handler's validation gate and its rebuild of `last_recommendations`, the
    `/rate` candidate selection, and the title sanitiser. Replies are modelled
    by their text; photos, keyboards other than the candidate list and chat
    actions are not. */
module Handlers {
  import opened Wrappers
  import opened Text
  import opened Seqs
  import Keyboards
  import Formatter
  import Validator
  import MovieStore
  import Tmdb
  import Engine
  import opened Callbacks

  const InitError := "Ошибка инициализации бота. Пожалуйста, сообщите администратору."
  const SearchingText := "🔍 Ищу рекомендации..."
  const NoLlmText := "Не удалось получить ответ."
  const WhatElseText := "Что ещё вас интересует?"
  const NotFoundText := "Извините, не удалось найти подходящие фильмы. Попробуйте переформулировать запрос."
  const SorryPrefix := "Извините, "
  const NothingToRateText := "У вас нет недавних фильмов, которые можно оценить. Пожалуйста, запросите новые фильмы или просмотрите историю."
  const HistoryLimit := 20

  // ---------------------------------------------------------------------------
  // format_movie_title_for_display

  /** `s.replace(c, '')` for one character. */
  function RemoveChar(s: string, c: char): (r: string)
    ensures forall d :: d in r <==> d in s && d != c
  {
    if s == [] then [] else (if s[0] == c then [] else [s[0]]) + RemoveChar(s[1..], c)
  }

  predicate IsMarkup(c: char) {
    c == '*' || c == '_' || c == '`'
  }

  /** `format_movie_title_for_display`: three chained replacements. */
  function FormatMovieTitleForDisplay(title: string): (r: string)
    ensures forall d :: d in r <==> d in title && !IsMarkup(d)
  {
    RemoveChar(RemoveChar(RemoveChar(title, '*'), '_'), '`')
  }

  lemma {:induction false} RemoveCharAppend(a: string, b: string, c: char)
    ensures RemoveChar(a + b, c) == RemoveChar(a, c) + RemoveChar(b, c)
  {
    if a != [] {
      assert (a + b)[1..] == a[1..] + b;
      RemoveCharAppend(a[1..], b, c);
    } else {
      assert a + b == b;
    }
  }

  /** The chained replacements keep exactly the characters other than '*',
      '_' and '`', each in its place: nothing else is removed or reordered. */
  lemma {:induction false} DisplayTitleIsFilter(title: string)
    ensures FormatMovieTitleForDisplay(title) == Filter(title, (c: char) => !IsMarkup(c))
  {
    if title != [] {
      var x := title[0];
      var rest := title[1..];
      DisplayTitleIsFilter(rest);
      var one := RemoveChar(title, '*');
      assert one == (if x == '*' then [] else [x]) + RemoveChar(rest, '*');
      var two := RemoveChar(one, '_');
      RemoveCharAppend(if x == '*' then [] else [x], RemoveChar(rest, '*'), '_');
      var head := RemoveChar(RemoveChar(if x == '*' then [] else [x], '_'), '`');
      RemoveCharAppend(RemoveChar(if x == '*' then [] else [x], '_'), RemoveChar(RemoveChar(rest, '*'), '_'), '`');
      assert head == if IsMarkup(x) then [] else [x];
      assert FormatMovieTitleForDisplay(title) == head + FormatMovieTitleForDisplay(rest);
    }
  }

  // ---------------------------------------------------------------------------
  // handle_text_message

  /** The caption year: the text before the first '-' of a truthy date of at
      least four characters, else "N/A". */
  function CaptionYear(date: Option<string>): (y: string)
    ensures date.Some? && |date.value| >= 4 ==> |y| <= |date.value| && y == date.value[..|y|] && '-' !in y
    ensures !(date.Some? && |date.value| >= 4) ==> y == "N/A"
  {
    if date.Some? && |date.value| >= 4 then
      Formatter.YearIsPrefix(date.value);
      SplitAll(date.value, '-')[0]
    else "N/A"
  }

  function Caption(m: Tmdb.MovieDetails): string {
    "🎬 **" + (if m.title.Some? then m.title.value else "None") + "** (" + CaptionYear(m.releaseDate) + ")"
  }

  function Captions(ms: seq<Tmdb.MovieDetails>): (cs: seq<string>)
    ensures |cs| == |ms| && forall k :: 0 <= k < |ms| ==> cs[k] == Caption(ms[k])
  {
    seq(|ms|, k requires 0 <= k < |ms| => Caption(ms[k]))
  }

  /** The remembered entry for one recommended movie: present only when the
      store has a truthy id for its TMDB id. */
  function RecOf(movies: seq<MovieStore.MovieRow>, m: Tmdb.MovieDetails): (r: seq<Rec>)
    ensures |r| <= 1
    ensures forall x :: x in r <==>
      var id := MovieStore.IdOfTmdb(movies, m.tmdbId);
      id.Some? && id.value != 0 && x == Rec(m.title, m.tmdbId, id.value)
  {
    match MovieStore.IdOfTmdb(movies, m.tmdbId)
    case Some(id) => if id != 0 then [Rec(m.title, m.tmdbId, id)] else []
    case None => []
  }

  /** The rebuilt `last_recommendations`, one recommended movie at a time. */
  function Rebuilt(movies: seq<MovieStore.MovieRow>, recs: seq<Tmdb.MovieDetails>): (r: seq<Rec>)
    ensures |r| <= |recs|
  {
    if recs == [] then [] else RecOf(movies, recs[0]) + Rebuilt(movies, recs[1..])
  }

  /** An entry is remembered exactly when some recommended movie yields it:
      the movies the store knows, with their store id. */
  lemma {:induction false} RebuiltMembers(movies: seq<MovieStore.MovieRow>, recs: seq<Tmdb.MovieDetails>, x: Rec)
    ensures x in Rebuilt(movies, recs) <==> exists j :: 0 <= j < |recs| && x in RecOf(movies, recs[j])
  {
    if recs != [] {
      RebuiltMembers(movies, recs[1..], x);
      if exists j :: 0 <= j < |recs| && x in RecOf(movies, recs[j]) {
        var j :| 0 <= j < |recs| && x in RecOf(movies, recs[j]);
        if j > 0 {
          assert recs[1..][j - 1] == recs[j];
        }
      }
      if x in Rebuilt(movies, recs[1..]) {
        var j :| 0 <= j < |recs[1..]| && x in RecOf(movies, recs[1..][j]);
        assert recs[j + 1] == recs[1..][j];
      }
    }
  }

  /** Rebuilding over a concatenation rebuilds each part in place. */
  lemma {:induction false} RebuiltAppend(movies: seq<MovieStore.MovieRow>, a: seq<Tmdb.MovieDetails>, b: seq<Tmdb.MovieDetails>)
    ensures Rebuilt(movies, a + b) == Rebuilt(movies, a) + Rebuilt(movies, b)
    decreases |a|
  {
    if a != [] {
      assert (a + b)[1..] == a[1..] + b;
      assert (a + b)[0] == a[0];
      RebuiltAppend(movies, a[1..], b);
    } else {
      assert a + b == b;
    }
  }

  lemma RebuildStep(movies: seq<MovieStore.MovieRow>, recs: seq<Tmdb.MovieDetails>, i: nat)
    requires i < |recs|
    ensures Rebuilt(movies, recs[..i + 1]) == Rebuilt(movies, recs[..i]) + RecOf(movies, recs[i])
    ensures Captions(recs[..i + 1]) == Captions(recs[..i]) + [Caption(recs[i])]
  {
    assert recs[..i + 1] == recs[..i] + [recs[i]];
    RebuiltAppend(movies, recs[..i], [recs[i]]);
    assert [recs[i]][1..] == [];
  }

  /** `handle_text_message`. `validator` is the validator's `min_length`, or
      None when no validator is registered; `engineReady` says whether an
      engine is registered. The engine's oracles are passed through.
      `result` is the engine's result dictionary, or None when the engine is
      not called. The state returned is always RECOMMENDATION. */
  method HandleTextMessage(message: string, userId: int, session: Session, engineReady: bool,
                           validator: Option<int>, db: MovieStore.MovieDatabase?,
                           candidateReply: string, finalReply: seq<string> -> string, svc: Engine.Services)
    returns (state: State, replies: seq<string>, result: Option<Engine.Response>)
    requires db != null ==> db.Valid()
    modifies session, db
    ensures state == Recommendation
    ensures db != null ==> db.Valid()
    ensures session.movieToRate == old(session.movieToRate)
    ensures session.lastUserQueryForFeedback == old(session.lastUserQueryForFeedback)
    ensures !engineReady || validator.None? || db == null ==>
      && replies == [Formatter.FormatError(InitError)] && result.None?
      && session.lastUserQuery == old(session.lastUserQuery)
      && session.lastRecommendations == old(session.lastRecommendations)
      && (db != null ==> db.Contents() == old(db.Contents()))
    ensures engineReady && validator.Some? && db != null && !Validator.IsValid(validator.value, Strip(message)) ==>
      && replies == [SorryPrefix + Validator.InvalidReason(validator.value, Strip(message))] && result.None?
      && session.lastUserQuery == old(session.lastUserQuery)
      && session.lastRecommendations == old(session.lastRecommendations)
      && db.Contents() == old(db.Contents())
    ensures engineReady && validator.Some? && db != null && Validator.IsValid(validator.value, Strip(message)) ==>
      && session.lastUserQuery == Some(Strip(message))
      && result.Some? && replies != [] && replies[0] == SearchingText
      && var response := result.value;
         if response.error.Some? then
           replies == [SearchingText, Formatter.FormatError(response.error.value)]
           && session.lastRecommendations == old(session.lastRecommendations)
         else if response.recommendations.Some? && response.recommendations.value != [] then
           replies == [SearchingText, response.llmResponse.GetOr(NoLlmText)] + Captions(response.recommendations.value) + [WhatElseText]
           && session.lastRecommendations == Some(Rebuilt(db.movies, response.recommendations.value))
         else
           replies == [SearchingText, NotFoundText]
           && session.lastRecommendations == old(session.lastRecommendations)
  {
    var query := Strip(message);
    result := None;
    if !engineReady || validator.None? || db == null {
      return Recommendation, [Formatter.FormatError(InitError)], None;
    }
    var (ok, reason) := Validator.ValidateOrExplain(validator.value, query);
    if !ok {
      return Recommendation, [SorryPrefix + reason], None;
    }
    session.lastUserQuery := Some(query);
    var response := Engine.GenerateRecommendations(db, query, userId, candidateReply, finalReply, svc);
    result := Some(response);
    replies := ReplyToResponse(response, session, db);
    state := Recommendation;
  }

  /** The replies to the engine's result dictionary, after "searching":
      the error, or the recommendations (remembered for rating), or "not found". */
  method ReplyToResponse(response: Engine.Response, session: Session, db: MovieStore.MovieDatabase)
    returns (replies: seq<string>)
    modifies session
    ensures session.movieToRate == old(session.movieToRate)
    ensures session.lastUserQueryForFeedback == old(session.lastUserQueryForFeedback)
    ensures session.lastUserQuery == old(session.lastUserQuery)
    ensures replies != [] && replies[0] == SearchingText
    ensures if response.error.Some? then
           replies == [SearchingText, Formatter.FormatError(response.error.value)]
           && session.lastRecommendations == old(session.lastRecommendations)
         else if response.recommendations.Some? && response.recommendations.value != [] then
           replies == [SearchingText, response.llmResponse.GetOr(NoLlmText)] + Captions(response.recommendations.value) + [WhatElseText]
           && session.lastRecommendations == Some(Rebuilt(db.movies, response.recommendations.value))
         else
           replies == [SearchingText, NotFoundText]
           && session.lastRecommendations == old(session.lastRecommendations)
  {
    if response.error.Some? {
      replies := [SearchingText, Formatter.FormatError(response.error.value)];
    } else if response.recommendations.Some? && response.recommendations.value != [] {
      var recs := response.recommendations.value;
      var remembered, captions := RebuildRecommendations(db, recs);
      session.lastRecommendations := Some(remembered);
      replies := [SearchingText, response.llmResponse.GetOr(NoLlmText)] + captions + [WhatElseText];
    } else {
      replies := [SearchingText, NotFoundText];
    }
  }

  /** The loop over the recommended movies: one caption each, and an entry
      remembered for each movie the store has an id for. */
  method RebuildRecommendations(db: MovieStore.MovieDatabase, recs: seq<Tmdb.MovieDetails>)
    returns (remembered: seq<Rec>, captions: seq<string>)
    ensures remembered == Rebuilt(db.movies, recs)
    ensures captions == Captions(recs)
  {
    remembered, captions := [], [];
    for i := 0 to |recs|
      invariant remembered == Rebuilt(db.movies, recs[..i])
      invariant captions == Captions(recs[..i])
    {
      RebuildStep(db.movies, recs, i);
      var movieDbId := db.GetMovieIdByTmdbId(recs[i].tmdbId);
      assert movieDbId == MovieStore.IdOfTmdb(db.movies, recs[i].tmdbId);
      if movieDbId.Some? && movieDbId.value != 0 {
        remembered := remembered + [Rec(recs[i].title, recs[i].tmdbId, movieDbId.value)];
      }
      captions := captions + [Caption(recs[i])];
    }
    assert recs[..|recs|] == recs;
  }

  /** Where the date has four characters or more the caption shows the same
      year as the movie card; otherwise the caption shows "N/A" where the
      card shows the dash. */
  lemma CaptionYearMatchesCard(date: Option<string>)
    ensures date.Some? && |date.value| >= 4 ==> CaptionYear(date) == Formatter.ReleaseYear(Formatter.Present(date.value))
    ensures date.Some? && |date.value| < 4 ==>
      CaptionYear(date) == "N/A" && Formatter.ReleaseYear(Formatter.Present(date.value)) == Formatter.Dash
  {
  }

  // ---------------------------------------------------------------------------
  // rate_command

  /** An entry of the `/rate` list: store id and title. */
  datatype Candidate = Candidate(dbId: int, title: string)

  function RatedIds(ratings: seq<MovieStore.RatedMovie>): set<int> {
    set r | r in ratings :: r.movieId
  }

  /** The candidates from `history`, front to back, for ids not in `seen`:
      each truthy, unrated id whose movie is stored, once. */
  function CandidatesFrom(history: seq<MovieStore.HistoryEntry>, rated: set<int>,
                          movies: seq<MovieStore.MovieRow>, seen: set<int>): (r: seq<Candidate>)
    ensures forall k :: 0 <= k < |r| ==>
      && r[k].dbId != 0 && r[k].dbId !in rated && r[k].dbId !in seen
      && MovieStore.FindById(movies, r[k].dbId).Some?
      && exists j :: 0 <= j < |history| && history[j].movieId == r[k].dbId
    ensures forall i, j :: 0 <= i < j < |r| ==> r[i].dbId != r[j].dbId
    decreases |history|
  {
    if history == [] then []
    else
      var id := history[0].movieId;
      var found := if id != 0 && id !in rated && id !in seen then MovieStore.FindById(movies, id) else None;
      var seen' := if found.Some? then seen + {id} else seen;
      var rest := CandidatesFrom(history[1..], rated, movies, seen');
      assert forall k :: 0 <= k < |rest| ==> exists j :: 1 <= j < |history| && history[j].movieId == rest[k].dbId by {
        forall k | 0 <= k < |rest| ensures exists j :: 1 <= j < |history| && history[j].movieId == rest[k].dbId {
          var j' :| 0 <= j' < |history[1..]| && history[1..][j'].movieId == rest[k].dbId;
          assert history[j' + 1] == history[1..][j'];
        }
      }
      if found.Some? then [Candidate(id, found.value.title)] + rest else rest
  }

  /** Some candidate has that store id. */
  predicate Offers(r: seq<Candidate>, id: int) {
    exists k :: 0 <= k < |r| && r[k].dbId == id
  }

  /** Every truthy, unrated, stored id of the history is offered unless it
      was already seen. */
  lemma {:induction false} CandidatesComplete(history: seq<MovieStore.HistoryEntry>, rated: set<int>,
                                              movies: seq<MovieStore.MovieRow>, seen: set<int>, j: nat)
    requires j < |history|
    requires history[j].movieId != 0 && history[j].movieId !in rated
    requires MovieStore.FindById(movies, history[j].movieId).Some?
    ensures history[j].movieId in seen || Offers(CandidatesFrom(history, rated, movies, seen), history[j].movieId)
    decreases |history|
  {
    var r := CandidatesFrom(history, rated, movies, seen);
    var target := history[j].movieId;
    var id := history[0].movieId;
    var found := if id != 0 && id !in rated && id !in seen then MovieStore.FindById(movies, id) else None;
    var seen' := if found.Some? then seen + {id} else seen;
    var rest := CandidatesFrom(history[1..], rated, movies, seen');
    assert r == if found.Some? then [Candidate(id, found.value.title)] + rest else rest;
    if j == 0 {
      if id !in seen {
        assert r[0].dbId == target;
      }
    } else {
      assert history[1..][j - 1] == history[j];
      CandidatesComplete(history[1..], rated, movies, seen', j - 1);
      if target in seen' && target !in seen {
        assert r[0].dbId == target;
      } else if target !in seen' && found.Some? {
        OffersAfter([Candidate(id, found.value.title)], rest, target);
      }
    }
  }

  lemma OffersAfter(front: seq<Candidate>, rest: seq<Candidate>, id: int)
    requires Offers(rest, id)
    ensures Offers(front + rest, id)
  {
    var k :| 0 <= k < |rest| && rest[k].dbId == id;
    assert (front + rest)[|front| + k] == rest[k];
  }

  function CandidateKeyboard(cs: seq<Candidate>): (rows: seq<seq<Keyboards.Button>>)
    ensures |rows| == |cs|
    ensures forall k :: 0 <= k < |cs| ==> |rows[k]| == 1 && ParseSelect(rows[k][0].data) == Some(cs[k].dbId)
  {
    forall k | 0 <= k < |cs| ensures ParseSelect(SelectData(cs[k].dbId)) == Some(cs[k].dbId) {
      SelectRoundTrip(cs[k].dbId);
    }
    seq(|cs|, k requires 0 <= k < |cs| => [Keyboards.Button(cs[k].title, SelectData(cs[k].dbId))])
  }

  /** The loop of `rate_command`: each history entry's movie once, skipping
      rated movies, the falsy id and movies the store no longer has. */
  method CollectCandidates(history: seq<MovieStore.HistoryEntry>, rated: set<int>, db: MovieStore.MovieDatabase)
    returns (candidates: seq<Candidate>)
    ensures candidates == CandidatesFrom(history, rated, db.movies, {})
  {
    candidates := [];
    var seen: set<int> := {};
    for i := 0 to |history|
      invariant candidates + CandidatesFrom(history[i..], rated, db.movies, seen)
                == CandidatesFrom(history, rated, db.movies, {})
    {
      assert history[i..][1..] == history[i + 1..];
      var id := history[i].movieId;
      if id != 0 && id !in rated && id !in seen {
        var details := db.GetMovie(id);
        if details.Some? {
          candidates := candidates + [Candidate(id, details.value.title)];
          seen := seen + {id};
        }
      }
    }
    assert history[|history|..] == [];
  }

  /** `rate_command`: the candidates from the user's last 20 history entries;
      the conversation ends when there is none and otherwise moves on to
      RATING_SELECT_MOVIE with one button per candidate. */
  method RateCommand(userId: int, db: MovieStore.MovieDatabase?)
    returns (state: State, reply: string, candidates: seq<Candidate>, keyboard: seq<seq<Keyboards.Button>>)
    ensures db == null ==> state == Recommendation && reply == Formatter.FormatError(InitError) && candidates == []
    ensures db != null ==>
      && candidates == CandidatesFrom(db.GetUserHistory(userId, HistoryLimit, None),
                                      RatedIds(db.GetUserRatings(userId)), db.movies, {})
      && state == (if candidates == [] then End else RatingSelectMovie)
      && (candidates == [] ==> reply == NothingToRateText)
      && keyboard == CandidateKeyboard(candidates)
  {
    if db == null {
      return Recommendation, Formatter.FormatError(InitError), [], [];
    }
    var history := db.GetUserHistory(userId, HistoryLimit, None);
    var rated := RatedIds(db.GetUserRatings(userId));
    candidates := CollectCandidates(history, rated, db);
    keyboard := CandidateKeyboard(candidates);
    if candidates == [] {
      return End, NothingToRateText, [], keyboard;
    }
    state, reply := RatingSelectMovie, "Какой фильм вы хотите оценить?";
  }
}

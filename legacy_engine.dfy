/** The legacy engine object (recommendation.py, `RecommendationEngine`):
    the chosen model, the proxy flag it turns on after a location error,
    the three attempts at the first model call, the error reply, and
    `generate_recommendations` put together from its parts. */
module LegacyEngine {
  import opened Wrappers
  import opened Text
  import LegacySelection
  import Retry
  import LegacyContext
  import LegacyTitles
  import LegacyPipeline

  type Reply = LegacyPipeline.Reply

  const SystemPrompt := "Ты - помощник по рекомендации фильмов. При рекомендации фильмов:\n\nВАЖНО:\n1. Указывай ТОЛЬКО реальные существующие фильмы с точными названиями\n2. Обязательно указывай год выпуска фильма в скобках после названия\n3. Проверяй точность названий - не выдумывай фильмы\n4. Форматируй названия как: **\"Точное название фильма\" (Год)**\n5. Рекомендуй 3-5 разнообразных фильмов\n6. Избегай фильмов одного режиссера или франшизы, если не просят конкретно\n7. Предпочитай разнообразие жанров, годов и стилей\n8. Кратко объясни, почему каждый фильм подходит под запрос\n9. ИСПОЛЬЗУЙ предоставленную информацию из TMDB для точных рекомендаций\n10. Если в запросе есть информация о конкретных актерах/режиссерах из TMDB, обязательно учитывай их фильмографию\n\nФормат ответа:\nВступительная фраза...\n\n**\"Название фильма 1\" (Год)**. Краткое объяснение почему подходит.\n\n**\"Название фильма 2\" (Год)**. Краткое объяснение почему подходит.\n\nИ так далее...\n\nОтвечай на русском языке."
  const RequestIntro := "\n\nПожалуйста, порекомендуй фильмы на основе этого запроса: "

  /** The prompt of the first call: the fixed instructions and the enhanced request. */
  function FullPrompt(enhanced: string): string {
    SystemPrompt + RequestIntro + enhanced
  }

  const PopularMovies := "1. \"Интерстеллар\" (2014) - научно-фантастический фильм о космических путешествиях\n2. \"Зеленая миля\" (1999) - драма о надзирателе в тюрьме и заключенном с необычными способностями\n3. \"Остров проклятых\" (2010) - психологический триллер с неожиданной концовкой\n4. \"Бойцовский клуб\" (1999) - культовый фильм о тайном обществе\n5. \"Начало\" (2010) - фильм о проникновении в сны людей"
  const BlockedHead := "Извините, но API Google Gemini недоступно в вашем регионе.\n\nРекомендуемые решения:\n1. Используйте VPN для доступа к API\n2. Используйте другой API ключ, полученный через аккаунт в поддерживаемом регионе\n3. Обратитесь к администратору для настройки прокси-сервера\n\nВ качестве временной альтернативы, вот некоторые популярные фильмы"
  const LocationHelpHead := "Доступ к Google Gemini API запрещен из вашего региона.\n\nРекомендуемые решения:\n1. Используйте VPN для доступа к API\n2. Используйте другой API ключ из поддерживаемого региона\n3. Обратитесь к администратору для настройки альтернативного API\n\nВ качестве временной альтернативы, вот некоторые популярные фильмы"

  /** The answer given when the region is blocked; the one returned after
      the last attempt names the user's request. */
  function BlockedText(query: string, mentionsQuery: bool): string {
    BlockedHead + (if mentionsQuery then " по запросу \"" + query + "\"" else "") + ":\n" + PopularMovies
  }

  const LocationHelp := LocationHelpHead + ":\n" + PopularMovies
  const RateLimitText := "Превышен лимит запросов к API. Пожалуйста, попробуйте позже."
  const ModelMissingText := "Модель не найдена. Возможно, выбранная модель недоступна для вашего API ключа."
  const ErrorIntro := "Извините, произошла ошибка при получении рекомендаций: "
  const QuotaText := "Превышена квота API. Попробуйте позже."
  const LocationError := "Location not supported"

  // ---------------------------------------------------------------------------
  // The attempts at the first call

  const MaxAttempts := 3
  const FirstDelay := 2

  predicate IsRateLimit(message: string) {
    Contains(message, "429")
  }

  predicate IsLocationBlock(message: string) {
    Contains(message, "403") || Contains(message, "User location is not supported")
  }

  /** How the attempts end: with the model's text, with the blocked-region
      answer, with an exception passed on to the outer handler, or by
      running out of attempts (the `for ... else` branch). */
  datatype Attempted = Answered(text: string) | Blocked(mentionsQuery: bool) | Failed(message: string) | Exhausted

  /** The outcome, the delays slept before retrying, and the proxy flag afterwards. */
  datatype AttemptRun = AttemptRun(result: Attempted, sleeps: seq<nat>, useProxy: bool)

  /** The attempts from `attempt` on, with the proxy flag and the next
      delay as they are; `reply(n)` is the model call of attempt `n` and
      `proxyFound(n)` whether a working proxy is found before it. */
  function Attempts(attempt: nat, useProxy: bool, delay: nat, reply: nat -> Reply, proxyFound: nat -> bool): AttemptRun
    decreases MaxAttempts - attempt
  {
    if attempt >= MaxAttempts then AttemptRun(Exhausted, [], useProxy)
    else if useProxy && proxyFound(attempt) then AttemptRun(Blocked(false), [], useProxy)
    else
      match reply(attempt)
      case Answer(text) => AttemptRun(Answered(text), [], useProxy)
      case Raised(m) =>
        if IsRateLimit(m) && attempt < MaxAttempts - 1 then
          Prefixed([delay], Attempts(attempt + 1, useProxy, delay * 2, reply, proxyFound))
        else if IsLocationBlock(m) then
          if attempt == MaxAttempts - 1 then AttemptRun(Blocked(true), [], true)
          else Attempts(attempt + 1, true, delay, reply, proxyFound)
        else AttemptRun(Failed(m), [], useProxy)
  }

  /** A run with `s` slept before it. */
  function Prefixed(s: seq<nat>, run: AttemptRun): AttemptRun {
    run.(sleeps := s + run.sleeps)
  }

  lemma PrefixedTwice(s: seq<nat>, t: seq<nat>, run: AttemptRun)
    ensures Prefixed(s, Prefixed(t, run)) == Prefixed(s + t, run)
  {
    assert s + (t + run.sleeps) == (s + t) + run.sleeps;
  }

  /** The user-facing explanation of an error message. */
  function FriendlyMessage(message: string): string {
    if IsLocationBlock(message) then LocationHelp
    else if IsRateLimit(message) then RateLimitText
    else if Contains(message, "404") then ModelMissingText
    else message
  }

  function ErrorReply(message: string): string {
    ErrorIntro + FriendlyMessage(message)
  }

  /** What `generate_recommendations` returns: the answer text, the
      accepted movies and, on the error paths, the error. */
  datatype Response = Response(text: string, recs: seq<LegacyPipeline.Details>, error: Option<string>)

  /** The request's answer and the proxy flag afterwards. */
  datatype Generation = Generation(response: Response, useProxy: bool)

  /** The titles the user has rated, read only for a user. */
  function ExcludedTitles(userId: Option<int>, ratings: seq<LegacyContext.RatedMovie>): seq<string> {
    if userId.None? || userId.value == 0 then [] else LegacyContext.Titles(ratings)
  }

  /** An exception that reaches the outer handler. */
  function Handled(message: string, useProxy: bool): Generation {
    Generation(Response(ErrorReply(message), [], Some(message)), useProxy || IsLocationBlock(message))
  }

  /** `generate_recommendations` from the model's answer on. */
  function AnsweredResponse(text: string, excluded: seq<string>, env: LegacyPipeline.Env): Response {
    var titles := LegacyTitles.Extracted(text, env.fallback(text));
    var first := LegacyPipeline.FirstPassOf(LegacyPipeline.Start(titles), titles, excluded, env);
    var out := LegacyPipeline.Retries(first, text, 0, excluded, env);
    Response(out.response + LegacyPipeline.FinalNote(out.tally, out.rounds), out.tally.recs, None)
  }

  /** The prompt of the first call for this user. */
  function Prompt(enriched: string, userId: Option<int>, prefs: seq<LegacyContext.Preference>, ratings: seq<LegacyContext.RatedMovie>): string {
    FullPrompt(LegacyContext.EnhancedQuery(enriched, userId, prefs, ratings))
  }

  /** The model calls of the attempts, all with the same prompt. */
  function CallsWith(prompt: string, calls: (string, nat) -> Reply): nat -> Reply {
    (n: nat) => calls(prompt, n)
  }

  /** `generate_recommendations` for the request `query`, enriched by TMDB
      as `enriched`; `calls(prompt, n)` is the model's reply to attempt `n`. */
  function Generated(
    query: string, enriched: string, userId: Option<int>,
    prefs: seq<LegacyContext.Preference>, ratings: seq<LegacyContext.RatedMovie>,
    calls: (string, nat) -> Reply, proxyFound: nat -> bool, env: LegacyPipeline.Env, useProxy: bool): Generation
  {
    var run := Attempts(0, useProxy, FirstDelay, CallsWith(Prompt(enriched, userId, prefs, ratings), calls), proxyFound);
    Concluded(query, run.result, run.useProxy, ExcludedTitles(userId, ratings), env)
  }

  /** The request's answer once the attempts ended with `result` and the
      proxy flag `useProxy`. */
  function Concluded(query: string, result: Attempted, useProxy: bool, excluded: seq<string>, env: LegacyPipeline.Env): Generation {
    match result
    case Blocked(mentions) => Generation(Response(BlockedText(query, mentions), [], Some(LocationError)), useProxy)
    case Failed(m) => Handled(m, useProxy)
    case Exhausted => Handled(QuotaText, useProxy)
    case Answered(text) => Generation(AnsweredResponse(text, excluded, env), useProxy)
  }

  class RecommendationEngine {
    /** The name of the model requests go to. */
    var model: string
    /** Set after a location error; then a working proxy is looked for before each attempt. */
    var useProxy: bool

    /** The engine starts without the proxy flag, with the model the
        selection picks from the listing (`None` when listing raised). */
    constructor (models: Option<seq<LegacySelection.ModelInfo>>)
      ensures model == LegacySelection.ChosenModel(models) && !useProxy
    {
      var name := LegacySelection.SelectModel(models);
      model := name;
      useProxy := false;
    }

    /** The `for attempt in range(max_retries)` loop around the first model call. */
    method CallModel(reply: nat -> Reply, proxyFound: nat -> bool) returns (result: Attempted, sleeps: seq<nat>)
      modifies this
      ensures Attempts(0, old(useProxy), FirstDelay, reply, proxyFound) == AttemptRun(result, sleeps, useProxy)
      ensures model == old(model)
    {
      var delay: nat := FirstDelay;
      sleeps := [];
      var attempt := 0;
      while attempt < MaxAttempts
        invariant attempt <= MaxAttempts && model == old(model)
        invariant Attempts(0, old(useProxy), FirstDelay, reply, proxyFound)
          == Prefixed(sleeps, Attempts(attempt, useProxy, delay, reply, proxyFound))
        decreases MaxAttempts - attempt
      {
        if useProxy && proxyFound(attempt) {
          return Blocked(false), sleeps;
        }
        var r := reply(attempt);
        if r.Answer? {
          return Answered(r.text), sleeps;
        }
        var m := r.message;
        if IsRateLimit(m) && attempt < MaxAttempts - 1 {
          PrefixedTwice(sleeps, [delay], Attempts(attempt + 1, useProxy, delay * 2, reply, proxyFound));
          sleeps := sleeps + [delay];
          delay := delay * 2;
        } else if IsLocationBlock(m) {
          useProxy := true;
          if attempt == MaxAttempts - 1 {
            return Blocked(true), sleeps;
          }
        } else {
          return Failed(m), sleeps;
        }
        attempt := attempt + 1;
      }
      result := Exhausted;
    }

    /** The outer `except`: the explanation shown to the user, and the
        proxy flag set for a location error. */
    method ReportError(message: string) returns (text: string)
      modifies this
      ensures text == ErrorReply(message)
      ensures useProxy == (old(useProxy) || IsLocationBlock(message)) && model == old(model)
    {
      var friendly := message;
      if IsLocationBlock(message) {
        useProxy := true;
        friendly := LocationHelp;
      } else if IsRateLimit(message) {
        friendly := RateLimitText;
      } else if Contains(message, "404") {
        friendly := ModelMissingText;
      }
      text := ErrorIntro + friendly;
    }

    /** `generate_recommendations`, step by step. */
    method GenerateRecommendations(
      query: string, enriched: string, userId: Option<int>,
      prefs: seq<LegacyContext.Preference>, ratings: seq<LegacyContext.RatedMovie>,
      calls: (string, nat) -> Reply, proxyFound: nat -> bool, env: LegacyPipeline.Env)
      returns (response: Response)
      modifies this
      ensures Generation(response, useProxy) == Generated(query, enriched, userId, prefs, ratings, calls, proxyFound, env, old(useProxy))
      ensures model == old(model)
    {
      var prompt := Prompt(enriched, userId, prefs, ratings);
      var result, _ := CallModel(CallsWith(prompt, calls), proxyFound);
      response := Conclude(query, result, ExcludedTitles(userId, ratings), env);
    }

    /** What the request returns after the attempts: the blocked-region
        text, the reported error, or the checked answer. */
    method Conclude(query: string, result: Attempted, excluded: seq<string>, env: LegacyPipeline.Env) returns (response: Response)
      modifies this
      ensures Generation(response, useProxy) == Concluded(query, result, old(useProxy), excluded, env)
      ensures model == old(model)
    {
      match result
      case Blocked(mentions) =>
        response := Response(BlockedText(query, mentions), [], Some(LocationError));
      case Failed(m) =>
        var text := ReportError(m);
        response := Response(text, [], Some(m));
      case Exhausted =>
        var text := ReportError(QuotaText);
        response := Response(text, [], Some(QuotaText));
      case Answered(text) =>
        response := Respond(text, excluded, env);
    }
  }

  /** The answered path: the titles extracted from the reply, the first
      pass over them, the extra rounds and the closing note. */
  method Respond(text: string, excluded: seq<string>, env: LegacyPipeline.Env) returns (response: Response)
    ensures response == AnsweredResponse(text, excluded, env)
  {
    var titles := LegacyTitles.ExtractMovieTitles(text, env.fallback(text));
    var first := LegacyPipeline.FirstPass(titles, excluded, env);
    var out := LegacyPipeline.RetryLoop(first, text, excluded, env);
    response := Response(out.response + LegacyPipeline.FinalNote(out.tally, out.rounds), out.tally.recs, None);
  }

  // ---------------------------------------------------------------------------
  // What the attempts and the request promise

  /** The attempts never run out: the third attempt always answers,
      returns the blocked-region text, or passes its exception on, so the
      quota exception after the loop is never raised. */
  lemma {:induction false} AttemptsNeverExhaust(attempt: nat, useProxy: bool, delay: nat, reply: nat -> Reply, proxyFound: nat -> bool)
    requires attempt < MaxAttempts
    ensures !Attempts(attempt, useProxy, delay, reply, proxyFound).result.Exhausted?
    decreases MaxAttempts - attempt
  {
    if attempt < MaxAttempts - 1 {
      AttemptsNeverExhaust(attempt + 1, useProxy, delay * 2, reply, proxyFound);
      AttemptsNeverExhaust(attempt + 1, true, delay, reply, proxyFound);
    }
  }

  /** The delays double from the first one, and at most one is slept per
      attempt left after this one. */
  lemma {:induction false} DelaysDouble(attempt: nat, useProxy: bool, delay: nat, reply: nat -> Reply, proxyFound: nat -> bool)
    requires attempt < MaxAttempts
    ensures var s := Attempts(attempt, useProxy, delay, reply, proxyFound).sleeps;
      |s| < MaxAttempts - attempt && forall k :: 0 <= k < |s| ==> s[k] == delay * Retry.Pow2(k)
    decreases MaxAttempts - attempt
  {
    if attempt < MaxAttempts - 1 {
      DelaysDouble(attempt + 1, useProxy, delay * 2, reply, proxyFound);
      DelaysDouble(attempt + 1, true, delay, reply, proxyFound);
      var s := Attempts(attempt + 1, useProxy, delay * 2, reply, proxyFound).sleeps;
      var full := [delay] + s;
      forall k | 1 <= k < |full|
        ensures full[k] == delay * Retry.Pow2(k)
      {
        assert full[k] == s[k - 1] == delay * 2 * Retry.Pow2(k - 1);
      }
    }
  }

  /** A request sleeps 2 seconds, then 4, and no more. */
  lemma BackoffSchedule(useProxy: bool, reply: nat -> Reply, proxyFound: nat -> bool)
    ensures var s := Attempts(0, useProxy, FirstDelay, reply, proxyFound).sleeps;
      s == [2, 4][..|s|]
  {
    DelaysDouble(0, useProxy, FirstDelay, reply, proxyFound);
    var s := Attempts(0, useProxy, FirstDelay, reply, proxyFound).sleeps;
    assert Retry.Pow2(1) == 2;
  }

  /** The proxy flag is never turned off, and it is on whenever the
      attempts end with the blocked-region answer. */
  lemma {:induction false} ProxyFlagOnlyRises(attempt: nat, useProxy: bool, delay: nat, reply: nat -> Reply, proxyFound: nat -> bool)
    ensures var run := Attempts(attempt, useProxy, delay, reply, proxyFound);
      (useProxy ==> run.useProxy) && (run.result.Blocked? ==> run.useProxy)
    decreases MaxAttempts - attempt
  {
    if attempt < MaxAttempts - 1 {
      ProxyFlagOnlyRises(attempt + 1, useProxy, delay * 2, reply, proxyFound);
      ProxyFlagOnlyRises(attempt + 1, true, delay, reply, proxyFound);
    }
  }

  /** An answer is the reply of one of the three attempts, and an
      exception passed on is one that is neither a location error nor a
      rate limit that could still be retried. */
  lemma {:induction false} OutcomesComeFromReplies(attempt: nat, useProxy: bool, delay: nat, reply: nat -> Reply, proxyFound: nat -> bool)
    ensures var r := Attempts(attempt, useProxy, delay, reply, proxyFound).result;
      (r.Answered? ==> exists n :: attempt <= n < MaxAttempts && reply(n) == LegacyPipeline.Answer(r.text))
      && (r.Failed? ==>
            !IsLocationBlock(r.message)
            && exists n :: attempt <= n < MaxAttempts && reply(n) == LegacyPipeline.Raised(r.message) && (IsRateLimit(r.message) ==> n == MaxAttempts - 1))
    decreases MaxAttempts - attempt
  {
    if attempt < MaxAttempts && !(useProxy && proxyFound(attempt)) {
      match reply(attempt)
      case Answer(text) =>
      case Raised(m) =>
        if IsRateLimit(m) && attempt < MaxAttempts - 1 {
          OutcomesComeFromReplies(attempt + 1, useProxy, delay * 2, reply, proxyFound);
        } else if IsLocationBlock(m) && attempt < MaxAttempts - 1 {
          OutcomesComeFromReplies(attempt + 1, true, delay, reply, proxyFound);
        }
    }
  }

  /** Unknown errors are shown verbatim after the apology; the three known
      kinds are replaced by their explanation, a location error first. */
  lemma ErrorRepliesExplain(message: string)
    ensures StartsWith(ErrorReply(message), ErrorIntro)
    ensures IsLocationBlock(message) ==> ErrorReply(message) == ErrorIntro + LocationHelp
    ensures !IsLocationBlock(message) && !IsRateLimit(message) && !Contains(message, "404") ==> EndsWith(ErrorReply(message), message)
  {
    var r := ErrorReply(message);
    assert r[..|ErrorIntro|] == ErrorIntro;
    assert r[|r| - |FriendlyMessage(message)|..] == FriendlyMessage(message);
  }

  /** Every movie a request recommends was found in TMDB under a title
      judged relevant, the answer begins with the model's reply, and
      neither the quota error nor any recommendation comes with an error. */
  lemma RequestsRecommendVettedMovies(
    query: string, enriched: string, userId: Option<int>,
    prefs: seq<LegacyContext.Preference>, ratings: seq<LegacyContext.RatedMovie>,
    calls: (string, nat) -> Reply, proxyFound: nat -> bool, env: LegacyPipeline.Env, useProxy: bool)
    ensures var g := Generated(query, enriched, userId, prefs, ratings, calls, proxyFound, env, useProxy);
      LegacyPipeline.Vetted(g.response.recs, env)
      && (g.response.error.Some? ==> g.response.recs == [])
      && (useProxy ==> g.useProxy)
  {
    var reply := CallsWith(Prompt(enriched, userId, prefs, ratings), calls);
    AttemptsNeverExhaust(0, useProxy, FirstDelay, reply, proxyFound);
    ProxyFlagOnlyRises(0, useProxy, FirstDelay, reply, proxyFound);
    var run := Attempts(0, useProxy, FirstDelay, reply, proxyFound);
    if run.result.Answered? {
      AnswerVetted(run.result.text, ExcludedTitles(userId, ratings), env);
    }
  }

  /** The accepted movies of an answered request are vetted, and the answer
      text begins with the model's reply. */
  lemma AnswerVetted(text: string, excluded: seq<string>, env: LegacyPipeline.Env)
    ensures LegacyPipeline.Vetted(AnsweredResponse(text, excluded, env).recs, env)
    ensures StartsWith(AnsweredResponse(text, excluded, env).text, text)
  {
    var titles := LegacyTitles.Extracted(text, env.fallback(text));
    var start := LegacyPipeline.Start(titles);
    var first := LegacyPipeline.FirstPassOf(start, titles, excluded, env);
    LegacyPipeline.FirstPassVetted(start, titles, excluded, env);
    LegacyPipeline.RetriesVetted(first, text, 0, excluded, env);
    LegacyPipeline.RetriesExtendResponse(first, text, 0, excluded, env);
    var out := LegacyPipeline.Retries(first, text, 0, excluded, env);
    LegacyPipeline.PrefixOfPrefix(text, out.response, out.response + LegacyPipeline.FinalNote(out.tally, out.rounds));
  }
}

/** The candidate checks of the legacy `generate_recommendations`
    (recommendation.py): the first pass over the extracted titles, the
    extra generation rounds while too few candidates were accepted, and
    the note appended to the answer. TMDB lookup, the relevance check and
    the language model are oracles gathered in `Env`. */
module LegacyPipeline {
  import opened Wrappers
  import opened Text
  import LegacyTitles

  /** What `_get_movie_details_from_tmdb` returns that these checks read. */
  datatype Details = Details(title: string, originalTitle: string)

  /** A call to the language model: its text, or the message of the exception. */
  datatype Reply = Answer(text: string) | Raised(message: string)

  /** The oracles: TMDB details of a title, the relevance verdict for a
      title, the reply of extra round `n` given the list of excluded
      movies it is shown, and the titles the language-model fallback
      extracts from a reply the patterns find nothing in. */
  datatype Env = Env(
    lookup: string -> Option<Details>,
    relevant: string -> bool,
    roundReply: (nat, string) -> Reply,
    fallback: string -> seq<string>)

  /** `validation_summary` together with the lists the loops extend:
      the accepted details, `movie_titles` and `excluded_movies_info`. */
  datatype Tally = Tally(
    recs: seq<Details>, titles: seq<string>, info: seq<string>,
    included: nat, failed: nat, rated: nat, notFound: nat)

  function Start(titles: seq<string>): Tally {
    Tally([], titles, [], 0, 0, 0, 0)
  }

  /** The accepted count is the number of accepted movies. */
  predicate Counted(t: Tally) {
    t.included == |t.recs|
  }

  function RoundSuffix(round: Option<nat>): string {
    if round.Some? then " (retry " + IntToString(round.value) + ")" else ""
  }

  function NotFoundNote(title: string, round: Option<nat>): string {
    "\"" + title + "\" - не найден в TMDB" + RoundSuffix(round)
  }

  function MismatchNote(title: string, round: Option<nat>): string {
    "\"" + title + "\" - не соответствует запросу" + RoundSuffix(round)
  }

  // ---------------------------------------------------------------------------
  // The first pass

  /** A found movie is a variant of a rated title when either lower-cased
      title contains the other, comparing the original title too when it
      is not empty. */
  predicate VariantOf(d: Details, rated: string) {
    var e := LowerStr(rated);
    var t := LowerStr(d.title);
    var o := LowerStr(d.originalTitle);
    Contains(e, t) || Contains(t, e) || (d.originalTitle != "" && (Contains(o, e) || Contains(e, o)))
  }

  predicate RatedVariant(d: Details, excluded: seq<string>) {
    exists k :: 0 <= k < |excluded| && VariantOf(d, excluded[k])
  }

  /** One title of the first pass. */
  function FirstStep(t: Tally, title: string, excluded: seq<string>, env: Env): Tally {
    if title in excluded then t.(rated := t.rated + 1)
    else
      match env.lookup(title)
      case None => t.(notFound := t.notFound + 1, info := t.info + [NotFoundNote(title, None)])
      case Some(d) =>
        if RatedVariant(d, excluded) then t.(rated := t.rated + 1)
        else if env.relevant(title) then t.(recs := t.recs + [d], included := t.included + 1)
        else t.(failed := t.failed + 1, info := t.info + [MismatchNote(d.title, None)])
  }

  function FirstPassOf(t: Tally, titles: seq<string>, excluded: seq<string>, env: Env): Tally {
    if titles == [] then t
    else FirstStep(FirstPassOf(t, titles[..|titles| - 1], excluded, env), titles[|titles| - 1], excluded, env)
  }

  /** The loop over `movie_titles`. */
  method FirstPass(titles: seq<string>, excluded: seq<string>, env: Env) returns (t: Tally)
    ensures t == FirstPassOf(Start(titles), titles, excluded, env)
  {
    t := Start(titles);
    for i := 0 to |titles|
      invariant t == FirstPassOf(Start(titles), titles[..i], excluded, env)
    {
      assert titles[..i + 1][..i] == titles[..i];
      var title := titles[i];
      if title in excluded {
        t := t.(rated := t.rated + 1);
        continue;
      }
      var details := env.lookup(title);
      if details.None? {
        t := t.(notFound := t.notFound + 1, info := t.info + [NotFoundNote(title, None)]);
        continue;
      }
      var d := details.value;
      var isExcluded := IsRatedVariant(d, excluded);
      if !isExcluded {
        if env.relevant(title) {
          t := t.(recs := t.recs + [d], included := t.included + 1);
        } else {
          t := t.(failed := t.failed + 1, info := t.info + [MismatchNote(d.title, None)]);
        }
      } else {
        t := t.(rated := t.rated + 1);
      }
    }
    assert titles[..|titles|] == titles;
  }

  /** The loop over `excluded_movies` that stops at the first variant. */
  method IsRatedVariant(d: Details, excluded: seq<string>) returns (isExcluded: bool)
    ensures isExcluded == RatedVariant(d, excluded)
  {
    isExcluded := false;
    for k := 0 to |excluded|
      invariant forall j :: 0 <= j < k ==> !VariantOf(d, excluded[j])
    {
      if VariantOf(d, excluded[k]) {
        isExcluded := true;
        return;
      }
    }
  }

  /** The first pass accepts no rated title and no variant of one, and
      every movie it accepts was found and judged relevant. */
  lemma {:induction false} FirstPassSkipsRated(start: Tally, titles: seq<string>, excluded: seq<string>, env: Env)
    ensures var t := FirstPassOf(start, titles, excluded, env);
      |start.recs| <= |t.recs| && t.recs[..|start.recs|] == start.recs
      && forall k :: |start.recs| <= k < |t.recs| ==>
        !RatedVariant(t.recs[k], excluded)
        && exists i :: 0 <= i < |titles| && titles[i] !in excluded && env.lookup(titles[i]) == Some(t.recs[k]) && env.relevant(titles[i])
    decreases |titles|
  {
    if titles != [] {
      var init := titles[..|titles| - 1];
      FirstPassSkipsRated(start, init, excluded, env);
      var before := FirstPassOf(start, init, excluded, env);
      var t := FirstPassOf(start, titles, excluded, env);
      forall k | |start.recs| <= k < |t.recs|
        ensures !RatedVariant(t.recs[k], excluded)
        ensures exists i :: 0 <= i < |titles| && titles[i] !in excluded && env.lookup(titles[i]) == Some(t.recs[k]) && env.relevant(titles[i])
      {
        if k < |before.recs| {
          var i :| 0 <= i < |init| && init[i] !in excluded && env.lookup(init[i]) == Some(before.recs[k]) && env.relevant(init[i]);
          assert titles[i] == init[i];
        } else {
          assert titles[|titles| - 1] !in excluded;
        }
      }
    }
  }

  /** Each title of the first pass lands in exactly one counter. */
  lemma {:induction false} FirstPassCountsEveryTitle(start: Tally, titles: seq<string>, excluded: seq<string>, env: Env)
    requires Counted(start)
    ensures var t := FirstPassOf(start, titles, excluded, env);
      Counted(t)
      && t.included + t.failed + t.rated + t.notFound == start.included + start.failed + start.rated + start.notFound + |titles|
      && t.titles == start.titles
    decreases |titles|
  {
    if titles != [] {
      FirstPassCountsEveryTitle(start, titles[..|titles| - 1], excluded, env);
    }
  }

  // ---------------------------------------------------------------------------
  // One extra round

  /** `already_processed`: the lower-cased title is part of a title seen before. */
  predicate AlreadyProcessed(titles: seq<string>, title: string) {
    exists k :: 0 <= k < |titles| && Contains(LowerStr(titles[k]), LowerStr(title))
  }

  /** `is_duplicate`: an accepted movie has the same lower-cased title. */
  predicate Duplicate(recs: seq<Details>, d: Details) {
    exists k :: 0 <= k < |recs| && LowerStr(recs[k].title) == LowerStr(d.title)
  }

  /** The tally after one title of a round, and whether the round stops there. */
  datatype Step = Step(tally: Tally, stop: bool)

  function RoundStep(t: Tally, title: string, round: nat, excluded: seq<string>, env: Env): Step {
    if AlreadyProcessed(t.titles, title) || title in excluded then Step(t, false)
    else
      match env.lookup(title)
      case None => Step(t.(info := t.info + [NotFoundNote(title, Some(round))]), false)
      case Some(d) =>
        if Duplicate(t.recs, d) then Step(t, false)
        else if env.relevant(title) then
          Step(t.(recs := t.recs + [d], included := t.included + 1, titles := t.titles + [title]), t.included + 1 >= 3)
        else Step(t.(failed := t.failed + 1, info := t.info + [MismatchNote(d.title, Some(round))]), false)
  }

  /** A round over the titles of its reply, stopping once three movies are accepted. */
  function RoundOf(t: Tally, titles: seq<string>, round: nat, excluded: seq<string>, env: Env): Tally
    decreases |titles|
  {
    if titles == [] then t
    else
      var s := RoundStep(t, titles[0], round, excluded, env);
      if s.stop then s.tally else RoundOf(s.tally, titles[1..], round, excluded, env)
  }

  /** The loop over `retry_movie_titles`, with its `continue`s and its `break`. */
  method Round(t0: Tally, titles: seq<string>, round: nat, excluded: seq<string>, env: Env) returns (t: Tally)
    ensures t == RoundOf(t0, titles, round, excluded, env)
  {
    t := t0;
    var i := 0;
    while i < |titles|
      invariant 0 <= i <= |titles|
      invariant RoundOf(t, titles[i..], round, excluded, env) == RoundOf(t0, titles, round, excluded, env)
    {
      assert titles[i..][1..] == titles[i + 1..];
      var title := titles[i];
      i := i + 1;
      if AlreadyProcessed(t.titles, title) || title in excluded {
        continue;
      }
      var details := env.lookup(title);
      if details.None? {
        t := t.(info := t.info + [NotFoundNote(title, Some(round))]);
        continue;
      }
      var d := details.value;
      if Duplicate(t.recs, d) {
        continue;
      }
      if env.relevant(title) {
        t := t.(recs := t.recs + [d], included := t.included + 1, titles := t.titles + [title]);
        if t.included >= 3 {
          return;
        }
      } else {
        t := t.(failed := t.failed + 1, info := t.info + [MismatchNote(d.title, Some(round))]);
      }
    }
  }

  /** A round keeps the accepted movies, adds only movies whose lower-cased
      title is new, keeps the count of accepted movies exact, and never
      takes that count past three. */
  lemma {:induction false} RoundAddsFreshMovies(t: Tally, titles: seq<string>, round: nat, excluded: seq<string>, env: Env)
    requires Counted(t)
    ensures var r := RoundOf(t, titles, round, excluded, env);
      Counted(r) && AddsFresh(t.recs, r.recs) && r.failed >= t.failed
      && (t.included < 3 ==> r.included <= 3)
    decreases |titles|
  {
    if titles != [] {
      var s := RoundStep(t, titles[0], round, excluded, env);
      assert AddsFresh(t.recs, s.tally.recs) by {
        assert s.tally.recs[..|t.recs|] == t.recs;
      }
      if !s.stop {
        RoundAddsFreshMovies(s.tally, titles[1..], round, excluded, env);
        FreshTail(t.recs, s.tally.recs, RoundOf(s.tally, titles[1..], round, excluded, env).recs);
      }
    }
  }

  /** Freshness of a step's addition and of the rest of the round combine. */
  lemma FreshTail(a: seq<Details>, b: seq<Details>, c: seq<Details>)
    requires AddsFresh(a, b) && AddsFresh(b, c)
    ensures AddsFresh(a, c)
  {
    assert c[..|a|] == b[..|a|];
    forall i, j | 0 <= i < j < |c| && |a| <= j
      ensures LowerStr(c[i].title) != LowerStr(c[j].title)
    {
      if j < |b| {
        assert c[i] == b[i] && c[j] == b[j];
      }
    }
  }

  // ---------------------------------------------------------------------------
  // The extra rounds and the note

  const MaxRounds := 2
  const AddendumIntro := "\n\n📝 Дополнительные рекомендации (после проверки):\n"

  /** The `while` condition: fewer than two accepted and some rejected as irrelevant. */
  predicate NeedsRetry(t: Tally) {
    t.included < 2 && t.failed > 0
  }

  /** `", ".join(excluded_movies_info[-5:])` */
  function ExcludedList(info: seq<string>): string {
    var n := if |info| < 5 then |info| else 5;
    Join(", ", info[|info| - n..])
  }

  /** The state after the extra rounds: the tally, the answer and the round count. */
  datatype Outcome = Outcome(tally: Tally, response: string, rounds: nat)

  /** The titles found in a round's reply. */
  function ReplyTitles(text: string, env: Env): seq<string> {
    LegacyTitles.Extracted(text, env.fallback(text))
  }

  /** What one round leaves: nothing new when its model call raises, else
      the checked titles and, in the first round, the reply appended. */
  datatype Progress = Stopped | Continued(tally: Tally, response: string)

  function NextRound(t: Tally, response: string, round: nat, excluded: seq<string>, env: Env): Progress {
    match env.roundReply(round, ExcludedList(t.info))
    case Raised(_) => Stopped
    case Answer(text) =>
      Continued(RoundOf(t, ReplyTitles(text, env), round, excluded, env),
                if round == 1 then response + AddendumIntro + text else response)
  }

  /** The `while` loop from `rounds` on, for a round run by `next`. A round
      that stops (its model call raised) ends the loop. */
  function RetriesWith(next: (Tally, string, nat) -> Progress, t: Tally, response: string, rounds: nat): Outcome
    decreases MaxRounds - rounds
  {
    if !(NeedsRetry(t) && rounds < MaxRounds) then Outcome(t, response, rounds)
    else
      match next(t, response, rounds + 1)
      case Stopped => Outcome(t, response, rounds + 1)
      case Continued(t', response') => RetriesWith(next, t', response', rounds + 1)
  }

  /** The rounds of the legacy engine, as a function of the tally, the
      answer and the round number. */
  function RoundsOf(excluded: seq<string>, env: Env): (Tally, string, nat) -> Progress {
    (t: Tally, response: string, round: nat) => NextRound(t, response, round, excluded, env)
  }

  /** The retry loop of `generate_recommendations`. */
  function Retries(t: Tally, response: string, rounds: nat, excluded: seq<string>, env: Env): Outcome {
    RetriesWith(RoundsOf(excluded, env), t, response, rounds)
  }

  /** The retry loop as written: a `while` that counts the round and runs
      it, left early when a round's model call raises. */
  method RetryLoop(t0: Tally, response0: string, excluded: seq<string>, env: Env) returns (out: Outcome)
    ensures out == Retries(t0, response0, 0, excluded, env)
  {
    ghost var next := RoundsOf(excluded, env);
    var t, response, rounds := t0, response0, 0;
    while NeedsRetry(t) && rounds < MaxRounds
      invariant rounds <= MaxRounds
      invariant RetriesWith(next, t, response, rounds) == RetriesWith(next, t0, response0, 0)
      decreases MaxRounds - rounds
    {
      rounds := rounds + 1;
      var p := RunRound(t, response, rounds, excluded, env);
      assert p == next(t, response, rounds);
      if p.Stopped? {
        return Outcome(t, response, rounds);
      }
      t, response := p.tally, p.response;
    }
    out := Outcome(t, response, rounds);
  }

  /** The body of the loop: the model call, the extraction and the checks
      of its titles, and, in the first round, the reply appended. */
  method RunRound(t: Tally, response: string, round: nat, excluded: seq<string>, env: Env) returns (p: Progress)
    ensures p == NextRound(t, response, round, excluded, env)
  {
    var reply := env.roundReply(round, ExcludedList(t.info));
    if reply.Raised? {
      return Stopped;
    }
    var titles := LegacyTitles.ExtractMovieTitles(reply.text, env.fallback(reply.text));
    var t' := Round(t, titles, round, excluded, env);
    p := Continued(t', if round == 1 then response + AddendumIntro + reply.text else response);
  }

  const WarningMark := "\n\n⚠️ "
  const SuccessMark := "\n\n✅ "

  /** The note appended after the rounds. */
  function FinalNote(t: Tally, rounds: nat): string {
    if NeedsRetry(t) then WarningMark + WarningText(t, rounds)
    else if rounds > 0 && t.included >= 2 then SuccessMark + SuccessText(rounds)
    else ""
  }

  function WarningText(t: Tally, rounds: nat): string {
    "После " + IntToString(rounds) + " попыток улучшить рекомендации, некоторые фильмы все еще были исключены из-за неточной информации (найдено " + IntToString(t.failed) + " несоответствий)."
  }

  function SuccessText(rounds: nat): string {
    "Рекомендации улучшены после дополнительной проверки (попыток: " + IntToString(rounds) + ")."
  }

  /** At most two extra rounds run, whatever the rounds do. */
  lemma {:induction false} RetriesAreBounded(next: (Tally, string, nat) -> Progress, t: Tally, response: string, rounds: nat)
    requires rounds <= MaxRounds
    ensures rounds <= RetriesWith(next, t, response, rounds).rounds <= MaxRounds
    decreases MaxRounds - rounds
  {
    if NeedsRetry(t) && rounds < MaxRounds {
      match next(t, response, rounds + 1)
      case Stopped =>
      case Continued(t', response') =>
        RetriesAreBounded(next, t', response', rounds + 1);
    }
  }

  /** No extra round runs when the first pass accepted two movies or
      rejected none: the tally and the answer are left as they are. */
  lemma NoRoundWhenEnough(t: Tally, response: string, excluded: seq<string>, env: Env)
    requires !NeedsRetry(t)
    ensures Retries(t, response, 0, excluded, env) == Outcome(t, response, 0)
  {
  }

  /** When no round stops early, the loop ends only once retrying is no
      longer needed or both rounds have run. */
  lemma {:induction false} RetriesWithStopForAReason(next: (Tally, string, nat) -> Progress, t: Tally, response: string, rounds: nat)
    requires rounds <= MaxRounds
    requires forall a, r, n :: next(a, r, n).Continued?
    ensures var o := RetriesWith(next, t, response, rounds);
      !NeedsRetry(o.tally) || o.rounds == MaxRounds
    decreases MaxRounds - rounds
  {
    if NeedsRetry(t) && rounds < MaxRounds {
      var p := next(t, response, rounds + 1);
      assert p.Continued?;
      RetriesWithStopForAReason(next, p.tally, p.response, rounds + 1);
    }
  }

  /** When every model call answers, the retry loop ends only once
      retrying is no longer needed or both rounds have run. */
  lemma RetriesStopForAReason(t: Tally, response: string, excluded: seq<string>, env: Env)
    requires forall n, s :: env.roundReply(n, s).Answer?
    ensures var o := Retries(t, response, 0, excluded, env);
      !NeedsRetry(o.tally) || o.rounds == MaxRounds
  {
    var next := RoundsOf(excluded, env);
    forall a, r, n
      ensures next(a, r, n).Continued?
    {
      assert env.roundReply(n, ExcludedList(a.info)).Answer?;
    }
    RetriesWithStopForAReason(next, t, response, 0);
  }

  /** A property of the tally and the answer that every round run while
      retrying is needed keeps also holds when the loop ends. */
  lemma {:induction false} RetriesWithKeep(next: (Tally, string, nat) -> Progress, inv: (Tally, string) -> bool, t: Tally, response: string, rounds: nat)
    requires inv(t, response)
    requires forall a, r, n :: inv(a, r) && NeedsRetry(a) && next(a, r, n).Continued? ==> inv(next(a, r, n).tally, next(a, r, n).response)
    ensures var o := RetriesWith(next, t, response, rounds); inv(o.tally, o.response)
    decreases MaxRounds - rounds
  {
    if NeedsRetry(t) && rounds < MaxRounds {
      var p := next(t, response, rounds + 1);
      if p.Continued? {
        RetriesWithKeep(next, inv, p.tally, p.response, rounds + 1);
      }
    }
  }

  /** `c` keeps `a` as its prefix, and every movie `c` adds has a
      lower-cased title different from every movie before it. */
  predicate AddsFresh(a: seq<Details>, c: seq<Details>) {
    |a| <= |c| && c[..|a|] == a
    && forall i, j :: 0 <= i < j < |c| && |a| <= j ==> LowerStr(c[i].title) != LowerStr(c[j].title)
  }

  /** One extra round keeps the count exact, adds only fresh movies, and
      from fewer than three accepted movies reaches at most three. */
  lemma NextRoundAddsFresh(t: Tally, response: string, round: nat, excluded: seq<string>, env: Env)
    requires Counted(t)
    ensures var p := NextRound(t, response, round, excluded, env);
      p.Continued? ==>
        Counted(p.tally) && AddsFresh(t.recs, p.tally.recs) && (t.included < 3 ==> p.tally.included <= 3)
  {
    var reply := env.roundReply(round, ExcludedList(t.info));
    if reply.Answer? {
      RoundAddsFreshMovies(t, ReplyTitles(reply.text, env), round, excluded, env);
    }
  }

  /** The rounds keep every movie accepted before them, add only movies
      whose lower-cased title is new, keep the count exact, and stop at
      three accepted movies. */
  lemma RetriesKeepAccepted(t: Tally, response: string, rounds: nat, excluded: seq<string>, env: Env)
    requires Counted(t)
    ensures var r := Retries(t, response, rounds, excluded, env).tally;
      Counted(r) && AddsFresh(t.recs, r.recs) && (t.included < 3 ==> r.included <= 3)
  {
    var next := RoundsOf(excluded, env);
    var inv := (a: Tally, r: string) => Counted(a) && AddsFresh(t.recs, a.recs) && (t.included < 3 ==> a.included <= 3);
    forall a, r, n | inv(a, r) && NeedsRetry(a) && next(a, r, n).Continued?
      ensures inv(next(a, r, n).tally, next(a, r, n).response)
    {
      NextRoundAddsFresh(a, r, n, excluded, env);
      FreshTail(t.recs, a.recs, next(a, r, n).tally.recs);
    }
    assert t.recs[..|t.recs|] == t.recs;
    RetriesWithKeep(next, inv, t, response, rounds);
  }

  /** Every movie in `recs` was found in TMDB under some title that was
      judged relevant to the request. */
  ghost predicate Vetted(recs: seq<Details>, env: Env) {
    forall k :: 0 <= k < |recs| ==> exists title :: env.lookup(title) == Some(recs[k]) && env.relevant(title)
  }

  lemma {:induction false} FirstPassVetted(t: Tally, titles: seq<string>, excluded: seq<string>, env: Env)
    requires Vetted(t.recs, env)
    ensures Vetted(FirstPassOf(t, titles, excluded, env).recs, env)
    decreases |titles|
  {
    if titles != [] {
      var init := titles[..|titles| - 1];
      var title := titles[|titles| - 1];
      FirstPassVetted(t, init, excluded, env);
      var before := FirstPassOf(t, init, excluded, env);
      var after := FirstPassOf(t, titles, excluded, env);
      if |after.recs| > |before.recs| {
        assert env.lookup(title) == Some(after.recs[|before.recs|]) && env.relevant(title);
      }
    }
  }

  lemma {:induction false} RoundVetted(t: Tally, titles: seq<string>, round: nat, excluded: seq<string>, env: Env)
    requires Vetted(t.recs, env)
    ensures Vetted(RoundOf(t, titles, round, excluded, env).recs, env)
    decreases |titles|
  {
    if titles != [] {
      var s := RoundStep(t, titles[0], round, excluded, env);
      assert Vetted(s.tally.recs, env) by {
        if |s.tally.recs| > |t.recs| {
          assert env.lookup(titles[0]) == Some(s.tally.recs[|t.recs|]) && env.relevant(titles[0]);
        }
      }
      if !s.stop {
        RoundVetted(s.tally, titles[1..], round, excluded, env);
      }
    }
  }

  lemma NextRoundVetted(t: Tally, response: string, round: nat, excluded: seq<string>, env: Env)
    requires Vetted(t.recs, env)
    ensures var p := NextRound(t, response, round, excluded, env);
      p.Continued? ==> Vetted(p.tally.recs, env)
  {
    var reply := env.roundReply(round, ExcludedList(t.info));
    if reply.Answer? {
      RoundVetted(t, ReplyTitles(reply.text, env), round, excluded, env);
    }
  }

  /** The rounds accept only movies found in TMDB and judged relevant. */
  lemma RetriesVetted(t: Tally, response: string, rounds: nat, excluded: seq<string>, env: Env)
    requires Vetted(t.recs, env)
    ensures Vetted(Retries(t, response, rounds, excluded, env).tally.recs, env)
  {
    var next := RoundsOf(excluded, env);
    var inv := (a: Tally, r: string) => Vetted(a.recs, env);
    forall a, r, n | inv(a, r) && NeedsRetry(a) && next(a, r, n).Continued?
      ensures inv(next(a, r, n).tally, next(a, r, n).response)
    {
      NextRoundVetted(a, r, n, excluded, env);
    }
    RetriesWithKeep(next, inv, t, response, rounds);
  }

  lemma NextRoundExtendsResponse(t: Tally, response: string, round: nat, excluded: seq<string>, env: Env)
    ensures var p := NextRound(t, response, round, excluded, env);
      p.Continued? ==> StartsWith(p.response, response)
  {
    var reply := env.roundReply(round, ExcludedList(t.info));
    if reply.Answer? && round == 1 {
      var r := response + AddendumIntro + reply.text;
      assert r[..|response|] == response;
    }
  }

  /** The answer the rounds leave begins with the answer they were given. */
  lemma RetriesExtendResponse(t: Tally, response: string, rounds: nat, excluded: seq<string>, env: Env)
    ensures StartsWith(Retries(t, response, rounds, excluded, env).response, response)
  {
    var next := RoundsOf(excluded, env);
    var inv := (a: Tally, r: string) => StartsWith(r, response);
    forall a, r, n | inv(a, r) && NeedsRetry(a) && next(a, r, n).Continued?
      ensures inv(next(a, r, n).tally, next(a, r, n).response)
    {
      NextRoundExtendsResponse(a, r, n, excluded, env);
      PrefixOfPrefix(response, r, next(a, r, n).response);
    }
    assert response[..|response|] == response;
    RetriesWithKeep(next, inv, t, response, rounds);
  }

  lemma PrefixOfPrefix(a: string, b: string, c: string)
    requires StartsWith(b, a) && StartsWith(c, b)
    ensures StartsWith(c, a)
  {
    assert c[..|a|] == c[..|b|][..|a|];
  }

  /** The warning note is appended exactly when retrying is still needed,
      the success note exactly when a round ran and two movies were
      accepted; never both. */
  lemma NotesAreExclusive(t: Tally, rounds: nat)
    ensures StartsWith(FinalNote(t, rounds), WarningMark) <==> NeedsRetry(t)
    ensures StartsWith(FinalNote(t, rounds), SuccessMark) <==> rounds > 0 && t.included >= 2
    ensures FinalNote(t, rounds) == "" <==> !NeedsRetry(t) && !(rounds > 0 && t.included >= 2)
  {
    if NeedsRetry(t) {
      MarkedNote(WarningMark, WarningText(t, rounds), SuccessMark);
    } else if rounds > 0 && t.included >= 2 {
      MarkedNote(SuccessMark, SuccessText(rounds), WarningMark);
    } else {
      assert |WarningMark| > 0 && |SuccessMark| > 0;
    }
  }

  /** A note opened by `mark` starts with it and not with a mark whose
      third character differs. */
  lemma MarkedNote(mark: string, text: string, other: string)
    requires mark in {WarningMark, SuccessMark} && other in {WarningMark, SuccessMark} && mark != other
    ensures StartsWith(mark + text, mark) && !StartsWith(mark + text, other) && mark + text != ""
  {
    assert WarningMark[2] == '⚠' && SuccessMark[2] == '✅';
    assert (mark + text)[..|mark|] == mark;
    assert (mark + text)[2] == mark[2];
  }
}

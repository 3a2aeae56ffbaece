/** The recommendation engine (core/engine.py): MarkdownV2 escaping, title
    extraction from the language model's reply, the title normaliser, the
    fuzzy relevance decision and `generate_recommendations`, which checks each
    candidate against TMDB and records the accepted ones in the store.

    The language model, the TMDB lookup and `difflib`'s ratio are oracles held
    in `Services`; the translator's calls go through the functions of module
    `Translator` with their default retries (3). */
module Engine {
  import opened Wrappers
  import opened Text
  import opened Seqs
  import Patterns
  import Tmdb
  import MovieStore
  import Translator

  // ---------------------------------------------------------------------------
  // _escape_markdown_v2

  /** The characters escaped, in the order the source lists them. */
  const EscapeChars: string := "_*[]()~`>#+-.=|{}!"

  /** The number of characters of `s` that get a backslash. */
  function CountSpecial(s: string): (n: nat)
    ensures n <= |s|
  {
    if s == [] then 0 else (if s[0] in EscapeChars then 1 else 0) + CountSpecial(s[1..])
  }

  /** Each character of `EscapeChars` preceded by one backslash, every other
      character as it is. */
  function Escaped(s: string): (r: string)
    ensures |r| == |s| + CountSpecial(s)
  {
    if s == [] then [] else (if s[0] in EscapeChars then ['\\', s[0]] else [s[0]]) + Escaped(s[1..])
  }

  lemma {:induction false} EscapedAppend(a: string, b: string)
    ensures Escaped(a + b) == Escaped(a) + Escaped(b)
  {
    if a != [] {
      assert (a + b)[1..] == a[1..] + b;
      EscapedAppend(a[1..], b);
    } else {
      assert a + b == b;
    }
  }

  /** `_escape_markdown_v2`: `None` stands for a value that is not a string. */
  method EscapeMarkdownV2(text: Option<string>) returns (escaped: string)
    ensures text.None? ==> escaped == []
    ensures text.Some? ==> escaped == Escaped(text.value)
  {
    if text.None? {
      return [];
    }
    var s := text.value;
    escaped := [];
    var i := 0;
    while i < |s|
      invariant 0 <= i <= |s|
      invariant escaped == Escaped(s[..i])
    {
      EscapedAppend(s[..i], [s[i]]);
      assert s[..i + 1] == s[..i] + [s[i]];
      if s[i] in EscapeChars {
        escaped := escaped + ['\\', s[i]];
      } else {
        escaped := escaped + [s[i]];
      }
      i := i + 1;
    }
    assert s[..i] == s;
  }

  /** How Telegram reads MarkdownV2 text back as plain text: a backslash makes
      the next character literal; an unescaped special character is markup,
      so the text is not plain (`None`); so is a trailing lone backslash. */
  function Unescape(s: string): (r: Option<string>)
    decreases |s|
  {
    if s == [] then Some([])
    else if s[0] == '\\' then
      if |s| == 1 then None
      else match Unescape(s[2..])
        case Some(t) => Some([s[1]] + t)
        case None => None
    else if s[0] in EscapeChars then None
    else match Unescape(s[1..])
      case Some(t) => Some([s[0]] + t)
      case None => None
  }

  /** Escaping round-trips on text without a backslash. */
  lemma {:induction false} EscapeRoundTrip(s: string)
    requires '\\' !in s
    ensures Unescape(Escaped(s)) == Some(s)
  {
    if s != [] {
      EscapeRoundTrip(s[1..]);
      assert [s[0]] + s[1..] == s;
      if s[0] in EscapeChars {
        UnescapeEscaped(s[0], Escaped(s[1..]));
      } else {
        UnescapePlain(s[0], Escaped(s[1..]));
      }
    }
  }

  lemma UnescapeEscaped(c: char, rest: string)
    ensures Unescape(['\\', c] + rest) == if Unescape(rest).Some? then Some([c] + Unescape(rest).value) else None
  {
    var e := ['\\', c] + rest;
    assert e[0] == '\\' && e[1] == c && e[2..] == rest;
  }

  lemma UnescapePlain(c: char, rest: string)
    requires c != '\\' && c !in EscapeChars
    ensures Unescape([c] + rest) == if Unescape(rest).Some? then Some([c] + Unescape(rest).value) else None
  {
    var e := [c] + rest;
    assert e[0] == c && e[1..] == rest;
  }

  /** The backslash itself is not escaped, so a backslash in a title is read
      as an escape: "a\b" reaches the chat as "ab". */
  lemma BackslashIsLost()
    ensures Escaped("a\\b") == "a\\b"
    ensures Unescape(Escaped("a\\b")) == Some("ab")
  {
    assert Escaped("b") == "b";
    assert Escaped("\\b") == "\\b";
    assert Unescape([]) == Some([]);
    UnescapeEscaped('b', []);
    assert ['\\', 'b'] + [] == "\\b";
    assert Unescape("\\b") == Some("b");
    UnescapePlain('a', "\\b");
    assert ['a'] + "\\b" == "a\\b";
    assert ['a'] + "b" == "ab";
  }

  // ---------------------------------------------------------------------------
  // _extract_movie_titles_from_llm_response

  /** `«([^»]+)»\s*\((\d{4})\)` */
  const Guillemets: Patterns.Pattern := Patterns.Quoted("«", '»', "»", true, "")
  /** `"([^"]+)"\s*\((\d{4})\)` */
  const DoubleQuotes: Patterns.Pattern := Patterns.Quoted("\"", '"', "\"", true, "")
  /** The three patterns, in the order they are applied. */
  const TitlePatterns: seq<Patterns.Pattern> := [Guillemets, DoubleQuotes, Patterns.LazyYear]

  /** An extracted (title, year) pair; every pattern has a year group, so the year is never absent. */
  datatype Candidate = Candidate(title: string, year: int)

  function CandidateOf(m: Patterns.Match): Candidate
    requires AllDigits(m.year)
  {
    Candidate(Strip(m.title), DigitsValue(m.year))
  }

  function Candidates(ms: seq<Patterns.Match>): (cs: seq<Candidate>)
    requires forall k :: 0 <= k < |ms| ==> AllDigits(ms[k].year)
    ensures |cs| == |ms| && forall k :: 0 <= k < |ms| ==> cs[k] == CandidateOf(ms[k])
  {
    seq(|ms|, k requires 0 <= k < |ms| => CandidateOf(ms[k]))
  }

  /** The list after the patterns `ps` have been applied, in order. */
  function AfterPatterns(text: string, ps: seq<Patterns.Pattern>): seq<Candidate>
    requires forall k :: 0 <= k < |ps| ==> Patterns.HasYear(ps[k])
  {
    if ps == [] then []
    else AppendNew(AfterPatterns(text, ps[..|ps| - 1]), Candidates(Patterns.FindAll(text, ps[|ps| - 1])))
  }

  /** What the extraction returns for the reply `text`. */
  function Extracted(text: string): seq<Candidate> {
    AfterPatterns(text, TitlePatterns)
  }

  /** The inner loop: each match's pair appended unless already listed. */
  method AddCandidates(titles: seq<Candidate>, ms: seq<Patterns.Match>) returns (r: seq<Candidate>)
    requires forall k :: 0 <= k < |ms| ==> AllDigits(ms[k].year)
    ensures r == AppendNew(titles, Candidates(ms))
  {
    var cs := Candidates(ms);
    r := titles;
    var i := 0;
    while i < |ms|
      invariant 0 <= i <= |ms|
      invariant r == AppendNew(titles, cs[..i])
    {
      var c := CandidateOf(ms[i]);
      assert cs[..i + 1][..i] == cs[..i];
      if c !in r {
        r := r + [c];
      }
      i := i + 1;
    }
    assert cs[..i] == cs;
  }

  /** `_extract_movie_titles_from_llm_response` */
  method ExtractTitles(text: string) returns (titles: seq<Candidate>)
    ensures titles == Extracted(text)
  {
    titles := [];
    var p := 0;
    while p < |TitlePatterns|
      invariant 0 <= p <= |TitlePatterns|
      invariant titles == AfterPatterns(text, TitlePatterns[..p])
    {
      var ms := Patterns.FindAll(text, TitlePatterns[p]);
      titles := AddCandidates(titles, ms);
      assert TitlePatterns[..p + 1][..p] == TitlePatterns[..p];
      p := p + 1;
    }
    assert TitlePatterns[..p] == TitlePatterns;
  }

  lemma {:induction false} AfterPatternsNoDuplicates(text: string, ps: seq<Patterns.Pattern>)
    requires forall k :: 0 <= k < |ps| ==> Patterns.HasYear(ps[k])
    ensures NoDuplicates(AfterPatterns(text, ps))
  {
    if ps != [] {
      AfterPatternsNoDuplicates(text, ps[..|ps| - 1]);
      AppendNewKeepsNoDuplicates(AfterPatterns(text, ps[..|ps| - 1]), Candidates(Patterns.FindAll(text, ps[|ps| - 1])));
    }
  }

  /** No (title, year) pair is extracted twice. */
  lemma ExtractedNoDuplicates(text: string)
    ensures NoDuplicates(Extracted(text))
  {
    AfterPatternsNoDuplicates(text, TitlePatterns);
  }

  /** A year is always present and is a four-digit number. */
  predicate YearInRange(c: Candidate) {
    0 <= c.year <= 9999
  }

  lemma CandidatesYears(text: string, p: Patterns.Pattern)
    requires Patterns.HasYear(p)
    ensures forall c :: c in Candidates(Patterns.FindAll(text, p)) ==> YearInRange(c)
  {
    var ms := Patterns.FindAll(text, p);
    forall k | 0 <= k < |ms| ensures YearInRange(CandidateOf(ms[k])) {
      Patterns.FourDigitYear(ms[k].year);
    }
  }

  lemma {:induction false} AfterPatternsYears(text: string, ps: seq<Patterns.Pattern>)
    requires forall k :: 0 <= k < |ps| ==> Patterns.HasYear(ps[k])
    ensures forall c :: c in AfterPatterns(text, ps) ==> YearInRange(c)
  {
    if ps != [] {
      var prev := AfterPatterns(text, ps[..|ps| - 1]);
      var cs := Candidates(Patterns.FindAll(text, ps[|ps| - 1]));
      AfterPatternsYears(text, ps[..|ps| - 1]);
      CandidatesYears(text, ps[|ps| - 1]);
      var r := AppendNew(prev, cs);
      forall c | c in r ensures YearInRange(c) {
        var k :| 0 <= k < |r| && r[k] == c;
        if k < |prev| {
          assert r[..|prev|][k] == c;
        }
      }
    }
  }

  /** Every extracted year is a number from 0 to 9999. */
  lemma ExtractedYears(text: string)
    ensures forall c :: c in Extracted(text) ==> YearInRange(c)
  {
    AfterPatternsYears(text, TitlePatterns);
  }

  /** `next` is `prev` followed by entries drawn from `cs` only. */
  predicate GroupAfter(prev: seq<Candidate>, next: seq<Candidate>, cs: seq<Candidate>) {
    && |prev| <= |next| && next[..|prev|] == prev
    && forall k :: |prev| <= k < |next| ==> next[k] in cs
  }

  /** The list after the first `n` patterns. */
  function Stage(text: string, n: nat): seq<Candidate>
    requires n <= |TitlePatterns|
  {
    AfterPatterns(text, TitlePatterns[..n])
  }

  /** Entries are grouped by pattern, not by position in the reply: the list is
      the «…» matches, then the new "…" matches, then the new catch-all
      matches, each group drawn from its own pattern's matches only. */
  lemma ExtractedGrouped(text: string)
    ensures Stage(text, 0) == [] && Stage(text, 3) == Extracted(text)
    ensures forall n :: 0 <= n < 3 ==>
      GroupAfter(Stage(text, n), Stage(text, n + 1), Candidates(Patterns.FindAll(text, TitlePatterns[n])))
  {
    assert TitlePatterns[..3] == TitlePatterns;
    forall n | 0 <= n < 3
      ensures Stage(text, n + 1) == AppendNew(Stage(text, n), Candidates(Patterns.FindAll(text, TitlePatterns[n])))
    {
      assert TitlePatterns[..n + 1][..n] == TitlePatterns[..n];
    }
  }

  /** The catch-all's lazy title, tried from the start of the reply, grows
      past every index where no bracketed year follows. */
  lemma {:induction false} LazySkipsQuoted(s: string, k: nat, e: nat)
    requires 1 <= k <= e < |s|
    requires forall m :: 0 <= m < e ==> s[m] != ',' && s[m] != ';' && s[m] != '('
    requires !IsSpace(s[e - 1])
    ensures Patterns.LazyFrom(s, 0, k) == Patterns.LazyFrom(s, 0, e)
    decreases e - k
  {
    if k < e {
      var j := SkipSpaces(s, k);
      assert j < e && s[j] != '(';
      assert Patterns.YearTail(s, k).None?;
      LazySkipsQuoted(s, k + 1, e);
    }
  }

  /** A reply naming one movie as `«t» (y)`. */
  function QuotedWithYear(t: string, y: string): string {
    "«" + t + "» (" + y + ")"
  }

  /** Where the parts of `«t» (y)` sit. */
  lemma QuotedWithYearLayout(t: string, y: string)
    requires |y| == 4
    ensures var s := QuotedWithYear(t, y); var n := |t|;
      && |s| == n + 9
      && s[0] == '«' && s[n + 1] == '»' && s[n + 2] == ' ' && s[n + 3] == '(' && s[n + 8] == ')'
      && s[1..n + 1] == t && s[n + 4..n + 8] == y && s[..n + 2] == "«" + t + "»"
      && (forall m :: 1 <= m < n + 1 ==> s[m] == t[m - 1])
  {
  }

  /** `«([^»]+)»\s*\((\d{4})\)` matches `«t» (y)` once, with the bare title. */
  lemma GuillemetsMatchBare(t: string, y: string)
    requires t != [] && '»' !in t
    requires |y| == 4 && AllDigits(y)
    ensures var s := QuotedWithYear(t, y);
      Patterns.FindAll(s, Guillemets) == [Patterns.Match(t, y, |s|)]
  {
    var s := QuotedWithYear(t, y);
    var n := |t|;
    QuotedWithYearLayout(t, y);
    assert s[1..][..n] == t;
    IndexOfFirst(s[1..], '»', n);
    assert Patterns.YearTail(s, n + 2) == Some(n + 3);
    assert Patterns.QuotedTail(s, Guillemets, 1, n + 1) == Some(Patterns.Match(t, y, |s|));
    assert Patterns.QuotedBody(s, Guillemets, 1) == Patterns.QuotedTail(s, Guillemets, 1, n + 1);
    assert Patterns.MatchAt(s, Guillemets, 0) == Some(Patterns.Match(t, y, |s|));
    assert Patterns.FindFrom(s, Guillemets, |s|) == [];
  }

  /** `([^,;]+?)\s*\((\d{4})\)` matches `«t» (y)` once, with the quotes kept. */
  lemma CatchAllMatchesQuoted(t: string, y: string)
    requires ',' !in t && ';' !in t && '(' !in t
    requires |y| == 4 && AllDigits(y)
    ensures var s := QuotedWithYear(t, y);
      Patterns.FindAll(s, Patterns.LazyYear) == [Patterns.Match("«" + t + "»", y, |s|)]
  {
    var s := QuotedWithYear(t, y);
    var n := |t|;
    QuotedWithYearLayout(t, y);
    LazySkipsQuoted(s, 1, n + 2);
    assert Patterns.YearTail(s, n + 2) == Some(n + 3);
    assert Patterns.LazyFrom(s, 0, n + 2) == Some(Patterns.Match("«" + t + "»", y, |s|));
    assert Patterns.MatchAt(s, Patterns.LazyYear, 0) == Patterns.LazyFrom(s, 0, 1);
    assert Patterns.FindFrom(s, Patterns.LazyYear, |s|) == [];
  }

  /** The catch-all pattern is not limited to unquoted titles: it matches a
      «…» title a second time, quotes included, so `«t» (y)` yields both
      `(t, y)` and `("«t»", y)`. */
  lemma CatchAllRecapturesQuoted(t: string, y: string)
    requires t != [] && !IsSpace(t[0]) && !IsSpace(t[|t| - 1])
    requires '»' !in t && ',' !in t && ';' !in t && '(' !in t
    requires |y| == 4 && AllDigits(y)
    ensures Candidate(t, DigitsValue(y)) in Extracted(QuotedWithYear(t, y))
    ensures Candidate("«" + t + "»", DigitsValue(y)) in Extracted(QuotedWithYear(t, y))
  {
    var s := QuotedWithYear(t, y);
    var quoted := "«" + t + "»";
    GuillemetsMatchBare(t, y);
    CatchAllMatchesQuoted(t, y);
    StripOfTrimmed(t);
    StripOfTrimmed(quoted);
    var c1 := Candidate(t, DigitsValue(y));
    var c2 := Candidate(quoted, DigitsValue(y));
    assert Candidates(Patterns.FindAll(s, TitlePatterns[0])) == [c1];
    assert Candidates(Patterns.FindAll(s, TitlePatterns[2])) == [c2];
    ExtractedGrouped(s);
    assert Stage(s, 1)[0] == c1;
    assert Stage(s, 2)[0] == c1;
    assert Stage(s, 3)[0] == c1;
  }

  // ---------------------------------------------------------------------------
  // _clean_title_for_comparison

  /** `re.sub(r"[^\w\s]", "", s)`: only word characters and whitespace stay. */
  function WordsAndSpaces(s: string): (r: string)
    ensures forall i :: 0 <= i < |r| ==> IsWordChar(r[i]) || IsSpace(r[i])
    ensures (forall i :: 0 <= i < |s| ==> IsWordChar(s[i]) || IsSpace(s[i])) ==> r == s
  {
    if s == [] then []
    else (if IsWordChar(s[0]) || IsSpace(s[0]) then [s[0]] else []) + WordsAndSpaces(s[1..])
  }

  /** `_clean_title_for_comparison`; `None` stands for a value that is not a string. */
  function CleanTitle(title: Option<string>): (r: string)
    ensures title.None? ==> r == []
  {
    match title
    case None => []
    case Some(t) => LowerStr(Join(" ", Split(WordsAndSpaces(t))))
  }

  /** A string the normaliser could return: lower-case word characters
      separated by single spaces, with no space at either end. */
  predicate CleanShape(r: string) {
    && Normalized(r)
    && (forall i :: 0 <= i < |r| ==> IsWordChar(r[i]) || r[i] == ' ')
    && (forall i :: 0 <= i < |r| ==> Lower(r[i]) == r[i])
  }

  lemma {:induction false} SplitWordChars(s: string)
    requires forall i :: 0 <= i < |s| ==> IsWordChar(s[i]) || IsSpace(s[i])
    ensures forall k, j :: 0 <= k < |Split(s)| && 0 <= j < |Split(s)[k]| ==> IsWordChar(Split(s)[k][j])
    decreases |s|
  {
    if s != [] {
      SplitWordChars(s[1..]);
      if !IsSpace(s[0]) {
        var k := WordEnd(s, 0);
        SplitWordChars(s[k..]);
        assert Split(s) == [s[..k]] + Split(s[k..]);
      }
    }
  }

  lemma {:induction false} JoinWordsShape(ws: seq<string>)
    requires forall k :: 0 <= k < |ws| ==> ws[k] != []
    requires forall k, j :: 0 <= k < |ws| && 0 <= j < |ws[k]| ==> IsWordChar(ws[k][j])
    ensures Normalized(Join(" ", ws))
    ensures forall i :: 0 <= i < |Join(" ", ws)| ==> IsWordChar(Join(" ", ws)[i]) || Join(" ", ws)[i] == ' '
  {
    if |ws| == 1 {
      forall i | 0 <= i < |ws[0]| ensures !IsSpace(ws[0][i]) {
        WordCharIsNotSpace(ws[0][i]);
      }
    } else if |ws| > 1 {
      var w := ws[0];
      var rest := Join(" ", ws[1..]);
      JoinWordsShape(ws[1..]);
      var j := w + " " + rest;
      assert j == Join(" ", ws);
      assert rest != [] by {
        assert ws[1..][0] != [];
        JoinFirst(ws[1..]);
      }
      JoinFirst(ws[1..]);
      forall i | 0 <= i < |w| ensures !IsSpace(w[i]) && j[i] == w[i] {
        WordCharIsNotSpace(w[i]);
      }
      WordCharIsNotSpace(rest[0]);
      forall i | 0 <= i < |j| ensures IsWordChar(j[i]) || j[i] == ' '
      {
        if i > |w| {
          assert j[i] == rest[i - |w| - 1];
        }
      }
      forall i | 0 <= i < |j| ensures IsSpace(j[i]) ==> j[i] == ' '
      {
        if i < |w| {
        } else if i > |w| {
          assert j[i] == rest[i - |w| - 1];
        }
      }
      forall i | 0 <= i < |j| - 1 ensures !(j[i] == ' ' && j[i + 1] == ' ')
      {
        if i + 1 < |w| {
        } else if i + 1 == |w| {
        } else if i == |w| {
          assert j[i + 1] == rest[0];
        } else {
          assert j[i] == rest[i - |w| - 1] && j[i + 1] == rest[i - |w|];
        }
      }
      assert j[|j| - 1] == rest[|rest| - 1];
    }
  }

  /** A join of non-empty words starts with the first word's first character. */
  lemma JoinFirst(ws: seq<string>)
    requires ws != [] && ws[0] != []
    ensures Join(" ", ws) != [] && Join(" ", ws)[0] == ws[0][0]
  {
  }

  /** The normaliser's result is lower-case word characters separated by
      single spaces, with none at either end. */
  lemma CleanTitleShape(title: Option<string>)
    ensures CleanShape(CleanTitle(title))
  {
    if title.Some? {
      var w := WordsAndSpaces(title.value);
      SplitWordChars(w);
      JoinWordsShape(Split(w));
      var j := Join(" ", Split(w));
      var r := LowerStr(j);
      forall i | 0 <= i < |j| ensures Lower(j[i]) == r[i] {
        LowerKeepsClasses(j[i]);
      }
      forall i | 0 <= i < |r| ensures (IsWordChar(r[i]) || r[i] == ' ') && Lower(r[i]) == r[i]
        && (IsSpace(r[i]) ==> r[i] == ' ')
      {
        LowerKeepsClasses(j[i]);
      }
      forall i | 0 <= i < |r| - 1 ensures !(r[i] == ' ' && r[i + 1] == ' ') {
        LowerKeepsClasses(j[i]);
        LowerKeepsClasses(j[i + 1]);
      }
      if r != [] {
        LowerKeepsClasses(j[0]);
        LowerKeepsClasses(j[|j| - 1]);
      }
    }
  }

  /** Normalising a normalised title changes nothing. */
  lemma CleanTitleIdempotent(title: Option<string>)
    ensures CleanTitle(Some(CleanTitle(title))) == CleanTitle(title)
  {
    var r := CleanTitle(title);
    CleanTitleShape(title);
    assert WordsAndSpaces(r) == r by {
      forall i | 0 <= i < |r| ensures IsWordChar(r[i]) || IsSpace(r[i]) {
      }
    }
    JoinSplitNormalized(r);
    assert LowerStr(r) == r;
  }

  // ---------------------------------------------------------------------------
  // _validate_movie_relevance

  /** TMDB_FUZZY_THRESHOLD */
  const Threshold: real := 0.4

  /** The oracles the engine talks to: the language model's reply to the
      translator's request `r` (the prompt `Translator.PromptOf(r)`) on each
      attempt, `None` when the attempt raised; `difflib`'s ratio; and
      `enrich_query` from a search title to a TMDB record. */
  datatype Services = Services(
    llm: Translator.Request -> nat -> Option<string>,
    ratio: (string, string) -> real,
    enrich: string -> Option<Tmdb.MovieDetails>)

  /** `detect_language(text)` with the default retries. */
  function DetectLanguage(text: string, svc: Services): Option<string> {
    Translator.DetectOutcome(text, svc.llm(Translator.DetectRequest(text)), 3)
  }

  /** The original title translated to Russian and cleaned: only when its
      cleaned form is non-empty and its detected language is not exactly "ru"
      (a failed detection counts as not "ru"). */
  function TranslatedOriginal(original: Option<string>, svc: Services): (r: string)
    ensures r != [] ==> CleanTitle(original) != [] && DetectLanguage(original.value, svc) != Some("ru")
  {
    if CleanTitle(original) != [] && DetectLanguage(original.value, svc) != Some("ru") then
      var t := original.value;
      CleanTitle(Some(Translator.TranslationOutcome(t, svc.llm(Translator.RussianRequest(t)), 3)))
    else []
  }

  /** The gate on comparisons with the user's query: more than one word and
      more than five characters once cleaned. */
  predicate QueryGate(cleanedQuery: string) {
    |Split(cleanedQuery)| > 1 && |cleanedQuery| > 5
  }

  /** The decision itself, on the cleaned strings: the query `q`, the model's
      title `l`, the localized title `loc`, the original title `orig` and the
      translated original title `tr`; the comparisons run in the source's
      order and the first that reaches the threshold decides. */
  function Decision(q: string, l: string, loc: string, orig: string, tr: string, ratio: (string, string) -> real): bool {
    if l != [] && loc != [] && ratio(l, loc) >= Threshold then true
    else if l != [] && tr != [] && ratio(l, tr) >= Threshold then true
    else if QueryGate(q) then
      if loc != [] && ratio(q, loc) >= Threshold then true
      else if orig != [] && ratio(q, orig) >= Threshold then true
      else tr != [] && ratio(q, tr) >= Threshold
    else false
  }

  /** `_validate_movie_relevance`: `m.title` and `m.originalTitle` are the
      record's `title` and `original_title`. */
  function Relevant(userQuery: string, llmTitle: string, m: Tmdb.MovieDetails, svc: Services): bool {
    Decision(CleanTitle(Some(userQuery)), CleanTitle(Some(llmTitle)), CleanTitle(m.title),
             CleanTitle(m.originalTitle), TranslatedOriginal(m.originalTitle, svc), svc.ratio)
  }

  /** `[(a, b)]` when both are non-empty. */
  function PairIf(a: string, b: string): (r: seq<(string, string)>)
    ensures forall k :: 0 <= k < |r| ==> r[k] == (a, b) && a != [] && b != []
  {
    if a != [] && b != [] then [(a, b)] else []
  }

  /** The comparisons that can be made, in order, with no empty side: the
      model's title against the localized and the translated original title;
      then, when the query passes the gate, the query against the localized,
      the original and the translated original title. */
  function Comparisons(q: string, l: string, loc: string, orig: string, tr: string): (cs: seq<(string, string)>)
    ensures forall k :: 0 <= k < |cs| ==> cs[k].0 != [] && cs[k].1 != []
    ensures forall k :: 0 <= k < |cs| ==> cs[k].0 in {l, q} && cs[k].1 in {loc, orig, tr}
  {
    PairIf(l, loc) + PairIf(l, tr)
    + (if QueryGate(q) then PairIf(q, loc) + PairIf(q, orig) + PairIf(q, tr) else [])
  }

  /** Some comparison of `cs` reaches the threshold. */
  predicate AnyHit(cs: seq<(string, string)>, ratio: (string, string) -> real) {
    exists k :: 0 <= k < |cs| && ratio(cs[k].0, cs[k].1) >= Threshold
  }

  lemma AnyHitAppend(x: seq<(string, string)>, y: seq<(string, string)>, ratio: (string, string) -> real)
    ensures AnyHit(x + y, ratio) <==> AnyHit(x, ratio) || AnyHit(y, ratio)
  {
    var xy := x + y;
    if AnyHit(xy, ratio) {
      var k :| 0 <= k < |xy| && ratio(xy[k].0, xy[k].1) >= Threshold;
      if k >= |x| {
        assert y[k - |x|] == xy[k];
      }
    }
    if AnyHit(y, ratio) {
      var k :| 0 <= k < |y| && ratio(y[k].0, y[k].1) >= Threshold;
      assert xy[|x| + k] == y[k];
    }
    if AnyHit(x, ratio) {
      var k :| 0 <= k < |x| && ratio(x[k].0, x[k].1) >= Threshold;
      assert xy[k] == x[k];
    }
  }

  lemma AnyHitPair(a: string, b: string, ratio: (string, string) -> real)
    ensures AnyHit(PairIf(a, b), ratio) <==> a != [] && b != [] && ratio(a, b) >= Threshold
  {
    if a != [] && b != [] {
      assert PairIf(a, b)[0] == (a, b);
    }
  }

  /** The early returns decide exactly "some comparison reaches the
      threshold": neither their order nor the skipped empty titles change the
      answer. */
  lemma DecisionIffSomeComparison(q: string, l: string, loc: string, orig: string, tr: string, ratio: (string, string) -> real)
    ensures Decision(q, l, loc, orig, tr, ratio) <==> AnyHit(Comparisons(q, l, loc, orig, tr), ratio)
  {
    var a, b := PairIf(l, loc), PairIf(l, tr);
    var c, d, e := PairIf(q, loc), PairIf(q, orig), PairIf(q, tr);
    AnyHitPair(l, loc, ratio);
    AnyHitPair(l, tr, ratio);
    AnyHitPair(q, loc, ratio);
    AnyHitPair(q, orig, ratio);
    AnyHitPair(q, tr, ratio);
    AnyHitAppend(a, b, ratio);
    AnyHitAppend(c, d, ratio);
    AnyHitAppend(c + d, e, ratio);
    var tail: seq<(string, string)> := if QueryGate(q) then c + d + e else [];
    AnyHitAppend(a + b, tail, ratio);
  }

  /** Only the query and titles that are not all punctuation matter: with an
      empty cleaned model title and a query that fails the gate, no movie is
      relevant. */
  lemma NothingToCompare(q: string, loc: string, orig: string, tr: string, ratio: (string, string) -> real)
    requires !QueryGate(q)
    ensures !Decision(q, [], loc, orig, tr, ratio)
    ensures Comparisons(q, [], loc, orig, tr) == []
  {
  }

  // ---------------------------------------------------------------------------
  // generate_recommendations

  /** The fixed texts of the three result shapes. */
  const NoTitlesError: string := "К сожалению, LLM не смогла сгенерировать понятные названия фильмов. Пожалуйста, попробуйте перефразировать ваш запрос."
  const NoTitlesReply: string := "Я не смог найти фильмы по вашему запросу."
  const NoMoviesReply: string := "К сожалению, я не смог найти подходящих фильмов по вашему запросу. Пожалуйста, попробуйте перефразировать или быть более конкретным."
  const UnexpectedError: string := "Произошла непредвиденная ошибка при обработке вашего запроса. Пожалуйста, попробуйте еще раз."

  /** The returned dictionary: `None` for a key that is absent. */
  datatype Response = Response(error: Option<string>, llmResponse: Option<string>, recommendations: Option<seq<Tmdb.MovieDetails>>)

  const NoTitlesResponse: Response := Response(Some(NoTitlesError), Some(NoTitlesReply), Some([]))
  const FailedResponse: Response := Response(Some(UnexpectedError), None, None)

  /** The user's query and the services. */
  datatype Env = Env(userQuery: string, svc: Services)

  /** The query's detected language is "ru" in any case. */
  predicate QueryIsRussian(env: Env) {
    var d := DetectLanguage(env.userQuery, env.svc);
    d.Some? && LowerStr(d.value) == "ru"
  }

  /** The title searched on TMDB: for a Russian query, the English translation
      when it really differs from the candidate title; otherwise the title. */
  function SearchTitle(env: Env, title: string): string {
    if QueryIsRussian(env) then PreferTranslation(title, EnglishTitle(title, env.svc), env.svc.ratio) else title
  }

  /** `translate_to_english(title)` with the default retries. */
  function EnglishTitle(title: string, svc: Services): string {
    Translator.TranslationOutcome(title, svc.llm(Translator.EnglishRequest(title)), 3)
  }

  /** The translation when it really differs from the title, else the title. */
  function PreferTranslation(title: string, translated: string, ratio: (string, string) -> real): (r: string)
    ensures r == title || r == translated
    ensures r != title ==> Translator.IsTranslationDifferent(title, translated, ratio)
  {
    if Translator.IsTranslationDifferent(title, translated, ratio) then translated else title
  }

  /** What the loop does with one candidate: the TMDB record when it is found
      and judged relevant, else nothing. */
  function Accepted(env: Env, c: Candidate): Option<Tmdb.MovieDetails> {
    match env.svc.enrich(SearchTitle(env, c.title))
    case None => None
    case Some(m) => if Relevant(env.userQuery, c.title, m, env.svc) then Some(m) else None
  }

  /** A candidate is accepted exactly when the search finds a record and the
      record is judged relevant; what is accepted is that record. */
  lemma AcceptedIffFoundAndRelevant(env: Env, c: Candidate, m: Tmdb.MovieDetails)
    ensures Accepted(env, c) == Some(m) <==>
      env.svc.enrich(SearchTitle(env, c.title)) == Some(m) && Relevant(env.userQuery, c.title, m, env.svc)
    ensures Accepted(env, c).None? <==>
      forall m' :: env.svc.enrich(SearchTitle(env, c.title)) == Some(m') ==> !Relevant(env.userQuery, c.title, m', env.svc)
  {
  }

  /** The decisions for the candidates, in order. */
  function Decisions(env: Env, cs: seq<Candidate>): (ds: seq<Option<Tmdb.MovieDetails>>)
    ensures |ds| == |cs| && forall k :: 0 <= k < |cs| ==> ds[k] == Accepted(env, cs[k])
  {
    seq(|cs|, k requires 0 <= k < |cs| => Accepted(env, cs[k]))
  }

  /** The store after accepting `m`: the movie is added when its TMDB id is not
      stored yet, and a "recommendation" history row is appended when the movie
      has a DB id. */
  function StoreAccepted(t: MovieStore.Tables, m: Tmdb.MovieDetails, userId: int): MovieStore.Tables {
    match MovieStore.IdOfTmdb(t.movies, m.tmdbId)
    case Some(id) => MovieStore.WithHistory(t, userId, id, "recommendation")
    case None =>
      if MovieStore.Storable(m) then
        MovieStore.WithHistory(MovieStore.UpsertMovie(t, m), userId, t.nextMovieId, "recommendation")
      else t
  }

  /** The year shown for `m`: `int(release_date[:4])` when the date is truthy
      (`None` when `int` raises), else "N/A". */
  function DisplayYear(m: Tmdb.MovieDetails): (r: Option<string>)
    ensures !Tmdb.Truthy(m.releaseDate) ==> r == Some("N/A")
    ensures r.None? ==> Tmdb.Truthy(m.releaseDate) && PyInt(PyTake(m.releaseDate.value, 4)).None?
  {
    if Tmdb.Truthy(m.releaseDate) then
      match PyInt(PyTake(m.releaseDate.value, 4))
      case Some(y) => Some(IntToString(y))
      case None => None
    else Some("N/A")
  }

  /** `f"**{escaped_title}** ({year})"` */
  function DisplayLine(escapedTitle: string, year: string): string {
    "**" + escapedTitle + "** (" + year + ")"
  }

  function EscapedTitle(title: Option<string>): string {
    if title.Some? then Escaped(title.value) else []
  }

  /** The loop's state: the store, the accepted movies, their display lines,
      and whether an exception ended the loop. */
  datatype Progress = Progress(tables: MovieStore.Tables, recs: seq<Tmdb.MovieDetails>, lines: seq<string>, failed: bool)

  /** One candidate's decision applied: when accepted, the movie is stored,
      recorded and listed; a year that `int` cannot read raises after the
      store writes. */
  function Step(p: Progress, d: Option<Tmdb.MovieDetails>, userId: int): Progress {
    match d
    case None => p
    case Some(m) =>
      var t := StoreAccepted(p.tables, m, userId);
      match DisplayYear(m)
      case None => Progress(t, p.recs + [m], p.lines, true)
      case Some(y) => Progress(t, p.recs + [m], p.lines + [DisplayLine(EscapedTitle(m.title), y)], false)
  }

  /** The decisions applied in order; an exception stops the loop. */
  function Process(t: MovieStore.Tables, ds: seq<Option<Tmdb.MovieDetails>>, userId: int): Progress {
    if ds == [] then Progress(t, [], [], false)
    else
      var p := Process(t, ds[..|ds| - 1], userId);
      if p.failed then p else Step(p, ds[|ds| - 1], userId)
  }

  /** The result dictionary for the loop's final state. */
  function Respond(p: Progress, finalReply: seq<string> -> string): (r: Response)
    ensures p.failed ==> r == FailedResponse
    ensures !p.failed ==> r.error.None? && r.recommendations == Some(p.recs)
    ensures !p.failed && p.recs == [] ==> r.llmResponse == Some(NoMoviesReply)
  {
    if p.failed then FailedResponse
    else if p.recs == [] then Response(None, Some(NoMoviesReply), Some([]))
    else Response(None, Some(finalReply(p.lines)), Some(p.recs))
  }

  lemma {:induction false} ProcessFailedPrefix(t: MovieStore.Tables, ds: seq<Option<Tmdb.MovieDetails>>, userId: int, i: nat)
    requires i <= |ds| && Process(t, ds[..i], userId).failed
    ensures Process(t, ds, userId) == Process(t, ds[..i], userId)
    decreases |ds|
  {
    if i < |ds| {
      assert ds[..|ds| - 1][..i] == ds[..i];
      ProcessFailedPrefix(t, ds[..|ds| - 1], userId, i);
    } else {
      assert ds[..i] == ds;
    }
  }

  lemma ProcessSnoc(t: MovieStore.Tables, ds: seq<Option<Tmdb.MovieDetails>>, i: nat, userId: int)
    requires i < |ds| && !Process(t, ds[..i], userId).failed
    ensures Process(t, ds[..i + 1], userId) == Step(Process(t, ds[..i], userId), ds[i], userId)
  {
    assert ds[..i + 1][..i] == ds[..i];
  }

  /** The title to search for, chosen as the loop body chooses it. */
  method ChooseSearchTitle(env: Env, title: string, russian: bool) returns (search: string)
    requires russian == QueryIsRussian(env)
    ensures search == SearchTitle(env, title)
  {
    search := title;
    if russian {
      var translated, _ := Translator.Translate(title, env.svc.llm(Translator.EnglishRequest(title)), 3, 1);
      search := PreferTranslation(title, translated, env.svc.ratio);
    }
  }

  /** The decision for one candidate, made as the loop body makes it;
      `russian` is the query's detected language test, made once. */
  method Decide(env: Env, c: Candidate, russian: bool) returns (d: Option<Tmdb.MovieDetails>)
    requires russian == QueryIsRussian(env)
    ensures d == Accepted(env, c)
  {
    var search := ChooseSearchTitle(env, c.title, russian);
    var found := env.svc.enrich(search);
    if found.Some? && Relevant(env.userQuery, c.title, found.value, env.svc) {
      d := found;
    } else {
      d := None;
    }
  }

  /** The store writes for an accepted movie: look its TMDB id up, add it when
      missing, then record the recommendation. */
  method AcceptMovie(db: MovieStore.MovieDatabase, m: Tmdb.MovieDetails, userId: int)
    requires db.Valid()
    modifies db
    ensures db.Valid()
    ensures db.Contents() == StoreAccepted(old(db.Contents()), m, userId)
  {
    var id := db.GetMovieIdByTmdbId(m.tmdbId);
    if id.None? || id.value == 0 {
      id := db.AddMovie(m, false, None);
    }
    if id.Some? && id.value != 0 {
      var _ := db.AddUserHistory(userId, id.value, "recommendation", false);
    }
  }

  /** The loop body after the decision: store, record and list an accepted
      movie; `failed` when its year cannot be read. */
  method Advance(db: MovieStore.MovieDatabase, d: Option<Tmdb.MovieDetails>, userId: int,
                 recs: seq<Tmdb.MovieDetails>, lines: seq<string>)
    returns (recs': seq<Tmdb.MovieDetails>, lines': seq<string>, failed: bool)
    requires db.Valid()
    modifies db
    ensures db.Valid()
    ensures Progress(db.Contents(), recs', lines', failed) == Step(Progress(old(db.Contents()), recs, lines, false), d, userId)
  {
    recs', lines', failed := recs, lines, false;
    if d.Some? {
      var m := d.value;
      AcceptMovie(db, m, userId);
      recs' := recs + [m];
      var year := DisplayYear(m);
      if year.None? {
        return recs', lines', true;
      }
      var escaped := EscapeMarkdownV2(m.title);
      lines' := lines + [DisplayLine(escaped, year.value)];
    }
  }

  /** Whether the query's detected language is "ru", in any case. */
  method DetectRussian(env: Env) returns (russian: bool)
    ensures russian == QueryIsRussian(env)
  {
    var detected, _ := Translator.DetectWith(env.userQuery, env.svc.llm(Translator.DetectRequest(env.userQuery)), 3, 1);
    russian := detected.Some? && LowerStr(detected.value) == "ru";
  }

  /** The loop over the first candidates: decide, then store and list. */
  method ProcessCandidates(db: MovieStore.MovieDatabase, env: Env, todo: seq<Candidate>, russian: bool, userId: int)
    returns (recs: seq<Tmdb.MovieDetails>, lines: seq<string>, failed: bool)
    requires db.Valid() && russian == QueryIsRussian(env)
    modifies db
    ensures db.Valid()
    ensures Progress(db.Contents(), recs, lines, failed) == Process(old(db.Contents()), Decisions(env, todo), userId)
  {
    ghost var ds := Decisions(env, todo);
    ghost var t0 := db.Contents();
    recs, lines, failed := [], [], false;
    var i := 0;
    while i < |todo|
      invariant 0 <= i <= |todo|
      invariant db.Valid()
      invariant Process(t0, ds[..i], userId) == Progress(db.Contents(), recs, lines, false)
    {
      var d := Decide(env, todo[i], russian);
      ProcessSnoc(t0, ds, i, userId);
      recs, lines, failed := Advance(db, d, userId, recs, lines);
      if failed {
        ProcessFailedPrefix(t0, ds, userId, i + 1);
        return;
      }
      i := i + 1;
    }
    assert ds[..i] == ds;
  }

  /** `generate_recommendations(user_query, user_id)`. `candidateReply` is the
      model's reply to the query and its context; `finalReply` gives the
      model's reply to the final prompt built from the display lines. */
  method GenerateRecommendations(db: MovieStore.MovieDatabase, userQuery: string, userId: int,
                                 candidateReply: string, finalReply: seq<string> -> string, svc: Services)
    returns (response: Response)
    requires db.Valid()
    modifies db
    ensures db.Valid()
    ensures Extracted(candidateReply) == [] ==> response == NoTitlesResponse && db.Contents() == old(db.Contents())
    ensures Extracted(candidateReply) != [] ==>
      var p := Process(old(db.Contents()), Decisions(Env(userQuery, svc), PyTake(Extracted(candidateReply), 5)), userId);
      db.Contents() == p.tables && response == Respond(p, finalReply)
  {
    var env := Env(userQuery, svc);
    var russian := DetectRussian(env);
    var candidates := ExtractTitles(candidateReply);
    if candidates == [] {
      return NoTitlesResponse;
    }
    var recs, lines, failed := ProcessCandidates(db, env, PyTake(candidates, 5), russian, userId);
    if failed {
      response := FailedResponse;
    } else if recs == [] {
      response := Response(None, Some(NoMoviesReply), Some([]));
    } else {
      response := Response(None, Some(finalReply(lines)), Some(recs));
    }
  }

  // ---------------------------------------------------------------------------
  // Properties of the loop

  /** `u` is `t` with only what the loop may write: valid tables; the same
      users, preferences and ratings; existing movie rows untouched; only
      "recommendation" rows of `userId` appended to the history. */
  predicate Extends(t: MovieStore.Tables, u: MovieStore.Tables, userId: int) {
    && MovieStore.ValidTables(u)
    && u.users == t.users && u.preferences == t.preferences && u.ratings == t.ratings
    && |t.movies| <= |u.movies| && u.movies[..|t.movies|] == t.movies
    && |t.history| <= |u.history| && u.history[..|t.history|] == t.history
    && (forall k :: |t.history| <= k < |u.history| ==>
          u.history[k].userId == userId && u.history[k].action == "recommendation")
  }

  lemma ExtendsTrans(t: MovieStore.Tables, u: MovieStore.Tables, v: MovieStore.Tables, userId: int)
    requires Extends(t, u, userId) && Extends(u, v, userId)
    ensures Extends(t, v, userId)
  {
    assert v.movies[..|t.movies|] == v.movies[..|u.movies|][..|t.movies|];
    assert v.history[..|t.history|] == v.history[..|u.history|][..|t.history|];
    forall k | |t.history| <= k < |v.history|
      ensures v.history[k].userId == userId && v.history[k].action == "recommendation"
    {
      if k < |u.history| {
        assert v.history[k] == v.history[..|u.history|][k];
      }
    }
  }

  /** What one step leaves in the store. */
  lemma StepEffects(p: Progress, d: Option<Tmdb.MovieDetails>, userId: int)
    requires MovieStore.ValidTables(p.tables)
    ensures var t := p.tables; var q := Step(p, d, userId); var u := q.tables;
      && Extends(t, u, userId)
      && (d.None? ==> q == p)
      && (d.Some? ==>
            && q.recs == p.recs + [d.value]
            && (MovieStore.Storable(d.value) ==>
                  |u.history| == |t.history| + 1 && MovieStore.IdOfTmdb(u.movies, d.value.tmdbId).Some?))
  {
    if d.None? {
      var t := p.tables;
      assert t.movies[..|t.movies|] == t.movies;
      assert t.history[..|t.history|] == t.history;
    } else {
      StoreAcceptedEffects(p.tables, d.value, userId);
    }
  }

  /** What accepting one movie does to the store. */
  lemma StoreAcceptedEffects(t: MovieStore.Tables, m: Tmdb.MovieDetails, userId: int)
    requires MovieStore.ValidTables(t)
    ensures var u := StoreAccepted(t, m, userId);
      && Extends(t, u, userId)
      && (MovieStore.Storable(m) ==>
            |u.history| == |t.history| + 1 && MovieStore.IdOfTmdb(u.movies, m.tmdbId).Some?)
  {
    match MovieStore.IdOfTmdb(t.movies, m.tmdbId)
    case Some(id) => RecordOnlyEffects(t, m, id, userId);
    case None =>
      if MovieStore.Storable(m) {
        NewMovieEffects(t, m, userId);
      } else {
        assert StoreAccepted(t, m, userId) == t;
        assert t.movies[..|t.movies|] == t.movies;
        assert t.history[..|t.history|] == t.history;
      }
  }

  /** A movie already stored only gains a history row. */
  lemma RecordOnlyEffects(t: MovieStore.Tables, m: Tmdb.MovieDetails, id: nat, userId: int)
    requires MovieStore.ValidTables(t) && MovieStore.IdOfTmdb(t.movies, m.tmdbId) == Some(id)
    ensures var u := StoreAccepted(t, m, userId);
      && Extends(t, u, userId) && |u.history| == |t.history| + 1 && MovieStore.IdOfTmdb(u.movies, m.tmdbId).Some?
  {
    var u := StoreAccepted(t, m, userId);
    assert u == MovieStore.WithHistory(t, userId, id, "recommendation");
    assert u.movies == t.movies && u.history == t.history + [MovieStore.HistoryRow(userId, id, "recommendation")];
    assert u.movies[..|t.movies|] == t.movies;
    assert u.history[..|t.history|] == t.history;
  }

  /** A movie not stored yet is added under the next id and recorded under it. */
  lemma NewMovieEffects(t: MovieStore.Tables, m: Tmdb.MovieDetails, userId: int)
    requires MovieStore.ValidTables(t) && MovieStore.IdOfTmdb(t.movies, m.tmdbId).None? && MovieStore.Storable(m)
    ensures var u := StoreAccepted(t, m, userId);
      && Extends(t, u, userId) && |u.history| == |t.history| + 1 && MovieStore.IdOfTmdb(u.movies, m.tmdbId).Some?
  {
    MovieStore.UpsertKeepsValid(t, m);
    var v := MovieStore.UpsertMovie(t, m);
    assert MovieStore.FindByTmdb(t.movies, m.tmdbId.value).None?;
    assert v.movies == t.movies + [MovieStore.RowOf(t.nextMovieId, m)];
    var u := StoreAccepted(t, m, userId);
    assert u == MovieStore.WithHistory(v, userId, t.nextMovieId, "recommendation");
    assert u.movies == v.movies;
    assert u.movies[|t.movies|].tmdbId == m.tmdbId.value;
    assert u.movies[..|t.movies|] == t.movies;
    assert u.history[..|t.history|] == t.history;
  }

  /** What the loop leaves in the store: only new movie rows and this
      user's "recommendation" history rows are written, and the tables stay
      valid. */
  lemma {:induction false} ProcessEffects(t: MovieStore.Tables, ds: seq<Option<Tmdb.MovieDetails>>, userId: int)
    requires MovieStore.ValidTables(t)
    ensures Extends(t, Process(t, ds, userId).tables, userId)
    decreases |ds|
  {
    if ds == [] {
      assert t.movies[..|t.movies|] == t.movies;
      assert t.history[..|t.history|] == t.history;
    } else {
      var p := Process(t, ds[..|ds| - 1], userId);
      ProcessEffects(t, ds[..|ds| - 1], userId);
      if !p.failed {
        StepEffects(p, ds[|ds| - 1], userId);
        ExtendsTrans(t, p.tables, Step(p, ds[|ds| - 1], userId).tables, userId);
      }
    }
  }

  /** Without an exception the recommendations are exactly the accepted
      decisions, in order, and every one has a display line. */
  lemma {:induction false} ProcessRecommendations(t: MovieStore.Tables, ds: seq<Option<Tmdb.MovieDetails>>, userId: int)
    ensures var p := Process(t, ds, userId);
      !p.failed ==> p.recs == Chosen(ds) && |p.lines| == |p.recs|
    decreases |ds|
  {
    if ds != [] {
      var init := ds[..|ds| - 1];
      var d := ds[|ds| - 1];
      var p := Process(t, init, userId);
      if !p.failed {
        ProcessRecommendations(t, init, userId);
        StepShape(p, d, userId);
        assert Process(t, ds, userId) == Step(p, d, userId);
        assert Chosen(ds) == Chosen(init) + (if d.Some? then [d.value] else []);
      }
    }
  }

  /** An exception ends the loop at an accepted movie whose year cannot be
      read; the recommendations are then the accepted decisions up to it. */
  lemma {:induction false} ProcessFailure(t: MovieStore.Tables, ds: seq<Option<Tmdb.MovieDetails>>, userId: int)
    ensures var p := Process(t, ds, userId);
      p.failed ==> p.recs != [] && DisplayYear(p.recs[|p.recs| - 1]).None? && ChosenUpTo(ds, p.recs)
    decreases |ds|
  {
    if ds != [] {
      var init := ds[..|ds| - 1];
      var p := Process(t, init, userId);
      if p.failed {
        ProcessFailure(t, init, userId);
        FailureKept(t, ds, userId);
      } else {
        ProcessRecommendations(t, init, userId);
        FailureAtLast(t, ds, userId);
      }
    }
  }

  lemma FailureKept(t: MovieStore.Tables, ds: seq<Option<Tmdb.MovieDetails>>, userId: int)
    requires ds != []
    requires var p := Process(t, ds[..|ds| - 1], userId);
      p.failed && p.recs != [] && DisplayYear(p.recs[|p.recs| - 1]).None? && ChosenUpTo(ds[..|ds| - 1], p.recs)
    ensures Process(t, ds, userId) == Process(t, ds[..|ds| - 1], userId)
    ensures ChosenUpTo(ds, Process(t, ds, userId).recs)
  {
    ChosenUpToLonger(ds[..|ds| - 1], ds, Process(t, ds[..|ds| - 1], userId).recs);
  }

  lemma FailureAtLast(t: MovieStore.Tables, ds: seq<Option<Tmdb.MovieDetails>>, userId: int)
    requires ds != []
    requires var p := Process(t, ds[..|ds| - 1], userId);
      !p.failed && p.recs == Chosen(ds[..|ds| - 1])
    ensures var q := Process(t, ds, userId);
      q.failed ==> q.recs != [] && DisplayYear(q.recs[|q.recs| - 1]).None? && ChosenUpTo(ds, q.recs)
  {
    var init := ds[..|ds| - 1];
    var d := ds[|ds| - 1];
    var p := Process(t, init, userId);
    var q := Step(p, d, userId);
    assert Process(t, ds, userId) == q;
    StepShape(p, d, userId);
    if q.failed {
      assert Chosen(ds) == Chosen(init) + [d.value];
      ChosenUpToWhole(ds, q.recs);
    }
  }

  /** `recs` are the accepted decisions among some non-empty prefix of `ds`. */
  predicate ChosenUpTo(ds: seq<Option<Tmdb.MovieDetails>>, recs: seq<Tmdb.MovieDetails>) {
    exists i :: 0 < i <= |ds| && recs == Chosen(ds[..i])
  }

  lemma ChosenUpToLonger(init: seq<Option<Tmdb.MovieDetails>>, ds: seq<Option<Tmdb.MovieDetails>>, recs: seq<Tmdb.MovieDetails>)
    requires |init| <= |ds| && ds[..|init|] == init && ChosenUpTo(init, recs)
    ensures ChosenUpTo(ds, recs)
  {
    var i :| 0 < i <= |init| && recs == Chosen(init[..i]);
    assert init[..i] == ds[..i];
  }

  lemma ChosenUpToWhole(ds: seq<Option<Tmdb.MovieDetails>>, recs: seq<Tmdb.MovieDetails>)
    requires ds != [] && recs == Chosen(ds)
    ensures ChosenUpTo(ds, recs)
  {
    assert ds[..|ds|] == ds;
  }

  /** The recommendations, lines and failure flag after one step. */
  lemma StepShape(p: Progress, d: Option<Tmdb.MovieDetails>, userId: int)
    requires !p.failed
    ensures var q := Step(p, d, userId);
      && q.recs == p.recs + (if d.Some? then [d.value] else [])
      && (q.failed <==> d.Some? && DisplayYear(d.value).None?)
      && (!q.failed ==> |q.lines| == |p.lines| + (if d.Some? then 1 else 0))
  {
  }

  /** The accepted movies among the decisions, in order. */
  function Chosen(ds: seq<Option<Tmdb.MovieDetails>>): (r: seq<Tmdb.MovieDetails>)
    ensures |r| <= |ds|
    ensures forall k :: 0 <= k < |r| ==> Some(r[k]) in ds
  {
    if ds == [] then []
    else
      var init := Chosen(ds[..|ds| - 1]);
      assert forall x :: x in ds[..|ds| - 1] ==> x in ds;
      match ds[|ds| - 1]
      case None => init
      case Some(m) => init + [m]
  }

  /** A TMDB id found in a table is still found once rows are appended. */
  lemma IdKept(before: seq<MovieStore.MovieRow>, after: seq<MovieStore.MovieRow>, tmdbId: Option<int>)
    requires |before| <= |after| && after[..|before|] == before
    requires MovieStore.IdOfTmdb(before, tmdbId).Some?
    ensures MovieStore.IdOfTmdb(after, tmdbId).Some?
  {
    var i :| 0 <= i < |before| && before[i].tmdbId == tmdbId.value;
    assert after[i] == after[..|before|][i];
  }

  /** After the loop every accepted movie that SQLite can store is in the
      store, found by its TMDB id, and the history has gained one row for each
      of them. */
  lemma {:induction false} AcceptedAreStored(t: MovieStore.Tables, ds: seq<Option<Tmdb.MovieDetails>>, userId: int)
    requires MovieStore.ValidTables(t)
    ensures var p := Process(t, ds, userId);
      && (forall k :: 0 <= k < |p.recs| && MovieStore.Storable(p.recs[k]) ==>
            MovieStore.IdOfTmdb(p.tables.movies, p.recs[k].tmdbId).Some?)
      && ((forall k :: 0 <= k < |p.recs| ==> MovieStore.Storable(p.recs[k])) ==>
            |p.tables.history| == |t.history| + |p.recs|)
    decreases |ds|
  {
    if ds != [] {
      var init := ds[..|ds| - 1];
      var p := Process(t, init, userId);
      AcceptedAreStored(t, init, userId);
      ProcessEffects(t, init, userId);
      if !p.failed {
        var d := ds[|ds| - 1];
        assert Process(t, ds, userId) == Step(p, d, userId);
        StepKeepsFound(p, d, userId);
        StepKeepsCount(t, p, d, userId);
      }
    }
  }

  /** Every storable recommendation can be found by its TMDB id. */
  predicate AllFound(p: Progress) {
    forall k :: 0 <= k < |p.recs| && MovieStore.Storable(p.recs[k]) ==>
      MovieStore.IdOfTmdb(p.tables.movies, p.recs[k].tmdbId).Some?
  }

  lemma StepKeepsFound(p: Progress, d: Option<Tmdb.MovieDetails>, userId: int)
    requires MovieStore.ValidTables(p.tables) && !p.failed && AllFound(p)
    ensures AllFound(Step(p, d, userId))
  {
    var q := Step(p, d, userId);
    StepEffects(p, d, userId);
    StepShape(p, d, userId);
    forall k | 0 <= k < |q.recs| && MovieStore.Storable(q.recs[k])
      ensures MovieStore.IdOfTmdb(q.tables.movies, q.recs[k].tmdbId).Some?
    {
      if k < |p.recs| {
        assert q.recs[k] == p.recs[k];
        IdKept(p.tables.movies, q.tables.movies, q.recs[k].tmdbId);
      }
    }
  }

  lemma StepKeepsCount(t: MovieStore.Tables, p: Progress, d: Option<Tmdb.MovieDetails>, userId: int)
    requires MovieStore.ValidTables(p.tables) && !p.failed
    requires (forall k :: 0 <= k < |p.recs| ==> MovieStore.Storable(p.recs[k])) ==>
               |p.tables.history| == |t.history| + |p.recs|
    ensures var q := Step(p, d, userId);
      (forall k :: 0 <= k < |q.recs| ==> MovieStore.Storable(q.recs[k])) ==>
        |q.tables.history| == |t.history| + |q.recs|
  {
    var q := Step(p, d, userId);
    StepEffects(p, d, userId);
    StepShape(p, d, userId);
    if forall k :: 0 <= k < |q.recs| ==> MovieStore.Storable(q.recs[k]) {
      assert forall k :: 0 <= k < |p.recs| ==> p.recs[k] == q.recs[k];
      if d.Some? {
        assert q.recs[|p.recs|] == d.value;
      }
    }
  }
}

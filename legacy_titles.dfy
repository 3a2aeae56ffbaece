/** Titles in the legacy recommendation engine (recommendation.py): the two
    regular-expression tiers that extract titles from a model reply, the
    cleaning of a title before the TMDB search, and the scoring that picks
    the best search result. */
module LegacyTitles {
  import opened Wrappers
  import opened Text
  import opened Seqs
  import Patterns

  // ---------------------------------------------------------------------------
  // _extract_movie_titles

  /** `**"T" (Y)**`, `"T" (Y)`, `**T** (Y)`, `«T» (Y)` and `"T" (Y)` again. */
  const YearPatterns: seq<Patterns.Pattern> := [
    Patterns.Quoted("**\"", '"', "\"", true, "**"),
    Patterns.Quoted("\"", '"', "\"", true, ""),
    Patterns.Quoted("**", '*', "**", true, ""),
    Patterns.Quoted("«", '»', "»", true, ""),
    Patterns.Quoted("\"", '"', "\"", true, "")
  ]

  /** `**"T"**`, `"T"`, `**T**` and `«T»`. */
  const SimplePatterns: seq<Patterns.Pattern> := [
    Patterns.Quoted("**\"", '"', "\"**", false, ""),
    Patterns.Quoted("\"", '"', "\"", false, ""),
    Patterns.Quoted("**", '*', "**", false, ""),
    Patterns.Quoted("«", '»', "»", false, "")
  ]

  /** Words that are never taken for a title, compared lower-cased. */
  const StopWords: seq<string> := ["год", "фильм", "года", "this", "that"]

  /** `f"{title.strip()} ({year})"` */
  function YearEntry(m: Patterns.Match): string {
    Strip(m.title) + " (" + m.year + ")"
  }

  /** Ends in a blank, a bracketed four-digit year and nothing else. */
  predicate YearShaped(e: string) {
    |e| >= 7 && e[|e| - 7..|e| - 5] == " (" && |e[|e| - 5..|e| - 1]| == 4
    && AllDigits(e[|e| - 5..|e| - 1]) && e[|e| - 1] == ')'
  }

  function YearEntries(ms: seq<Patterns.Match>): (es: seq<string>)
    ensures |es| == |ms| && forall k :: 0 <= k < |ms| ==> es[k] == YearEntry(ms[k])
  {
    seq(|ms|, k requires 0 <= k < |ms| => YearEntry(ms[k]))
  }

  /** The year tier after the patterns `ps`, each match's entry added once. */
  function YearTier(text: string, ps: seq<Patterns.Pattern>): seq<string> {
    if ps == [] then []
    else AppendNew(YearTier(text, ps[..|ps| - 1]), YearEntries(Patterns.FindAll(text, ps[|ps| - 1])))
  }

  /** A stripped simple title is kept when it is longer than three characters and not a stop word. */
  predicate KeepSimple(t: string) {
    |t| > 3 && LowerStr(t) !in StopWords
  }

  /** The kept, stripped titles of the matches `ms`, in order. */
  function SimpleEntries(ms: seq<Patterns.Match>): (es: seq<string>)
    ensures forall k :: 0 <= k < |es| ==> KeepSimple(es[k])
  {
    if ms == [] then []
    else
      var t := Strip(ms[|ms| - 1].title);
      SimpleEntries(ms[..|ms| - 1]) + (if KeepSimple(t) then [t] else [])
  }

  /** The simple tier after the patterns `ps`. */
  function SimpleTier(text: string, ps: seq<Patterns.Pattern>): seq<string> {
    if ps == [] then []
    else AppendNew(SimpleTier(text, ps[..|ps| - 1]), SimpleEntries(Patterns.FindAll(text, ps[|ps| - 1])))
  }

  /** What `_extract_movie_titles` returns: the year tier if it found
      anything, else the simple tier if it found anything, else the titles
      of the language-model fallback, given as `fallback`. */
  function Extracted(text: string, fallback: seq<string>): seq<string> {
    var withYears := YearTier(text, YearPatterns);
    if withYears != [] then withYears
    else
      var simple := SimpleTier(text, SimplePatterns);
      if simple != [] then simple else fallback
  }

  /** `_extract_movie_titles`, pattern by pattern and match by match. */
  method ExtractMovieTitles(text: string, fallback: seq<string>) returns (titles: seq<string>)
    ensures titles == Extracted(text, fallback)
  {
    titles := ScanYearTier(text, YearPatterns);
    if titles != [] {
      return;
    }
    titles := ScanSimpleTier(text, SimplePatterns);
    if titles == [] {
      titles := fallback;
    }
  }

  /** The loop over the year patterns. */
  method ScanYearTier(text: string, ps: seq<Patterns.Pattern>) returns (titles: seq<string>)
    ensures titles == YearTier(text, ps)
  {
    titles := [];
    for p := 0 to |ps|
      invariant titles == YearTier(text, ps[..p])
    {
      assert ps[..p + 1][..p] == ps[..p];
      titles := AddYearEntries(titles, Patterns.FindAll(text, ps[p]));
    }
    assert ps[..|ps|] == ps;
  }

  /** The loop over the simple patterns. */
  method ScanSimpleTier(text: string, ps: seq<Patterns.Pattern>) returns (titles: seq<string>)
    ensures titles == SimpleTier(text, ps)
  {
    titles := [];
    for p := 0 to |ps|
      invariant titles == SimpleTier(text, ps[..p])
    {
      assert ps[..p + 1][..p] == ps[..p];
      titles := AddSimpleEntries(titles, Patterns.FindAll(text, ps[p]));
    }
    assert ps[..|ps|] == ps;
  }

  method AddYearEntries(titles: seq<string>, ms: seq<Patterns.Match>) returns (r: seq<string>)
    ensures r == AppendNew(titles, YearEntries(ms))
  {
    var es := YearEntries(ms);
    r := titles;
    for i := 0 to |ms|
      invariant r == AppendNew(titles, es[..i])
    {
      assert es[..i + 1][..i] == es[..i];
      var full := YearEntry(ms[i]);
      if full !in r {
        r := r + [full];
      }
    }
    assert es[..|ms|] == es;
  }

  method AddSimpleEntries(titles: seq<string>, ms: seq<Patterns.Match>) returns (r: seq<string>)
    ensures r == AppendNew(titles, SimpleEntries(ms))
  {
    r := titles;
    for i := 0 to |ms|
      invariant r == AppendNew(titles, SimpleEntries(ms[..i]))
    {
      var t := Strip(ms[i].title);
      SimpleStep(titles, ms, i);
      if KeepSimple(t) && t !in r {
        r := r + [t];
      }
    }
    assert ms[..|ms|] == ms;
  }

  lemma SimpleStep(titles: seq<string>, ms: seq<Patterns.Match>, i: nat)
    requires i < |ms|
    ensures var t := Strip(ms[i].title);
            var prev := AppendNew(titles, SimpleEntries(ms[..i]));
            AppendNew(titles, SimpleEntries(ms[..i + 1]))
              == if KeepSimple(t) && t !in prev then prev + [t] else prev
  {
    var t := Strip(ms[i].title);
    var es := SimpleEntries(ms[..i]);
    SimpleEntriesSnoc(ms, i);
    if KeepSimple(t) {
      AppendNewSnoc(titles, es, t);
    } else {
      assert es + [] == es;
    }
  }

  lemma SimpleEntriesSnoc(ms: seq<Patterns.Match>, i: nat)
    requires i < |ms|
    ensures var t := Strip(ms[i].title);
            SimpleEntries(ms[..i + 1]) == SimpleEntries(ms[..i]) + (if KeepSimple(t) then [t] else [])
  {
    assert ms[..i + 1][..i] == ms[..i];
  }

  // ---------------------------------------------------------------------------
  // Properties of the extraction

  /** An earlier tier is a prefix of a later one. */
  lemma {:induction false} YearTierGrows(text: string, ps: seq<Patterns.Pattern>, n: nat)
    requires n <= |ps|
    ensures |YearTier(text, ps[..n])| <= |YearTier(text, ps)|
    ensures YearTier(text, ps) [..|YearTier(text, ps[..n])|] == YearTier(text, ps[..n])
    decreases |ps|
  {
    if n < |ps| {
      var init := ps[..|ps| - 1];
      assert init[..n] == ps[..n];
      YearTierGrows(text, init, n);
    } else {
      assert ps[..n] == ps;
    }
  }

  /** Every match of a year pattern yields an entry of the year tier. */
  lemma {:induction false} YearTierComplete(text: string, ps: seq<Patterns.Pattern>, j: nat, m: Patterns.Match)
    requires j < |ps| && m in Patterns.FindAll(text, ps[j])
    ensures YearEntry(m) in YearTier(text, ps)
  {
    var prefix := ps[..j + 1];
    assert prefix[..j] == ps[..j] && prefix[j] == ps[j];
    LastPatternCounts(text, prefix, m);
    YearTierGrows(text, ps, j + 1);
    var small := YearTier(text, prefix);
    var i :| 0 <= i < |small| && small[i] == YearEntry(m);
    assert YearTier(text, ps)[i] == small[i];
  }

  /** A match of the last pattern yields an entry of the year tier. */
  lemma LastPatternCounts(text: string, ps: seq<Patterns.Pattern>, m: Patterns.Match)
    requires ps != [] && m in Patterns.FindAll(text, ps[|ps| - 1])
    ensures YearEntry(m) in YearTier(text, ps)
  {
    var ms := Patterns.FindAll(text, ps[|ps| - 1]);
    var k :| 0 <= k < |ms| && ms[k] == m;
    assert YearEntries(ms)[k] == YearEntry(m);
  }

  /** Every entry of the year tier ends in " (YYYY)" after a match's stripped title. */
  lemma {:induction false} YearTierShape(text: string, ps: seq<Patterns.Pattern>)
    requires forall k :: 0 <= k < |ps| ==> ps[k].Quoted? && ps[k].withYear
    ensures forall e :: e in YearTier(text, ps) ==> YearShaped(e)
    decreases |ps|
  {
    if ps != [] {
      var init := ps[..|ps| - 1];
      YearTierShape(text, init);
      var ms := Patterns.FindAll(text, ps[|ps| - 1]);
      forall k | 0 <= k < |ms| ensures YearShaped(YearEntry(ms[k])) {
        EntryShape(ms[k]);
      }
    }
  }

  lemma EntryShape(m: Patterns.Match)
    requires |m.year| == 4 && AllDigits(m.year)
    ensures YearShaped(YearEntry(m))
  {
    var e := YearEntry(m);
    var n := |Strip(m.title)|;
    assert e[n..n + 2] == " (" && e[n + 2..n + 6] == m.year;
  }

  /** The year tier never repeats an entry. */
  lemma {:induction false} YearTierNoDuplicates(text: string, ps: seq<Patterns.Pattern>)
    ensures NoDuplicates(YearTier(text, ps))
    decreases |ps|
  {
    if ps != [] {
      YearTierNoDuplicates(text, ps[..|ps| - 1]);
      AppendNewKeepsNoDuplicates(YearTier(text, ps[..|ps| - 1]), YearEntries(Patterns.FindAll(text, ps[|ps| - 1])));
    }
  }

  /** The simple tier never repeats an entry and keeps only long, non-stop-word titles. */
  lemma {:induction false} SimpleTierShape(text: string, ps: seq<Patterns.Pattern>)
    ensures NoDuplicates(SimpleTier(text, ps))
    ensures forall e :: e in SimpleTier(text, ps) ==> KeepSimple(e)
    decreases |ps|
  {
    if ps != [] {
      var init := ps[..|ps| - 1];
      SimpleTierShape(text, init);
      AppendNewKeepsNoDuplicates(SimpleTier(text, init), SimpleEntries(Patterns.FindAll(text, ps[|ps| - 1])));
    }
  }

  /** The two tiers as the extraction promises them: when a year pattern
      matches, the result is exactly the year entries, each once, every match
      represented; otherwise any simple title is long enough, not a stop word
      and listed once. */
  lemma ExtractionTiers(text: string, fallback: seq<string>)
    ensures var r := Extracted(text, fallback);
      && (YearTier(text, YearPatterns) != [] ==>
            && NoDuplicates(r) && (forall e :: e in r ==> YearShaped(e))
            && forall j, m :: 0 <= j < |YearPatterns| && m in Patterns.FindAll(text, YearPatterns[j]) ==> YearEntry(m) in r)
      && (YearTier(text, YearPatterns) == [] && SimpleTier(text, SimplePatterns) != [] ==>
            NoDuplicates(r) && forall e :: e in r ==> KeepSimple(e))
      && (YearTier(text, YearPatterns) == [] && SimpleTier(text, SimplePatterns) == [] ==> r == fallback)
  {
    YearTierNoDuplicates(text, YearPatterns);
    YearTierShape(text, YearPatterns);
    SimpleTierShape(text, SimplePatterns);
    forall j, m | 0 <= j < |YearPatterns| && m in Patterns.FindAll(text, YearPatterns[j])
      ensures YearEntry(m) in YearTier(text, YearPatterns)
    {
      YearTierComplete(text, YearPatterns, j, m);
    }
  }

  // ---------------------------------------------------------------------------
  // The title sent to the TMDB search

  /** `re.search(r'\((\d{4})\)', s)` from index `i`: the first year's digits. */
  function SearchYear(s: string, i: nat): (r: Option<string>)
    requires i <= |s|
    ensures r.Some? ==> |r.value| == 4 && AllDigits(r.value)
    decreases |s| - i
  {
    if i + 6 > |s| then None
    else if Patterns.YearAt(s, i) then Some(s[i + 1..i + 5])
    else SearchYear(s, i + 1)
  }

  /** `re.sub(r'\s*\(\d{4}\)', '', s)` from index `i`: every year in brackets
      removed together with the blanks right before it. */
  function RemoveYears(s: string, i: nat): (r: string)
    requires i <= |s|
    decreases |s| - i
  {
    if i == |s| then []
    else
      var j := SkipSpaces(s, i);
      if Patterns.YearAt(s, j) then RemoveYears(s, j + 6)
      else [s[i]] + RemoveYears(s, i + 1)
  }

  /** The characters stripped from both ends of a cleaned title. */
  predicate IsQuoteChar(c: char) {
    c == '"' || c == '«' || c == '»' || c == '*'
  }

  function DropQuotes(s: string): (r: string)
    ensures |r| <= |s| && r == s[|s| - |r|..]
    ensures r != [] ==> !IsQuoteChar(r[0])
  {
    if s != [] && IsQuoteChar(s[0]) then DropQuotes(s[1..]) else s
  }

  function DropTrailingQuotes(s: string): (r: string)
    ensures |r| <= |s| && r == s[..|r|]
    ensures r != [] ==> !IsQuoteChar(r[|r| - 1])
  {
    if s != [] && IsQuoteChar(s[|s| - 1]) then DropTrailingQuotes(s[..|s| - 1]) else s
  }

  /** `s.strip('"«»*')` */
  function StripQuotes(s: string): string {
    DropTrailingQuotes(DropQuotes(s))
  }

  /** The title searched for: years removed, blanks stripped, then quotes and asterisks stripped. */
  function CleanTitle(title: string): string {
    StripQuotes(Strip(RemoveYears(title, 0)))
  }

  /** The year passed to the search, if the title has one in brackets. */
  function TitleYear(title: string): Option<string> {
    SearchYear(title, 0)
  }

  /** An entry of the year tier searches for its title and its year: cleaning
      "T (YYYY)" gives back T and the year YYYY when T has no bracket, no
      blank at either end and no quote or asterisk at either end. */
  lemma CleanTitleRoundTrip(t: string, y: string)
    requires t != [] && '(' !in t
    requires !IsSpace(t[0]) && !IsSpace(t[|t| - 1])
    requires !IsQuoteChar(t[0]) && !IsQuoteChar(t[|t| - 1])
    requires |y| == 4 && AllDigits(y)
    ensures CleanTitle(t + " (" + y + ")") == t
    ensures TitleYear(t + " (" + y + ")") == Some(y)
  {
    var s := t + " (" + y + ")";
    assert Patterns.YearAt(s, |t| + 1) by {
      assert s[|t| + 2..|t| + 6] == y;
    }
    RemoveYearsKeepsTitle(s, t, 0);
    assert s[..|t|] == t;
    StripOfTrimmed(t);
    assert DropQuotes(t) == t;
    assert DropTrailingQuotes(t) == t;
    SearchSkipsTitle(s, t, 0);
  }

  lemma {:induction false} RemoveYearsKeepsTitle(s: string, t: string, i: nat)
    requires t != [] && '(' !in t && !IsSpace(t[|t| - 1])
    requires |s| == |t| + 7 && s[..|t|] == t && s[|t|] == ' ' && Patterns.YearAt(s, |t| + 1)
    requires i <= |t|
    ensures RemoveYears(s, i) == t[i..]
    decreases |t| - i
  {
    var j := SkipSpaces(s, i);
    if i == |t| {
      assert SkipSpaces(s, |t| + 1) == |t| + 1;
      assert RemoveYears(s, |t| + 7) == [];
    } else {
      assert s[|t| - 1] == t[|t| - 1];
      NoYearInTitle(s, t, i, j);
      RemoveYearsKeepsTitle(s, t, i + 1);
      assert s[i] == t[i];
      assert t[i..] == [t[i]] + t[i + 1..];
    }
  }

  lemma NoYearInTitle(s: string, t: string, i: nat, j: nat)
    requires t != [] && '(' !in t && !IsSpace(t[|t| - 1])
    requires |s| == |t| + 7 && s[..|t|] == t
    requires i < |t| && j == SkipSpaces(s, i)
    ensures !Patterns.YearAt(s, j)
  {
    assert s[|t| - 1] == t[|t| - 1];
    assert j < |t|;
    assert s[j] == t[j];
  }

  lemma {:induction false} SearchSkipsTitle(s: string, t: string, i: nat)
    requires '(' !in t && |s| >= |t| + 6 && s[..|t|] == t && i <= |t|
    requires Patterns.YearAt(s, |t| + 1) || (|t| + 1 <= |s| && s[|t|] != '(' && Patterns.YearAt(s, |t| + 1))
    ensures SearchYear(s, i) == Some(s[|t| + 2..|t| + 6]) || SearchYear(s, i) == SearchYear(s, |t|)
    decreases |t| - i
  {
    if i < |t| {
      assert s[i] == t[i];
      SearchSkipsTitle(s, t, i + 1);
    }
  }

  // ---------------------------------------------------------------------------
  // Scoring the search results

  /** One TMDB search result as the scoring reads it. */
  datatype SearchResult = SearchResult(title: string, originalTitle: string, releaseDate: string)

  /** The title score on lower-cased titles: exact 100, partial 80 on the
      localized title, partial 75 on the original title. */
  function TitleScore(c: string, t: string, o: string): (s: int)
    ensures s == 100 || s == 80 || s == 75 || s == 0
    ensures s == 100 <==> c == t || c == o
  {
    if c == t || c == o then 100
    else if Contains(t, c) || Contains(c, t) then 80
    else if Contains(o, c) || Contains(c, o) then 75
    else 0
  }

  function WordSet(s: string): set<string> {
    set k | 0 <= k < |Split(s)| :: Split(s)[k]
  }

  /** The larger number of words the searched title shares with either title. */
  function CommonWords(c: string, t: string, o: string): nat {
    var withTitle := |WordSet(c) * WordSet(t)|;
    var withOriginal := |WordSet(o) * WordSet(c)|;
    if withTitle >= withOriginal then withTitle else withOriginal
  }

  /** The score of one result for the cleaned title and its optional year, or
      None where `int()` of a year raises, which ends the lookup without a
      movie. */
  function Score(clean: string, year: Option<string>, r: SearchResult): (s: Option<int>)
    ensures s.Some? && (year.None? || year.value == []) ==>
      s.value == TitleScore(LowerStr(clean), LowerStr(r.title), LowerStr(r.originalTitle))
                 + 20 * CommonWords(LowerStr(clean), LowerStr(r.title), LowerStr(r.originalTitle))
  {
    var c := LowerStr(clean);
    var t := LowerStr(r.title);
    var o := LowerStr(r.originalTitle);
    var movieYear := if r.releaseDate != [] then Some(PyTake(r.releaseDate, 4)) else None;
    var hasYear := year.Some? && year.value != [];
    var base := TitleScore(c, t, o) + 20 * CommonWords(c, t, o)
                + (if hasYear && movieYear == year then 50 else 0);
    if hasYear && movieYear.Some? && movieYear.value != [] then
      match (PyInt(year.value), PyInt(movieYear.value))
      case (Some(a), Some(b)) => Some(base - (if a - b > 2 || b - a > 2 then 30 else 0))
      case _ => None
    else Some(base)
  }

  /** The scores of the results `rs`, in order. */
  function ScoresOf(clean: string, year: Option<string>, rs: seq<SearchResult>): (ss: seq<Option<int>>)
    ensures |ss| == |rs| && forall k :: 0 <= k < |rs| ==> ss[k] == Score(clean, year, rs[k])
  {
    seq(|rs|, k requires 0 <= k < |rs| => Score(clean, year, rs[k]))
  }

  /** The scan of the scores `ss`: None once a score raises, else the best
      score (starting from 0) and the index of the result that first reached
      it, replaced only by a strictly greater score. */
  function BestSoFar(ss: seq<Option<int>>): (b: Option<(int, Option<nat>)>)
    ensures b.Some? && b.value.1.Some? ==> b.value.1.value < |ss|
  {
    if ss == [] then Some((0, None))
    else ScanStep(BestSoFar(ss[..|ss| - 1]), ss[|ss| - 1], |ss| - 1)
  }

  /** The scan after the score `s` of result `i`. */
  function ScanStep(acc: Option<(int, Option<nat>)>, s: Option<int>, i: nat): (b: Option<(int, Option<nat>)>)
    ensures b.Some? ==> acc.Some? && (b.value.1 == Some(i) || b.value.1 == acc.value.1)
  {
    match acc
    case None => None
    case Some((best, index)) =>
      match s
      case None => None
      case Some(v) => if v > best then Some((v, Some(i))) else acc
  }

  lemma BestSoFarPrefix(ss: seq<Option<int>>, i: nat)
    requires i < |ss|
    ensures BestSoFar(ss[..i + 1]) == ScanStep(BestSoFar(ss[..i]), ss[i], i)
  {
    assert ss[..i + 1][..i] == ss[..i];
  }

  /** The result the lookup goes on with: the best of the first five results
      if its score is at least 40. */
  function Selected(clean: string, year: Option<string>, results: seq<SearchResult>): Option<SearchResult> {
    var i := SelectedIndex(clean, year, results);
    if i.Some? then Some(results[i.value]) else None
  }

  /** The position of that result: where the scan's best score, if at
      least 40, was first reached. */
  function SelectedIndex(clean: string, year: Option<string>, results: seq<SearchResult>): (i: Option<nat>)
    ensures i.Some? ==> i.value < |results| && i.value < 5
  {
    var b := BestSoFar(ScoresOf(clean, year, PyTake(results, 5)));
    if b.Some? && b.value.0 >= 40 && b.value.1.Some? then b.value.1 else None
  }

  /** The selection of `_get_movie_details_from_tmdb`, over the first five results. */
  method SelectBestMatch(clean: string, year: Option<string>, results: seq<SearchResult>) returns (best: Option<SearchResult>)
    ensures best == Selected(clean, year, results)
  {
    var scan := ScanScores(clean, year, PyTake(results, 5));
    if scan.None? || scan.value.0 < 40 || scan.value.1.None? {
      return None;
    }
    best := Some(results[scan.value.1.value]);
  }

  /** The scoring loop: the best score so far and where it was first
      reached, or None as soon as a score raises. */
  method ScanScores(clean: string, year: Option<string>, top: seq<SearchResult>) returns (scan: Option<(int, Option<nat>)>)
    ensures scan == BestSoFar(ScoresOf(clean, year, top))
  {
    ghost var ss := ScoresOf(clean, year, top);
    var bestScore := 0;
    var bestIndex: Option<nat> := None;
    for i := 0 to |top|
      invariant BestSoFar(ss[..i]) == Some((bestScore, bestIndex))
    {
      BestSoFarPrefix(ss, i);
      var s := Score(clean, year, top[i]);
      if s.None? {
        ScanStopsAt(ss, i);
        return None;
      }
      if s.value > bestScore {
        bestScore, bestIndex := s.value, Some(i);
      }
    }
    assert ss[..|top|] == ss;
    return Some((bestScore, bestIndex));
  }

  /** A score that raises ends the whole scan without a result. */
  lemma {:induction false} ScanStopsAt(ss: seq<Option<int>>, i: nat)
    requires i < |ss| && ss[i].None?
    ensures BestSoFar(ss) == None
    decreases |ss|
  {
    if i < |ss| - 1 {
      ScanStopsAt(ss[..|ss| - 1], i);
    }
  }

  /** `index` is the first position holding the greatest positive score
      `best`, or None with `best` 0 when no score is positive. */
  predicate FirstMaximum(ss: seq<Option<int>>, best: int, index: Option<nat>)
    requires forall k :: 0 <= k < |ss| ==> ss[k].Some?
  {
    && (index.None? ==> best == 0 && forall k :: 0 <= k < |ss| ==> ss[k].value <= 0)
    && (index.Some? ==>
          && index.value < |ss| && ss[index.value] == Some(best) && best > 0
          && (forall k :: 0 <= k < index.value ==> ss[k].value < best)
          && (forall k :: index.value < k < |ss| ==> ss[k].value <= best))
  }

  /** The scan picks the first result with the greatest positive score:
      strictly better than every earlier result and at least as good as
      every later one, so a tie keeps the earlier result. */
  lemma {:induction false} BestIsFirstMaximum(ss: seq<Option<int>>)
    requires BestSoFar(ss).Some?
    ensures forall k :: 0 <= k < |ss| ==> ss[k].Some?
    ensures FirstMaximum(ss, BestSoFar(ss).value.0, BestSoFar(ss).value.1)
    decreases |ss|
  {
    if ss != [] {
      var init := ss[..|ss| - 1];
      BestIsFirstMaximum(init);
      var (best, index) := BestSoFar(init).value;
      FirstMaximumStep(init, best, index, ss[|ss| - 1].value);
      assert init + [ss[|ss| - 1]] == ss;
    }
  }

  lemma FirstMaximumStep(init: seq<Option<int>>, best: int, index: Option<nat>, s: int)
    requires forall k :: 0 <= k < |init| ==> init[k].Some?
    requires FirstMaximum(init, best, index)
    ensures var ss := init + [Some(s)];
      forall k :: 0 <= k < |ss| ==> ss[k].Some?
    ensures if s > best then FirstMaximum(init + [Some(s)], s, Some(|init|))
            else FirstMaximum(init + [Some(s)], best, index)
  {
    var ss := init + [Some(s)];
    assert forall k :: 0 <= k < |init| ==> ss[k] == init[k];
  }

  /** What the lookup goes on with, stated on the scores: a selected result is
      among the first five, scores at least 40, and is the first result with
      the greatest score. */
  lemma SelectionIsFirstBest(clean: string, year: Option<string>, results: seq<SearchResult>)
    ensures SelectedIndex(clean, year, results).Some? ==>
      var i := SelectedIndex(clean, year, results).value;
      Selected(clean, year, results) == Some(results[i])
      && Score(clean, year, results[i]).Some? && Score(clean, year, results[i]).value >= 40
      && (forall k :: 0 <= k < i ==> Score(clean, year, results[k]).Some? && Score(clean, year, results[k]).value < Score(clean, year, results[i]).value)
      && (forall k :: i < k < |results| && k < 5 ==> Score(clean, year, results[k]).Some? && Score(clean, year, results[k]).value <= Score(clean, year, results[i]).value)
  {
    var ss := ScoresOf(clean, year, PyTake(results, 5));
    if SelectedIndex(clean, year, results).Some? {
      BestIsFirstMaximum(ss);
      ScoresOfFirstFive(clean, year, results);
    }
  }

  lemma ScoresOfFirstFive(clean: string, year: Option<string>, results: seq<SearchResult>)
    ensures var ss := ScoresOf(clean, year, PyTake(results, 5));
      |ss| == (if |results| < 5 then |results| else 5)
      && forall k :: 0 <= k < |ss| ==> ss[k] == Score(clean, year, results[k])
  {
  }

  /** No result is selected when every score among the first five is below 40. */
  lemma LowScoresSelectNothing(clean: string, year: Option<string>, results: seq<SearchResult>)
    requires forall k :: 0 <= k < |results| && k < 5 ==> Score(clean, year, results[k]).Some? && Score(clean, year, results[k]).value < 40
    ensures Selected(clean, year, results).None?
  {
    var ss := ScoresOf(clean, year, PyTake(results, 5));
    if BestSoFar(ss).Some? {
      BestIsFirstMaximum(ss);
      ScoresOfFirstFive(clean, year, results);
    }
  }

  /** Results after the fifth are never looked at. */
  lemma OnlyFirstFiveScored(clean: string, year: Option<string>, rs1: seq<SearchResult>, rs2: seq<SearchResult>)
    requires |rs1| >= 5 && |rs2| >= 5 && rs1[..5] == rs2[..5]
    ensures Selected(clean, year, rs1) == Selected(clean, year, rs2)
  {
    assert PyTake(rs1, 5) == PyTake(rs2, 5);
    var b := BestSoFar(ScoresOf(clean, year, PyTake(rs1, 5)));
    if b.Some? && b.value.1.Some? {
      assert rs1[b.value.1.value] == rs1[..5][b.value.1.value];
    }
  }

  /** A result without a localized title counts as a partial match of any
      other non-empty title: the empty string is a substring of every title. */
  lemma EmptyTitleIsPartialMatch(c: string, o: string)
    requires c != [] && c != o
    ensures TitleScore(c, [], o) == 80
  {
    assert OccursAt(c, [], 0);
  }
}

/** The text heuristics of the legacy recommendation engine
    (recommendation.py): whether two person names refer to the same person,
    the nominative form of a Russian person name, and the validation of a
    movie against a request that is used when the language-model validation
    fails. */
module LegacyHeuristics {
  import opened Wrappers
  import opened Text

  // ---------------------------------------------------------------------------
  // _names_match

  /** `a in b or b in a` */
  predicate MutualSubstring(a: string, b: string) {
    Contains(b, a) || Contains(a, b)
  }

  /** `_names_match`: both names need at least two words; then the first words
      and the last words must each be substrings of one another. */
  function NamesMatch(name1: string, name2: string): (r: bool)
    ensures r ==> |Split(name1)| >= 2 && |Split(name2)| >= 2
  {
    var p1 := Split(name1);
    var p2 := Split(name2);
    if |p1| >= 2 && |p2| >= 2 then
      MutualSubstring(p1[0], p2[0]) && MutualSubstring(p1[|p1| - 1], p2[|p2| - 1])
    else false
  }

  /** The order of the two names does not matter. */
  lemma NamesMatchSymmetric(name1: string, name2: string)
    ensures NamesMatch(name1, name2) == NamesMatch(name2, name1)
  {
  }

  /** A name of one word never matches anything. */
  lemma SingleWordNeverMatches(name1: string, name2: string)
    requires |Split(name1)| < 2 || |Split(name2)| < 2
    ensures !NamesMatch(name1, name2)
  {
  }

  lemma ContainsItself(s: string)
    ensures Contains(s, s)
  {
    assert OccursAt(s, s, 0);
  }

  lemma ContainsPrefix(s: string, t: string)
    ensures Contains(s + t, s)
  {
    assert (s + t)[0..|s|] == s;
    assert OccursAt(s + t, s, 0);
  }

  /** A word without spaces followed by a space and another such word splits into the two words. */
  lemma SplitTwoWords(a: string, b: string)
    requires a != [] && b != []
    requires forall k :: 0 <= k < |a| ==> !IsSpace(a[k])
    requires forall k :: 0 <= k < |b| ==> !IsSpace(b[k])
    ensures Split(a + " " + b) == [a, b]
  {
    var s := a + " " + b;
    var tail := s[|a|..];
    assert tail == " " + b;
    WordEndFrom(s, 0, |a|);
    assert Split(s) == [s[..|a|]] + Split(tail);
    assert s[..|a|] == a;
    SplitOneWord(b);
    assert Split(tail) == Split(tail[1..]);
    assert tail[1..] == b;
  }

  lemma SplitOneWord(b: string)
    requires b != []
    requires forall k :: 0 <= k < |b| ==> !IsSpace(b[k])
    ensures Split(b) == [b]
  {
    WordEndFrom(b, 0, |b|);
    assert b[..|b|] == b && b[|b|..] == [];
  }

  /** The first word of `s` from index `i` ends at `e`. */
  lemma {:induction false} WordEndFrom(s: string, i: nat, e: nat)
    requires i <= e <= |s|
    requires forall k :: i <= k < e ==> !IsSpace(s[k])
    requires e < |s| ==> IsSpace(s[e])
    ensures WordEnd(s, i) == e
    decreases e - i
  {
    if i < e {
      WordEndFrom(s, i + 1, e);
    }
  }

  /** A name matches every form of it that only adds endings to its two words,
      such as an instrumental-case spelling. */
  lemma InflectedFormsMatch(first: string, last: string, firstEnding: string, lastEnding: string)
    requires first != [] && last != []
    requires forall k :: 0 <= k < |first| ==> !IsSpace(first[k])
    requires forall k :: 0 <= k < |last| ==> !IsSpace(last[k])
    requires forall k :: 0 <= k < |firstEnding| ==> !IsSpace(firstEnding[k])
    requires forall k :: 0 <= k < |lastEnding| ==> !IsSpace(lastEnding[k])
    ensures NamesMatch(first + " " + last, (first + firstEnding) + " " + (last + lastEnding))
  {
    SplitTwoWords(first, last);
    var f := first + firstEnding;
    var l := last + lastEnding;
    assert forall k :: 0 <= k < |f| ==> !IsSpace(f[k]) by {
      forall k | 0 <= k < |f| ensures !IsSpace(f[k]) {
        if k < |first| { assert f[k] == first[k]; } else { assert f[k] == firstEnding[k - |first|]; }
      }
    }
    assert forall k :: 0 <= k < |l| ==> !IsSpace(l[k]) by {
      forall k | 0 <= k < |l| ensures !IsSpace(l[k]) {
        if k < |last| { assert l[k] == last[k]; } else { assert l[k] == lastEnding[k - |last|]; }
      }
    }
    SplitTwoWords(f, l);
    ContainsPrefix(first, firstEnding);
    ContainsPrefix(last, lastEnding);
  }

  // ---------------------------------------------------------------------------
  // _normalize_person_name

  /** The lower-cased indirect forms of well-known names and their nominative
      forms; the source lists the Scarlett Johansson entry twice. */
  const NameMapping: map<string, string> := map[
    "томом хэнксом" := "Том Хэнкс",
    "тома хэнкса" := "Том Хэнкс",
    "стивена спилберга" := "Стивен Спилберг",
    "стивеном спилбергом" := "Стивен Спилберг",
    "роберта дауни" := "Роберт Дауни",
    "робертом дауни" := "Роберт Дауни",
    "кристофера нолана" := "Кристофер Нолан",
    "кристофером ноланом" := "Кристофер Нолан",
    "леонардо дикаприо" := "Леонардо ДиКаприо",
    "леонардом дикаприо" := "Леонардо ДиКаприо",
    "брэда питта" := "Брэд Питт",
    "брэдом питтом" := "Брэд Питт",
    "джонни деппа" := "Джонни Депп",
    "джонни деппом" := "Джонни Депп",
    "уилла смита" := "Уилл Смит",
    "уиллом смитом" := "Уилл Смит",
    "квентина тарантино" := "Квентин Тарантино",
    "квентином тарантино" := "Квентин Тарантино",
    "мартина скорсезе" := "Мартин Скорсезе",
    "мартином скорсезе" := "Мартин Скорсезе",
    "скарлетт йоханссон" := "Скарлетт Йоханссон",
    "анджелины джоли" := "Анджелина Джоли",
    "анджелиной джоли" := "Анджелина Джоли"
  ]

  /** Two-letter endings removed from a first name. */
  const FirstNameEndings: seq<string> := ["ом", "ем", "ым"]
  /** Two-letter endings removed from a last name. */
  const LastNameEndings: seq<string> := ["ом", "ем", "ым", "им"]
  /** One-letter endings removed from a long enough word. */
  const VowelEndings: seq<string> := ["а", "я", "у", "ю", "ы", "и", "е"]

  /** `s.endswith(tuple)` */
  predicate EndsWithAny(s: string, suffixes: seq<string>) {
    exists k :: 0 <= k < |suffixes| && EndsWith(s, suffixes[k])
  }

  /** One word with a case ending removed: a two-letter ending always, a
      one-letter ending only from a word longer than `minKeep`. The endings
      are checked on the lower-cased word and cut from the word as written. */
  function StripEnding(w: string, twoLetter: seq<string>, minKeep: nat): (r: string)
    requires forall k :: 0 <= k < |twoLetter| ==> |twoLetter[k]| == 2
    ensures |r| <= |w| && r == w[..|r|]
    ensures |w| - 2 <= |r|
    ensures |r| == |w| - 2 ==> EndsWithAny(LowerStr(w), twoLetter)
    ensures |r| == |w| - 1 ==> !EndsWithAny(LowerStr(w), twoLetter) && EndsWithAny(LowerStr(w), VowelEndings) && |w| > minKeep
    ensures |w| <= minKeep && !EndsWithAny(LowerStr(w), twoLetter) ==> r == w
  {
    var lower := LowerStr(w);
    if EndsWithAny(lower, twoLetter) then
      var k :| 0 <= k < |twoLetter| && EndsWith(lower, twoLetter[k]);
      w[..|w| - 2]
    else if EndsWithAny(lower, VowelEndings) && |w| > minKeep then
      w[..|w| - 1]
    else w
  }

  /** `_normalize_person_name`: a dictionary hit on the lower-cased, stripped
      name gives its nominative form; another name of exactly two words loses
      its case endings word by word; the result is title-cased. */
  function NormalizePersonName(name: string): (r: string)
    ensures Strip(LowerStr(name)) in NameMapping ==> r == NameMapping[Strip(LowerStr(name))]
    ensures Strip(LowerStr(name)) !in NameMapping ==> r == NormalizeUnknown(name)
  {
    var key := Strip(LowerStr(name));
    if key in NameMapping then NameMapping[key] else NormalizeUnknown(name)
  }

  /** A name outside the dictionary: two words lose their case endings, each
      at most two characters, and are title-cased; any other name is only
      title-cased. */
  function NormalizeUnknown(name: string): (r: string)
    ensures |Split(name)| == 2 ==>
      exists first, last ::
        && r == Title(first) + " " + Title(last)
        && |first| <= |Split(name)[0]| && first == Split(name)[0][..|first|] && |Split(name)[0]| - 2 <= |first|
        && |last| <= |Split(name)[1]| && last == Split(name)[1][..|last|] && |Split(name)[1]| - 2 <= |last|
    ensures |Split(name)| != 2 ==> r == Title(name)
  {
    var words := Split(name);
    if |words| == 2 then
      var first := StripEnding(words[0], FirstNameEndings, 3);
      var last := StripEnding(words[1], LastNameEndings, 4);
      Title(first) + " " + Title(last)
    else Title(name)
  }

  /** A short first name (at most 3 characters) or a short last name (at most
      4 characters) keeps a one-letter ending: only a two-letter ending is
      removed from it. */
  lemma ShortWordsKeepVowel(w: string, isLast: bool)
    requires |w| <= (if isLast then 4 else 3)
    requires !EndsWithAny(LowerStr(w), if isLast then LastNameEndings else FirstNameEndings)
    ensures StripEnding(w, if isLast then LastNameEndings else FirstNameEndings, if isLast then 4 else 3) == w
  {
  }

  // ---------------------------------------------------------------------------
  // _fallback_validation

  /** The request keywords and the genres each one calls for, in order. */
  const GenreKeywords: seq<(string, seq<string>)> := [
    ("боевик", ["боевик", "экшн", "action"]),
    ("комедия", ["комедия", "comedy"]),
    ("драма", ["драма", "drama"]),
    ("ужасы", ["ужасы", "хоррор", "horror"]),
    ("фантастика", ["фантастика", "sci-fi", "научная фантастика"]),
    ("триллер", ["триллер", "thriller"]),
    ("мелодрама", ["мелодрама", "романтика", "romance"]),
    ("детектив", ["детектив", "mystery"]),
    ("анимация", ["анимация", "мультфильм", "animation"]),
    ("документальный", ["документальный", "documentary"])
  ]

  const ActionWords: seq<string> := ["боевик", "экшн", "action"]
  const ComedyRomanceGenres: seq<string> := ["мелодрама", "комедия", "романтический", "романтика"]
  const ActionGenres: seq<string> := ["боевик", "экшн", "триллер", "криминал", "приключения"]
  const NonActionGenres: seq<string> := ["мелодрама", "комедия", "документальный"]

  /** The request fragments and the genres that contradict them, in order. */
  const NonMatchingRows: seq<(string, seq<string>)> := [
    ("боевик", ["мелодрама", "комедия", "документальный"]),
    ("ужасы", ["комедия", "мелодрама", "детский"]),
    ("комедия", ["ужасы", "триллер", "драма"]),
    ("детск", ["ужасы", "триллер", "взрослый"])
  ]

  /** `any(w in text for w in words)` */
  predicate AnyContained(text: string, words: seq<string>) {
    exists k :: 0 <= k < |words| && Contains(text, words[k])
  }

  /** `any(g in genres for g in names)`: list membership, not substrings. */
  predicate AnyIn(names: seq<string>, genres: seq<string>) {
    exists k :: 0 <= k < |names| && names[k] in genres
  }

  function LowerAll(gs: seq<string>): (r: seq<string>)
    ensures |r| == |gs| && forall k :: 0 <= k < |gs| ==> r[k] == LowerStr(gs[k])
  {
    seq(|gs|, k requires 0 <= k < |gs| => LowerStr(gs[k]))
  }

  /** The expected genres after the keyword rows `kws`. */
  function Expected(q: string, kws: seq<(string, seq<string>)>): seq<string> {
    if kws == [] then []
    else
      var last := kws[|kws| - 1];
      Expected(q, kws[..|kws| - 1]) + (if Contains(q, last.0) then last.1 else [])
  }

  /** The keywords found after the keyword rows `kws`. */
  function Found(q: string, kws: seq<(string, seq<string>)>): seq<string> {
    if kws == [] then []
    else
      var last := kws[|kws| - 1];
      Found(q, kws[..|kws| - 1]) + (if Contains(q, last.0) then [last.0] else [])
  }

  /** Some row of `rows` finds its fragment in the request and a contradicting genre. */
  predicate Incompatible(q: string, genres: seq<string>, rows: seq<(string, seq<string>)>) {
    exists k :: 0 <= k < |rows| && Contains(q, rows[k].0) && AnyIn(rows[k].1, genres)
  }

  /** The verdict of `_fallback_validation`. `genres` and `overview` are None
      when the movie holds a value that is not text there; lower-casing it
      raises and the exception handler accepts the movie. */
  function FallbackVerdict(genres: Option<seq<string>>, query: string, overview: Option<string>): (r: bool)
    ensures genres.None? || overview.None? ==> r
    ensures (genres.Some? && overview.Some? && AnyContained(LowerStr(query), ActionWords) &&
             AnyIn(ComedyRomanceGenres, LowerAll(genres.value))) ==> !r
    ensures genres.Some? && overview.Some? && Expected(LowerStr(query), GenreKeywords) != [] && r ==>
            AnyIn(Expected(LowerStr(query), GenreKeywords), LowerAll(genres.value))
  {
    if genres.None? || overview.None? then true
    else
      var gs := LowerAll(genres.value);
      var q := LowerStr(query);
      if AnyContained(q, ActionWords) && AnyIn(ComedyRomanceGenres, gs) then false
      else
        var expected := Expected(q, GenreKeywords);
        if expected != [] then
          if "боевик" in Found(q, GenreKeywords) && AnyIn(NonActionGenres, gs) && !AnyIn(ActionGenres, gs) then false
          else AnyIn(expected, gs)
        else !Incompatible(q, gs, NonMatchingRows)
  }

  /** `_fallback_validation`, with its two loops: collecting the expected
      genres keyword by keyword, and trying the contradicting rows in order. */
  method FallbackValidation(genres: Option<seq<string>>, query: string, overview: Option<string>) returns (ok: bool)
    ensures ok == FallbackVerdict(genres, query, overview)
  {
    if genres.None? || overview.None? {
      return true;
    }
    var gs := LowerAll(genres.value);
    var q := LowerStr(query);
    var expected, found := CollectExpected(q, GenreKeywords);
    if AnyContained(q, ActionWords) && AnyIn(ComedyRomanceGenres, gs) {
      return false;
    }
    if expected != [] {
      if "боевик" in found && AnyIn(NonActionGenres, gs) && !AnyIn(ActionGenres, gs) {
        return false;
      }
      return AnyIn(expected, gs);
    }
    var contradicted := FindContradiction(q, gs, NonMatchingRows);
    return !contradicted;
  }

  /** The first loop: the genres of every keyword row whose keyword occurs
      in the request, and those keywords, in row order. */
  method CollectExpected(q: string, kws: seq<(string, seq<string>)>) returns (expected: seq<string>, found: seq<string>)
    ensures expected == Expected(q, kws) && found == Found(q, kws)
  {
    expected, found := [], [];
    for i := 0 to |kws|
      invariant expected == Expected(q, kws[..i])
      invariant found == Found(q, kws[..i])
    {
      assert kws[..i + 1][..i] == kws[..i];
      var row := kws[i];
      if Contains(q, row.0) {
        expected := expected + row.1;
        found := found + [row.0];
      }
    }
    assert kws[..|kws|] == kws;
  }

  /** The second loop: stops at the first row whose fragment occurs in the
      request and one of whose genres the movie has. */
  method FindContradiction(q: string, gs: seq<string>, rows: seq<(string, seq<string>)>) returns (hit: bool)
    ensures hit == Incompatible(q, gs, rows)
  {
    for i := 0 to |rows|
      invariant !Incompatible(q, gs, rows[..i])
    {
      var row := rows[i];
      if Contains(q, row.0) && AnyIn(row.1, gs) {
        assert rows[..|rows|][i] == row;
        return true;
      }
      assert forall k :: 0 <= k < i ==> rows[..i + 1][k] == rows[..i][k];
    }
    assert rows[..|rows|] == rows;
    return false;
  }

  /** No genre is expected exactly when no keyword occurs in the request. */
  lemma {:induction false} ExpectedEmpty(q: string, kws: seq<(string, seq<string>)>)
    requires forall k :: 0 <= k < |kws| ==> kws[k].1 != []
    ensures Expected(q, kws) == [] <==> forall k :: 0 <= k < |kws| ==> !Contains(q, kws[k].0)
    decreases |kws|
  {
    if kws != [] {
      var init := kws[..|kws| - 1];
      ExpectedEmpty(q, init);
      assert forall k :: 0 <= k < |init| ==> init[k] == kws[k];
    }
  }

  /** Without a keyword the contradicting rows for action, horror and comedy
      cannot fire, since their fragments are keywords themselves: only the
      children's row is ever decisive. */
  lemma OnlyChildrenRowReachable(q: string, gs: seq<string>)
    requires Expected(q, GenreKeywords) == []
    ensures Incompatible(q, gs, NonMatchingRows) <==> Contains(q, "детск") && AnyIn(NonMatchingRows[3].1, gs)
  {
    ExpectedEmpty(q, GenreKeywords);
    assert !Contains(q, GenreKeywords[0].0) && !Contains(q, GenreKeywords[1].0) && !Contains(q, GenreKeywords[3].0);
    if Incompatible(q, gs, NonMatchingRows) {
      var k :| 0 <= k < |NonMatchingRows| && Contains(q, NonMatchingRows[k].0) && AnyIn(NonMatchingRows[k].1, gs);
      assert k == 3;
    }
  }

  /** A request without any keyword and without a contradicting genre is accepted. */
  lemma NoKeywordAccepts(genres: seq<string>, query: string, overview: string)
    requires forall k :: 0 <= k < |GenreKeywords| ==> !Contains(LowerStr(query), GenreKeywords[k].0)
    requires !AnyContained(LowerStr(query), ActionWords) || !AnyIn(ComedyRomanceGenres, LowerAll(genres))
    requires !(Contains(LowerStr(query), "детск") && AnyIn(NonMatchingRows[3].1, LowerAll(genres)))
    ensures FallbackVerdict(Some(genres), query, Some(overview))
  {
    ExpectedEmpty(LowerStr(query), GenreKeywords);
    OnlyChildrenRowReachable(LowerStr(query), LowerAll(genres));
  }
}

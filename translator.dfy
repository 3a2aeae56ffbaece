/** The language helper (agents/translator.py): cleaning of the language
    model's replies, language detection, translation with retries, the check
    that a translation is not the input handed back, and batch translation.

    The language model is an oracle: `llm(prompt)(a)` is the reply to attempt
    `a` of a call with that prompt, or `None` when that attempt raised. The
    similarity ratio of `difflib.SequenceMatcher` is an uninterpreted
    function `ratio` returning a `real`. */
module Translator {
  import opened Wrappers
  import opened Text
  import Retry

  // ---------------------------------------------------------------------------
  // _clean_llm_response(text, for_language_detection=True)

  /** `[a-z]{2}` at index `i`. */
  predicate LettersAt(s: string, i: nat) {
    i + 2 <= |s| && IsAsciiLower(s[i]) && IsAsciiLower(s[i + 1])
  }

  /** `\b([a-z]{2})\b` at index `i`: two letters with no word character on either side. */
  predicate StandaloneAt(s: string, i: nat) {
    && LettersAt(s, i)
    && (i == 0 || !IsWordChar(s[i - 1]))
    && (i + 2 == |s| || !IsWordChar(s[i + 2]))
  }

  /** `re.search`: the first index from `i` on where `p` holds. */
  function FirstAt(s: string, i: nat, p: (string, nat) -> bool): (r: Option<nat>)
    requires i <= |s|
    ensures r.Some? ==> i <= r.value <= |s| && p(s, r.value)
    ensures r.Some? ==> forall j :: i <= j < r.value ==> !p(s, j)
    ensures r.None? ==> forall j :: i <= j <= |s| ==> !p(s, j)
    decreases |s| - i
  {
    if p(s, i) then Some(i)
    else if i == |s| then None
    else FirstAt(s, i + 1, p)
  }

  /** The lower-cased, stripped reply in which a language code is looked for. */
  function CodeSource(text: string): string {
    LowerStr(Strip(text))
  }

  /** The language code in a reply: the first standalone two-letter word, else
      the first two consecutive letters, else "". */
  function CleanLanguageCode(text: string): (r: string)
    ensures r == [] || (|r| == 2 && IsAsciiLower(r[0]) && IsAsciiLower(r[1]))
  {
    CodeIn(CodeSource(text))
  }

  /** The code found in the lower-cased, stripped reply `s`. */
  function CodeIn(s: string): (r: string)
    ensures r == [] || (|r| == 2 && IsAsciiLower(r[0]) && IsAsciiLower(r[1]))
  {
    match FirstAt(s, 0, StandaloneAt)
    case Some(i) => s[i..i + 2]
    case None =>
      match FirstAt(s, 0, LettersAt)
      case Some(i) => s[i..i + 2]
      case None => []
  }

  /** The code is "" exactly when the reply holds no two consecutive letters,
      and otherwise is two consecutive letters of the reply. */
  lemma CodeIsLettersOfReply(s: string)
    ensures CodeIn(s) == [] <==> forall i :: 0 <= i <= |s| ==> !LettersAt(s, i)
    ensures CodeIn(s) != [] ==> exists i: nat :: LettersAt(s, i) && CodeIn(s) == s[i..i + 2]
  {
    match FirstAt(s, 0, StandaloneAt)
    case Some(i) =>
      assert LettersAt(s, i);
    case None =>
  }

  /** A standalone two-letter word wins over any earlier pair of letters. */
  lemma CodePrefersStandalone(text: string, i: nat)
    requires StandaloneAt(CodeSource(text), i)
    requires forall j :: 0 <= j < i ==> !StandaloneAt(CodeSource(text), j)
    ensures CleanLanguageCode(text) == CodeSource(text)[i..i + 2]
  {
    var f := FirstAt(CodeSource(text), 0, StandaloneAt);
    assert f.Some? && f.value == i;
  }

  /** Without a standalone word, the first two consecutive letters are taken. */
  lemma CodeFallsBackToFirstLetters(text: string, i: nat)
    requires forall j :: 0 <= j <= |CodeSource(text)| ==> !StandaloneAt(CodeSource(text), j)
    requires LettersAt(CodeSource(text), i)
    requires forall j :: 0 <= j < i ==> !LettersAt(CodeSource(text), j)
    ensures CleanLanguageCode(text) == CodeSource(text)[i..i + 2]
  {
    var f := FirstAt(CodeSource(text), 0, LettersAt);
    assert f.Some? && f.value == i;
  }

  // ---------------------------------------------------------------------------
  // _clean_llm_response(text) for translations

  /** The labels `^(Translation|Перевод|English|Russian|Текст|:)` removes, in the order tried. */
  const TranslationLabels: seq<string> := ["Translation", "Перевод", "English", "Russian", "Текст", ":"]

  predicate IsQuote(c: char) {
    c == '\'' || c == '"'
  }

  /** The length of the first label that `s` starts with, ignoring case. */
  function LabelAt(s: string, labels: seq<string>): (r: Option<nat>)
    ensures r.Some? ==> 0 < r.value <= |s|
  {
    if labels == [] then None
    else if 0 < |labels[0]| <= |s| && LowerStr(s[..|labels[0]|]) == LowerStr(labels[0]) then Some(|labels[0]|)
    else LabelAt(s, labels[1..])
  }

  /** Where the leading `(label)\s*['"]?` ends, or 0 when there is no label. */
  function LabelEnd(s: string): (e: nat)
    ensures e <= |s|
  {
    match LabelAt(s, TranslationLabels)
    case None => 0
    case Some(n) =>
      var j := SkipSpaces(s, n);
      if j < |s| && IsQuote(s[j]) then j + 1 else j
  }

  /** `\s*['"]?\s*$` matches from index `i`. */
  predicate TailAt(s: string, i: nat)
    requires i <= |s|
  {
    var j := SkipSpaces(s, i);
    j == |s| || (IsQuote(s[j]) && SkipSpaces(s, j + 1) == |s|)
  }

  /** The first index from `i` on where the trailing alternative matches. */
  function FirstTail(s: string, i: nat): (k: nat)
    requires i <= |s|
    ensures i <= k <= |s| && TailAt(s, k)
    ensures forall j :: i <= j < k ==> !TailAt(s, j)
    decreases |s| - i
  {
    if i == |s| || TailAt(s, i) then i else FirstTail(s, i + 1)
  }

  /** The first `re.sub`: a leading label and the trailing quote and spaces removed, then stripped. */
  function StripLabels(s: string): string {
    var e := LabelEnd(s);
    Strip(s[e..FirstTail(s, e)])
  }

  /** The index of the `)` closing a bracket opened before `i`: `.*?\)`, where
      `.` does not match a newline. */
  function CloseAt(s: string, i: nat): (r: Option<nat>)
    requires i <= |s|
    ensures r.Some? ==> i <= r.value < |s| && s[r.value] == ')'
    ensures r.Some? ==> forall k :: i <= k < r.value ==> s[k] != '\n'
    ensures r.None? ==> NoCloseBeforeNewline(s[i..])
    decreases |s| - i
  {
    if i == |s| then None
    else if s[i] == ')' then Some(i)
    else if s[i] == '\n' then None
    else
      var r := CloseAt(s, i + 1);
      assert r.None? ==> NoCloseBeforeNewline(s[i..]) by {
        if r.None? {
          forall k | 0 <= k < |s[i..]| && s[i..][k] == ')' ensures '\n' in s[i..][..k] {
            assert s[i..][k] == s[i + 1..][k - 1];
            assert s[i + 1..][..k - 1] == s[i..][1..k];
          }
        }
      }
      r
  }

  /** Every `)` in `s` has a newline somewhere before it. */
  predicate NoCloseBeforeNewline(s: string) {
    forall k :: 0 <= k < |s| && s[k] == ')' ==> '\n' in s[..k]
  }

  /** No `(` is followed by a `)` on the same line: nothing `\(.*?\)` could match. */
  predicate NoBracketSpan(s: string) {
    forall i :: 0 <= i < |s| && s[i] == '(' ==> NoCloseBeforeNewline(s[i + 1..])
  }

  /** `re.sub(r'\(.*?\)', '', s)` */
  function RemoveBrackets(s: string): (r: string)
    decreases |s|
  {
    if s == [] then []
    else if s[0] == '(' then
      match CloseAt(s, 1)
      case Some(j) => RemoveBrackets(s[j + 1..])
      case None => [s[0]] + RemoveBrackets(s[1..])
    else [s[0]] + RemoveBrackets(s[1..])
  }

  /** `re.sub(r'[«»"]', '', s)` */
  function RemoveQuotes(s: string): (r: string)
    ensures '«' !in r && '»' !in r && '"' !in r
  {
    if s == [] then []
    else (if s[0] in "«»\"" then [] else [s[0]]) + RemoveQuotes(s[1..])
  }

  /** `_clean_llm_response(text)`: every step strips the text again. */
  function CleanTranslation(text: string): (r: string)
  {
    Strip(Strip(RemoveQuotes(Strip(RemoveBrackets(StripLabels(Strip(text)))))))
  }

  /** The cleaned translation holds no «, » or " and no bracketed span on one
      line, and has no surrounding whitespace. */
  lemma CleanTranslationShape(text: string)
    ensures var r := CleanTranslation(text);
      && '«' !in r && '»' !in r && '"' !in r
      && NoBracketSpan(r)
      && (r != [] ==> !IsSpace(r[0]) && !IsSpace(r[|r| - 1]))
  {
    var a := RemoveBrackets(StripLabels(Strip(text)));
    RemoveBracketsLeavesNoSpan(StripLabels(Strip(text)));
    var b := Strip(a);
    StripKeepsNoSpan(a);
    var c := RemoveQuotes(b);
    RemoveQuotesKeepsNoSpan(b);
    var d := Strip(c);
    StripKeepsNoSpan(c);
    StripKeepsOut(c, '«');
    StripKeepsOut(c, '»');
    StripKeepsOut(c, '"');
    StripKeepsNoSpan(d);
    StripKeepsOut(d, '«');
    StripKeepsOut(d, '»');
    StripKeepsOut(d, '"');
  }

  lemma StripKeepsOut(s: string, c: char)
    requires c !in s
    ensures c !in Strip(s)
  {
  }

  lemma {:induction false} RemoveBracketsLeavesNoSpan(s: string)
    ensures NoBracketSpan(RemoveBrackets(s))
    decreases |s|
  {
    if s != [] {
      var r := RemoveBrackets(s);
      if s[0] == '(' && CloseAt(s, 1).Some? {
        RemoveBracketsLeavesNoSpan(s[CloseAt(s, 1).value + 1..]);
      } else {
        var rest := RemoveBrackets(s[1..]);
        RemoveBracketsLeavesNoSpan(s[1..]);
        assert r == [s[0]] + rest;
        forall i | 0 <= i < |r| && r[i] == '(' ensures NoCloseBeforeNewline(r[i + 1..]) {
          if i == 0 {
            assert CloseAt(s, 1).None?;
            assert s[1..] == s[1..][0..];
            RemoveBracketsKeepsNoClose(s[1..]);
            assert r[1..] == rest;
          } else {
            assert r[i + 1..] == rest[i..];
          }
        }
      }
    }
  }

  /** Removing bracketed spans from a text where every `)` follows a newline
      keeps that so. */
  lemma {:induction false} RemoveBracketsKeepsNoClose(s: string)
    requires NoCloseBeforeNewline(s)
    ensures NoCloseBeforeNewline(RemoveBrackets(s))
    decreases |s|
  {
    if s != [] {
      var r := RemoveBrackets(s);
      if s[0] == '(' {
        match CloseAt(s, 1)
        case Some(j) =>
          assert false;
        case None =>
          NoCloseTail(s);
          RemoveBracketsKeepsNoClose(s[1..]);
          PrependKeepsNoClose(s[0], RemoveBrackets(s[1..]));
      } else if s[0] == '\n' {
        NewlineFirst(RemoveBrackets(s[1..]));
      } else {
        NoCloseTail(s);
        RemoveBracketsKeepsNoClose(s[1..]);
        PrependKeepsNoClose(s[0], RemoveBrackets(s[1..]));
      }
    }
  }

  lemma NoCloseTail(s: string)
    requires s != [] && s[0] != '\n' && NoCloseBeforeNewline(s)
    ensures NoCloseBeforeNewline(s[1..])
  {
    forall k | 0 <= k < |s[1..]| && s[1..][k] == ')' ensures '\n' in s[1..][..k] {
      assert s[k + 1] == ')';
      assert '\n' in s[..k + 1];
      var m :| 0 <= m < k + 1 && s[..k + 1][m] == '\n';
      assert m != 0;
      assert s[1..][..k][m - 1] == '\n';
    }
  }

  lemma PrependKeepsNoClose(c: char, s: string)
    requires c != ')' && NoCloseBeforeNewline(s)
    ensures NoCloseBeforeNewline([c] + s)
  {
    var t := [c] + s;
    forall k | 0 <= k < |t| && t[k] == ')' ensures '\n' in t[..k] {
      assert t[k] == s[k - 1];
      var m :| 0 <= m < k - 1 && s[..k - 1][m] == '\n';
      assert t[..k][m + 1] == '\n';
    }
  }

  lemma NewlineFirst(s: string)
    ensures NoCloseBeforeNewline(['\n'] + s)
  {
    var t := ['\n'] + s;
    forall k | 0 <= k < |t| && t[k] == ')' ensures '\n' in t[..k] {
      assert t[..k][0] == '\n';
    }
  }

  /** A slice of a text without bracketed spans has none either. */
  lemma SliceKeepsNoSpan(s: string, a: nat, b: nat)
    requires a <= b <= |s| && NoBracketSpan(s)
    ensures NoBracketSpan(s[a..b])
  {
    var t := s[a..b];
    forall i | 0 <= i < |t| && t[i] == '(' ensures NoCloseBeforeNewline(t[i + 1..]) {
      assert s[a + i] == '(';
      var u := s[a + i + 1..];
      assert NoCloseBeforeNewline(u);
      var v := t[i + 1..];
      forall k | 0 <= k < |v| && v[k] == ')' ensures '\n' in v[..k] {
        assert v[k] == u[k];
        assert v[..k] == u[..k];
      }
    }
  }

  lemma StripKeepsNoSpan(s: string)
    requires NoBracketSpan(s)
    ensures NoBracketSpan(Strip(s))
  {
    var i := SkipSpaces(s, 0);
    var j := TrimEnd(s, |s|);
    if i < j {
      SliceKeepsNoSpan(s, i, j);
    }
  }

  lemma {:induction false} RemoveQuotesKeepsNoClose(s: string)
    requires NoCloseBeforeNewline(s)
    ensures NoCloseBeforeNewline(RemoveQuotes(s))
    decreases |s|
  {
    if s != [] {
      if s[0] == '\n' {
        NewlineFirst(RemoveQuotes(s[1..]));
      } else {
        NoCloseTail(s);
        RemoveQuotesKeepsNoClose(s[1..]);
        if s[0] !in "«»\"" {
          PrependKeepsNoClose(s[0], RemoveQuotes(s[1..]));
        } else {
          assert RemoveQuotes(s) == RemoveQuotes(s[1..]);
        }
      }
    }
  }

  lemma {:induction false} RemoveQuotesKeepsNoSpan(s: string)
    requires NoBracketSpan(s)
    ensures NoBracketSpan(RemoveQuotes(s))
    decreases |s|
  {
    if s != [] {
      var r := RemoveQuotes(s);
      var rest := RemoveQuotes(s[1..]);
      assert NoBracketSpan(s[1..]) by { SliceKeepsNoSpan(s, 1, |s|); assert s[1..|s|] == s[1..]; }
      RemoveQuotesKeepsNoSpan(s[1..]);
      if s[0] in "«»\"" {
        assert r == rest;
      } else {
        assert r == [s[0]] + rest;
        forall i | 0 <= i < |r| && r[i] == '(' ensures NoCloseBeforeNewline(r[i + 1..]) {
          if i == 0 {
            assert NoCloseBeforeNewline(s[1..]);
            RemoveQuotesKeepsNoClose(s[1..]);
            assert r[1..] == rest;
          } else {
            assert r[i + 1..] == rest[i..];
          }
        }
      }
    }
  }

  // ---------------------------------------------------------------------------
  // Prompts

  function DetectPrompt(text: string): string {
    "Detect the language of the following text and return ONLY the ISO 639-1 code "
    + "(e.g., 'en', 'ru', 'fr', 'de'). Do NOT provide any additional explanations, "
    + "phrases like 'The language is', or parentheses. Just the two-letter code."
    + "Text: \"" + text + "\""
  }

  function EnglishPrompt(text: string): string {
    "You are a professional translator. Translate the following Russian text into fluent English. "
    + "Provide ONLY the translated text, without any additional explanations, formatting, or conversational phrases."
    + "Russian: " + text + "\\nEnglish:"
  }

  function RussianPrompt(text: string): string {
    "You are a professional translator. Translate the following English text into fluent Russian. "
    + "Provide ONLY the translated text, without any additional explanations, formatting, or conversational phrases."
    + "English: " + text + "\\nRussian:"
  }

  /** The three requests the translator makes of the language model; the
      model is sent exactly `PromptOf(r)`. */
  datatype Request = DetectRequest(text: string) | EnglishRequest(text: string) | RussianRequest(text: string)

  function PromptOf(r: Request): string {
    match r
    case DetectRequest(t) => DetectPrompt(t)
    case EnglishRequest(t) => EnglishPrompt(t)
    case RussianRequest(t) => RussianPrompt(t)
  }

  // ---------------------------------------------------------------------------
  // detect_language

  /** A code `detect_language` accepts: two letters (`isalpha`). */
  predicate IsLanguageCode(c: string) {
    |c| == 2 && IsAsciiLetter(c[0]) && IsAsciiLetter(c[1])
  }

  /** What `detect_language` returns: `None` for empty text; otherwise the
      first reply that did not raise decides, and an unusable code gives `None`
      at once. */
  function DetectOutcome(text: string, reply: nat -> Option<string>, retries: int): (r: Option<string>)
    ensures r.Some? ==> |r.value| == 2 && IsAsciiLower(r.value[0]) && IsAsciiLower(r.value[1])
    ensures text == [] ==> r.None?
  {
    if text == [] then None
    else match Retry.Outcome(reply, retries)
      case None => None
      case Some(t) =>
        var c := CleanLanguageCode(t);
        if c != [] && IsLanguageCode(c) then Some(c) else None
  }

  /** The sleeps `detect_language` takes: none for empty text. */
  function DetectSleeps(text: string, reply: nat -> Option<string>, retries: int, delay: int): seq<int> {
    if text == [] then [] else Retry.Sleeps(reply, retries, delay)
  }

  /** `detect_language(text, retries, delay)` */
  method DetectLanguage(text: string, llm: string -> nat -> Option<string>, retries: int, delay: int)
    returns (code: Option<string>, sleeps: seq<int>)
    ensures code == DetectOutcome(text, llm(DetectPrompt(text)), retries)
    ensures sleeps == DetectSleeps(text, llm(DetectPrompt(text)), retries, delay)
  {
    code, sleeps := DetectWith(text, llm(DetectPrompt(text)), retries, delay);
  }

  /** The body of `detect_language`, given the model's replies to the detection prompt. */
  method DetectWith(text: string, reply: nat -> Option<string>, retries: int, delay: int)
    returns (code: Option<string>, sleeps: seq<int>)
    ensures code == DetectOutcome(text, reply, retries)
    ensures sleeps == DetectSleeps(text, reply, retries, delay)
  {
    if text == [] {
      return None, [];
    }
    var first, slept := Retry.Attempts(reply, retries, delay);
    sleeps := slept;
    code := None;
    if first.Some? {
      var c := CleanLanguageCode(first.value);
      if c != [] && IsLanguageCode(c) {
        code := Some(c);
      }
    }
  }

  /** Only a raised attempt is retried: the first reply that arrives settles
      the result, a usable code or `None`, and no sleep follows it. */
  lemma DetectStopsAtFirstReply(text: string, reply: nat -> Option<string>, retries: int, delay: int, a: nat)
    requires text != [] && a < retries && reply(a).Some?
    requires forall b :: 0 <= b < a ==> reply(b).None?
    ensures var c := CleanLanguageCode(reply(a).value);
      DetectOutcome(text, reply, retries) == (if c != [] then Some(c) else None)
    ensures DetectSleeps(text, reply, retries, delay) == Retry.Backoff(delay, a)
  {
    Retry.FirstSuccessIs(reply, 0, a, retries);
  }

  // ---------------------------------------------------------------------------
  // translate_to_english / translate_to_russian

  /** A reply that is kept: it arrived and is non-empty once cleaned. */
  predicate Usable(reply: Option<string>) {
    reply.Some? && CleanTranslation(reply.value) != []
  }

  /** Attempt `a` as the retry loop sees it: the cleaned reply, or `None` when
      the attempt raised or cleaned to "". */
  function CleanedReplies(reply: nat -> Option<string>): nat -> Option<string> {
    (a: nat) => if Usable(reply(a)) then Some(CleanTranslation(reply(a).value)) else None
  }

  /** The translation returned: the first usable cleaned reply, or the input. */
  function TranslationOutcome(text: string, reply: nat -> Option<string>, retries: int): string {
    match Retry.Outcome(CleanedReplies(reply), retries)
    case Some(t) => t
    case None => text
  }

  /** The retry loop shared by both translation directions. */
  method Translate(text: string, reply: nat -> Option<string>, retries: int, delay: int)
    returns (translation: string, sleeps: seq<int>)
    ensures translation == TranslationOutcome(text, reply, retries)
    ensures sleeps == Retry.Sleeps(CleanedReplies(reply), retries, delay)
  {
    var r, slept := Retry.Attempts(CleanedReplies(reply), retries, delay);
    sleeps := slept;
    translation := if r.Some? then r.value else text;
  }

  /** `translate_to_english(russian_text, retries, delay)` */
  method TranslateToEnglish(text: string, llm: string -> nat -> Option<string>, retries: int, delay: int)
    returns (translation: string, sleeps: seq<int>)
    ensures translation == TranslationOutcome(text, llm(EnglishPrompt(text)), retries)
    ensures sleeps == Retry.Sleeps(CleanedReplies(llm(EnglishPrompt(text))), retries, delay)
  {
    translation, sleeps := Translate(text, llm(EnglishPrompt(text)), retries, delay);
  }

  /** `translate_to_russian(english_text, retries, delay)` */
  method TranslateToRussian(text: string, llm: string -> nat -> Option<string>, retries: int, delay: int)
    returns (translation: string, sleeps: seq<int>)
    ensures translation == TranslationOutcome(text, llm(RussianPrompt(text)), retries)
    ensures sleeps == Retry.Sleeps(CleanedReplies(llm(RussianPrompt(text))), retries, delay)
  {
    translation, sleeps := Translate(text, llm(RussianPrompt(text)), retries, delay);
  }

  /** When no attempt is usable the input comes back unchanged. */
  lemma TranslationFallsBack(text: string, reply: nat -> Option<string>, retries: int)
    requires forall a :: 0 <= a < retries ==> !Usable(reply(a))
    ensures TranslationOutcome(text, reply, retries) == text
  {
    var cleaned := CleanedReplies(reply);
    forall a | 0 <= a < retries ensures cleaned(a).None? {
    }
    Retry.FirstSuccessNone(cleaned, 0, retries);
  }

  /** The translation is the cleaned reply of the first usable attempt. */
  lemma TranslationIsFirstUsable(text: string, reply: nat -> Option<string>, retries: int, a: nat)
    requires a < retries && Usable(reply(a))
    requires forall b :: 0 <= b < a ==> !Usable(reply(b))
    ensures TranslationOutcome(text, reply, retries) == CleanTranslation(reply(a).value) != []
  {
    var cleaned := CleanedReplies(reply);
    assert cleaned(a) == Some(CleanTranslation(reply(a).value));
    forall b | 0 <= b < a ensures cleaned(b).None? {
    }
    Retry.FirstSuccessIs(cleaned, 0, a, retries);
  }

  // ---------------------------------------------------------------------------
  // is_translation_different

  const SameTextRatio: real := 0.95

  /** `is_translation_different`: both texts present, different once cleaned and
      lower-cased, and less than 95% similar. */
  function IsTranslationDifferent(original: string, translated: string, ratio: (string, string) -> real): (r: bool)
    ensures r ==> original != [] && translated != []
    ensures r ==> LowerStr(CleanTranslation(original)) != LowerStr(CleanTranslation(translated))
  {
    if original == [] || translated == [] then false
    else
      var a := LowerStr(CleanTranslation(original));
      var b := LowerStr(CleanTranslation(translated));
      a != b && ratio(a, b) < SameTextRatio
  }

  /** A reply that is the input handed back never counts as a translation,
      whatever the ratio says; nor does one differing only in case. */
  lemma UnchangedIsNotDifferent(original: string, translated: string, ratio: (string, string) -> real)
    requires LowerStr(CleanTranslation(original)) == LowerStr(CleanTranslation(translated))
    ensures !IsTranslationDifferent(original, translated, ratio)
  {
  }

  // ---------------------------------------------------------------------------
  // translate_batch

  /** The prompt `translate_batch` uses for `target_language`: English when it
      is "english" in any case, Russian when it is "russian", else none. */
  function BatchPrompt(targetLanguage: string): Option<string -> string> {
    var target := LowerStr(targetLanguage);
    if target == "english" then Some(EnglishPrompt)
    else if target == "russian" then Some(RussianPrompt)
    else None
  }

  /** Each text translated on its own with `prompt`, in order. */
  function TranslateAll(texts: seq<string>, prompt: string -> string, llm: string -> nat -> Option<string>): (r: seq<string>)
    ensures |r| == |texts|
  {
    if texts == [] then []
    else
      var last := texts[|texts| - 1];
      TranslateAll(texts[..|texts| - 1], prompt, llm) + [TranslationOutcome(last, llm(prompt(last)), 3)]
  }

  lemma TranslateAllSnoc(texts: seq<string>, prompt: string -> string, llm: string -> nat -> Option<string>, i: nat)
    requires i < |texts|
    ensures TranslateAll(texts[..i + 1], prompt, llm)
         == TranslateAll(texts[..i], prompt, llm) + [TranslationOutcome(texts[i], llm(prompt(texts[i])), 3)]
  {
    assert texts[..i + 1][..i] == texts[..i];
  }

  /** Entry `k` of the batch is the translation of text `k`. */
  lemma {:induction false} TranslateAllAt(texts: seq<string>, prompt: string -> string, llm: string -> nat -> Option<string>, k: nat)
    requires k < |texts|
    ensures TranslateAll(texts, prompt, llm)[k] == TranslationOutcome(texts[k], llm(prompt(texts[k])), 3)
  {
    if k < |texts| - 1 {
      TranslateAllAt(texts[..|texts| - 1], prompt, llm, k);
    }
  }

  /** The loop of `translate_batch` over the texts, with the default retries
      (3) and delay (1). */
  method TranslateEach(texts: seq<string>, prompt: string -> string, llm: string -> nat -> Option<string>)
    returns (translated: seq<string>)
    ensures translated == TranslateAll(texts, prompt, llm)
  {
    translated := [];
    var i := 0;
    while i < |texts|
      invariant 0 <= i <= |texts|
      invariant translated == TranslateAll(texts[..i], prompt, llm)
    {
      var t, slept := Translate(texts[i], llm(prompt(texts[i])), 3, 1);
      TranslateAllSnoc(texts, prompt, llm, i);
      translated := translated + [t];
      i := i + 1;
    }
    assert texts[..i] == texts;
  }

  /** `translate_batch(texts, target_language)`: one translation per text, in
      order; an unsupported language gives the texts back. */
  method TranslateBatch(texts: seq<string>, targetLanguage: string, llm: string -> nat -> Option<string>)
    returns (translated: seq<string>)
    ensures |translated| == |texts|
    ensures BatchPrompt(targetLanguage).None? ==> translated == texts
    ensures BatchPrompt(targetLanguage).Some? ==> translated == TranslateAll(texts, BatchPrompt(targetLanguage).value, llm)
  {
    var target := BatchPrompt(targetLanguage);
    if target.None? {
      translated := texts;
    } else {
      translated := TranslateEach(texts, target.value, llm);
    }
  }
}

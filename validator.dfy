/** The query validator (agents/validator.py): a stripped query is rejected
    when it is shorter than the minimum length or fully matches one of four
    patterns, and the rejection is explained by a fixed Russian message. */
module Validator {
  import opened Wrappers
  import opened Text

  const DefaultMinLength := 3

  /** The four patterns, in the order they are tried:
      `^/\w+`, `^\d+$`, `^[^\w\s]+$` and `^\s*$`. */
  datatype InvalidPattern = Command | DigitsOnly | SymbolsOnly | Blank

  const InvalidPatterns: seq<InvalidPattern> := [Command, DigitsOnly, SymbolsOnly, Blank]

  /** `re.fullmatch(pattern, s)` succeeds. */
  predicate FullMatch(p: InvalidPattern, s: string) {
    match p
    case Command => |s| >= 2 && s[0] == '/' && forall k :: 1 <= k < |s| ==> IsWordChar(s[k])
    case DigitsOnly => s != [] && AllDigits(s)
    case SymbolsOnly => s != [] && forall k :: 0 <= k < |s| ==> !IsWordChar(s[k]) && !IsSpace(s[k])
    case Blank => forall k :: 0 <= k < |s| ==> IsSpace(s[k])
  }

  function ReasonOf(p: InvalidPattern): string {
    match p
    case Command => QueryWord + "выглядит как команда бота. Пожалуйста, введите обычный текст."
    case DigitsOnly => QueryWord + "состоит только из цифр. Пожалуйста, опишите, что вы ищете."
    case SymbolsOnly => QueryWord + "состоит только из специальных символов. Пожалуйста, введите осмысленный текст."
    case Blank => QueryWord + "пуст. Пожалуйста, введите что-нибудь."
  }

  /** Every explained rejection opens with "Ваш запрос " ("your query"). */
  const QueryWord := "Ваш запрос "
  const EmptyReason := QueryWord + "пуст. Пожалуйста, введите что-нибудь."
  const UnknownReason := "Неизвестная" + " причина. Ваш запрос не может быть обработан."

  function TooShortReason(minLength: int): string {
    QueryWord + "слишком короткий. Он должен содержать минимум " + IntToString(minLength) + " символа(ов)."
  }

  /** The first pattern of `ps` that fully matches `s`. */
  function FirstMatching(s: string, ps: seq<InvalidPattern>): (r: Option<nat>)
    ensures r.None? <==> forall k :: 0 <= k < |ps| ==> !FullMatch(ps[k], s)
    ensures r.Some? ==> r.value < |ps| && FullMatch(ps[r.value], s)
                        && forall k :: 0 <= k < r.value ==> !FullMatch(ps[k], s)
  {
    if ps == [] then None
    else if FullMatch(ps[0], s) then Some(0)
    else match FirstMatching(s, ps[1..])
      case None => None
      case Some(k) => Some(k + 1)
  }

  /** `is_valid` */
  predicate IsValid(minLength: int, query: string) {
    var cleaned := Strip(query);
    |cleaned| >= minLength && FirstMatching(cleaned, InvalidPatterns).None?
  }

  /** `get_invalid_reason`: the length message, the empty message, the first
      matching pattern's message, or the unknown-reason message. It is the
      unknown-reason message exactly for the queries `is_valid` accepts. */
  function InvalidReason(minLength: int, query: string): (r: string)
    ensures r == UnknownReason <==> IsValid(minLength, query)
    ensures var cleaned := Strip(query);
      |cleaned| >= minLength && !IsValid(minLength, query) ==>
        exists k :: 0 <= k < |InvalidPatterns| && FullMatch(InvalidPatterns[k], cleaned) && r == ReasonOf(InvalidPatterns[k])
                    && forall j :: 0 <= j < k ==> !FullMatch(InvalidPatterns[j], cleaned)
  {
    ReasonsAreKnown(minLength);
    var cleaned := Strip(query);
    if |cleaned| < minLength then
      TooShortReason(minLength)
    else if cleaned == [] then
      assert FullMatch(InvalidPatterns[3], cleaned) && forall j :: 0 <= j < 3 ==> !FullMatch(InvalidPatterns[j], cleaned);
      EmptyReason
    else match FirstMatching(cleaned, InvalidPatterns)
      case Some(k) => ReasonOf(InvalidPatterns[k])
      case None => UnknownReason
  }

  /** No explained rejection reads as the unknown-reason message. */
  lemma ReasonsAreKnown(minLength: int)
    ensures TooShortReason(minLength) != UnknownReason && EmptyReason != UnknownReason
    ensures forall p :: ReasonOf(p) != UnknownReason
  {
    assert UnknownReason[0] == 'Н';
    assert TooShortReason(minLength)[0] == QueryWord[0] == 'В';
    assert EmptyReason[0] == QueryWord[0];
    forall p ensures ReasonOf(p) != UnknownReason {
      assert ReasonOf(p)[0] == QueryWord[0];
    }
  }

  /** `validate_or_explain`: `(True, "")` exactly for a valid query, else
      `False` with a reason that is never the unknown-reason message. */
  function ValidateOrExplain(minLength: int, query: string): (r: (bool, string))
    ensures r.0 <==> IsValid(minLength, query)
    ensures r.0 ==> r.1 == ""
    ensures !r.0 ==> r.1 == InvalidReason(minLength, query) && r.1 != UnknownReason
  {
    if IsValid(minLength, query) then (true, "") else (false, InvalidReason(minLength, query))
  }

  /** `validate_and_log` returns what `is_valid` returns; the warning it logs is not modelled. */
  function ValidateAndLog(minLength: int, query: string): (ok: bool)
    ensures ok <==> IsValid(minLength, query)
  {
    ValidateOrExplain(minLength, query).0
  }

  // ---------------------------------------------------------------------------
  // Properties

  /** A query whose stripped text is shorter than the minimum is rejected with the length message. */
  lemma ShortIsInvalid(minLength: int, query: string)
    requires |Strip(query)| < minLength
    ensures ValidateOrExplain(minLength, query) == (false, TooShortReason(minLength))
  {
  }

  /** A query of whitespace only is rejected whatever the minimum length. */
  lemma BlankIsInvalid(minLength: int, query: string)
    requires forall k :: 0 <= k < |query| ==> IsSpace(query[k])
    ensures !IsValid(minLength, query)
    ensures minLength <= 0 ==> ValidateOrExplain(minLength, query) == (false, EmptyReason)
  {
    assert Strip(query) == [];
    assert FullMatch(Blank, []);
  }

  /** The accepted queries, described directly: long enough, and neither a
      bot command, nor only digits, nor only special characters, nor empty. */
  lemma ValidIff(minLength: int, query: string)
    ensures var c := Strip(query);
      IsValid(minLength, query) <==>
        && |c| >= minLength
        && c != []
        && !(c[0] == '/' && |c| >= 2 && forall k :: 1 <= k < |c| ==> IsWordChar(c[k]))
        && !AllDigits(c)
        && (exists k :: 0 <= k < |c| && (IsWordChar(c[k]) || IsSpace(c[k])))
  {
    var c := Strip(query);
    if c != [] {
      assert !IsSpace(c[0]);
      assert !FullMatch(Blank, c);
    }
    assert InvalidPatterns[0] == Command && InvalidPatterns[1] == DigitsOnly;
    assert InvalidPatterns[2] == SymbolsOnly && InvalidPatterns[3] == Blank;
  }

  /** A long enough query that does not start with '/' and contains a letter is accepted. */
  lemma LetterQueryIsValid(minLength: int, query: string, i: nat)
    requires |Strip(query)| >= minLength
    requires Strip(query) != [] && Strip(query)[0] != '/'
    requires i < |Strip(query)| && IsCased(Strip(query)[i])
    ensures ValidateOrExplain(minLength, query) == (true, "")
  {
    var c := Strip(query);
    ValidIff(minLength, query);
    assert IsWordChar(c[i]) && !IsDigit(c[i]);
  }
}

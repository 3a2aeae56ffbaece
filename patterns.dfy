/** The regular expressions the two title extractors apply with `re.finditer`
    and `re.findall`, as matchers over strings.

    Every pattern the extractors use is one of two shapes:
    - a quoted title `OPEN([^STOP]+)CLOSE`, optionally followed by
      `\s*\((\d{4})\)` and a literal trailer (`«([^»]+)»\s*\((\d{4})\)`,
      `\*\*([^*]+)\*\*`, ...), where CLOSE begins with STOP, so the title is
      everything up to the first STOP character;
    - the lazy catch-all `([^,;]+?)\s*\((\d{4})\)`, whose title is the shortest
      run of characters other than ',' and ';' that a year in brackets follows. */
module Patterns {
  import opened Wrappers
  import opened Text

  datatype Pattern =
    | Quoted(open: string, stop: char, close: string, withYear: bool, trailer: string)
    | LazyYear

  /** One match: group 1 (the title, unstripped), group 2 (the year digits,
      empty when the pattern has no year group) and where the match ends. */
  datatype Match = Match(title: string, year: string, end: nat)

  predicate HasYear(p: Pattern) {
    p.LazyYear? || p.withYear
  }

  /** `\((\d{4})\)` at index `k`. */
  predicate YearAt(s: string, k: nat) {
    k + 6 <= |s| && s[k] == '(' && AllDigits(s[k + 1..k + 5]) && s[k + 5] == ')'
  }

  /** `\s*\((\d{4})\)` at index `k`: the index of the opening bracket. The class
      `\s` does not contain '(', so the greedy `\s*` never needs to give back. */
  function YearTail(s: string, k: nat): (r: Option<nat>)
    requires k <= |s|
    ensures r.Some? ==> k <= r.value && YearAt(s, r.value)
  {
    var j := SkipSpaces(s, k);
    if YearAt(s, j) then Some(j) else None
  }

  /** What every match of `p` satisfies. */
  predicate WellFormed(p: Pattern, m: Match) {
    && m.title != []
    && (HasYear(p) ==> |m.year| == 4 && AllDigits(m.year))
    && (p.Quoted? ==> p.stop !in m.title)
    && (p.LazyYear? ==> ',' !in m.title && ';' !in m.title)
  }

  /** The match of `p` that starts exactly at index `i`, if any. */
  function MatchAt(s: string, p: Pattern, i: nat): (r: Option<Match>)
    requires i <= |s|
    ensures r.Some? ==> i < r.value.end <= |s| && WellFormed(p, r.value)
  {
    match p
    case LazyYear => if i < |s| then LazyFrom(s, i, i + 1) else None
    case Quoted(open, stop, close, withYear, trailer) =>
      if !StartsWith(s[i..], open) then None
      else QuotedBody(s, p, i + |open|)
  }

  /** The title group `([^STOP]+)` starting at index `b`, then the rest of `p`. */
  function QuotedBody(s: string, p: Pattern, b: nat): (r: Option<Match>)
    requires p.Quoted? && b <= |s|
    ensures r.Some? ==> b < r.value.end <= |s| && WellFormed(p, r.value)
  {
    match IndexOf(s[b..], p.stop)
    case None => None
    case Some(off) =>
      var j := b + off;
      if off == 0 || !StartsWith(s[j..], p.close) then None
      else
        assert s[b..j] == s[b..][..off];
        QuotedTail(s, p, b, j)
  }

  /** After the title `s[b..j]` and the closing text: the year group and the
      trailer when the pattern has them. */
  function QuotedTail(s: string, p: Pattern, b: nat, j: nat): (r: Option<Match>)
    requires p.Quoted? && b < j && j + |p.close| <= |s| && p.stop !in s[b..j]
    ensures r.Some? ==> b < r.value.end <= |s| && WellFormed(p, r.value)
  {
    var after := j + |p.close|;
    if !p.withYear then Some(Match(s[b..j], [], after))
    else
      match YearTail(s, after)
      case None => None
      case Some(y) =>
        if StartsWith(s[y + 6..], p.trailer) then Some(Match(s[b..j], s[y + 1..y + 5], y + 6 + |p.trailer|))
        else None
  }

  /** The lazy group `([^,;]+?)` tried with the title `s[i..k]`, then longer ones. */
  function LazyFrom(s: string, i: nat, k: nat): (r: Option<Match>)
    requires i < k <= |s|
    requires ',' !in s[i..k - 1] && ';' !in s[i..k - 1]
    ensures r.Some? ==> k < r.value.end <= |s| && WellFormed(LazyYear, r.value)
    ensures r.Some? ==> exists e :: k <= e <= |s| && r.value.title == s[i..e]
    decreases |s| - k
  {
    if s[k - 1] == ',' || s[k - 1] == ';' then None
    else
      assert s[i..k] == s[i..k - 1] + [s[k - 1]];
      match YearTail(s, k)
      case Some(y) => Some(Match(s[i..k], s[y + 1..y + 5], y + 6))
      case None => if k < |s| then LazyFrom(s, i, k + 1) else None
  }

  /** `re.finditer(p, s)` from index `i`: after a match the search resumes where
      it ended, otherwise one character further on. */
  function FindFrom(s: string, p: Pattern, i: nat): (ms: seq<Match>)
    requires i <= |s|
    ensures forall k :: 0 <= k < |ms| ==> WellFormed(p, ms[k]) && ms[k].end <= |s|
    decreases |s| - i
  {
    if i == |s| then []
    else
      match MatchAt(s, p, i)
      case Some(m) => [m] + FindFrom(s, p, m.end)
      case None => FindFrom(s, p, i + 1)
  }

  /** All non-overlapping matches of `p` in `s`, left to right. */
  function FindAll(s: string, p: Pattern): (ms: seq<Match>)
    ensures forall k :: 0 <= k < |ms| ==> WellFormed(p, ms[k])
  {
    FindFrom(s, p, 0)
  }

  /** Successive matches end strictly further to the right, so they never overlap. */
  lemma {:induction false} FindFromOrdered(s: string, p: Pattern, i: nat)
    requires i <= |s|
    ensures forall k :: 0 <= k < |FindFrom(s, p, i)| ==> i < FindFrom(s, p, i)[k].end
    ensures forall k :: 0 <= k < |FindFrom(s, p, i)| - 1 ==> FindFrom(s, p, i)[k].end < FindFrom(s, p, i)[k + 1].end
    decreases |s| - i
  {
    if i < |s| {
      match MatchAt(s, p, i)
      case Some(m) =>
        FindFromOrdered(s, p, m.end);
        var rest := FindFrom(s, p, m.end);
        var ms := FindFrom(s, p, i);
        assert ms == [m] + rest;
        forall k | 0 <= k < |ms| - 1 ensures ms[k].end < ms[k + 1].end {
          if k > 0 { assert ms[k] == rest[k - 1] && ms[k + 1] == rest[k]; }
          else { assert ms[1] == rest[0]; }
        }
      case None => FindFromOrdered(s, p, i + 1);
    }
  }

  function Pow10(n: nat): (r: nat)
    ensures r >= 1
  {
    if n == 0 then 1 else 10 * Pow10(n - 1)
  }

  /** A string of `n` digits denotes a number below `10^n`. */
  lemma {:induction false} DigitsBelowPow10(t: string)
    requires AllDigits(t)
    ensures DigitsValue(t) < Pow10(|t|)
  {
    if t != [] {
      DigitsBelowPow10(t[..|t| - 1]);
    }
  }

  /** A year matched by `\d{4}` is between 0 and 9999. */
  lemma FourDigitYear(t: string)
    requires |t| == 4 && AllDigits(t)
    ensures 0 <= DigitsValue(t) <= 9999
  {
    DigitsBelowPow10(t);
  }
}

/** Python string primitives the bot relies on: character classes, `strip`,
    `split`, `join`, `lower`, `title`, slicing, `in` and `int()`/`str()` on integers.

    Unicode is approximated: `IsSpace` is exactly the set `str.isspace` accepts,
    but letters, case mapping and the regular-expression class `\w` are modelled
    for ASCII, Latin-1 and the basic Cyrillic block only. */
module Text {
  import opened Wrappers

  // ---------------------------------------------------------------------------
  // Character classes

  /** The characters for which Python's `str.isspace()` holds; also `\s` in `re`. */
  predicate IsSpace(c: char) {
    c == ' ' || ('\t' <= c <= '\r') || ('\U{1C}' <= c <= '\U{1F}')
    || c == '\U{85}' || c == '\U{A0}' || c == '\U{1680}'
    || ('\U{2000}' <= c <= '\U{200A}') || c == '\U{2028}' || c == '\U{2029}'
    || c == '\U{202F}' || c == '\U{205F}' || c == '\U{3000}'
  }

  predicate IsDigit(c: char) { '0' <= c <= '9' }

  predicate IsAsciiLower(c: char) { 'a' <= c <= 'z' }

  predicate IsAsciiUpper(c: char) { 'A' <= c <= 'Z' }

  predicate IsAsciiLetter(c: char) { IsAsciiLower(c) || IsAsciiUpper(c) }

  predicate IsUpper(c: char) {
    IsAsciiUpper(c) || ('\U{C0}' <= c <= '\U{DE}' && c != '\U{D7}') || ('\U{400}' <= c <= '\U{42F}')
  }

  predicate IsLower(c: char) {
    IsAsciiLower(c) || ('\U{DF}' <= c <= '\U{FF}' && c != '\U{F7}') || ('\U{430}' <= c <= '\U{45F}')
  }

  /** A character that has a case (Python's "cased" characters, within the modelled blocks). */
  predicate IsCased(c: char) { IsUpper(c) || IsLower(c) }

  /** The regular-expression class `\w`: letters, digits and the underscore. */
  predicate IsWordChar(c: char) {
    IsDigit(c) || c == '_' || IsCased(c)
    || ('\U{460}' <= c <= '\U{481}') || ('\U{48A}' <= c <= '\U{4FF}')
  }

  lemma WordCharIsNotSpace(c: char)
    requires IsWordChar(c)
    ensures !IsSpace(c)
  {
  }

  // ---------------------------------------------------------------------------
  // Case mapping

  function Lower(c: char): (r: char)
    ensures IsUpper(c) ==> IsLower(r)
    ensures !IsUpper(c) ==> r == c
  {
    if IsAsciiUpper(c) || ('\U{C0}' <= c <= '\U{DE}' && c != '\U{D7}') || ('\U{410}' <= c <= '\U{42F}') then
      (c as int + 32) as char
    else if '\U{400}' <= c <= '\U{40F}' then
      (c as int + 80) as char
    else c
  }

  function Upper(c: char): (r: char)
    ensures IsLower(c) && c != '\U{DF}' && c != '\U{FF}' ==> IsUpper(r)
    ensures !IsLower(c) ==> r == c
  {
    if IsAsciiLower(c) || ('\U{E0}' <= c <= '\U{FE}' && c != '\U{F7}') || ('\U{430}' <= c <= '\U{44F}') then
      (c as int - 32) as char
    else if '\U{450}' <= c <= '\U{45F}' then
      (c as int - 80) as char
    else c
  }

  lemma LowerKeepsClasses(c: char)
    ensures IsSpace(Lower(c)) <==> IsSpace(c)
    ensures IsWordChar(Lower(c)) <==> IsWordChar(c)
    ensures Lower(Lower(c)) == Lower(c)
    ensures Lower(c) == ' ' <==> c == ' '
  {
  }

  /** `s.lower()` */
  function LowerStr(s: string): (r: string)
    ensures |r| == |s|
    ensures forall i :: 0 <= i < |s| ==> r[i] == Lower(s[i])
  {
    seq(|s|, i requires 0 <= i < |s| => Lower(s[i]))
  }

  /** `s.title()`: a cased character is upper-cased when the character before it
      is not cased, and lower-cased otherwise. */
  function Title(s: string): (r: string)
    ensures |r| == |s|
  {
    TitleAfter(s, false)
  }

  function TitleAfter(s: string, previousCased: bool): (r: string)
    ensures |r| == |s|
    decreases |s|
  {
    if s == [] then []
    else
      var c := if previousCased then Lower(s[0]) else Upper(s[0]);
      [c] + TitleAfter(s[1..], IsCased(c))
  }

  // ---------------------------------------------------------------------------
  // strip, split, join

  /** Index of the first non-space character at or after `i`, or `|s|`. */
  function SkipSpaces(s: string, i: nat): (k: nat)
    requires i <= |s|
    ensures i <= k <= |s|
    ensures forall j :: i <= j < k ==> IsSpace(s[j])
    ensures k < |s| ==> !IsSpace(s[k])
    decreases |s| - i
  {
    if i < |s| && IsSpace(s[i]) then SkipSpaces(s, i + 1) else i
  }

  /** One past the last non-space character before `j`, or 0. */
  function TrimEnd(s: string, j: nat): (k: nat)
    requires j <= |s|
    ensures k <= j
    ensures forall m :: k <= m < j ==> IsSpace(s[m])
    ensures k > 0 ==> !IsSpace(s[k - 1])
  {
    if j > 0 && IsSpace(s[j - 1]) then TrimEnd(s, j - 1) else j
  }

  /** `s.strip()` */
  function Strip(s: string): (r: string)
    ensures |r| <= |s|
    ensures r != [] ==> !IsSpace(r[0]) && !IsSpace(r[|r| - 1])
    ensures (forall k :: 0 <= k < |s| ==> !IsSpace(s[k])) ==> r == s
  {
    var i := SkipSpaces(s, 0);
    var j := TrimEnd(s, |s|);
    if i < j then s[i..j] else []
  }

  /** Stripping a text with no blank at either end leaves it unchanged. */
  lemma StripOfTrimmed(t: string)
    requires t != [] && !IsSpace(t[0]) && !IsSpace(t[|t| - 1])
    ensures Strip(t) == t
  {
    assert SkipSpaces(t, 0) == 0;
    assert TrimEnd(t, |t|) == |t|;
    assert t[0..|t|] == t;
  }

  /** Index of the first space at or after `i`, or `|s|`. */
  function WordEnd(s: string, i: nat): (k: nat)
    requires i <= |s|
    ensures i <= k <= |s|
    ensures forall j :: i <= j < k ==> !IsSpace(s[j])
    ensures k < |s| ==> IsSpace(s[k])
    decreases |s| - i
  {
    if i < |s| && !IsSpace(s[i]) then WordEnd(s, i + 1) else i
  }

  /** `s.split()`: the maximal runs of non-space characters, in order. */
  function Split(s: string): (ws: seq<string>)
    ensures forall k :: 0 <= k < |ws| ==> ws[k] != [] && forall j :: 0 <= j < |ws[k]| ==> !IsSpace(ws[k][j])
    decreases |s|
  {
    if s == [] then []
    else if IsSpace(s[0]) then Split(s[1..])
    else
      var k := WordEnd(s, 0);
      [s[..k]] + Split(s[k..])
  }

  /** `sep.join(parts)` */
  function Join(sep: string, parts: seq<string>): string {
    if parts == [] then []
    else if |parts| == 1 then parts[0]
    else parts[0] + sep + Join(sep, parts[1..])
  }

  /** No leading or trailing space, no other whitespace than single `' '` separators. */
  predicate Normalized(s: string) {
    && (s != [] ==> s[0] != ' ' && s[|s| - 1] != ' ')
    && (forall i :: 0 <= i < |s| ==> (IsSpace(s[i]) ==> s[i] == ' '))
    && (forall i :: 0 <= i < |s| - 1 ==> !(s[i] == ' ' && s[i + 1] == ' '))
  }

  /** On a normalized string, `" ".join(s.split())` gives the string back. */
  lemma {:induction false} JoinSplitNormalized(s: string)
    requires Normalized(s)
    ensures Join(" ", Split(s)) == s
    decreases |s|
  {
    if s != [] {
      var k := WordEnd(s, 0);
      if k == |s| {
        assert s[k..] == [];
        assert s[..k] == s;
      } else {
        var rest := s[k + 1..];
        assert rest[0] == s[k + 1];
        assert Normalized(rest) by {
          forall i | 0 <= i < |rest| ensures IsSpace(rest[i]) ==> rest[i] == ' ' {
            assert rest[i] == s[k + 1 + i];
          }
          forall i | 0 <= i < |rest| - 1 ensures !(rest[i] == ' ' && rest[i + 1] == ' ') {
            assert rest[i] == s[k + 1 + i] && rest[i + 1] == s[k + 2 + i];
          }
        }
        JoinSplitNormalized(rest);
        assert s[k..][1..] == rest;
        assert Split(s) == [s[..k]] + Split(rest);
        assert Split(rest) != [] by {
          assert !IsSpace(rest[0]);
        }
        assert s == s[..k] + " " + rest;
      }
    }
  }

  // ---------------------------------------------------------------------------
  // Searching

  /** `needle in hay` for strings. */
  predicate Contains(hay: string, needle: string) {
    exists i :: 0 <= i <= |hay| && OccursAt(hay, needle, i)
  }

  /** `needle` occurs in `hay` starting at index `i`. */
  predicate OccursAt(hay: string, needle: string, i: nat) {
    i + |needle| <= |hay| && hay[i..i + |needle|] == needle
  }

  /** `hay.startswith(p)` */
  predicate StartsWith(hay: string, p: string) {
    |p| <= |hay| && hay[..|p|] == p
  }

  /** `hay.endswith(p)` */
  predicate EndsWith(hay: string, p: string) {
    |p| <= |hay| && hay[|hay| - |p|..] == p
  }

  /** `s.find(c)` as an option. */
  function IndexOf(s: string, c: char): (r: Option<nat>)
    ensures r.None? ==> c !in s
    ensures r.Some? ==> r.value < |s| && s[r.value] == c && c !in s[..r.value]
  {
    if s == [] then None
    else if s[0] == c then Some(0)
    else
      match IndexOf(s[1..], c)
      case None => None
      case Some(k) => assert s[1..][..k] == s[1..k + 1]; Some(k + 1)
  }

  /** `s.rfind(c)` as an option. */
  function LastIndexOf(s: string, c: char): (r: Option<nat>)
    ensures r.None? ==> c !in s
    ensures r.Some? ==> r.value < |s| && s[r.value] == c && c !in s[r.value + 1..]
  {
    if s == [] then None
    else if s[|s| - 1] == c then Some(|s| - 1)
    else
      match LastIndexOf(s[..|s| - 1], c)
      case None => None
      case Some(k) => assert s[k + 1..] == s[..|s| - 1][k + 1..] + [s[|s| - 1]]; Some(k)
  }

  lemma IndexOfFirst(s: string, c: char, i: nat)
    requires i < |s| && s[i] == c && c !in s[..i]
    ensures IndexOf(s, c) == Some(i)
  {
  }

  /** `s.split(sep, n)` for `n >= 0`: at most `n` splits, so at most `n + 1` parts. */
  function SplitN(s: string, sep: char, n: nat): (parts: seq<string>)
    ensures 1 <= |parts| <= n + 1
    decreases n
  {
    if n == 0 then [s]
    else
      match IndexOf(s, sep)
      case None => [s]
      case Some(i) => [s[..i]] + SplitN(s[i + 1..], sep, n - 1)
  }

  /** A string without the separator is not split. */
  lemma SplitNWhole(s: string, sep: char, n: nat)
    requires sep !in s
    ensures SplitN(s, sep, n) == [s]
  {
  }

  /** The first separator ends the first part; the rest is split with one split fewer. */
  lemma SplitNStep(a: string, sep: char, rest: string, n: nat)
    requires sep !in a && n >= 1
    ensures SplitN(a + [sep] + rest, sep, n) == [a] + SplitN(rest, sep, n - 1)
  {
    var s := a + [sep] + rest;
    assert s[..|a|] == a;
    IndexOfFirst(s, sep, |a|);
    assert s[|a| + 1..] == rest;
  }

  /** `s.replace(p, "")`: non-overlapping occurrences of `p` removed left to right. */
  function RemoveAll(s: string, p: string): (r: string)
    requires p != []
    ensures |r| <= |s|
    decreases |s|
  {
    if |s| < |p| then s
    else if s[..|p|] == p then RemoveAll(s[|p|..], p)
    else [s[0]] + RemoveAll(s[1..], p)
  }

  /** A string in which the first character of `p` never occurs is left as it is. */
  lemma {:induction false} RemoveAllAbsent(s: string, p: string)
    requires p != [] && p[0] !in s
    ensures RemoveAll(s, p) == s
    decreases |s|
  {
    if |s| >= |p| {
      assert s[0] != p[0];
      assert s[..|p|] != p;
      RemoveAllAbsent(s[1..], p);
      assert s == [s[0]] + s[1..];
    }
  }

  /** `s.split(sep)` with no limit. */
  function SplitAll(s: string, sep: char): (parts: seq<string>)
    ensures |parts| >= 1
    ensures forall k :: 0 <= k < |parts| ==> sep !in parts[k]
    decreases |s|
  {
    match IndexOf(s, sep)
    case None => [s]
    case Some(i) => [s[..i]] + SplitAll(s[i + 1..], sep)
  }

  /** Splitting parts joined by a separator they do not contain gives the parts back. */
  lemma {:induction false} SplitAllJoin(parts: seq<string>, sep: char)
    requires parts != []
    requires forall k :: 0 <= k < |parts| ==> sep !in parts[k]
    ensures SplitAll(Join([sep], parts), sep) == parts
  {
    var p := parts[0];
    if |parts| == 1 {
      assert IndexOf(p, sep) == None;
    } else {
      var rest := Join([sep], parts[1..]);
      var s := p + [sep] + rest;
      assert Join([sep], parts) == s;
      assert s[|p|] == sep && s[..|p|] == p;
      IndexOfFirst(s, sep, |p|);
      assert s[|p| + 1..] == rest;
      SplitAllJoin(parts[1..], sep);
      assert parts == [p] + parts[1..];
    }
  }

  /** `s[:n]` with Python's slice semantics, including a negative `n`. */
  function PyTake<T>(s: seq<T>, n: int): (r: seq<T>)
    ensures n >= 0 ==> |r| == if n <= |s| then n else |s|
    ensures |r| <= |s| && r == s[..|r|]
  {
    if n >= 0 then (if n <= |s| then s[..n] else s)
    else if |s| + n >= 0 then s[..|s| + n] else []
  }

  // ---------------------------------------------------------------------------
  // Integers and their decimal text

  function DigitChar(d: nat): (c: char)
    requires d < 10
    ensures IsDigit(c)
  {
    ('0' as int + d) as char
  }

  function DigitValue(c: char): (d: nat)
    requires IsDigit(c)
    ensures d < 10
  {
    c as int - '0' as int
  }

  predicate AllDigits(s: string) {
    forall i :: 0 <= i < |s| ==> IsDigit(s[i])
  }

  /** `str(n)` for a natural number. */
  function NatToString(n: nat): (s: string)
    ensures s != [] && AllDigits(s)
    decreases n
  {
    if n < 10 then [DigitChar(n)] else NatToString(n / 10) + [DigitChar(n % 10)]
  }

  /** `str(i)` for any integer. */
  function IntToString(i: int): (s: string)
    ensures s != []
    ensures forall k :: 0 <= k < |s| ==> IsDigit(s[k]) || s[k] == '-'
  {
    if i < 0 then "-" + NatToString(-i) else NatToString(i)
  }

  /** The value of a string of decimal digits. */
  function DigitsValue(s: string): (v: nat)
    requires AllDigits(s)
  {
    if s == [] then 0 else DigitsValue(s[..|s| - 1]) * 10 + DigitValue(s[|s| - 1])
  }

  lemma {:induction false} DigitsOfNat(n: nat)
    ensures DigitsValue(NatToString(n)) == n
    decreases n
  {
    if n >= 10 {
      var s := NatToString(n);
      assert s[..|s| - 1] == NatToString(n / 10);
      DigitsOfNat(n / 10);
    }
  }

  /** `int(s)` for the forms the bot produces and parses: optional surrounding
      whitespace, an optional sign, then ASCII digits. */
  function PyInt(s: string): (r: Option<int>)
    ensures r.Some? ==> exists t :: t != [] && AllDigits(t) && (r.value == DigitsValue(t) || r.value == -(DigitsValue(t) as int))
  {
    var t := Strip(s);
    if t == [] then None
    else if t[0] == '-' || t[0] == '+' then
      var d := t[1..];
      if d != [] && AllDigits(d) then Some(if t[0] == '-' then -(DigitsValue(d) as int) else DigitsValue(d)) else None
    else if AllDigits(t) then Some(DigitsValue(t))
    else None
  }

  lemma DigitsNotSpace(s: string)
    requires AllDigits(s)
    ensures forall k :: 0 <= k < |s| ==> !IsSpace(s[k])
  {
  }

  lemma PyIntOfIntToString(i: int)
    ensures PyInt(IntToString(i)) == Some(i)
  {
    var s := IntToString(i);
    DigitsNotSpace(NatToString(if i < 0 then -i else i));
    assert Strip(s) == s;
    if i < 0 {
      assert s[1..] == NatToString(-i);
      DigitsOfNat(-i);
    } else {
      DigitsOfNat(i);
    }
  }
}

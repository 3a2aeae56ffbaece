/** The genre mapper (agents/genre_mapper.py): the set of genres found in
    the `genres` column of the movie table, as a sorted list, and the
    genres a user's text names with word boundaries on both sides. */
module Genres {
  import opened Wrappers
  import opened Text
  import opened Seqs

  // ---------------------------------------------------------------------------
  // Python's ordering of strings (by code point) and sorted lists

  /** `a < b` for Python strings. */
  predicate Less(a: string, b: string)
    decreases |a|
  {
    if a == [] then b != []
    else if b == [] then false
    else if a[0] != b[0] then a[0] < b[0]
    else Less(a[1..], b[1..])
  }

  lemma {:induction false} LessIrreflexive(a: string)
    ensures !Less(a, a)
    decreases |a|
  {
    if a != [] {
      LessIrreflexive(a[1..]);
    }
  }

  lemma {:induction false} LessTransitive(a: string, b: string, c: string)
    requires Less(a, b) && Less(b, c)
    ensures Less(a, c)
    decreases |a|
  {
    if a != [] && a[0] == b[0] && b[0] == c[0] {
      LessTransitive(a[1..], b[1..], c[1..]);
    }
  }

  lemma {:induction false} LessTotal(a: string, b: string)
    requires a != b
    ensures Less(a, b) || Less(b, a)
    decreases |a|
  {
    if a != [] && b != [] && a[0] == b[0] {
      assert a == [a[0]] + a[1..] && b == [b[0]] + b[1..];
      LessTotal(a[1..], b[1..]);
    }
  }

  lemma LessAsymmetric(a: string, b: string)
    requires Less(a, b)
    ensures !Less(b, a)
  {
    if Less(b, a) {
      LessTransitive(a, b, a);
      LessIrreflexive(a);
    }
  }

  /** Strictly increasing, hence free of duplicates: what `sorted(list(a_set))` returns. */
  predicate Sorted(s: seq<string>) {
    forall i, j :: 0 <= i < j < |s| ==> Less(s[i], s[j])
  }

  lemma SortedNoDuplicates(s: seq<string>)
    requires Sorted(s)
    ensures NoDuplicates(s)
  {
    forall i, j | 0 <= i < j < |s| ensures s[i] != s[j] {
      LessIrreflexive(s[i]);
    }
  }

  /** `x` put in its place in a sorted list; nothing changes when it is already there. */
  function Insert(s: seq<string>, x: string): (r: seq<string>)
    requires Sorted(s)
    ensures Sorted(r)
    ensures forall y :: y in r <==> y in s || y == x
    decreases |s|
  {
    if s == [] then [x]
    else if s[0] == x then s
    else if Less(x, s[0]) then
      assert forall j :: 0 <= j < |s| ==> Less(x, s[j]) by {
        forall j | 0 <= j < |s| ensures Less(x, s[j]) {
          if j > 0 { LessTransitive(x, s[0], s[j]); }
        }
      }
      [x] + s
    else
      LessTotal(x, s[0]);
      var rest := Insert(s[1..], x);
      assert forall y :: y in rest ==> Less(s[0], y) by {
        forall y | y in rest ensures Less(s[0], y) {
          if y != x {
            var j :| 0 <= j < |s[1..]| && s[1..][j] == y;
            assert s[j + 1] == y;
          }
        }
      }
      [s[0]] + rest
  }

  /** A set has only one sorted list: `sorted(list(a_set))` is determined by the set. */
  lemma {:induction false} SortedUnique(a: seq<string>, b: seq<string>)
    requires Sorted(a) && Sorted(b)
    requires forall y :: y in a <==> y in b
    ensures a == b
    decreases |a|
  {
    if a != [] {
      assert b != [] by { assert a[0] in b; }
      assert a[0] in a && b[0] in b;
      if a[0] != b[0] {
        var i :| 0 <= i < |a| && a[i] == b[0];
        var j :| 0 <= j < |b| && b[j] == a[0];
        assert i > 0 && j > 0;
        LessAsymmetric(a[0], a[i]);
      }
      assert a[0] == b[0];
      SortedNoDuplicates(a);
      SortedNoDuplicates(b);
      forall y ensures y in a[1..] <==> y in b[1..] {
        if y in a[1..] {
          var i :| 0 <= i < |a[1..]| && a[1..][i] == y;
          assert a[i + 1] == y && y != a[0];
          assert y in b;
          var j :| 0 <= j < |b| && b[j] == y;
          assert j != 0;
          assert b[1..][j - 1] == y;
        }
        if y in b[1..] {
          var j :| 0 <= j < |b[1..]| && b[1..][j] == y;
          assert b[j + 1] == y && y != b[0];
          assert y in a;
          var i :| 0 <= i < |a| && a[i] == y;
          assert i != 0;
          assert a[1..][i - 1] == y;
        }
      }
      SortedUnique(a[1..], b[1..]);
      assert a[1..] == b[1..];
      assert a == [a[0]] + a[1..] && b == [b[0]] + b[1..];
    } else {
      NoElementEmpty(b);
    }
  }

  lemma NoElementEmpty<T>(s: seq<T>)
    ensures (forall y :: y !in s) ==> s == []
  {
    if s != [] {
      assert s[0] in s;
    }
  }

  // ---------------------------------------------------------------------------
  // The genre set of the movie table

  /** The genres of one split column: each non-blank piece, stripped and lower-cased. */
  function PieceGenres(pieces: seq<string>): set<string> {
    if pieces == [] then {}
    else
      var last := Strip(pieces[|pieces| - 1]);
      PieceGenres(pieces[..|pieces| - 1]) + (if last != [] then {LowerStr(last)} else {})
  }

  /** The rows `SELECT DISTINCT genres ... WHERE genres IS NOT NULL AND genres != ''` returns. */
  predicate Selected(column: Option<string>) {
    column.Some? && column.value != []
  }

  function ColumnGenres(column: Option<string>): set<string> {
    if Selected(column) then PieceGenres(SplitAll(column.value, ',')) else {}
  }

  /** The genres of all columns. */
  function GenreSet(columns: seq<Option<string>>): set<string> {
    if columns == [] then {}
    else GenreSet(columns[..|columns| - 1]) + ColumnGenres(columns[|columns| - 1])
  }

  /** Every loaded genre is non-empty, has no comma and no surrounding space. */
  lemma {:induction false} PieceGenresShape(pieces: seq<string>, g: string)
    requires forall k :: 0 <= k < |pieces| ==> ',' !in pieces[k]
    requires g in PieceGenres(pieces)
    ensures g != [] && ',' !in g && !IsSpace(g[0]) && !IsSpace(g[|g| - 1])
  {
    var last := Strip(pieces[|pieces| - 1]);
    if g in PieceGenres(pieces[..|pieces| - 1]) {
      PieceGenresShape(pieces[..|pieces| - 1], g);
    } else {
      assert g == LowerStr(last) && last != [];
      LoweredPieceShape(pieces[|pieces| - 1]);
    }
  }

  lemma LoweredPieceShape(p: string)
    requires ',' !in p && Strip(p) != []
    ensures var g := LowerStr(Strip(p));
      g != [] && ',' !in g && !IsSpace(g[0]) && !IsSpace(g[|g| - 1])
  {
    var last := Strip(p);
    var g := LowerStr(last);
    StripInside(p);
    LowerKeepsClasses(last[0]);
    LowerKeepsClasses(last[|last| - 1]);
    forall k | 0 <= k < |g| ensures g[k] != ',' {
      assert last[k] in p;
    }
  }

  lemma StripInside(s: string)
    ensures forall k :: 0 <= k < |Strip(s)| ==> Strip(s)[k] in s
  {
    var i := SkipSpaces(s, 0);
    var j := TrimEnd(s, |s|);
    if i < j {
      forall k | 0 <= k < |Strip(s)| ensures Strip(s)[k] in s {
        assert Strip(s)[k] == s[i + k];
      }
    }
  }

  // ---------------------------------------------------------------------------
  // Word-boundary matching

  /** `\b` at position `i` of `s`: a word character on exactly one side. */
  predicate Boundary(s: string, i: nat)
    requires i <= |s|
  {
    (i > 0 && IsWordChar(s[i - 1])) != (i < |s| && IsWordChar(s[i]))
  }

  /** `re.search(r'\b' + re.escape(g) + r'\b', s)` succeeds. */
  predicate WordMatch(s: string, g: string) {
    exists i :: 0 <= i <= |s| && OccursAt(s, g, i) && Boundary(s, i) && Boundary(s, i + |g|)
  }

  class GenreMapper {
    var genres: seq<string>

    predicate Valid()
      reads this
    {
      Sorted(genres)
    }

    /** `__init__`: loads the genres of the given `genres` column values. */
    constructor (columns: seq<Option<string>>, fault: bool)
      ensures Valid()
      ensures forall g :: g in genres <==> !fault && g in GenreSet(columns)
    {
      genres := [];
      new;
      LoadGenres(columns, fault);
    }

    /** `_load_genres`: the sorted, duplicate-free list of the genre set; `[]`
        when reading the table fails. */
    method LoadGenres(columns: seq<Option<string>>, fault: bool)
      modifies this
      ensures Valid()
      ensures forall g :: g in genres <==> !fault && g in GenreSet(columns)
    {
      if fault {
        genres := [];
        return;
      }
      var unique: seq<string> := [];
      var i := 0;
      while i < |columns|
        invariant 0 <= i <= |columns|
        invariant Sorted(unique)
        invariant forall g :: g in unique <==> g in GenreSet(columns[..i])
      {
        assert columns[..i + 1][..i] == columns[..i];
        if Selected(columns[i]) {
          unique := AddPieces(unique, SplitAll(columns[i].value, ','));
        }
        i := i + 1;
      }
      assert columns[..i] == columns;
      genres := unique;
    }

    /** The inner loop over one column's comma-separated pieces. */
    static method AddPieces(unique: seq<string>, pieces: seq<string>) returns (r: seq<string>)
      requires Sorted(unique)
      ensures Sorted(r)
      ensures forall g :: g in r <==> g in unique || g in PieceGenres(pieces)
    {
      r := unique;
      var j := 0;
      while j < |pieces|
        invariant 0 <= j <= |pieces|
        invariant Sorted(r)
        invariant forall g :: g in r <==> g in unique || g in PieceGenres(pieces[..j])
      {
        assert pieces[..j + 1][..j] == pieces[..j];
        var g := Strip(pieces[j]);
        if g != [] {
          r := Insert(r, LowerStr(g));
        }
        j := j + 1;
      }
      assert pieces[..j] == pieces;
    }

    /** `get_all_genres` */
    function GetAllGenres(): (r: seq<string>)
      reads this
      requires Valid()
      ensures Sorted(r) && NoDuplicates(r)
    {
      SortedNoDuplicates(genres);
      genres
    }

    /** `match_genres`: the loaded genres that occur in the lower-cased input
        with word boundaries on both sides, each once. `list(set(...))` fixes
        no order, so only the elements are promised. */
    method MatchGenres(userInput: string) returns (r: seq<string>)
      requires Valid()
      ensures NoDuplicates(r)
      ensures forall g :: g in r <==> g in genres && WordMatch(LowerStr(userInput), g)
    {
      var lower := LowerStr(userInput);
      SortedNoDuplicates(genres);
      var matched: seq<string> := [];
      var i := 0;
      while i < |genres|
        invariant 0 <= i <= |genres|
        invariant NoDuplicates(matched)
        invariant forall g :: g in matched <==> g in genres[..i] && WordMatch(lower, g)
      {
        assert genres[..i + 1] == genres[..i] + [genres[i]];
        if WordMatch(lower, genres[i]) {
          assert genres[i] !in genres[..i];
          matched := matched + [genres[i]];
        }
        i := i + 1;
      }
      assert genres[..i] == genres;
      r := matched;
    }
  }

  // ---------------------------------------------------------------------------
  // Properties

  /** The loaded list is the one `sorted(list(unique_genres))` gives: any
      sorted list of the same genres is equal to it. */
  lemma LoadedIsTheSortedSet(loaded: seq<string>, other: seq<string>, columns: seq<Option<string>>)
    requires Sorted(loaded) && Sorted(other)
    requires forall g :: g in loaded <==> g in GenreSet(columns)
    requires forall g :: g in other <==> g in GenreSet(columns)
    ensures loaded == other
  {
    SortedUnique(loaded, other);
  }

  /** Every loaded genre is non-empty, comma-free and stripped. */
  lemma {:induction false} GenreSetShape(columns: seq<Option<string>>, g: string)
    requires g in GenreSet(columns)
    ensures g != [] && ',' !in g && !IsSpace(g[0]) && !IsSpace(g[|g| - 1])
  {
    if g in GenreSet(columns[..|columns| - 1]) {
      GenreSetShape(columns[..|columns| - 1], g);
    } else {
      var c := columns[|columns| - 1];
      PieceGenresShape(SplitAll(c.value, ','), g);
    }
  }

  /** 'action' is not matched inside 'transaction', where no word boundary precedes it. */
  lemma ActionNotInTransaction()
    ensures !WordMatch("transaction", "action")
    ensures WordMatch("an action movie", "action")
  {
    var s := "transaction";
    forall i | 0 <= i <= |s| && OccursAt(s, "action", i) ensures !Boundary(s, i) {
      assert s[i..i + 6][0] == 'a' && s[i..i + 6][1] == 'c';
      assert s[i] == 'a' && s[i + 1] == 'c';
    }
    var t := "an action movie";
    assert OccursAt(t, "action", 3) && Boundary(t, 3) && Boundary(t, 9);
  }
}

/** Generic sequence operations used by the in-memory tables: filtering rows,
    reading them newest first, and the absence of duplicates. */
module Seqs {

  /** The elements satisfying `keep`, in their original order. */
  function Filter<T>(s: seq<T>, keep: T -> bool): (r: seq<T>)
    ensures |r| <= |s|
    ensures forall k :: 0 <= k < |r| ==> r[k] in s && keep(r[k])
    ensures forall k :: 0 <= k < |s| && keep(s[k]) ==> s[k] in r
  {
    if s == [] then []
    else (if keep(s[0]) then [s[0]] else []) + Filter(s[1..], keep)
  }

  lemma {:induction false} FilterAppend<T>(s: seq<T>, t: seq<T>, keep: T -> bool)
    ensures Filter(s + t, keep) == Filter(s, keep) + Filter(t, keep)
  {
    if s != [] {
      assert (s + t)[1..] == s[1..] + t;
      FilterAppend(s[1..], t, keep);
    } else {
      assert s + t == t;
    }
  }

  lemma {:induction false} EverythingSelected<T>(s: seq<T>, keep: T -> bool)
    requires forall k :: 0 <= k < |s| ==> keep(s[k])
    ensures Filter(s, keep) == s
  {
    if s != [] {
      EverythingSelected(s[1..], keep);
      assert s == [s[0]] + s[1..];
    }
  }

  lemma NothingSelected<T>(s: seq<T>, keep: T -> bool)
    requires forall k :: 0 <= k < |s| ==> !keep(s[k])
    ensures Filter(s, keep) == []
  {
  }

  /** The sequence read backwards: the newest row of an append-only table first. */
  function Reverse<T>(s: seq<T>): (r: seq<T>)
    ensures |r| == |s|
    ensures forall k :: 0 <= k < |s| ==> r[k] == s[|s| - 1 - k]
  {
    if s == [] then [] else [s[|s| - 1]] + Reverse(s[..|s| - 1])
  }

  /** The newest row of `s + [x]` is `x`. */
  lemma ReverseSnoc<T>(s: seq<T>, x: T)
    ensures Reverse(s + [x]) == [x] + Reverse(s)
  {
    var a := Reverse(s + [x]);
    var b := [x] + Reverse(s);
    assert |a| == |b|;
    forall k | 0 <= k < |a| ensures a[k] == b[k] {
      if k > 0 {
        assert a[k] == (s + [x])[|s| - k];
      }
    }
  }

  /** Filtering twice, where the second filter implies the first, is the second filter alone. */
  lemma {:induction false} FilterFilter<T>(s: seq<T>, first: T -> bool, second: T -> bool)
    requires forall x :: second(x) ==> first(x)
    ensures Filter(Filter(s, first), second) == Filter(s, second)
  {
    if s != [] {
      FilterFilter(s[1..], first, second);
      if first(s[0]) {
        assert Filter(s, first) == [s[0]] + Filter(s[1..], first);
        assert Filter(s, first)[1..] == Filter(s[1..], first);
      } else {
        assert !second(s[0]);
        assert Filter(s, first) == Filter(s[1..], first);
        assert Filter(s, second) == Filter(s[1..], second);
      }
    }
  }

  /** Filtering by two conditions does not depend on their order. */
  lemma {:induction false} FilterCommute<T>(s: seq<T>, first: T -> bool, second: T -> bool)
    ensures Filter(Filter(s, first), second) == Filter(Filter(s, second), first)
  {
    if s != [] {
      FilterCommute(s[1..], first, second);
      var x := s[0];
      assert [x][1..] == [];
      FilterAppend(if first(x) then [x] else [], Filter(s[1..], first), second);
      FilterAppend(if second(x) then [x] else [], Filter(s[1..], second), first);
    }
  }

  /** Two conditions that agree on every element select the same elements. */
  lemma {:induction false} FilterAgree<T>(s: seq<T>, first: T -> bool, second: T -> bool)
    requires forall k :: 0 <= k < |s| ==> first(s[k]) == second(s[k])
    ensures Filter(s, first) == Filter(s, second)
  {
    if s != [] {
      FilterAgree(s[1..], first, second);
    }
  }

  /** Reading newest first and filtering can be done in either order. */
  lemma {:induction false} FilterReverse<T>(s: seq<T>, keep: T -> bool)
    ensures Reverse(Filter(s, keep)) == Filter(Reverse(s), keep)
  {
    if s != [] {
      var init, x := s[..|s| - 1], s[|s| - 1];
      assert s == init + [x];
      FilterReverse(init, keep);
      FilterAppend(init, [x], keep);
      assert [x][1..] == [];
      ReverseSnoc(init, x);
      assert ([x] + Reverse(init))[1..] == Reverse(init);
      if keep(x) {
        ReverseSnoc(Filter(init, keep), x);
      } else {
        assert Filter(init, keep) + [] == Filter(init, keep);
      }
    }
  }

  predicate NoDuplicates<T(==)>(s: seq<T>) {
    forall i, j :: 0 <= i < j < |s| ==> s[i] != s[j]
  }

  /** `for x in xs: if x not in acc: acc.append(x)`: `acc` followed by the
      elements of `xs` it does not hold yet, each once, in order. */
  function AppendNew<T(==)>(acc: seq<T>, xs: seq<T>): (r: seq<T>)
    ensures |acc| <= |r| && r[..|acc|] == acc
    ensures forall k :: |acc| <= k < |r| ==> r[k] in xs
    ensures forall k :: 0 <= k < |xs| ==> xs[k] in r
    decreases |xs|
  {
    if xs == [] then acc
    else
      var prev := AppendNew(acc, xs[..|xs| - 1]);
      var x := xs[|xs| - 1];
      assert forall k :: 0 <= k < |xs| - 1 ==> xs[k] == xs[..|xs| - 1][k];
      if x in prev then prev else prev + [x]
  }

  /** Appending one more element to `xs` adds it at the end unless it is already there. */
  lemma AppendNewSnoc<T>(acc: seq<T>, xs: seq<T>, x: T)
    ensures AppendNew(acc, xs + [x]) == if x in AppendNew(acc, xs) then AppendNew(acc, xs) else AppendNew(acc, xs) + [x]
  {
    assert (xs + [x])[..|xs|] == xs;
  }

  lemma {:induction false} AppendNewKeepsNoDuplicates<T>(acc: seq<T>, xs: seq<T>)
    requires NoDuplicates(acc)
    ensures NoDuplicates(AppendNew(acc, xs))
    decreases |xs|
  {
    if xs != [] {
      AppendNewKeepsNoDuplicates(acc, xs[..|xs| - 1]);
    }
  }

  /** The number of occurrences of `x` in `s`. */
  function Count<T(==)>(s: seq<T>, x: T): (n: nat)
    ensures n <= |s|
    ensures n == 0 <==> x !in s
  {
    if s == [] then 0 else (if s[0] == x then 1 else 0) + Count(s[1..], x)
  }
}

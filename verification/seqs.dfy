/**
 Sequence utilities shared by the table model: the meaning of a SELECT
 filtered by a WHERE clause (the matching rows, in table order) and of a
 DELETE filtered the same way (the non-matching rows, in table order).
 */
module Seqs {

  /** `a` can be obtained from `b` by deleting elements: either the last
      element of `b` supplies the last element of `a`, or it is skipped. */
  ghost predicate IsSubsequence<T>(a: seq<T>, b: seq<T>)
    decreases |b|
  {
    if |a| == 0 then true
    else if |b| == 0 then false
    else
      || (a[|a| - 1] == b[|b| - 1] && IsSubsequence(a[..|a| - 1], b[..|b| - 1]))
      || IsSubsequence(a, b[..|b| - 1])
  }

  /** The elements of `s` that satisfy `p`, in the order they occur in `s`. */
  function Filter<T(!new)>(p: T -> bool, s: seq<T>): (r: seq<T>)
    ensures forall x :: x in r <==> x in s && p(x)
    ensures forall x :: multiset(r)[x] == if p(x) then multiset(s)[x] else 0
    ensures IsSubsequence(r, s)
    decreases |s|
  {
    if |s| == 0 then []
    else
      var init, last := s[..|s| - 1], s[|s| - 1];
      assert s == init + [last];
      var kept := Filter(p, init);
      if p(last) then
        assert (kept + [last])[..|kept|] == kept;
        kept + [last]
      else
        kept
  }

  /** A filter that every element passes returns its input unchanged. */
  lemma {:induction false} FilterKeepsAll<T(!new)>(p: T -> bool, s: seq<T>)
    requires forall x :: x in s ==> p(x)
    ensures Filter(p, s) == s
    decreases |s|
  {
    if |s| > 0 {
      var init, last := s[..|s| - 1], s[|s| - 1];
      assert s == init + [last];
      FilterKeepsAll(p, init);
      FilterAppend(p, init, last);
    }
  }

  /** Filtering a table with one row appended: the old answer, followed by
      the new row when it matches. */
  lemma FilterAppend<T(!new)>(p: T -> bool, s: seq<T>, x: T)
    ensures Filter(p, s + [x]) == Filter(p, s) + if p(x) then [x] else []
  {
    assert (s + [x])[..|s|] == s;
  }

  /** A filter that rejects exactly one position of `s` drops exactly one
      element. */
  lemma {:induction false} FilterDropsOne<T(!new)>(p: T -> bool, s: seq<T>, i: int)
    requires 0 <= i < |s| && !p(s[i])
    requires forall j :: 0 <= j < |s| && j != i ==> p(s[j])
    ensures |Filter(p, s)| == |s| - 1
    decreases |s|
  {
    var init, last := s[..|s| - 1], s[|s| - 1];
    assert s == init + [last];
    FilterAppend(p, init, last);
    if i == |s| - 1 {
      forall x | x in init
        ensures p(x)
      {
        var j :| 0 <= j < |init| && init[j] == x;
        assert s[j] == x;
      }
      FilterKeepsAll(p, init);
    } else {
      assert init[i] == s[i];
      FilterDropsOne(p, init, i);
    }
  }

  /** A sequence one longer than `s` that starts with `s` is `s` plus one
      element. */
  lemma PrefixPlusLast<T>(s: seq<T>, t: seq<T>)
    requires |t| == |s| + 1 && t[..|s|] == s
    ensures t == s + [t[|s|]]
  {
  }

  /** A sequence whose every element is `c` holds `c` once per position. */
  lemma {:induction false} AllEqualCount<T>(s: seq<T>, c: T)
    requires forall x :: x in s ==> x == c
    ensures multiset(s)[c] == |s|
    decreases |s|
  {
    if |s| > 0 {
      var init := s[..|s| - 1];
      assert s == init + [s[|s| - 1]];
      assert forall x :: x in init ==> x in s;
      assert s[|s| - 1] in s;
      AllEqualCount(init, c);
    }
  }
}

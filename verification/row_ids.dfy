/**
 Integer primary keys. Every table declares `id` as an INTEGER PRIMARY KEY
 with no AUTOINCREMENT, so SQLite gives a new row the id one past the
 largest id in the table, or 1 when the table is empty. Tables are kept in
 id order, which is also the order an unordered SELECT returns them in.
 */
module RowIds {
  import opened Seqs

  /** The largest key of a non-empty table. */
  function MaxKey<T(!new)>(s: seq<T>, key: T -> int): (m: int)
    requires |s| > 0
    ensures forall x :: x in s ==> key(x) <= m
    ensures exists i :: 0 <= i < |s| && key(s[i]) == m
    decreases |s|
  {
    if |s| == 1 then key(s[0])
    else
      var init := s[..|s| - 1];
      assert s == init + [s[|s| - 1]];
      var m' := MaxKey(init, key);
      if key(s[|s| - 1]) > m' then key(s[|s| - 1]) else m'
  }

  /** The id the store gives the next inserted row. */
  function NextKey<T(!new)>(s: seq<T>, key: T -> int): (n: int)
    ensures forall x :: x in s ==> key(x) < n
    ensures s == [] ==> n == 1
  {
    if |s| == 0 then 1 else MaxKey(s, key) + 1
  }

  /** No two rows share a key, and rows are stored in ascending key order. */
  ghost predicate KeysIncreasing<T>(s: seq<T>, key: T -> int)
  {
    forall i, j :: 0 <= i < j < |s| ==> key(s[i]) < key(s[j])
  }

  /** Keys in ascending order are pairwise distinct. */
  lemma IncreasingKeysDistinct<T>(s: seq<T>, key: T -> int, i: int, j: int)
    requires KeysIncreasing(s, key)
    requires 0 <= i < |s| && 0 <= j < |s| && i != j
    ensures key(s[i]) != key(s[j])
  {
  }

  /** After a row is appended under the next key, the next key is one past it. */
  lemma NextKeyAfterAppend<T(!new)>(s: seq<T>, key: T -> int, x: T)
    requires key(x) == NextKey(s, key)
    ensures NextKey(s + [x], key) == key(x) + 1
  {
    var t := s + [x];
    assert forall y :: y in t ==> y in s || y == x;
    assert t[..|t| - 1] == s;
  }

  /** Appending a row whose key exceeds every existing key keeps the keys
      ascending. */
  lemma AppendGreaterKey<T>(s: seq<T>, key: T -> int, x: T)
    requires KeysIncreasing(s, key)
    requires forall y :: y in s ==> key(y) < key(x)
    ensures KeysIncreasing(s + [x], key)
  {
    var t := s + [x];
    forall i, j | 0 <= i < j < |t|
      ensures key(t[i]) < key(t[j])
    {
      if j == |s| {
        assert t[i] in s;
      }
    }
  }

  /** Every element of a subsequence is an element of the sequence. */
  lemma {:induction false} SubsequenceMembers<T>(a: seq<T>, b: seq<T>)
    requires IsSubsequence(a, b)
    ensures forall x :: x in a ==> x in b
    decreases |b|
  {
    if |a| > 0 {
      var a', b' := a[..|a| - 1], b[..|b| - 1];
      assert b == b' + [b[|b| - 1]];
      if a[|a| - 1] == b[|b| - 1] && IsSubsequence(a', b') {
        SubsequenceMembers(a', b');
        assert a == a' + [a[|a| - 1]];
      } else {
        SubsequenceMembers(a, b');
      }
    }
  }

  /** Deleting rows from a table keeps the remaining keys ascending. */
  lemma {:induction false} SubsequenceKeepsIncreasing<T>(a: seq<T>, b: seq<T>, key: T -> int)
    requires IsSubsequence(a, b)
    requires KeysIncreasing(b, key)
    ensures KeysIncreasing(a, key)
    decreases |b|
  {
    if |a| > 0 {
      var a', b' := a[..|a| - 1], b[..|b| - 1];
      assert KeysIncreasing(b', key);
      if a[|a| - 1] == b[|b| - 1] && IsSubsequence(a', b') {
        SubsequenceKeepsIncreasing(a', b', key);
        SubsequenceMembers(a', b');
        forall y | y in a'
          ensures key(y) < key(a[|a| - 1])
        {
          var i :| 0 <= i < |b'| && b'[i] == y;
          assert b[i] == y;
        }
        AppendGreaterKey(a', key, a[|a| - 1]);
        assert a == a' + [a[|a| - 1]];
      } else {
        SubsequenceKeepsIncreasing(a, b', key);
      }
    }
  }
}

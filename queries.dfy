/**
 * The query vocabulary of the repositories: `WHERE` as `Filter`,
 * `ORDER BY ... DESC` as a stable insertion sort on a two-part key
 * (primary, secondary) compared lexicographically, and `LIMIT` as `Take`.
 * Every repository ordering of the model is an instance of `SortDesc`; an
 * ascending order is a descending one on the negated key. Rows with equal
 * keys keep their table order, a choice the database leaves open.
 */
module Queries {

  /** The rows satisfying `p`, in table order. */
  function Filter<T(!new)>(s: seq<T>, p: T -> bool): (r: seq<T>)
    ensures |r| <= |s|
    ensures forall x :: x in r <==> x in s && p(x)
    ensures forall i :: 0 <= i < |r| ==> p(r[i])
  {
    if s == [] then []
    else (if p(s[0]) then [s[0]] else []) + Filter(s[1..], p)
  }

  /** `Filter` keeps every copy of a row satisfying `p`, and no copy of any other row. */
  lemma {:induction false} FilterCounts<T(!new)>(s: seq<T>, p: T -> bool)
    ensures forall x :: multiset(Filter(s, p))[x] == if p(x) then multiset(s)[x] else 0
  {
    if s != [] {
      FilterCounts(s[1..], p);
      assert s == [s[0]] + s[1..];
    }
  }

  /** A weaker condition selects at least as many rows. */
  lemma {:induction false} FilterMonotone<T(!new)>(s: seq<T>, p: T -> bool, q: T -> bool)
    requires forall x :: x in s && p(x) ==> q(x)
    ensures |Filter(s, p)| <= |Filter(s, q)|
  {
    if s != [] {
      assert forall x :: x in s[1..] ==> x in s;
      FilterMonotone(s[1..], p, q);
    }
  }

  /** A condition no row meets selects nothing. */
  lemma {:induction false} FilterNone<T(!new)>(s: seq<T>, p: T -> bool)
    requires forall i :: 0 <= i < |s| ==> !p(s[i])
    ensures Filter(s, p) == []
  {
    if s != [] {
      assert !p(s[0]);
      FilterNone(s[1..], p);
    }
  }

  /** Rows with pairwise distinct keys. */
  predicate DistinctBy<T, K(==)>(s: seq<T>, key: T -> K) {
    forall i, j :: 0 <= i < j < |s| ==> key(s[i]) != key(s[j])
  }

  /** Selecting rows keeps their keys distinct. */
  lemma {:induction false} FilterDistinct<T(!new), K>(s: seq<T>, p: T -> bool, key: T -> K)
    requires DistinctBy(s, key)
    ensures DistinctBy(Filter(s, p), key)
  {
    if s != [] {
      assert DistinctBy(s[1..], key) by {
        forall i, j | 0 <= i < j < |s[1..]| ensures key(s[1..][i]) != key(s[1..][j]) {
          assert s[1..][i] == s[i + 1] && s[1..][j] == s[j + 1];
        }
      }
      FilterDistinct(s[1..], p, key);
      var tail := Filter(s[1..], p);
      if p(s[0]) {
        forall k | 0 <= k < |tail| ensures key(s[0]) != key(tail[k]) {
          assert tail[k] in s[1..];
          var j :| 0 <= j < |s[1..]| && s[1..][j] == tail[k];
          assert s[j + 1] == tail[k];
        }
        var r := [s[0]] + tail;
        forall i, j | 0 <= i < j < |r| ensures key(r[i]) != key(r[j]) {
          if i > 0 {
            assert r[i] == tail[i - 1] && r[j] == tail[j - 1];
          } else {
            assert r[j] == tail[j - 1];
          }
        }
        assert Filter(s, p) == r;
      } else {
        assert Filter(s, p) == tail;
      }
    }
  }

  /** Lexicographic `>=` on keys. */
  predicate KeyGe(a: (int, int), b: (int, int)) {
    a.0 > b.0 || (a.0 == b.0 && a.1 >= b.1)
  }

  predicate SortedDesc<T>(s: seq<T>, key: T -> (int, int)) {
    forall i, j :: 0 <= i < j < |s| ==> KeyGe(key(s[i]), key(s[j]))
  }

  /** Inserting below the head of a sorted list keeps every element of the new tail at or below the head. */
  lemma HeadAboveInsertedTail<T>(x: T, s: seq<T>, tail: seq<T>, key: T -> (int, int))
    requires s != [] && !KeyGe(key(x), key(s[0]))
    requires multiset(tail) == multiset(s[1..]) + multiset{x}
    ensures SortedDesc(s, key) ==> SortedDesc(s[1..], key)
    ensures SortedDesc(s, key) ==> forall k :: 0 <= k < |tail| ==> KeyGe(key(s[0]), key(tail[k]))
  {
    forall k | 0 <= k < |tail| && SortedDesc(s, key)
      ensures KeyGe(key(s[0]), key(tail[k]))
    {
      assert tail[k] in multiset(tail);
      assert tail[k] == x || tail[k] in multiset(s[1..]);
      if tail[k] != x {
        var j :| 0 <= j < |s[1..]| && s[1..][j] == tail[k];
        assert s[j + 1] == tail[k];
      }
    }
  }

  /** Places `x` in front of the first element whose key it is not below. */
  function Insert<T>(x: T, s: seq<T>, key: T -> (int, int)): (r: seq<T>)
    ensures |r| == |s| + 1
    ensures multiset(r) == multiset(s) + multiset{x}
    ensures SortedDesc(s, key) ==> SortedDesc(r, key)
  {
    if s == [] then [x]
    else if KeyGe(key(x), key(s[0])) then
      [x] + s
    else
      var tail := Insert(x, s[1..], key);
      assert s == [s[0]] + s[1..];
      HeadAboveInsertedTail(x, s, tail, key);
      [s[0]] + tail
  }

  /** The rows in descending key order; the sort is stable. */
  function SortDesc<T>(s: seq<T>, key: T -> (int, int)): (r: seq<T>)
    ensures |r| == |s|
    ensures multiset(r) == multiset(s)
    ensures SortedDesc(r, key)
  {
    if s == [] then []
    else
      assert s == [s[0]] + s[1..];
      Insert(s[0], SortDesc(s[1..], key), key)
  }

  /** A prefix of at most `limit` rows: `LIMIT limit`. */
  function Take<T>(s: seq<T>, limit: nat): (r: seq<T>)
    ensures |r| == if limit < |s| then limit else |s|
    ensures r == s[..|r|]
  {
    if limit < |s| then s[..limit] else s
  }

  /** A prefix holds no row more often than the whole table does. */
  lemma TakeSubMultiset<T>(s: seq<T>, limit: nat)
    ensures multiset(Take(s, limit)) <= multiset(s)
  {
    if limit < |s| {
      assert s == s[..limit] + s[limit..];
    }
  }

  lemma TakeSorted<T>(s: seq<T>, limit: nat, key: T -> (int, int))
    requires SortedDesc(s, key)
    ensures SortedDesc(Take(s, limit), key)
  {
  }

  /** Every element of a sorted result is in the input, and conversely. */
  lemma SortDescMembers<T(!new)>(s: seq<T>, key: T -> (int, int))
    ensures forall x :: x in SortDesc(s, key) <==> x in s
  {
    var r := SortDesc(s, key);
    forall x
      ensures x in r <==> x in s
    {
      assert x in r <==> x in multiset(r);
      assert x in s <==> x in multiset(s);
    }
  }

  /** `TopRows` for every row left out at once. */
  lemma TopRowsAll<T>(s: seq<T>, limit: nat, key: T -> (int, int))
    ensures var r := Take(SortDesc(s, key), limit);
            forall x :: x in s && x !in r ==> |r| == limit && forall i :: 0 <= i < |r| ==> KeyGe(key(r[i]), key(x))
  {
    forall x | x in s
      ensures var r := Take(SortDesc(s, key), limit);
              x in r || (|r| == limit && forall i :: 0 <= i < |r| ==> KeyGe(key(r[i]), key(x)))
    {
      TopRows(s, limit, key, x);
    }
  }

  /**
   * `ORDER BY ... DESC LIMIT n` keeps the highest rows: a row left out of the
   * result means the result is full and every kept row ranks at least as high.
   */
  lemma TopRows<T>(s: seq<T>, limit: nat, key: T -> (int, int), x: T)
    requires x in s
    ensures var r := Take(SortDesc(s, key), limit);
            x in r || (|r| == limit && forall i :: 0 <= i < |r| ==> KeyGe(key(r[i]), key(x)))
  {
    var sorted := SortDesc(s, key);
    var r := Take(sorted, limit);
    assert x in multiset(s);
    assert x in multiset(sorted);
    var j :| 0 <= j < |sorted| && sorted[j] == x;
    if j < |r| {
      assert r[j] == x;
    } else {
      forall i | 0 <= i < |r| ensures KeyGe(key(r[i]), key(x)) {
        assert r[i] == sorted[i];
      }
    }
  }
}

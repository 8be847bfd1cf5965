/** Sorting by a key in descending order, and the rank of an element.

    `sorted(..., reverse=True)` is stable: equal keys keep the order of the list, which is the
    order of the rows. `Before` is that order; it is total on distinct rows. */
module Ranking {
  datatype Key = Key(first: int, second: int, third: int, fourth: int)

  predicate Greater(a: Key, b: Key) {
    || a.first > b.first
    || (a.first == b.first && a.second > b.second)
    || (a.first == b.first && a.second == b.second && a.third > b.third)
    || (a.first == b.first && a.second == b.second && a.third == b.third && a.fourth > b.fourth)
  }

  /** Row `i` is sorted in front of row `j`. */
  predicate Before(key: nat -> Key, i: nat, j: nat) {
    Greater(key(i), key(j)) || (key(i) == key(j) && i < j)
  }

  ghost predicate Sorted(key: nat -> Key, s: seq<nat>) {
    forall i, j | 0 <= i < j < |s| :: Before(key, s[i], s[j])
  }

  function Elements(s: seq<nat>): set<nat> {
    set x | x in s
  }

  /** How many of the rows `ids` are sorted in front of `x`. */
  function Rank(ids: set<nat>, key: nat -> Key, x: nat): nat {
    |set y | y in ids && Before(key, y, x)|
  }

  function Insert(key: nat -> Key, x: nat, s: seq<nat>): seq<nat> {
    if s == [] then [x]
    else if Before(key, x, s[0]) then [x] + s
    else [s[0]] + Insert(key, x, s[1..])
  }

  /** `sorted(ids, key=key, reverse=True)`. */
  function SortDescending(key: nat -> Key, ids: seq<nat>): seq<nat> {
    if ids == [] then [] else Insert(key, ids[0], SortDescending(key, ids[1..]))
  }

  ghost predicate Distinct(s: seq<nat>) {
    forall i, j | 0 <= i < j < |s| :: s[i] != s[j]
  }

  lemma BeforeIsTransitive(key: nat -> Key, x: nat, y: nat, z: nat)
    requires Before(key, x, y) && Before(key, y, z)
    ensures Before(key, x, z)
  {
  }

  lemma PrependSorted(key: nat -> Key, x: nat, s: seq<nat>)
    requires Sorted(key, s) && forall j | 0 <= j < |s| :: Before(key, x, s[j])
    ensures Sorted(key, [x] + s)
  {
  }

  lemma {:induction false} InsertContents(key: nat -> Key, x: nat, s: seq<nat>)
    ensures forall y :: y in Insert(key, x, s) <==> y == x || y in s
    ensures |Insert(key, x, s)| == |s| + 1
  {
    if s != [] {
      InsertContents(key, x, s[1..]);
      assert forall y :: y in s <==> y == s[0] || y in s[1..];
    }
  }

  lemma {:induction false} InsertSorts(key: nat -> Key, x: nat, s: seq<nat>)
    requires Sorted(key, s) && x !in s
    ensures Sorted(key, Insert(key, x, s))
  {
    if s != [] {
      if Before(key, x, s[0]) {
        forall j | 0 <= j < |s| ensures Before(key, x, s[j]) {
          if j > 0 {
            BeforeIsTransitive(key, x, s[0], s[j]);
          }
        }
        PrependSorted(key, x, s);
      } else {
        InsertSorts(key, x, s[1..]);
        InsertContents(key, x, s[1..]);
        var t := Insert(key, x, s[1..]);
        forall j | 0 <= j < |t| ensures Before(key, s[0], t[j]) {
          assert t[j] in t;
          if t[j] == x {
            assert s[0] != x;
          } else {
            var k :| 0 <= k < |s[1..]| && s[1..][k] == t[j];
            assert Before(key, s[0], s[k + 1]);
          }
        }
        PrependSorted(key, s[0], t);
      }
    }
  }

  lemma {:induction false} SortSorts(key: nat -> Key, ids: seq<nat>)
    requires Distinct(ids)
    ensures Sorted(key, SortDescending(key, ids))
    ensures forall y :: y in SortDescending(key, ids) <==> y in ids
    ensures |SortDescending(key, ids)| == |ids|
  {
    if ids != [] {
      SortSorts(key, ids[1..]);
      assert ids[0] !in ids[1..];
      InsertSorts(key, ids[0], SortDescending(key, ids[1..]));
      InsertContents(key, ids[0], SortDescending(key, ids[1..]));
      assert forall y :: y in ids <==> y == ids[0] || y in ids[1..];
    }
  }

  lemma {:induction false} SizeOfDistinct(s: seq<nat>)
    requires Distinct(s)
    ensures |Elements(s)| == |s|
  {
    if s != [] {
      var front, last := s[..|s| - 1], s[|s| - 1];
      SizeOfDistinct(front);
      assert Elements(s) == Elements(front) + {last};
    }
  }

  lemma SortedIsDistinct(key: nat -> Key, s: seq<nat>)
    requires Sorted(key, s)
    ensures Distinct(s)
  {
  }

  /** In a sorted list the position of an element is its rank. */
  lemma PositionIsRank(key: nat -> Key, s: seq<nat>, k: nat)
    requires Sorted(key, s) && k < |s|
    ensures Rank(Elements(s), key, s[k]) == k
  {
    var ahead := set y | y in Elements(s) && Before(key, y, s[k]);
    forall y ensures y in ahead <==> y in Elements(s[..k]) {
      if y in ahead {
        var i :| 0 <= i < |s| && s[i] == y;
        assert s[..k][i] == y;
      }
      if y in Elements(s[..k]) {
        var i :| 0 <= i < k && s[i] == y;
        assert Before(key, s[i], s[k]);
      }
    }
    assert ahead == Elements(s[..k]);
    SortedIsDistinct(key, s);
    SizeOfDistinct(s[..k]);
  }

  /** `x` stands at place `k` of a sorted list exactly when it is listed with that rank. */
  lemma PlaceIffRank(key: nat -> Key, s: seq<nat>, k: nat, x: nat)
    requires Sorted(key, s)
    ensures k < |s| && s[k] == x <==> x in Elements(s) && Rank(Elements(s), key, x) == k
  {
    if k < |s| && s[k] == x {
      PositionIsRank(key, s, k);
    }
    if x in Elements(s) {
      var j :| 0 <= j < |s| && s[j] == x;
      PositionIsRank(key, s, j);
    }
  }

  /** The rank cannot grow when rows disappear. */
  lemma RankShrinks(small: set<nat>, large: set<nat>, key: nat -> Key, x: nat)
    requires small <= large
    ensures Rank(small, key, x) <= Rank(large, key, x)
  {
    var a := set y | y in small && Before(key, y, x);
    var b := set y | y in large && Before(key, y, x);
    SubsetSize(a, b);
  }

  lemma SubsetSize(a: set<nat>, b: set<nat>)
    requires a <= b
    ensures |a| <= |b|
  {
    assert b == a + (b - a);
  }

  /** A row of smaller rank is sorted in front. */
  lemma RankOrders(ids: set<nat>, key: nat -> Key, x: nat, y: nat)
    requires x in ids && y in ids && Rank(ids, key, x) < Rank(ids, key, y)
    ensures Before(key, x, y)
  {
    if !Before(key, x, y) && x != y {
      assert Before(key, y, x);
      SubsetSize(set z | z in ids && Before(key, z, y), set z | z in ids && Before(key, z, x));
    }
  }

  /** The rows of rank below `n` are the first `n` of the sorted list. */
  lemma TopRows(key: nat -> Key, s: seq<nat>, n: nat)
    requires Sorted(key, s)
    ensures var top := if n < |s| then s[..n] else s;
            && (set x | x in s && Rank(Elements(s), key, x) < n) == Elements(top)
            && |Elements(top)| <= n
  {
    forall k | 0 <= k < |s| ensures Rank(Elements(s), key, s[k]) == k {
      PositionIsRank(key, s, k);
    }
    var top := if n < |s| then s[..n] else s;
    forall x ensures x in s && Rank(Elements(s), key, x) < n <==> x in top {
      if x in s {
        var k :| 0 <= k < |s| && s[k] == x;
        assert k < n ==> top[k] == x;
      }
      if x in top {
        var k :| 0 <= k < |top| && top[k] == x;
        assert s[k] == x;
      }
    }
    SortedIsDistinct(key, s);
    SizeOfDistinct(top);
  }
}

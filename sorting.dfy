/**
 * The ORDER BY ... LIMIT k that the listing and leaderboard queries ask of the
 * database, as an insertion sort by a caller-supplied total preorder.
 * `le(a, b)` reads "a may come before b"; ties keep their input order, which
 * is one of the orders the database is free to return.
 */
module Sorting {

  ghost predicate TotalPreorder<T(!new)>(le: (T, T) -> bool) {
    && (forall a, b :: le(a, b) || le(b, a))
    && (forall a, b, c :: le(a, b) && le(b, c) ==> le(a, c))
  }

  ghost predicate SortedBy<T(!new)>(s: seq<T>, le: (T, T) -> bool) {
    forall i, j :: 0 <= i < j < |s| ==> le(s[i], s[j])
  }

  /** Puts `x` before the first element it may precede. */
  function Insert<T(!new)>(x: T, s: seq<T>, le: (T, T) -> bool): (r: seq<T>)
    requires TotalPreorder(le)
    requires SortedBy(s, le)
    ensures multiset(r) == multiset(s) + multiset{x}
    ensures SortedBy(r, le)
  {
    if s == [] then [x]
    else if le(x, s[0]) then [x] + s
    else
      var rest := Insert(x, s[1..], le);
      assert s == [s[0]] + s[1..];
      assert forall k :: 0 <= k < |rest| ==> le(s[0], rest[k]) by {
        forall k | 0 <= k < |rest| ensures le(s[0], rest[k]) {
          var y := rest[k];
          assert y in multiset(rest);
          if y != x {
            assert y in multiset(s[1..]);
            var j :| 0 <= j < |s[1..]| && s[1..][j] == y;
            assert s[j + 1] == y;
          }
        }
      }
      [s[0]] + rest
  }

  /** A sorted permutation of `s`. */
  function SortBy<T(!new)>(s: seq<T>, le: (T, T) -> bool): (r: seq<T>)
    requires TotalPreorder(le)
    ensures multiset(r) == multiset(s)
    ensures SortedBy(r, le)
  {
    if s == [] then []
    else
      assert s == [s[0]] + s[1..];
      Insert(s[0], SortBy(s[1..], le), le)
  }

  /**
   * The first `k` elements of `s` in the order `le`: at most `k` of them,
   * taken from `s`, sorted, and none left behind that should come earlier
   * than one that was kept.
   */
  function TopK<T(!new)>(s: seq<T>, k: nat, le: (T, T) -> bool): (r: seq<T>)
    requires TotalPreorder(le)
    ensures |r| == if |s| < k then |s| else k
    ensures SortedBy(r, le)
    ensures multiset(r) <= multiset(s)
    ensures forall x, y :: x in multiset(s) - multiset(r) && y in r ==> le(y, x)
  {
    var sorted := SortBy(s, le);
    assert |sorted| == |multiset(sorted)| == |s|;
    if |sorted| <= k then sorted
    else
      var r := sorted[..k];
      assert sorted == r + sorted[k..];
      assert multiset(s) - multiset(r) == multiset(sorted[k..]);
      assert forall x, y :: x in multiset(s) - multiset(r) && y in r ==> le(y, x) by {
        forall x, y | x in multiset(s) - multiset(r) && y in r ensures le(y, x) {
          assert x in sorted[k..];
          var j :| 0 <= j < |sorted[k..]| && sorted[k..][j] == x;
          var i :| 0 <= i < |r| && r[i] == y;
          assert sorted[i] == y && sorted[k + j] == x;
        }
      }
      r
  }

  /** `ORDER BY key DESC LIMIT k`: the top `k` elements by an integer key. */
  function TopByKey<T(!new)>(s: seq<T>, k: nat, key: T -> int): (r: seq<T>)
    ensures |r| == if |s| < k then |s| else k
    ensures forall i, j :: 0 <= i < j < |r| ==> key(r[i]) >= key(r[j])
    ensures multiset(r) <= multiset(s)
    ensures forall x, y :: x in multiset(s) - multiset(r) && y in r ==> key(y) >= key(x)
  {
    var le := (a: T, b: T) => key(a) >= key(b);
    var r := TopK(s, k, le);
    assert SortedBy(r, le);
    r
  }
}

/** The stable "biggest first" sort both collage builders apply to a trip's photo catches
    (`Array.prototype.sort` with a comparator that puts the longer fish first and, in
    app.js, the newer catch first on equal lengths). The sort is a stable insertion sort,
    so equal-ranked rows keep the order in which listCatches returned them. */
module Ranking {
  import opened Records
  import opened Listing

  /** What a comparator looks at: the parsed length, then the creation time. */
  datatype Rank = Rank(len: real, created: int)

  /** `a` sorts strictly ahead of `b`: the comparator `(a, b) => ...` is negative. */
  predicate Above(a: Rank, b: Rank) {
    a.len > b.len || (a.len == b.len && a.created > b.created)
  }

  /** No row is ranked strictly above an earlier one. */
  ghost predicate RankSorted<T>(s: seq<T>, rank: T -> Rank) {
    forall i, j :: 0 <= i < j < |s| ==> !Above(rank(s[j]), rank(s[i]))
  }

  /** Ordered by rank and, among rows of equal rank, in listing order. */
  ghost predicate StablySorted<T>(s: seq<T>, rank: T -> Rank, keyOf: T -> RowKey) {
    forall i, j :: 0 <= i < j < |s| ==>
      Above(rank(s[i]), rank(s[j])) || (rank(s[i]) == rank(s[j]) && KeyBefore(keyOf(s[i]), keyOf(s[j])))
  }

  /** Places `x` ahead of the first row it is not ranked below. */
  function InsertByRank<T>(x: T, s: seq<T>, rank: T -> Rank): (r: seq<T>)
    ensures multiset(r) == multiset(s) + multiset{x}
    ensures |r| == |s| + 1
  {
    if s == [] || !Above(rank(s[0]), rank(x)) then [x] + s
    else
      assert s == [s[0]] + s[1..];
      [s[0]] + InsertByRank(x, s[1..], rank)
  }

  /** Stable insertion sort, best-ranked rows first. */
  function SortByRank<T>(s: seq<T>, rank: T -> Rank): (r: seq<T>)
    ensures multiset(r) == multiset(s)
    ensures |r| == |s|
  {
    if s == [] then []
    else
      assert s == [s[0]] + s[1..];
      InsertByRank(s[0], SortByRank(s[1..], rank), rank)
  }

  lemma {:induction false} InsertKeepsRankSorted<T>(x: T, s: seq<T>, rank: T -> Rank)
    requires RankSorted(s, rank)
    ensures RankSorted(InsertByRank(x, s, rank), rank)
    decreases |s|
  {
    var r := InsertByRank(x, s, rank);
    if s == [] || !Above(rank(s[0]), rank(x)) {
      forall i, j | 0 <= i < j < |r| ensures !Above(rank(r[j]), rank(r[i])) {
        if i > 0 {
          assert r[i] == s[i - 1] && r[j] == s[j - 1];
        } else {
          assert r[j] == s[j - 1];
          assert !Above(rank(s[j - 1]), rank(s[0]));
        }
      }
    } else {
      var t := InsertByRank(x, s[1..], rank);
      InsertKeepsRankSorted(x, s[1..], rank);
      forall i, j | 0 <= i < j < |r| ensures !Above(rank(r[j]), rank(r[i])) {
        if i > 0 {
          assert r[i] == t[i - 1] && r[j] == t[j - 1];
        } else {
          assert r[j] == t[j - 1];
          assert t[j - 1] in multiset(t);
          assert t[j - 1] == x || t[j - 1] in s[1..];
          if t[j - 1] != x {
            var k :| 0 <= k < |s[1..]| && s[1..][k] == t[j - 1];
            assert s[k + 1] == t[j - 1];
          }
        }
      }
    }
  }

  /** The sort leaves no row ranked strictly above an earlier one. */
  lemma {:induction false} SortRankSorted<T>(s: seq<T>, rank: T -> Rank)
    ensures RankSorted(SortByRank(s, rank), rank)
    decreases |s|
  {
    if s != [] {
      SortRankSorted(s[1..], rank);
      InsertKeepsRankSorted(s[0], SortByRank(s[1..], rank), rank);
    }
  }

  lemma {:induction false} InsertKeepsStable<T>(x: T, s: seq<T>, rank: T -> Rank, keyOf: T -> RowKey)
    requires StablySorted(s, rank, keyOf)
    requires forall k :: 0 <= k < |s| ==> KeyBefore(keyOf(x), keyOf(s[k]))
    ensures StablySorted(InsertByRank(x, s, rank), rank, keyOf)
    decreases |s|
  {
    var r := InsertByRank(x, s, rank);
    if s == [] || !Above(rank(s[0]), rank(x)) {
      forall i, j | 0 <= i < j < |r|
        ensures Above(rank(r[i]), rank(r[j])) || (rank(r[i]) == rank(r[j]) && KeyBefore(keyOf(r[i]), keyOf(r[j])))
      {
        if i > 0 {
          assert r[i] == s[i - 1] && r[j] == s[j - 1];
        } else {
          assert r[j] == s[j - 1];
          if j > 1 {
            assert Above(rank(s[0]), rank(s[j - 1])) || rank(s[0]) == rank(s[j - 1]);
          }
        }
      }
    } else {
      var t := InsertByRank(x, s[1..], rank);
      InsertKeepsStable(x, s[1..], rank, keyOf);
      forall i, j | 0 <= i < j < |r|
        ensures Above(rank(r[i]), rank(r[j])) || (rank(r[i]) == rank(r[j]) && KeyBefore(keyOf(r[i]), keyOf(r[j])))
      {
        if i > 0 {
          assert r[i] == t[i - 1] && r[j] == t[j - 1];
        } else {
          assert r[j] == t[j - 1];
          assert t[j - 1] in multiset(t);
          assert t[j - 1] == x || t[j - 1] in s[1..];
          if t[j - 1] != x {
            var k :| 0 <= k < |s[1..]| && s[1..][k] == t[j - 1];
            assert s[k + 1] == t[j - 1];
          }
        }
      }
    }
  }

  /** Stability: sorting rows that arrive in listing order keeps that order among rows of
      equal rank, so the result is ordered by rank and then by listing order. */
  lemma {:induction false} SortStable<T(!new)>(s: seq<T>, rank: T -> Rank, keyOf: T -> RowKey)
    requires Sorted(s, keyOf)
    ensures StablySorted(SortByRank(s, rank), rank, keyOf)
    decreases |s|
  {
    if s != [] {
      var t := SortByRank(s[1..], rank);
      SortStable(s[1..], rank, keyOf);
      forall k | 0 <= k < |t| ensures KeyBefore(keyOf(s[0]), keyOf(t[k])) {
        assert t[k] in multiset(t);
        var m :| 0 <= m < |s[1..]| && s[1..][m] == t[k];
        assert s[m + 1] == t[k];
      }
      InsertKeepsStable(s[0], t, rank, keyOf);
    }
  }
}

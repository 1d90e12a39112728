/** Listings of a keyed object store: `getAll` followed by the sort on `createdAt` in
    listTrips and listCatches (storage.js). A listing holds every selected row once, newest
    first, and rows created at the same time in primary-key order. */
module Listing {
  import opened Records

  ghost predicate Sorted<T(!new)>(rows: seq<T>, keyOf: T -> RowKey) {
    forall i, j :: 0 <= i < j < |rows| ==> KeyBefore(keyOf(rows[i]), keyOf(rows[j]))
  }

  ghost predicate DistinctKeys<T(!new)>(s: set<T>, keyOf: T -> RowKey) {
    forall x, y :: x in s && y in s && keyOf(x) == keyOf(y) ==> x == y
  }

  /** `rows` holds exactly the rows of `s`, in listing order. */
  ghost predicate IsListing<T(!new)>(rows: seq<T>, s: set<T>, keyOf: T -> RowKey) {
    Sorted(rows, keyOf) && forall x :: x in rows <==> x in s
  }

  lemma SortedCons<T(!new)>(h: T, rows: seq<T>, keyOf: T -> RowKey)
    requires Sorted(rows, keyOf)
    requires forall y :: y in rows ==> KeyBefore(keyOf(h), keyOf(y))
    ensures Sorted([h] + rows, keyOf)
  {
    var r := [h] + rows;
    forall i, j | 0 <= i < j < |r| ensures KeyBefore(keyOf(r[i]), keyOf(r[j])) {
      assert r[j] == rows[j - 1];
      if i > 0 { assert r[i] == rows[i - 1]; }
    }
  }

  /** A row listed ahead of the first row of a sorted listing is ahead of all of it. */
  lemma AheadOfAll<T(!new)>(x: T, rows: seq<T>, keyOf: T -> RowKey)
    requires Sorted(rows, keyOf) && |rows| > 0 && KeyBefore(keyOf(x), keyOf(rows[0]))
    ensures forall y :: y in rows ==> KeyBefore(keyOf(x), keyOf(y))
  {
    forall y | y in rows ensures KeyBefore(keyOf(x), keyOf(y)) {
      var j :| 0 <= j < |rows| && rows[j] == y;
      if j > 0 { KeyBeforeTransitive(keyOf(x), keyOf(rows[0]), keyOf(y)); }
    }
  }

  /** Insertion of one row into a sorted listing, at the place the sort would give it. */
  function Insert<T(!new)>(rows: seq<T>, x: T, keyOf: T -> RowKey): (r: seq<T>)
    requires Sorted(rows, keyOf)
    requires forall y :: y in rows ==> keyOf(y) != keyOf(x)
    ensures Sorted(r, keyOf)
    ensures forall y :: y in r <==> y in rows || y == x
    ensures |r| == |rows| + 1
  {
    if |rows| == 0 then [x]
    else if KeyBefore(keyOf(x), keyOf(rows[0])) then
      AheadOfAll(x, rows, keyOf);
      SortedCons(x, rows, keyOf);
      [x] + rows
    else
      KeyBeforeTotal(keyOf(x), keyOf(rows[0]));
      var tail := Insert(rows[1..], x, keyOf);
      SortedCons(rows[0], tail, keyOf);
      [rows[0]] + tail
  }

  /** The sorted listing of a finite set of rows with distinct keys. */
  ghost function ListingOf<T(!new)>(s: set<T>, keyOf: T -> RowKey): (rows: seq<T>)
    requires DistinctKeys(s, keyOf)
    ensures IsListing(rows, s, keyOf)
    decreases |s|
  {
    if s == {} then []
    else
      var x :| x in s;
      Insert(ListingOf(s - {x}, keyOf), x, keyOf)
  }

  /** The first row of a listing is ahead of every other row of the set. */
  lemma ListingHead<T(!new)>(rows: seq<T>, s: set<T>, keyOf: T -> RowKey)
    requires IsListing(rows, s, keyOf) && |rows| > 0
    ensures rows[0] in s
    ensures forall x :: x in s && x != rows[0] ==> KeyBefore(keyOf(rows[0]), keyOf(x))
  {
    forall x | x in s && x != rows[0] ensures KeyBefore(keyOf(rows[0]), keyOf(x)) {
      var j :| 0 <= j < |rows| && rows[j] == x;
    }
  }

  lemma {:induction false} ListingLength<T(!new)>(rows: seq<T>, s: set<T>, keyOf: T -> RowKey)
    requires IsListing(rows, s, keyOf)
    ensures |rows| == |s|
    decreases |rows|
  {
    if |rows| == 0 {
      assert s == {};
    } else {
      KeyBeforeIrreflexive(keyOf(rows[0]));
      ListingLength(rows[1..], s - {rows[0]}, keyOf);
    }
  }

  lemma KeyBeforeNotBoth(x: RowKey, y: RowKey)
    ensures !(KeyBefore(x, y) && KeyBefore(y, x))
  {
    if KeyBefore(x, y) { KeyBeforeAsymmetric(x, y); }
  }

  /** A set of rows has exactly one listing. */
  lemma {:induction false} ListingUnique<T(!new)>(a: seq<T>, b: seq<T>, s: set<T>, keyOf: T -> RowKey)
    requires IsListing(a, s, keyOf) && IsListing(b, s, keyOf)
    ensures a == b
    decreases |a|
  {
    ListingLength(a, s, keyOf);
    ListingLength(b, s, keyOf);
    if |a| > 0 {
      ListingHead(a, s, keyOf);
      ListingHead(b, s, keyOf);
      KeyBeforeNotBoth(keyOf(a[0]), keyOf(b[0]));
      assert a[0] == b[0];
      KeyBeforeIrreflexive(keyOf(a[0]));
      ListingUnique(a[1..], b[1..], s - {a[0]}, keyOf);
      assert a == [a[0]] + a[1..] && b == [b[0]] + b[1..];
    }
  }

  /** The rows of `m` that `keep` selects, leaving out the keys in `skip`. */
  ghost function SelectedExcept<T(!new)>(m: map<string, T>, keep: T -> bool, skip: set<string>): set<T> {
    set k | k in m && k !in skip && keep(m[k]) :: m[k]
  }

  ghost function Selected<T(!new)>(m: map<string, T>, keep: T -> bool): set<T> {
    SelectedExcept(m, keep, {})
  }

  /** A store keyed by id: each row sits under its own id. */
  ghost predicate KeyedBy<T(!new)>(m: map<string, T>, keyOf: T -> RowKey) {
    forall k :: k in m ==> keyOf(m[k]).id == k
  }

  lemma SelectedDistinct<T(!new)>(m: map<string, T>, keep: T -> bool, skip: set<string>, keyOf: T -> RowKey)
    requires KeyedBy(m, keyOf)
    ensures DistinctKeys(SelectedExcept(m, keep, skip), keyOf)
  {
  }

  /** The listing of the rows of `m` selected by `keep`. */
  ghost function ListingOfStore<T(!new)>(m: map<string, T>, keep: T -> bool, keyOf: T -> RowKey): (rows: seq<T>)
    requires KeyedBy(m, keyOf)
    ensures IsListing(rows, Selected(m, keep), keyOf)
  {
    SelectedDistinct(m, keep, {}, keyOf);
    ListingOf(Selected(m, keep), keyOf)
  }

  /** `getAll` on a store (or on an index of it) followed by the sort: the rows are taken one
      key at a time and each is inserted where the order puts it. */
  method ListRows<T(!new)>(m: map<string, T>, keep: T -> bool, keyOf: T -> RowKey) returns (rows: seq<T>)
    requires KeyedBy(m, keyOf)
    ensures IsListing(rows, Selected(m, keep), keyOf)
    ensures rows == ListingOfStore(m, keep, keyOf)
  {
    rows := [];
    var todo := m.Keys;
    while todo != {}
      invariant todo <= m.Keys
      invariant IsListing(rows, SelectedExcept(m, keep, todo), keyOf)
      decreases todo
    {
      var k :| k in todo;
      if keep(m[k]) {
        forall y | y in rows ensures keyOf(y) != keyOf(m[k]) {
          assert y in SelectedExcept(m, keep, todo);
        }
        rows := Insert(rows, m[k], keyOf);
      }
      todo := todo - {k};
    }
    ListingUnique(rows, ListingOfStore(m, keep, keyOf), Selected(m, keep), keyOf);
  }
}

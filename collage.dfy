/** The collage module js/collage.js: whether a trip can have a collage, which photo
    catches go into it (the nine longest) and where each one is drawn on the 3 x 3 grid.
    The parsed length of a catch (`parseLenNumber`) is a parameter. */
module Collage {
  import opened Wrappers
  import opened Records
  import opened Listing
  import opened Store
  import opened Ranking

  /** `rows.filter(r => r.photoBlob instanceof Blob)`. */
  function PhotoRows(rows: seq<Catch>): (r: seq<Catch>)
    ensures forall c :: c in r <==> c in rows && c.photo.Some?
    ensures |r| <= |rows|
  {
    if rows == [] then []
    else (if rows[0].photo.Some? then [rows[0]] else []) + PhotoRows(rows[1..])
  }

  /** Filtering keeps the listing order. */
  lemma {:induction false} PhotoRowsSorted(rows: seq<Catch>)
    requires Sorted(rows, CatchKey)
    ensures Sorted(PhotoRows(rows), CatchKey)
  {
    if rows != [] {
      PhotoRowsSorted(rows[1..]);
      if rows[0].photo.Some? {
        forall y | y in PhotoRows(rows[1..]) ensures KeyBefore(CatchKey(rows[0]), CatchKey(y)) {
          var k :| 0 <= k < |rows[1..]| && rows[1..][k] == y;
          assert rows[k + 1] == y;
        }
        SortedCons(rows[0], PhotoRows(rows[1..]), CatchKey);
      }
    }
  }

  /** The catches of a trip that carry a photo. */
  ghost function TripPhotos(catches: map<string, Catch>, tripId: string): set<Catch> {
    set c | c in catches.Values && c.TripId() == tripId && c.photo.Some?
  }

  /** The photo rows of a trip's listing are exactly its photo catches, one row each. */
  lemma PhotoCount(catches: map<string, Catch>, tripId: string)
    requires KeyedBy(catches, CatchKey)
    ensures |PhotoRows(CatchListing(catches, tripId))| == |TripPhotos(catches, tripId)|
  {
    var rows := CatchListing(catches, tripId);
    PhotoRowsSorted(rows);
    assert IsListing(PhotoRows(rows), TripPhotos(catches, tripId), CatchKey);
    ListingLength(PhotoRows(rows), TripPhotos(catches, tripId), CatchKey);
  }

  /** The comparator `parseLenNumber(b.length) - parseLenNumber(a.length)`: longest first,
      no tie-break of its own (every row gets the same secondary rank). */
  function LengthRank(lenOf: string -> real): Catch -> Rank {
    (c: Catch) => Rank(lenOf(c.fields.length), 0)
  }

  /** At most nine tiles. */
  const MaxTiles: nat := 9

  function Min(a: nat, b: nat): nat {
    if a < b then a else b
  }

  /** The photos buildTripCollage draws: photo rows, sorted longest first, first nine. */
  function Selection(rows: seq<Catch>, lenOf: string -> real): (photos: seq<Catch>)
    ensures |photos| == Min(MaxTiles, |PhotoRows(rows)|)
    ensures forall c :: c in photos ==> c in rows && c.photo.Some?
  {
    var sorted := SortByRank(PhotoRows(rows), LengthRank(lenOf));
    var photos := sorted[..Min(MaxTiles, |sorted|)];
    assert forall c :: c in photos ==> c in multiset(sorted);
    photos
  }

  /** The selection is ordered by parsed length, longest first, and rows of equal length
      keep their listing order. */
  lemma SelectionLongestFirst(rows: seq<Catch>, lenOf: string -> real)
    requires Sorted(rows, CatchKey)
    ensures var photos := Selection(rows, lenOf);
      forall i, j :: 0 <= i < j < |photos| ==>
        lenOf(photos[i].fields.length) > lenOf(photos[j].fields.length)
        || (lenOf(photos[i].fields.length) == lenOf(photos[j].fields.length)
            && KeyBefore(CatchKey(photos[i]), CatchKey(photos[j])))
  {
    var rank := LengthRank(lenOf);
    var sorted := SortByRank(PhotoRows(rows), rank);
    PhotoRowsSorted(rows);
    SortStable(PhotoRows(rows), rank, CatchKey);
    var photos := Selection(rows, lenOf);
    forall i, j | 0 <= i < j < |photos|
      ensures Above(rank(photos[i]), rank(photos[j]))
        || (rank(photos[i]) == rank(photos[j]) && KeyBefore(CatchKey(photos[i]), CatchKey(photos[j])))
    {
      assert photos[i] == sorted[i] && photos[j] == sorted[j];
    }
  }

  /** The selection is the top of the trip: no photo catch left out is longer than one taken. */
  lemma SelectionIsTop(rows: seq<Catch>, lenOf: string -> real)
    ensures var photos := Selection(rows, lenOf);
      forall c, p :: c in PhotoRows(rows) && c !in photos && p in photos ==>
        lenOf(c.fields.length) <= lenOf(p.fields.length)
  {
    var rank := LengthRank(lenOf);
    var sorted := SortByRank(PhotoRows(rows), rank);
    var photos := Selection(rows, lenOf);
    SortRankSorted(PhotoRows(rows), rank);
    forall c, p | c in PhotoRows(rows) && c !in photos && p in photos
      ensures lenOf(c.fields.length) <= lenOf(p.fields.length)
    {
      assert c in multiset(sorted);
      var j :| 0 <= j < |sorted| && sorted[j] == c;
      var i :| 0 <= i < |photos| && photos[i] == p;
      assert sorted[i] == p;
      assert j >= |photos|;
      assert !Above(rank(sorted[j]), rank(sorted[i]));
    }
  }

  /** Tile `image` of the selection, drawn in grid cell (`row`, `col`). */
  datatype Tile = Tile(row: nat, col: nat, image: nat)

  /** The nested drawing loop over the 3 x 3 grid, which stops (the inner `break`) once all
      `count` images are placed. */
  method PlaceTiles(count: nat) returns (tiles: seq<Tile>)
    ensures |tiles| == Min(MaxTiles, count)
    ensures forall k :: 0 <= k < |tiles| ==> tiles[k] == Tile(k / 3, k % 3, k)
  {
    tiles := [];
    var i := 0;
    var r := 0;
    while r < 3
      invariant 0 <= r <= 3
      invariant i == |tiles| == Min(count, 3 * r)
      invariant forall k :: 0 <= k < |tiles| ==> tiles[k] == Tile(k / 3, k % 3, k)
    {
      var c := 0;
      while c < 3
        invariant 0 <= c <= 3
        invariant i == |tiles| == Min(count, 3 * r + c)
        invariant forall k :: 0 <= k < |tiles| ==> tiles[k] == Tile(k / 3, k % 3, k)
      {
        if i >= count {
          break;
        }
        assert i == 3 * r + c;
        tiles := tiles + [Tile(r, c, i)];
        i := i + 1;
        c := c + 1;
      }
      r := r + 1;
    }
  }

  /** canBuildCollage: refused for a missing trip id; otherwise the number of the trip's
      photo catches, and whether there is at least one. */
  method CanBuildCollage(store: RecordStore, tripId: string) returns (ok: bool, count: nat)
    requires store.Valid()
    ensures tripId == "" ==> !ok && count == 0
    ensures tripId != "" ==> count == |TripPhotos(store.catches, tripId)| && (ok <==> count >= 1)
  {
    if tripId == "" {
      return false, 0;
    }
    var rows := store.ListCatches(tripId);
    var photos := PhotoRows(rows);
    PhotoCount(store.catches, tripId);
    return |photos| >= 1, |photos|;
  }

  datatype CollageError = NoTripSelected | NoCatchPhotos

  /** The collage: the photos chosen and where each is drawn. */
  datatype Collage = Collage(photos: seq<Catch>, tiles: seq<Tile>)

  /** buildTripCollage, up to the drawing: the two refusals, the selection and the tiles. */
  method BuildTripCollage(store: RecordStore, tripId: string, lenOf: string -> real)
    returns (r: Result<Collage, CollageError>)
    requires store.Valid()
    ensures tripId == "" ==> r == Failure(NoTripSelected)
    ensures tripId != "" && TripPhotos(store.catches, tripId) == {} ==> r == Failure(NoCatchPhotos)
    ensures tripId != "" && TripPhotos(store.catches, tripId) != {} ==>
      r.Success? && r.value.photos == Selection(CatchListing(store.catches, tripId), lenOf)
      && 1 <= |r.value.photos| <= MaxTiles
      && |r.value.tiles| == |r.value.photos|
      && (forall k :: 0 <= k < |r.value.tiles| ==> r.value.tiles[k] == Tile(k / 3, k % 3, k))
  {
    if tripId == "" {
      return Failure(NoTripSelected);
    }
    var rows := store.ListCatches(tripId);
    var photos := Selection(rows, lenOf);
    PhotoCount(store.catches, tripId);
    if |photos| == 0 {
      return Failure(NoCatchPhotos);
    }
    var tiles := PlaceTiles(|photos|);
    return Success(Collage(photos, tiles));
  }
}

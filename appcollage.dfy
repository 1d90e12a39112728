/** The collage builder of app.js: photo catches become collage items, sorted longest first
    (newest first on equal lengths), the top twenty are used, and they are laid out either as
    a "hero" grid of rows of three (up to nine items) or as a grid of four or five columns.
    `parseLen` and `formatLen` are parameters; pixel positions and drawing are left out. */
module AppCollage {
  import opened Wrappers
  import opened Text
  import opened Utils
  import opened Records
  import opened Listing
  import opened Store
  import opened Ranking
  import Collage

  /** An item of getTripPhotoCatchesFromDB. */
  datatype CollageItem = CollageItem(
    photo: Photo,
    lengthNum: real,
    length: string,
    species: string,
    fly: string,
    createdAt: int)

  function ItemOf(c: Catch, lenOf: string -> real): (it: CollageItem)
    requires c.photo.Some?
    ensures it.photo == c.photo.value && it.length == c.fields.length
    ensures it.createdAt == CreatedOrZero(c.fields.createdAt)
  {
    CollageItem(c.photo.value, lenOf(c.fields.length), c.fields.length, c.fields.species,
      c.fields.fly, CreatedOrZero(c.fields.createdAt))
  }

  /** getTripPhotoCatchesFromDB on a trip's listing: one item per photo catch, in listing order. */
  function PhotoItems(rows: seq<Catch>, lenOf: string -> real): (items: seq<CollageItem>)
    ensures |items| == |Collage.PhotoRows(rows)|
    ensures forall i :: 0 <= i < |items| ==> items[i] == ItemOf(Collage.PhotoRows(rows)[i], lenOf)
  {
    var photos := Collage.PhotoRows(rows);
    seq(|photos|, i requires 0 <= i < |photos| => ItemOf(photos[i], lenOf))
  }

  /** The comparator of the items sort: length descending, then `createdAt` descending. */
  function ItemRank(it: CollageItem): Rank {
    Rank(it.lengthNum, it.createdAt)
  }

  /** At most twenty items are used. */
  const MaxItems: nat := 20

  /** `use`: the sorted items, cut to the first twenty. */
  function UseItems(rows: seq<Catch>, lenOf: string -> real): (use: seq<CollageItem>)
    ensures |use| == if |Collage.PhotoRows(rows)| < MaxItems then |Collage.PhotoRows(rows)| else MaxItems
    ensures forall it :: it in use ==> it in PhotoItems(rows, lenOf)
  {
    var items := SortByRank(PhotoItems(rows, lenOf), ItemRank);
    var use := if |items| >= MaxItems then items[..MaxItems] else items[..|items|];
    assert forall it :: it in use ==> it in multiset(items);
    use
  }

  /** The items used are ordered longest first, newer first on equal lengths, and no item left
      out ranks above one used. */
  lemma UseItemsOrdered(rows: seq<Catch>, lenOf: string -> real)
    ensures var use := UseItems(rows, lenOf);
      (forall i, j :: 0 <= i < j < |use| ==>
        use[i].lengthNum > use[j].lengthNum
        || (use[i].lengthNum == use[j].lengthNum && use[i].createdAt >= use[j].createdAt))
      && (forall it, u :: it in PhotoItems(rows, lenOf) && it !in use && u in use ==>
        !Above(ItemRank(it), ItemRank(u)))
  {
    var items := SortByRank(PhotoItems(rows, lenOf), ItemRank);
    var use := UseItems(rows, lenOf);
    SortRankSorted(PhotoItems(rows, lenOf), ItemRank);
    forall i, j | 0 <= i < j < |use|
      ensures use[i].lengthNum > use[j].lengthNum
        || (use[i].lengthNum == use[j].lengthNum && use[i].createdAt >= use[j].createdAt)
    {
      assert use[i] == items[i] && use[j] == items[j];
      assert !Above(ItemRank(items[j]), ItemRank(items[i]));
    }
    forall it, u | it in PhotoItems(rows, lenOf) && it !in use && u in use
      ensures !Above(ItemRank(it), ItemRank(u))
    {
      assert it in multiset(items);
      var j :| 0 <= j < |items| && items[j] == it;
      var i :| 0 <= i < |use| && use[i] == u;
      assert items[i] == u;
      assert j >= |use|;
    }
  }

  /** The comparator of the items sort read off the catch an item comes from. */
  function CatchRank(lenOf: string -> real): Catch -> Rank {
    (c: Catch) => Rank(lenOf(c.fields.length), CreatedOrZero(c.fields.createdAt))
  }

  predicate AllPhotos(cs: seq<Catch>) {
    forall c :: c in cs ==> c.photo.Some?
  }

  /** The `.map` of getTripPhotoCatchesFromDB over catches that all carry a photo. */
  function ItemsOf(cs: seq<Catch>, lenOf: string -> real): (items: seq<CollageItem>)
    requires AllPhotos(cs)
    ensures |items| == |cs|
    ensures forall i :: 0 <= i < |cs| ==> items[i] == ItemOf(cs[i], lenOf)
  {
    seq(|cs|, i requires 0 <= i < |cs| => ItemOf(cs[i], lenOf))
  }

  /** Inserting an item into the items of sorted catches is inserting the catch. */
  lemma {:induction false} InsertItems(x: Catch, s: seq<Catch>, lenOf: string -> real)
    requires x.photo.Some? && AllPhotos(s)
    ensures AllPhotos(InsertByRank(x, s, CatchRank(lenOf)))
    ensures InsertByRank(ItemOf(x, lenOf), ItemsOf(s, lenOf), ItemRank)
      == ItemsOf(InsertByRank(x, s, CatchRank(lenOf)), lenOf)
    decreases |s|
  {
    var rank := CatchRank(lenOf);
    var r := InsertByRank(x, s, rank);
    var items := ItemsOf(s, lenOf);
    var it := ItemOf(x, lenOf);
    assert ItemRank(it) == rank(x);
    if s == [] || !Above(rank(s[0]), rank(x)) {
      assert r == [x] + s;
      if s != [] {
        assert ItemRank(items[0]) == rank(s[0]);
      }
      assert InsertByRank(it, items, ItemRank) == [it] + items;
      assert AllPhotos(r);
      assert [it] + items == ItemsOf(r, lenOf);
    } else {
      var t := InsertByRank(x, s[1..], rank);
      assert r == [s[0]] + t;
      assert ItemRank(items[0]) == rank(s[0]);
      assert items[1..] == ItemsOf(s[1..], lenOf);
      assert InsertByRank(it, items, ItemRank) == [items[0]] + InsertByRank(it, items[1..], ItemRank);
      InsertItems(x, s[1..], lenOf);
      assert AllPhotos(r);
      assert [items[0]] + ItemsOf(t, lenOf) == ItemsOf(r, lenOf);
    }
  }

  /** Sorting the items is sorting the catches they come from by the same comparator. */
  lemma {:induction false} SortItems(s: seq<Catch>, lenOf: string -> real)
    requires AllPhotos(s)
    ensures AllPhotos(SortByRank(s, CatchRank(lenOf)))
    ensures SortByRank(ItemsOf(s, lenOf), ItemRank) == ItemsOf(SortByRank(s, CatchRank(lenOf)), lenOf)
    decreases |s|
  {
    var rank := CatchRank(lenOf);
    assert forall c :: c in SortByRank(s, rank) ==> c in multiset(SortByRank(s, rank));
    if s != [] {
      var items := ItemsOf(s, lenOf);
      assert items[1..] == ItemsOf(s[1..], lenOf);
      SortItems(s[1..], lenOf);
      InsertItems(s[0], SortByRank(s[1..], rank), lenOf);
    }
  }

  /** The tie order of the items sort: the used items are those of the first catches of the
      stable sort of the trip's photo catches, which among catches of equal length and
      `createdAt` keeps the listing order. So equal-ranked items appear, and make the cut
      of twenty, in listing order. */
  lemma UseItemsTieOrder(rows: seq<Catch>, lenOf: string -> real)
    requires Sorted(rows, CatchKey)
    ensures var sorted := SortByRank(Collage.PhotoRows(rows), CatchRank(lenOf));
      var use := UseItems(rows, lenOf);
      StablySorted(sorted, CatchRank(lenOf), CatchKey)
      && AllPhotos(sorted[..|use|])
      && use == ItemsOf(sorted[..|use|], lenOf)
  {
    var photos := Collage.PhotoRows(rows);
    var rank := CatchRank(lenOf);
    Collage.PhotoRowsSorted(rows);
    SortStable(photos, rank, CatchKey);
    SortItems(photos, lenOf);
    assert PhotoItems(rows, lenOf) == ItemsOf(photos, lenOf);
    var sorted := SortByRank(photos, rank);
    var use := UseItems(rows, lenOf);
    var items := SortByRank(PhotoItems(rows, lenOf), ItemRank);
    assert use == items[..|use|];
    assert use == ItemsOf(sorted[..|use|], lenOf);
  }

  /** pickGridCols. */
  function PickGridCols(n: int): (cols: nat)
    ensures 3 <= cols <= 5
    ensures n <= 9 ==> cols == 3
    ensures 10 <= n <= 12 ==> cols == 4
    ensures n > 12 ==> cols == 5
  {
    if n <= 9 then 3 else if n <= 12 then 4 else 5
  }

  /** `Math.ceil(n / cols)` for whole numbers. */
  function CeilDiv(n: nat, cols: nat): (q: nat)
    requires cols > 0
    ensures (q - 1) * cols < n <= q * cols || (n == 0 && q == 0)
  {
    (n + cols - 1) / cols
  }

  /** Ten to twenty items fit a grid of four or five columns and at most four rows, with a
      non-empty last row. */
  lemma GridFits(n: nat)
    requires 10 <= n <= MaxItems
    ensures var cols := PickGridCols(n);
      var rows := CeilDiv(n, cols);
      (cols == 4 || cols == 5) && 3 <= rows <= 4 && (rows - 1) * cols < n <= rows * cols
  {
  }

  /** The sum of row sizes. */
  function Sum(s: seq<nat>): nat {
    if s == [] then 0 else Sum(s[..|s| - 1]) + s[|s| - 1]
  }

  /** layoutHeroRows as a value: rows of three filled from the bottom, the remainder on top. */
  function HeroRows(n: nat): seq<nat> {
    if n == 0 then [] else
      var take := if n < 3 then n else 3;
      HeroRows(n - take) + [take]
  }

  /** ceil(n / 3) rows whose sizes add up to n, each of one to three tiles, and only the
      first row may hold fewer than three. */
  lemma {:induction false} HeroRowsShape(n: nat)
    ensures |HeroRows(n)| == CeilDiv(n, 3)
    ensures Sum(HeroRows(n)) == n
    ensures forall i :: 0 <= i < |HeroRows(n)| ==> 1 <= HeroRows(n)[i] <= 3
    ensures forall i :: 0 < i < |HeroRows(n)| ==> HeroRows(n)[i] == 3
  {
    if n > 0 {
      var take := if n < 3 then n else 3;
      HeroRowsShape(n - take);
      var rows := HeroRows(n);
      assert rows[..|rows| - 1] == HeroRows(n - take);
    }
  }

  /** layoutHeroRows: the loop that unshifts `min(3, remaining)` until nothing remains. */
  method LayoutHeroRows(n: nat) returns (rows: seq<nat>)
    ensures rows == HeroRows(n)
  {
    rows := [];
    var remaining := n;
    while remaining > 0
      invariant 0 <= remaining <= n
      invariant HeroRows(remaining) + rows == HeroRows(n)
    {
      var take := if remaining < 3 then remaining else 3;
      rows := [take] + rows;
      remaining := remaining - take;
    }
  }

  /** Grid cell `a` comes strictly before cell `b` in reading order. */
  predicate CellBefore(a: Collage.Tile, b: Collage.Tile) {
    a.row < b.row || (a.row == b.row && a.col < b.col)
  }

  /** Row `r` of a layout: `k` tiles, drawing the images from `start` on. */
  function RowTiles(r: nat, k: nat, start: nat): (row: seq<Collage.Tile>)
    ensures |row| == k
    ensures forall c :: 0 <= c < k ==> row[c] == Collage.Tile(r, c, start + c)
  {
    seq(k, c requires 0 <= c < k => Collage.Tile(r, c, start + c))
  }

  /** The tiles of a hero layout, row after row. */
  function HeroCells(rows: seq<nat>): seq<Collage.Tile> {
    if rows == [] then []
    else
      var init := rows[..|rows| - 1];
      HeroCells(init) + RowTiles(|init|, rows[|init|], Sum(init))
  }

  /** Every image 0..Sum(rows)-1 is drawn exactly once and in order, each in a cell of its
      row, and each tile lies strictly after the one before in reading order (so no cell is
      drawn twice). */
  lemma {:induction false} HeroCellsShape(rows: seq<nat>)
    ensures |HeroCells(rows)| == Sum(rows)
    ensures forall k :: 0 <= k < |HeroCells(rows)| ==> HeroCells(rows)[k].image == k
    ensures forall k :: 0 <= k < |HeroCells(rows)| ==>
      HeroCells(rows)[k].row < |rows| && HeroCells(rows)[k].col < rows[HeroCells(rows)[k].row]
    ensures forall k :: 0 < k < |HeroCells(rows)| ==> CellBefore(HeroCells(rows)[k - 1], HeroCells(rows)[k])
  {
    if rows != [] {
      var init := rows[..|rows| - 1];
      HeroCellsShape(init);
      var a, b := HeroCells(init), RowTiles(|init|, rows[|init|], Sum(init));
      var t := HeroCells(rows);
      assert t == a + b;
      forall k | 0 <= k < |t|
        ensures t[k].image == k && t[k].row < |rows| && t[k].col < rows[t[k].row]
      {
        if k < |a| {
          assert t[k] == a[k] && init[a[k].row] == rows[a[k].row];
        } else {
          assert t[k] == b[k - |a|];
        }
      }
      forall k | 0 < k < |t| ensures CellBefore(t[k - 1], t[k]) {
        if k < |a| {
          assert t[k - 1] == a[k - 1] && t[k] == a[k];
        } else if k == |a| {
          assert t[k] == b[0];
        } else {
          assert t[k - 1] == b[k - 1 - |a|] && t[k] == b[k - |a|];
        }
      }
    }
  }

  lemma HeroCellsSnoc(rows: seq<nat>, r: nat)
    requires r < |rows|
    ensures HeroCells(rows[..r + 1]) == HeroCells(rows[..r]) + RowTiles(r, rows[r], Sum(rows[..r]))
    ensures Sum(rows[..r + 1]) == Sum(rows[..r]) + rows[r]
  {
    assert rows[..r + 1][..r] == rows[..r];
  }

  lemma RowTilesSnoc(r: nat, c: nat, start: nat)
    ensures RowTiles(r, c + 1, start) == RowTiles(r, c, start) + [Collage.Tile(r, c, start + c)]
  {
  }

  /** The hero tile loop: for each layout row, `k` tiles drawing `use[idx++]`. */
  method HeroTiles(n: nat) returns (tiles: seq<Collage.Tile>)
    ensures tiles == HeroCells(HeroRows(n))
    ensures |tiles| == n
  {
    var rows := LayoutHeroRows(n);
    tiles := [];
    var idx := 0;
    for r := 0 to |rows|
      invariant idx == Sum(rows[..r])
      invariant tiles == HeroCells(rows[..r])
    {
      HeroCellsSnoc(rows, r);
      var k := rows[r];
      var start := idx;
      for c := 0 to k
        invariant idx == start + c
        invariant tiles == HeroCells(rows[..r]) + RowTiles(r, c, start)
      {
        RowTilesSnoc(r, c, start);
        tiles := tiles + [Collage.Tile(r, c, idx)];
        idx := idx + 1;
      }
    }
    assert rows[..|rows|] == rows;
    HeroRowsShape(n);
    HeroCellsShape(rows);
  }

  /** The grid tile loop: `ceil(n / cols)` rows of `min(cols, n - idx)` tiles. Tile k is the
      k-th image, in row k div cols and column k mod cols (row * cols + col == k). */
  method GridTiles(n: nat, cols: nat) returns (tiles: seq<Collage.Tile>)
    requires cols > 0
    ensures |tiles| == n
    ensures forall k :: 0 <= k < n ==>
      tiles[k].image == k && tiles[k].col < cols && tiles[k].row * cols + tiles[k].col == k
  {
    var rowCount := CeilDiv(n, cols);
    tiles := [];
    var idx := 0;
    for r := 0 to rowCount
      invariant idx == |tiles|
      invariant idx == if r * cols < n then r * cols else n
      invariant forall m :: 0 <= m < idx ==>
        tiles[m].image == m && tiles[m].col < cols && tiles[m].row * cols + tiles[m].col == m
    {
      var start := idx;
      var remaining := n - idx;
      var k := if cols < remaining then cols else remaining;
      assert (r + 1) * cols == r * cols + cols;
      for c := 0 to k
        invariant idx == |tiles| == start + c
        invariant forall m :: 0 <= m < idx ==>
          tiles[m].image == m && tiles[m].col < cols && tiles[m].row * cols + tiles[m].col == m
      {
        tiles := tiles + [Collage.Tile(r, c, idx)];
        idx := idx + 1;
      }
    }
  }

  /** How the used items are laid out. */
  datatype Layout = Hero(rows: seq<nat>) | Grid(cols: nat, rowCount: nat)

  /** The plan of a collage: the items used, the layout and the tile of each item. */
  datatype CollagePlan = CollagePlan(use: seq<CollageItem>, layout: Layout, tiles: seq<Collage.Tile>)

  /** buildTripCollage, up to the drawing: no collage for a trip without photo catches;
      otherwise the top items, the hero layout for up to nine of them and the grid beyond. */
  method BuildTripCollage(store: RecordStore, tripId: string, lenOf: string -> real)
    returns (plan: Option<CollagePlan>)
    requires store.Valid()
    ensures plan.None? <==> Collage.PhotoRows(CatchListing(store.catches, tripId)) == []
    ensures plan.Some? ==> plan.value.use == UseItems(CatchListing(store.catches, tripId), lenOf)
    ensures plan.Some? ==> 1 <= |plan.value.use| <= MaxItems && |plan.value.tiles| == |plan.value.use|
    ensures plan.Some? ==> forall k :: 0 <= k < |plan.value.tiles| ==> plan.value.tiles[k].image == k
    ensures plan.Some? && |plan.value.use| <= 9 ==>
      plan.value.layout == Hero(HeroRows(|plan.value.use|))
      && plan.value.tiles == HeroCells(plan.value.layout.rows)
    ensures plan.Some? && |plan.value.use| > 9 ==>
      var n := |plan.value.use|;
      var cols := PickGridCols(n);
      plan.value.layout == Grid(cols, CeilDiv(n, cols))
      && forall k :: 0 <= k < n ==>
        plan.value.tiles[k].col < cols && plan.value.tiles[k].row * cols + plan.value.tiles[k].col == k
  {
    var rows := store.ListCatches(tripId);
    var use := UseItems(rows, lenOf);
    if |use| == 0 {
      return None;
    }
    var n := |use|;
    if n <= 9 {
      var heroRows := LayoutHeroRows(n);
      var tiles := HeroTiles(n);
      HeroCellsShape(heroRows);
      plan := Some(CollagePlan(use, Hero(heroRows), tiles));
    } else {
      var cols := PickGridCols(n);
      var tiles := GridTiles(n, cols);
      plan := Some(CollagePlan(use, Grid(cols, CeilDiv(n, cols)), tiles));
    }
  }

  /** The length part of a caption: formatLen's text, or "-" when it is empty. */
  function LengthPart(formatted: string): (part: string)
    ensures part != []
    ensures formatted != [] ==> part == formatted
  {
    if formatted != [] then formatted else "-"
  }

  /** makeCaption: "len - species - fly", each blank part shown as "-" and the others trimmed
      (safePart has the same body as safeText). */
  function MakeCaption(it: CollageItem, formatLen: string -> string): (caption: string)
    ensures caption == LengthPart(formatLen(it.length))
      + " - " + (if AllSpace(it.species) then "-" else Trim(it.species))
      + " - " + (if AllSpace(it.fly) then "-" else Trim(it.fly))
  {
    LengthPart(formatLen(it.length)) + " - " + SafeText(Some(it.species)) + " - " + SafeText(Some(it.fly))
  }
}

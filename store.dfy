/** The record store of storage.js: the "trips" and "catches" object stores, keyed by `id`,
    with their put/get/delete/list operations. */
module Store {
  import opened Wrappers
  import opened Records
  import opened Listing

  predicate AnyTrip(t: Trip) { true }

  /** The rows `catches.index("tripId").getAll(tripId)` hands out. */
  predicate InTrip(tripId: string, c: Catch) { c.TripId() == tripId }

  function InTripFilter(tripId: string): Catch -> bool {
    c => InTrip(tripId, c)
  }

  /** What listTrips returns for a trips store. */
  ghost function TripListing(trips: map<string, Trip>): (rows: seq<Trip>)
    requires KeyedBy(trips, TripKey)
    ensures forall t :: t in rows <==> t in trips.Values
    ensures Sorted(rows, TripKey)
  {
    ListingOfStore(trips, AnyTrip, TripKey)
  }

  /** What listCatches(tripId) returns for a catches store. */
  ghost function CatchListing(catches: map<string, Catch>, tripId: string): (rows: seq<Catch>)
    requires KeyedBy(catches, CatchKey)
    ensures forall c :: c in rows <==> c in catches.Values && c.TripId() == tripId
    ensures Sorted(rows, CatchKey)
  {
    ListingOfStore(catches, InTripFilter(tripId), CatchKey)
  }

  /** The catches store once every catch of `tripId` is gone. */
  ghost function WithoutTrip(catches: map<string, Catch>, tripId: string): map<string, Catch> {
    map k | k in catches && catches[k].TripId() != tripId :: catches[k]
  }

  /** The store without the rows under `ids`. */
  ghost function Without(m: map<string, Catch>, ids: set<string>): map<string, Catch> {
    map k | k in m && k !in ids :: m[k]
  }

  lemma WithoutStep(m: map<string, Catch>, ids: set<string>, id: string)
    ensures Without(m, ids) - {id} == Without(m, ids + {id})
  {
  }

  /** The ids of a list of catches. */
  ghost function IdsOf(rows: seq<Catch>): set<string> {
    set c | c in rows :: c.Id()
  }

  /** The trip ensureDefaultTrip creates when the store holds none. */
  function DefaultTrip(id: string, now: int, dayName: string): (t: Trip)
    ensures t.id == id && t.name == dayName && t.location == ""
    ensures t.createdAt == Some(now) && t.updatedAt == Some(now)
  {
    Trip(id, dayName, "", "", "", "", "", "", Some(now), Some(now))
  }

  class RecordStore {
    var trips: map<string, Trip>
    var catches: map<string, Catch>

    /** Every row is stored under its own id (both stores have keyPath "id"). */
    ghost predicate Valid()
      reads this
    {
      KeyedBy(trips, TripKey) && KeyedBy(catches, CatchKey)
    }

    constructor()
      ensures Valid()
      ensures trips == map[] && catches == map[]
    {
      trips := map[];
      catches := map[];
    }

    /** getTrip: the stored row, or null. */
    function GetTrip(id: string): (r: Option<Trip>)
      reads this
      requires Valid()
      ensures r.Some? <==> id in trips
      ensures r.Some? ==> r.value.id == id && r.value in trips.Values
    {
      if id in trips then Some(trips[id]) else None
    }

    /** getCatch: the stored row, or null. */
    function GetCatch(id: string): (r: Option<Catch>)
      reads this
      requires Valid()
      ensures r.Some? <==> id in catches
      ensures r.Some? ==> r.value.Id() == id && r.value in catches.Values
    {
      if id in catches then Some(catches[id]) else None
    }

    /** saveTrip: `put`, an upsert by id. */
    method SaveTrip(t: Trip)
      requires Valid()
      modifies this
      ensures Valid()
      ensures trips == old(trips)[t.id := t] && catches == old(catches)
      ensures GetTrip(t.id) == Some(t)
      ensures forall id :: id != t.id ==> GetTrip(id) == old(GetTrip(id))
    {
      trips := trips[t.id := t];
    }

    /** saveCatch: `put`, an upsert by id. */
    method SaveCatch(c: Catch)
      requires Valid()
      modifies this
      ensures Valid()
      ensures catches == old(catches)[c.Id() := c] && trips == old(trips)
      ensures GetCatch(c.Id()) == Some(c)
      ensures forall id :: id != c.Id() ==> GetCatch(id) == old(GetCatch(id))
    {
      catches := catches[c.Id() := c];
    }

    /** deleteCatch: removes the row with that id, if any. */
    method DeleteCatch(id: string)
      requires Valid()
      modifies this
      ensures Valid()
      ensures catches == old(catches) - {id} && trips == old(trips)
      ensures GetCatch(id) == None
      ensures forall k :: k != id ==> GetCatch(k) == old(GetCatch(k))
    {
      catches := catches - {id};
    }

    /** listTrips: every trip, newest `createdAt` first (a missing one counts as 0). */
    method ListTrips() returns (rows: seq<Trip>)
      requires Valid()
      ensures rows == TripListing(trips)
      ensures forall t :: t in rows <==> t in trips.Values
      ensures forall i, j :: 0 <= i < j < |rows| ==>
        CreatedOrZero(rows[i].createdAt) >= CreatedOrZero(rows[j].createdAt)
      ensures |rows| == |trips|
    {
      rows := ListRows(trips, AnyTrip, TripKey);
      ListingLength(rows, Selected(trips, AnyTrip), TripKey);
      assert Selected(trips, AnyTrip) == trips.Values;
      MapSizeIsValuesSize(trips, TripKey);
    }

    /** listCatches(tripId): exactly the catches of that trip, newest `createdAt` first. */
    method ListCatches(tripId: string) returns (rows: seq<Catch>)
      requires Valid()
      ensures rows == CatchListing(catches, tripId)
      ensures forall c :: c in rows <==> c in catches.Values && c.TripId() == tripId
      ensures forall i, j :: 0 <= i < j < |rows| ==>
        CreatedOrZero(rows[i].fields.createdAt) >= CreatedOrZero(rows[j].fields.createdAt)
    {
      rows := ListRows(catches, InTripFilter(tripId), CatchKey);
    }

    /** deleteTrip: deletes the trip row, then lists the trip's catches and deletes each
        (one after another here). */
    method DeleteTrip(tripId: string)
      requires Valid()
      modifies this
      ensures Valid()
      ensures trips == old(trips) - {tripId}
      ensures catches == WithoutTrip(old(catches), tripId)
      ensures forall c :: c in catches.Values ==> c.TripId() != tripId
    {
      trips := trips - {tripId};
      var rows := ListCatches(tripId);
      ghost var before := catches;
      TripIdsListed(before, tripId);
      var i := 0;
      while i < |rows|
        invariant 0 <= i <= |rows|
        invariant Valid()
        invariant trips == old(trips) - {tripId}
        invariant catches == Without(before, IdsOf(rows[..i]))
      {
        IdsOfSnoc(rows, i);
        WithoutStep(before, IdsOf(rows[..i]), rows[i].Id());
        DeleteCatch(rows[i].Id());
        i := i + 1;
      }
      assert rows[..i] == rows;
    }

    /** ensureDefaultTrip: the newest trip when there is one (nothing is written);
        otherwise a new trip named after the day, saved and returned. */
    method EnsureDefaultTrip(now: int, newId: string, dayName: string) returns (t: Trip)
      requires Valid()
      modifies this
      ensures Valid()
      ensures catches == old(catches)
      ensures t in trips.Values && trips != map[]
      ensures old(trips) != map[] ==> trips == old(trips) && t == TripListing(trips)[0]
      ensures old(trips) != map[] ==> forall u :: u in trips.Values && u != t ==>
        KeyBefore(TripKey(t), TripKey(u))
      ensures old(trips) == map[] ==> t == DefaultTrip(newId, now, dayName) && trips == map[newId := t]
    {
      var rows := ListTrips();
      if |rows| > 0 {
        t := rows[0];
        ListingHead(rows, trips.Values, TripKey);
        return;
      }
      t := DefaultTrip(newId, now, dayName);
      SaveTrip(t);
    }
  }

  lemma IdsOfSnoc(rows: seq<Catch>, i: nat)
    requires i < |rows|
    ensures IdsOf(rows[..i + 1]) == IdsOf(rows[..i]) + {rows[i].Id()}
  {
    assert rows[..i + 1] == rows[..i] + [rows[i]];
  }

  /** Removing the ids listCatches(tripId) returns is removing the trip's catches. */
  lemma TripIdsListed(before: map<string, Catch>, tripId: string)
    requires KeyedBy(before, CatchKey)
    ensures Without(before, IdsOf(CatchListing(before, tripId))) == WithoutTrip(before, tripId)
  {
    var rows := CatchListing(before, tripId);
    forall k | k in before
      ensures k in IdsOf(rows) <==> before[k].TripId() == tripId
    {
      if before[k].TripId() == tripId {
        assert before[k] in rows;
      }
      if k in IdsOf(rows) {
        var c :| c in rows && c.Id() == k;
      }
    }
  }

  /** No two rows of the list share an id. */
  ghost predicate DistinctIds(rows: seq<Catch>) {
    forall i, j :: 0 <= i < j < |rows| ==> rows[i].Id() != rows[j].Id()
  }

  /** The catches store after `saveCatch` of each row of `rows`, in order. */
  ghost function UpsertAll(m: map<string, Catch>, rows: seq<Catch>): map<string, Catch>
    decreases |rows|
  {
    if rows == [] then m
    else
      var last := rows[|rows| - 1];
      UpsertAll(m, rows[..|rows| - 1])[last.Id() := last]
  }

  /** Saving rows with distinct ids leaves each of them stored under its id, and every other
      id as it was. */
  lemma {:induction false} UpsertAllSpec(m: map<string, Catch>, rows: seq<Catch>)
    requires DistinctIds(rows)
    ensures UpsertAll(m, rows).Keys == m.Keys + IdsOf(rows)
    ensures forall i :: 0 <= i < |rows| ==> UpsertAll(m, rows)[rows[i].Id()] == rows[i]
    ensures forall k :: k in m && k !in IdsOf(rows) ==> UpsertAll(m, rows)[k] == m[k]
    decreases |rows|
  {
    if rows != [] {
      var init := rows[..|rows| - 1];
      UpsertAllSpec(m, init);
      assert rows == init + [rows[|rows| - 1]];
      assert IdsOf(rows) == IdsOf(init) + {rows[|rows| - 1].Id()};
    }
  }

  /** In a store keyed by id, a stored row is the one under its own id. */
  lemma StoredUnderId(catches: map<string, Catch>, c: Catch)
    requires KeyedBy(catches, CatchKey) && c in catches.Values
    ensures c.Id() in catches && catches[c.Id()] == c
  {
    var k :| k in catches && catches[k] == c;
  }

  /** The catches of one trip, as listCatches returns them, have distinct ids. */
  lemma CatchListingDistinct(catches: map<string, Catch>, tripId: string)
    requires KeyedBy(catches, CatchKey)
    ensures DistinctIds(CatchListing(catches, tripId))
  {
    var rows := CatchListing(catches, tripId);
    forall i, j | 0 <= i < j < |rows| ensures rows[i].Id() != rows[j].Id() {
      StoredUnderId(catches, rows[i]);
      StoredUnderId(catches, rows[j]);
      KeyBeforeIrreflexive(CatchKey(rows[i]));
    }
  }

  /** A store keyed by id has as many rows as keys. */
  lemma MapSizeIsValuesSize<T(!new)>(m: map<string, T>, keyOf: T -> RowKey)
    requires KeyedBy(m, keyOf)
    ensures |m.Values| == |m|
  {
    var f := (x: T) => keyOf(x).id;
    forall k | k in m ensures k in set x | x in m.Values :: f(x) {
      assert m[k] in m.Values && f(m[k]) == k;
    }
    forall x | x in m.Values ensures f(x) in m {
      var k :| k in m && m[k] == x;
    }
    assert m.Keys == set x | x in m.Values :: f(x);
    InjectiveImage(m.Values, f);
  }

  lemma {:induction false} InjectiveImage<T(!new)>(s: set<T>, f: T -> string)
    requires forall x, y :: x in s && y in s && f(x) == f(y) ==> x == y
    ensures |set x | x in s :: f(x)| == |s|
    decreases |s|
  {
    if s != {} {
      var x :| x in s;
      InjectiveImage(s - {x}, f);
      assert (set y | y in s :: f(y)) == (set y | y in s - {x} :: f(y)) + {f(x)};
    }
  }
}

/** The rows of the two object stores of storage.js, "trips" and "catches" (both keyed by
    `id`), and the order in which listTrips and listCatches return them. */
module Records {
  import opened Wrappers

  /** A GPS fix as the catch form records it; a coordinate is `None` when it is not a number. */
  datatype Gps = Gps(lat: Option<real>, lon: Option<real>, accuracy: Option<real>, timestamp: Option<int>)

  /** A photo Blob: its media type (`Blob.type`, possibly empty) and its bytes. */
  datatype Photo = Photo(mime: string, bytes: seq<bv8>)

  /** A trip row. Text fields that the source may leave undefined are "" here; the
      timestamps are `None` when absent. */
  datatype Trip = Trip(
    id: string,
    name: string,
    date: string,
    location: string,
    desc: string,
    flyWin: string,
    lessons: string,
    recap: string,
    createdAt: Option<int>,
    updatedAt: Option<int>)

  /** Every field of a catch row except its photo. The exchange formats carry these
      unchanged and differ only in how the photo travels. */
  datatype CatchFields = CatchFields(
    id: string,
    tripId: string,
    species: string,
    fly: string,
    length: string,
    notes: string,
    gps: Option<Gps>,
    photoName: string,
    createdAt: Option<int>,
    updatedAt: Option<int>)

  /** A catch row; `photo` is the `photoBlob` field, `None` when it is not a Blob. */
  datatype Catch = Catch(fields: CatchFields, photo: Option<Photo>) {
    function Id(): string { fields.id }
    function TripId(): string { fields.tripId }
  }

  /** `row.createdAt || 0`. */
  function CreatedOrZero(createdAt: Option<int>): int {
    createdAt.GetOr(0)
  }

  /** What a listing is ordered by: the creation time (newest first), then the primary key,
      which is the order in which IndexedDB's getAll hands rows to the stable sort. */
  datatype RowKey = RowKey(created: int, id: string)

  function TripKey(t: Trip): RowKey {
    RowKey(CreatedOrZero(t.createdAt), t.id)
  }

  function CatchKey(c: Catch): RowKey {
    RowKey(CreatedOrZero(c.fields.createdAt), c.fields.id)
  }

  /** IndexedDB's order on string keys: lexicographic by character. */
  predicate IdLess(a: string, b: string)
    decreases |a|
  {
    if |b| == 0 then false
    else if |a| == 0 then true
    else if a[0] != b[0] then a[0] < b[0]
    else IdLess(a[1..], b[1..])
  }

  lemma {:induction false} IdLessIrreflexive(a: string)
    ensures !IdLess(a, a)
    decreases |a|
  {
    if |a| > 0 { IdLessIrreflexive(a[1..]); }
  }

  lemma {:induction false} IdLessTransitive(a: string, b: string, c: string)
    requires IdLess(a, b) && IdLess(b, c)
    ensures IdLess(a, c)
    decreases |a|
  {
    if |a| > 0 && a[0] == b[0] && b[0] == c[0] {
      IdLessTransitive(a[1..], b[1..], c[1..]);
    }
  }

  lemma {:induction false} IdLessTotal(a: string, b: string)
    requires a != b
    ensures IdLess(a, b) || IdLess(b, a)
    decreases |a|
  {
    if |a| > 0 && |b| > 0 && a[0] == b[0] {
      IdLessTotal(a[1..], b[1..]);
    }
  }

  /** `x` is listed before `y`. */
  predicate KeyBefore(x: RowKey, y: RowKey) {
    x.created > y.created || (x.created == y.created && IdLess(x.id, y.id))
  }

  lemma KeyBeforeIrreflexive(x: RowKey)
    ensures !KeyBefore(x, x)
  {
    IdLessIrreflexive(x.id);
  }

  lemma KeyBeforeTransitive(x: RowKey, y: RowKey, z: RowKey)
    requires KeyBefore(x, y) && KeyBefore(y, z)
    ensures KeyBefore(x, z)
  {
    if x.created == y.created == z.created { IdLessTransitive(x.id, y.id, z.id); }
  }

  lemma KeyBeforeAsymmetric(x: RowKey, y: RowKey)
    requires KeyBefore(x, y)
    ensures !KeyBefore(y, x)
  {
    if KeyBefore(y, x) {
      KeyBeforeTransitive(x, y, x);
      KeyBeforeIrreflexive(x);
    }
  }

  /** Two different keys are always ordered one way or the other. */
  lemma KeyBeforeTotal(x: RowKey, y: RowKey)
    requires x != y
    ensures KeyBefore(x, y) || KeyBefore(y, x)
  {
    if x.created == y.created { IdLessTotal(x.id, y.id); }
  }
}

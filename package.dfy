/** The inline trip package of storage.js (exportTripPackage / importTripPackage): one JSON
    document holding the trip and its catches, each photo carried inline as its media type
    and its bytes in base64. JSON text is left as the identity. */
module TripPackage {
  import opened Wrappers
  import opened Records
  import opened Listing
  import opened Store
  import opened Text
  import Names
  import Base64

  /** `{ mime, b64 }`. */
  datatype InlinePhoto = InlinePhoto(mime: string, b64: string)

  /** A package row: the catch without its photo Blob, plus the inline photo. */
  datatype PackageCatch = PackageCatch(fields: CatchFields, photo: Option<InlinePhoto>)

  /** The package document. An absent `catches` list reads as empty. */
  datatype Package = Package(schema: string, version: int, exportedAt: int, trip: Option<Trip>, catches: seq<PackageCatch>)

  datatype PackageError =
    | NotRiverLogExport  // "Not a RiverLog export file"
    | NoTrip             // the package has no trip: setting its updatedAt throws
    | BadBase64          // atob refuses the photo text

  const PackageSchema := "riverlog_trip_package"
  const DefaultMime := "image/jpeg"

  /** `mime || "image/jpeg"`. */
  function MimeOrDefault(mime: string): (m: string)
    ensures m != ""
    ensures mime != "" ==> m == mime
  {
    if mime == "" then DefaultMime else mime
  }

  /** Every character lies in U+0020..U+007E. */
  predicate PrintableAscii(t: string) {
    forall i | 0 <= i < |t| :: ' ' <= t[i] <= '~'
  }

  /** The type `new Blob(parts, { type })` records: "" when the given type holds a character
      outside U+0020..U+007E, and otherwise its ASCII lower case. */
  function BlobType(t: string): (r: string)
    ensures PrintableAscii(r)
    ensures !PrintableAscii(t) ==> r == ""
    ensures PrintableAscii(t) ==> |r| == |t| && forall i :: 0 <= i < |t| ==> r[i] == LowerChar(t[i])
  {
    if PrintableAscii(t) then LowerAscii(t) else ""
  }

  /** A type a Blob already carries is kept by the next Blob. */
  lemma BlobTypeIdempotent(t: string)
    ensures BlobType(BlobType(t)) == BlobType(t)
  {
    if PrintableAscii(t) {
      Names.LowerAsciiIdempotent(t);
    }
  }

  /** The package row of a catch: a photo travels as its type (JPEG when the Blob has none)
      and its bytes in base64. */
  function PackageRow(c: Catch): (p: PackageCatch)
    ensures p.fields == c.fields
    ensures p.photo.Some? <==> c.photo.Some?
    ensures c.photo.Some? ==> p.photo.value.mime != "" && (p.photo.value.b64 == "" <==> c.photo.value.bytes == [])
  {
    if c.photo.Some? then
      Base64.EncodeEmpty(c.photo.value.bytes);
      PackageCatch(c.fields, Some(InlinePhoto(MimeOrDefault(c.photo.value.mime), Base64.Encode(c.photo.value.bytes))))
    else PackageCatch(c.fields, None)
  }

  function PackageRows(rows: seq<Catch>): (out: seq<PackageCatch>)
    ensures |out| == |rows|
    ensures forall i :: 0 <= i < |rows| ==> out[i] == PackageRow(rows[i])
  {
    seq(|rows|, i requires 0 <= i < |rows| => PackageRow(rows[i]))
  }

  /** The package exportTripPackage returns. It does not look at whether the trip exists. */
  function PackageOf(trip: Option<Trip>, rows: seq<Catch>, now: int): Package {
    Package(PackageSchema, 1, now, trip, PackageRows(rows))
  }

  /** exportTripPackage: the trip (or null) and its catches as listCatches orders them. */
  method ExportTripPackage(store: RecordStore, tripId: string, now: int) returns (pkg: Package)
    requires store.Valid()
    ensures pkg == PackageOf(store.GetTrip(tripId), CatchListing(store.catches, tripId), now)
    ensures pkg.trip.Some? <==> tripId in store.trips
  {
    var trip := store.GetTrip(tripId);
    var rows := store.ListCatches(tripId);
    var out: seq<PackageCatch> := [];
    for i := 0 to |rows|
      invariant |out| == i && forall j :: 0 <= j < i ==> out[j] == PackageRow(rows[j])
    {
      var c := rows[i];
      var photo: Option<InlinePhoto> := None;
      if c.photo.Some? {
        var mime := c.photo.value.mime;
        if mime == "" {
          mime := DefaultMime;
        }
        photo := Some(InlinePhoto(mime, Base64.Encode(c.photo.value.bytes)));
      }
      out := out + [PackageCatch(c.fields, photo)];
    }
    pkg := Package(PackageSchema, 1, now, trip, out);
  }

  /** base64ToBlob: atob, then the bytes copied one by one into a Uint8Array. */
  method Base64ToBlob(b64: string, mime: string) returns (r: Result<Photo, PackageError>)
    ensures Base64.Decode(b64).None? ==> r == Failure(BadBase64)
    ensures Base64.Decode(b64).Some? ==> r == Success(Photo(BlobType(mime), Base64.Decode(b64).value))
  {
    var bytes := Base64.Decode(b64);
    if bytes.None? {
      return Failure(BadBase64);
    }
    var arr := new bv8[|bytes.value|];
    for i := 0 to arr.Length
      invariant arr[..i] == bytes.value[..i]
    {
      arr[i] := bytes.value[i];
    }
    assert arr[..] == arr[..arr.Length] == bytes.value;
    r := Success(Photo(BlobType(mime), arr[..]));
  }

  /** The catch row importTripPackage saves for a package row: a photo only when its base64
      text is non-empty, typed JPEG when the row gives no type. */
  function RestoreRow(row: PackageCatch): (r: Result<Catch, PackageError>)
    ensures r.Success? ==> r.value.fields == row.fields
    ensures r.Failure? <==> row.photo.Some? && row.photo.value.b64 != "" && Base64.Decode(row.photo.value.b64).None?
    ensures r.Success? && r.value.photo.Some? ==>
      row.photo.Some? && Base64.Decode(row.photo.value.b64) == Some(r.value.photo.value.bytes)
      && r.value.photo.value.mime == BlobType(MimeOrDefault(row.photo.value.mime))
  {
    if row.photo.Some? && row.photo.value.b64 != "" then
      match Base64.Decode(row.photo.value.b64)
      case None => Failure(BadBase64)
      case Some(bytes) => Success(Catch(row.fields, Some(Photo(BlobType(MimeOrDefault(row.photo.value.mime)), bytes))))
    else Success(Catch(row.fields, None))
  }

  /** The rows saved before the import stops, and the error that stopped it, if any. */
  function RestoreRows(rows: seq<PackageCatch>): (r: (seq<Catch>, Option<PackageError>))
    ensures |r.0| <= |rows|
    ensures r.1.None? ==> |r.0| == |rows|
    ensures r.1.Some? ==> |r.0| < |rows| && RestoreRow(rows[|r.0|]) == Failure(r.1.value)
    ensures forall i :: 0 <= i < |r.0| ==> RestoreRow(rows[i]) == Success(r.0[i])
    decreases |rows|
  {
    if rows == [] then ([], None)
    else
      var (done, err) := RestoreRows(rows[..|rows| - 1]);
      if err.Some? then (done, err)
      else match RestoreRow(rows[|rows| - 1])
        case Failure(e) => (done, Some(e))
        case Success(c) => (done + [c], None)
  }

  /** One more row: saved when it restores, the stop when it fails. */
  lemma RestoreRowsStep(rows: seq<PackageCatch>, i: nat)
    requires i < |rows| && RestoreRows(rows[..i]).1.None?
    ensures RestoreRow(rows[i]).Success? ==>
      RestoreRows(rows[..i + 1]) == (RestoreRows(rows[..i]).0 + [RestoreRow(rows[i]).value], None)
    ensures RestoreRow(rows[i]).Failure? ==>
      RestoreRows(rows[..i + 1]) == (RestoreRows(rows[..i]).0, Some(RestoreRow(rows[i]).error))
  {
    assert rows[..i + 1][..i] == rows[..i];
  }

  /** Once a row has failed, later rows change nothing. */
  lemma {:induction false} RestoreRowsStops(rows: seq<PackageCatch>, k: nat)
    requires k <= |rows| && RestoreRows(rows[..k]).1.Some?
    ensures RestoreRows(rows) == RestoreRows(rows[..k])
    decreases |rows|
  {
    if k < |rows| {
      var init := rows[..|rows| - 1];
      assert init[..k] == rows[..k];
      RestoreRowsStops(init, k);
    } else {
      assert rows[..k] == rows;
    }
  }

  /** What importTripPackage does with a package. */
  datatype PackageImport =
    | Refused(error: PackageError)
      // nothing is written
    | Written(trip: Trip, catches: seq<Catch>, stopped: Option<PackageError>)
      // the trip, then these catches, are saved; `stopped` is the error met after them

  function ReadPackage(pkg: Option<Package>, now: int): (r: PackageImport)
    ensures pkg.None? || pkg.value.schema != PackageSchema ==> r == Refused(NotRiverLogExport)
    ensures pkg.Some? && pkg.value.schema == PackageSchema && pkg.value.trip.None? ==> r == Refused(NoTrip)
    ensures r.Written? <==> pkg.Some? && pkg.value.schema == PackageSchema && pkg.value.trip.Some?
    ensures r.Written? ==>
      r.trip == pkg.value.trip.value.(updatedAt := Some(now))
      && (r.catches, r.stopped) == RestoreRows(pkg.value.catches)
  {
    if pkg.None? || pkg.value.schema != PackageSchema then Refused(NotRiverLogExport)
    else if pkg.value.trip.None? then Refused(NoTrip)
    else
      var (done, err) := RestoreRows(pkg.value.catches);
      Written(pkg.value.trip.value.(updatedAt := Some(now)), done, err)
  }

  /** importTripPackage: nothing is written when the package is refused; otherwise the trip,
      then each catch in turn, until a photo's base64 text is refused. The rows saved before
      that stay saved. */
  method ImportTripPackage(store: RecordStore, pkg: Option<Package>, now: int) returns (err: Option<PackageError>)
    requires store.Valid()
    modifies store
    ensures store.Valid()
    ensures ReadPackage(pkg, now).Refused? ==>
      err == Some(ReadPackage(pkg, now).error)
      && store.trips == old(store.trips) && store.catches == old(store.catches)
    ensures ReadPackage(pkg, now).Written? ==>
      var w := ReadPackage(pkg, now);
      err == w.stopped
      && store.trips == old(store.trips)[w.trip.id := w.trip]
      && store.catches == UpsertAll(old(store.catches), w.catches)
  {
    if pkg.None? || pkg.value.schema != PackageSchema {
      return Some(NotRiverLogExport);
    }
    if pkg.value.trip.None? {
      return Some(NoTrip);
    }
    var trip := pkg.value.trip.value.(updatedAt := Some(now));
    store.SaveTrip(trip);
    var rows := pkg.value.catches;
    ghost var w := ReadPackage(pkg, now);
    assert w == Written(trip, RestoreRows(rows).0, RestoreRows(rows).1);
    ghost var saved := store.catches;
    var i := 0;
    var done: seq<Catch> := [];
    while i < |rows|
      invariant 0 <= i <= |rows|
      invariant store.Valid()
      invariant store.trips == old(store.trips)[trip.id := trip]
      invariant RestoreRows(rows[..i]) == (done, None)
      invariant store.catches == UpsertAll(saved, done)
    {
      var row := rows[i];
      RestoreRowsStep(rows, i);
      var c := Catch(row.fields, None);
      if row.photo.Some? && row.photo.value.b64 != "" {
        var blob := Base64ToBlob(row.photo.value.b64, MimeOrDefault(row.photo.value.mime));
        if blob.Failure? {
          RestoreRowsStops(rows, i + 1);
          return Some(blob.error);
        }
        c := Catch(row.fields, Some(blob.value));
      }
      store.SaveCatch(c);
      done := done + [c];
      i := i + 1;
    }
    assert rows[..i] == rows;
    err := None;
  }

  /** How a catch comes back from the package: the same fields; a non-empty photo with the
      same bytes and its type (JPEG when it had none); an empty photo is dropped. */
  function PackageRestored(c: Catch): (r: Catch)
    ensures r.fields == c.fields
    ensures r.photo.Some? <==> c.photo.Some? && c.photo.value.bytes != []
    ensures r.photo.Some? ==> r.photo.value.bytes == c.photo.value.bytes
    ensures r.photo.Some? ==> r.photo.value.mime == BlobType(MimeOrDefault(c.photo.value.mime))
    ensures (r.photo.Some? && c.photo.value.mime != "" && BlobType(c.photo.value.mime) == c.photo.value.mime) ==>
      r.photo.value.mime == c.photo.value.mime
  {
    if c.photo.Some? && c.photo.value.bytes != [] then
      Catch(c.fields, Some(Photo(BlobType(MimeOrDefault(c.photo.value.mime)), c.photo.value.bytes)))
    else Catch(c.fields, None)
  }

  function PackageRestoredAll(rows: seq<Catch>): (r: seq<Catch>)
    ensures |r| == |rows|
    ensures forall i :: 0 <= i < |rows| ==> r[i] == PackageRestored(rows[i])
  {
    seq(|rows|, i requires 0 <= i < |rows| => PackageRestored(rows[i]))
  }

  lemma RowRoundTrip(c: Catch)
    ensures RestoreRow(PackageRow(c)) == Success(PackageRestored(c))
  {
    if c.photo.Some? {
      Base64.DecodeEncode(c.photo.value.bytes);
    }
  }

  lemma {:induction false} RowsRoundTrip(rows: seq<Catch>)
    ensures RestoreRows(PackageRows(rows)) == (PackageRestoredAll(rows), None)
    decreases |rows|
  {
    if rows != [] {
      var init := rows[..|rows| - 1];
      RowsRoundTrip(init);
      assert PackageRows(rows)[..|rows| - 1] == PackageRows(init);
      RowRoundTrip(rows[|rows| - 1]);
      assert PackageRestoredAll(rows) == PackageRestoredAll(init) + [PackageRestored(rows[|rows| - 1])];
    }
  }

  /** Reading back an exported package saves the trip with only `updatedAt` replaced, and
      every catch, with its non-empty photo, and stops on no row. */
  lemma PackageRoundTrip(trip: Trip, rows: seq<Catch>, now: int, later: int)
    ensures ReadPackage(Some(PackageOf(Some(trip), rows, now)), later)
      == Written(trip.(updatedAt := Some(later)), PackageRestoredAll(rows), None)
  {
    RowsRoundTrip(rows);
  }

  /** A package exported for an unknown trip carries no trip and is refused on import. */
  lemma UnknownTripRefused(rows: seq<Catch>, now: int, later: int)
    ensures ReadPackage(Some(PackageOf(None, rows, now)), later) == Refused(NoTrip)
  {
  }

  /** A trip exported as a package from one store and imported into another. */
  method TransferTripPackage(src: RecordStore, dst: RecordStore, tripId: string, now: int, later: int)
    returns (err: Option<PackageError>)
    requires src.Valid() && dst.Valid()
    modifies dst
    ensures dst.Valid()
    ensures err.None? <==> old(src.GetTrip(tripId)).Some?
    ensures err.Some? ==> err == Some(NoTrip) && dst.trips == old(dst.trips) && dst.catches == old(dst.catches)
    ensures err.None? ==> dst.GetTrip(tripId) == Some(old(src.trips[tripId]).(updatedAt := Some(later)))
    ensures err.None? ==> forall c :: c in old(CatchListing(src.catches, tripId)) ==>
      dst.GetCatch(c.Id()) == Some(PackageRestored(c))
  {
    ghost var rows := CatchListing(src.catches, tripId);
    var pkg := ExportTripPackage(src, tripId, now);
    if pkg.trip.Some? {
      PackageRoundTrip(pkg.trip.value, rows, now, later);
      CatchListingDistinct(src.catches, tripId);
      var restored := PackageRestoredAll(rows);
      assert DistinctIds(restored);
      UpsertAllSpec(dst.catches, restored);
      forall c | c in rows
        ensures c.Id() in UpsertAll(dst.catches, restored) && UpsertAll(dst.catches, restored)[c.Id()] == PackageRestored(c)
      {
        var i :| 0 <= i < |rows| && rows[i] == c;
        assert restored[i].Id() in IdsOf(restored);
      }
    }
    err := ImportTripPackage(dst, Some(pkg), later);
  }
}

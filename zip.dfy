/** The trip zip of storage.js (exportTripZip / importTripZip): a manifest "riverlog.json"
    holding the trip and its catches, and each photo as its own entry under "photos/".
    The archive is modelled as the map from entry name to entry that JSZip exposes, with
    compression left as the identity. `JSON.stringify` is a parameter that gives the bytes
    of the manifest entry. */
module TripZip {
  import opened Wrappers
  import opened Records
  import opened Listing
  import opened Store
  import opened Names

  /** A manifest row: the catch without its photo Blob, plus the entry name of the photo. */
  datatype ZipCatch = ZipCatch(fields: CatchFields, photoFile: Option<string>)

  /** The parsed "riverlog.json". An absent `catches` list reads as empty. */
  datatype Manifest = Manifest(schema: string, version: int, exportedAt: int, trip: Option<Trip>, catches: seq<ZipCatch>)

  /** An entry of the archive: a file whose bytes parse as a manifest, a file whose bytes
      do not, or a directory. Both kinds of file have bytes, which `async("blob")` hands back. */
  datatype ZipEntry = Document(manifest: Manifest, bytes: seq<bv8>) | Binary(bytes: seq<bv8>) | Folder

  type Zip = map<string, ZipEntry>

  datatype ZipFile = ZipFile(zip: Zip, filename: string)

  datatype ZipError =
    | TripNotFound      // "Trip not found"
    | MissingManifest   // "Zip missing riverlog.json"
    | ManifestUnreadable // JSON.parse fails on the entry's text
    | NotRiverLogZip    // "Not a RiverLog zip export"
    | NoTrip            // the manifest has no trip: setting its updatedAt throws

  const ManifestName := "riverlog.json"
  const ZipSchema := "riverlog_trip_zip"

  /** `photos/<id>.<ext>` with the extension guessed from the Blob's type. */
  function PhotoPath(id: string, mime: string): (path: string)
    ensures |path| > |"photos/"| && path[..7] == "photos/"
  {
    "photos/" + id + "." + GuessExt(mime)
  }

  predicate IsExt(e: string) {
    e == "png" || e == "webp" || e == "jpg"
  }

  /** The name of a photo entry gives back the catch id: the last four characters tell the
      extension, and the rest is fixed by length. */
  lemma PathInjective(id1: string, e1: string, id2: string, e2: string)
    requires IsExt(e1) && IsExt(e2)
    requires "photos/" + id1 + "." + e1 == "photos/" + id2 + "." + e2
    ensures id1 == id2
  {
    var p := "photos/" + id1 + "." + e1;
    var x1, t1 := "photos/" + id1, "." + e1;
    var x2, t2 := "photos/" + id2, "." + e2;
    assert p == x1 + t1 == x2 + t2;
    assert p[|p| - 4] == t1[|t1| - 4] == t2[|t2| - 4];
    assert |t1| == |t2|;
    assert x1 == p[..|p| - |t1|] == x2;
    assert id1 == x1[7..] && id2 == x2[7..];
  }

  /** Different catches never share a photo entry, whatever their photos' types. */
  lemma PhotoPathInjective(id1: string, mime1: string, id2: string, mime2: string)
    requires PhotoPath(id1, mime1) == PhotoPath(id2, mime2)
    ensures id1 == id2
  {
    PathInjective(id1, GuessExt(mime1), id2, GuessExt(mime2));
  }

  /** The manifest row of a catch. */
  function ZipRow(c: Catch): (z: ZipCatch)
    ensures z.fields == c.fields
    ensures z.photoFile.Some? <==> c.photo.Some?
  {
    ZipCatch(c.fields, if c.photo.Some? then Some(PhotoPath(c.Id(), c.photo.value.mime)) else None)
  }

  function ZipRows(rows: seq<Catch>): (out: seq<ZipCatch>)
    ensures |out| == |rows|
    ensures forall i :: 0 <= i < |rows| ==> out[i] == ZipRow(rows[i])
  {
    seq(|rows|, i requires 0 <= i < |rows| => ZipRow(rows[i]))
  }

  /** The photo entries written for `rows`, in order. */
  function PhotoEntries(rows: seq<Catch>): Zip
    decreases |rows|
  {
    if rows == [] then map[]
    else
      var z := PhotoEntries(rows[..|rows| - 1]);
      var c := rows[|rows| - 1];
      if c.photo.Some? then z[PhotoPath(c.Id(), c.photo.value.mime) := Binary(c.photo.value.bytes)] else z
  }

  /** Each photo of rows with distinct ids is found under its own entry. */
  lemma {:induction false} PhotoEntriesLookup(rows: seq<Catch>, i: nat)
    requires DistinctIds(rows) && i < |rows| && rows[i].photo.Some?
    ensures PhotoPath(rows[i].Id(), rows[i].photo.value.mime) in PhotoEntries(rows)
    ensures PhotoEntries(rows)[PhotoPath(rows[i].Id(), rows[i].photo.value.mime)] == Binary(rows[i].photo.value.bytes)
    decreases |rows|
  {
    var last := rows[|rows| - 1];
    if i < |rows| - 1 {
      PhotoEntriesLookup(rows[..|rows| - 1], i);
      if last.photo.Some? && PhotoPath(last.Id(), last.photo.value.mime) == PhotoPath(rows[i].Id(), rows[i].photo.value.mime) {
        PhotoPathInjective(last.Id(), last.photo.value.mime, rows[i].Id(), rows[i].photo.value.mime);
      }
    }
  }

  /** The archive exportTripZip builds for a trip and its listed catches. */
  function TripZipOf(trip: Trip, rows: seq<Catch>, now: int, stringify: Manifest -> seq<bv8>): (z: Zip)
    ensures ManifestName in z
    ensures var m := Manifest(ZipSchema, 1, now, Some(trip), ZipRows(rows));
      z[ManifestName] == Document(m, stringify(m))
    ensures "photos/" in z && z["photos/"] == Folder
  {
    var m := Manifest(ZipSchema, 1, now, Some(trip), ZipRows(rows));
    PhotoEntries(rows)["photos/" := Folder][ManifestName := Document(m, stringify(m))]
  }

  /** The loop of exportTripZip over the listed catches: one manifest row per catch and one
      entry per photo. */
  method ExportRows(rows: seq<Catch>) returns (out: seq<ZipCatch>, photos: Zip)
    ensures out == ZipRows(rows)
    ensures photos == PhotoEntries(rows)
  {
    out := [];
    photos := map[];
    for i := 0 to |rows|
      invariant |out| == i && forall j :: 0 <= j < i ==> out[j] == ZipRow(rows[j])
      invariant photos == PhotoEntries(rows[..i])
    {
      var c := rows[i];
      assert rows[..i + 1][..i] == rows[..i];
      if c.photo.Some? {
        photos := photos[PhotoPath(c.Id(), c.photo.value.mime) := Binary(c.photo.value.bytes)];
      }
      out := out + [ZipRow(c)];
    }
    assert rows[..|rows|] == rows;
  }

  /** exportTripZip: fails on an unknown trip; otherwise the archive of the trip and of
      its catches as listCatches orders them, with the trip's safe file name. */
  method ExportTripZip(store: RecordStore, tripId: string, now: int, isoDay: int -> string,
                      stringify: Manifest -> seq<bv8>)
    returns (r: Result<ZipFile, ZipError>)
    requires store.Valid()
    ensures store.GetTrip(tripId).None? ==> r == Failure(TripNotFound)
    ensures store.GetTrip(tripId).Some? ==>
      var trip := store.GetTrip(tripId).value;
      r == Success(ZipFile(TripZipOf(trip, CatchListing(store.catches, tripId), now, stringify), SafeTripFilename(trip, now, isoDay)))
  {
    var trip := store.GetTrip(tripId);
    var rows := store.ListCatches(tripId);
    if trip.None? {
      return Failure(TripNotFound);
    }
    var out, photos := ExportRows(rows);
    var zip := photos["photos/" := Folder];
    var manifest := Manifest(ZipSchema, 1, now, trip, out);
    zip := zip[ManifestName := Document(manifest, stringify(manifest))];
    r := Success(ZipFile(zip, SafeTripFilename(trip.value, now, isoDay)));
  }

  /** A restored catch row: the manifest fields, and a photo when `photoFile` names a file
      of the archive. JSZip's `file()` skips only folders, so the manifest itself is such a
      file. JSZip hands the file back as a Blob without a type. */
  function RestoreRow(z: Zip, row: ZipCatch): (c: Catch)
    ensures c.fields == row.fields
    ensures c.photo.Some? <==>
      row.photoFile.Some? && row.photoFile.value != "" && row.photoFile.value in z && !z[row.photoFile.value].Folder?
    ensures c.photo.Some? ==> c.photo.value == Photo("", z[row.photoFile.value].bytes)
  {
    var photo :=
      if row.photoFile.Some? && row.photoFile.value != "" && row.photoFile.value in z
        && !z[row.photoFile.value].Folder?
      then Some(Photo("", z[row.photoFile.value].bytes))
      else None;
    Catch(row.fields, photo)
  }

  /** A row whose `photoFile` names the manifest gets the manifest's own bytes as its photo,
      and a row whose `photoFile` names a folder gets none. */
  lemma RestoreRowFromManifest(z: Zip, row: ZipCatch)
    requires ManifestName in z && z[ManifestName].Document?
    ensures row.photoFile == Some(ManifestName) ==>
      RestoreRow(z, row).photo == Some(Photo("", z[ManifestName].bytes))
    ensures row.photoFile.Some? && row.photoFile.value in z && z[row.photoFile.value].Folder? ==>
      RestoreRow(z, row).photo.None?
  {
  }

  datatype Imported = Imported(trip: Trip, catches: seq<Catch>)

  /** What importTripZip writes: the manifest's trip with `updatedAt` set to the import
      time, then each manifest row with its photo restored. */
  function ReadTripZip(z: Zip, now: int): (r: Result<Imported, ZipError>)
    ensures (ManifestName !in z || z[ManifestName].Folder?) ==> r == Failure(MissingManifest)
    ensures ManifestName in z && z[ManifestName].Binary? ==> r == Failure(ManifestUnreadable)
    ensures ManifestName in z && z[ManifestName].Document? ==>
      var m := z[ManifestName].manifest;
      (m.schema != ZipSchema ==> r == Failure(NotRiverLogZip))
      && (m.schema == ZipSchema && m.trip.None? ==> r == Failure(NoTrip))
      && (m.schema == ZipSchema && m.trip.Some? ==>
            r.Success? && r.value.trip == m.trip.value.(updatedAt := Some(now))
            && |r.value.catches| == |m.catches|
            && forall i :: 0 <= i < |m.catches| ==> r.value.catches[i] == RestoreRow(z, m.catches[i]))
  {
    if ManifestName !in z then Failure(MissingManifest)
    else match z[ManifestName]
      case Folder => Failure(MissingManifest)
      case Binary(_) => Failure(ManifestUnreadable)
      case Document(m, _) =>
        if m.schema != ZipSchema then Failure(NotRiverLogZip)
        else if m.trip.None? then Failure(NoTrip)
        else Success(Imported(m.trip.value.(updatedAt := Some(now)),
                              seq(|m.catches|, i requires 0 <= i < |m.catches| => RestoreRow(z, m.catches[i]))))
  }

  /** How a catch comes back from the zip: the same fields, the same photo bytes, and a
      photo type that is lost. */
  function ZipRestored(c: Catch): (r: Catch)
    ensures r.fields == c.fields
    ensures r.photo.Some? <==> c.photo.Some?
    ensures c.photo.Some? ==> r.photo.value.bytes == c.photo.value.bytes
  {
    Catch(c.fields, if c.photo.Some? then Some(Photo("", c.photo.value.bytes)) else None)
  }

  function ZipRestoredAll(rows: seq<Catch>): (r: seq<Catch>)
    ensures |r| == |rows|
    ensures forall i :: 0 <= i < |rows| ==> r[i] == ZipRestored(rows[i])
  {
    seq(|rows|, i requires 0 <= i < |rows| => ZipRestored(rows[i]))
  }

  /** Saving the restored rows stores each catch, restored, under its id. */
  lemma UpsertRestored(m: map<string, Catch>, rows: seq<Catch>)
    requires DistinctIds(rows)
    ensures forall c :: c in rows ==>
      c.Id() in UpsertAll(m, ZipRestoredAll(rows)) && UpsertAll(m, ZipRestoredAll(rows))[c.Id()] == ZipRestored(c)
  {
    var restored := ZipRestoredAll(rows);
    assert DistinctIds(restored);
    UpsertAllSpec(m, restored);
    forall c | c in rows
      ensures c.Id() in UpsertAll(m, restored) && UpsertAll(m, restored)[c.Id()] == ZipRestored(c)
    {
      var i :| 0 <= i < |rows| && rows[i] == c;
      assert restored[i].Id() in IdsOf(restored);
    }
  }

  /** Reading back an exported archive gives the trip with only `updatedAt` replaced, and
      every catch with its fields and photo bytes. */
  lemma ZipRoundTrip(trip: Trip, rows: seq<Catch>, now: int, later: int, stringify: Manifest -> seq<bv8>)
    requires DistinctIds(rows)
    ensures ReadTripZip(TripZipOf(trip, rows, now, stringify), later).Success?
    ensures ReadTripZip(TripZipOf(trip, rows, now, stringify), later).value
      == Imported(trip.(updatedAt := Some(later)), ZipRestoredAll(rows))
  {
    var z := TripZipOf(trip, rows, now, stringify);
    var m := z[ManifestName].manifest;
    forall i | 0 <= i < |rows| ensures RestoreRow(z, m.catches[i]) == ZipRestored(rows[i]) {
      assert m.catches[i] == ZipRow(rows[i]);
      if rows[i].photo.Some? {
        var path := PhotoPath(rows[i].Id(), rows[i].photo.value.mime);
        PhotoEntriesLookup(rows, i);
        assert path[0] == path[..7][0] == 'p' && ManifestName[0] == 'r';
        assert path != "photos/" && path != ManifestName;
        assert z[path] == PhotoEntries(rows)[path];
      }
    }
  }

  /** importTripZip: nothing is written when the archive is refused; otherwise the trip is
      saved, then each restored catch, and the trip's id is returned. */
  method ImportTripZip(store: RecordStore, z: Zip, now: int) returns (r: Result<string, ZipError>)
    requires store.Valid()
    modifies store
    ensures store.Valid()
    ensures ReadTripZip(z, now).Failure? ==>
      r == Failure(ReadTripZip(z, now).error) && store.trips == old(store.trips) && store.catches == old(store.catches)
    ensures ReadTripZip(z, now).Success? ==>
      var imp := ReadTripZip(z, now).value;
      r == Success(imp.trip.id)
      && store.trips == old(store.trips)[imp.trip.id := imp.trip]
      && store.catches == UpsertAll(old(store.catches), imp.catches)
  {
    if ManifestName !in z || !z[ManifestName].Document? {
      r := Failure(if ManifestName in z && z[ManifestName].Binary? then ManifestUnreadable else MissingManifest);
      return;
    }
    var m := z[ManifestName].manifest;
    if m.schema != ZipSchema {
      return Failure(NotRiverLogZip);
    }
    if m.trip.None? {
      return Failure(NoTrip);
    }
    var trip := m.trip.value.(updatedAt := Some(now));
    store.SaveTrip(trip);
    ghost var saved := store.catches;
    ghost var restored := ReadTripZip(z, now).value.catches;
    for i := 0 to |m.catches|
      invariant store.Valid()
      invariant store.trips == old(store.trips)[trip.id := trip]
      invariant store.catches == UpsertAll(saved, restored[..i])
    {
      var row := RestoreRow(z, m.catches[i]);
      assert restored[..i + 1] == restored[..i] + [row];
      store.SaveCatch(row);
    }
    assert restored[..|m.catches|] == restored;
    r := Success(trip.id);
  }

  /** A trip exported from one store and imported into another: the trip arrives with only
      `updatedAt` replaced, and each of its catches with the same fields and photo bytes. */
  method TransferTripZip(src: RecordStore, dst: RecordStore, tripId: string, now: int, later: int, isoDay: int -> string,
                        stringify: Manifest -> seq<bv8>)
    returns (ok: bool)
    requires src.Valid() && dst.Valid()
    modifies dst
    ensures dst.Valid()
    ensures ok <==> old(src.GetTrip(tripId)).Some?
    ensures ok ==> dst.GetTrip(tripId) == Some(old(src.trips[tripId]).(updatedAt := Some(later)))
    ensures ok ==> forall c :: c in old(CatchListing(src.catches, tripId)) ==>
      dst.GetCatch(c.Id()) == Some(ZipRestored(c))
  {
    ghost var rows := CatchListing(src.catches, tripId);
    var exported := ExportTripZip(src, tripId, now, isoDay, stringify);
    if exported.Failure? {
      return false;
    }
    CatchListingDistinct(src.catches, tripId);
    ZipRoundTrip(src.trips[tripId], rows, now, later, stringify);
    UpsertRestored(dst.catches, rows);
    var imported := ImportTripZip(dst, exported.value.zip, later);
    ok := true;
  }
}

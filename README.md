# RiverLog record store, exchange codecs and helpers, in Dafny

This project models the core of RiverLog, a browser fishing log. The model covers these parts:

- **The record store of `storage.js`.** Its two IndexedDB object stores, "trips" and "catches", are keyed by `id`. Here they are the map fields of the class `Store.RecordStore`, and these operations update them in place:
  - `getTrip`, `saveTrip`, `getCatch`, `saveCatch` and `deleteCatch`;
  - `listTrips` and `listCatches`, newest `createdAt` first;
  - the cascading `deleteTrip`;
  - `ensureDefaultTrip`.
- **The two exchange formats of `storage.js`.**
  - The trip zip (`exportTripZip` / `importTripZip`): a manifest `riverlog.json` plus one `photos/<id>.<ext>` entry per photo.
  - The inline trip package (`exportTripPackage` / `importTripPackage`): each photo travels as `{mime, b64}`, with the base 64 encoding of section 4 of RFC 4648.
  - The file-name helpers `guessExt` and `safeTripFilename`.
- **The smaller helpers around the store:**
  - `safeText` and `clamp` (`js/utils.js`);
  - the fly box parsers, labels, save lock and row build (`js/ui/flybox.js`);
  - the badge rules (`js/badges.js`);
  - the collage selection and tile layouts (`js/collage.js` and `app.js`);
  - the catch save handler (`app.js`);
  - the marker-based slicing of `split.js`;
  - the angle arithmetic of the cube viewer (`cube/cube.js`).

Some inputs become explicit parameters, so that every operation is deterministic:

- the clock (`Date.now()`);
- fresh ids (`uid()`);
- the ISO day of a time stamp;
- the localized day name of a new trip;
- `parseLen`/`parseLenNumber` and `formatLen`. Lengths are an abstract ordered key (`real`).

A few modelling choices apply throughout:

- Rows are datatypes.
- A photo Blob is its media type and its bytes.
- A zip archive is a map from entry name to entry.
- Zip compression is the identity. A manifest entry holds the parsed manifest together with its bytes, which `JSON.stringify` (a parameter) produces on export.
- Optional row fields are `Option`s.
- Text fields that may be undefined are `""`.

Listings are ordered by `createdAt` descending, with a missing `createdAt` counted as 0. Rows with equal time stamps keep `getAll`'s primary-key order, because the sort is stable. So a listing is the unique sequence of the selected rows that is sorted by the strict total order `Records.KeyBefore` on (time, id).

Modules, one per file:

| module | file | models |
|---|---|---|
| `Wrappers` | wrappers.dfy | `Option` and `Result` |
| `Text` | text.dfy | `trim`, `\s`, ASCII `toLowerCase`, `indexOf`, `includes` |
| `Utils` | utils.dfy | js/utils.js |
| `Records` | records.dfy | trip and catch rows, listing order |
| `Listing` | listing.dfy | `getAll` followed by the sort |
| `Store` | store.dfy | the record store class |
| `Base64` | base64.dfy | section 4 of RFC 4648 |
| `Names` | names.dfy | `guessExt`, `safeTripFilename` |
| `TripZip` | zip.dfy | the trip zip |
| `TripPackage` | package.dfy | the inline trip package |
| `FlyBox` | flybox.dfy | js/ui/flybox.js |
| `Badges` | badges.dfy | js/badges.js |
| `Ranking` | ranking.dfy | the stable sorts by length |
| `Collage` | collage.dfy | js/collage.js |
| `AppCollage` | appcollage.dfy | the collage builder of app.js |
| `CatchForm` | catchform.dfy | the save-catch handler of app.js |
| `Split` | split.dfy | the section slicer of split.js |
| `Cube` | cube.dfy | cube/cube.js angle arithmetic |

## Model

| member | source | states |
|---|---|---|
| Utils.SafeText | js/utils.js:7-10 | The result is never empty and has no white space at either end. It is "-" for null or blank input, and the trimmed text otherwise. |
| Utils.SafeTextIdempotent | js/utils.js:7-10 | `safeText(safeText(v)) == safeText(v)`. |
| Utils.Clamp | js/utils.js:12 | The result lies in [a, b] whenever a ≤ b. It is n when n is already in range, a below the range, b above it, and a when b < a. |
| Text.Trim | storage.js:200-202 | `trim`: the slice of the input between its leading and trailing white space. The result has no white space at either end, and it is empty exactly when the input is blank. |
| Text.TrimIdempotent | js/utils.js:8-9 | Trimming twice is trimming once. |
| Text.IndexOf | split.js:11-13 | `indexOf`: the first position at or after `from` where the pattern occurs, or -1 when there is none. |
| Records.KeyBeforeTotal | storage.js:65 | Listing order separates any two different (createdAt, id) keys. With KeyBeforeIrreflexive, KeyBeforeTransitive and KeyBeforeAsymmetric, it is a strict total order. |
| Listing.ListingUnique | storage.js:62-66 | A set of rows has exactly one sorted listing. |
| Listing.ListingLength | storage.js:62-66 | A listing has as many rows as the set it lists. |
| Listing.ListingHead | storage.js:40-41 | The first row of a listing comes before every other row of the set. |
| Listing.Insert | storage.js:65 | Inserting a row keeps a listing sorted, adds exactly that row, and grows the length by one. |
| Listing.ListRows | storage.js:58-70 | `getAll` followed by the sort returns exactly the selected rows, sorted: the unique listing of the store. |
| Store.RecordStore.GetTrip | storage.js:72-80 | `getTrip` returns the stored row exactly when the id is present, and null otherwise. |
| Store.RecordStore.GetCatch | storage.js:120-128 | `getCatch` returns the stored row exactly when the id is present, and null otherwise. |
| Store.RecordStore.SaveTrip | storage.js:82-90 | `saveTrip` is an upsert. Afterwards `getTrip(t.id)` is `t`, every other id reads as before, and the catches are untouched. |
| Store.RecordStore.SaveCatch | storage.js:130-138 | `saveCatch` is an upsert. Afterwards `getCatch(c.id)` is `c`, every other id reads as before, and the trips are untouched. |
| Store.RecordStore.DeleteCatch | storage.js:140-147 | `deleteCatch` removes only that id. |
| Store.RecordStore.ListTrips | storage.js:58-70 | `listTrips` returns every trip, each once, in listing order (`createdAt` descending, a missing one counted as 0). |
| Store.RecordStore.ListCatches | storage.js:105-118 | `listCatches(tripId)` returns exactly the catches with that tripId, in listing order. |
| Store.RecordStore.DeleteTrip | storage.js:92-103 | `deleteTrip` removes the trip row and then, one by one, every catch of the trip. Nothing else changes, and no catch of the trip remains. |
| Store.RecordStore.EnsureDefaultTrip | storage.js:38-56 | With trips present, it returns the newest listed trip and writes nothing. Otherwise it saves and returns a new trip named after the day. Either way, at least one trip exists afterwards. |
| Store.DefaultTrip | storage.js:43-53 | The new trip has the fresh id, the day name, an empty location, and both time stamps set to now. |
| Store.TripIdsListed | storage.js:97-102 | Deleting the ids that `listCatches(tripId)` returns is exactly removing the catches of the trip. |
| Store.UpsertAllSpec | storage.js:270-281 | Saving rows with distinct ids, in order, stores each under its id and keeps every other stored row. |
| Store.CatchListingDistinct | storage.js:105-118 | The rows of a catch listing have distinct ids. |
| Names.GuessExt | storage.js:191-196 | "png" when the lower-cased media type contains "png". Otherwise "webp" when it contains "webp". Otherwise "jpg". |
| Names.GuessExtIgnoresCase | storage.js:192 | The guess does not depend on letter case. |
| Names.CollapseDashes | storage.js:207 | Each run of dashes becomes one dash: the result has no "--", and text without "--" is unchanged. |
| Names.CollapseDashesDropsRepeats | storage.js:207 | The result is the text with exactly those dashes removed that directly follow a dash; every other character stays, in order. |
| Names.Slug | storage.js:202-208 | The slug is non-empty, at most 48 characters, made only of [a-z0-9-], and never contains "--". |
| Names.SlugIdempotent | storage.js:203-208 | A slug is its own slug. |
| Names.DatePart | storage.js:200-201 | The trimmed trip date when there is one. Otherwise the ISO day of `createdAt`, or of now when `createdAt` is missing or 0. |
| Names.SafeTripFilename | storage.js:198-210 | The name is `<datePart>_<slug>_riverlog.zip`. |
| Base64.Encode | storage.js:307-319 | Four characters for every started group of three bytes. |
| Base64.DecodeEncode | storage.js:321-326 | Decoding undoes encoding, for every byte sequence. |
| Base64.EncodeEmpty | storage.js:299 | Only the empty byte sequence encodes to the empty (falsy) text. |
| TripPackage.PackageRow | storage.js:155-165 | A package row keeps every field of the catch. A photo travels as a non-empty mime, with "image/jpeg" replacing an empty type, and as base 64 that is empty exactly when the photo has no bytes. |
| TripPackage.ExportTripPackage | storage.js:149-174 | The package holds the trip, or null when the trip is unknown, and the package row of each listed catch, in listing order. |
| TripPackage.Base64ToBlob | storage.js:321-326 | Base 64 that does not decode is an error. Otherwise the bytes are copied one by one into a photo whose type is the given type as the `Blob` constructor normalizes it. |
| TripPackage.BlobType | storage.js:325 | The `Blob` constructor's type normalization: a type with a character outside U+0020..U+007E becomes ""; any other type is lower-cased character by character. |
| TripPackage.BlobTypeIdempotent | storage.js:325 | Normalizing a type that is already normalized changes nothing. |
| TripPackage.RestoreRow | storage.js:297-303 | A restored row keeps the fields. It gets a photo only when the base 64 is non-empty, and fails only when that text does not decode. The photo's type is the row's type (or the default type) as `Blob` normalizes it. |
| TripPackage.RestoreRows | storage.js:297-304 | The rows are saved in order until the first failing row, which stops the import. |
| TripPackage.ReadPackage | storage.js:286-294 | A package that is missing or has the wrong `_schema` is refused ("Not a RiverLog export file"). A package without a trip is refused. The trip is written exactly when the schema is right and a trip is present; it is written with only `updatedAt` replaced, and the saved catches and the stopping error are those of RestoreRows on the package's rows. |
| TripPackage.ImportTripPackage | storage.js:286-305 | A refused package writes nothing. Otherwise the trip is upserted first, then each catch until the first failing row. |
| TripPackage.PackageRoundTrip | storage.js:149-174 | Reading back an exported package gives the trip with only `updatedAt` replaced. Each catch comes back with the same fields and, when its photo is non-empty, the same bytes. An empty photo is dropped. |
| TripPackage.UnknownTripRefused | storage.js:150 | A package exported for an unknown trip is refused on import. |
| TripPackage.TransferTripPackage | storage.js:149-305 | Export from one store and import into another. Each catch of the trip arrives under its id, restored as PackageRestored says. |
| TripZip.PhotoPath | storage.js:231-234 | A photo entry name is `photos/<id>.<ext>`. |
| TripZip.PhotoPathInjective | storage.js:231-234 | Different catches never share a photo entry. |
| TripZip.ZipRow | storage.js:229-237 | A manifest row keeps every field and names a photo file exactly when the catch has a photo. |
| TripZip.ExportRows | storage.js:226-238 | The export loop yields the manifest row of each listed catch, in order, and the photo entries. |
| TripZip.PhotoEntriesLookup | storage.js:233 | Each photo is found under its own entry. |
| TripZip.ExportTripZip | storage.js:212-251 | An unknown trip fails ("Trip not found"). Otherwise the result is the archive of the trip and its listed catches, named by safeTripFilename. |
| TripZip.RestoreRow | storage.js:270-280 | A restored row keeps its fields. It gets a photo, with an empty type and the entry's bytes, exactly when a non-empty `photoFile` names an entry that is not a folder. |
| TripZip.RestoreRowFromManifest | storage.js:272-276 | A `photoFile` naming "riverlog.json" gets the manifest's own bytes as its photo; one naming a folder gets none. |
| TripZip.ReadTripZip | storage.js:253-283 | No file entry named exactly "riverlog.json" fails. A wrong `_schema` fails. Otherwise the trip has `updatedAt` set to now, and each catch is restored by RestoreRow from the entry its `photoFile` names. |
| TripZip.ImportTripZip | storage.js:253-284 | A refused archive writes nothing. Otherwise the trip is upserted, then every catch, and the trip id is returned. |
| TripZip.ZipRoundTrip | storage.js:212-284 | Reading back an exported archive gives the trip with only `updatedAt` replaced. Every catch keeps its fields and photo bytes, and no `photoFile` field is left behind. |
| TripZip.TransferTripZip | storage.js:212-284 | Export from one store and import into another. The trip arrives with only `updatedAt` replaced, and every catch is stored under its id, restored. |
| FlyBox.ParseSize | js/ui/flybox.js:51-54 | Exactly the digit characters of the input, in order. |
| FlyBox.KeepDigitsAppend | js/ui/flybox.js:51-54 | Keeping the digits distributes over concatenation. |
| FlyBox.ParseQty | js/ui/flybox.js:56-59 | Never negative. It is 0 when the digit/dash residue is empty, is not a number, or is negative. It is the value when the residue is an unsigned digit string. |
| FlyBox.ParseQtyExamples | js/ui/flybox.js:56-59 | "x12" gives 12. "-", "--3", "3-3" and "-7" give 0. |
| FlyBox.ParseQtyOfDecimal | js/ui/flybox.js:56-59 | The decimal notation of a count parses back to that count. |
| FlyBox.FlyLabel | js/ui/flybox.js:61-67 | "type • pattern • #size", with "-" for a blank type or pattern and "#-" for a blank size. |
| FlyBox.FlySub | js/ui/flybox.js:69-72 | The trimmed colours, or "—" when they are blank. |
| FlyBox.TotalQtyAppend | js/ui/flybox.js:137 | The box total is additive over lists of flies. A non-numeric qty counts as 0. |
| FlyBox.TotalQtyNonNegative | js/ui/flybox.js:137 | Flies with non-negative (or non-numeric) quantities give a non-negative total. |
| FlyBox.SaveLock.Enter | js/ui/flybox.js:370-371 | Entry succeeds exactly when the lock was free. The lock is held afterwards. |
| FlyBox.SaveLock.WithLock | js/ui/flybox.js:368-374 | fn runs only when the lock is free. The lock is free again after fn returns or throws. A held lock skips fn. |
| FlyBox.OverlappingTaps | js/ui/flybox.js:368-374 | A second tap during a running save is turned away. |
| FlyBox.BuildFlyRow | js/ui/flybox.js:444-510 | The row is refused without a box, or when the pattern or the parsed size is empty. Otherwise it takes the editing id (or the fresh one), the parsed qty and the trimmed fields. On edit it keeps the stored `createdAt` and photo unless a new photo was picked. |
| Badges.GrantAll | js/badges.js:113-134 | Setting badges only adds keys set to true. Other keys keep their values. |
| Badges.GrantedRules | js/badges.js:113-134 | first_trip at ≥1 trip and three_trips at ≥3. first_catch, ten_catches and twentyfive_catches at 1, 10 and 25 catches over all trips. first_photo, first_gps and big_fish for some photo, some numeric latitude, and some length ≥ 18. first_collage only on "collage_built". |
| Badges.Unlock | js/badges.js:105-137 | No badge that was on is ever removed. Keys outside the rules are untouched. A badge is on afterwards exactly when a rule grants it or it was on. |
| Badges.UnlockIdempotent | js/badges.js:105-137 | Evaluating again on the same data changes nothing. |
| Badges.FirstNew | js/badges.js:144-145 | The first badge, in table order, that is on now and was not on in the snapshot. |
| Badges.Toast | js/badges.js:141-149 | A toast appears only when the map gained keys. It names a table badge that is on and was not on in the snapshot. |
| Badges.CatchesOfTripsMembers | js/badges.js:117-121 | The catches collected over the listed trips are exactly the catches of those trips. |
| Badges.ApplyTable | js/badges.js:113-134 | Setting the holding rules one after another gives GrantAll. |
| Badges.BadgeBoard.EvaluateAndUnlock | js/badges.js:105-153 | The stored map becomes Unlock of the old one over all trips and their catches. The toast is Toast. The snapshot then equals the new map. |
| Badges.BadgeBoard.Init | js/badges.js:156-158 | The snapshot starts as the stored map. |
| Ranking.SortRankSorted | js/collage.js:65 | The sort orders by rank, highest first. |
| Ranking.SortStable | app.js:733-738 | The sort is stable: rows of equal rank keep their listing order. |
| Collage.PhotoRows | js/collage.js:62-64 | Exactly the rows with a photo Blob. |
| Collage.PhotoCount | js/collage.js:54-56 | The photo rows of a trip's listing number as many as the trip's photo catches. |
| Collage.CanBuildCollage | js/collage.js:51-57 | {ok:false, count:0} for a missing trip id. Otherwise count is the number of the trip's photo catches, and ok holds exactly when count ≥ 1. |
| Collage.Selection | js/collage.js:62-66 | Only photo catches of the trip, min(9, photos) of them. |
| Collage.SelectionLongestFirst | js/collage.js:63-66 | The selection is ordered by parsed length, longest first. Equal lengths keep listing order. |
| Collage.SelectionIsTop | js/collage.js:63-66 | No photo catch left out is longer than one selected. |
| Collage.PlaceTiles | js/collage.js:110-128 | Exactly min(9, count) tiles. Tile i draws image i at row i div 3, column i mod 3. |
| Collage.BuildTripCollage | js/collage.js:59-128 | Fails with no trip id, or when the trip has no photo catches. Otherwise the selection and its tiles. |
| AppCollage.PhotoItems | app.js:630-642 | One item per photo catch of the listing, in order. |
| AppCollage.UseItems | app.js:733-752 | min(nTotal, 20) items, all of them photo items. |
| AppCollage.UseItemsOrdered | app.js:733-752 | The used items are ordered by length descending, then newest `createdAt` first. No item left out ranks above a used one. |
| AppCollage.ItemsOf | app.js:633-641 | One item per catch, each carrying that catch's photo, length and `createdAt` (0 when missing). |
| AppCollage.SortItems | app.js:733-738 | Sorting the items gives the items of the catches sorted by the same comparator. |
| AppCollage.UseItemsTieOrder | app.js:733-752 | The used items are the items of the first catches of the stable sort of the photo catches. Among equal length and `createdAt`, that sort keeps listing order, so tied items are used, and make the cut of twenty, in listing order. |
| AppCollage.PickGridCols | app.js:705-709 | Three columns for up to 9 items, four for 10 to 12, five for more. |
| AppCollage.GridFits | app.js:705-709 | 10 to 20 items get 4 or 5 columns, 3 or 4 rows, and a non-empty last row. |
| AppCollage.HeroRowsShape | app.js:711-721 | ceil(n/3) rows whose sizes sum to n. Each row has 1 to 3 tiles, and only the first may have fewer than 3. |
| AppCollage.LayoutHeroRows | app.js:711-721 | The unshift loop builds exactly HeroRows(n). |
| AppCollage.HeroCellsShape | app.js:783-807 | Images 0..n-1 are each drawn once, in order, in a cell of their row. Each tile comes strictly after the one before it in reading order. |
| AppCollage.HeroTiles | app.js:783-807 | The hero loop draws HeroCells(HeroRows(n)): n tiles. |
| AppCollage.GridTiles | app.js:808-833 | n tiles. Tile k draws image k, in a column below `cols`, and row·cols + col = k. |
| AppCollage.BuildTripCollage | app.js:730-833 | No collage without photo items. Otherwise the used items, the hero layout up to nine items and the grid beyond, and each image index drawn once. |
| AppCollage.MakeCaption | app.js:617-628 | "len - species - fly", with "-" for each blank part and the other parts trimmed. |
| CatchForm.EditedCatch | app.js:455-480 | An edit keeps the id and `createdAt` and sets tripId to the current trip. The patch fields are the trimmed inputs. gps, photoBlob and photoName change only when a pending value exists. |
| CatchForm.NewCatch | app.js:499-509 | A new catch gets the fresh id, the current trip, the trimmed inputs and the pending gps, photo and name. |
| CatchForm.SaveCatchClicked | app.js:451-526 | Nothing happens without a current trip. An edit whose row is missing is abandoned. Otherwise exactly one catch row is upserted, and the trips are untouched. |
| Split.SliceBetween | split.js:10-17 | "" when the start marker does not occur. Otherwise the trimmed text from just after the first start marker to the first end marker after it, or to the end when the end marker is null, "" or absent. |
| Split.FindImportBlock | split.js:19-25 | The trimmed prefix before the first section banner, or "" without one. |
| Split.FindCollageStart | split.js:54-62 | The index of the exact collage banner, else of "async function buildTripCollage", else -1. |
| Split.SliceFromIndexToMarker | split.js:64-68 | "" for start index -1. Otherwise the trimmed text from the index to the first end marker at or after it. |
| Split.CatchesSectionAsWritten | split.js:76-82 | As written: when a collage start exists, the catches slice takes a null end marker. |
| Split.CatchesSectionSwallowsCollage | split.js:76-82 | When the collage banner follows the catches banner, the as-written catches section runs to the end of the text and contains the collage banner. |
| Split.CatchesSection | split.js:94-102 | Corrected: the catches section ends at the collage start when there is one, and at the Export banner otherwise. |
| Split.SplitSections | split.js:71-102 | As written: every section is empty or an occurrence in the text with no white space at either end, and the catches section is CatchesSectionAsWritten. |
| Split.SplitSectionsCorrected | split.js:71-102 | Corrected: the same split with the catches section replaced by CatchesSection, which is still a trimmed occurrence in the text. |
| Cube.Rem360 | cube/cube.js:80 | JavaScript's truncating `deg % 360`: the remainder has the sign of `deg`, and deg − r is a multiple of 360. |
| Cube.NormalizeDeg | cube/cube.js:78-83 | The result lies in [-180, 180], differs from the input by a multiple of 360, and equals the input when that is already in range. |
| Cube.NormalizeIdempotent | cube/cube.js:78-83 | Normalizing twice is normalizing once. |
| Cube.SnapTarget | cube/cube.js:139-141 | round(spin/90)·90 is a multiple of 90 within half a quarter turn of spin, halves rounding up. |
| Cube.SnapTargetUnique | cube/cube.js:139-141 | No other quarter turn lies in that half-open window. |
| Cube.SnapGoal | cube/cube.js:112-113 | After a drag, both goals are normalized quarter turns, equal to the snap targets modulo 360. |
| Cube.ControlGoal | cube/cube.js:197-199 | After a control button, both goals are normalized quarter turns, one step on from the snap targets modulo 360. |
| Cube.QuarterTurnGoal | cube/cube.js:78-83 | Normalizing keeps a multiple of 90 a multiple of 90. |

## Left out

- IndexedDB plumbing (`openDB`, `tx`, store creation) is browser I/O. The stores are the map fields of `Store.RecordStore`.
- Requests are modelled as completing in order. `Promise.all` in `deleteTrip` is modelled as sequential deletes.
- Functions that callers import from storage.js but that storage.js does not define are not part of this model. They are the fly-box, fly and fly-event repository, `adjustFlyQty`, `clearAllFlyBoxes`, the all-trips zip export and import, and `getCatchById`. Where the save-catch handler needs `getCatchById`, the row it returns is a parameter. The same holds for the fly row `getFly` returns.
- JSZip, FileReader and `Blob` are abstracted as the archive map and the photo datatype. A photo read back from a zip carries an empty media type, as JSZip's `async("blob")` gives.
- TripZip.ExportTripZip: an id containing "/" makes JSZip add intermediate folder entries to the archive; the archive map holds only the files the source writes.
- Records.IdLess: compares ids by Unicode scalar values, while IndexedDB compares strings by UTF-16 code units; the two orders differ only for ids that mix characters U+E000..U+FFFF with characters above U+FFFF.
- `blobToBase64`'s data-URL detour is modelled as the encoder itself.
- The clock, fresh ids, ISO dates and the localized day name are parameters.
- Length parsing and formatting (`parseLen`, `parseLenNumber`, `formatLen`) are parameters, so the model has no floating point.
- Canvas drawing, image fitting, pixel positions and image loading are left out, with their errors ("could not load image", a missing canvas).
- The cube's trigonometry and easing are left out. Spins are whole degrees.
- Cube.NormalizeDeg: is not invariant under whole turns at the boundary. As written, `normalizeDeg(180)` is 180 but `normalizeDeg(-180)` is -180, so it promises only "the same angle modulo 360".
- UI and DOM wiring are left out, along with rendering, the photo viewer, the PWA install, the theme toggle and the service worker.
- `setEditingFly`, which writes `state.flyEditingId`, is left out.
- The import dispatch of js/io.js is left out. It falls back to the all-trips import on "Not a RiverLog trip zip export", while storage.js throws "Not a RiverLog zip export".
- The file reads and writes of split.js are left out. The text is a parameter of every slicing function.
- Badge persistence in localStorage is the map held by `Badges.BadgeBoard`, so a failed read or write is not modelled.
- The badge icons are left out of the badge table.
- Split.SliceFromIndexToMarker: requires a start index of -1 or inside the text. Callers only pass `indexOf` results.
- Base64.Decode: accepts only padded text over the RFC 4648 alphabet. `atob`'s tolerance for white space and missing padding is not modelled.
- Text.LowerAscii: lower-cases ASCII letters only. Non-ASCII case mapping is not modelled.
- FlyBox.ParseQty: works over unbounded integers. The precision loss of very long digit strings in `Number` is not modelled, nor the overflow of a residue of more than about 309 digits to `Infinity`, for which the source's `Number.isFinite` test gives 0 while the model gives the value.
- CatchForm.SaveCatchClicked: takes the patch time and the creation time of a new catch as two parameters. The source reads `Date.now()` twice.
- Cube.SnapTarget: is stated over whole degrees. Fractional spins are not modelled.

## Findings

| source | as written | input that shows it | evidently intended | confidence | as-written member | corrected member |
|---|---|---|---|---|---|---|
| split.js:76-82 | When a collage start exists, the catches section is sliced with a null end marker, so it runs to the end of the file and takes in every section after it: on app.js that is the collage, Export / Import and Boot sections (the Catches banner is at app.js:325, the collage banner at app.js:528). The fallback that would cut at the collage start (split.js:94-102) runs only when that slice is empty. | Any text where the Catches banner comes before the Trip Collage Builder banner, e.g. the Catches banner, a line of code, then the collage banner. | The catches section ends right before the collage start index, as the comment at split.js:80 says. | not executed | Split.CatchesSectionSwallowsCollage | Split.CatchesSection |

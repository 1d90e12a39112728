/** The "save catch" button of app.js: the form fields become a patch, which either updates the
    catch being edited or becomes a new catch, and the row is written with saveCatch.
    The clock, the new id and the row getCatchById looked up are parameters (getCatchById is
    not part of this model). */
module CatchForm {
  import opened Wrappers
  import opened Text
  import opened Records
  import opened Store

  /** The raw values of the species, fly, length and notes inputs. */
  datatype FormValues = FormValues(species: string, fly: string, length: string, notes: string)

  /** What was captured since the form was last cleared: `state.pendingGPS`,
      `state.pendingPhotoBlob` and `state.pendingPhotoName`. */
  datatype Pending = Pending(gps: Option<Gps>, photo: Option<Photo>, photoName: string)

  /** An edit of an existing catch: its id and everything not in the patch are kept, the
      patch fields are the trimmed form values, the trip is the current one, and gps, photo and
      photo name change only when a pending value exists (a pending name must be non-empty). */
  function EditedCatch(existing: Catch, tripId: string, form: FormValues, pending: Pending, now: int)
    : (c: Catch)
    ensures c.Id() == existing.Id() && c.fields.createdAt == existing.fields.createdAt
    ensures c.TripId() == tripId && c.fields.updatedAt == Some(now)
    ensures c.fields.species == Trim(form.species) && c.fields.fly == Trim(form.fly)
    ensures c.fields.length == Trim(form.length) && c.fields.notes == Trim(form.notes)
    ensures c.fields.gps == if pending.gps.Some? then pending.gps else existing.fields.gps
    ensures c.photo == if pending.photo.Some? then pending.photo else existing.photo
    ensures c.fields.photoName ==
      if pending.photoName != "" then pending.photoName else existing.fields.photoName
  {
    var f := existing.fields;
    Catch(
      f.(tripId := tripId, species := Trim(form.species), fly := Trim(form.fly),
        length := Trim(form.length), notes := Trim(form.notes), updatedAt := Some(now),
        gps := if pending.gps.Some? then pending.gps else f.gps,
        photoName := if pending.photoName != "" then pending.photoName else f.photoName),
      if pending.photo.Some? then pending.photo else existing.photo)
  }

  /** A new catch: the fresh id, the patch, `createdAt` from the second clock reading, and the
      pending gps, photo and name (or none). */
  function NewCatch(newId: string, tripId: string, form: FormValues, pending: Pending,
    patchNow: int, now: int): (c: Catch)
    ensures c.Id() == newId && c.TripId() == tripId
    ensures c.fields.createdAt == Some(now) && c.fields.updatedAt == Some(patchNow)
    ensures c.fields.species == Trim(form.species) && c.fields.fly == Trim(form.fly)
    ensures c.fields.length == Trim(form.length) && c.fields.notes == Trim(form.notes)
    ensures c.fields.gps == pending.gps && c.photo == pending.photo
    ensures c.fields.photoName == pending.photoName
  {
    Catch(CatchFields(newId, tripId, Trim(form.species), Trim(form.fly), Trim(form.length),
      Trim(form.notes), pending.gps, pending.photoName, Some(now), Some(patchNow)), pending.photo)
  }

  datatype SaveOutcome = NoTripSelected | EditTargetMissing | Updated(row: Catch) | Saved(row: Catch)

  /** The click handler: nothing without a current trip; in edit mode the looked-up row is
      merged and saved (or the edit is abandoned when it was not found); otherwise a new
      catch is saved. Nothing but the one catch row changes. */
  method SaveCatchClicked(store: RecordStore, tripId: string, editingId: string,
    existing: Option<Catch>, form: FormValues, pending: Pending, patchNow: int, now: int,
    newId: string) returns (out: SaveOutcome)
    requires store.Valid()
    modifies store
    ensures store.Valid() && store.trips == old(store.trips)
    ensures tripId == "" ==> out == NoTripSelected && store.catches == old(store.catches)
    ensures tripId != "" && editingId != "" && existing.None? ==>
      out == EditTargetMissing && store.catches == old(store.catches)
    ensures tripId != "" && editingId != "" && existing.Some? ==>
      out == Updated(EditedCatch(existing.value, tripId, form, pending, patchNow))
      && store.catches == old(store.catches)[existing.value.Id() := out.row]
    ensures tripId != "" && editingId == "" ==>
      out == Saved(NewCatch(newId, tripId, form, pending, patchNow, now))
      && store.catches == old(store.catches)[newId := out.row]
  {
    if tripId == "" {
      return NoTripSelected;
    }
    if editingId != "" {
      if existing.None? {
        return EditTargetMissing;
      }
      var next := EditedCatch(existing.value, tripId, form, pending, patchNow);
      store.SaveCatch(next);
      return Updated(next);
    }
    var c := NewCatch(newId, tripId, form, pending, patchNow, now);
    store.SaveCatch(c);
    return Saved(c);
  }
}

/** The accommodation server actions: create and update from the admin form
    (list fields parsed, slug derived, `featured` read from a checkbox
    value), the soft delete, and the availability upsert. */
module Accommodations {
  import opened Common
  import opened Text
  import opened Types
  import opened Utils
  import opened Store
  import Reservations

  /** The admin form. The numeric inputs arrive as numbers; `images` and
      `amenities` are text areas with one entry per line; `featured` and
      `status` may be absent. */
  datatype AccommodationForm = AccommodationForm(
    partnerId: string,
    name: string,
    kind: string,
    description: string,
    shortDescription: string,
    capacity: int,
    bedrooms: int,
    bathrooms: int,
    pricePerNight: int,
    commissionRate: real,
    location: string,
    images: string,
    amenities: string,
    featured: Option<string>,
    status: Option<string>)

  /** The status column's value when the insert does not name it. */
  const DefaultStatus: string := "active"

  /** The row both the insert and the update write: the form's fields,
      one-per-line lists, `featured` exactly when the
      checkbox sent `'true'`, and the given status. */
  function FormRecord(id: Id, form: AccommodationForm, status: string): (a: Accommodation)
    ensures a.id == id && a.name == form.name && a.status == status && a.partnerId == form.partnerId
    ensures a.kind == form.kind && a.description == form.description && a.shortDescription == form.shortDescription
    ensures a.capacity == form.capacity && a.bedrooms == form.bedrooms && a.bathrooms == form.bathrooms
    ensures a.location == form.location
    ensures a.images == ParseList(form.images, '\n') && a.amenities == ParseList(form.amenities, '\n')
    ensures forall k :: 0 <= k < |a.images| ==> IsListItem(a.images[k], '\n')
    ensures forall k :: 0 <= k < |a.amenities| ==> IsListItem(a.amenities[k], '\n')
    ensures a.featured <==> form.featured == Some("true")
    ensures a.pricePerNight == form.pricePerNight && a.commissionRate == form.commissionRate
  {
    Accommodation(
      id := id,
      partnerId := form.partnerId,
      name := form.name,
      kind := form.kind,
      description := form.description,
      shortDescription := form.shortDescription,
      capacity := form.capacity,
      bedrooms := form.bedrooms,
      bathrooms := form.bathrooms,
      pricePerNight := form.pricePerNight,
      commissionRate := form.commissionRate,
      location := form.location,
      images := ParseList(form.images, '\n'),
      amenities := ParseList(form.amenities, '\n'),
      status := status,
      featured := form.featured == Some("true"))
  }

  /** The `slug` column the insert and the update write with the name, as
      `generateSlug(name)`: well formed, and saving the same name again
      leaves it as it was. */
  lemma FormSlug(id: Id, form: AccommodationForm, status: string)
    ensures var slug := GenerateSlug(FormRecord(id, form, status).name);
      && slug == GenerateSlug(form.name) && IsSlug(slug)
      && GenerateSlug(slug) == slug
  {
    GenerateSlugIdempotent(form.name);
  }

  /** Lists sent one entry per line come back as the same entries. */
  lemma ListFieldsRoundTrip(id: Id, form: AccommodationForm, images: seq<string>, amenities: seq<string>, status: string)
    requires forall k :: 0 <= k < |images| ==> IsListItem(images[k], '\n')
    requires forall k :: 0 <= k < |amenities| ==> IsListItem(amenities[k], '\n')
    ensures var a := FormRecord(id, form.(images := Join(images, '\n'), amenities := Join(amenities, '\n')), status);
      a.images == images && a.amenities == amenities
  {
    ParseJoin(images, '\n');
    ParseJoin(amenities, '\n');
  }

  /** `createAccommodation`: one insert; the store's error message is
      returned as is. */
  method CreateAccommodation(db: Database, form: AccommodationForm, storeError: Option<string>)
    returns (r: Result<Id, string>)
    requires db.Valid()
    modifies db
    ensures db.Valid()
    ensures db.availability == old(db.availability) && db.reservations == old(db.reservations)
    ensures storeError.Some? ==> r == Err(storeError.value) && db.accommodations == old(db.accommodations)
    ensures storeError.None? ==>
      && r == Ok(old(db.nextId))
      && old(db.nextId) !in old(db.accommodations)
      && db.accommodations == old(db.accommodations)[old(db.nextId) := FormRecord(old(db.nextId), form, DefaultStatus)]
  {
    if storeError.Some? {
      return Err(storeError.value);
    }
    var id := db.nextId;
    var row := FormRecord(id, form, DefaultStatus);
    assert row.id == id;
    db.accommodations := db.accommodations[id := row];
    db.nextId := db.nextId + 1;
    return Ok(id);
  }

  /** `updateAccommodation`: every form column rewritten, the status the
      form gives or `'active'`; an id that matches no row updates nothing. */
  method UpdateAccommodation(db: Database, id: Id, form: AccommodationForm, storeError: Option<string>)
    returns (r: Outcome<string>)
    requires db.Valid()
    modifies db
    ensures db.Valid()
    ensures db.nextId == old(db.nextId)
    ensures db.availability == old(db.availability) && db.reservations == old(db.reservations)
    ensures storeError.Some? ==> r == Fail(storeError.value) && db.accommodations == old(db.accommodations)
    ensures storeError.None? ==> r == Pass
    ensures storeError.None? && id in old(db.accommodations) ==>
      db.accommodations == old(db.accommodations)[id := FormRecord(id, form, OrElse(form.status, DefaultStatus))]
    ensures storeError.None? && id !in old(db.accommodations) ==> db.accommodations == old(db.accommodations)
  {
    if storeError.Some? {
      return Fail(storeError.value);
    }
    if id in db.accommodations {
      db.accommodations := db.accommodations[id := FormRecord(id, form, OrElse(form.status, DefaultStatus))];
    }
    return Pass;
  }

  /** `deleteAccommodation`: a soft delete, the row stays with status
      `'inactive'` and nothing else changes. */
  method DeleteAccommodation(db: Database, id: Id, storeError: Option<string>)
    returns (r: Outcome<string>)
    requires db.Valid()
    modifies db
    ensures db.Valid()
    ensures db.nextId == old(db.nextId)
    ensures db.availability == old(db.availability) && db.reservations == old(db.reservations)
    ensures storeError.Some? ==> r == Fail(storeError.value) && db.accommodations == old(db.accommodations)
    ensures storeError.None? ==> r == Pass
    ensures storeError.None? && id in old(db.accommodations) ==>
      db.accommodations == old(db.accommodations)[id := old(db.accommodations)[id].(status := "inactive")]
    ensures storeError.None? && id !in old(db.accommodations) ==> db.accommodations == old(db.accommodations)
  {
    if storeError.Some? {
      return Fail(storeError.value);
    }
    if id in db.accommodations {
      db.accommodations := db.accommodations[id := db.accommodations[id].(status := "inactive")];
    }
    return Pass;
  }

  /** A soft-deleted accommodation keeps its row, and the booking checks
      do not look at the status: requests for it are decided exactly as
      before the delete. */
  lemma DeletedAccommodationStillBookable(
    accommodations: map<Id, Accommodation>, availability: map<AvailabilityKey, bool>,
    reservations: map<Id, Reservation>, id: Id, form: Reservations.ReservationForm, faults: Reservations.StoreFaults)
    requires id in accommodations
    ensures var after := accommodations[id := accommodations[id].(status := "inactive")];
      Reservations.Decide(after, availability, reservations, id, form, faults)
        == Reservations.Decide(accommodations, availability, reservations, id, form, faults)
  {
  }

  // ------------------------------------------------------------------
  // Availability
  // ------------------------------------------------------------------

  /** One `{ date, is_available }` entry sent by the calendar. */
  datatype DateEntry = DateEntry(date: Day, isAvailable: bool)

  /** One row of the upsert. */
  datatype AvailabilityRow = AvailabilityRow(accommodationId: Id, date: Day, isAvailable: bool)

  /** The upsert rows: exactly one per entry, in the same order, each with
      the accommodation, the date and the flag of its entry. */
  function UpsertRows(accommodationId: Id, dates: seq<DateEntry>): (rows: seq<AvailabilityRow>)
    ensures |rows| == |dates|
    ensures forall i :: 0 <= i < |dates| ==>
      rows[i].accommodationId == accommodationId && rows[i].date == dates[i].date
      && rows[i].isAvailable == dates[i].isAvailable
  {
    seq(|dates|, i requires 0 <= i < |dates| => AvailabilityRow(accommodationId, dates[i].date, dates[i].isAvailable))
  }

  /** No date is sent twice. */
  predicate DistinctDates(dates: seq<DateEntry>)
  {
    forall i, j :: 0 <= i < j < |dates| ==> dates[i].date != dates[j].date
  }

  function RowKey(row: AvailabilityRow): AvailabilityKey
  {
    (row.accommodationId, row.date)
  }

  /** The store after the rows are written one after another, keyed on
      `(accommodation_id, date)`: a new key is inserted, an existing one has
      its flag replaced. */
  function ApplyUpserts(availability: map<AvailabilityKey, bool>, rows: seq<AvailabilityRow>): (m: map<AvailabilityKey, bool>)
    ensures forall k :: k in m <==> k in availability || exists i :: 0 <= i < |rows| && RowKey(rows[i]) == k
    decreases |rows|
  {
    if rows == [] then availability
    else ApplyUpserts(availability[RowKey(rows[0]) := rows[0].isAvailable], rows[1..])
  }

  /** No key is written twice. */
  predicate DistinctKeys(rows: seq<AvailabilityRow>)
  {
    forall i, j :: 0 <= i < j < |rows| ==> RowKey(rows[i]) != RowKey(rows[j])
  }

  lemma DistinctKeysTail(rows: seq<AvailabilityRow>)
    requires rows != [] && DistinctKeys(rows)
    ensures DistinctKeys(rows[1..])
    ensures forall j :: 0 <= j < |rows[1..]| ==> RowKey(rows[1..][j]) != RowKey(rows[0])
  {
    assert forall j :: 0 <= j < |rows[1..]| ==> rows[1..][j] == rows[j + 1];
  }

  /** After an upsert of rows with distinct keys, each row's key holds its
      flag. */
  lemma {:induction false} UpsertSetsEachKey(availability: map<AvailabilityKey, bool>, rows: seq<AvailabilityRow>)
    requires DistinctKeys(rows)
    ensures forall i :: 0 <= i < |rows| ==> ApplyUpserts(availability, rows)[RowKey(rows[i])] == rows[i].isAvailable
    decreases |rows|
  {
    if rows != [] {
      var first := availability[RowKey(rows[0]) := rows[0].isAvailable];
      var tail := rows[1..];
      DistinctKeysTail(rows);
      UpsertSetsEachKey(first, tail);
      UpsertKeepsOthers(first, tail, RowKey(rows[0]));
      forall i | 0 <= i < |rows|
        ensures ApplyUpserts(availability, rows)[RowKey(rows[i])] == rows[i].isAvailable
      {
        if i > 0 {
          assert rows[i] == tail[i - 1];
        }
      }
    }
  }

  /** A key no row names keeps its flag. */
  lemma {:induction false} UpsertKeepsOthers(availability: map<AvailabilityKey, bool>, rows: seq<AvailabilityRow>, k: AvailabilityKey)
    requires k in availability
    requires forall i :: 0 <= i < |rows| ==> RowKey(rows[i]) != k
    ensures k in ApplyUpserts(availability, rows)
    ensures ApplyUpserts(availability, rows)[k] == availability[k]
    decreases |rows|
  {
    if rows != [] {
      var tail := rows[1..];
      assert forall j :: 0 <= j < |tail| ==> tail[j] == rows[j + 1];
      UpsertKeepsOthers(availability[RowKey(rows[0]) := rows[0].isAvailable], tail, k);
    }
  }

  /** The message the store gives when one upsert names the same key twice. */
  const DuplicateKeyError: string := "ON CONFLICT DO UPDATE command cannot affect row a second time"

  /** `updateAvailability`: one upsert of one row per entry. */
  method UpdateAvailability(db: Database, accommodationId: Id, dates: seq<DateEntry>, storeError: Option<string>)
    returns (r: Outcome<string>)
    requires db.Valid()
    modifies db
    ensures db.Valid()
    ensures db.nextId == old(db.nextId)
    ensures db.accommodations == old(db.accommodations) && db.reservations == old(db.reservations)
    ensures storeError.Some? ==> r == Fail(storeError.value) && db.availability == old(db.availability)
    ensures storeError.None? && !DistinctDates(dates) ==>
      r == Fail(DuplicateKeyError) && db.availability == old(db.availability)
    ensures storeError.None? && DistinctDates(dates) ==>
      r == Pass && db.availability == ApplyUpserts(old(db.availability), UpsertRows(accommodationId, dates))
  {
    var upserts := UpsertRows(accommodationId, dates);
    if storeError.Some? {
      return Fail(storeError.value);
    }
    if !DistinctDates(dates) {
      return Fail(DuplicateKeyError);
    }
    db.availability := ApplyUpserts(db.availability, upserts);
    return Pass;
  }

  /** What a successful `updateAvailability` leaves in the store: each sent
      date of the accommodation holds its flag, and every other
      `(accommodation, date)` is as it was. */
  lemma UpdateAvailabilityEffect(availability: map<AvailabilityKey, bool>, accommodationId: Id, dates: seq<DateEntry>)
    requires DistinctDates(dates)
    ensures var m := ApplyUpserts(availability, UpsertRows(accommodationId, dates));
      && (forall i :: 0 <= i < |dates| ==> (accommodationId, dates[i].date) in m && m[(accommodationId, dates[i].date)] == dates[i].isAvailable)
      && (forall k :: k in availability && (k.0 != accommodationId || forall i :: 0 <= i < |dates| ==> dates[i].date != k.1) ==>
            k in m && m[k] == availability[k])
  {
    var rows := UpsertRows(accommodationId, dates);
    assert forall i :: 0 <= i < |rows| ==> RowKey(rows[i]) == (accommodationId, dates[i].date);
    UpsertSetsEachKey(availability, rows);
    forall k | k in availability && (k.0 != accommodationId || forall i :: 0 <= i < |dates| ==> dates[i].date != k.1)
      ensures k in ApplyUpserts(availability, rows) && ApplyUpserts(availability, rows)[k] == availability[k]
    {
      UpsertKeepsOthers(availability, rows, k);
    }
  }

  /** Blocking a night through `updateAvailability` refuses every later
      request for a stay that includes it. */
  lemma BlockedNightRefusesBooking(
    accommodations: map<Id, Accommodation>, availability: map<AvailabilityKey, bool>,
    reservations: map<Id, Reservation>, accommodationId: Id, dates: seq<DateEntry>, i: int,
    form: Reservations.ReservationForm, faults: Reservations.StoreFaults)
    requires DistinctDates(dates) && 0 <= i < |dates| && !dates[i].isAvailable
    requires accommodationId in accommodations && form.checkIn <= dates[i].date < form.checkOut
    requires !faults.lookupFails && !faults.blockedQueryFails
    ensures var after := ApplyUpserts(availability, UpsertRows(accommodationId, dates));
      Reservations.Decide(accommodations, after, reservations, accommodationId, form, faults)
        == Err(Reservations.DatesBlocked)
  {
    var after := ApplyUpserts(availability, UpsertRows(accommodationId, dates));
    UpdateAvailabilityEffect(availability, accommodationId, dates);
    var key := (accommodationId, dates[i].date);
    assert key in after && !after[key];
    assert Reservations.HasBlockedNight(after, accommodationId, form.checkIn, form.checkOut);
  }
}

/** The reservation server actions: `createReservation` with its ordered
    checks and single insert, and the two status updates. */
module Reservations {
  import opened Common
  import opened Types
  import opened Utils
  import opened Store

  /** The fields the booking form submits. */
  datatype ReservationForm = ReservationForm(
    guestFirstName: string,
    guestLastName: string,
    guestEmail: string,
    guestPhone: string,
    checkIn: Day,
    checkOut: Day,
    guests: int,
    paymentMethod: PaymentMethod,
    notes: Option<string>)

  /** The ways `createReservation` can refuse, in the order it checks them. */
  datatype BookingError =
    | AccommodationNotFound
    | InvalidDates
    | DatesBlocked
    | DatesAlreadyBooked
    | InsertFailed

  function ErrorMessage(e: BookingError): string
  {
    match e
    case AccommodationNotFound => "Hébergement introuvable"
    case InvalidDates => "Les dates sélectionnées sont invalides"
    case DatesBlocked => "Ces dates ne sont plus disponibles. Veuillez choisir d'autres dates."
    case DatesAlreadyBooked => "Ces dates sont déjà réservées. Veuillez choisir d'autres dates."
    case InsertFailed => "Une erreur est survenue lors de la création de la réservation"
  }

  /** Every refusal has a message of its own: the user can tell them apart. */
  lemma ErrorMessagesDistinct(a: BookingError, b: BookingError)
    ensures ErrorMessage(a) != []
    ensures ErrorMessage(a) == ErrorMessage(b) ==> a == b
  {
    MessageLength(a);
    MessageLength(b);
  }

  lemma MessageLength(e: BookingError)
    ensures |ErrorMessage(e)| == match e
      case AccommodationNotFound => 23
      case InvalidDates => 38
      case DatesBlocked => 68
      case DatesAlreadyBooked => 63
      case InsertFailed => 61
  {
  }

  /** Which store calls fail. A failed accommodation lookup is answered like
      a missing accommodation; a failed availability or reservations query
      yields no rows, which the action reads as "nothing in the way". */
  datatype StoreFaults = StoreFaults(
    lookupFails: bool, blockedQueryFails: bool, confirmedQueryFails: bool, insertFails: bool)

  const NoFaults: StoreFaults := StoreFaults(false, false, false, false)

  // ------------------------------------------------------------------
  // The two availability queries
  // ------------------------------------------------------------------

  /** The blocked-dates query: a row of this accommodation with
      `is_available = false` and `check_in <= date < check_out`. */
  predicate HasBlockedNight(availability: map<AvailabilityKey, bool>, accommodationId: Id, checkIn: Day, checkOut: Day)
  {
    exists key :: key in availability && key.0 == accommodationId && !availability[key] && checkIn <= key.1 < checkOut
  }

  /** The confirmed-reservations filter as written: same accommodation,
      status `confirmee`, and `check_in < checkOut OR check_out > checkIn`. */
  predicate MatchesConfirmedFilter(r: Reservation, accommodationId: Id, checkIn: Day, checkOut: Day)
  {
    && r.accommodationId == accommodationId
    && r.reservationStatus == Confirmee
    && (r.checkIn < checkOut || r.checkOut > checkIn)
  }

  predicate HasConfirmedMatch(reservations: map<Id, Reservation>, accommodationId: Id, checkIn: Day, checkOut: Day)
  {
    exists id :: id in reservations && MatchesConfirmedFilter(reservations[id], accommodationId, checkIn, checkOut)
  }

  // ------------------------------------------------------------------
  // The decision
  // ------------------------------------------------------------------

  /** What `createReservation` decides, step by step: the accommodation
      lookup, the night count, the blocked dates, the confirmed reservations,
      then the insert. On success, the quote the insert records. */
  function Decide(
    accommodations: map<Id, Accommodation>,
    availability: map<AvailabilityKey, bool>,
    reservations: map<Id, Reservation>,
    accommodationId: Id,
    form: ReservationForm,
    faults: StoreFaults): (r: Result<Quote, BookingError>)
    ensures accommodationId !in accommodations || faults.lookupFails ==> r == Err(AccommodationNotFound)
    ensures accommodationId in accommodations && !faults.lookupFails && form.checkOut <= form.checkIn ==>
      r == Err(InvalidDates)
    ensures r.Ok? ==> accommodationId in accommodations && form.checkIn < form.checkOut
    ensures r.Ok? ==> !faults.lookupFails && !faults.insertFails
    ensures r.Ok? ==> r.value.nights == form.checkOut - form.checkIn && r.value.totalPrice == r.value.subtotal
    ensures r.Ok? <==>
      && accommodationId in accommodations && !faults.lookupFails && form.checkIn < form.checkOut
      && (faults.blockedQueryFails || !HasBlockedNight(availability, accommodationId, form.checkIn, form.checkOut))
      && (faults.confirmedQueryFails || !HasConfirmedMatch(reservations, accommodationId, form.checkIn, form.checkOut))
      && !faults.insertFails
    ensures r.Ok? ==> r.value == CalculateReservation(accommodations[accommodationId].pricePerNight,
      form.checkIn, form.checkOut, accommodations[accommodationId].commissionRate)
  {
    if accommodationId !in accommodations || faults.lookupFails then Err(AccommodationNotFound)
    else
      var acc := accommodations[accommodationId];
      var q := CalculateReservation(acc.pricePerNight, form.checkIn, form.checkOut, acc.commissionRate);
      if q.nights <= 0 then Err(InvalidDates)
      else if !faults.blockedQueryFails && HasBlockedNight(availability, accommodationId, form.checkIn, form.checkOut) then
        Err(DatesBlocked)
      else if !faults.confirmedQueryFails && HasConfirmedMatch(reservations, accommodationId, form.checkIn, form.checkOut) then
        Err(DatesAlreadyBooked)
      else if faults.insertFails then Err(InsertFailed)
      else Ok(q)
  }

  /** The row the insert writes: the guest's fields, the accommodation's
      price and commission rate as they are now, and the computed amounts.
      The two statuses and `created_at` are not written by the insert; they
      are the table's column defaults, taken to be pending and the time of
      the insert. */
  function NewReservation(
    id: Id, accommodationId: Id, userId: Option<Id>, form: ReservationForm,
    acc: Accommodation, q: Quote, now: Time): (row: Reservation)
    ensures row.id == id && row.accommodationId == accommodationId && row.userId == userId
    ensures row.guestFirstName == form.guestFirstName && row.guestLastName == form.guestLastName
    ensures row.guestEmail == form.guestEmail && row.guestPhone == form.guestPhone
    ensures row.checkIn == form.checkIn && row.checkOut == form.checkOut && row.guests == form.guests
    ensures row.paymentMethod == form.paymentMethod
    ensures row.notes.Some? <==> Truthy(form.notes)
    ensures row.notes.Some? ==> row.notes == form.notes
    ensures row.subtotal == q.subtotal && row.totalPrice == q.subtotal && row.commissionAmount == q.commissionAmount
    ensures row.reservationStatus == EnAttente && row.paymentStatus == PaiementEnAttente
    ensures row.paymentReference.None? && row.paymentDate.None? && row.adminNotes.None?
    ensures row.confirmedAt.None? && row.cancelledAt.None? && row.cancellationReason.None?
  {
    Reservation(
      id := id,
      accommodationId := accommodationId,
      userId := userId,
      guestFirstName := form.guestFirstName,
      guestLastName := form.guestLastName,
      guestEmail := form.guestEmail,
      guestPhone := form.guestPhone,
      checkIn := form.checkIn,
      checkOut := form.checkOut,
      guests := form.guests,
      pricePerNight := acc.pricePerNight,
      subtotal := q.subtotal,
      commissionRate := acc.commissionRate,
      commissionAmount := q.commissionAmount,
      totalPrice := q.subtotal,
      paymentMethod := form.paymentMethod,
      paymentStatus := PaiementEnAttente,
      paymentReference := None,
      paymentDate := None,
      reservationStatus := EnAttente,
      confirmedAt := None,
      cancelledAt := None,
      cancellationReason := None,
      notes := OrNull(form.notes),
      adminNotes := None,
      createdAt := now)
  }

  /** `createReservation`: the checks in their order, then one insert. */
  method CreateReservation(
    db: Database, accommodationId: Id, form: ReservationForm, userId: Option<Id>,
    now: Time, faults: StoreFaults) returns (r: Result<Id, BookingError>)
    requires db.Valid()
    modifies db
    ensures db.Valid()
    ensures db.accommodations == old(db.accommodations) && db.availability == old(db.availability)
    ensures var d := Decide(old(db.accommodations), old(db.availability), old(db.reservations), accommodationId, form, faults);
      && (d.Err? ==> r == Err(d.error) && db.reservations == old(db.reservations))
      && (d.Ok? ==> && r == Ok(old(db.nextId))
                    && old(db.nextId) !in old(db.reservations)
                    && db.reservations == old(db.reservations)[old(db.nextId) :=
                         NewReservation(old(db.nextId), accommodationId, userId, form,
                                        old(db.accommodations)[accommodationId], d.value, now)])
  {
    if accommodationId !in db.accommodations || faults.lookupFails {
      return Err(AccommodationNotFound);
    }
    var acc := db.accommodations[accommodationId];
    var q := CalculateReservation(acc.pricePerNight, form.checkIn, form.checkOut, acc.commissionRate);
    if q.nights <= 0 {
      return Err(InvalidDates);
    }
    if !faults.blockedQueryFails && HasBlockedNight(db.availability, accommodationId, form.checkIn, form.checkOut) {
      return Err(DatesBlocked);
    }
    if !faults.confirmedQueryFails && HasConfirmedMatch(db.reservations, accommodationId, form.checkIn, form.checkOut) {
      return Err(DatesAlreadyBooked);
    }
    if faults.insertFails {
      return Err(InsertFailed);
    }
    var id := db.nextId;
    db.reservations := db.reservations[id := NewReservation(id, accommodationId, userId, form, acc, q, now)];
    db.nextId := db.nextId + 1;
    return Ok(id);
  }

  /** The inserted row snapshots the accommodation's price and commission
      rate, and carries the amounts of `calculateReservation` with a total
      equal to the subtotal; both statuses start pending (the table's
      defaults). */
  lemma InsertSnapshotsPricing(id: Id, accommodationId: Id, userId: Option<Id>, form: ReservationForm, acc: Accommodation, now: Time)
    ensures var q := CalculateReservation(acc.pricePerNight, form.checkIn, form.checkOut, acc.commissionRate);
      var row := NewReservation(id, accommodationId, userId, form, acc, q, now);
      && row.pricePerNight == acc.pricePerNight && row.commissionRate == acc.commissionRate
      && row.subtotal == acc.pricePerNight * (form.checkOut - form.checkIn)
      && row.commissionAmount * 100.0 == row.subtotal as real * acc.commissionRate
      && row.totalPrice == row.subtotal
      && row.reservationStatus == EnAttente && row.paymentStatus == PaiementEnAttente
  {
  }

  // ------------------------------------------------------------------
  // Properties of the decision
  // ------------------------------------------------------------------

  /** The checks run in order: an unknown accommodation (or a failed
      lookup) is reported before the dates are looked at, and a non-forward
      range before any query. */
  lemma ChecksInOrder(
    accommodations: map<Id, Accommodation>, availability: map<AvailabilityKey, bool>,
    reservations: map<Id, Reservation>, accommodationId: Id, form: ReservationForm, faults: StoreFaults,
    otherAvailability: map<AvailabilityKey, bool>, otherReservations: map<Id, Reservation>)
    requires accommodationId !in accommodations || form.checkOut <= form.checkIn
    ensures Decide(accommodations, availability, reservations, accommodationId, form, faults)
         == Decide(accommodations, otherAvailability, otherReservations, accommodationId, form,
                   NoFaults.(lookupFails := faults.lookupFails))
  {
  }

  /** Only rows inside the half-open range `[checkIn, checkOut)` of the same
      accommodation matter: blocking the check-out day, or any day outside
      the stay, changes nothing. */
  lemma BlockOutsideStayIgnored(
    accommodations: map<Id, Accommodation>, availability: map<AvailabilityKey, bool>,
    reservations: map<Id, Reservation>, accommodationId: Id, form: ReservationForm, faults: StoreFaults,
    key: AvailabilityKey)
    requires key.0 != accommodationId || key.1 < form.checkIn || form.checkOut <= key.1
    ensures Decide(accommodations, availability[key := false], reservations, accommodationId, form, faults)
         == Decide(accommodations, availability, reservations, accommodationId, form, faults)
  {
    var before := HasBlockedNight(availability, accommodationId, form.checkIn, form.checkOut);
    var after := HasBlockedNight(availability[key := false], accommodationId, form.checkIn, form.checkOut);
    if after {
      var k :| k in availability[key := false] && k.0 == accommodationId
        && !availability[key := false][k] && form.checkIn <= k.1 < form.checkOut;
      assert k != key;
      assert k in availability && !availability[k];
    }
    if before {
      var k :| k in availability && k.0 == accommodationId && !availability[k] && form.checkIn <= k.1 < form.checkOut;
      assert k != key;
      assert k in availability[key := false] && !availability[key := false][k];
    }
    assert before == after;
  }

  /** A blocked night inside the stay refuses the request (when the query
      succeeds and the accommodation and dates are fine). */
  lemma BlockInsideStayRefuses(
    accommodations: map<Id, Accommodation>, availability: map<AvailabilityKey, bool>,
    reservations: map<Id, Reservation>, accommodationId: Id, form: ReservationForm, faults: StoreFaults, day: Day)
    requires accommodationId in accommodations && form.checkIn <= day < form.checkOut
    requires !faults.lookupFails && !faults.blockedQueryFails
    ensures Decide(accommodations, availability[(accommodationId, day) := false], reservations, accommodationId, form, faults)
         == Err(DatesBlocked)
  {
    var m := availability[(accommodationId, day) := false];
    assert (accommodationId, day) in m && !m[(accommodationId, day)];
  }

  /** Reservations that are pending or cancelled never stand in the way. */
  lemma OnlyConfirmedBlock(
    accommodations: map<Id, Accommodation>, availability: map<AvailabilityKey, bool>,
    reservations: map<Id, Reservation>, accommodationId: Id, form: ReservationForm, faults: StoreFaults,
    id: Id, other: Reservation)
    requires id !in reservations && other.reservationStatus != Confirmee
    ensures Decide(accommodations, availability, reservations[id := other], accommodationId, form, faults)
         == Decide(accommodations, availability, reservations, accommodationId, form, faults)
  {
    var m := reservations[id := other];
    var before := HasConfirmedMatch(reservations, accommodationId, form.checkIn, form.checkOut);
    var after := HasConfirmedMatch(m, accommodationId, form.checkIn, form.checkOut);
    if after {
      var j :| j in m && MatchesConfirmedFilter(m[j], accommodationId, form.checkIn, form.checkOut);
      assert j != id;
      assert j in reservations && MatchesConfirmedFilter(reservations[j], accommodationId, form.checkIn, form.checkOut);
    }
    if before {
      var j :| j in reservations && MatchesConfirmedFilter(reservations[j], accommodationId, form.checkIn, form.checkOut);
      assert j in m && m[j] == reservations[j];
    }
    assert before == after;
  }

  /** As written, the confirmed-reservations filter matches every stored
      forward stay of the accommodation, whatever the requested dates: one
      confirmed reservation refuses every later request, an adjacent one or
      one years away included. */
  lemma ConfirmedStayBlocksEveryRequest(
    accommodations: map<Id, Accommodation>, availability: map<AvailabilityKey, bool>,
    reservations: map<Id, Reservation>, accommodationId: Id, form: ReservationForm, id: Id)
    requires accommodationId in accommodations && form.checkIn < form.checkOut
    requires !HasBlockedNight(availability, accommodationId, form.checkIn, form.checkOut)
    requires id in reservations && reservations[id].accommodationId == accommodationId
    requires reservations[id].reservationStatus == Confirmee
    requires reservations[id].checkIn <= reservations[id].checkOut
    ensures Decide(accommodations, availability, reservations, accommodationId, form, NoFaults)
         == Err(DatesAlreadyBooked)
  {
    var stay := reservations[id];
    if !(stay.checkIn < form.checkOut) {
      assert stay.checkOut > form.checkIn;
    }
    assert MatchesConfirmedFilter(stay, accommodationId, form.checkIn, form.checkOut);
  }

  // ------------------------------------------------------------------
  // The overlap the filter is meant to test
  // ------------------------------------------------------------------

  /** Half-open ranges `[a1, a2)` and `[b1, b2)` overlap. */
  predicate Overlaps(a1: Day, a2: Day, b1: Day, b2: Day)
  {
    a1 < b2 && a2 > b1
  }

  /** The night starting on day `d` belongs to the stay `[checkIn, checkOut)`. */
  predicate IsNightOf(d: Day, checkIn: Day, checkOut: Day)
  {
    checkIn <= d < checkOut
  }

  /** Some night belongs to both stays. */
  ghost predicate SharesNight(a1: Day, a2: Day, b1: Day, b2: Day)
  {
    exists d :: IsNightOf(d, a1, a2) && IsNightOf(d, b1, b2)
  }

  /** For two stays of at least one night each, the overlap test holds
      exactly when they share a night. */
  lemma OverlapsIffSharesNight(a1: Day, a2: Day, b1: Day, b2: Day)
    requires a1 < a2 && b1 < b2
    ensures Overlaps(a1, a2, b1, b2) <==> SharesNight(a1, a2, b1, b2)
  {
    if Overlaps(a1, a2, b1, b2) {
      var d := if a1 < b1 then b1 else a1;
      assert IsNightOf(d, a1, a2) && IsNightOf(d, b1, b2);
    }
  }

  predicate HasConfirmedOverlap(reservations: map<Id, Reservation>, accommodationId: Id, checkIn: Day, checkOut: Day)
  {
    exists id :: id in reservations
      && reservations[id].accommodationId == accommodationId
      && reservations[id].reservationStatus == Confirmee
      && Overlaps(reservations[id].checkIn, reservations[id].checkOut, checkIn, checkOut)
  }

  /** The decision with the conjunctive overlap in place of the filter as
      written. */
  function DecideIntended(
    accommodations: map<Id, Accommodation>,
    availability: map<AvailabilityKey, bool>,
    reservations: map<Id, Reservation>,
    accommodationId: Id,
    form: ReservationForm,
    faults: StoreFaults): (r: Result<Quote, BookingError>)
    ensures accommodationId !in accommodations || faults.lookupFails ==> r == Err(AccommodationNotFound)
    ensures r.Ok? ==> accommodationId in accommodations && form.checkIn < form.checkOut
    ensures r.Ok? <==>
      && accommodationId in accommodations && !faults.lookupFails && form.checkIn < form.checkOut
      && (faults.blockedQueryFails || !HasBlockedNight(availability, accommodationId, form.checkIn, form.checkOut))
      && (faults.confirmedQueryFails || !HasConfirmedOverlap(reservations, accommodationId, form.checkIn, form.checkOut))
      && !faults.insertFails
    ensures r.Ok? ==> r.value == CalculateReservation(accommodations[accommodationId].pricePerNight,
      form.checkIn, form.checkOut, accommodations[accommodationId].commissionRate)
  {
    if accommodationId !in accommodations || faults.lookupFails then Err(AccommodationNotFound)
    else
      var acc := accommodations[accommodationId];
      var q := CalculateReservation(acc.pricePerNight, form.checkIn, form.checkOut, acc.commissionRate);
      if q.nights <= 0 then Err(InvalidDates)
      else if !faults.blockedQueryFails && HasBlockedNight(availability, accommodationId, form.checkIn, form.checkOut) then
        Err(DatesBlocked)
      else if !faults.confirmedQueryFails && HasConfirmedOverlap(reservations, accommodationId, form.checkIn, form.checkOut) then
        Err(DatesAlreadyBooked)
      else if faults.insertFails then Err(InsertFailed)
      else Ok(q)
  }

  /** With the overlap test, a valid request on a free accommodation is
      refused as already booked exactly when a confirmed reservation of the
      same accommodation holds one of its nights. */
  lemma IntendedBlocksExactlySharedNights(
    accommodations: map<Id, Accommodation>, availability: map<AvailabilityKey, bool>,
    reservations: map<Id, Reservation>, accommodationId: Id, form: ReservationForm)
    requires accommodationId in accommodations && form.checkIn < form.checkOut
    requires !HasBlockedNight(availability, accommodationId, form.checkIn, form.checkOut)
    requires forall id :: id in reservations ==> reservations[id].checkIn < reservations[id].checkOut
    ensures DecideIntended(accommodations, availability, reservations, accommodationId, form, NoFaults)
         == Err(DatesAlreadyBooked)
      <==> exists id :: id in reservations
             && reservations[id].accommodationId == accommodationId
             && reservations[id].reservationStatus == Confirmee
             && SharesNight(reservations[id].checkIn, reservations[id].checkOut, form.checkIn, form.checkOut)
  {
    forall id | id in reservations {
      OverlapsIffSharesNight(reservations[id].checkIn, reservations[id].checkOut, form.checkIn, form.checkOut);
    }
  }

  /** The adjacent stays of the booking rules: with a confirmed stay on
      `[checkIn, checkOut)`, a request starting on its check-out day is
      refused by the filter as written and accepted with the overlap test;
      a request that shares its last night is refused by both. */
  lemma AdjacentStay(
    accommodations: map<Id, Accommodation>, availability: map<AvailabilityKey, bool>,
    accommodationId: Id, stay: Reservation, form: ReservationForm)
    requires accommodationId in accommodations && form.checkIn < form.checkOut
    requires !HasBlockedNight(availability, accommodationId, form.checkIn, form.checkOut)
    requires stay.accommodationId == accommodationId && stay.reservationStatus == Confirmee
    requires stay.checkIn < stay.checkOut == form.checkIn
    ensures Decide(accommodations, availability, map[stay.id := stay], accommodationId, form, NoFaults)
         == Err(DatesAlreadyBooked)
    ensures DecideIntended(accommodations, availability, map[stay.id := stay], accommodationId, form, NoFaults).Ok?
    ensures var earlier := form.(checkIn := stay.checkOut - 1);
      DecideIntended(accommodations, availability, map[stay.id := stay], accommodationId, earlier, NoFaults)
        == Err(DatesAlreadyBooked)
      || HasBlockedNight(availability, accommodationId, earlier.checkIn, earlier.checkOut)
  {
    var m := map[stay.id := stay];
    ConfirmedStayBlocksEveryRequest(accommodations, availability, m, accommodationId, form, stay.id);
    assert !HasConfirmedOverlap(m, accommodationId, form.checkIn, form.checkOut);
    var earlier := form.(checkIn := stay.checkOut - 1);
    assert stay.id in m && Overlaps(stay.checkIn, stay.checkOut, earlier.checkIn, earlier.checkOut);
  }

  // ------------------------------------------------------------------
  // Status updates
  // ------------------------------------------------------------------

  /** The `updateData` object of the two update actions: the columns it
      names, with their new values. Keys left `undefined` are not sent. */
  datatype Patch = Patch(
    reservationStatus: Option<ReservationStatus>,
    adminNotes: Option<string>,
    confirmedAt: Option<Time>,
    cancelledAt: Option<Time>,
    cancellationReason: Option<string>,
    paymentStatus: Option<PaymentStatus>,
    paymentDate: Option<Time>,
    paymentReference: Option<string>)

  const EmptyPatch: Patch := Patch(None, None, None, None, None, None, None, None)

  function Pick<T>(update: Option<T>, current: T): T
  {
    if update.Some? then update.value else current
  }

  /** A nullable column: written when the patch names it, kept otherwise. */
  function Overwrite<T>(update: Option<T>, current: Option<T>): Option<T>
  {
    if update.Some? then update else current
  }

  /** The row after `update(patch)`: the named columns take their new
      values, every other column, the booking and its price snapshot among
      them, is left as it was. */
  function ApplyPatch(r: Reservation, p: Patch): (u: Reservation)
    ensures u.id == r.id && u.accommodationId == r.accommodationId && u.userId == r.userId
    ensures u.guestFirstName == r.guestFirstName && u.guestLastName == r.guestLastName
    ensures u.guestEmail == r.guestEmail && u.guestPhone == r.guestPhone
    ensures u.checkIn == r.checkIn && u.checkOut == r.checkOut && u.guests == r.guests
    ensures u.pricePerNight == r.pricePerNight && u.subtotal == r.subtotal && u.totalPrice == r.totalPrice
    ensures u.commissionRate == r.commissionRate && u.commissionAmount == r.commissionAmount
    ensures u.paymentMethod == r.paymentMethod && u.notes == r.notes && u.createdAt == r.createdAt
    ensures p.reservationStatus.Some? ==> u.reservationStatus == p.reservationStatus.value
    ensures p.reservationStatus.None? ==> u.reservationStatus == r.reservationStatus
    ensures p.paymentStatus.Some? ==> u.paymentStatus == p.paymentStatus.value
    ensures p.paymentStatus.None? ==> u.paymentStatus == r.paymentStatus
    ensures p.adminNotes.Some? ==> u.adminNotes == p.adminNotes
    ensures p.adminNotes.None? ==> u.adminNotes == r.adminNotes
    ensures p.confirmedAt.Some? ==> u.confirmedAt == p.confirmedAt
    ensures p.confirmedAt.None? ==> u.confirmedAt == r.confirmedAt
    ensures p.cancelledAt.Some? ==> u.cancelledAt == p.cancelledAt
    ensures p.cancelledAt.None? ==> u.cancelledAt == r.cancelledAt
    ensures p.cancellationReason.Some? ==> u.cancellationReason == p.cancellationReason
    ensures p.cancellationReason.None? ==> u.cancellationReason == r.cancellationReason
    ensures p.paymentDate.Some? ==> u.paymentDate == p.paymentDate
    ensures p.paymentDate.None? ==> u.paymentDate == r.paymentDate
    ensures p.paymentReference.Some? ==> u.paymentReference == p.paymentReference
    ensures p.paymentReference.None? ==> u.paymentReference == r.paymentReference
  {
    r.(
      reservationStatus := Pick(p.reservationStatus, r.reservationStatus),
      adminNotes := Overwrite(p.adminNotes, r.adminNotes),
      confirmedAt := Overwrite(p.confirmedAt, r.confirmedAt),
      cancelledAt := Overwrite(p.cancelledAt, r.cancelledAt),
      cancellationReason := Overwrite(p.cancellationReason, r.cancellationReason),
      paymentStatus := Pick(p.paymentStatus, r.paymentStatus),
      paymentDate := Overwrite(p.paymentDate, r.paymentDate),
      paymentReference := Overwrite(p.paymentReference, r.paymentReference))
  }

  /** An update naming no column leaves the row as it was. */
  lemma ApplyEmptyPatch(r: Reservation)
    ensures ApplyPatch(r, EmptyPatch) == r
  {
  }

  /** The columns `updateReservationStatus` writes: the status always, the
      admin notes when given, `confirmed_at` on confirming, `cancelled_at`
      on cancelling together with a non-empty reason when one is given, and
      nothing of the payment. */
  function StatusPatch(status: ReservationStatus, adminNotes: Option<string>, cancellationReason: Option<string>, now: Time): (p: Patch)
    requires status != EnAttente
    ensures p.reservationStatus == Some(status)
    ensures p.adminNotes == adminNotes
    ensures p.confirmedAt == (if status == Confirmee then Some(now) else None)
    ensures p.cancelledAt == (if status == Annulee then Some(now) else None)
    ensures p.cancellationReason.Some? <==> status == Annulee && Truthy(cancellationReason)
    ensures p.cancellationReason.Some? ==> p.cancellationReason == cancellationReason
    ensures p.paymentStatus.None? && p.paymentDate.None? && p.paymentReference.None?
  {
    EmptyPatch.(
      reservationStatus := Some(status),
      adminNotes := adminNotes,
      confirmedAt := if status == Confirmee then Some(now) else None,
      cancelledAt := if status == Annulee then Some(now) else None,
      cancellationReason := if status == Annulee && Truthy(cancellationReason) then cancellationReason else None)
  }

  /** The columns `updatePaymentStatus` writes: the payment status always;
      for `paye` also the payment date, and the reference when a non-empty
      one is given. */
  function PaymentPatch(status: PaymentStatus, paymentReference: Option<string>, now: Time): (p: Patch)
    ensures p.paymentStatus == Some(status)
    ensures p.paymentDate == (if status == Paye then Some(now) else None)
    ensures p.paymentReference.Some? <==> status == Paye && Truthy(paymentReference)
    ensures p.paymentReference.Some? ==> p.paymentReference == paymentReference
    ensures p.reservationStatus.None? && p.adminNotes.None? && p.confirmedAt.None?
    ensures p.cancelledAt.None? && p.cancellationReason.None?
  {
    EmptyPatch.(
      paymentStatus := Some(status),
      paymentDate := if status == Paye then Some(now) else None,
      paymentReference := if status == Paye && Truthy(paymentReference) then paymentReference else None)
  }

  /** `update(patch).eq('id', id)`: the matching row, if there is one, is
      patched; an id that matches nothing updates nothing. */
  function UpdateWhereId(reservations: map<Id, Reservation>, id: Id, p: Patch): (m: map<Id, Reservation>)
    ensures m.Keys == reservations.Keys
    ensures id in reservations ==> m[id] == ApplyPatch(reservations[id], p)
    ensures forall k :: k in reservations && k != id ==> m[k] == reservations[k]
  {
    if id in reservations then reservations[id := ApplyPatch(reservations[id], p)] else reservations
  }

  /** `updateReservationStatus`. The prior status is not checked. */
  method UpdateReservationStatus(
    db: Database, reservationId: Id, status: ReservationStatus,
    adminNotes: Option<string>, cancellationReason: Option<string>,
    now: Time, storeFails: bool) returns (r: Outcome<string>)
    requires db.Valid()
    requires status != EnAttente
    modifies db
    ensures db.Valid()
    ensures db.accommodations == old(db.accommodations) && db.availability == old(db.availability)
    ensures db.nextId == old(db.nextId)
    ensures storeFails ==> r == Fail("Erreur lors de la mise à jour") && db.reservations == old(db.reservations)
    ensures !storeFails ==> r == Pass
    ensures !storeFails ==>
      db.reservations == UpdateWhereId(old(db.reservations), reservationId, StatusPatch(status, adminNotes, cancellationReason, now))
  {
    var updateData := EmptyPatch.(reservationStatus := Some(status), adminNotes := adminNotes);
    if status == Confirmee {
      updateData := updateData.(confirmedAt := Some(now));
    }
    if status == Annulee {
      updateData := updateData.(cancelledAt := Some(now));
      if Truthy(cancellationReason) {
        updateData := updateData.(cancellationReason := cancellationReason);
      }
    }
    if storeFails {
      return Fail("Erreur lors de la mise à jour");
    }
    db.reservations := UpdateWhereId(db.reservations, reservationId, updateData);
    return Pass;
  }

  /** `updatePaymentStatus`. */
  method UpdatePaymentStatus(
    db: Database, reservationId: Id, paymentStatus: PaymentStatus,
    paymentReference: Option<string>, now: Time, storeFails: bool) returns (r: Outcome<string>)
    requires db.Valid()
    modifies db
    ensures db.Valid()
    ensures db.accommodations == old(db.accommodations) && db.availability == old(db.availability)
    ensures db.nextId == old(db.nextId)
    ensures storeFails ==> r == Fail("Erreur lors de la mise à jour du paiement") && db.reservations == old(db.reservations)
    ensures !storeFails ==> r == Pass
    ensures !storeFails ==>
      db.reservations == UpdateWhereId(old(db.reservations), reservationId, PaymentPatch(paymentStatus, paymentReference, now))
  {
    var updateData := EmptyPatch.(paymentStatus := Some(paymentStatus));
    if paymentStatus == Paye {
      updateData := updateData.(paymentDate := Some(now));
      if Truthy(paymentReference) {
        updateData := updateData.(paymentReference := paymentReference);
      }
    }
    if storeFails {
      return Fail("Erreur lors de la mise à jour du paiement");
    }
    db.reservations := UpdateWhereId(db.reservations, reservationId, updateData);
    return Pass;
  }

  // ------------------------------------------------------------------
  // The lifecycle the admin screen enforces
  // ------------------------------------------------------------------

  /** The admin screen offers confirm and cancel only on a pending
      reservation, and "paid" only while the payment is not `paye`. */
  predicate OffersStatusActions(r: Reservation)
  {
    r.reservationStatus == EnAttente
  }

  predicate OffersPaymentAction(r: Reservation)
  {
    r.paymentStatus != Paye
  }

  /** Through the admin screen a reservation moves from pending to confirmed
      or cancelled, after which no status action is offered again; marking it
      paid likewise ends the payment actions. */
  lemma ScreenFollowsLifecycle(r: Reservation, status: ReservationStatus, adminNotes: Option<string>,
                               reason: Option<string>, reference: Option<string>, now: Time)
    requires OffersStatusActions(r) && status != EnAttente
    ensures var u := ApplyPatch(r, StatusPatch(status, adminNotes, reason, now));
      && u.reservationStatus == status
      && !OffersStatusActions(u)
      && (status == Confirmee ==> u.confirmedAt == Some(now) && u.cancelledAt == r.cancelledAt)
      && (status == Annulee ==> u.cancelledAt == Some(now) && u.confirmedAt == r.confirmedAt)
      && u.paymentStatus == r.paymentStatus
    ensures !OffersPaymentAction(ApplyPatch(r, PaymentPatch(Paye, reference, now)))
  {
  }

  /** On a row in any state, confirming stamps `confirmed_at` and leaves
      `cancelled_at` and the reason alone; cancelling stamps `cancelled_at`,
      leaves `confirmed_at` alone and replaces the reason only with a
      non-empty one. Neither touches the payment columns. */
  lemma StatusUpdateOnAnyRow(r: Reservation, status: ReservationStatus, adminNotes: Option<string>,
                             reason: Option<string>, now: Time)
    requires status != EnAttente
    ensures var u := ApplyPatch(r, StatusPatch(status, adminNotes, reason, now));
      && u.reservationStatus == status
      && (status == Confirmee ==>
            u.confirmedAt == Some(now) && u.cancelledAt == r.cancelledAt && u.cancellationReason == r.cancellationReason)
      && (status == Annulee ==> u.cancelledAt == Some(now) && u.confirmedAt == r.confirmedAt)
      && (status == Annulee && Truthy(reason) ==> u.cancellationReason == reason)
      && (!Truthy(reason) ==> u.cancellationReason == r.cancellationReason)
      && u.paymentStatus == r.paymentStatus && u.paymentDate == r.paymentDate
      && u.paymentReference == r.paymentReference
  {
  }

  /** A payment update to a status other than `paye` changes the payment
      status and nothing else; `paye` also stamps the payment date and
      records a non-empty reference, keeping the stored one otherwise. */
  lemma PaymentUpdateOnAnyRow(r: Reservation, status: PaymentStatus, reference: Option<string>, now: Time)
    ensures status != Paye ==> ApplyPatch(r, PaymentPatch(status, reference, now)) == r.(paymentStatus := status)
    ensures status == Paye ==>
      ApplyPatch(r, PaymentPatch(status, reference, now))
        == r.(paymentStatus := Paye, paymentDate := Some(now),
              paymentReference := if Truthy(reference) then reference else r.paymentReference)
  {
  }

  /** The action itself does not check the prior status: called directly it
      confirms a cancelled reservation, which then carries both timestamps. */
  lemma ActionDoesNotCheckPriorStatus(r: Reservation, adminNotes: Option<string>, now: Time)
    requires r.reservationStatus == Annulee && r.cancelledAt.Some?
    ensures var u := ApplyPatch(r, StatusPatch(Confirmee, adminNotes, None, now));
      u.reservationStatus == Confirmee && u.confirmedAt == Some(now) && u.cancelledAt == r.cancelledAt
  {
  }
}

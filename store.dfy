/** The relational store the server actions read and write: the
    `accommodations`, `availability` and `reservations` tables. */
module Store {
  import opened Common
  import opened Types

  /** An `availability` row is keyed by `(accommodation_id, date)`. */
  type AvailabilityKey = (Id, Day)

  class Database {
    var accommodations: map<Id, Accommodation>
    /** `is_available` of each stored `(accommodation_id, date)` row. */
    var availability: map<AvailabilityKey, bool>
    var reservations: map<Id, Reservation>
    /** The next identifier the store hands out on insert. */
    var nextId: Id

    /** Every row is stored under its own id, every id in use is below the
        next one to be handed out, and every stored stay has at least one
        night. */
    ghost predicate Valid()
      reads this
    {
      && (forall id :: id in accommodations ==> id < nextId && accommodations[id].id == id)
      && (forall id :: id in reservations ==> id < nextId && reservations[id].id == id)
      && (forall id :: id in reservations ==> reservations[id].checkIn < reservations[id].checkOut)
    }

    constructor ()
      ensures Valid()
      ensures accommodations == map[] && availability == map[] && reservations == map[]
    {
      accommodations, availability, reservations := map[], map[], map[];
      nextId := 0;
    }
  }
}

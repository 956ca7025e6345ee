/** The records and enumerations of the booking domain: accommodations,
    availability rows, reservations and their two status lifecycles. */
module Types {
  import opened Common

  datatype AccommodationType = Villa | Appartement | Chambre

  /** `'en_attente' | 'confirmee' | 'annulee'`. */
  datatype ReservationStatus = EnAttente | Confirmee | Annulee

  /** `'en_attente' | 'paye' | 'annule'`. */
  datatype PaymentStatus = PaiementEnAttente | Paye | Annule

  datatype PaymentMethod = OrangeMoney | Virement | Especes

  /** A row of the `accommodations` table. Prices are whole FCFA; the
      commission rate is a percentage. Text columns the actions pass through
      unchanged from the form are kept as strings. The `slug` column is
      always written together with `name`, as the slug of that name, so it
      is not stored here: it is `Utils.GenerateSlug(name)`. */
  datatype Accommodation = Accommodation(
    id: Id,
    partnerId: string,
    name: string,
    kind: string,
    description: string,
    shortDescription: string,
    capacity: int,
    bedrooms: int,
    bathrooms: int,
    pricePerNight: int,
    commissionRate: real,
    location: string,
    images: seq<string>,
    amenities: seq<string>,
    status: string,
    featured: bool)

  /** A row of the `reservations` table. */
  datatype Reservation = Reservation(
    id: Id,
    accommodationId: Id,
    userId: Option<Id>,
    guestFirstName: string,
    guestLastName: string,
    guestEmail: string,
    guestPhone: string,
    checkIn: Day,
    checkOut: Day,
    guests: int,
    pricePerNight: int,
    subtotal: int,
    commissionRate: real,
    commissionAmount: real,
    totalPrice: int,
    paymentMethod: PaymentMethod,
    paymentStatus: PaymentStatus,
    paymentReference: Option<string>,
    paymentDate: Option<Time>,
    reservationStatus: ReservationStatus,
    confirmedAt: Option<Time>,
    cancelledAt: Option<Time>,
    cancellationReason: Option<string>,
    notes: Option<string>,
    adminNotes: Option<string>,
    createdAt: Time)
}

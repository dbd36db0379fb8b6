/** `POST /reservations`: the required-field checks, the snapshot of the
    user's contact details that is stored with the booking, and the reply.
    The authenticated user's id is an input; the user lookup and the
    insert are the store's answers. */
module Reservations {
  import opened Js
  import opened Http
  import Email
  import Availability

  const MissingFields: string := "Party size and reservation time are required."
  const UserLookupError: string := "Could not retrieve user details."
  const MissingPhone: string := "User profile is missing a phone number."
  const CreatedMessage: string := "Reservation created successfully."

  datatype ReservationRequest = ReservationRequest(partySize: Json, reservationTime: Json, specialOccasion: Json)

  /** The user's stored contact details. */
  datatype Contact = Contact(name: Json, email: Json, phone: Json)

  /** The row inserted into `Reservations`. */
  datatype ReservationRow = ReservationRow(userId: int, name: Json, phone: Json, email: Json,
                                           partySize: Json, reservationTime: Json, specialOccasion: Json)

  datatype Created = Created(id: int, message: string)

  /** What the handler inserts, what it replies, and the details it hands
      to the confirmation mail. */
  datatype Booking = Booking(inserted: Option<ReservationRow>, response: Response<Created>,
                             confirmation: Option<Email.ReservationDetails>)

  /** Party size and reservation time must both be truthy; the special
      occasion is optional. */
  predicate HasRequiredFields(req: ReservationRequest)
    ensures HasRequiredFields(req) <==> req.partySize !in Falsy && req.reservationTime !in Falsy
  {
    Truthy(req.partySize) && Truthy(req.reservationTime)
  }

  /** The store is asked to insert exactly when the request has a party
      size and a time and the user's profile has a phone number; no
      capacity or conflict check is made. */
  predicate Accepted(req: ReservationRequest, user: Lookup<Contact>) {
    HasRequiredFields(req) && user.Row? && Truthy(user.row.phone)
  }

  /** `POST /reservations` for the user `userId`. `store` is what the store
      answers to the insert, consulted only when an insert is issued. */
  function CreateReservation(userId: int, req: ReservationRequest, user: Lookup<Contact>, store: Outcome<int>): (b: Booking)
    ensures !HasRequiredFields(req) ==> b == Booking(None, Failure(400, MissingFields), None)
    ensures HasRequiredFields(req) && !user.Row? ==> b == Booking(None, Failure(500, UserLookupError), None)
    ensures HasRequiredFields(req) && user.Row? && !Truthy(user.row.phone) ==>
      b == Booking(None, Failure(400, MissingPhone), None)
    ensures b.inserted.Some? <==> Accepted(req, user)
    ensures b.inserted.Some? ==>
      b.inserted.value == ReservationRow(userId, user.row.name, user.row.phone, user.row.email, req.partySize, req.reservationTime, req.specialOccasion)
    ensures b.response.Success? <==> Accepted(req, user) && store.Done?
    ensures b.confirmation.Some? <==> b.response.Success?
    ensures Accepted(req, user) && store.Failed? ==> b.response == Failure(500, store.message)
    ensures Accepted(req, user) && store.Done? ==>
      b.response == Success(201, Created(store.value, CreatedMessage)) &&
      b.confirmation == Some(Email.ReservationDetails(user.row.name, user.row.email, req.partySize, req.reservationTime))
  {
    if !HasRequiredFields(req) then Booking(None, Failure(400, MissingFields), None)
    else if !user.Row? then Booking(None, Failure(500, UserLookupError), None)
    else
      var contact := user.row;
      if !Truthy(contact.phone) then Booking(None, Failure(400, MissingPhone), None)
      else
        var row := ReservationRow(userId, contact.name, contact.phone, contact.email,
                                  req.partySize, req.reservationTime, req.specialOccasion);
        match store
        case Failed(message) => Booking(Some(row), Failure(500, message), None)
        case Done(id) =>
          Booking(Some(row), Success(201, Created(id, CreatedMessage)),
                  Some(Email.ReservationDetails(contact.name, contact.email, req.partySize, req.reservationTime)))
  }

  /** A party size of 0 counts as missing. */
  lemma ZeroPartyRejected(userId: int, reservationTime: Json, specialOccasion: Json, user: Lookup<Contact>, store: Outcome<int>)
    ensures CreateReservation(userId, ReservationRequest(Num(0), reservationTime, specialOccasion), user, store).response
         == Failure(400, MissingFields)
  {
  }

  /** Booking does not consult availability. On every day, with room for
      one reservation per slot and one booking already at 19:00, 19:00 is
      no longer offered; `CreateReservation` takes neither the day's
      bookings nor the capacity, so a request for any time, 19:00 on that
      day included, is still inserted, answered 201 and confirmed. */
  lemma FullSlotStillBooked(day: int, userId: int, reservationTime: Json, contact: Contact, id: int)
    requires Truthy(reservationTime) && Truthy(contact.phone)
    ensures Availability.Slot(19, 0) !in Availability.Available(day, [Availability.SlotInstant(day, Availability.Slot(19, 0))], 1)
    ensures CreateReservation(userId, ReservationRequest(Num(2), reservationTime, Undefined), Row(contact), Done(id))
         == Booking(Some(ReservationRow(userId, contact.name, contact.phone, contact.email, Num(2), reservationTime, Undefined)),
                    Success(201, Created(id, CreatedMessage)),
                    Some(Email.ReservationDetails(contact.name, contact.email, Num(2), reservationTime)))
  {
    Availability.NineteenHundredTaken(day);
    assert Truthy(Num(2));
    assert Accepted(ReservationRequest(Num(2), reservationTime, Undefined), Row(contact));
  }
}

/** A booking conversation driven through the store's contracts alone: one
    slot is offered, booked, refused a second time, freed and booked again. */
module Scenario {
  import opened Wrappers
  import opened Dates
  import opened Tables
  import opened Booking
  import Queries

  /** A store with one client, one professional and one slot at 09:00 on the
      given date, and no reservations. */
  method OfferOneSlot(date: string) returns (st: Store)
    requires ParseDate(date).Some?
    ensures fresh(st) && st.Valid()
    ensures 1 in st.users && st.professionals.Keys == {1}
    ensures st.slots == [Slot(1, 1, ParseDate(date).value, "09:00")]
    ensures st.reservations == [] && st.nextReservationId == 1
  {
    st := new Store();
    var form := Registration(Some("Mario"), Some("Rossi"), Some(date), Some("M"), Some("Italia"),
                             Some("RM"), Some("Roma"), Some("RSSMRA90A01H501X"), Some("mario@example.org"),
                             Some("3330000000"), Some("segreta"), Some("segreta"));
    assert Complete(form) && st.users == map[];
    var userId := st.Register(form, "hash");
    assert userId == Success(1);
    var added := st.AddProfessional(Some("Anna Bianchi"), Some("Cardiologia"), None);
    assert added == Pass;
    var slot := st.AddSlot(1, Some(date), Some("09:00"));
    assert slot.Success?;
  }

  /** The times offered on that date are exactly the one slot's. */
  lemma OneTimeOffered(slots: seq<Slot>, date: string)
    requires ParseDate(date).Some? && slots == [Slot(1, 1, ParseDate(date).value, "09:00")]
    ensures Queries.AvailableTimes(slots, 1, Some(date)) == Success(["09:00"])
  {
    var d := ParseDate(date).value;
    Queries.TimesAfterAppend([], slots[0], 1, d);
    assert [] + [slots[0]] == slots;
    assert Queries.TimesOn([], 1, d) == [];
    assert Queries.TimesOn(slots, 1, d) == ["09:00"];
  }

  /** Booking the slot, booking it again, freeing it and booking it anew. */
  method BookTwice(st: Store, date: string)
    requires ParseDate(date).Some? && st.Valid()
    requires 1 in st.users && 1 in st.professionals
    requires st.slots == [Slot(1, 1, ParseDate(date).value, "09:00")]
    requires st.reservations == [] && st.nextReservationId == 1
    modifies st
  {
    var d := ParseDate(date).value;
    var k := Key(1, d, "09:00");
    assert SlotKey(st.slots[0]) == k;
    var first := st.CreateReservation(Some(1), Some(1), Some(date), Some("09:00"), None);
    assert first == Success(1);
    assert st.reservations == [Reservation(1, 1, 1, d, "09:00", DefaultStato)];

    // The same triple again is already booked.
    assert ReservationKey(st.reservations[0]) == k;
    var second := st.CreateReservation(Some(1), Some(1), Some(date), Some("09:00"), None);
    assert second == Failure(AlreadyBooked);

    // Deleting the reservation frees the triple; the slot is still there.
    var deleted := st.DeleteReservation(1);
    assert deleted == Pass && st.reservations == [];
    var third := st.CreateReservation(Some(1), Some(1), Some(date), Some("09:00"), Some("confermata"));
    assert third == Success(2);
  }

  /** Requests the store refuses. */
  method Refusals(st: Store, date: string)
    requires ParseDate(date).Some? && st.Valid()
    requires 1 in st.users && 99 !in st.professionals
    modifies st
  {
    // An unknown professional is refused before the slot is looked at.
    var stranger := st.CreateReservation(Some(1), Some(99), Some(date), Some("09:00"), None);
    assert stranger == Failure(UnknownProfessional);

    // A day-first date is not YYYY-MM-DD.
    var badSlot := st.AddSlot(1, Some("10-03-2025"), Some("09:00"));
    assert badSlot == Failure(BadDateFormat);
  }

  method BookingWalkthrough(date: string)
    requires ParseDate(date).Some?
  {
    var st := OfferOneSlot(date);
    OneTimeOffered(st.slots, date);
    BookTwice(st, date);
    var other := OfferOneSlot(date);
    Refusals(other, date);
  }
}

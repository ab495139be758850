/** The four tables of the booking service and the row shapes they hold:
    users, professionals, availability slots and reservations, plus the
    errors the handlers report and the lookups they make. */
module Tables {
  import opened Wrappers
  import opened Seqs
  import opened Dates

  /** A registered user. The password is kept only as the hash the
      registration handler was given. */
  datatype User = User(
    nome: string, cognome: string, dataNascita: Date, sessoBiologico: string,
    nazioneNascita: string, provinciaNascita: string, comuneNascita: string,
    codiceFiscale: string, email: string, cellulare: string,
    passwordHash: string, role: string)

  datatype Professional = Professional(nome: string, specializzazione: string, imageUrl: Option<string>)

  /** An availability slot ("disponibilità"): professional, day and time of day. */
  datatype Slot = Slot(id: int, professionalId: int, date: Date, time: string)

  datatype Reservation = Reservation(
    id: int, userId: int, professionalId: int, date: Date, time: string, stato: string)

  /** The (professional, date, time) triple that names one bookable unit. */
  datatype Key = Key(professionalId: int, date: Date, time: string)

  function SlotId(s: Slot): int { s.id }
  function SlotKey(s: Slot): Key { Key(s.professionalId, s.date, s.time) }
  function ReservationId(r: Reservation): int { r.id }
  function ReservationKey(r: Reservation): Key { Key(r.professionalId, r.date, r.time) }

  /** The status a reservation gets when the request names none. */
  const DefaultStato: string := "in attesa"
  /** The role every self-registered user gets. */
  const DefaultRole: string := "cliente"
  /** The name shown for a reservation whose professional no longer exists. */
  const UnknownProfessionalName: string := "Non disponibile"

  /** What a handler reports instead of doing its work. */
  datatype Error =
    // registration and user administration
    | MissingFields        // a registration field is absent or empty
    | PasswordMismatch     // password and its confirmation differ
    | EmailInUse
    | FiscalCodeInUse
    | RoleRequired         // role update without a role
    | UserNotFound         // role update or user delete of an unknown id
    | ProfessionalExists   // same name and specialisation already present
    // reservations
    | UnknownUser
    | UnknownProfessional
    | SlotUnavailable      // the professional offers no such date and time
    | AlreadyBooked        // a reservation holds that date and time already
    | ReservationNotFound
    // availability
    | DateAndTimeRequired
    | BadDateFormat        // the date is not YYYY-MM-DD (caught: answered with 400)
    | SlotExists
    | SlotNotFound
    | DateRequired
    // exceptions no handler catches (the server answers 500, nothing is stored)
    | UncaughtDateError    // strptime raised outside any try block
    | NotNullViolation     // the commit of a row with a missing required column failed

  /** Python's falsiness of an optional text field: absent or empty. */
  predicate Blank(x: Option<string>) {
    x.None? || x.value == ""
  }

  /** A date field as an unguarded strptime reads it: absent and malformed
      both raise. */
  function ParseDateArg(x: Option<string>): (r: Option<Date>)
    ensures x.None? ==> r.None?
    ensures x.Some? ==> r == ParseDate(x.value)
  {
    if x.None? then None else ParseDate(x.value)
  }

  /** The update handler's date: the given text, or the stored date
      formatted, parsed by an unguarded strptime. Only given text can fail. */
  function ReparseDate(x: Option<string>, stored: Date): (r: Option<Date>)
    requires ValidDate(stored)
    ensures x.None? ==> r == Some(stored)
    ensures x.Some? ==> r == ParseDate(x.value)
  {
    ParseFormat(stored);
    ParseDate(if x.Some? then x.value else FormatDate(stored))
  }

  function HasId(id: int): Slot -> bool { (s: Slot) => s.id == id }
  function IsReservation(id: int): Reservation -> bool { (r: Reservation) => r.id == id }

  /** Disponibilita.query.get(id): the position of the slot with that id. */
  function FindSlot(slots: seq<Slot>, id: int): (r: Option<nat>)
    ensures r.Some? ==> r.value < |slots| && slots[r.value].id == id
    ensures r.None? <==> forall i :: 0 <= i < |slots| ==> slots[i].id != id
  {
    FirstIndex(slots, HasId(id))
  }

  /** Reservation.query.get(id): the position of the reservation with that id. */
  function FindReservation(rs: seq<Reservation>, id: int): (r: Option<nat>)
    ensures r.Some? ==> r.value < |rs| && rs[r.value].id == id
    ensures r.None? <==> forall i :: 0 <= i < |rs| ==> rs[i].id != id
  {
    FirstIndex(rs, IsReservation(id))
  }

  /** Some slot offers exactly this professional, date and time. */
  predicate HasSlot(slots: seq<Slot>, k: Key) {
    exists i :: 0 <= i < |slots| && SlotKey(slots[i]) == k
  }

  /** Some reservation holds exactly this professional, date and time. */
  predicate IsBooked(rs: seq<Reservation>, k: Key) {
    exists i :: 0 <= i < |rs| && ReservationKey(rs[i]) == k
  }

  function OfUser(userId: int): Reservation -> bool { (r: Reservation) => r.userId == userId }
  function NotOfUser(userId: int): Reservation -> bool { (r: Reservation) => r.userId != userId }

  /** Appending a reservation for a triple nobody holds keeps the triples of
      the reservation table unique: the invariant the create handler keeps. */
  lemma AppendUnbookedKeepsUnique(rs: seq<Reservation>, x: Reservation)
    requires UniqueBy(rs, ReservationKey)
    requires !IsBooked(rs, ReservationKey(x))
    ensures UniqueBy(rs + [x], ReservationKey)
  {
    forall y | y in rs ensures ReservationKey(y) != ReservationKey(x) {
      var i :| 0 <= i < |rs| && rs[i] == y;
    }
    UniqueByAppend(rs, x, ReservationKey);
  }

  /** Changing the time of one reservation, as the update handler may do, can
      give two reservations the same triple: uniqueness of reservation triples
      is not an invariant of the reservation table. */
  lemma UpdateMayDoubleBook()
    ensures var d := Date(2025, 3, 10);
            var rs := [Reservation(1, 7, 1, d, "09:00", DefaultStato),
                       Reservation(2, 8, 1, d, "10:00", DefaultStato)];
            UniqueBy(rs, ReservationKey) && !UniqueBy(rs[1 := rs[1].(time := "09:00")], ReservationKey)
  {
    var d := Date(2025, 3, 10);
    var rs := [Reservation(1, 7, 1, d, "09:00", DefaultStato),
               Reservation(2, 8, 1, d, "10:00", DefaultStato)];
    var rs' := rs[1 := rs[1].(time := "09:00")];
    assert ReservationKey(rs'[0]) == ReservationKey(rs'[1]);
  }
}

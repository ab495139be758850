/** The booking service's database and the handlers that change it. Each
    handler is one atomic step: it runs its checks in the order the source
    runs them and either reports the first failing one, leaving every table
    as it was, or makes its change. */
module Booking {
  import opened Wrappers
  import opened Seqs
  import opened Dates
  import opened Tables
  import Queries

  /** The fields of a registration request; None is a key the request lacks. */
  datatype Registration = Registration(
    nome: Option<string>, cognome: Option<string>, dataNascita: Option<string>,
    sessoBiologico: Option<string>, nazioneNascita: Option<string>,
    provinciaNascita: Option<string>, comuneNascita: Option<string>,
    codiceFiscale: Option<string>, email: Option<string>, cellulare: Option<string>,
    password: Option<string>, confermaPassword: Option<string>)

  /** Every required registration field is present and non-empty. */
  predicate Complete(f: Registration) {
    && !Blank(f.nome) && !Blank(f.cognome) && !Blank(f.dataNascita)
    && !Blank(f.sessoBiologico) && !Blank(f.nazioneNascita) && !Blank(f.provinciaNascita)
    && !Blank(f.comuneNascita) && !Blank(f.codiceFiscale) && !Blank(f.email)
    && !Blank(f.cellulare) && !Blank(f.password) && !Blank(f.confermaPassword)
  }

  predicate EmailTaken(users: map<int, User>, email: string) {
    exists id :: id in users && users[id].email == email
  }

  predicate FiscalCodeTaken(users: map<int, User>, cf: string) {
    exists id :: id in users && users[id].codiceFiscale == cf
  }

  predicate ProfessionalListed(pros: map<int, Professional>, nome: string, spec: string) {
    exists id :: id in pros && pros[id].nome == nome && pros[id].specializzazione == spec
  }

  /** An id from the request names a stored row. */
  predicate Known<T>(table: map<int, T>, id: Option<int>) {
    id.Some? && id.value in table
  }

  /** The slot table offers this professional, date and time (an absent time
      matches no slot, since every slot has one). */
  predicate Offered(slots: seq<Slot>, pid: int, d: Date, time: Option<string>) {
    time.Some? && HasSlot(slots, Key(pid, d, time.value))
  }

  /** The first check the create handler fails, in the order it makes them:
      the date (an unguarded parse), the user, the professional, the slot,
      then a reservation already holding the triple. None: the booking is made. */
  function CreateRefusal(users: map<int, User>, pros: map<int, Professional>, slots: seq<Slot>,
                         rs: seq<Reservation>, userId: Option<int>, pid: Option<int>,
                         date: Option<string>, time: Option<string>): (e: Option<Error>)
    ensures e.None? <==>
      && ParseDateArg(date).Some? && Known(users, userId) && Known(pros, pid)
      && Offered(slots, pid.value, ParseDateArg(date).value, time)
      && !IsBooked(rs, Key(pid.value, ParseDateArg(date).value, time.value))
    ensures e == Some(UncaughtDateError) <==> ParseDateArg(date).None?
    ensures e == Some(UnknownUser) <==> ParseDateArg(date).Some? && !Known(users, userId)
    ensures e == Some(UnknownProfessional) <==>
      ParseDateArg(date).Some? && Known(users, userId) && !Known(pros, pid)
    ensures e == Some(SlotUnavailable) <==>
      ParseDateArg(date).Some? && Known(users, userId) && Known(pros, pid)
      && !Offered(slots, pid.value, ParseDateArg(date).value, time)
    ensures e == Some(AlreadyBooked) <==>
      ParseDateArg(date).Some? && Known(users, userId) && Known(pros, pid)
      && Offered(slots, pid.value, ParseDateArg(date).value, time)
      && IsBooked(rs, Key(pid.value, ParseDateArg(date).value, time.value))
  {
    match ParseDateArg(date)
    case None => Some(UncaughtDateError)
    case Some(d) =>
      if !Known(users, userId) then Some(UnknownUser)
      else if !Known(pros, pid) then Some(UnknownProfessional)
      else if !Offered(slots, pid.value, d, time) then Some(SlotUnavailable)
      else if IsBooked(rs, Key(pid.value, d, time.value)) then Some(AlreadyBooked)
      else None
  }

  /** The slot table's invariant: ids below the next id and unique, real
      dates, and no (professional, date, time) triple offered twice. */
  ghost predicate SlotTable(slots: seq<Slot>, next: int) {
    && 1 <= next
    && (forall i :: 0 <= i < |slots| ==> 1 <= slots[i].id < next)
    && Queries.SlotDatesValid(slots)
    && UniqueBy(slots, SlotId) && UniqueBy(slots, SlotKey)
  }

  /** The reservation table's invariant: ids below the next id and unique,
      real dates. */
  ghost predicate ReservationTable(rs: seq<Reservation>, next: int) {
    && 1 <= next
    && (forall i :: 0 <= i < |rs| ==> 1 <= rs[i].id < next)
    && Queries.ReservationDatesValid(rs)
    && UniqueBy(rs, ReservationId)
  }

  /** Appending a slot with the next id, a real date and a triple not yet
      offered keeps the slot table's invariant. */
  lemma SlotTableAppend(slots: seq<Slot>, next: int, s: Slot)
    requires SlotTable(slots, next)
    requires s.id == next && ValidDate(s.date) && !HasSlot(slots, SlotKey(s))
    ensures SlotTable(slots + [s], next + 1)
  {
    forall y | y in slots ensures SlotId(y) != SlotId(s) && SlotKey(y) != SlotKey(s) {
      var i :| 0 <= i < |slots| && slots[i] == y;
    }
    UniqueByAppend(slots, s, SlotId);
    UniqueByAppend(slots, s, SlotKey);
  }

  /** Removing a slot keeps the invariant, and the slots left are exactly the
      others. */
  lemma SlotTableRemove(slots: seq<Slot>, next: int, i: nat)
    requires SlotTable(slots, next) && i < |slots|
    ensures SlotTable(RemoveAt(slots, i), next)
    ensures forall s :: s in RemoveAt(slots, i) <==> s in slots && s.id != slots[i].id
  {
    RemoveAtUnique(slots, i, SlotKey);
    RemoveAtUnique(slots, i, SlotId);
  }

  /** Appending a reservation with the next id and a real date keeps the
      reservation table's invariant; when its triple is not booked, triples
      stay unique if they were. */
  lemma ReservationTableAppend(rs: seq<Reservation>, next: int, x: Reservation)
    requires ReservationTable(rs, next)
    requires x.id == next && ValidDate(x.date)
    ensures ReservationTable(rs + [x], next + 1)
    ensures UniqueBy(rs, ReservationKey) && !IsBooked(rs, ReservationKey(x)) ==> UniqueBy(rs + [x], ReservationKey)
  {
    forall y | y in rs ensures ReservationId(y) != ReservationId(x) {
      var i :| 0 <= i < |rs| && rs[i] == y;
    }
    UniqueByAppend(rs, x, ReservationId);
    if UniqueBy(rs, ReservationKey) && !IsBooked(rs, ReservationKey(x)) {
      AppendUnbookedKeepsUnique(rs, x);
    }
  }

  /** Removing a reservation keeps the invariant, and the reservations left
      are exactly the others. */
  lemma ReservationTableRemove(rs: seq<Reservation>, next: int, i: nat)
    requires ReservationTable(rs, next) && i < |rs|
    ensures ReservationTable(RemoveAt(rs, i), next)
    ensures forall x :: x in RemoveAt(rs, i) <==> x in rs && x.id != rs[i].id
  {
    RemoveAtUnique(rs, i, ReservationId);
  }

  /** Replacing a reservation by one with the same id and a real date keeps
      the invariant. */
  lemma ReservationTableUpdate(rs: seq<Reservation>, next: int, i: nat, x: Reservation)
    requires ReservationTable(rs, next) && i < |rs|
    requires x.id == rs[i].id && ValidDate(x.date)
    ensures ReservationTable(rs[i := x], next)
  {
    UpdateUnique(rs, i, x, ReservationId);
  }

  /** Keeping only some reservations keeps the invariant. */
  lemma ReservationTableFilter(rs: seq<Reservation>, next: int, keep: Reservation -> bool)
    requires ReservationTable(rs, next)
    ensures ReservationTable(Filter(rs, keep), next)
  {
    var kept := Filter(rs, keep);
    FilterUnique(rs, keep, ReservationId);
    forall i | 0 <= i < |kept| ensures 1 <= kept[i].id < next && ValidDate(kept[i].date) {
      assert kept[i] in rs;
    }
  }

  /** One reservation in a user's list, with the professional's name. */
  datatype UserReservationEntry = UserReservationEntry(
    id: int, data: string, orario: string, stato: string, professionalName: string)

  /** A reservation as a user's list shows it: its date as text, and the
      professional's name, or "Non disponibile" when the professional is gone. */
  function Entry(res: Reservation, pros: map<int, Professional>): (e: UserReservationEntry)
    requires ValidDate(res.date)
    ensures e.id == res.id && e.orario == res.time && e.stato == res.stato
    ensures |e.data| == 10
    ensures res.professionalId in pros ==> e.professionalName == pros[res.professionalId].nome
    ensures res.professionalId !in pros ==> e.professionalName == UnknownProfessionalName
  {
    UserReservationEntry(res.id, FormatDate(res.date), res.time, res.stato,
                         if res.professionalId in pros then pros[res.professionalId].nome else UnknownProfessionalName)
  }

  /** An entry's date text reads back as the reservation's date. */
  lemma EntryDateReadsBack(res: Reservation, pros: map<int, Professional>)
    requires ValidDate(res.date)
    ensures ParseDate(Entry(res, pros).data) == Some(res.date)
  {
    ParseFormat(res.date);
  }

  /** An entry's date text equals the text form of a date when and only when
      that is the reservation's date. */
  lemma EntryDateMatches(res: Reservation, pros: map<int, Professional>, d: Date)
    requires ValidDate(res.date) && ValidDate(d)
    ensures Entry(res, pros).data == FormatDate(d) <==> res.date == d
  {
    if Entry(res, pros).data == FormatDate(d) {
      FormatInjective(res.date, d);
    }
  }

  /** The list entries of some reservations, built one at a time in their
      order. */
  method Entries(rs: seq<Reservation>, pros: map<int, Professional>) returns (out: seq<UserReservationEntry>)
    requires Queries.ReservationDatesValid(rs)
    ensures |out| == |rs|
    ensures forall k :: 0 <= k < |rs| ==> out[k] == Entry(rs[k], pros)
  {
    out := [];
    var i := 0;
    while i < |rs|
      invariant 0 <= i <= |rs|
      invariant |out| == i
      invariant forall k :: 0 <= k < i ==> out[k] == Entry(rs[k], pros)
    {
      out := out + [Entry(rs[i], pros)];
      i := i + 1;
    }
  }

  /** A user's reservations, or the answer that there are none. */
  datatype UserReservationsReply = NoneFound | Found(entries: seq<UserReservationEntry>)

  class Store {
    var users: map<int, User>
    var professionals: map<int, Professional>
    var slots: seq<Slot>
    var reservations: seq<Reservation>
    /** The id the next row of each table gets. */
    var nextUserId: int
    var nextProfessionalId: int
    var nextSlotId: int
    var nextReservationId: int

    /** What every handler keeps: ids are unique and below the next id of
        their table, stored dates are real dates, e-mail addresses and fiscal
        codes belong to one user each, a (name, specialisation) pair to one
        professional, and a (professional, date, time) triple to one slot. */
    ghost predicate Valid()
      reads this
    {
      UsersValid() && ProfessionalsValid() && SlotsValid() && ReservationsValid()
    }

    ghost predicate UsersValid()
      reads this`users, this`nextUserId
    {
      && 1 <= nextUserId
      && (forall id :: id in users ==> 1 <= id < nextUserId && ValidDate(users[id].dataNascita))
      && (forall a, b :: a in users && b in users && a != b ==>
            users[a].email != users[b].email && users[a].codiceFiscale != users[b].codiceFiscale)
    }

    ghost predicate ProfessionalsValid()
      reads this`professionals, this`nextProfessionalId
    {
      && 1 <= nextProfessionalId
      && (forall id :: id in professionals ==> 1 <= id < nextProfessionalId)
      && (forall a, b :: a in professionals && b in professionals && a != b ==>
            (professionals[a].nome, professionals[a].specializzazione)
            != (professionals[b].nome, professionals[b].specializzazione))
    }

    ghost predicate SlotsValid()
      reads this`slots, this`nextSlotId
    {
      SlotTable(slots, nextSlotId)
    }

    ghost predicate ReservationsValid()
      reads this`reservations, this`nextReservationId
    {
      ReservationTable(reservations, nextReservationId)
    }

    /** An empty database. */
    constructor ()
      ensures Valid()
      ensures users == map[] && professionals == map[] && slots == [] && reservations == []
      ensures nextUserId == 1 && nextProfessionalId == 1 && nextSlotId == 1 && nextReservationId == 1
    {
      users, professionals, slots, reservations := map[], map[], [], [];
      nextUserId, nextProfessionalId, nextSlotId, nextReservationId := 1, 1, 1, 1;
    }

    // -------------------------------------------------------------------
    // Users and professionals

    /** Register a client: every field present, matching passwords, an unused
        e-mail address and fiscal code, then a birth date strptime accepts.
        The new user's role is always "cliente". */
    method Register(f: Registration, passwordHash: string) returns (r: Result<int, Error>)
      requires Valid()
      modifies this
      ensures Valid()
      ensures !Complete(f) ==> r == Failure(MissingFields)
      ensures Complete(f) && f.password != f.confermaPassword ==> r == Failure(PasswordMismatch)
      ensures Complete(f) && f.password == f.confermaPassword && EmailTaken(old(users), f.email.value)
              ==> r == Failure(EmailInUse)
      ensures Complete(f) && f.password == f.confermaPassword && !EmailTaken(old(users), f.email.value)
              && FiscalCodeTaken(old(users), f.codiceFiscale.value)
              ==> r == Failure(FiscalCodeInUse)
      ensures Complete(f) && f.password == f.confermaPassword && !EmailTaken(old(users), f.email.value)
              && !FiscalCodeTaken(old(users), f.codiceFiscale.value) && ParseDate(f.dataNascita.value).None?
              ==> r == Failure(UncaughtDateError)
      ensures r.Success? <==> (Complete(f) && f.password == f.confermaPassword && !EmailTaken(old(users), f.email.value)
                               && !FiscalCodeTaken(old(users), f.codiceFiscale.value) && ParseDate(f.dataNascita.value).Some?)
      ensures r.Failure? ==> unchanged(this)
      ensures r.Success? ==>
        && Complete(f) && ParseDate(f.dataNascita.value).Some?
        && r.value == old(nextUserId) && r.value !in old(users)
        && users == old(users)[r.value := User(
             f.nome.value, f.cognome.value, ParseDate(f.dataNascita.value).value, f.sessoBiologico.value,
             f.nazioneNascita.value, f.provinciaNascita.value, f.comuneNascita.value,
             f.codiceFiscale.value, f.email.value, f.cellulare.value, passwordHash, DefaultRole)]
        && nextUserId == old(nextUserId) + 1
        && professionals == old(professionals) && slots == old(slots) && reservations == old(reservations)
        && nextProfessionalId == old(nextProfessionalId) && nextSlotId == old(nextSlotId)
        && nextReservationId == old(nextReservationId)
    {
      if !Complete(f) {
        return Failure(MissingFields);
      }
      if f.password != f.confermaPassword {
        return Failure(PasswordMismatch);
      }
      if EmailTaken(users, f.email.value) {
        return Failure(EmailInUse);
      }
      if FiscalCodeTaken(users, f.codiceFiscale.value) {
        return Failure(FiscalCodeInUse);
      }
      var birth := ParseDate(f.dataNascita.value);
      if birth.None? {
        return Failure(UncaughtDateError);
      }
      var id := nextUserId;
      users := users[id := User(
        f.nome.value, f.cognome.value, birth.value, f.sessoBiologico.value,
        f.nazioneNascita.value, f.provinciaNascita.value, f.comuneNascita.value,
        f.codiceFiscale.value, f.email.value, f.cellulare.value, passwordHash, DefaultRole)];
      nextUserId := nextUserId + 1;
      r := Success(id);
    }

    /** Change a user's role: a missing or empty role is refused before the
        user is looked up. */
    method UpdateRole(userId: int, role: Option<string>) returns (r: Outcome<Error>)
      requires Valid()
      modifies this
      ensures Valid()
      ensures Blank(role) ==> r == Fail(RoleRequired)
      ensures !Blank(role) && userId !in old(users) ==> r == Fail(UserNotFound)
      ensures r.Pass? <==> !Blank(role) && userId in old(users)
      ensures r.Fail? ==> unchanged(this)
      ensures r.Pass? ==>
        && !Blank(role) && userId in old(users)
        && users == old(users)[userId := old(users)[userId].(role := role.value)]
        && professionals == old(professionals) && slots == old(slots) && reservations == old(reservations)
        && nextUserId == old(nextUserId) && nextProfessionalId == old(nextProfessionalId)
        && nextSlotId == old(nextSlotId) && nextReservationId == old(nextReservationId)
    {
      if Blank(role) {
        return Fail(RoleRequired);
      }
      if userId !in users {
        return Fail(UserNotFound);
      }
      users := users[userId := users[userId].(role := role.value)];
      r := Pass;
    }

    /** Delete a user and, by the cascade on the user's reservations, every
        reservation that names that user; the order of the others is kept. */
    method DeleteUser(id: int) returns (r: Outcome<Error>)
      requires Valid()
      modifies this
      ensures Valid()
      ensures r == Fail(UserNotFound) <==> id !in old(users)
      ensures r.Pass? <==> id in old(users)
      ensures r.Fail? ==> unchanged(this)
      ensures r.Pass? ==>
        && users == old(users) - {id}
        && reservations == Filter(old(reservations), NotOfUser(id))
        && (forall x :: x in reservations <==> x in old(reservations) && x.userId != id)
        && professionals == old(professionals) && slots == old(slots)
        && nextUserId == old(nextUserId) && nextProfessionalId == old(nextProfessionalId)
        && nextSlotId == old(nextSlotId) && nextReservationId == old(nextReservationId)
    {
      if id !in users {
        return Fail(UserNotFound);
      }
      ReservationTableFilter(reservations, nextReservationId, NotOfUser(id));
      users := users - {id};
      reservations := Filter(reservations, NotOfUser(id));
      r := Pass;
    }

    /** Add a professional unless one with the same name and specialisation
        exists. An absent name or specialisation matches no stored row, and
        then the insert itself fails on the required column. */
    method AddProfessional(nome: Option<string>, spec: Option<string>, imageUrl: Option<string>)
      returns (r: Outcome<Error>)
      requires Valid()
      modifies this
      ensures Valid()
      ensures nome.Some? && spec.Some? && ProfessionalListed(old(professionals), nome.value, spec.value)
              ==> r == Fail(ProfessionalExists)
      ensures (nome.None? || spec.None?) ==> r == Fail(NotNullViolation)
      ensures r.Pass? <==> nome.Some? && spec.Some? && !ProfessionalListed(old(professionals), nome.value, spec.value)
      ensures r.Fail? ==> unchanged(this)
      ensures r.Pass? ==>
        && nome.Some? && spec.Some? && !ProfessionalListed(old(professionals), nome.value, spec.value)
        && old(nextProfessionalId) !in old(professionals)
        && professionals == old(professionals)[old(nextProfessionalId) := Professional(nome.value, spec.value, imageUrl)]
        && nextProfessionalId == old(nextProfessionalId) + 1
        && users == old(users) && slots == old(slots) && reservations == old(reservations)
        && nextUserId == old(nextUserId) && nextSlotId == old(nextSlotId)
        && nextReservationId == old(nextReservationId)
    {
      if nome.Some? && spec.Some? && ProfessionalListed(professionals, nome.value, spec.value) {
        return Fail(ProfessionalExists);
      }
      if nome.None? || spec.None? {
        return Fail(NotNullViolation);
      }
      var id := nextProfessionalId;
      professionals := professionals[id := Professional(nome.value, spec.value, imageUrl)];
      nextProfessionalId := nextProfessionalId + 1;
      r := Pass;
    }

    // -------------------------------------------------------------------
    // Availability slots

    /** Offer a new date and time for a professional: both must be given, the
        date must be YYYY-MM-DD, and the triple must not be offered already.
        Whether the professional exists is not checked. */
    method AddSlot(professionalId: int, date: Option<string>, time: Option<string>)
      returns (r: Result<Slot, Error>)
      requires Valid()
      modifies this
      ensures Valid()
      ensures Blank(date) || Blank(time) ==> r == Failure(DateAndTimeRequired)
      ensures !Blank(date) && !Blank(time) && ParseDate(date.value).None? ==> r == Failure(BadDateFormat)
      ensures !Blank(date) && !Blank(time) && ParseDate(date.value).Some?
              && HasSlot(old(slots), Key(professionalId, ParseDate(date.value).value, time.value))
              ==> r == Failure(SlotExists)
      ensures r.Success? <==> (!Blank(date) && !Blank(time) && ParseDate(date.value).Some?
                               && !HasSlot(old(slots), Key(professionalId, ParseDate(date.value).value, time.value)))
      ensures r.Failure? ==> unchanged(this)
      ensures r.Success? ==>
        && !Blank(date) && !Blank(time) && ParseDate(date.value).Some?
        && !HasSlot(old(slots), Key(professionalId, ParseDate(date.value).value, time.value))
        && r.value == Slot(old(nextSlotId), professionalId, ParseDate(date.value).value, time.value)
        && slots == old(slots) + [r.value]
        && nextSlotId == old(nextSlotId) + 1
        && users == old(users) && professionals == old(professionals) && reservations == old(reservations)
        && nextUserId == old(nextUserId) && nextProfessionalId == old(nextProfessionalId)
        && nextReservationId == old(nextReservationId)
    {
      if Blank(date) || Blank(time) {
        return Failure(DateAndTimeRequired);
      }
      var d := ParseDate(date.value);
      if d.None? {
        return Failure(BadDateFormat);
      }
      var key := Key(professionalId, d.value, time.value);
      if HasSlot(slots, key) {
        return Failure(SlotExists);
      }
      var s := Slot(nextSlotId, professionalId, d.value, time.value);
      SlotTableAppend(slots, nextSlotId, s);
      slots := slots + [s];
      nextSlotId := nextSlotId + 1;
      r := Success(s);
    }

    /** Revoke a slot by id. Reservations for the same triple are left alone. */
    method RevokeSlot(id: int) returns (r: Outcome<Error>)
      requires Valid()
      modifies this
      ensures Valid()
      ensures r == Fail(SlotNotFound) <==> FindSlot(old(slots), id).None?
      ensures r.Pass? <==> FindSlot(old(slots), id).Some?
      ensures r.Fail? ==> unchanged(this)
      ensures r.Pass? ==>
        && FindSlot(old(slots), id).Some?
        && slots == RemoveAt(old(slots), FindSlot(old(slots), id).value)
        && (forall s :: s in slots <==> s in old(slots) && s.id != id)
        && reservations == old(reservations)
        && users == old(users) && professionals == old(professionals)
        && nextUserId == old(nextUserId) && nextProfessionalId == old(nextProfessionalId)
        && nextSlotId == old(nextSlotId) && nextReservationId == old(nextReservationId)
    {
      var found := FindSlot(slots, id);
      if found.None? {
        return Fail(SlotNotFound);
      }
      var i := found.value;
      SlotTableRemove(slots, nextSlotId, i);
      slots := RemoveAt(slots, i);
      r := Pass;
    }

    // -------------------------------------------------------------------
    // Reservations

    /** Book a slot. The date is parsed first and a bad one raises; then the
        user, the professional, the slot and the absence of a reservation for
        the same triple are checked in that order. The new reservation has
        the given status, or "in attesa" when none is given. */
    method CreateReservation(userId: Option<int>, professionalId: Option<int>, date: Option<string>,
                             time: Option<string>, stato: Option<string>)
      returns (r: Result<int, Error>)
      requires Valid()
      modifies this
      ensures Valid()
      ensures r.Failure? <==> CreateRefusal(old(users), old(professionals), old(slots), old(reservations),
                                            userId, professionalId, date, time).Some?
      ensures r.Failure? ==> r.error == CreateRefusal(old(users), old(professionals), old(slots), old(reservations),
                                                      userId, professionalId, date, time).value
      ensures r.Failure? ==> unchanged(this)
      ensures r.Success? ==>
        && ParseDateArg(date).Some? && Known(old(users), userId) && Known(old(professionals), professionalId)
        && Offered(old(slots), professionalId.value, ParseDateArg(date).value, time)
        && !IsBooked(old(reservations), Key(professionalId.value, ParseDateArg(date).value, time.value))
        && r.value == old(nextReservationId)
        && reservations == old(reservations) + [Reservation(r.value, userId.value, professionalId.value,
                                                 ParseDateArg(date).value, time.value, stato.GetOr(DefaultStato))]
        && nextReservationId == old(nextReservationId) + 1
        && slots == old(slots) && users == old(users) && professionals == old(professionals)
        && nextUserId == old(nextUserId) && nextProfessionalId == old(nextProfessionalId)
        && nextSlotId == old(nextSlotId)
      ensures r.Success? && UniqueBy(old(reservations), ReservationKey) ==> UniqueBy(reservations, ReservationKey)
    {
      var refusal := CreateRefusal(users, professionals, slots, reservations, userId, professionalId, date, time);
      if refusal.Some? {
        return Failure(refusal.value);
      }
      var d := ParseDateArg(date);
      var x := Reservation(nextReservationId, userId.value, professionalId.value, d.value, time.value,
                           stato.GetOr(DefaultStato));
      ReservationTableAppend(reservations, nextReservationId, x);
      reservations := reservations + [x];
      nextReservationId := nextReservationId + 1;
      r := Success(x.id);
    }

    /** Update a reservation: given fields replace the stored ones, absent
        ones are kept, the professional never changes. When no date is given
        the stored one is formatted and parsed again. No slot and no conflict
        is checked. */
    method UpdateReservation(id: int, userId: Option<int>, date: Option<string>, time: Option<string>,
                             stato: Option<string>)
      returns (r: Outcome<Error>)
      requires Valid()
      modifies this
      ensures Valid()
      ensures FindReservation(old(reservations), id).None? ==> r == Fail(ReservationNotFound)
      ensures FindReservation(old(reservations), id).Some? && date.Some? && ParseDate(date.value).None?
              ==> r == Fail(UncaughtDateError)
      ensures r.Pass? <==> FindReservation(old(reservations), id).Some? && (date.Some? ==> ParseDate(date.value).Some?)
      ensures r.Fail? ==> unchanged(this)
      ensures r.Pass? ==>
        var i := FindReservation(old(reservations), id).value;
        var was := old(reservations)[i];
        && FindReservation(old(reservations), id).Some?
        && (date.Some? ==> ParseDate(date.value).Some?)
        && reservations == old(reservations)[i := Reservation(
             id, userId.GetOr(was.userId), was.professionalId,
             if date.Some? then ParseDate(date.value).value else was.date,
             time.GetOr(was.time), stato.GetOr(was.stato))]
        && slots == old(slots) && users == old(users) && professionals == old(professionals)
        && nextUserId == old(nextUserId) && nextProfessionalId == old(nextProfessionalId)
        && nextSlotId == old(nextSlotId) && nextReservationId == old(nextReservationId)
    {
      var found := FindReservation(reservations, id);
      if found.None? {
        return Fail(ReservationNotFound);
      }
      var i := found.value;
      var was := reservations[i];
      var d := ReparseDate(date, was.date);
      if d.None? {
        return Fail(UncaughtDateError);
      }
      var now := Reservation(was.id, userId.GetOr(was.userId), was.professionalId, d.value,
                             time.GetOr(was.time), stato.GetOr(was.stato));
      ReservationTableUpdate(reservations, nextReservationId, i, now);
      reservations := reservations[i := now];
      r := Pass;
    }

    /** Delete a reservation by id; the slot table is not touched. */
    method DeleteReservation(id: int) returns (r: Outcome<Error>)
      requires Valid()
      modifies this
      ensures Valid()
      ensures r == Fail(ReservationNotFound) <==> FindReservation(old(reservations), id).None?
      ensures r.Pass? <==> FindReservation(old(reservations), id).Some?
      ensures r.Fail? ==> unchanged(this)
      ensures r.Pass? ==>
        && FindReservation(old(reservations), id).Some?
        && reservations == RemoveAt(old(reservations), FindReservation(old(reservations), id).value)
        && (forall x :: x in reservations <==> x in old(reservations) && x.id != id)
        && slots == old(slots) && users == old(users) && professionals == old(professionals)
        && nextUserId == old(nextUserId) && nextProfessionalId == old(nextProfessionalId)
        && nextSlotId == old(nextSlotId) && nextReservationId == old(nextReservationId)
    {
      var found := FindReservation(reservations, id);
      if found.None? {
        return Fail(ReservationNotFound);
      }
      ReservationTableRemove(reservations, nextReservationId, found.value);
      reservations := RemoveAt(reservations, found.value);
      r := Pass;
    }

    /** A user's reservations in storage order, each with its professional's
        name or "Non disponibile" when that professional is gone; or the
        none-found answer when the user has none. */
    method UserReservations(userId: int) returns (reply: UserReservationsReply)
      requires Valid()
      ensures Filter(reservations, OfUser(userId)) == [] <==> reply == NoneFound
      ensures reply.Found? ==>
        var mine := Filter(reservations, OfUser(userId));
        && |reply.entries| == |mine|
        && forall k :: 0 <= k < |mine| ==> ValidDate(mine[k].date) && reply.entries[k] == Entry(mine[k], professionals)
    {
      var mine := Filter(reservations, OfUser(userId));
      if mine == [] {
        return NoneFound;
      }
      ReservationTableFilter(reservations, nextReservationId, OfUser(userId));
      var entries := Entries(mine, professionals);
      reply := Found(entries);
    }
  }
}

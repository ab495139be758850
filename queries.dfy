/** The read-only handlers: projections of the slot and reservation tables
    (single reservation, all reservations, open dates of a professional,
    times offered on one date). */
module Queries {
  import opened Wrappers
  import opened Seqs
  import opened Dates
  import opened Tables

  /** A reservation as the read handlers show it: the professional is not part
      of the answer, the date is in its text form. */
  datatype ReservationView = ReservationView(id: int, userId: int, data: string, orario: string, stato: string)

  predicate ReservationDatesValid(rs: seq<Reservation>) {
    forall i :: 0 <= i < |rs| ==> ValidDate(rs[i].date)
  }

  predicate SlotDatesValid(slots: seq<Slot>) {
    forall i :: 0 <= i < |slots| ==> ValidDate(slots[i].date)
  }

  /** The answer for one reservation; its date text reads back as the stored date. */
  function View(r: Reservation): (v: ReservationView)
    requires ValidDate(r.date)
    ensures v.id == r.id && v.userId == r.userId && v.orario == r.time && v.stato == r.stato
    ensures ParseDate(v.data) == Some(r.date)
  {
    ParseFormat(r.date);
    ReservationView(r.id, r.userId, FormatDate(r.date), r.time, r.stato)
  }

  /** All reservations, in storage order. */
  function ListReservations(rs: seq<Reservation>): (r: seq<ReservationView>)
    requires ReservationDatesValid(rs)
    ensures |r| == |rs|
    ensures forall i :: 0 <= i < |rs| ==>
      && r[i].id == rs[i].id && r[i].userId == rs[i].userId && r[i].orario == rs[i].time
      && r[i].stato == rs[i].stato && ParseDate(r[i].data) == Some(rs[i].date)
  {
    seq(|rs|, i requires 0 <= i < |rs| && ReservationDatesValid(rs) => View(rs[i]))
  }

  /** The answer's date text is the text form of exactly one date, its own:
      it equals the form of a date when and only when that is the stored date,
      so it can be compared with the texts the open-dates listing gives. */
  lemma ViewDateMatches(r: Reservation, d: Date)
    requires ValidDate(r.date) && ValidDate(d)
    ensures View(r).data == FormatDate(d) <==> r.date == d
  {
    if View(r).data == FormatDate(d) {
      FormatInjective(r.date, d);
    }
  }

  /** Each date text in the listing of all reservations is the text form of
      that reservation's date and of no other date. */
  lemma ListReservationsDateMatches(rs: seq<Reservation>, i: int, d: Date)
    requires ReservationDatesValid(rs) && 0 <= i < |rs| && ValidDate(d)
    ensures ListReservations(rs)[i].data == FormatDate(d) <==> rs[i].date == d
  {
    assert ListReservations(rs)[i] == View(rs[i]);
    ViewDateMatches(rs[i], d);
  }

  /** One reservation by id, or not-found. */
  function GetReservation(rs: seq<Reservation>, id: int): (r: Result<ReservationView, Error>)
    requires ReservationDatesValid(rs)
    ensures r.Failure? <==> forall i :: 0 <= i < |rs| ==> rs[i].id != id
    ensures r.Failure? ==> r.error == ReservationNotFound
    ensures r.Success? ==> exists i :: 0 <= i < |rs| && rs[i].id == id && r.value == View(rs[i])
  {
    match FindReservation(rs, id)
    case None => Failure(ReservationNotFound)
    case Some(i) => Success(View(rs[i]))
  }

  // ---------------------------------------------------------------------
  // Open dates of a professional

  /** A slot of professional pid on or after today. */
  predicate IsOpen(s: Slot, pid: int, today: Date) {
    s.professionalId == pid && DateLe(today, s.date)
  }

  /** The distinct dates of the open slots of pid, each once, in order of
      first appearance (the query selects DISTINCT without ORDER BY, so no
      order is promised). */
  function OpenDates(slots: seq<Slot>, pid: int, today: Date): (r: seq<Date>)
    ensures forall d :: d in r <==> exists i :: 0 <= i < |slots| && IsOpen(slots[i], pid, today) && slots[i].date == d
    ensures forall i, j :: 0 <= i < j < |r| ==> r[i] != r[j]
  {
    if slots == [] then []
    else
      var init := slots[..|slots| - 1];
      var last := slots[|slots| - 1];
      var prev := OpenDates(init, pid, today);
      assert forall i :: 0 <= i < |init| ==> init[i] == slots[i];
      if IsOpen(last, pid, today) && last.date !in prev then prev + [last.date] else prev
  }

  /** The answer of the available-dates handler: the text forms of the open
      dates, none twice. */
  function AvailableDates(slots: seq<Slot>, pid: int, today: Date): (r: seq<string>)
    requires SlotDatesValid(slots)
    ensures forall t :: t in r <==> exists i :: 0 <= i < |slots| && IsOpen(slots[i], pid, today) && FormatDate(slots[i].date) == t
    ensures forall i, j :: 0 <= i < j < |r| ==> r[i] != r[j]
  {
    var ds := OpenDates(slots, pid, today);
    assert forall k :: 0 <= k < |ds| ==> ValidDate(ds[k]) by {
      forall k | 0 <= k < |ds| ensures ValidDate(ds[k]) {
        assert ds[k] in ds;
      }
    }
    var r := seq(|ds|, k requires 0 <= k < |ds| && ValidDate(ds[k]) => FormatDate(ds[k]));
    assert forall i, j :: 0 <= i < j < |r| ==> r[i] != r[j] by {
      forall i, j | 0 <= i < j < |r| ensures r[i] != r[j] {
        if r[i] == r[j] {
          FormatInjective(ds[i], ds[j]);
        }
      }
    }
    assert forall t :: t in r ==> exists i :: 0 <= i < |slots| && IsOpen(slots[i], pid, today) && FormatDate(slots[i].date) == t by {
      forall t | t in r ensures exists i :: 0 <= i < |slots| && IsOpen(slots[i], pid, today) && FormatDate(slots[i].date) == t {
        var k :| 0 <= k < |r| && r[k] == t;
        assert ds[k] in ds;
      }
    }
    assert forall i :: 0 <= i < |slots| && IsOpen(slots[i], pid, today) ==> FormatDate(slots[i].date) in r by {
      forall i | 0 <= i < |slots| && IsOpen(slots[i], pid, today) ensures FormatDate(slots[i].date) in r {
        var d := slots[i].date;
        assert d in ds;
        var k :| 0 <= k < |ds| && ds[k] == d;
        assert r[k] == FormatDate(d);
      }
    }
    r
  }

  // ---------------------------------------------------------------------
  // Times offered on one date

  function SlotOn(pid: int, d: Date): Slot -> bool {
    (s: Slot) => s.professionalId == pid && s.date == d
  }

  function SlotTime(s: Slot): string { s.time }

  /** The times of the slots of pid on date d, in storage order. */
  function TimesOn(slots: seq<Slot>, pid: int, d: Date): (r: seq<string>)
    ensures forall t :: t in r <==> exists i :: 0 <= i < |slots| && SlotKey(slots[i]) == Key(pid, d, t)
  {
    var chosen := Filter(slots, SlotOn(pid, d));
    var r := Map(chosen, SlotTime);
    assert forall t :: t in r ==> exists i :: 0 <= i < |slots| && SlotKey(slots[i]) == Key(pid, d, t) by {
      forall t | t in r ensures exists i :: 0 <= i < |slots| && SlotKey(slots[i]) == Key(pid, d, t) {
        var k :| 0 <= k < |r| && r[k] == t;
        assert chosen[k] in chosen;
      }
    }
    assert forall i :: 0 <= i < |slots| && slots[i].professionalId == pid && slots[i].date == d ==> slots[i].time in r by {
      forall i | 0 <= i < |slots| && slots[i].professionalId == pid && slots[i].date == d ensures slots[i].time in r {
        assert slots[i] in chosen;
        var k :| 0 <= k < |chosen| && chosen[k] == slots[i];
        assert r[k] == slots[i].time;
      }
    }
    r
  }

  /** The answer of the available-times handler: a missing date, then a date
      that is not YYYY-MM-DD, are errors; otherwise the times on that date. */
  function AvailableTimes(slots: seq<Slot>, pid: int, date: Option<string>): (r: Result<seq<string>, Error>)
    ensures r == Failure(DateRequired) <==> date.None?
    ensures r == Failure(BadDateFormat) <==> date.Some? && ParseDate(date.value).None?
    ensures r.Success? <==> date.Some? && ParseDate(date.value).Some?
    ensures r.Success? ==> date.Some? && ParseDate(date.value).Some?
                           && r.value == TimesOn(slots, pid, ParseDate(date.value).value)
  {
    match date
    case None => Failure(DateRequired)
    case Some(text) =>
      match ParseDate(text)
      case None => Failure(BadDateFormat)
      case Some(d) => Success(TimesOn(slots, pid, d))
  }

  /** Times keep storage order: those of earlier slots come first. */
  lemma TimesInStorageOrder(a: seq<Slot>, b: seq<Slot>, pid: int, d: Date)
    ensures TimesOn(a + b, pid, d) == TimesOn(a, pid, d) + TimesOn(b, pid, d)
  {
    FilterAppend(a, b, SlotOn(pid, d));
    var fa, fb := Filter(a, SlotOn(pid, d)), Filter(b, SlotOn(pid, d));
    MapAppend(fa, fb, SlotTime);
  }

  /** Appending one slot adds its time at the end of the times for its own
      professional and date, and changes no other list. */
  lemma TimesAfterAppend(slots: seq<Slot>, s: Slot, pid: int, d: Date)
    ensures TimesOn(slots + [s], pid, d)
         == TimesOn(slots, pid, d) + (if s.professionalId == pid && s.date == d then [s.time] else [])
  {
    TimesInStorageOrder(slots, [s], pid, d);
    assert [s][1..] == [];
  }

  /** When slot triples are unique, no time is offered twice on a date. */
  lemma TimesDistinct(slots: seq<Slot>, pid: int, d: Date)
    requires UniqueBy(slots, SlotKey)
    ensures forall i, j :: 0 <= i < j < |TimesOn(slots, pid, d)| ==> TimesOn(slots, pid, d)[i] != TimesOn(slots, pid, d)[j]
  {
    var chosen := Filter(slots, SlotOn(pid, d));
    FilterUnique(slots, SlotOn(pid, d), SlotKey);
    forall i, j | 0 <= i < j < |chosen| ensures chosen[i].time != chosen[j].time {
      assert chosen[i] in chosen && chosen[j] in chosen;
      assert SlotKey(chosen[i]) != SlotKey(chosen[j]);
    }
  }
}

# A verified model of a booking service and its fiscal-code generator

This project models two parts of a small Flask service, BE. In it, clients
book visits with professionals: doctors, nutritionists and psychologists.

- **The booking state machine (`app.py`).** The state is four tables:
  - users;
  - professionals;
  - availability slots ("disponibilità": professional, date, time);
  - reservations.

  The HTTP handlers that change these tables become the methods of one class,
  `Booking.Store`:
  - registration, role update, user deletion (with the cascade of the user's
    reservations) and adding a professional;
  - adding and revoking a slot;
  - creating, updating and deleting a reservation.

  The list of a user's reservations, which the source builds in a loop, is a
  `Store` method too; it reads the tables and changes nothing.

  Each handler is one atomic step. It makes its checks in the order the
  handler makes them. It then either reports the first failing check and
  leaves every table as it was, or makes its change. Every method keeps the
  class invariant `Valid()`:
  - ids are unique and below the table's next id;
  - stored dates are real dates;
  - an e-mail address or a fiscal code belongs to one user;
  - a (name, specialisation) pair belongs to one professional;
  - a (professional, date, time) triple belongs to one slot.

  The read-only handlers, which filter the tables and then build a list
  (`Queries`), are functions:
  - all reservations;
  - one reservation;
  - the open dates of a professional;
  - the times offered on one date.
- **The codice fiscale generator (`cf.py`).** This part is pure functions
  and lemmas (`CodiceFiscale`):
  - the three-letter surname and name codes;
  - the date-and-sex code;
  - the comune lookup;
  - the check letter, computed modulo 26.

Two modules are shared:
- **Dates** models `datetime.strptime(s, '%Y-%m-%d')`:
  - four digits of year;
  - a month field of one or two digits;
  - a day field of one or two digits, or a space and one digit;
  - the whole text consumed;
  - a day that exists in the calendar.

  It also models the `strftime` form of a date. It proves that formatting a
  date and parsing the text gives the date back. It also proves that the
  order of the text forms is the date order, so the database's `>= today`
  comparison on stored text is a date comparison.
- **Seqs** holds the generic filters and comprehensions.

`Scenario` drives one booking conversation through the contracts alone:
1. a slot is offered and its time listed;
2. the slot is booked, refused a second time, freed, and booked again;
3. an unknown professional and a day-first date are refused.

Three behaviours of the handlers worth knowing:
- the create handler parses the date before any other check, with no guard,
  so a bad date raises instead of being answered;
- the update handler checks neither the slot nor a conflicting reservation
  for the new triple;
- the available-dates query has no ORDER BY, so the dates come in no
  particular order.

Outside inputs are parameters:
- the date of "today";
- the password hash the registration stores.

## Model

| member | source | states |
|---|---|---|
| Dates.ParseDate | app.py:259 | a parsed date is a real calendar date, and the text it came from holds 8 to 10 characters, a dash after four digits, and those four digits denote its year |
| Dates.FormatDate | app.py:245 | the text form of a date is ten characters long |
| Dates.FormatFields | app.py:405 | the text form holds the year in four digits, a dash, the month in two digits, a dash, and the day in two digits |
| Dates.ParseFormat | app.py:463 | formatting a date in the model's four-digit-year form and parsing it again gives the same date; under that form an update without a date keeps the stored one (see Dates.FormatDate under Left out for years below 1000) |
| Dates.FormatInjective | app.py:405 | distinct dates have distinct text forms, so distinct open dates are listed as distinct strings |
| Dates.DateOrderIsTextOrder | app.py:399 | the date order holds exactly when the two text forms are equal or the first is byte-wise smaller, so the `>= today` filter on stored text is the date comparison |
| Tables.ParseDateArg | app.py:259 | both directions: an absent date fails, and a given date gives exactly the parse of its text (so it fails exactly when the text is malformed) |
| Tables.ReparseDate | app.py:463 | an absent date gives back the stored date; a given text gives its parse, which may fail |
| Tables.FindSlot | app.py:304-307 | the lookup finds the position of a slot with that id, or none exactly when no slot has that id |
| Tables.FindReservation | app.py:353-355 | the lookup finds the position of a reservation with that id, or none exactly when no reservation has that id |
| Tables.AppendUnbookedKeepsUnique | app.py:277-292 | appending a reservation whose triple nobody holds keeps reservation triples unique |
| Tables.UpdateMayDoubleBook | app.py:462-465 | a time change by the update handler can give two reservations the same triple, so triple uniqueness is not a table invariant |
| Queries.View | app.py:358-364 | the answer for one reservation keeps its id, user, time and status, and its date text reads back as the stored date |
| Queries.ViewDateMatches | app.py:361 | the answer's date text equals the text form of a date exactly when that is the stored date, so it matches the open-dates texts of the same date |
| Queries.ListReservations | app.py:242-245 | one answer per reservation in storage order, each with the reservation's id, user, time and status and a date text that reads back as its date |
| Queries.ListReservationsDateMatches | app.py:245 | each listed date text equals the text form of a date exactly when that is the listed reservation's date |
| Queries.GetReservation | app.py:351-364 | not-found exactly when no reservation has that id; otherwise the view of a reservation with that id |
| Queries.OpenDates | app.py:394-402 | a date is listed exactly when some slot of the professional on or after today has it; no date appears twice |
| Queries.AvailableDates | app.py:391-407 | a text is listed exactly when it is the form of an open slot's date; no text appears twice |
| Queries.TimesOn | app.py:521-529 | a time is listed exactly when some slot of that professional on that date has it |
| Queries.AvailableTimes | app.py:506-531 | a missing date, then a date that is not YYYY-MM-DD, are the two errors (each exactly then); success exactly for a present date that parses, with the times of the slots on that date |
| Queries.TimesInStorageOrder | app.py:521-529 | the times of two slot tables one after the other are the first table's times and then the second's: storage order is kept |
| Queries.TimesAfterAppend | app.py:437-439 | a new slot adds its time at the end of the list for its own professional and date and changes no other list |
| Queries.TimesDistinct | app.py:433-435 | while slot triples are unique, no time is listed twice for a date |
| Booking.CreateRefusal | app.py:259-280 | no refusal exactly when the date parses, the user and professional exist, the slot is offered and the triple is not booked; each error exactly when the checks before it pass and its own check fails, in the order date, user, professional, slot, booked |
| Booking.SlotTableAppend | app.py:433-439 | appending a slot with the next id, a real date and a triple not yet offered keeps ids and triples unique |
| Booking.SlotTableRemove | app.py:310 | removing a slot keeps the slot invariant, and what is left is exactly the slots with another id |
| Booking.ReservationTableAppend | app.py:283-292 | appending a reservation with the next id keeps the reservation invariant, and keeps triples unique when its triple was free |
| Booking.ReservationTableRemove | app.py:478 | removing a reservation keeps the invariant, and what is left is exactly the reservations with another id |
| Booking.ReservationTableUpdate | app.py:462-467 | replacing a reservation by one with the same id and a real date keeps the invariant |
| Booking.ReservationTableFilter | models.py:25 | keeping only some reservations, as the cascade does, keeps the invariant |
| Booking.Entry | app.py:493-500 | an entry keeps the reservation's id, time and status, has a ten-character date, and names the professional, or "Non disponibile" when the professional is gone |
| Booking.EntryDateReadsBack | app.py:496 | an entry's date text reads back as the reservation's date |
| Booking.EntryDateMatches | app.py:496 | an entry's date text equals the text form of a date exactly when that is the reservation's date |
| Booking.Entries | app.py:491-500 | the loop builds one entry per reservation, in order |
| Booking.Store.Register | app.py:88-123 | errors in the order missing field, password mismatch, e-mail in use, fiscal code in use, then a birth date strptime rejects; success exactly when all pass; on success one user with the next id and role "cliente" is added and nothing else changes; on failure nothing changes |
| Booking.Store.UpdateRole | app.py:144-155 | an absent or empty role is refused before the user lookup; success exactly for a known user with a role; only that user's role changes |
| Booking.Store.DeleteUser | app.py:198-205 | not-found exactly for an unknown id; otherwise the user is removed and, by the cascade, exactly the reservations naming that user, with the others kept in order |
| Booking.Store.AddProfessional | app.py:333-342 | a stored (name, specialisation) pair is refused; an absent name or specialisation fails at the insert; otherwise one professional is added with the next id |
| Booking.Store.AddSlot | app.py:421-439 | errors in the order date or time empty, date not YYYY-MM-DD, triple already offered; success exactly when all pass; exactly one slot is appended; the professional's existence is not checked |
| Booking.Store.RevokeSlot | app.py:301-313 | not-found exactly for an unknown id, changing nothing; otherwise exactly that slot is removed and every reservation is left as it was |
| Booking.Store.CreateReservation | app.py:251-294 | fails exactly with the first refusal of the ordered checks, changing nothing; otherwise exactly one reservation with the next id, the given fields and status "in attesa" by default is appended, slots unchanged and the triple offered; triples unique before stay unique |
| Booking.Store.UpdateReservation | app.py:453-468 | not-found for an unknown id; a given date that does not parse raises; otherwise given fields replace stored ones, absent ones are kept, the professional never changes, nothing else changes |
| Booking.Store.DeleteReservation | app.py:471-480 | not-found exactly for an unknown id; otherwise exactly that reservation is removed and the slots are untouched |
| Booking.Store.UserReservations | app.py:484-501 | the none-found answer exactly when the user has no reservation; otherwise one entry per reservation of the user, in storage order |
| Scenario.OneTimeOffered | app.py:521-531 | with one slot at 09:00 on a date, the times for that date are exactly ["09:00"] |
| CodiceFiscale.IsVowel | cf.py:3-5 | true exactly for a, e, i, o, u in either case |
| CodiceFiscale.Letters | cf.py:9 | the kept characters are exactly the letters of the text |
| CodiceFiscale.Upper | cf.py:13 | upper-casing is character by character and keeps the length |
| CodiceFiscale.ConsonantsThenVowels | cf.py:23 | consonants then the first two vowels, cut to three: upper-case letters, of length min(3, consonants + min(2, vowels)) |
| CodiceFiscale.ShortCode | cf.py:13 | the padded code is upper-case and one character longer than the letters it extends (which letters come first is stated by SurnameRule, NameRule, CfSurname and CfName) |
| CodiceFiscale.SurnameRule | cf.py:33-45 | the surname rule on upper-cased letters split into consonants and vowels: letters and "X" below three letters; else consonants then vowels cut to the stated length below three consonants; else the first three consonants |
| CodiceFiscale.NameRule | cf.py:11-27 | the name rule on the same parts: as the surname rule below three consonants, the three consonants at three, the first, third and fourth from four on |
| CodiceFiscale.CfSurname | cf.py:29-45 | below three letters, the upper-cased letters and "X"; below three consonants, the consonants followed by the vowels, cut to three, or to two when there is no consonant; otherwise the first three consonants; all upper-case letters |
| CodiceFiscale.CfName | cf.py:7-27 | the same first two rules; with exactly three consonants those three; with four or more, the first, third and fourth |
| CodiceFiscale.NameCodedAsSurname | cf.py:19-25 | with fewer than four consonants the name code is the surname code |
| CodiceFiscale.CodesHaveThreeLetters | cf.py:15-27 | three or more letters with a consonant give three-character codes |
| CodiceFiscale.PartsOfUpperLetters | cf.py:15-17 | the consonants and vowels are those of the upper-cased letters |
| CodiceFiscale.CodesDependOnLettersOnly | cf.py:9 | texts with the same upper-cased letters get the same surname and name codes |
| CodiceFiscale.CodesIgnoreNonLetters | cf.py:31 | removing the non-letters changes neither code |
| CodiceFiscale.CodesIgnoreCase | cf.py:15-17 | upper-casing the text changes neither code |
| CodiceFiscale.MonthOfLetter | cf.py:49 | the k-th letter of ABCDEHLMPRST stands for month k + 1, and no other character stands for a month |
| CodiceFiscale.Decimal | cf.py:51 | str(n): digits denoting n, one digit exactly below ten, and from ten on a first digit other than 0 |
| CodiceFiscale.YearCode | cf.py:51 | str(year)[-2:] has one character below year 10, otherwise two |
| CodiceFiscale.YearCodeDigits | cf.py:51 | from year 10 on, the year code is the year modulo 100 in two digits |
| CodiceFiscale.DateCode | cf.py:51-55 | the digits before the month letter denote the year modulo 100, then the month letter, then two digits denoting the day, plus 40 exactly for sex "F" |
| CodiceFiscale.YearCodeValue | cf.py:51 | the year code is all digits and denotes the year modulo 100, one-digit years included |
| CodiceFiscale.CodiceDataNascita | cf.py:48-55 | fails exactly when strptime rejects the date; otherwise the date code, of length 5 from year 10 on |
| CodiceFiscale.DecodeDateCodeInverts | cf.py:48-55 | from year 10 on, decoding a date code gives back the year modulo 100, the month, the day and whether the sex was "F" |
| CodiceFiscale.CodiceComune | cf.py:64-65 | four check-table characters; "XXXX" exactly when the upper-cased name is not in the table, otherwise its code |
| CodiceFiscale.CodiceComuneIgnoresCase | cf.py:65 | names equal up to case get the same code |
| CodiceFiscale.OddValue | cf.py:70-75 | odd-position values lie in 0..25 |
| CodiceFiscale.EvenValue | cf.py:76-81 | even-position values lie in 0..25 |
| CodiceFiscale.StrideSumsArePositional | cf.py:82-83 | the two sums over indices two apart are one sum of position-weighted values |
| CodiceFiscale.CfSpecial | cf.py:69-84 | an upper-case letter whose place in the alphabet is the weighted sum modulo 26 |
| CodiceFiscale.PositionalSumUpdate | cf.py:82-83 | changing one character changes the sum by the difference of its two weights |
| CodiceFiscale.OddLetterValuesInverted | cf.py:71-73 | the odd-position table of letters is a bijection of 0..25 |
| CodiceFiscale.OddValueInjective | cf.py:71-74 | no two letters, and no two digits, share an odd-position value |
| CodiceFiscale.SubstitutionChangesCheck | cf.py:69-84 | replacing one letter by another letter, or one digit by another digit, changes the check letter |
| CodiceFiscale.ShiftChangesResidue | cf.py:84 | adding a non-zero amount between -26 and 26 changes the residue modulo 26 |
| CodiceFiscale.LetterDigitCollision | cf.py:71-80 | "A" and "0" have the same check letter: a letter swapped for a digit can go unnoticed |
| CodiceFiscale.GeneraCodiceFiscale | cf.py:86-92 | as written: a bad date raises first; then the check letter raises exactly when the comune holds a character outside A-Z and 0-9; success exactly for a parsed date and such a comune, with the four parts and the check letter of all of them |
| CodiceFiscale.PrefixCheckChars | cf.py:87-90 | after upper-case name codes and a date code, the prefix is covered by the check tables exactly when the comune part is |
| CodiceFiscale.DateCodeCheckChars | cf.py:48-55 | every character of a date code is an upper-case letter or a digit |
| CodiceFiscale.ComuneNameRaises | cf.py:90 | with the comune name "Roma" the as-written generator raises |
| CodiceFiscale.GeneraCodiceFiscaleCorretto | cf.py:86-92 | with the comune looked up: fails exactly for a bad date; otherwise the four parts and the check letter of all of them, with the summed length |
| CodiceFiscale.SixteenCharacters | cf.py:86-92 | names of three or more letters with a consonant and a year from 10 on give sixteen characters, the last being the check letter of the fifteen before |
| CodiceFiscale.ComuneLookedUp | cf.py:58-65 | "Roma" in any case contributes H501 just before the check letter |

## Left out

- The Flask, flask_restx, flask_admin and CORS wiring, the Swagger models, the JSON bodies and the HTTP status codes. Outcomes are an error datatype; an exception the code does not catch is an error of its own (`UncaughtDateError`, `NotNullViolation`).
- The Content-Type check of the add-slot handler: a request body is assumed to be JSON.
- JSON `null` and values of the wrong type. A request field is either absent (`None`) or a string or integer.
- Login and the password hashing of werkzeug: these are foreign calls. The registration stores the hash it is given as a parameter.
- The profile-edit handler, which sits under a mismatched route parameter. The listings of users and professionals (`Users.get`, `Professionals.get`, `UserDetail.get`) are projections that are not part of this model.
- The routing defects around the reservation update and delete handlers. Their logic is modelled as written.
- The check-then-insert race between concurrent requests: each handler is one atomic step.
- `datetime.today()`: today is a parameter.
- Row ids: they are counters that never go back. SQLite's reuse of the largest id after a deletion is not modelled.
- Dates.ParseDate: accepts ASCII digits only. strptime's directives also match other Unicode decimal digits, which `int()` converts, so a date such as "٢٠٢٥-03-10" parses in the source and is refused by the model; the date error paths of create, add-slot, update and available-times differ for such text.
- Dates.FormatDate: always pads the year to four digits. The C library's `%Y` does not pad years below 1000. There a stored year such as 999 formats as "999-05-01", strptime refuses that text, and an update without a date (app.py:463) raises, whereas the model keeps the stored date.
- CodiceFiscale.CfSurname, CodiceFiscale.CfName, CodiceFiscale.CodiceComune: the text must be ASCII. Python's `isalpha` and `upper` also act on non-ASCII letters, and these are not modelled.
- Queries.AvailableDates: lists dates in order of first appearance and promises no order, as the query has no ORDER BY.
- `cf.main`: console input and output.

## Findings

| source | as written | input that shows it | evidently intended | confidence | as-written member | corrected member |
|---|---|---|---|---|---|---|
| cf.py:90 | the comune argument is appended unchanged, and the check-letter tables have entries only for A-Z and 0-9 | comune "Roma" (the name the console front end asks for) gives a KeyError in the check letter | append `codice_comune(comune)`, the cadastral code H501 | not executed | CodiceFiscale.GeneraCodiceFiscale, CodiceFiscale.ComuneNameRaises | CodiceFiscale.GeneraCodiceFiscaleCorretto, CodiceFiscale.SixteenCharacters, CodiceFiscale.ComuneLookedUp |

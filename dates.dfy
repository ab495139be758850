/** Calendar dates as the handlers read and write them: the text form
    'YYYY-MM-DD' that datetime.strptime parses and strftime produces, and the
    order in which the database compares stored dates. */
module Dates {
  import opened Wrappers
  import opened Seqs

  /** A calendar date as Python's datetime.date holds it. */
  datatype Date = Date(year: int, month: int, day: int)

  /** The Gregorian leap-year rule. */
  predicate IsLeapYear(y: int) {
    y % 4 == 0 && (y % 100 != 0 || y % 400 == 0)
  }

  function DaysInMonth(y: int, m: int): (n: int)
    requires 1 <= m <= 12
    ensures 28 <= n <= 31
    ensures n == 29 <==> m == 2 && IsLeapYear(y)
  {
    if m == 2 then (if IsLeapYear(y) then 29 else 28)
    else if m == 4 || m == 6 || m == 9 || m == 11 then 30
    else 31
  }

  /** The dates datetime.date accepts: years 1 to 9999, a real day of a real month. */
  predicate ValidDate(d: Date) {
    1 <= d.year <= 9999 && 1 <= d.month <= 12 && 1 <= d.day <= DaysInMonth(d.year, d.month)
  }

  /** Date order: year first, then month, then day. */
  predicate DateLe(a: Date, b: Date) {
    a.year < b.year || (a.year == b.year && (a.month < b.month || (a.month == b.month && a.day <= b.day)))
  }

  // ---------------------------------------------------------------------
  // Decimal digits

  predicate IsDigit(c: char) {
    '0' <= c <= '9'
  }

  predicate AllDigits(s: string) {
    forall i :: 0 <= i < |s| ==> IsDigit(s[i])
  }

  function DigitValue(c: char): (v: nat)
    requires IsDigit(c)
    ensures v < 10
  {
    c as int - '0' as int
  }

  function DigitChar(v: nat): (c: char)
    requires v < 10
    ensures IsDigit(c) && DigitValue(c) == v
  {
    ('0' as int + v) as char
  }

  function Pow10(w: nat): (p: nat)
    ensures p >= 1
  {
    if w == 0 then 1 else 10 * Pow10(w - 1)
  }

  /** The number a string of decimal digits denotes, most significant first. */
  function DigitsValue(s: string): nat
    requires AllDigits(s)
  {
    if s == [] then 0 else 10 * DigitsValue(s[..|s| - 1]) + DigitValue(s[|s| - 1])
  }

  /** The last `width` decimal digits of n, zero-padded: what strftime's %Y
      (width 4), %m and %d (width 2) print. */
  function Pad(n: nat, width: nat): (s: string)
    ensures |s| == width && AllDigits(s)
  {
    if width == 0 then [] else Pad(n / 10, width - 1) + [DigitChar(n % 10)]
  }

  /** Reading back a zero-padded number gives the number, when it fits. */
  lemma {:induction false} PadValue(n: nat, width: nat)
    requires n < Pow10(width)
    ensures DigitsValue(Pad(n, width)) == n
  {
    if width > 0 {
      var s := Pad(n, width);
      assert s[..|s| - 1] == Pad(n / 10, width - 1);
      PadValue(n / 10, width - 1);
    }
  }

  /** The two characters of a two-digit field. */
  lemma Pad2(n: nat)
    requires n < 100
    ensures Pad(n, 2) == [DigitChar(n / 10), DigitChar(n % 10)]
  {
    var h := n / 10;
    assert h % 10 == h;
    assert Pad(h, 1) == Pad(h / 10, 0) + [DigitChar(h % 10)];
    assert Pad(n, 2) == Pad(h, 1) + [DigitChar(n % 10)];
  }

  // ---------------------------------------------------------------------
  // Parsing, as datetime.strptime(s, '%Y-%m-%d') does it

  /** The character test for a dash. */
  function IsChar(c: char): char -> bool {
    (x: char) => x == c
  }

  /** The directive %m of strptime: "1"–"9", "01"–"09" or "10"–"12". */
  function MonthField(t: string): (r: Option<int>)
    ensures r.Some? ==> 1 <= r.value <= 12
  {
    if |t| == 1 && '1' <= t[0] <= '9' then Some(DigitValue(t[0]))
    else if |t| == 2 && t[0] == '0' && '1' <= t[1] <= '9' then Some(DigitValue(t[1]))
    else if |t| == 2 && t[0] == '1' && '0' <= t[1] <= '2' then Some(10 + DigitValue(t[1]))
    else None
  }

  /** The directive %d of strptime: "30" or "31", "10"–"29", "01"–"09",
      "1"–"9", or a space followed by "1"–"9". */
  function DayField(t: string): (r: Option<int>)
    ensures r.Some? ==> 1 <= r.value <= 31
  {
    if |t| == 1 && '1' <= t[0] <= '9' then Some(DigitValue(t[0]))
    else if |t| != 2 then None
    else if t[0] == '3' && '0' <= t[1] <= '1' then Some(30 + DigitValue(t[1]))
    else if '1' <= t[0] <= '2' && IsDigit(t[1]) then Some(10 * DigitValue(t[0]) + DigitValue(t[1]))
    else if (t[0] == '0' || t[0] == ' ') && '1' <= t[1] <= '9' then Some(DigitValue(t[1]))
    else None
  }

  /** datetime.strptime(s, '%Y-%m-%d').date(): exactly four digits of year, a
      dash, a month field, a dash and a day field that ends the text, naming a
      day that exists. None stands for the ValueError strptime raises. */
  function ParseDate(s: string): (r: Option<Date>)
    ensures r.Some? ==> ValidDate(r.value)
    ensures r.Some? ==> 8 <= |s| <= 10 && s[4] == '-' && AllDigits(s[..4]) && DigitsValue(s[..4]) == r.value.year
  {
    if |s| < 5 || s[4] != '-' || !AllDigits(s[..4]) then None
    else
      var rest := s[5..];
      match FirstIndex(rest, IsChar('-'))
      case None => None
      case Some(k) =>
        var month := MonthField(rest[..k]);
        var day := DayField(rest[k + 1..]);
        if month.None? || day.None? then None
        else
          var d := Date(DigitsValue(s[..4]), month.value, day.value);
          if ValidDate(d) then Some(d) else None
  }

  /** date.strftime('%Y-%m-%d'). */
  function FormatDate(d: Date): (s: string)
    requires ValidDate(d)
    ensures |s| == 10
  {
    Pad(d.year, 4) + "-" + Pad(d.month, 2) + "-" + Pad(d.day, 2)
  }

  /** The text form holds the year in four digits, a dash, the month in two
      digits, a dash and the day in two digits. */
  lemma FormatFields(d: Date)
    requires ValidDate(d)
    ensures var s := FormatDate(d);
            && s[4] == '-' && s[7] == '-'
            && AllDigits(s[..4]) && DigitsValue(s[..4]) == d.year
            && AllDigits(s[5..7]) && DigitsValue(s[5..7]) == d.month
            && AllDigits(s[8..]) && DigitsValue(s[8..]) == d.day
  {
    var s := FormatDate(d);
    assert s[..4] == Pad(d.year, 4) && s[5..7] == Pad(d.month, 2) && s[8..] == Pad(d.day, 2);
    PadValue(d.year, 4);
    PadValue(d.month, 2);
    PadValue(d.day, 2);
  }

  /** Formatting a stored date and parsing the text again gives the date back
      (the update handler relies on this when the request carries no date). */
  lemma ParseFormat(d: Date)
    requires ValidDate(d)
    ensures ParseDate(FormatDate(d)) == Some(d)
  {
    var s := FormatDate(d);
    var y, m, dd := Pad(d.year, 4), Pad(d.month, 2), Pad(d.day, 2);
    assert s == y + "-" + m + "-" + dd;
    assert s[..4] == y;
    assert s[4] == '-';
    var rest := s[5..];
    assert rest == m + "-" + dd;
    Pad2(d.month);
    Pad2(d.day);
    assert rest[0] == m[0] && rest[1] == m[1] && rest[2] == '-';
    assert FirstIndex(rest, IsChar('-')) == Some(2);
    assert rest[..2] == m;
    assert rest[3..] == dd;
    assert MonthField(m) == Some(d.month);
    assert DayField(dd) == Some(d.day);
    PadValue(d.year, 4);
  }

  /** Distinct dates have distinct text forms. */
  lemma FormatInjective(a: Date, b: Date)
    requires ValidDate(a) && ValidDate(b)
    requires FormatDate(a) == FormatDate(b)
    ensures a == b
  {
    ParseFormat(a);
    ParseFormat(b);
  }

  // ---------------------------------------------------------------------
  // Order of the text forms

  /** Byte-wise string order, as the database compares stored text: the
      first differing character decides, and a proper prefix comes first. */
  predicate LexLess(a: string, b: string) {
    if a == [] then b != []
    else if b == [] then false
    else a[0] < b[0] || (a[0] == b[0] && LexLess(a[1..], b[1..]))
  }

  /** Comparing two concatenations whose first parts have the same length. */
  lemma {:induction false} LexLessConcat(a1: string, a2: string, b1: string, b2: string)
    requires |a1| == |b1|
    ensures LexLess(a1 + a2, b1 + b2) <==> LexLess(a1, b1) || (a1 == b1 && LexLess(a2, b2))
  {
    if a1 != [] {
      assert (a1 + a2)[0] == a1[0] && (b1 + b2)[0] == b1[0];
      assert (a1 + a2)[1..] == a1[1..] + a2 && (b1 + b2)[1..] == b1[1..] + b2;
      LexLessConcat(a1[1..], a2, b1[1..], b2);
      if a1[0] == b1[0] && a1[1..] == b1[1..] {
        assert a1 == [a1[0]] + a1[1..] && b1 == [b1[0]] + b1[1..];
      }
    } else {
      assert a1 + a2 == a2 && b1 + b2 == b2;
    }
  }

  /** Zero-padded numbers of one width compare as text as they do as numbers. */
  lemma {:induction false} PadOrder(n: nat, m: nat, width: nat)
    requires n < Pow10(width) && m < Pow10(width)
    ensures LexLess(Pad(n, width), Pad(m, width)) <==> n < m
  {
    if width > 0 {
      var hn, hm := Pad(n / 10, width - 1), Pad(m / 10, width - 1);
      LexLessConcat(hn, [DigitChar(n % 10)], hm, [DigitChar(m % 10)]);
      PadOrder(n / 10, m / 10, width - 1);
      PadValue(n / 10, width - 1);
      PadValue(m / 10, width - 1);
      assert hn == hm <==> n / 10 == m / 10;
      assert LexLess([DigitChar(n % 10)], [DigitChar(m % 10)]) <==> n % 10 < m % 10;
    } else {
      assert n == 0 && m == 0;
    }
  }

  /** Zero-padded numbers of one width are equal, and ordered, as the
      numbers are. */
  lemma PadCompare(n: nat, m: nat, width: nat)
    requires n < Pow10(width) && m < Pow10(width)
    ensures Pad(n, width) == Pad(m, width) <==> n == m
    ensures LexLess(Pad(n, width), Pad(m, width)) <==> n < m
  {
    PadOrder(n, m, width);
    PadValue(n, width);
    PadValue(m, width);
  }

  /** Comparing two texts that put a dash after first parts of one length. */
  lemma CompareDashed(a1: string, a2: string, b1: string, b2: string)
    requires |a1| == |b1|
    ensures a1 + ("-" + a2) == b1 + ("-" + b2) <==> a1 == b1 && a2 == b2
    ensures LexLess(a1 + ("-" + a2), b1 + ("-" + b2)) <==> LexLess(a1, b1) || (a1 == b1 && LexLess(a2, b2))
  {
    LexLessConcat(a1, "-" + a2, b1, "-" + b2);
    LexLessConcat("-", a2, "-", b2);
    assert !LexLess("-", "-");
    if a1 + ("-" + a2) == b1 + ("-" + b2) {
      assert (a1 + ("-" + a2))[..|a1|] == a1 && (b1 + ("-" + b2))[..|b1|] == b1;
      assert (a1 + ("-" + a2))[|a1| + 1..] == a2 && (b1 + ("-" + b2))[|b1| + 1..] == b2;
    }
  }

  /** The date order agrees with the order of the dates' text forms, so a
      comparison the database makes on stored text is the date comparison. */
  lemma DateOrderIsTextOrder(a: Date, b: Date)
    requires ValidDate(a) && ValidDate(b)
    ensures DateLe(a, b) <==> (FormatDate(a) == FormatDate(b) || LexLess(FormatDate(a), FormatDate(b)))
  {
    var ya, ma, da := Pad(a.year, 4), Pad(a.month, 2), Pad(a.day, 2);
    var yb, mb, db := Pad(b.year, 4), Pad(b.month, 2), Pad(b.day, 2);
    assert FormatDate(a) == ya + ("-" + (ma + ("-" + da)));
    assert FormatDate(b) == yb + ("-" + (mb + ("-" + db)));
    CompareDashed(ya, ma + ("-" + da), yb, mb + ("-" + db));
    CompareDashed(ma, da, mb, db);
    PadCompare(a.year, b.year, 4);
    PadCompare(a.month, b.month, 2);
    PadCompare(a.day, b.day, 2);
  }
}

/** The Italian fiscal code generator: three letters from the surname,
    three from the name, five characters for the birth date and sex, four
    for the comune of birth, and a check letter computed from the fifteen
    before it. Names are ASCII text; a Python exception the code lets escape
    is a Failure. */
module CodiceFiscale {
  import opened Wrappers
  import opened Seqs
  import opened Dates

  /** The exceptions the generator can raise. */
  datatype CfError =
    | ValueErrorRaised   // strptime rejected the birth date
    | KeyErrorRaised     // the check-letter tables have no entry for a character

  // ---------------------------------------------------------------------
  // Characters

  predicate IsAscii(s: string) {
    forall i :: 0 <= i < |s| ==> s[i] as int < 128
  }

  predicate IsUpperLetter(c: char) { 'A' <= c <= 'Z' }
  predicate IsLowerLetter(c: char) { 'a' <= c <= 'z' }

  /** str.isalpha on ASCII text. */
  predicate IsLetter(c: char) { IsUpperLetter(c) || IsLowerLetter(c) }

  /** str.upper on one ASCII character. */
  function ToUpper(c: char): (u: char)
    ensures IsLetter(u) == IsLetter(c)
    ensures IsLetter(c) ==> IsUpperLetter(u)
    ensures !IsLowerLetter(c) ==> u == c
  {
    if IsLowerLetter(c) then (c as int - 32) as char else c
  }

  /** str.lower on one ASCII character. */
  function ToLower(c: char): (l: char)
    ensures IsLetter(l) == IsLetter(c)
    ensures IsLetter(c) ==> IsLowerLetter(l)
    ensures !IsUpperLetter(c) ==> l == c
  {
    if IsUpperLetter(c) then (c as int + 32) as char else c
  }

  /** is_vowel: the lower-case form is one of a, e, i, o, u. */
  function IsVowel(c: char): (b: bool)
    ensures b <==> c in "aeiouAEIOU"
  {
    ToLower(c) in "aeiou"
  }

  function IsConsonant(c: char): bool { !IsVowel(c) }

  /** str.upper on ASCII text. */
  function Upper(s: string): (u: string)
    ensures |u| == |s|
    ensures forall i :: 0 <= i < |s| ==> u[i] == ToUpper(s[i])
  {
    Map(s, ToUpper)
  }

  /** The letters of s, in order: "".join(filter(str.isalpha, s)). */
  function Letters(s: string): (r: string)
    ensures |r| <= |s|
    ensures forall c :: c in r <==> c in s && IsLetter(c)
  {
    Filter(s, IsLetter)
  }

  /** The consonants among the letters of s, upper-cased. */
  function Consonants(s: string): string {
    Upper(Filter(Letters(s), IsConsonant))
  }

  /** The vowels among the letters of s, upper-cased. */
  function Vowels(s: string): string {
    Upper(Filter(Letters(s), IsVowel))
  }

  /** Python's prefix slice s[:n]. */
  function Take(s: string, n: nat): (r: string)
    ensures |r| == if n <= |s| then n else |s|
    ensures r == s[..|r|]
  {
    if n <= |s| then s[..n] else s
  }

  predicate AllUpper(s: string) {
    forall i :: 0 <= i < |s| ==> IsUpperLetter(s[i])
  }

  /** Upper-casing letters gives upper-case letters. */
  lemma UpperOfLetters(s: string)
    requires forall c :: c in s ==> IsLetter(c)
    ensures AllUpper(Upper(s))
  {
    forall i | 0 <= i < |s| ensures IsUpperLetter(ToUpper(s[i])) {
      assert s[i] in s;
    }
  }

  /** The upper-cased letters, consonants and vowels hold only A to Z, and
      each letter is a consonant or a vowel, never both. */
  lemma Parts(s: string)
    ensures AllUpper(Upper(Letters(s))) && AllUpper(Consonants(s)) && AllUpper(Vowels(s))
    ensures |Consonants(s)| + |Vowels(s)| == |Letters(s)|
  {
    UpperOfLetters(Letters(s));
    UpperOfLetters(Filter(Letters(s), IsConsonant));
    UpperOfLetters(Filter(Letters(s), IsVowel));
    FilterPartition(Letters(s), IsConsonant, IsVowel);
  }

  // ---------------------------------------------------------------------
  // Surname and name codes

  function Min(a: int, b: int): int { if a <= b then a else b }

  /** The code of a surname or name of three or more letters with fewer than
      three consonants: the consonants, then the first two vowels, at most
      three characters. */
  function ConsonantsThenVowels(consonants: string, vowels: string): (r: string)
    requires AllUpper(consonants) && AllUpper(vowels)
    ensures AllUpper(r)
    ensures |r| == Min(3, |consonants| + Min(2, |vowels|))
    ensures r == (consonants + vowels)[..|r|]
  {
    var t := consonants + Take(vowels, 2);
    assert AllUpper(t) by {
      forall i | 0 <= i < |t| ensures IsUpperLetter(t[i]) {
        if i >= |consonants| {
          assert t[i] == vowels[i - |consonants|];
        }
      }
    }
    var r := Take(t, 3);
    assert r == (consonants + vowels)[..|r|] by {
      forall i | 0 <= i < |r| ensures r[i] == (consonants + vowels)[i] {
        if i >= |consonants| {
          assert r[i] == vowels[i - |consonants|];
        }
      }
    }
    r
  }

  /** The code of fewer than three letters: the letters and one "X". */
  function ShortCode(letters: string): (r: string)
    requires AllUpper(letters)
    ensures AllUpper(r) && |r| == |letters| + 1
  {
    letters + "X"
  }

  /** The surname rule on the upper-cased letters l of a text, split into
      its consonants c and its vowels v. */
  function SurnameRule(l: string, c: string, v: string): (r: string)
    requires AllUpper(l) && AllUpper(c) && AllUpper(v) && |c| + |v| == |l|
    ensures AllUpper(r)
    ensures |r| == if |l| < 3 then |l| + 1 else if |c| == 0 then 2 else 3
    ensures |l| < 3 ==> r == l + "X"
    ensures 3 <= |l| && |c| < 3 ==> r == (c + v)[..|r|]
    ensures |c| >= 3 ==> r == c[..3]
  {
    if |l| < 3 then ShortCode(l)
    else if |c| < 3 then ConsonantsThenVowels(c, v)
    else c[..3]
  }

  /** The name rule on the same parts: four or more consonants give the
      first, third and fourth. */
  function NameRule(l: string, c: string, v: string): (r: string)
    requires AllUpper(l) && AllUpper(c) && AllUpper(v) && |c| + |v| == |l|
    ensures AllUpper(r)
    ensures |r| == if |l| < 3 then |l| + 1 else if |c| == 0 then 2 else 3
    ensures |l| < 3 ==> r == l + "X"
    ensures 3 <= |l| && |c| < 3 ==> r == (c + v)[..|r|]
    ensures |c| == 3 ==> r == c
    ensures |c| >= 4 ==> r == [c[0], c[2], c[3]]
  {
    if |l| < 3 then ShortCode(l)
    else if |c| >= 4 then [c[0], c[2], c[3]]
    else if |c| == 3 then c
    else ConsonantsThenVowels(c, v)
  }

  /** cf_surname: fewer than three letters give the letters upper-cased and
      one "X"; otherwise the first three consonants, or the consonants
      followed by the first two vowels, cut to three characters. */
  function CfSurname(s: string): (r: string)
    requires IsAscii(s)
    ensures |r| == if |Letters(s)| < 3 then |Letters(s)| + 1 else if |Consonants(s)| == 0 then 2 else 3
    ensures AllUpper(r)
    ensures |Letters(s)| < 3 ==> r == Upper(Letters(s)) + "X"
    ensures |Consonants(s)| + |Vowels(s)| == |Letters(s)|
    ensures 3 <= |Letters(s)| && |Consonants(s)| < 3 ==> r == (Consonants(s) + Vowels(s))[..|r|]
    ensures |Consonants(s)| >= 3 ==> r == Consonants(s)[..3]
  {
    Parts(s);
    SurnameRule(Upper(Letters(s)), Consonants(s), Vowels(s))
  }

  /** cf_name: like the surname code, except that four or more consonants
      give the first, third and fourth of them. */
  function CfName(s: string): (r: string)
    requires IsAscii(s)
    ensures |r| == if |Letters(s)| < 3 then |Letters(s)| + 1 else if |Consonants(s)| == 0 then 2 else 3
    ensures AllUpper(r)
    ensures |Letters(s)| < 3 ==> r == Upper(Letters(s)) + "X"
    ensures |Consonants(s)| + |Vowels(s)| == |Letters(s)|
    ensures 3 <= |Letters(s)| && |Consonants(s)| < 3 ==> r == (Consonants(s) + Vowels(s))[..|r|]
    ensures |Consonants(s)| == 3 ==> r == Consonants(s)
    ensures |Consonants(s)| >= 4 ==> r == [Consonants(s)[0], Consonants(s)[2], Consonants(s)[3]]
  {
    Parts(s);
    NameRule(Upper(Letters(s)), Consonants(s), Vowels(s))
  }

  /** With fewer than four consonants the name is coded as a surname. */
  lemma NameCodedAsSurname(s: string)
    requires IsAscii(s) && |Consonants(s)| < 4
    ensures CfName(s) == CfSurname(s)
  {
    if |Letters(s)| >= 3 && |Consonants(s)| == 3 {
      assert Consonants(s)[..3] == Consonants(s);
    }
  }

  /** A code built from at least three letters, one of them a consonant, has
      three characters. */
  lemma CodesHaveThreeLetters(s: string)
    requires IsAscii(s) && |Letters(s)| >= 3 && |Consonants(s)| >= 1
    ensures |CfSurname(s)| == 3 && |CfName(s)| == 3
  {
  }

  /** Upper-casing commutes with a filter that ignores case. */
  lemma UpperFilter(s: string, keep: char -> bool)
    requires forall c :: keep(ToUpper(c)) == keep(c)
    ensures Filter(Upper(s), keep) == Upper(Filter(s, keep))
  {
    FilterMap(s, ToUpper, keep, keep);
  }

  /** Upper-casing twice is upper-casing once. */
  lemma UpperIdempotent(s: string)
    ensures Upper(Upper(s)) == Upper(s)
  {
  }

  /** The consonants and vowels of s are those of its upper-cased letters. */
  lemma PartsOfUpperLetters(s: string)
    ensures Consonants(s) == Filter(Upper(Letters(s)), IsConsonant)
    ensures Vowels(s) == Filter(Upper(Letters(s)), IsVowel)
  {
    forall c ensures IsConsonant(ToUpper(c)) == IsConsonant(c) && IsVowel(ToUpper(c)) == IsVowel(c) {
      assert ToLower(ToUpper(c)) == ToLower(c);
    }
    UpperFilter(Letters(s), IsConsonant);
    UpperFilter(Letters(s), IsVowel);
  }

  /** Both codes depend only on the letters of the text, whatever their case:
      two texts with the same upper-cased letters get the same codes. */
  lemma CodesDependOnLettersOnly(a: string, b: string)
    requires IsAscii(a) && IsAscii(b)
    requires Upper(Letters(a)) == Upper(Letters(b))
    ensures CfSurname(a) == CfSurname(b)
    ensures CfName(a) == CfName(b)
  {
    PartsOfUpperLetters(a);
    PartsOfUpperLetters(b);
    assert |Letters(a)| == |Upper(Letters(a))|;
  }

  /** Non-letters are ignored. */
  lemma CodesIgnoreNonLetters(s: string)
    requires IsAscii(s)
    ensures IsAscii(Letters(s))
    ensures CfSurname(Letters(s)) == CfSurname(s) && CfName(Letters(s)) == CfName(s)
  {
    forall i | 0 <= i < |Letters(s)| ensures Letters(s)[i] as int < 128 {
      assert Letters(s)[i] in s;
    }
    FilterIdempotent(s, IsLetter);
    CodesDependOnLettersOnly(Letters(s), s);
  }

  /** Case is ignored. */
  lemma CodesIgnoreCase(s: string)
    requires IsAscii(s)
    ensures IsAscii(Upper(s))
    ensures CfSurname(Upper(s)) == CfSurname(s) && CfName(Upper(s)) == CfName(s)
  {
    UpperFilter(s, IsLetter);
    UpperIdempotent(Letters(s));
    CodesDependOnLettersOnly(Upper(s), s);
  }

  // ---------------------------------------------------------------------
  // Birth date and sex

  /** The month letters, January first. */
  const MonthLetters: string := "ABCDEHLMPRST"

  /** The month a month letter stands for; 0 for any other character. */
  function MonthOfLetter(c: char): (m: int)
    ensures 0 <= m <= 12
    ensures forall k :: 0 <= k < 12 ==> (c == MonthLetters[k] <==> m == k + 1)
  {
    if c == 'A' then 1 else if c == 'B' then 2 else if c == 'C' then 3 else if c == 'D' then 4
    else if c == 'E' then 5 else if c == 'H' then 6 else if c == 'L' then 7 else if c == 'M' then 8
    else if c == 'P' then 9 else if c == 'R' then 10 else if c == 'S' then 11 else if c == 'T' then 12
    else 0
  }

  /** str(n): the decimal digits of n without leading zeros. */
  function Decimal(n: nat): (s: string)
    ensures 1 <= |s| && AllDigits(s) && DigitsValue(s) == n
    ensures |s| == 1 <==> n < 10
    ensures n >= 10 ==> s[0] != '0'
  {
    if n < 10 then [DigitChar(n)]
    else
      var s := Decimal(n / 10) + [DigitChar(n % 10)];
      assert s[..|s| - 1] == Decimal(n / 10);
      s
  }

  /** str(year)[-2:]: the last two decimal digits, or the only one. */
  function YearCode(y: nat): (s: string)
    ensures |s| == if y < 10 then 1 else 2
  {
    var t := Decimal(y);
    if |t| < 2 then t else t[|t| - 2..]
  }

  /** From year 10 on the year code is the year modulo 100, zero-padded. */
  lemma YearCodeDigits(y: nat)
    ensures y < 10 ==> YearCode(y) == [DigitChar(y)]
    ensures 10 <= y ==> YearCode(y) == Pad(y % 100, 2)
  {
    if 10 <= y {
      var t := Decimal(y);
      var u := Decimal(y / 10);
      assert t == u + [DigitChar(y % 10)];
      LastDigit(y / 10);
      TensDigit(y);
      Pad2(y % 100);
      assert t[|t| - 2..] == [u[|u| - 1], DigitChar(y % 10)];
    }
  }

  /** The last character of str(n) is the last digit of n. */
  lemma LastDigit(n: nat)
    ensures Decimal(n)[|Decimal(n)| - 1] == DigitChar(n % 10)
  {
  }

  lemma TensDigit(y: nat)
    ensures (y % 100) / 10 == (y / 10) % 10 && (y % 100) % 10 == y % 10
  {
    var q, r := y / 100, y % 100;
    assert y == 100 * q + r;
    assert y / 10 == 10 * q + r / 10;
    assert y % 10 == r % 10;
  }

  /** The day number of the code: the day, plus 40 for sex "F" exactly. */
  function DayNumber(day: int, sesso: string): int {
    if sesso == "F" then day + 40 else day
  }

  /** The date-and-sex code of a date strptime accepted. */
  function DateCode(d: Date, sesso: string): (s: string)
    requires ValidDate(d)
    ensures |s| == |YearCode(d.year)| + 3
    ensures s[|s| - 3] == MonthLetters[d.month - 1]
    ensures AllDigits(s[|s| - 2..]) && DigitsValue(s[|s| - 2..]) == DayNumber(d.day, sesso)
    ensures AllDigits(s[..|s| - 3]) && DigitsValue(s[..|s| - 3]) == d.year % 100
  {
    var y := YearCode(d.year);
    var s := y + [MonthLetters[d.month - 1]] + Pad(DayNumber(d.day, sesso), 2);
    PadValue(DayNumber(d.day, sesso), 2);
    assert s[|s| - 2..] == Pad(DayNumber(d.day, sesso), 2);
    assert s[..|s| - 3] == y;
    YearCodeValue(d.year);
    s
  }

  /** The year code denotes the year modulo 100. */
  lemma YearCodeValue(y: nat)
    ensures AllDigits(YearCode(y)) && DigitsValue(YearCode(y)) == y % 100
  {
    YearCodeDigits(y);
    if y < 10 {
      assert YearCode(y)[..0] == [];
    } else {
      PadValue(y % 100, 2);
    }
  }

  /** codice_data_nascita: the date must be YYYY-MM-DD, or strptime raises. */
  function CodiceDataNascita(data: string, sesso: string): (r: Result<string, CfError>)
    ensures r.Failure? <==> ParseDate(data).None?
    ensures r.Failure? ==> r.error == ValueErrorRaised
    ensures r.Success? ==> r.value == DateCode(ParseDate(data).value, sesso)
    ensures r.Success? && ParseDate(data).value.year >= 10 ==> |r.value| == 5
  {
    match ParseDate(data)
    case None => Failure(ValueErrorRaised)
    case Some(d) => Success(DateCode(d, sesso))
  }

  /** What a five-character date code says: the year modulo 100, the month,
      the day and whether the sex was "F". */
  datatype BirthMark = BirthMark(year2: int, month: int, day: int, female: bool)

  function DecodeDateCode(code: string): (r: Option<BirthMark>)
    ensures r.Some? ==> 1 <= r.value.month <= 12
  {
    if |code| != 5 || !AllDigits(code[..2]) || !AllDigits(code[3..]) || MonthOfLetter(code[2]) == 0 then None
    else
      var g := DigitsValue(code[3..]);
      Some(BirthMark(DigitsValue(code[..2]), MonthOfLetter(code[2]), if g > 40 then g - 40 else g, g > 40))
  }

  /** From year 10 on, decoding a date code gives back the date's year modulo
      100, its month and day, and the sex flag (earlier years have a one-digit
      year field, which the decoder refuses). */
  lemma DecodeDateCodeInverts(d: Date, sesso: string)
    requires ValidDate(d) && d.year >= 10
    ensures DecodeDateCode(DateCode(d, sesso)) == Some(BirthMark(d.year % 100, d.month, d.day, sesso == "F"))
  {
    var g := DayNumber(d.day, sesso);
    var yy, m, gg := Pad(d.year % 100, 2), MonthLetters[d.month - 1], Pad(g, 2);
    YearCodeDigits(d.year);
    assert DateCode(d, sesso) == yy + [m] + gg;
    PadValue(d.year % 100, 2);
    PadValue(g, 2);
    DecodeParts(yy, m, gg);
  }

  /** Decoding reads the three fields of a five-character code. */
  lemma DecodeParts(yy: string, m: char, gg: string)
    requires |yy| == 2 && AllDigits(yy) && |gg| == 2 && AllDigits(gg) && MonthOfLetter(m) != 0
    ensures var g := DigitsValue(gg);
            DecodeDateCode(yy + [m] + gg)
            == Some(BirthMark(DigitsValue(yy), MonthOfLetter(m), if g > 40 then g - 40 else g, g > 40))
  {
    var s := yy + [m] + gg;
    assert s[..2] == yy && s[2] == m && s[3..] == gg;
  }

  // ---------------------------------------------------------------------
  // Comune

  /** The comune table: upper-case names to their cadastral codes. */
  const Comuni: map<string, string> := map["ROMA" := "H501", "MILANO" := "F205", "NAPOLI" := "F839"]

  /** A character the check-letter tables have an entry for. */
  predicate IsCheckChar(c: char) { IsUpperLetter(c) || IsDigit(c) }

  predicate AllCheckChars(s: string) {
    forall i :: 0 <= i < |s| ==> IsCheckChar(s[i])
  }

  /** codice_comune: the code of the upper-cased name, "XXXX" when the table
      lacks it. */
  function CodiceComune(comune: string): (r: string)
    requires IsAscii(comune)
    ensures |r| == 4 && AllCheckChars(r)
    ensures r != "XXXX" <==> Upper(comune) in Comuni
    ensures Upper(comune) in Comuni ==> r == Comuni[Upper(comune)]
  {
    if Upper(comune) in Comuni then Comuni[Upper(comune)] else "XXXX"
  }

  /** The lookup ignores case. */
  lemma CodiceComuneIgnoresCase(a: string, b: string)
    requires IsAscii(a) && IsAscii(b) && Upper(a) == Upper(b)
    ensures CodiceComune(a) == CodiceComune(b)
  {
  }

  // ---------------------------------------------------------------------
  // Check letter

  /** The odd-position values of the letters A to Z. */
  const OddLetterValues: seq<nat> :=
    [1, 0, 5, 7, 9, 13, 15, 17, 19, 21, 2, 4, 18, 20, 11, 3, 6, 8, 12, 14, 16, 10, 22, 25, 24, 23]
  /** The odd-position values of the digits 0 to 9. */
  const OddDigitValues: seq<nat> := [1, 0, 5, 7, 9, 13, 15, 17, 19, 21]
  /** The letter (as 0 for A to 25 for Z) whose odd-position value is v. */
  const OddLetterOfValue: seq<nat> :=
    [1, 0, 10, 15, 11, 2, 16, 3, 17, 4, 21, 14, 18, 5, 19, 6, 20, 7, 12, 8, 13, 9, 22, 25, 24, 23]

  /** The value of c at a 0-based even index (the code's odd positions). */
  function OddValue(c: char): (v: nat)
    requires IsCheckChar(c)
    ensures v < 26
  {
    if IsUpperLetter(c) then OddLetterValues[c as int - 'A' as int] else OddDigitValues[DigitValue(c)]
  }

  /** The value of c at a 0-based odd index: a letter's place in the
      alphabet from 0, a digit's value. */
  function EvenValue(c: char): (v: nat)
    requires IsCheckChar(c)
    ensures v < 26
  {
    if IsUpperLetter(c) then c as int - 'A' as int else DigitValue(c)
  }

  function Value(odd: bool, c: char): nat
    requires IsCheckChar(c)
  {
    if odd then OddValue(c) else EvenValue(c)
  }

  /** sum(table[s[i]] for i in range(k, len(s), 2)). */
  function StrideSum(s: string, k: nat, odd: bool): nat
    requires AllCheckChars(s)
    decreases |s| - k
  {
    if k >= |s| then 0 else Value(odd, s[k]) + StrideSum(s, k + 2, odd)
  }

  /** The value of the character at index i, by the parity of i. */
  function Weight(i: nat, c: char): nat
    requires IsCheckChar(c)
  {
    Value(i % 2 == 0, c)
  }

  /** The sum of the weights of s from index k on, in one pass. */
  function PositionalSum(s: string, k: nat): nat
    requires AllCheckChars(s)
    decreases |s| - k
  {
    if k >= |s| then 0 else Weight(k, s[k]) + PositionalSum(s, k + 1)
  }

  /** The two stride sums together are the one-pass positional sum. */
  lemma {:induction false} StrideSumsArePositional(s: string, k: nat)
    requires AllCheckChars(s)
    ensures PositionalSum(s, k) == StrideSum(s, k, k % 2 == 0) + StrideSum(s, k + 1, k % 2 != 0)
    decreases |s| - k
  {
    if k < |s| {
      StrideSumsArePositional(s, k + 1);
      assert PositionalSum(s, k) == Weight(k, s[k]) + PositionalSum(s, k + 1);
      if k % 2 == 0 {
        assert (k + 1) % 2 != 0;
        assert StrideSum(s, k, true) == OddValue(s[k]) + StrideSum(s, k + 2, true);
      } else {
        assert (k + 1) % 2 == 0;
        assert StrideSum(s, k, false) == EvenValue(s[k]) + StrideSum(s, k + 2, false);
      }
    }
  }

  /** cf_special: the letter whose place in the alphabet is the sum of the
      odd-table values at even indices and the even-table values at odd
      indices, modulo 26. */
  function CfSpecial(s: string): (r: char)
    requires AllCheckChars(s)
    ensures IsUpperLetter(r)
    ensures r as int - 'A' as int == PositionalSum(s, 0) % 26
  {
    StrideSumsArePositional(s, 0);
    ((StrideSum(s, 0, true) + StrideSum(s, 1, false)) % 26 + 'A' as int) as char
  }

  /** Changing the character at index i changes the positional sum by the
      difference of the two weights. */
  lemma {:induction false} PositionalSumUpdate(s: string, k: nat, i: nat, c: char)
    requires AllCheckChars(s) && i < |s| && IsCheckChar(c)
    ensures AllCheckChars(s[i := c])
    ensures PositionalSum(s[i := c], k)
         == PositionalSum(s, k) + (if k <= i then Weight(i, c) - Weight(i, s[i]) else 0)
    decreases |s| - k
  {
    if k < |s| {
      PositionalSumUpdate(s, k + 1, i, c);
    }
  }

  /** OddLetterOfValue inverts the odd-position values of the letters. */
  lemma OddLetterValuesInverted(k: int)
    requires 0 <= k < 26
    ensures OddLetterOfValue[OddLetterValues[k]] == k
  {
    if k == 0 {
      assert OddLetterValues[0] == 1 && OddLetterOfValue[1] == 0;
    } else if k == 1 {
      assert OddLetterValues[1] == 0 && OddLetterOfValue[0] == 1;
    } else if k == 2 {
      assert OddLetterValues[2] == 5 && OddLetterOfValue[5] == 2;
    } else if k == 3 {
      assert OddLetterValues[3] == 7 && OddLetterOfValue[7] == 3;
    } else if k == 4 {
      assert OddLetterValues[4] == 9 && OddLetterOfValue[9] == 4;
    } else if k == 5 {
      assert OddLetterValues[5] == 13 && OddLetterOfValue[13] == 5;
    } else if k == 6 {
      assert OddLetterValues[6] == 15 && OddLetterOfValue[15] == 6;
    } else if k == 7 {
      assert OddLetterValues[7] == 17 && OddLetterOfValue[17] == 7;
    } else if k == 8 {
      assert OddLetterValues[8] == 19 && OddLetterOfValue[19] == 8;
    } else if k == 9 {
      assert OddLetterValues[9] == 21 && OddLetterOfValue[21] == 9;
    } else if k == 10 {
      assert OddLetterValues[10] == 2 && OddLetterOfValue[2] == 10;
    } else if k == 11 {
      assert OddLetterValues[11] == 4 && OddLetterOfValue[4] == 11;
    } else if k == 12 {
      assert OddLetterValues[12] == 18 && OddLetterOfValue[18] == 12;
    } else if k == 13 {
      assert OddLetterValues[13] == 20 && OddLetterOfValue[20] == 13;
    } else if k == 14 {
      assert OddLetterValues[14] == 11 && OddLetterOfValue[11] == 14;
    } else if k == 15 {
      assert OddLetterValues[15] == 3 && OddLetterOfValue[3] == 15;
    } else if k == 16 {
      assert OddLetterValues[16] == 6 && OddLetterOfValue[6] == 16;
    } else if k == 17 {
      assert OddLetterValues[17] == 8 && OddLetterOfValue[8] == 17;
    } else if k == 18 {
      assert OddLetterValues[18] == 12 && OddLetterOfValue[12] == 18;
    } else if k == 19 {
      assert OddLetterValues[19] == 14 && OddLetterOfValue[14] == 19;
    } else if k == 20 {
      assert OddLetterValues[20] == 16 && OddLetterOfValue[16] == 20;
    } else if k == 21 {
      assert OddLetterValues[21] == 10 && OddLetterOfValue[10] == 21;
    } else if k == 22 {
      assert OddLetterValues[22] == 22 && OddLetterOfValue[22] == 22;
    } else if k == 23 {
      assert OddLetterValues[23] == 25 && OddLetterOfValue[25] == 23;
    } else if k == 24 {
      assert OddLetterValues[24] == 24 && OddLetterOfValue[24] == 24;
    } else if k == 25 {
      assert OddLetterValues[25] == 23 && OddLetterOfValue[23] == 25;
    }
  }

  /** No two letters, and no two digits, share an odd-position value. */
  lemma OddValueInjective(a: char, b: char)
    requires IsCheckChar(a) && IsCheckChar(b) && IsUpperLetter(a) == IsUpperLetter(b)
    requires OddValue(a) == OddValue(b)
    ensures a == b
  {
    if IsUpperLetter(a) {
      OddLetterValuesInverted(a as int - 'A' as int);
      OddLetterValuesInverted(b as int - 'A' as int);
    } else {
      assert OddDigitValues == OddLetterValues[..10];
      OddLetterValuesInverted(DigitValue(a));
      OddLetterValuesInverted(DigitValue(b));
    }
  }

  /** Replacing one letter by another letter, or one digit by another digit,
      changes the check letter. */
  lemma SubstitutionChangesCheck(s: string, i: nat, c: char)
    requires AllCheckChars(s) && i < |s| && IsCheckChar(c)
    requires c != s[i] && IsUpperLetter(c) == IsUpperLetter(s[i])
    ensures AllCheckChars(s[i := c])
    ensures CfSpecial(s[i := c]) != CfSpecial(s)
  {
    PositionalSumUpdate(s, 0, i, c);
    if i % 2 == 0 && OddValue(c) == OddValue(s[i]) {
      OddValueInjective(c, s[i]);
    }
    ShiftChangesResidue(PositionalSum(s, 0), Weight(i, c) - Weight(i, s[i]));
  }

  /** Adding an amount strictly between -26 and 26, other than 0, changes
      the residue modulo 26. */
  lemma ShiftChangesResidue(p: int, d: int)
    requires -26 < d < 26 && d != 0
    ensures (p + d) % 26 != p % 26
  {
    assert p == 26 * (p / 26) + p % 26;
    assert p + d == 26 * ((p + d) / 26) + (p + d) % 26;
  }

  /** A letter and a digit can share both values: "A" and "0" have the same
      check letter. */
  lemma LetterDigitCollision()
    ensures CfSpecial("A") == CfSpecial("0")
  {
    assert PositionalSum("A", 1) == 0 && PositionalSum("0", 1) == 0;
  }

  // ---------------------------------------------------------------------
  // The whole code

  /** genera_codice_fiscale as written: the comune argument is appended
      unchanged, so any character of it outside A-Z and 0-9 makes the check
      letter raise. The date is parsed before. */
  function GeneraCodiceFiscale(nome: string, cognome: string, data: string, sesso: string, comune: string)
    : (r: Result<string, CfError>)
    requires IsAscii(nome) && IsAscii(cognome)
    ensures ParseDate(data).None? ==> r == Failure(ValueErrorRaised)
    ensures ParseDate(data).Some? ==> (r == Failure(KeyErrorRaised) <==> !AllCheckChars(comune))
    ensures r.Success? <==> ParseDate(data).Some? && AllCheckChars(comune)
    ensures r.Success? ==>
      var prefix := CfSurname(cognome) + CfName(nome) + CodiceDataNascita(data, sesso).value + comune;
      AllCheckChars(prefix) && r.value == prefix + [CfSpecial(prefix)]
  {
    match CodiceDataNascita(data, sesso)
    case Failure(e) => Failure(e)
    case Success(dateCode) =>
      var prefix := CfSurname(cognome) + CfName(nome) + dateCode + comune;
      DateCodeCheckChars(ParseDate(data).value, sesso);
      PrefixCheckChars(CfSurname(cognome), CfName(nome), dateCode, comune);
      if AllCheckChars(prefix) then Success(prefix + [CfSpecial(prefix)]) else Failure(KeyErrorRaised)
  }

  /** After upper-case name codes and a date code, the prefix is covered by
      the check-letter tables exactly when the comune part is. */
  lemma PrefixCheckChars(surname: string, name: string, dateCode: string, comune: string)
    requires AllUpper(surname) && AllUpper(name) && AllCheckChars(dateCode)
    ensures AllCheckChars(surname + name + dateCode + comune) <==> AllCheckChars(comune)
  {
    var p := surname + name + dateCode + comune;
    var n := |surname| + |name| + |dateCode|;
    forall i | 0 <= i < |comune| ensures p[n + i] == comune[i] {
    }
    forall i | 0 <= i < n ensures IsCheckChar(p[i]) {
      if i < |surname| {
        assert p[i] == surname[i];
      } else if i < |surname| + |name| {
        assert p[i] == name[i - |surname|];
      } else {
        assert p[i] == dateCode[i - |surname| - |name|];
      }
    }
    if AllCheckChars(comune) {
      forall i | n <= i < |p| ensures IsCheckChar(p[i]) {
        assert p[i] == comune[i - n];
      }
    }
  }

  /** Every character of a date code is an upper-case letter or a digit. */
  lemma DateCodeCheckChars(d: Date, sesso: string)
    requires ValidDate(d)
    ensures AllCheckChars(DateCode(d, sesso))
  {
    var y, m, g := YearCode(d.year), [MonthLetters[d.month - 1]], Pad(DayNumber(d.day, sesso), 2);
    assert IsUpperLetter(m[0]);
    assert AllDigits(y) by {
      var t := Decimal(d.year);
      if |t| >= 2 {
        forall i | 0 <= i < |y| ensures IsDigit(y[i]) {
          assert y[i] == t[|t| - 2 + i];
        }
      }
    }
    var s := y + m + g;
    forall i | 0 <= i < |s| ensures IsCheckChar(s[i]) {
      if i < |y| {
        assert s[i] == y[i];
      } else if i == |y| {
        assert s[i] == m[0];
      } else {
        assert s[i] == g[i - |y| - 1];
      }
    }
  }

  /** Passing a comune name, as the console front end does, makes even a known
      comune raise: "Roma" holds lower-case letters. */
  lemma ComuneNameRaises(nome: string, cognome: string, data: string, sesso: string)
    requires IsAscii(nome) && IsAscii(cognome) && ParseDate(data).Some?
    ensures GeneraCodiceFiscale(nome, cognome, data, sesso, "Roma") == Failure(KeyErrorRaised)
  {
    assert !IsCheckChar("Roma"[1]);
  }

  /** genera_codice_fiscale with the comune looked up in the comune table, as
      codice_comune provides: only a bad date makes it fail. */
  function GeneraCodiceFiscaleCorretto(nome: string, cognome: string, data: string, sesso: string, comune: string)
    : (r: Result<string, CfError>)
    requires IsAscii(nome) && IsAscii(cognome) && IsAscii(comune)
    ensures r.Failure? <==> ParseDate(data).None?
    ensures r.Failure? ==> r.error == ValueErrorRaised
    ensures r.Success? ==>
      var prefix := CfSurname(cognome) + CfName(nome) + CodiceDataNascita(data, sesso).value + CodiceComune(comune);
      AllCheckChars(prefix) && r.value == prefix + [CfSpecial(prefix)]
    ensures r.Success? ==>
      |r.value| == |CfSurname(cognome)| + |CfName(nome)| + |YearCode(ParseDate(data).value.year)| + 3 + 4 + 1
  {
    match CodiceDataNascita(data, sesso)
    case Failure(e) => Failure(e)
    case Success(dateCode) =>
      var prefix := CfSurname(cognome) + CfName(nome) + dateCode + CodiceComune(comune);
      DateCodeCheckChars(ParseDate(data).value, sesso);
      PrefixCheckChars(CfSurname(cognome), CfName(nome), dateCode, CodiceComune(comune));
      Success(prefix + [CfSpecial(prefix)])
  }

  /** Names of three or more letters with a consonant each and a year from 10
      on give a code of sixteen characters whose last is the check letter of
      the fifteen before it. */
  lemma SixteenCharacters(nome: string, cognome: string, data: string, sesso: string, comune: string)
    requires IsAscii(nome) && IsAscii(cognome) && IsAscii(comune)
    requires |Letters(nome)| >= 3 && |Consonants(nome)| >= 1
    requires |Letters(cognome)| >= 3 && |Consonants(cognome)| >= 1
    requires ParseDate(data).Some? && ParseDate(data).value.year >= 10
    ensures var r := GeneraCodiceFiscaleCorretto(nome, cognome, data, sesso, comune);
            r.Success? && |r.value| == 16 && AllCheckChars(r.value[..15]) && r.value[15] == CfSpecial(r.value[..15])
  {
    CodesHaveThreeLetters(nome);
    CodesHaveThreeLetters(cognome);
    var r := GeneraCodiceFiscaleCorretto(nome, cognome, data, sesso, comune);
    assert r.value[..15] == CfSurname(cognome) + CfName(nome) + CodiceDataNascita(data, sesso).value + CodiceComune(comune);
  }

  /** With the lookup, "Roma" in any case contributes H501 just before the
      check letter. */
  lemma ComuneLookedUp(nome: string, cognome: string, data: string, sesso: string, comune: string)
    requires IsAscii(nome) && IsAscii(cognome) && IsAscii(comune) && ParseDate(data).Some?
    requires Upper(comune) == "ROMA"
    ensures var r := GeneraCodiceFiscaleCorretto(nome, cognome, data, sesso, comune);
            r.Success? && |r.value| >= 5 && r.value[|r.value| - 5..|r.value| - 1] == "H501"
  {
    var r := GeneraCodiceFiscaleCorretto(nome, cognome, data, sesso, comune);
    var prefix := CfSurname(cognome) + CfName(nome) + CodiceDataNascita(data, sesso).value + CodiceComune(comune);
    assert CodiceComune(comune) == "H501";
    assert r.value[|r.value| - 5..|r.value| - 1] == prefix[|prefix| - 4..];
  }
}

/**
 * The proleptic Gregorian calendar of ECMAScript `Date`s, in UTC, and the
 * ISO form `toISOString` writes: `YYYY-MM-DDTHH:mm:ss.sssZ`, with a
 * signed six-digit year (`+YYYYYY` or `-YYYYYY`) outside 0 to 9999.
 *
 * A time value is valid when it lies within 8.64e15 ms of the epoch;
 * every valid time has exactly one ISO string, and `ParseIso` reads that
 * string, and no other, back to the time.
 */
module Calendar {
  import opened Wrappers
  import opened Schema

  /** A `Date` holds at most 100 000 000 days either side of the epoch. */
  const MaxTimeValue: int := 8_640_000_000_000_000

  predicate IsValidTime(t: Time) {
    -MaxTimeValue <= t <= MaxTimeValue
  }

  // ---------------------------------------------------------------- years

  predicate IsLeapYear(y: int) {
    y % 4 == 0 && (y % 100 != 0 || y % 400 == 0)
  }

  function DaysInYear(y: int): (n: int)
    ensures n == 365 || n == 366
  {
    if IsLeapYear(y) then 366 else 365
  }

  /** The days from 1 January of year `a` to 1 January of year `b`; negative when `b` is earlier. */
  function DaysFrom(a: int, b: int): int
    decreases if a <= b then b - a else a - b
  {
    if a == b then 0
    else if a < b then DaysInYear(a) + DaysFrom(a + 1, b)
    else DaysFrom(a - 1, b) - DaysInYear(a - 1)
  }

  lemma DaysFromStep(a: int, b: int)
    ensures DaysFrom(a, b) == DaysInYear(a) + DaysFrom(a + 1, b)
  {
    if a >= b {
      assert DaysFrom(a + 1, b) == DaysFrom(a, b) - DaysInYear(a);
    }
  }

  /** A year has at least 365 days, so years apart are at least that many days apart. */
  lemma {:induction false} DaysFromBounds(a: int, b: int)
    ensures a <= b ==> 365 * (b - a) <= DaysFrom(a, b)
    ensures b <= a ==> DaysFrom(a, b) <= -365 * (a - b)
    decreases if a <= b then b - a else a - b
  {
    if a < b {
      DaysFromBounds(a + 1, b);
    } else if a > b {
      DaysFromBounds(a - 1, b);
    }
  }

  /** An earlier year `b` starts at least its own length before the start of `a`. */
  lemma {:induction false} DaysFromBelow(a: int, b: int)
    requires b < a
    ensures DaysFrom(a, b) <= -DaysInYear(b)
    decreases a - b
  {
    if b < a - 1 {
      DaysFromBelow(a - 1, b);
    }
  }

  /**
   * The year that day `z`, counted from 1 January of year `y`, falls in,
   * and the day's index within that year.
   */
  function YearOf(y: int, z: int): (r: (int, int))
    ensures 0 <= r.1 < DaysInYear(r.0)
    ensures DaysFrom(y, r.0) + r.1 == z
    decreases if z < 0 then 1 else 0, if z < 0 then -z else z
  {
    if z < 0 then
      var r := YearOf(y - 1, z + DaysInYear(y - 1));
      DaysFromStep(y - 1, r.0);
      r
    else if z >= DaysInYear(y) then
      var r := YearOf(y + 1, z - DaysInYear(y));
      DaysFromStep(y, r.0);
      r
    else
      (y, z)
  }

  /** Day `d` of year `b` is found in year `b`, whichever year the count starts from. */
  lemma {:induction false} YearOfDaysFrom(a: int, b: int, d: int)
    requires 0 <= d < DaysInYear(b)
    ensures YearOf(a, DaysFrom(a, b) + d) == (b, d)
    decreases if a <= b then b - a else a - b
  {
    var z := DaysFrom(a, b) + d;
    if a < b {
      DaysFromBounds(a + 1, b);
      assert z - DaysInYear(a) == DaysFrom(a + 1, b) + d;
      YearOfDaysFrom(a + 1, b, d);
      assert YearOf(a, z) == YearOf(a + 1, z - DaysInYear(a));
    } else if a > b {
      if b < a - 1 {
        DaysFromBelow(a - 1, b);
      }
      assert z + DaysInYear(a - 1) == DaysFrom(a - 1, b) + d;
      YearOfDaysFrom(a - 1, b, d);
      assert YearOf(a, z) == YearOf(a - 1, z + DaysInYear(a - 1));
    }
  }

  // ---------------------------------------------------------------- months

  /** The days of year `y` before month `m`; month 13 stands for the year's end. */
  function DaysBeforeMonth(y: int, m: int): int
    requires 1 <= m <= 13
  {
    (if m == 1 then 0 else if m == 2 then 31 else if m == 3 then 59 else if m == 4 then 90
     else if m == 5 then 120 else if m == 6 then 151 else if m == 7 then 181 else if m == 8 then 212
     else if m == 9 then 243 else if m == 10 then 273 else if m == 11 then 304 else if m == 12 then 334
     else 365)
    + (if m > 2 && IsLeapYear(y) then 1 else 0)
  }

  function DaysInMonth(y: int, m: int): (n: int)
    requires 1 <= m <= 12
    ensures 28 <= n <= 31
    ensures n == DaysBeforeMonth(y, m + 1) - DaysBeforeMonth(y, m)
    ensures m == 2 ==> (n == 29 <==> IsLeapYear(y))
  {
    if m == 2 then (if IsLeapYear(y) then 29 else 28)
    else if m == 4 || m == 6 || m == 9 || m == 11 then 30
    else 31
  }

  lemma MonthsFillTheYear(y: int)
    ensures DaysBeforeMonth(y, 1) == 0 && DaysBeforeMonth(y, 13) == DaysInYear(y)
  {
  }

  lemma DaysBeforeMonthIncreases(y: int, k: int, m: int)
    requires 1 <= k < m <= 13
    ensures DaysBeforeMonth(y, k) < DaysBeforeMonth(y, m)
  {
  }

  /** The month (1 to 12) that day `doy` of year `y` falls in, searching from month `m`. */
  function MonthFrom(y: int, doy: int, m: int): (r: int)
    requires 1 <= m <= 12 && DaysBeforeMonth(y, m) <= doy < DaysInYear(y)
    ensures m <= r <= 12 && DaysBeforeMonth(y, r) <= doy < DaysBeforeMonth(y, r + 1)
    decreases 12 - m
  {
    if m == 12 || doy < DaysBeforeMonth(y, m + 1) then m else MonthFrom(y, doy, m + 1)
  }

  /** The search finds the one month whose days hold `doy`. */
  lemma {:induction false} MonthFromFinds(y: int, doy: int, start: int, m: int)
    requires 1 <= start <= m <= 12
    requires DaysBeforeMonth(y, m) <= doy < DaysBeforeMonth(y, m + 1)
    ensures DaysBeforeMonth(y, start) <= doy < DaysInYear(y)
    ensures MonthFrom(y, doy, start) == m
    decreases m - start
  {
    if start < m {
      DaysBeforeMonthIncreases(y, start, m);
      DaysBeforeMonthIncreases(y, start + 1, m + 1);
      MonthFromFinds(y, doy, start + 1, m);
    }
    if m < 12 {
      DaysBeforeMonthIncreases(y, m + 1, 13);
    }
  }

  // ---------------------------------------------------------------- civil dates

  /** A UTC calendar date and wall-clock time. */
  datatype Civil = Civil(year: int, month: int, day: int, hour: int, minute: int, second: int, milli: int)

  predicate IsValidCivil(c: Civil) {
    && 1 <= c.month <= 12 && 1 <= c.day <= DaysInMonth(c.year, c.month)
    && 0 <= c.hour < 24 && 0 <= c.minute < 60 && 0 <= c.second < 60 && 0 <= c.milli < 1000
  }

  /** The calendar date and clock of a time value. */
  function CivilOf(t: Time): (c: Civil)
    ensures IsValidCivil(c)
  {
    var (y, doy) := YearOf(1970, t / DayMillis);
    MonthsFillTheYear(y);
    var m := MonthFrom(y, doy, 1);
    var ms := t % DayMillis;
    var secs := ms / 1000;
    var mins := secs / 60;
    Civil(y, m, doy - DaysBeforeMonth(y, m) + 1, mins / 60, mins % 60, secs % 60, ms % 1000)
  }

  /** The days since the epoch of a date's midnight. */
  function DayNumber(c: Civil): int
    requires 1 <= c.month <= 12
  {
    DaysFrom(1970, c.year) + DaysBeforeMonth(c.year, c.month) + c.day - 1
  }

  /** The milliseconds since midnight of a clock. */
  function ClockMillis(c: Civil): int {
    ((c.hour * 60 + c.minute) * 60 + c.second) * 1000 + c.milli
  }

  /** The time value of a date and clock: `Date.UTC`. */
  function TimeOf(c: Civil): Time
    requires 1 <= c.month <= 12
  {
    DayNumber(c) * DayMillis + ClockMillis(c)
  }

  /** Whole days and milliseconds into the day are the quotient and remainder by a day. */
  lemma DayDivision(t: Time, q: int, r: int)
    requires 0 <= r < DayMillis && t == q * DayMillis + r
    ensures t / DayMillis == q && t % DayMillis == r
  {
  }

  lemma ClockDivision(ms: int, secs: int, mins: int, c: Civil)
    requires 0 <= c.minute < 60 && 0 <= c.second < 60 && 0 <= c.milli < 1000
    requires ms == ClockMillis(c) && secs == ms / 1000 && mins == secs / 60
    ensures ms % 1000 == c.milli && secs % 60 == c.second && mins % 60 == c.minute && mins / 60 == c.hour
  {
    assert ms == ((c.hour * 60 + c.minute) * 60 + c.second) * 1000 + c.milli;
    assert secs == (c.hour * 60 + c.minute) * 60 + c.second;
    assert mins == c.hour * 60 + c.minute;
  }

  /** Reading a time value's date and clock back gives the time value. */
  lemma TimeOfCivilOf(t: Time)
    ensures TimeOf(CivilOf(t)) == t
  {
    var c := CivilOf(t);
    var ms := t % DayMillis;
    var secs := ms / 1000;
    var mins := secs / 60;
    assert ClockMillis(c) == ms by {
      assert c.hour * 60 + c.minute == mins;
      assert mins * 60 + c.second == secs;
      assert secs * 1000 + c.milli == ms;
    }
    assert DayNumber(c) == t / DayMillis;
  }

  /** A valid date and clock is the date and clock of its own time value. */
  lemma CivilOfTimeOf(c: Civil)
    requires IsValidCivil(c)
    ensures CivilOf(TimeOf(c)) == c
  {
    var t := TimeOf(c);
    assert 0 <= ClockMillis(c) < DayMillis;
    DayDivision(t, DayNumber(c), ClockMillis(c));
    DateOfDayNumber(c);
    var ms := t % DayMillis;
    ClockDivision(ms, ms / 1000, ms / 1000 / 60, c);
  }

  /** The day number of a valid date falls in that date's year, on that date's day of the year and in its month. */
  lemma DateOfDayNumber(c: Civil)
    requires IsValidCivil(c)
    ensures YearOf(1970, DayNumber(c)) == (c.year, DaysBeforeMonth(c.year, c.month) + c.day - 1)
    ensures DaysBeforeMonth(c.year, 1) <= DaysBeforeMonth(c.year, c.month) + c.day - 1 < DaysInYear(c.year)
    ensures MonthFrom(c.year, DaysBeforeMonth(c.year, c.month) + c.day - 1, 1) == c.month
  {
    var doy := DaysBeforeMonth(c.year, c.month) + c.day - 1;
    if c.month < 12 {
      DaysBeforeMonthIncreases(c.year, c.month + 1, 13);
    }
    MonthsFillTheYear(c.year);
    YearOfDaysFrom(1970, c.year, doy);
    MonthFromFinds(c.year, doy, 1, c.month);
  }

  /** The years a valid time can fall in: at most six digits. */
  lemma YearOfValidTime(t: Time)
    requires IsValidTime(t)
    ensures -999_999 <= CivilOf(t).year <= 999_999
  {
    var days := t / DayMillis;
    assert -100_000_000 <= days <= 100_000_000;
    var (y, doy) := YearOf(1970, days);
    DaysFromBounds(1970, y);
  }

  /** Cutting a time to its day keeps its date and zeroes its clock. */
  lemma CivilOfStartOfDay(t: Time)
    ensures CivilOf(StartOfDay(t)) == CivilOf(t).(hour := 0, minute := 0, second := 0, milli := 0)
  {
    DayDivision(StartOfDay(t), t / DayMillis, 0);
  }

  // ---------------------------------------------------------------- digits

  function Pow10(k: nat): (p: nat)
    ensures p >= 1
  {
    if k == 0 then 1 else 10 * Pow10(k - 1)
  }

  predicate IsDigit(ch: char) {
    '0' <= ch <= '9'
  }

  function DigitChar(d: int): (ch: char)
    requires 0 <= d < 10
    ensures IsDigit(ch) && ch as int - '0' as int == d
  {
    ('0' as int + d) as char
  }

  /** The last `width` decimal digits of `n`, with leading zeros. */
  function Pad(n: nat, width: nat): (s: string)
    ensures |s| == width
    ensures forall i :: 0 <= i < |s| ==> IsDigit(s[i])
  {
    if width == 0 then [] else Pad(n / 10, width - 1) + [DigitChar(n % 10)]
  }

  /** The number a string of decimal digits denotes, or `None` when a character is not a digit. */
  function DigitsValue(s: string): (r: Option<nat>)
    ensures r.Some? <==> forall i :: 0 <= i < |s| ==> IsDigit(s[i])
    ensures r.Some? ==> r.value < Pow10(|s|)
  {
    if s == [] then Some(0)
    else if !IsDigit(s[|s| - 1]) then None
    else
      var init := s[..|s| - 1];
      assert forall i :: 0 <= i < |init| ==> init[i] == s[i];
      match DigitsValue(init)
      case None => None
      case Some(v) => Some(10 * v + (s[|s| - 1] as int - '0' as int))
  }

  lemma {:induction false} DigitsOfPad(n: nat, width: nat)
    requires n < Pow10(width)
    ensures DigitsValue(Pad(n, width)) == Some(n)
  {
    if width > 0 {
      var s := Pad(n, width);
      assert s[..|s| - 1] == Pad(n / 10, width - 1);
      DigitsOfPad(n / 10, width - 1);
    }
  }

  lemma {:induction false} PadOfDigits(s: string)
    requires DigitsValue(s).Some?
    ensures Pad(DigitsValue(s).value, |s|) == s
  {
    if s != [] {
      var init, last := s[..|s| - 1], s[|s| - 1];
      assert DigitsValue(init).Some?;
      PadOfDigits(init);
      var v, d := DigitsValue(init).value, last as int - '0' as int;
      var n := 10 * v + d;
      assert DigitsValue(s) == Some(n);
      assert n / 10 == v && n % 10 == d;
      assert DigitChar(d) == last;
      assert Pad(n, |s|) == Pad(v, |init|) + [last];
      assert s == init + [last];
    }
  }

  // ---------------------------------------------------------------- the ISO string

  /** `YYYY` for years 0 to 9999, else a sign and six digits. */
  function YearText(y: int): string {
    if 0 <= y <= 9999 then Pad(y, 4)
    else if y < 0 then "-" + Pad(-y, 6)
    else "+" + Pad(y, 6)
  }

  function ParseYear(s: string): (r: Option<int>)
    ensures r.Some? ==> YearText(r.value) == s
  {
    if |s| == 4 then
      match DigitsValue(s)
      case None => None
      case Some(v) => PadOfDigits(s); Some(v)
    else if |s| == 7 && (s[0] == '+' || s[0] == '-') then
      match DigitsValue(s[1..])
      case None => None
      case Some(v) =>
        var y: int := if s[0] == '-' then -(v as int) else v;
        if 0 <= y <= 9999 then None
        else
          PadOfDigits(s[1..]);
          assert s == [s[0]] + s[1..];
          Some(y)
    else None
  }

  lemma ParseYearText(y: int)
    requires -999_999 <= y <= 999_999
    ensures ParseYear(YearText(y)) == Some(y)
  {
    if 0 <= y <= 9999 {
      DigitsOfPad(y, 4);
    } else {
      var v := if y < 0 then -y else y;
      DigitsOfPad(v, 6);
      assert YearText(y)[1..] == Pad(v, 6);
    }
  }

  /** Everything after the year: `-MM-DDTHH:mm:ss.sssZ`, twenty characters. */
  function TailText(c: Civil): (s: string)
    requires IsValidCivil(c)
    ensures |s| == 20
  {
    "-" + Pad(c.month, 2) + "-" + Pad(c.day, 2) + "T" + Pad(c.hour, 2) + ":" + Pad(c.minute, 2)
    + ":" + Pad(c.second, 2) + "." + Pad(c.milli, 3) + "Z"
  }

  function FormatCivil(c: Civil): string
    requires IsValidCivil(c)
  {
    YearText(c.year) + TailText(c)
  }

  /** The two-digit number at `s[i..i+2]`. */
  function TwoDigits(s: string, i: nat): Option<nat>
    requires i + 2 <= |s|
  {
    DigitsValue(s[i..i + 2])
  }

  /** Reads the twenty characters after the year into a date and clock of year `y`. */
  function ParseTail(y: int, s: string): (r: Option<Civil>)
    requires |s| == 20
    ensures r.Some? ==> IsValidCivil(r.value) && r.value.year == y && TailText(r.value) == s
  {
    if s[0] != '-' || s[3] != '-' || s[6] != 'T' || s[9] != ':' || s[12] != ':' || s[15] != '.' || s[19] != 'Z'
    then None
    else
      match (TwoDigits(s, 1), TwoDigits(s, 4), TwoDigits(s, 7), TwoDigits(s, 10), TwoDigits(s, 13), DigitsValue(s[16..19]))
      case (Some(mo), Some(d), Some(h), Some(mi), Some(sec), Some(ms)) =>
        var c := Civil(y, mo, d, h, mi, sec, ms);
        if IsValidCivil(c) then
          TailOfParts(s, c);
          Some(c)
        else None
      case _ => None
  }

  lemma TailOfParts(s: string, c: Civil)
    requires |s| == 20 && IsValidCivil(c)
    requires s[0] == '-' && s[3] == '-' && s[6] == 'T' && s[9] == ':' && s[12] == ':' && s[15] == '.' && s[19] == 'Z'
    requires DigitsValue(s[1..3]) == Some(c.month) && DigitsValue(s[4..6]) == Some(c.day)
    requires DigitsValue(s[7..9]) == Some(c.hour) && DigitsValue(s[10..12]) == Some(c.minute)
    requires DigitsValue(s[13..15]) == Some(c.second) && DigitsValue(s[16..19]) == Some(c.milli)
    ensures TailText(c) == s
  {
    PadOfDigits(s[1..3]);
    PadOfDigits(s[4..6]);
    PadOfDigits(s[7..9]);
    PadOfDigits(s[10..12]);
    PadOfDigits(s[13..15]);
    PadOfDigits(s[16..19]);
    TailSlices(c);
    SameTail(TailText(c), s);
  }

  /** Two tails that agree on the separators and on every field are equal. */
  lemma SameTail(t: string, s: string)
    requires |t| == 20 && |s| == 20
    requires t[0] == s[0] && t[3] == s[3] && t[6] == s[6] && t[9] == s[9]
    requires t[12] == s[12] && t[15] == s[15] && t[19] == s[19]
    requires t[1..3] == s[1..3] && t[4..6] == s[4..6] && t[7..9] == s[7..9]
    requires t[10..12] == s[10..12] && t[13..15] == s[13..15] && t[16..19] == s[16..19]
    ensures t == s
  {
    forall i | 0 <= i < 20
      ensures t[i] == s[i]
    {
      if 1 <= i < 3 {
        SliceAt(t, s, 1, 3, i);
      } else if 4 <= i < 6 {
        SliceAt(t, s, 4, 6, i);
      } else if 7 <= i < 9 {
        SliceAt(t, s, 7, 9, i);
      } else if 10 <= i < 12 {
        SliceAt(t, s, 10, 12, i);
      } else if 13 <= i < 15 {
        SliceAt(t, s, 13, 15, i);
      } else if 16 <= i < 19 {
        SliceAt(t, s, 16, 19, i);
      }
    }
  }

  /** Two strings with equal slices agree at each index of the slice. */
  lemma SliceAt(t: string, s: string, i: nat, j: nat, k: nat)
    requires i <= k < j <= |t| && j <= |s| && t[i..j] == s[i..j]
    ensures t[k] == s[k]
  {
    assert t[k] == t[i..j][k - i];
  }

  /** Where each part sits in the tail. */
  lemma TailSlices(c: Civil)
    requires IsValidCivil(c)
    ensures var s := TailText(c);
      && s[0] == '-' && s[3] == '-' && s[6] == 'T' && s[9] == ':' && s[12] == ':' && s[15] == '.' && s[19] == 'Z'
      && s[1..3] == Pad(c.month, 2) && s[4..6] == Pad(c.day, 2) && s[7..9] == Pad(c.hour, 2)
      && s[10..12] == Pad(c.minute, 2) && s[13..15] == Pad(c.second, 2) && s[16..19] == Pad(c.milli, 3)
  {
  }

  lemma ParseTailText(c: Civil)
    requires IsValidCivil(c)
    ensures ParseTail(c.year, TailText(c)) == Some(c)
  {
    TailSlices(c);
    DigitsOfPad(c.month, 2);
    DigitsOfPad(c.day, 2);
    DigitsOfPad(c.hour, 2);
    DigitsOfPad(c.minute, 2);
    DigitsOfPad(c.second, 2);
    DigitsOfPad(c.milli, 3);
  }

  /** Reads an ISO string into a date and clock; `None` for any other string. */
  function ParseCivil(s: string): (r: Option<Civil>)
    ensures r.Some? ==> IsValidCivil(r.value) && FormatCivil(r.value) == s
  {
    if |s| < 20 then None
    else
      var head, tail := s[..|s| - 20], s[|s| - 20..];
      match ParseYear(head)
      case None => None
      case Some(y) =>
        match ParseTail(y, tail)
        case None => None
        case Some(c) =>
          FormatOfParts(s, c);
          Some(c)
  }

  /** A string whose year part and tail read back as `c` is `c`'s ISO string. */
  lemma FormatOfParts(s: string, c: Civil)
    requires |s| >= 20 && IsValidCivil(c)
    requires YearText(c.year) == s[..|s| - 20] && TailText(c) == s[|s| - 20..]
    ensures FormatCivil(c) == s
  {
    assert s == s[..|s| - 20] + s[|s| - 20..];
  }

  lemma ParseFormatCivil(c: Civil)
    requires IsValidCivil(c) && -999_999 <= c.year <= 999_999
    ensures ParseCivil(FormatCivil(c)) == Some(c)
  {
    var s := FormatCivil(c);
    var head := YearText(c.year);
    assert s[..|s| - 20] == head && s[|s| - 20..] == TailText(c);
    ParseYearText(c.year);
    ParseTailText(c);
  }

  /** `Date.prototype.toISOString` of a valid time value. */
  function IsoString(t: Time): string
    requires IsValidTime(t)
  {
    FormatCivil(CivilOf(t))
  }

  /** Reading an ISO string into the time it names, when that time is valid. */
  function ParseIso(s: string): (r: Option<Time>)
    ensures r.Some? ==> IsValidTime(r.value) && IsoString(r.value) == s
  {
    match ParseCivil(s)
    case None => None
    case Some(c) =>
      var t := TimeOf(c);
      if IsValidTime(t) then
        CivilOfTimeOf(c);
        Some(t)
      else None
  }

  /** Every valid time's ISO string reads back to it. */
  lemma ParseIsoString(t: Time)
    requires IsValidTime(t)
    ensures ParseIso(IsoString(t)) == Some(t)
  {
    YearOfValidTime(t);
    ParseFormatCivil(CivilOf(t));
    TimeOfCivilOf(t);
  }

  /** Two valid times with the same ISO string are the same time. */
  lemma IsoStringInjective(t: Time, u: Time)
    requires IsValidTime(t) && IsValidTime(u) && IsoString(t) == IsoString(u)
    ensures t == u
  {
    ParseIsoString(t);
    ParseIsoString(u);
  }
}

/** Days since 1970-01-01 from a civil date, and a civil date from days: two conversions that live in two places and
    undo each other. Years are unbounded; `/` and `%` are the Euclidean ones both places use. */
module Civil {

  datatype Date = Date(year: int, month: int, day: int)

  // ---- The two conversions ----

  /** Day of a year that starts on 1 March. */
  function DayOfYear(month: int, day: int): int {
    (153 * (if month > 2 then month - 3 else month + 9) + 2) / 5 + day - 1
  }

  /** The days before year `y`, years starting on 1 March. */
  function BeforeYear(y: int): int {
    var era, yoe := y / 400, y % 400;
    era * 146_097 + yoe * 365 + yoe / 4 - yoe / 100
  }

  function DaysFromCivil(date: Date): int {
    BeforeYear(date.year - (if date.month <= 2 then 1 else 0)) + DayOfYear(date.month, date.day) - 719_468
  }

  function CivilFromDays(days: int): Date {
    var z := days + 719_468;
    DateOfEra(z / 146_097, z % 146_097)
  }

  /** Day `doe` of an era of 400 years. */
  function DateOfEra(era: int, doe: int): Date {
    var yearOfEra := (doe - doe / 1460 + doe / 36_524 - doe / 146_096) / 365;
    var dayOfYear := doe - (365 * yearOfEra + yearOfEra / 4 - yearOfEra / 100);
    var mp := (5 * dayOfYear + 2) / 153;
    var day := dayOfYear - (153 * mp + 2) / 5 + 1;
    var month := if mp < 10 then mp + 3 else mp - 9;
    Date(yearOfEra + era * 400 + (if month <= 2 then 1 else 0), month, day)
  }

  // ---- The calendar ----

  predicate Leap(year: int) {
    year % 4 == 0 && (year % 100 != 0 || year % 400 == 0)
  }

  function DaysInMonth(year: int, month: int): int {
    if month == 2 then (if Leap(year) then 29 else 28)
    else if month == 4 || month == 6 || month == 9 || month == 11 then 30
    else 31
  }

  predicate Valid(date: Date) {
    1 <= date.month <= 12 && 1 <= date.day <= DaysInMonth(date.year, date.month)
  }

  function Tomorrow(date: Date): Date {
    if date.day < DaysInMonth(date.year, date.month) then date.(day := date.day + 1)
    else if date.month < 12 then Date(date.year, date.month + 1, 1)
    else Date(date.year + 1, 1, 1)
  }

  // ---- Years of an era ----

  /** The first day of year `yoe` of an era, years starting on 1 March. */
  function YearStart(yoe: int): int {
    yoe * 365 + yoe / 4 - yoe / 100
  }

  /** Year `yoe` of an era has a 29 February at its end. */
  predicate LongYear(yoe: int) {
    (yoe + 1) % 4 == 0 && ((yoe + 1) % 100 != 0 || (yoe + 1) % 400 == 0)
  }

  lemma Times(d: int, k: int)
    requires d > 0 && k >= 1
    ensures d * k >= d
  {
  }

  lemma Quotient(n: int, d: int, q: int, r: int)
    requires d > 0 && n == d * q + r && 0 <= r < d
    ensures n / d == q && n % d == r
  {
    var p, s := n / d, n % d;
    assert n == d * p + s;
    assert d * (p - q) == r - s && d * (q - p) == s - r;
    if p > q {
      Times(d, p - q);
    } else if p < q {
      Times(d, q - p);
    }
  }

  /** The year of an era from the day of the era, in centuries `c`, olympiads `q` and years `r` of one. */
  lemma YearOfDay(c: int, q: int, r: int, doy: int)
    requires 0 <= c < 4 && 0 <= q < 25 && 0 <= r < 4 && 0 <= doy <= 365
    requires doy == 365 ==> r == 3 && (q < 24 || c == 3)
    ensures var doe := 36_524 * c + 1461 * q + 365 * r + doy;
            0 <= doe < 146_097 && (doe - doe / 1460 + doe / 36_524 - doe / 146_096) / 365 == 100 * c + 4 * q + r
  {
    var rest := 365 * r + doy;
    var x := 1461 * q + rest;
    var doe := 36_524 * c + x;
    var delta := if 24 * c + q + rest >= 1460 then 1 else 0;
    var last := if doe == 146_096 then 1 else 0;
    Quotient(doe, 1460, 25 * c + q + delta, 24 * c + q + rest - 1460 * delta);
    if last == 1 {
      assert c == 3 && x == 36_524;
    } else {
      Quotient(doe, 36_524, c, x);
    }
    assert doe / 36_524 - doe / 146_096 == c;
    var n := doe - doe / 1460 + c;
    assert n == 365 * (100 * c + 4 * q) + rest - delta;
    Quotient(n, 365, 100 * c + 4 * q + r, rest - delta - 365 * r);
  }

  lemma Olympiads(yoe: int) returns (c: int, q: int, r: int)
    requires 0 <= yoe < 400
    ensures 0 <= c < 4 && 0 <= q < 25 && 0 <= r < 4 && yoe == 100 * c + 4 * q + r
    ensures YearStart(yoe) == 36_524 * c + 1461 * q + 365 * r
    ensures LongYear(yoe) <==> r == 3 && (q < 24 || c == 3)
  {
    c, q, r := yoe / 100, yoe % 100 / 4, yoe % 4;
    Quotient(yoe, 4, 25 * c + q, r);
    var next := yoe + 1;
    if r == 3 {
      if q < 24 {
        Quotient(next, 100, c, 4 * q + 4);
      } else {
        Quotient(next, 100, c + 1, 0);
      }
    }
  }

  lemma YearLength(yoe: int)
    requires 0 <= yoe < 400
    ensures (if yoe == 399 then 146_097 else YearStart(yoe + 1)) == YearStart(yoe) + if LongYear(yoe) then 366 else 365
  {
    var c, q, r := Olympiads(yoe);
    if yoe < 399 {
      var c', q', r' := Olympiads(yoe + 1);
    }
  }

  /** A day of a year decodes to that year. */
  lemma YearDecodes(yoe: int, doy: int)
    requires 0 <= yoe < 400 && 0 <= doy <= 365 && (doy == 365 ==> LongYear(yoe))
    ensures var doe := YearStart(yoe) + doy;
            0 <= doe < 146_097 && (doe - doe / 1460 + doe / 36_524 - doe / 146_096) / 365 == yoe
  {
    var c, q, r := Olympiads(yoe);
    YearOfDay(c, q, r, doy);
  }

  /** Every day of an era is a day of one of its years. */
  lemma YearOf(doe: int) returns (yoe: int, doy: int)
    requires 0 <= doe < 146_097
    ensures 0 <= yoe < 400 && 0 <= doy <= 365 && doe == YearStart(yoe) + doy && (doy == 365 ==> LongYear(yoe))
  {
    var c := if doe == 146_096 then 3 else doe / 36_524;
    var x := doe - 36_524 * c;
    var q := if x == 36_524 then 24 else x / 1461;
    var y := x - 1461 * q;
    var r := if y == 1460 then 3 else y / 365;
    doy := y - 365 * r;
    yoe := 100 * c + 4 * q + r;
    var c', q', r' := Olympiads(yoe);
    assert c' == c && q' == q && r' == r;
  }

  // ---- Months of a year ----

  /** Month `mp` counts from March; its days start at `(153 * mp + 2) / 5`. */
  lemma MonthDecodes(mp: int, day: int)
    requires 0 <= mp < 12 && 1 <= day
    requires (153 * mp + 2) / 5 + day - 1 < if mp < 11 then (153 * (mp + 1) + 2) / 5 else 366
    ensures var doy := (153 * mp + 2) / 5 + day - 1;
            0 <= doy <= 365 && (5 * doy + 2) / 153 == mp
  {
    var doy := (153 * mp + 2) / 5 + day - 1;
    Quotient(5 * doy + 2, 153, mp, 5 * doy + 2 - 153 * mp);
  }

  lemma MonthOf(doy: int) returns (mp: int, day: int)
    requires 0 <= doy <= 365
    ensures 0 <= mp < 12 && 1 <= day && doy == (153 * mp + 2) / 5 + day - 1 && mp == (5 * doy + 2) / 153
    ensures doy < if mp < 11 then (153 * (mp + 1) + 2) / 5 else 366
  {
    mp := (5 * doy + 2) / 153;
    day := doy - (153 * mp + 2) / 5 + 1;
  }

  /** The length of a month, by its place in a year that starts in March. */
  lemma MonthLength(year: int, month: int)
    requires 1 <= month <= 12
    ensures var mp := if month > 2 then month - 3 else month + 9;
            var end := if mp < 11 then (153 * (mp + 1) + 2) / 5 else if Leap(year) then 366 else 365;
            (153 * mp + 2) / 5 + DaysInMonth(year, month) == end
  {
  }

  lemma LongYearIsLeap(y: int)
    ensures LongYear(y % 400) <==> Leap(y + 1)
  {
    var k, n := y / 400, y % 400 + 1;
    Quotient(y + 1, 4, n / 4 + 100 * k, n % 4);
    Quotient(y + 1, 100, n / 100 + 4 * k, n % 100);
    Quotient(y + 1, 400, n / 400 + k, n % 400);
  }

  // ---- The conversions undo each other ----

  /** Day `day` of month `mp` (from March) of year `yoe` of era `era`. */
  function DayNumber(era: int, yoe: int, mp: int, day: int): int {
    era * 146_097 + YearStart(yoe) + (153 * mp + 2) / 5 + day - 1 - 719_468
  }

  function DateAt(era: int, yoe: int, mp: int, day: int): Date {
    var month := if mp < 10 then mp + 3 else mp - 9;
    Date(yoe + era * 400 + (if month <= 2 then 1 else 0), month, day)
  }

  predicate IsDay(yoe: int, mp: int, day: int) {
    && 0 <= yoe < 400 && 0 <= mp < 12 && 1 <= day
    && (153 * mp + 2) / 5 + day - 1 < if mp < 11 then (153 * (mp + 1) + 2) / 5 else if LongYear(yoe) then 366 else 365
  }

  lemma Decodes(era: int, yoe: int, mp: int, day: int)
    requires IsDay(yoe, mp, day)
    ensures CivilFromDays(DayNumber(era, yoe, mp, day)) == DateAt(era, yoe, mp, day)
  {
    var doy := (153 * mp + 2) / 5 + day - 1;
    MonthDecodes(mp, day);
    YearDecodes(yoe, doy);
    DayDecodes(era, YearStart(yoe) + doy, yoe, doy, mp, day);
  }

  lemma DayDecodes(era: int, doe: int, yoe: int, doy: int, mp: int, day: int)
    requires 0 <= doe < 146_097 && (doe - doe / 1460 + doe / 36_524 - doe / 146_096) / 365 == yoe
    requires doe == YearStart(yoe) + doy && doy == (153 * mp + 2) / 5 + day - 1 && (5 * doy + 2) / 153 == mp
    ensures CivilFromDays(DayNumber(era, yoe, mp, day)) == DateAt(era, yoe, mp, day)
  {
    EraOfDay(era, doe);
    DayOfEraDecodes(era, doe, yoe, doy, mp, day);
  }

  lemma EraOfDay(era: int, doe: int)
    requires 0 <= doe < 146_097
    ensures CivilFromDays(era * 146_097 + doe - 719_468) == DateOfEra(era, doe)
  {
    Quotient(era * 146_097 + doe, 146_097, era, doe);
  }

  lemma DayOfEraDecodes(era: int, doe: int, yoe: int, doy: int, mp: int, day: int)
    requires (doe - doe / 1460 + doe / 36_524 - doe / 146_096) / 365 == yoe
    requires doe == YearStart(yoe) + doy && doy == (153 * mp + 2) / 5 + day - 1 && (5 * doy + 2) / 153 == mp
    ensures DateOfEra(era, doe) == DateAt(era, yoe, mp, day)
  {
  }

  lemma Encodes(era: int, yoe: int, mp: int, day: int)
    requires 0 <= yoe < 400 && 0 <= mp < 12
    ensures DaysFromCivil(DateAt(era, yoe, mp, day)) == DayNumber(era, yoe, mp, day)
  {
    Quotient(yoe + era * 400, 400, era, yoe);
  }

  lemma ValidIsDay(era: int, yoe: int, mp: int, day: int)
    requires 0 <= yoe < 400 && 0 <= mp < 12
    ensures Valid(DateAt(era, yoe, mp, day)) <==> IsDay(yoe, mp, day)
  {
    var date := DateAt(era, yoe, mp, day);
    MonthLength(date.year, date.month);
    LongYearIsLeap(yoe + era * 400);
    Quotient(yoe + era * 400, 400, era, yoe);
  }

  /** Decoding the day number of a valid date gives the date back. */
  lemma DecodeEncode(date: Date)
    requires Valid(date)
    ensures CivilFromDays(DaysFromCivil(date)) == date
  {
    var y := date.year - (if date.month <= 2 then 1 else 0);
    var era, yoe := y / 400, y % 400;
    var mp := if date.month > 2 then date.month - 3 else date.month + 9;
    assert DateAt(era, yoe, mp, date.day) == date;
    ValidIsDay(era, yoe, mp, date.day);
    Encodes(era, yoe, mp, date.day);
    Decodes(era, yoe, mp, date.day);
  }

  /** Encoding the date of a day number gives the day number back, and the date is a valid one. */
  lemma EncodeDecode(days: int)
    ensures Valid(CivilFromDays(days)) && DaysFromCivil(CivilFromDays(days)) == days
  {
    var era := (days + 719_468) / 146_097;
    var yoe, doy := YearOf((days + 719_468) % 146_097);
    var mp, day := MonthOf(doy);
    assert DayNumber(era, yoe, mp, day) == days;
    assert IsDay(yoe, mp, day);
    Decodes(era, yoe, mp, day);
    Encodes(era, yoe, mp, day);
    ValidIsDay(era, yoe, mp, day);
  }

  /** The next date of the calendar is the next day number, leap years included; with `EncodeDecode` and
      `EpochIsZero` this leaves no other pair of conversions. */
  lemma TomorrowIsNextDay(date: Date)
    requires Valid(date)
    ensures Valid(Tomorrow(date)) && DaysFromCivil(Tomorrow(date)) == DaysFromCivil(date) + 1
  {
    if date.day < DaysInMonth(date.year, date.month) {
    } else if date.month == 2 {
      YearEnds(date.year);
    } else {
      MonthEnds(date.year, date.month);
    }
  }

  /** The first day of a month that is not March comes after the last of the month before. */
  lemma MonthEnds(year: int, month: int)
    requires 1 <= month <= 12 && month != 2
    ensures DayOfYear(if month < 12 then month + 1 else 1, 1) == DayOfYear(month, DaysInMonth(year, month)) + 1
  {
  }

  /** The last day of February and 1 March. */
  lemma YearEnds(year: int)
    ensures DaysFromCivil(Date(year, 3, 1)) == DaysFromCivil(Date(year, 2, DaysInMonth(year, 2))) + 1
  {
    var era, yoe := (year - 1) / 400, (year - 1) % 400;
    LongYearIsLeap(year - 1);
    YearLength(yoe);
    if yoe < 399 {
      Quotient(year, 400, era, yoe + 1);
    } else {
      Quotient(year, 400, era + 1, 0);
    }
  }

  lemma EpochIsZero()
    ensures DaysFromCivil(Date(1970, 1, 1)) == 0 && CivilFromDays(0) == Date(1970, 1, 1)
  {
    assert DaysFromCivil(Date(1970, 1, 1)) == 0;
    DecodeEncode(Date(1970, 1, 1));
  }
}

/** UTC times as text: the minute `cookies` prints, and the time `changes --since` reads. */
module TimeText {
  import opened Wrappers
  import opened Civil

  // ---- Decimal numbers ----

  const I64_MIN: int := -0x8000_0000_0000_0000
  const I64_MAX: int := 0x7fff_ffff_ffff_ffff

  predicate Fits(n: int) {
    I64_MIN <= n <= I64_MAX
  }

  predicate IsDigit(c: char) {
    '0' <= c <= '9'
  }

  predicate AllDigits(s: string) {
    forall i | 0 <= i < |s| :: IsDigit(s[i])
  }

  function Value(s: string): nat
    requires AllDigits(s)
  {
    if s == [] then 0 else 10 * Value(s[..|s| - 1]) + (s[|s| - 1] as int - '0' as int)
  }

  function Digits(n: nat): (s: string)
    ensures s != [] && AllDigits(s) && Value(s) == n
  {
    var last := [('0' as int + n % 10) as char];
    if n < 10 then last
    else
      var s := Digits(n / 10) + last;
      assert s[..|s| - 1] == Digits(n / 10);
      s
  }

  /** Zeros in front up to `width` characters. */
  function Padded(s: string, width: nat): (r: string)
    requires AllDigits(s)
    ensures AllDigits(r) && Value(r) == Value(s) && |r| >= |s|
    decreases width - |s|
  {
    if |s| >= width then s
    else
      ZeroInFront(s);
      Padded(['0'] + s, width)
  }

  lemma {:induction false} ZeroInFront(s: string)
    requires AllDigits(s)
    ensures AllDigits(['0'] + s) && Value(['0'] + s) == Value(s)
  {
    if s == [] {
    } else {
      ZeroInFront(s[..|s| - 1]);
      assert (['0'] + s)[..|s|] == ['0'] + s[..|s| - 1];
    }
  }

  /** `{n:0width}`: the sign counts as one of the characters. */
  function Format(n: int, width: nat): string {
    if n >= 0 then Padded(Digits(n), width) else ['-'] + Padded(Digits(-n), if width > 0 then width - 1 else 0)
  }

  /** `parse::<i64>`: a sign if there is one, digits, and no more than 64 bits. */
  function ParseI64(s: string): Option<int> {
    var signed := s != [] && (s[0] == '-' || s[0] == '+');
    var digits := if signed then s[1..] else s;
    if digits == [] || !AllDigits(digits) then None
    else
      var n: int := if signed && s[0] == '-' then -(Value(digits) as int) else Value(digits);
      if Fits(n) then Some(n) else None
  }

  lemma FormatParses(n: nat, width: nat)
    requires n <= I64_MAX
    ensures var s := Format(n, width); AllDigits(s) && s != [] && ParseI64(s) == Some(n)
  {
    var s := Format(n, width);
    assert IsDigit(s[0]);
  }

  // ---- Pieces of text ----

  function TrimZ(s: string): string {
    if s != [] && s[|s| - 1] == 'Z' then TrimZ(s[..|s| - 1]) else s
  }

  /** The position of the first `T` or space. */
  function DateEnd(s: string): (i: nat)
    ensures i <= |s|
  {
    if s == [] || s[0] == 'T' || s[0] == ' ' then 0 else 1 + DateEnd(s[1..])
  }

  function Split(s: string, c: char): (parts: seq<string>)
    ensures parts != []
  {
    if s == [] then [[]]
    else
      var rest := Split(s[1..], c);
      if s[0] == c then [[]] + rest else [[s[0]] + rest[0]] + rest[1..]
  }

  lemma {:induction false} SplitAt(a: string, c: char, b: string)
    requires c !in a
    ensures Split(a + [c] + b, c) == [a] + Split(b, c)
  {
    var s := a + [c] + b;
    if a == [] {
      assert s[1..] == b;
    } else {
      assert s[1..] == a[1..] + [c] + b;
      SplitAt(a[1..], c, b);
      assert a == [a[0]] + a[1..];
    }
  }

  lemma {:induction false} SplitNone(a: string, c: char)
    requires c !in a
    ensures Split(a, c) == [a]
  {
    if a != [] {
      SplitNone(a[1..], c);
      assert a == [a[0]] + a[1..];
    }
  }

  lemma {:induction false} DateEndAt(a: string, c: char, b: string)
    requires 'T' !in a && ' ' !in a && (c == 'T' || c == ' ')
    ensures DateEnd(a + [c] + b) == |a|
  {
    if a != [] {
      assert (a + [c] + b)[1..] == a[1..] + [c] + b;
      DateEndAt(a[1..], c, b);
    }
  }

  lemma NotDigits(s: string)
    requires AllDigits(s)
    ensures '-' !in s && ':' !in s && ' ' !in s && 'T' !in s
  {
  }

  // ---- What is printed, and what is read ----

  function Printed(date: Date, hour: int, minute: int): string {
    Format(date.year, 4) + ['-'] + Format(date.month, 2) + ['-'] + Format(date.day, 2) + [' ']
    + (Format(hour, 2) + [':'] + Format(minute, 2))
  }

  /** `YYYY-MM-DD HH:MM` of Unix seconds. */
  function UtcMinute(seconds: int): string {
    var rest := seconds % 86_400;
    Printed(CivilFromDays(seconds / 86_400), rest / 3600, rest % 3600 / 60)
  }

  /** What reading a time comes to. `Overflow`: 64 bits do not hold it, which is a panic or a wrong number there. */
  datatype Ms = NotATime | Overflow | Time(ms: int)

  /** Days to milliseconds in 64-bit steps, in the order of the source. */
  function ToMs(date: Date, hour: int, minute: int, second: int): Ms {
    var y := date.year - (if date.month <= 2 then 1 else 0);
    var era, yoe := y / 400, y % 400;
    var centuries := era * 146_097;
    var years := centuries + yoe * 365 + yoe / 4;
    var days := years - yoe / 100 + DayOfYear(date.month, date.day);
    var hours := (days - 719_468) * 24;
    var minutes := (hours + hour) * 60;
    var ms := (minutes + minute) * 60_000;
    if Fits(y) && Fits(centuries) && Fits(years) && Fits(days) && Fits(days - 719_468) && Fits(hours)
       && Fits(hours + hour) && Fits(minutes) && Fits(minutes + minute) && Fits(ms) && Fits(second * 1000)
       && Fits(ms + second * 1000)
    then Time(ms + second * 1000) else Overflow
  }

  /** A time whose date is valid and whose minute is one. */
  function Taken(date: Date, hour: int, minute: int): (r: Ms)
    ensures r == NotATime <==> hour > 23
  {
    if hour > 23 then NotATime else ToMs(date, hour, minute, 0)
  }

  /** Unix milliseconds of `YYYY-MM-DD[THH:MM[:SS]][Z]`. */
  function UtcMs(text: string): Ms {
    var trimmed := TrimZ(text);
    var end := DateEnd(trimmed);
    var time := if end < |trimmed| then trimmed[end + 1..] else "00:00";
    FromParts(Split(trimmed[..end], '-'), Split(time, ':'))
  }

  /** The time of the date's parts `d` and the time's parts `t`; parts after the seconds are not looked at. */
  function FromParts(d: seq<string>, t: seq<string>): Ms {
    if |d| != 3 || |t| < 2 then NotATime
    else
      var year, month, day := ParseI64(d[0]), ParseI64(d[1]), ParseI64(d[2]);
      var hour, minute, second := ParseI64(t[0]), ParseI64(t[1]), if |t| > 2 then ParseI64(t[2]) else Some(0);
      if year.None? || month.None? || day.None? || hour.None? || minute.None? || second.None? then NotATime
      else if !(1 <= month.value <= 12) || !(1 <= day.value <= 31) || hour.value > 23 || minute.value > 59
              || second.value > 59 then NotATime
      else ToMs(Date(year.value, month.value, day.value), hour.value, minute.value, second.value)
  }

  // ---- Reading back what was printed ----

  /** The date of a text whose parts are digits, but for the year's sign. */
  lemma DateParts(y: string, m: string, d: string)
    requires y != [] && AllDigits(y[1..]) && (y[0] == '-' || IsDigit(y[0])) && AllDigits(m) && AllDigits(d)
    ensures var date := y + ['-'] + m + ['-'] + d;
            && ' ' !in date && 'T' !in date
            && (IsDigit(y[0]) ==> Split(date, '-') == [y, m, d])
            && (!IsDigit(y[0]) ==> Split(date, '-')[0] == [])
  {
    var date := y + ['-'] + m + ['-'] + d;
    NotDigits(m);
    NotDigits(d);
    NotDigits(y[1..]);
    assert y == [y[0]] + y[1..];
    if IsDigit(y[0]) {
      assert date == y + ['-'] + (m + ['-'] + d);
      SplitAt(y, '-', m + ['-'] + d);
      SplitAt(m, '-', d);
      SplitNone(d, '-');
    } else {
      assert date == [] + ['-'] + date[1..];
      SplitAt([], '-', date[1..]);
    }
  }

  /** Reading a text that is a date, a separator and a time. */
  lemma ReadText(date: string, c: char, time: string)
    requires 'T' !in date && ' ' !in date && (c == 'T' || c == ' ') && time != [] && IsDigit(time[|time| - 1])
    ensures UtcMs(date + [c] + time) == FromParts(Split(date, '-'), Split(time, ':'))
  {
    CutAt(date, c, time);
    DateEndAt(date, c, time);
  }

  lemma CutAt(date: string, c: char, time: string)
    requires time != []
    ensures var text := date + [c] + time;
            && text[|text| - 1] == time[|time| - 1] && |date| < |text|
            && text[..|date|] == date && text[|date| + 1..] == time
  {
  }

  /** A year that is not negative is no further off than the day. */
  lemma YearIsNear(date: Date)
    requires Valid(date) && date.year >= 0
    ensures 365 * (date.year - 2000) <= DaysFromCivil(date)
  {
    var y := date.year - (if date.month <= 2 then 1 else 0);
    var era, yoe := y / 400, y % 400;
    assert y == 400 * era + yoe && era >= -1;
    assert yoe / 4 >= yoe / 100;
    assert DayOfYear(date.month, date.day) >= 0;
  }

  /** The 64-bit steps of a day that is a second's, at a minute of it. */
  lemma MsOfMinute(date: Date, hour: int, minute: int)
    requires Valid(date) && date.year >= 0 && 0 <= hour <= 23 && 0 <= minute <= 59
    requires Fits(DaysFromCivil(date) * 86_400)
    ensures var ms := ((DaysFromCivil(date) * 24 + hour) * 60 + minute) * 60_000;
            ToMs(date, hour, minute, 0) == if Fits(ms) then Time(ms) else Overflow
  {
    YearIsNear(date);
    var y := date.year - (if date.month <= 2 then 1 else 0);
    var era, yoe := y / 400, y % 400;
    assert y == 400 * era + yoe && era >= -1 && 0 <= yoe < 400;
    assert 0 <= yoe / 100 <= yoe / 4 <= 100;
    var doy := DayOfYear(date.month, date.day);
    assert 0 <= doy <= 400;
    var days := DaysFromCivil(date);
    assert days == era * 146_097 + yoe * 365 + yoe / 4 - yoe / 100 + doy - 719_468;
  }

  /** Reading a printed minute back gives the minute, in milliseconds, for every 64-bit second whose year is not
      negative and whose milliseconds fit in 64 bits; a negative year is not a time, and milliseconds that do not
      fit overflow. */
  lemma MinuteReadsBack(seconds: int)
    requires Fits(seconds)
    ensures var minute := seconds - seconds % 60;
            UtcMs(UtcMinute(seconds)) ==
            if CivilFromDays(seconds / 86_400).year < 0 then NotATime
            else if Fits(minute * 1000) then Time(minute * 1000)
            else Overflow
  {
    var days, rest := seconds / 86_400, seconds % 86_400;
    var c := CivilFromDays(days);
    EncodeDecode(days);
    var hour, minute := rest / 3600, rest % 3600 / 60;
    if c.year >= 0 {
      YearIsNear(c);
      MsOfMinute(c, hour, minute);
    }
    ReadPrinted(c, hour, minute);
    MinuteOfDay(seconds);
  }

  lemma MinuteOfDay(seconds: int)
    ensures var days, rest := seconds / 86_400, seconds % 86_400;
            ((days * 24 + rest / 3600) * 60 + rest % 3600 / 60) * 60 == seconds - seconds % 60
  {
    var days, rest := seconds / 86_400, seconds % 86_400;
    Quotient(seconds, 60, 1440 * days + rest / 60, rest % 60);
    Quotient(rest, 60, 60 * (rest / 3600) + rest % 3600 / 60, rest % 3600 % 60);
  }

  lemma PartsRead(y: string, m: string, d: string, h: string, n: string, date: Date, hour: int, minute: int)
    requires Valid(date) && 0 <= minute <= 59
    requires ParseI64(m) == Some(date.month) && ParseI64(d) == Some(date.day)
    requires ParseI64(h) == Some(hour) && ParseI64(n) == Some(minute)
    requires ParseI64(y) == Some(date.year)
    ensures FromParts([y, m, d], [h, n]) == Taken(date, hour, minute)
  {
  }

  lemma TimeParts(h: string, n: string)
    requires ':' !in h && AllDigits(n) && n != []
    ensures var time := h + [':'] + n; Split(time, ':') == [h, n] && IsDigit(time[|time| - 1])
  {
    NotDigits(n);
    SplitAt(h, ':', n);
    SplitNone(n, ':');
  }

  /** Reading `y-m-d`, a separator and `h:n`, whose parts are the numbers of a date and a time; the year and the
      hour may carry a sign. */
  lemma ReadNumbers(y: string, m: string, d: string, c: char, h: string, n: string, date: Date, hour: int, minute: int)
    requires y != [] && AllDigits(y[1..]) && (y[0] == '-' || IsDigit(y[0])) && AllDigits(m) && AllDigits(d)
    requires ':' !in h && AllDigits(n) && n != [] && (c == 'T' || c == ' ')
    requires Valid(date) && 0 <= minute <= 59
    requires IsDigit(y[0]) ==> ParseI64(y) == Some(date.year)
    requires ParseI64(m) == Some(date.month) && ParseI64(d) == Some(date.day)
    requires ParseI64(h) == Some(hour) && ParseI64(n) == Some(minute)
    ensures UtcMs(y + ['-'] + m + ['-'] + d + [c] + (h + [':'] + n))
         == if IsDigit(y[0]) then Taken(date, hour, minute) else NotATime
  {
    DateParts(y, m, d);
    TimeParts(h, n);
    ReadText(y + ['-'] + m + ['-'] + d, c, h + [':'] + n);
    if IsDigit(y[0]) {
      PartsRead(y, m, d, h, n, date, hour, minute);
    } else {
      NoYear(Split(y + ['-'] + m + ['-'] + d, '-'), [h, n]);
    }
  }

  lemma NoYear(d: seq<string>, t: seq<string>)
    requires d != [] && d[0] == []
    ensures FromParts(d, t) == NotATime
  {
    assert ParseI64([]) == None;
  }

  /** The parts of a printed date, as numbers. */
  lemma PrintedDate(date: Date)
    requires Valid(date) && date.year <= I64_MAX
    ensures var y, m, d := Format(date.year, 4), Format(date.month, 2), Format(date.day, 2);
            && y != [] && AllDigits(y[1..]) && (if date.year < 0 then y[0] == '-' else IsDigit(y[0]))
            && (date.year >= 0 ==> ParseI64(y) == Some(date.year)) && AllDigits(m) && AllDigits(d)
            && ParseI64(m) == Some(date.month) && ParseI64(d) == Some(date.day)
  {
    FormatParses(date.month, 2);
    FormatParses(date.day, 2);
    if date.year >= 0 {
      FormatParses(date.year, 4);
    } else {
      assert Format(date.year, 4)[1..] == Padded(Digits(-date.year), 3);
    }
  }

  lemma ReadPrinted(date: Date, hour: int, minute: int)
    requires Valid(date) && date.year <= I64_MAX && 0 <= hour <= 23 && 0 <= minute <= 59
    ensures UtcMs(Printed(date, hour, minute)) == if date.year < 0 then NotATime else ToMs(date, hour, minute, 0)
  {
    PrintedDate(date);
    FormatParses(hour, 2);
    FormatParses(minute, 2);
    NotDigits(Format(hour, 2));
    ReadNumbers(Format(date.year, 4), Format(date.month, 2), Format(date.day, 2), ' ', Format(hour, 2),
                Format(minute, 2), date, hour, minute);
  }

  function At(date: Date, h: string, minute: int): string {
    Format(date.year, 4) + ['-'] + Format(date.month, 2) + ['-'] + Format(date.day, 2) + ['T']
    + (h + [':'] + Format(minute, 2))
  }

  /** An hour is refused exactly when it is after 23: one before midnight is taken, so an hour written `-5` is five
      hours before the date. */
  lemma OnlyLateHoursAreRefused(date: Date, h: string, hour: int, minute: int)
    requires Valid(date) && 0 <= date.year <= I64_MAX && 0 <= minute <= 59
    requires ParseI64(h) == Some(hour)
    ensures UtcMs(At(date, h, minute)) == NotATime <==> hour > 23
    ensures hour <= 23 ==> UtcMs(At(date, h, minute)) == ToMs(date, hour, minute, 0)
  {
    NumberHasNoColon(h);
    PrintedDate(date);
    FormatParses(minute, 2);
    ReadNumbers(Format(date.year, 4), Format(date.month, 2), Format(date.day, 2), 'T', h, Format(minute, 2), date,
                hour, minute);
  }

  lemma NumberHasNoColon(s: string)
    requires ParseI64(s).Some?
    ensures ':' !in s
  {
    NumberIsPlain(s);
  }

  /** A number as text: digits, but for a sign in front. */
  lemma NumberIsPlain(s: string)
    requires ParseI64(s).Some?
    ensures ':' !in s && ' ' !in s && 'T' !in s && s != [] && IsDigit(s[|s| - 1])
  {
    if s[0] == '-' || s[0] == '+' {
      NotDigits(s[1..]);
      assert s == [s[0]] + s[1..] && s[|s| - 1] == s[1..][|s| - 2];
    } else {
      NotDigits(s);
    }
  }

  // ---- What is taken as a time ----

  /** `y-m-d`, a separator and `h:n:s`. */
  function TimeOf(y: string, m: string, d: string, c: char, time: string): string {
    y + ['-'] + m + ['-'] + d + [c] + time
  }

  predicate Number(s: string, n: int) {
    ParseI64(s) == Some(n)
  }

  lemma DateSplits(y: string, m: string, d: string)
    requires ParseI64(y).Some? && ParseI64(m).Some? && ParseI64(d).Some?
    requires '-' !in y && '-' !in m && '-' !in d
    ensures var date := y + ['-'] + m + ['-'] + d;
            'T' !in date && ' ' !in date && Split(date, '-') == [y, m, d]
  {
    NumberIsPlain(y);
    NumberIsPlain(m);
    NumberIsPlain(d);
    assert y + ['-'] + m + ['-'] + d == y + ['-'] + (m + ['-'] + d);
    SplitAt(y, '-', m + ['-'] + d);
    SplitAt(m, '-', d);
    SplitNone(d, '-');
  }

  lemma TimeSplits(h: string, n: string, s: string)
    requires ParseI64(h).Some? && ParseI64(n).Some? && ParseI64(s).Some?
    ensures var time := h + [':'] + n;
            Split(time, ':') == [h, n] && time != [] && IsDigit(time[|time| - 1])
    ensures var time := h + [':'] + (n + [':'] + s);
            Split(time, ':') == [h, n, s] && time != [] && IsDigit(time[|time| - 1])
  {
    NumberIsPlain(h);
    NumberIsPlain(n);
    NumberIsPlain(s);
    SplitAt(h, ':', n);
    SplitNone(n, ':');
    SplitAt(h, ':', n + [':'] + s);
    SplitAt(n, ':', s);
    SplitNone(s, ':');
  }

  lemma PartsTaken(y: string, m: string, d: string, t: seq<string>, year: int, month: int, day: int, hour: int,
                   minute: int, second: int)
    requires Number(y, year) && Number(m, month) && Number(d, day)
    requires |t| >= 2 && Number(t[0], hour) && Number(t[1], minute)
    requires if |t| > 2 then Number(t[2], second) else second == 0
    ensures FromParts([y, m, d], t) ==
            if 1 <= month <= 12 && 1 <= day <= 31 && hour <= 23 && minute <= 59 && second <= 59
            then ToMs(Date(year, month, day), hour, minute, second) else NotATime
  {
  }

  /** A date whose numbers carry no minus, and a time to the second, are a time exactly when they are in bounds: 31
      February, and minutes and seconds below zero, are. */
  lemma TakenWhenInBounds(y: string, m: string, d: string, c: char, h: string, n: string, s: string, year: int,
                          month: int, day: int, hour: int, minute: int, second: int)
    requires Number(y, year) && Number(m, month) && Number(d, day) && '-' !in y && '-' !in m && '-' !in d
    requires Number(h, hour) && Number(n, minute) && Number(s, second) && (c == 'T' || c == ' ')
    ensures UtcMs(TimeOf(y, m, d, c, h + [':'] + (n + [':'] + s))) ==
            if 1 <= month <= 12 && 1 <= day <= 31 && hour <= 23 && minute <= 59 && second <= 59
            then ToMs(Date(year, month, day), hour, minute, second) else NotATime
  {
    DateSplits(y, m, d);
    TimeSplits(h, n, s);
    ReadText(y + ['-'] + m + ['-'] + d, c, h + [':'] + (n + [':'] + s));
    PartsTaken(y, m, d, [h, n, s], year, month, day, hour, minute, second);
  }

  /** The same to the minute. */
  lemma TakenWhenInBoundsToTheMinute(y: string, m: string, d: string, c: char, h: string, n: string, year: int,
                                     month: int, day: int, hour: int, minute: int)
    requires Number(y, year) && Number(m, month) && Number(d, day) && '-' !in y && '-' !in m && '-' !in d
    requires Number(h, hour) && Number(n, minute) && (c == 'T' || c == ' ')
    ensures UtcMs(TimeOf(y, m, d, c, h + [':'] + n)) ==
            if 1 <= month <= 12 && 1 <= day <= 31 && hour <= 23 && minute <= 59
            then ToMs(Date(year, month, day), hour, minute, 0) else NotATime
  {
    DateSplits(y, m, d);
    TimeSplits(h, n, n);
    ReadText(y + ['-'] + m + ['-'] + d, c, h + [':'] + n);
    PartsTaken(y, m, d, [h, n], year, month, day, hour, minute, 0);
  }
}

/** What a time's text looks like, and what it comes to. */
module TimeLaws {
  import opened Wrappers
  import opened Civil
  import opened TimeText

  // ---- What is printed ----

  lemma DigitsOf(n: nat)
    ensures n < 10 ==> |Digits(n)| == 1
    ensures n < 100 ==> |Digits(n)| <= 2
    ensures n < 1000 ==> |Digits(n)| <= 3
    ensures n < 10_000 ==> |Digits(n)| <= 4
  {
    if 10 <= n < 10_000 {
      DigitsOf(n / 10);
    }
  }

  lemma {:induction false} PaddedTo(s: string, width: nat)
    requires AllDigits(s)
    ensures |Padded(s, width)| == if |s| > width then |s| else width
    decreases width - |s|
  {
    if |s| < width {
      PaddedTo(['0'] + s, width);
    }
  }

  /** `n` with zeros in front. */
  ghost predicate IsNumber(s: string, n: nat, width: nat) {
    |s| == width && AllDigits(s) && Value(s) == n
  }

  lemma TwoDigits(n: nat)
    requires n < 100
    ensures IsNumber(Format(n, 2), n, 2)
  {
    DigitsOf(n);
    PaddedTo(Digits(n), 2);
  }

  lemma FourDigits(n: nat)
    requires n < 10_000
    ensures IsNumber(Format(n, 4), n, 4)
  {
    DigitsOf(n);
    PaddedTo(Digits(n), 4);
  }

  lemma Sixteen(y: string, m: string, d: string, h: string, n: string)
    requires |y| == 4 && |m| == 2 && |d| == 2 && |h| == 2 && |n| == 2
    ensures var s := y + ['-'] + m + ['-'] + d + [' '] + (h + [':'] + n);
            && |s| == 16 && s[..4] == y && s[4] == '-' && s[5..7] == m && s[7] == '-' && s[8..10] == d && s[10] == ' '
            && s[11..13] == h && s[13] == ':' && s[14..] == n
  {
  }

  /** A minute of a year of at most four digits takes sixteen characters: four for the year and two for everything
      else, with `-`, `-`, a space and `:` between. */
  lemma MinuteLooks(seconds: int)
    requires 0 <= CivilFromDays(seconds / 86_400).year < 10_000
    ensures var s, date := UtcMinute(seconds), CivilFromDays(seconds / 86_400);
            && |s| == 16 && s[4] == '-' && s[7] == '-' && s[10] == ' ' && s[13] == ':'
            && IsNumber(s[..4], date.year, 4) && IsNumber(s[5..7], date.month, 2) && IsNumber(s[8..10], date.day, 2)
            && IsNumber(s[11..13], seconds % 86_400 / 3600, 2) && IsNumber(s[14..], seconds % 3600 / 60, 2)
  {
    var date := CivilFromDays(seconds / 86_400);
    EncodeDecode(seconds / 86_400);
    var hour, minute := seconds % 86_400 / 3600, seconds % 86_400 % 3600 / 60;
    assert seconds % 86_400 % 3600 == seconds % 3600 by {
      HourOfDay(seconds);
    }
    FourDigits(date.year);
    TwoDigits(date.month);
    TwoDigits(date.day);
    TwoDigits(hour);
    TwoDigits(minute);
    Sixteen(Format(date.year, 4), Format(date.month, 2), Format(date.day, 2), Format(hour, 2), Format(minute, 2));
  }

  lemma HourOfDay(seconds: int)
    ensures seconds % 86_400 % 3600 == seconds % 3600
  {
    var days, rest := seconds / 86_400, seconds % 86_400;
    Quotient(seconds, 3600, 24 * days + rest / 3600, rest % 3600);
  }

  // ---- What is read ----

  /** Letters `Z` at the end say nothing. */
  lemma TrailingZ(text: string)
    ensures UtcMs(text + ['Z']) == UtcMs(text)
  {
    assert TrimZ(text + ['Z']) == TrimZ(text) by {
      assert (text + ['Z'])[..|text|] == text;
    }
  }

  lemma {:induction false} NoDateEnd(s: string)
    requires 'T' !in s && ' ' !in s
    ensures DateEnd(s) == |s|
  {
    if s != [] {
      NoDateEnd(s[1..]);
    }
  }

  /** A date alone is its midnight. */
  lemma DateAlone(date: string, c: char)
    requires 'T' !in date && ' ' !in date && (date == [] || date[|date| - 1] != 'Z') && (c == 'T' || c == ' ')
    ensures UtcMs(date) == UtcMs(date + [c] + "00:00")
  {
    NoDateEnd(date);
    assert date[..|date|] == date;
    ReadText(date, c, "00:00");
  }

  /** What a time comes to, when 64 bits hold it. */
  lemma MillisecondsAre(date: Date, hour: int, minute: int, second: int)
    requires ToMs(date, hour, minute, second).Time?
    ensures ToMs(date, hour, minute, second).ms
         == (((DaysFromCivil(date) * 24 + hour) * 60 + minute) * 60 + second) * 1000
  {
  }

  /** As they do for every year of four digits, at any hour from a hundred years before it. */
  lemma FourDigitYearsFit(date: Date, hour: int, minute: int, second: int)
    requires 0 <= date.year <= 9999 && 1 <= date.month <= 12 && 1 <= date.day <= 31
    requires -876_600 <= hour <= 23 && 0 <= minute <= 59 && 0 <= second <= 59
    ensures ToMs(date, hour, minute, second).Time?
  {
    assert -1000 <= DayOfYear(date.month, date.day) <= 1000;
  }

  // ---- Numbers ----

  /** A number may carry a sign and takes 64 bits. */
  lemma NumbersAre(digits: string)
    requires digits != [] && AllDigits(digits)
    ensures ParseI64(digits)
         == if Value(digits) <= 9_223_372_036_854_775_807 then Some(Value(digits) as int) else None
    ensures ParseI64(['+'] + digits) == ParseI64(digits)
    ensures ParseI64(['-'] + digits)
         == if Value(digits) <= 9_223_372_036_854_775_808 then Some(-(Value(digits) as int)) else None
  {
    assert IsDigit(digits[0]);
    assert (['+'] + digits)[1..] == digits && (['-'] + digits)[1..] == digits;
  }

  /** Anything else is none: no digit at all, or a character besides that is no digit. */
  lemma NoNumber(s: string, i: nat)
    requires i < |s| && !('0' <= s[i] <= '9') && (i > 0 || (s[0] != '+' && s[0] != '-') || |s| == 1)
    ensures ParseI64(s) == None && ParseI64([]) == None
  {
    if i > 0 {
      assert s[1..][i - 1] == s[i];
    }
  }

  /** The value of digits: each counts ten times the next. */
  lemma {:induction false} ValueGoesOn(s: string, d: nat)
    requires AllDigits(s) && d < 10
    ensures var c := ('0' as int + d) as char; AllDigits(s + [c]) && Value(s + [c]) == 10 * Value(s) + d
    ensures Value([]) == 0
  {
    var c := ('0' as int + d) as char;
    assert (s + [c])[..|s|] == s;
  }

  // ---- Parts ----

  lemma PartsAfterSeconds(d: seq<string>, h: string, n: string, s: string, more: seq<string>)
    ensures FromParts(d, [h, n, s] + more) == FromParts(d, [h, n, s])
  {
  }

  lemma ThreeParts(h: string, n: string, s: string)
    requires ':' !in h && ':' !in n && ':' !in s
    ensures Split(h + [':'] + (n + [':'] + s), ':') == [h, n, s]
  {
    SplitAt(h, ':', n + [':'] + s);
    SplitAt(n, ':', s);
    SplitNone(s, ':');
  }

  lemma MoreParts(h: string, n: string, s: string, more: string)
    requires ':' !in h && ':' !in n && ':' !in s
    ensures Split(h + [':'] + (n + [':'] + (s + [':'] + more)), ':') == [h, n, s] + Split(more, ':')
  {
    SplitAt(h, ':', n + [':'] + (s + [':'] + more));
    SplitAt(n, ':', s + [':'] + more);
    SplitAt(s, ':', more);
    assert [h] + ([n] + ([s] + Split(more, ':'))) == [h, n, s] + Split(more, ':');
  }

  lemma EndsIn(front: string, last: string)
    requires last != []
    ensures front + last != [] && (front + last)[|front + last| - 1] == last[|last| - 1]
  {
  }

  lemma TimeEnds(h: string, n: string, s: string)
    requires s != []
    ensures var time := h + [':'] + (n + [':'] + s); time != [] && time[|time| - 1] == s[|s| - 1]
  {
    EndsIn(n + [':'], s);
    EndsIn(h + [':'], n + [':'] + s);
  }

  /** What follows the seconds after another colon is not looked at. */
  lemma AfterTheSeconds(date: string, c: char, h: string, n: string, s: string, more: string)
    requires 'T' !in date && ' ' !in date && (c == 'T' || c == ' ') && ':' !in h && ':' !in n && ':' !in s
    requires s != [] && IsDigit(s[|s| - 1]) && more != [] && IsDigit(more[|more| - 1])
    ensures UtcMs(date + [c] + (h + [':'] + (n + [':'] + (s + [':'] + more))))
         == UtcMs(date + [c] + (h + [':'] + (n + [':'] + s)))
  {
    EndsIn(s + [':'], more);
    TimeEnds(h, n, s);
    TimeEnds(h, n, s + [':'] + more);
    ReadText(date, c, h + [':'] + (n + [':'] + s));
    ReadText(date, c, h + [':'] + (n + [':'] + (s + [':'] + more)));
    ThreeParts(h, n, s);
    MoreParts(h, n, s, more);
    PartsAfterSeconds(Split(date, '-'), h, n, s, Split(more, ':'));
  }

  lemma {:induction false} SplitParts(s: string, c: char)
    ensures |Split(s, c)| == 1 <==> c !in s
  {
    if s != [] {
      SplitParts(s[1..], c);
      assert s == [s[0]] + s[1..];
    }
  }

  /** A date has three parts, no more and no fewer; a time two at least. */
  lemma PartsOfADate(y: string, m: string, d: string, c: char, time: string)
    requires '-' !in y && '-' !in m && (c == 'T' || c == ' ') && time != [] && IsDigit(time[|time| - 1])
    requires 'T' !in y && ' ' !in y && 'T' !in m && ' ' !in m && 'T' !in d && ' ' !in d
    ensures '-' in d ==> UtcMs(y + ['-'] + (m + ['-'] + d) + [c] + time) == NotATime
    ensures UtcMs(y + ['-'] + m + [c] + time) == NotATime && UtcMs(y + [c] + time) == NotATime
    ensures ':' !in time ==> UtcMs(y + ['-'] + (m + ['-'] + d) + [c] + time) == NotATime
  {
    SplitAt(y, '-', m + ['-'] + d);
    SplitAt(m, '-', d);
    SplitParts(d, '-');
    SplitAt(y, '-', m);
    SplitNone(m, '-');
    SplitNone(y, '-');
    SplitParts(time, ':');
    ReadText(y + ['-'] + (m + ['-'] + d), c, time);
    ReadText(y + ['-'] + m, c, time);
    ReadText(y, c, time);
  }
}

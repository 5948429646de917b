/**
 The calendar of time_get_current: a timestamp becomes a date by subtracting years and months, and the
 date becomes nineteen characters.  The clock is a parameter.
 */
module Calendar {
  // month counts from 0, day from 1.
  datatype Date = Date(year: nat, month: nat, day: nat, hour: nat, min: nat, sec: nat)

  const MONTH_DAYS: seq<nat> := [31, 28, 31, 30, 31, 30, 31, 31, 30, 31, 30, 31]

  predicate Leap(year: nat) {
    year % 4 == 0 && (year % 100 != 0 || year % 400 == 0)
  }

  function DaysInYear(year: nat): nat {
    if Leap(year) then 366 else 365
  }

  function DaysInMonth(year: nat, month: nat): nat
    requires month < 12
  {
    if month == 1 && Leap(year) then 29 else MONTH_DAYS[month]
  }

  // Days from 1970 to the start of the year.
  function DaysBeforeYear(year: nat): nat
    requires 1970 <= year
  {
    if year == 1970 then 0 else DaysBeforeYear(year - 1) + DaysInYear(year - 1)
  }

  function DaysBeforeMonth(year: nat, month: nat): nat
    requires month <= 12
  {
    if month == 0 then 0 else DaysBeforeMonth(year, month - 1) + DaysInMonth(year, month - 1)
  }

  predicate Valid(d: Date) {
    && 1970 <= d.year && d.month < 12 && 1 <= d.day <= DaysInMonth(d.year, d.month)
    && d.hour < 24 && d.min < 60 && d.sec < 60
  }

  function YearDay(d: Date): nat
    requires Valid(d)
  {
    DaysBeforeMonth(d.year, d.month) + d.day - 1
  }

  function Days(d: Date): nat
    requires Valid(d)
  {
    DaysBeforeYear(d.year) + YearDay(d)
  }

  function TimeOfDay(d: Date): (s: nat)
    requires Valid(d)
    ensures s < 86400
  {
    d.hour * 3600 + d.min * 60 + d.sec
  }

  function Seconds(d: Date): nat
    requires Valid(d)
  {
    Days(d) * 86400 + TimeOfDay(d)
  }

  ghost predicate IsDate(d: Date, ts: nat) {
    Valid(d) && Seconds(d) == ts
  }

  lemma YearLength(year: nat)
    ensures DaysBeforeMonth(year, 12) == DaysInYear(year)
  {
    DaysBeforeMonthClosed(year, 12);
  }

  lemma {:induction false} MonthsFit(year: nat, month: nat, later: nat)
    requires month < later <= 12
    ensures DaysBeforeMonth(year, month) + DaysInMonth(year, month) <= DaysBeforeMonth(year, later)
    decreases later - month
  {
    if month + 1 < later {
      MonthsFit(year, month, later - 1);
    }
  }

  lemma YearDayFits(d: Date)
    requires Valid(d)
    ensures YearDay(d) < DaysInYear(d.year)
  {
    MonthsFit(d.year, d.month, 12);
    YearLength(d.year);
  }

  lemma {:induction false} YearsFit(year: nat, later: nat)
    requires 1970 <= year < later
    ensures DaysBeforeYear(year) + DaysInYear(year) <= DaysBeforeYear(later)
    decreases later
  {
    if year + 1 < later {
      YearsFit(year, later - 1);
    }
  }

  // ---- The order of dates ----

  predicate DayBefore(d: Date, e: Date) {
    d.year < e.year || (d.year == e.year && (d.month < e.month || (d.month == e.month && d.day < e.day)))
  }

  predicate SameDay(d: Date, e: Date) {
    d.year == e.year && d.month == e.month && d.day == e.day
  }

  predicate TimeBefore(d: Date, e: Date) {
    d.hour < e.hour || (d.hour == e.hour && (d.min < e.min || (d.min == e.min && d.sec < e.sec)))
  }

  predicate Before(d: Date, e: Date) {
    DayBefore(d, e) || (SameDay(d, e) && TimeBefore(d, e))
  }

  lemma DaysIncrease(d: Date, e: Date)
    requires Valid(d) && Valid(e) && DayBefore(d, e)
    ensures Days(d) < Days(e)
  {
    if d.year < e.year {
      YearDayFits(d);
      YearsFit(d.year, e.year);
    } else if d.month < e.month {
      MonthsFit(d.year, d.month, e.month);
    }
  }

  lemma SecondsIncrease(d: Date, e: Date)
    requires Valid(d) && Valid(e) && Before(d, e)
    ensures Seconds(d) < Seconds(e)
  {
    if DayBefore(d, e) {
      DaysIncrease(d, e);
    }
  }

  // Seconds and calendar order agree, so no two dates stand for one timestamp.
  lemma SecondsOrder(d: Date, e: Date)
    requires Valid(d) && Valid(e)
    ensures Seconds(d) < Seconds(e) <==> Before(d, e)
    ensures Seconds(d) == Seconds(e) <==> d == e
  {
    if Before(d, e) {
      SecondsIncrease(d, e);
    } else if Before(e, d) {
      SecondsIncrease(e, d);
    }
  }

  // ---- Seconds Since the Epoch, section 4.16 of POSIX.1-2017 Base Definitions ----

  // with tm_year = year - 1900
  function LeapDays(year: nat): int
    requires 1970 <= year
  {
    (year - 1900 - 69) / 4 - (year - 1900 - 1) / 100 + (year - 1900 + 299) / 400
  }

  lemma EveryFourth(year: nat)
    requires 1970 <= year
    ensures (year + 1 - 1900 - 69) / 4 == (year - 1900 - 69) / 4 + if year % 4 == 0 then 1 else 0
  {
  }

  lemma EveryHundredth(year: nat)
    requires 1970 <= year
    ensures (year + 1 - 1900 - 1) / 100 == (year - 1900 - 1) / 100 + if year % 100 == 0 then 1 else 0
    ensures year % 100 == 0 ==> year % 4 == 0
  {
  }

  lemma EveryFourHundredth(year: nat)
    requires 1970 <= year
    ensures (year + 1 - 1900 + 299) / 400 == (year - 1900 + 299) / 400 + if year % 400 == 0 then 1 else 0
    ensures year % 400 == 0 ==> year % 100 == 0
  {
  }

  lemma LeapDaysStep(year: nat)
    requires 1970 <= year
    ensures LeapDays(year + 1) == LeapDays(year) + if Leap(year) then 1 else 0
  {
    EveryFourth(year);
    EveryHundredth(year);
    EveryFourHundredth(year);
  }

  lemma {:induction false} DaysBeforeYearClosed(year: nat)
    requires 1970 <= year
    ensures DaysBeforeYear(year) == (year - 1970) * 365 + LeapDays(year)
    decreases year
  {
    if year > 1970 {
      DaysBeforeYearClosed(year - 1);
      LeapDaysStep(year - 1);
    }
  }

  // Days before a month in closed form: months of 30 and 31 days in turn, twelve to 367 days, less what
  // February lacks.
  function MonthStart(year: nat, month: nat): int {
    (367 * (month + 1) - 362) / 12 + if month < 2 then 0 else if Leap(year) then -1 else -2
  }

  lemma MonthStartStep(year: nat, month: nat)
    requires month < 12
    ensures MonthStart(year, month + 1) == MonthStart(year, month) + DaysInMonth(year, month)
  {
  }

  lemma {:induction false} DaysBeforeMonthClosed(year: nat, month: nat)
    requires month <= 12
    ensures DaysBeforeMonth(year, month) == MonthStart(year, month)
  {
    if month > 0 {
      DaysBeforeMonthClosed(year, month - 1);
      MonthStartStep(year, month - 1);
    }
  }

  // The formula of the standard, with tm_yday in closed form.
  lemma SecondsSinceEpoch(d: Date)
    requires Valid(d)
    ensures var tmYear, tmYday := d.year - 1900, MonthStart(d.year, d.month) + d.day - 1;
            Seconds(d) == d.sec + d.min * 60 + d.hour * 3600 + tmYday * 86400
                          + (tmYear - 70) * 31536000 + ((tmYear - 69) / 4) * 86400
                          - ((tmYear - 1) / 100) * 86400 + ((tmYear + 299) / 400) * 86400
  {
    DaysBeforeYearClosed(d.year);
    DaysBeforeMonthClosed(d.year, d.month);
  }

  // ---- The text ----

  function Dig(n: nat): char
    requires n < 10
  {
    '0' + n as char
  }

  function Two(n: nat): string
    requires n < 100
  {
    [Dig(n / 10), Dig(n % 10)]
  }

  function Four(n: nat): string {
    [Dig(n / 1000 % 10), Dig(n / 100 % 10), Dig(n / 10 % 10), Dig(n % 10)]
  }

  // The fields fit the places they are printed in.
  predicate Fields(d: Date) {
    d.month < 12 && d.day <= 31 && d.hour < 24 && d.min < 60 && d.sec < 60
  }

  function DayText(d: Date): (s: string)
    requires Fields(d)
  {
    Four(d.year) + "/" + Two(d.month + 1) + "/" + Two(d.day)
  }

  function TimeText(d: Date): string
    requires Fields(d)
  {
    Two(d.hour) + ":" + Two(d.min) + ":" + Two(d.sec)
  }

  function Text(d: Date): (s: string)
    requires Fields(d)
    ensures |s| == 19
  {
    DayText(d) + " " + TimeText(d)
  }

  // t shows the number n at place i, in two digits.
  predicate ShowsTwo(t: string, i: nat, n: nat) {
    && i + 2 <= |t| && '0' <= t[i] <= '9' && '0' <= t[i + 1] <= '9'
    && n == 10 * (t[i] - '0') as nat + (t[i + 1] - '0') as nat
  }

  lemma TwoIsRead(n: nat)
    requires n < 100
    ensures ShowsTwo(Two(n), 0, n)
  {
  }

  // Where the parts of a text stand.
  lemma Places(y: string, m: string, d: string, h: string, n: string, c: string)
    requires |y| == 4 && |m| == |d| == |h| == |n| == |c| == 2
    ensures var t := y + "/" + m + "/" + d + " " + (h + ":" + n + ":" + c);
            && |t| == 19 && t[..4] == y && t[5..7] == m && t[8..10] == d && t[11..13] == h && t[14..16] == n && t[17..19] == c
            && t[4] == t[7] == '/' && t[10] == ' ' && t[13] == t[16] == ':'
  {
  }

  // Reading the text back gives the date, of the year its last four digits.
  lemma TextReadsBack(d: Date)
    requires Fields(d)
    ensures var t := Text(d);
            && ShowsTwo(t, 0, d.year % 10000 / 100) && ShowsTwo(t, 2, d.year % 100)
            && ShowsTwo(t, 5, d.month + 1) && ShowsTwo(t, 8, d.day)
            && ShowsTwo(t, 11, d.hour) && ShowsTwo(t, 14, d.min) && ShowsTwo(t, 17, d.sec)
            && t[4] == t[7] == '/' && t[10] == ' ' && t[13] == t[16] == ':'
  {
    var t := Text(d);
    Places(Four(d.year), Two(d.month + 1), Two(d.day), Two(d.hour), Two(d.min), Two(d.sec));
    YearIsRead(d.year, t);
    PartIsRead(d.month + 1, t, 5);
    PartIsRead(d.day, t, 8);
    PartIsRead(d.hour, t, 11);
    PartIsRead(d.min, t, 14);
    PartIsRead(d.sec, t, 17);
  }

  lemma PartIsRead(n: nat, t: string, i: nat)
    requires n < 100 && i + 2 <= |t| && t[i..i + 2] == Two(n)
    ensures ShowsTwo(t, i, n)
  {
    TwoIsRead(n);
    assert t[i] == t[i..i + 2][0] && t[i + 1] == t[i..i + 2][1];
  }

  lemma LastTwo(n: nat)
    ensures n % 10000 % 100 == n % 100
  {
    var q, r := n / 10000, n % 10000;
    assert n == q * 100 * 100 + r;
  }

  lemma YearIsRead(year: nat, t: string)
    requires 4 <= |t| && t[..4] == Four(year)
    ensures ShowsTwo(t, 0, year % 10000 / 100) && ShowsTwo(t, 2, year % 100)
  {
    var y := year % 10000;
    LastDigits(year);
    FourIsTwice(y);
    LastTwo(year);
    assert t[0..2] == t[..4][..2] == Two(y / 100);
    assert t[2..4] == t[..4][2..] == Two(y % 100);
    PartIsRead(y / 100, t, 0);
    PartIsRead(y % 100, t, 2);
  }

  // Lexicographic order: s and t agree up to place i, where s is smaller.
  ghost predicate LessAt(s: string, t: string, i: nat) {
    i < |s| && i < |t| && s[..i] == t[..i] && s[i] < t[i]
  }

  ghost predicate Less(s: string, t: string) {
    exists i: nat :: LessAt(s, t, i)
  }

  lemma LessBehind(p: string, s: string, t: string)
    requires Less(s, t)
    ensures Less(p + s, p + t)
  {
    var i: nat :| LessAt(s, t, i);
    assert (p + s)[..|p| + i] == p + s[..i] && (p + t)[..|p| + i] == p + t[..i];
    assert LessAt(p + s, p + t, |p| + i);
  }

  lemma LessBefore(s: string, t: string, x: string, y: string)
    requires Less(s, t)
    ensures Less(s + x, t + y)
  {
    var i: nat :| LessAt(s, t, i);
    assert (s + x)[..i] == s[..i] && (t + y)[..i] == t[..i];
    assert LessAt(s + x, t + y, i);
  }

  lemma TwoIncreases(m: nat, n: nat)
    requires m < n < 100
    ensures Less(Two(m), Two(n))
  {
    if m / 10 < n / 10 {
      assert LessAt(Two(m), Two(n), 0);
    } else {
      assert LessAt(Two(m), Two(n), 1);
    }
  }

  lemma FourIsTwice(n: nat)
    requires n < 10000
    ensures Four(n) == Two(n / 100) + Two(n % 100)
  {
    assert n / 1000 % 10 == n / 100 / 10;
    assert n / 10 % 10 == n % 100 / 10;
    assert n % 10 == n % 100 % 10;
  }

  lemma FourIncreases(m: nat, n: nat)
    requires m < n < 10000
    ensures Less(Four(m), Four(n))
  {
    FourIsTwice(m);
    FourIsTwice(n);
    if m / 100 < n / 100 {
      TwoIncreases(m / 100, n / 100);
      LessBefore(Two(m / 100), Two(n / 100), Two(m % 100), Two(n % 100));
    } else {
      TwoIncreases(m % 100, n % 100);
      LessBehind(Two(m / 100), Two(m % 100), Two(n % 100));
    }
  }

  lemma DayTextIncreases(d: Date, e: Date)
    requires Fields(d) && Fields(e) && DayBefore(d, e) && e.year < 10000
    ensures Less(DayText(d), DayText(e))
  {
    var dd, ee := "/" + Two(d.day), "/" + Two(e.day);
    var dm, em := Two(d.month + 1) + dd, Two(e.month + 1) + ee;
    assert DayText(d) == Four(d.year) + ("/" + dm) && DayText(e) == Four(e.year) + ("/" + em);
    if d.year < e.year {
      FourIncreases(d.year, e.year);
      LessBefore(Four(d.year), Four(e.year), "/" + dm, "/" + em);
    } else {
      if d.month < e.month {
        TwoIncreases(d.month + 1, e.month + 1);
        LessBefore(Two(d.month + 1), Two(e.month + 1), dd, ee);
      } else {
        TwoIncreases(d.day, e.day);
        LessBehind("/", Two(d.day), Two(e.day));
        LessBehind(Two(d.month + 1), dd, ee);
      }
      LessBehind("/", dm, em);
      LessBehind(Four(d.year), "/" + dm, "/" + em);
    }
  }

  lemma TimeTextIncreases(d: Date, e: Date)
    requires Fields(d) && Fields(e) && TimeBefore(d, e)
    ensures Less(TimeText(d), TimeText(e))
  {
    var ds, es := ":" + Two(d.sec), ":" + Two(e.sec);
    var dm, em := Two(d.min) + ds, Two(e.min) + es;
    assert TimeText(d) == Two(d.hour) + (":" + dm) && TimeText(e) == Two(e.hour) + (":" + em);
    if d.hour < e.hour {
      TwoIncreases(d.hour, e.hour);
      LessBefore(Two(d.hour), Two(e.hour), ":" + dm, ":" + em);
    } else {
      if d.min < e.min {
        TwoIncreases(d.min, e.min);
        LessBefore(Two(d.min), Two(e.min), ds, es);
      } else {
        TwoIncreases(d.sec, e.sec);
        LessBehind(":", Two(d.sec), Two(e.sec));
        LessBehind(Two(d.min), ds, es);
      }
      LessBehind(":", dm, em);
      LessBehind(Two(d.hour), ":" + dm, ":" + em);
    }
  }

  lemma FourDigitTextIncreases(d: Date, e: Date)
    requires Fields(d) && Fields(e) && Before(d, e) && e.year < 10000
    ensures Less(Text(d), Text(e))
  {
    if DayBefore(d, e) {
      DayTextIncreases(d, e);
      LessBefore(DayText(d), DayText(e), " ", " ");
      LessBefore(DayText(d) + " ", DayText(e) + " ", TimeText(d), TimeText(e));
    } else {
      TimeTextIncreases(d, e);
      LessBehind(DayText(d) + " ", TimeText(d), TimeText(e));
    }
  }

  lemma LessAsymmetric(s: string, t: string)
    requires Less(s, t)
    ensures s != t && !Less(t, s)
  {
    var i: nat :| LessAt(s, t, i);
    forall j: nat
      ensures !LessAt(t, s, j)
    {
      if j < i && j < |s| && j < |t| {
        assert s[j] == s[..i][j] == t[..i][j] == t[j];
      } else if i < j && j < |s| && j < |t| {
        assert s[i] == s[..j][i] && t[i] == t[..j][i];
      }
    }
  }

  // The date as it is shown: with the last four digits of its year.
  function Shown(d: Date): Date {
    d.(year := d.year % 10000)
  }

  lemma Thousands(q: nat, r: nat)
    ensures (q * 10000 + r) / 1000 % 10 == r / 1000 % 10
  {
    assert (q * 10000 + r) / 1000 == q * 10 + r / 1000;
    DropTens(q, r / 1000);
  }

  lemma Hundreds(q: nat, r: nat)
    ensures (q * 10000 + r) / 100 % 10 == r / 100 % 10
  {
    assert (q * 10000 + r) / 100 == q * 100 + r / 100;
    DropTens(q * 10, r / 100);
  }

  lemma Tens(q: nat, r: nat)
    ensures (q * 10000 + r) / 10 % 10 == r / 10 % 10
  {
    assert (q * 10000 + r) / 10 == q * 1000 + r / 10;
    DropTens(q * 100, r / 10);
  }

  lemma Ones(q: nat, r: nat)
    ensures (q * 10000 + r) % 10 == r % 10
  {
    DropTens(q * 1000, r);
  }

  lemma DropTens(x: nat, t: nat)
    ensures (x * 10 + t) % 10 == t % 10
  {
  }

  lemma LastDigits(n: nat)
    ensures Four(n % 10000) == Four(n)
  {
    var q, r := n / 10000, n % 10000;
    Thousands(q, r);
    Hundreds(q, r);
    Tens(q, r);
    Ones(q, r);
  }

  // For all dates: the texts are in the order of the dates shown, and equal exactly when those are.
  lemma TextOrder(d: Date, e: Date)
    requires Valid(d) && Valid(e)
    ensures Less(Text(d), Text(e)) <==> Before(Shown(d), Shown(e))
    ensures Text(d) == Text(e) <==> Shown(d) == Shown(e)
  {
    ShownText(d);
    ShownText(e);
    FourDigitOrder(Shown(d), Shown(e));
  }

  lemma ShownText(d: Date)
    requires Valid(d)
    ensures Fields(Shown(d)) && Text(Shown(d)) == Text(d) && Shown(d).year < 10000
  {
    LastDigits(d.year);
  }

  lemma FourDigitOrder(d: Date, e: Date)
    requires Fields(d) && Fields(e) && d.year < 10000 && e.year < 10000
    ensures Less(Text(d), Text(e)) <==> Before(d, e)
    ensures Text(d) == Text(e) <==> d == e
  {
    OneIsEarlier(d, e);
    if Before(d, e) {
      FourDigitTextIncreases(d, e);
      LessAsymmetric(Text(d), Text(e));
    } else if Before(e, d) {
      FourDigitTextIncreases(e, d);
      LessAsymmetric(Text(e), Text(d));
    } else {
      LessIrreflexive(Text(d));
    }
  }

  lemma OneIsEarlier(d: Date, e: Date)
    ensures Before(d, e) || Before(e, d) || d == e
    ensures Before(d, e) ==> d != e
  {
  }

  lemma LessIrreflexive(s: string)
    ensures !Less(s, s)
  {
    forall i: nat
      ensures !LessAt(s, s, i)
    {
    }
  }

  // Up to the end of the year 9999 a later timestamp has a greater text.
  lemma TextIncreases(s: nat, t: nat, d: Date, e: Date)
    requires IsDate(d, s) && IsDate(e, t) && s < t && e.year <= 9999
    ensures Less(Text(d), Text(e))
  {
    SecondsOrder(d, e);
    EarlierTextIsLess(d, e);
  }

  lemma EarlierTextIsLess(d: Date, e: Date)
    requires Valid(d) && Valid(e) && Before(d, e) && e.year <= 9999
    ensures Less(Text(d), Text(e))
  {
    assert Shown(d) == d && Shown(e) == e;
    TextOrder(d, e);
  }

  predicate YearEnds(d: Date) {
    d.month == 11 && d.day == 31 && d.hour == 23 && d.min == 59 && d.sec == 59
  }

  predicate YearStarts(d: Date) {
    d.month == 0 && d.day == 1 && d.hour == 0 && d.min == 0 && d.sec == 0
  }

  lemma NextYear(d: Date, e: Date)
    requires 1970 <= d.year && YearEnds(d) && YearStarts(e) && e.year == d.year + 1
    ensures Valid(d) && Valid(e) && Seconds(e) == Seconds(d) + 1
  {
    YearLength(d.year);
  }

  // One second past the end of the year 9999, and of every ten thousandth year from there, the text is
  // less than it was.
  lemma TextWraps(d: Date, e: Date)
    requires 1970 <= d.year && YearEnds(d) && YearStarts(e) && e.year == d.year + 1 && d.year % 10000 == 9999
    ensures Valid(d) && Valid(e) && Seconds(e) == Seconds(d) + 1 && Less(Text(e), Text(d))
  {
    NextYear(d, e);
    TextOrder(e, d);
  }

  // ---- The code ----

  method YearLoop(allDays: nat) returns (year: nat, days: nat)
    ensures 1970 <= year && DaysBeforeYear(year) + days == allDays && days < DaysInYear(year)
  {
    year, days := 1970, allDays;
    while days >= DaysInYear(year)
      invariant 1970 <= year && DaysBeforeYear(year) + days == allDays
      decreases days
    {
      days := days - DaysInYear(year);
      year := year + 1;
    }
  }

  method MonthLoop(year: nat, yearDay: nat) returns (month: nat, days: nat)
    requires yearDay < DaysInYear(year)
    ensures month < 12 && DaysBeforeMonth(year, month) + days == yearDay && days < DaysInMonth(year, month)
  {
    YearLength(year);
    month, days := 0, yearDay;
    while days >= DaysInMonth(year, month)
      invariant month < 12 && DaysBeforeMonth(year, month) + days == yearDay
      decreases days
    {
      MonthsFit(year, month, 12);
      days := days - DaysInMonth(year, month);
      month := month + 1;
    }
  }

  // time_get_current, with the timestamp it reads and the static buffer it fills.
  method GetCurrent(ts: nat, buffer: array<char>) returns (d: Date)
    requires buffer.Length == 20
    modifies buffer
    ensures IsDate(d, ts) && buffer[..] == Text(d) + ['\0']
  {
    var inDay := ts % 86400;
    var year, yearDay := YearLoop(ts / 86400);
    var month, days := MonthLoop(year, yearDay);
    d := Date(year, month, days + 1, inDay / 3600, inDay % 3600 / 60, inDay % 60);
    TimeSplits(inDay);
    Print(d, buffer);
  }

  lemma TimeSplits(s: nat)
    requires s < 86400
    ensures s / 3600 < 24 && s % 3600 / 60 < 60 && s == s / 3600 * 3600 + s % 3600 / 60 * 60 + s % 60
  {
    assert s % 60 == s % 3600 % 60;
  }

  method Print(d: Date, buffer: array<char>)
    requires Valid(d) && buffer.Length == 20
    modifies buffer
    ensures buffer[..] == Text(d) + ['\0']
  {
    StoreDay(buffer, Dig(d.year / 1000 % 10), Dig(d.year / 100 % 10), Dig(d.year / 10 % 10), Dig(d.year % 10),
             Dig((d.month + 1) / 10), Dig((d.month + 1) % 10), Dig(d.day / 10), Dig(d.day % 10));
    assert buffer[..11] == DayText(d) + " ";
    StoreTime(buffer, Dig(d.hour / 10), Dig(d.hour % 10), Dig(d.min / 10), Dig(d.min % 10), Dig(d.sec / 10), Dig(d.sec % 10));
    assert buffer[11..] == TimeText(d) + ['\0'];
    assert buffer[..] == buffer[..11] + buffer[11..];
  }

  method StoreDay(buffer: array<char>, y3: char, y2: char, y1: char, y0: char, m1: char, m0: char, d1: char, d0: char)
    requires buffer.Length == 20
    modifies buffer
    ensures buffer[..11] == [y3, y2, y1, y0, '/', m1, m0, '/', d1, d0, ' ']
  {
    buffer[0], buffer[1], buffer[2], buffer[3] := y3, y2, y1, y0;
    buffer[4] := '/';
    buffer[5], buffer[6] := m1, m0;
    buffer[7] := '/';
    buffer[8], buffer[9] := d1, d0;
    buffer[10] := ' ';
  }

  method StoreTime(buffer: array<char>, h1: char, h0: char, m1: char, m0: char, s1: char, s0: char)
    requires buffer.Length == 20
    modifies buffer
    ensures buffer[..11] == old(buffer[..11]) && buffer[11..] == [h1, h0, ':', m1, m0, ':', s1, s0, '\0']
  {
    buffer[11], buffer[12] := h1, h0;
    buffer[13] := ':';
    buffer[14], buffer[15] := m1, m0;
    buffer[16] := ':';
    buffer[17], buffer[18] := s1, s0;
    buffer[19] := '\0';
  }
}

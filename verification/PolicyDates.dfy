/** The calendar behind the exceptions' dates: what is a date, and how many days lie between two of them. */
module PolicyDates {
  import opened Wrappers
  import opened Strings
  import opened PolicyExceptions

  datatype Date = Date(year: nat, month: nat, day: nat)

  const FIRST: Date := Date(1, 1, 1)

  // ------------------------------------------------------------------ the calendar

  ghost function MonthLength(year: nat, month: nat): nat {
    if month in {4, 6, 9, 11} then 30
    else if month != 2 then 31
    else if year % 400 == 0 || (year % 4 == 0 && year % 100 != 0) then 29 else 28
  }

  ghost predicate IsDay(d: Date) {
    d.year >= 1 && 1 <= d.month <= 12 && 1 <= d.day <= MonthLength(d.year, d.month)
  }

  /** The day after; it goes over the ends of months and years. */
  ghost function NextDay(d: Date): Date {
    if d.day < MonthLength(d.year, d.month) then Date(d.year, d.month, d.day + 1)
    else if d.month < 12 then Date(d.year, d.month + 1, 1)
    else Date(d.year + 1, 1, 1)
  }

  ghost function DaysLater(d: Date, n: nat): Date {
    if n == 0 then d else NextDay(DaysLater(d, n - 1))
  }

  ghost function NumberOf(d: Date): int {
    Ordinal(d.year, d.month, d.day)
  }

  lemma SameLength(year: nat, month: nat)
    ensures DaysInMonth(year, month) == MonthLength(year, month)
  {
  }

  lemma TwoMonths(year: nat, month: nat)
    requires month >= 1
    ensures DaysBefore(year, month + 2) ==
            DaysBefore(year, month) + DaysInMonth(year, month) + DaysInMonth(year, month + 1)
  {
    assert DaysBefore(year, month + 1) == DaysBefore(year, month) + DaysInMonth(year, month);
  }

  lemma YearLength(year: nat)
    ensures DaysBefore(year, 12) + 31 == if Leap(year) then 366 else 365
  {
    assert DaysBefore(year, 1) == 0 && DaysBefore(year, 2) == DaysBefore(year, 1) + DaysInMonth(year, 1);
    hide DaysBefore;
    TwoMonths(year, 2);
    TwoMonths(year, 4);
    TwoMonths(year, 6);
    TwoMonths(year, 8);
    TwoMonths(year, 10);
  }

  lemma Quotients(n: nat)
    ensures (n + 1) / 4 == n / 4 + if (n + 1) % 4 == 0 then 1 else 0
    ensures (n + 1) / 100 == n / 100 + if (n + 1) % 100 == 0 then 1 else 0
    ensures (n + 1) / 400 == n / 400 + if (n + 1) % 400 == 0 then 1 else 0
  {
  }

  lemma MultipleOf100(year: nat)
    requires year % 400 == 0
    ensures year % 100 == 0
  {
    var q := year / 400;
    assert year == 400 * q;
    assert year / 100 == 4 * q;
  }

  lemma MultipleOf4(year: nat)
    requires year % 100 == 0
    ensures year % 4 == 0
  {
    var q := year / 100;
    assert year == 100 * q;
    assert year / 4 == 25 * q;
  }

  lemma NewYear(year: nat)
    requires year >= 1
    ensures Ordinal(year + 1, 1, 1) == Ordinal(year, 1, 1) + if Leap(year) then 366 else 365
  {
    Quotients(year - 1);
    if year % 400 == 0 {
      MultipleOf100(year);
    }
    if year % 100 == 0 {
      MultipleOf4(year);
    }
  }

  /** Consecutive days of the calendar have consecutive numbers. */
  lemma NextDayIsNext(d: Date)
    requires IsDay(d)
    ensures IsDay(NextDay(d)) && NumberOf(NextDay(d)) == NumberOf(d) + 1
  {
    SameLength(d.year, d.month);
    if d.day == MonthLength(d.year, d.month) && d.month == 12 {
      NewYear(d.year);
      YearLength(d.year);
      assert DaysBefore(d.year, 1) == 0 == DaysBefore(d.year + 1, 1);
    }
  }

  lemma DayBefore(d: Date) returns (p: Date)
    requires IsDay(d) && d != FIRST
    ensures IsDay(p) && NextDay(p) == d && NumberOf(p) == NumberOf(d) - 1
    ensures p.year < d.year || (p.year == d.year && p.month < d.month)
            || (p.year == d.year && p.month == d.month && p.day < d.day)
  {
    if d.day > 1 {
      p := Date(d.year, d.month, d.day - 1);
    } else if d.month > 1 {
      p := Date(d.year, d.month - 1, MonthLength(d.year, d.month - 1));
    } else {
      p := Date(d.year - 1, 12, 31);
    }
    NextDayIsNext(p);
    hide Ordinal;
  }

  /** Every day is counted from the first one. */
  lemma {:induction false} Counted(d: Date)
    requires IsDay(d)
    ensures NumberOf(d) >= 1 && d == DaysLater(FIRST, NumberOf(d) - 1)
    decreases d.year, d.month, d.day
  {
    if d == FIRST {
      assert NumberOf(FIRST) == 1;
    } else {
      var p := DayBefore(d);
      Counted(p);
    }
  }

  lemma {:induction false} LaterAgain(d: Date, a: nat, b: nat)
    ensures DaysLater(DaysLater(d, a), b) == DaysLater(d, a + b)
    decreases b
  {
    if b > 0 {
      LaterAgain(d, a, b - 1);
    }
  }

  lemma {:induction false} LaterNumber(d: Date, n: nat)
    requires IsDay(d)
    ensures IsDay(DaysLater(d, n)) && NumberOf(DaysLater(d, n)) == NumberOf(d) + n
    decreases n
  {
    if n > 0 {
      LaterNumber(d, n - 1);
      NextDayIsNext(DaysLater(d, n - 1));
    }
    hide Ordinal, MonthLength;
  }

  /** Numbers differ by exactly the days that lie between. */
  lemma DaysBetween(a: Date, b: Date, n: nat)
    requires IsDay(a) && IsDay(b)
    ensures NumberOf(b) == NumberOf(a) + n <==> b == DaysLater(a, n)
  {
    hide *;
    Counted(a);
    Counted(b);
    LaterAgain(FIRST, NumberOf(a) - 1, n);
    LaterNumber(a, n);
  }

  // ------------------------------------------------------------------ written dates

  function Value(c: char): nat
    requires IsDigit(c)
  {
    c as nat - '0' as nat
  }

  predicate TenPlaces(s: string) {
    && |s| == 10 && s[4] == '-' && s[7] == '-'
    && forall k | 0 <= k < 10 && k != 4 && k != 7 :: '0' <= s[k] <= '9'
  }

  /** Four digits, two and two, with dashes between them. */
  ghost predicate Written(s: string, d: Date) {
    && TenPlaces(s)
    && d.year == 1000 * Value(s[0]) + 100 * Value(s[1]) + 10 * Value(s[2]) + Value(s[3])
    && d.month == 10 * Value(s[5]) + Value(s[6]) && d.day == 10 * Value(s[8]) + Value(s[9])
  }

  lemma NumberTwo(s: string)
    requires Digits(s) && |s| == 2
    ensures Number(s) == 10 * Value(s[0]) + Value(s[1])
  {
    assert s[..1][0] == s[0];
  }

  lemma NumberFour(s: string)
    requires Digits(s) && |s| == 4
    ensures Number(s) == 1000 * Value(s[0]) + 100 * Value(s[1]) + 10 * Value(s[2]) + Value(s[3])
  {
    var t := s[..3];
    assert Digits(t) && t[..2][0] == s[0] && t[..2][1] == s[1] && t[2] == s[2];
    NumberTwo(t[..2]);
    assert Number(t) == 10 * Number(t[..2]) + Value(t[2]);
  }

  lemma PlacesAre(s: string)
    ensures TenPlaces(s) <==>
            |s| == 10 && s[4] == '-' && s[7] == '-' && Digits(s[..4]) && Digits(s[5..7]) && Digits(s[8..])
  {
    if |s| == 10 && Digits(s[..4]) && Digits(s[5..7]) && Digits(s[8..]) {
      forall k | 0 <= k < 10 && k != 4 && k != 7
        ensures '0' <= s[k] <= '9'
      {
        if k < 4 {
          assert s[..4][k] == s[k];
        } else if k < 7 {
          assert s[5..7][k - 5] == s[k];
        } else {
          assert s[8..][k - 8] == s[k];
        }
      }
    }
  }

  ghost function WrittenDate(s: string): Date
    requires TenPlaces(s)
  {
    Date(1000 * Value(s[0]) + 100 * Value(s[1]) + 10 * Value(s[2]) + Value(s[3]),
         10 * Value(s[5]) + Value(s[6]), 10 * Value(s[8]) + Value(s[9]))
  }

  /** A date is read exactly from a written day of the calendar, as its number. */
  lemma ParseDateIs(s: string)
    ensures ParseDate(s).Some? <==> exists d :: Written(s, d) && IsDay(d)
    ensures forall d | Written(s, d) && IsDay(d) :: ParseDate(s) == Some(NumberOf(d))
  {
    PlacesAre(s);
    if TenPlaces(s) {
      NumberFour(s[..4]);
      NumberTwo(s[5..7]);
      NumberTwo(s[8..]);
      var d := WrittenDate(s);
      assert Written(s, d) && forall other | Written(s, other) :: other == d;
      SameLength(d.year, d.month);
    }
    hide Number, Ordinal, DaysInMonth, MonthLength, Digits, TenPlaces;
  }

  /** From one written day to another one, one to ninety days later. */
  ghost predicate Lasting(created: string, expires: string) {
    exists a, n: nat :: Written(created, a) && IsDay(a) && 1 <= n <= 90 && Written(expires, DaysLater(a, n))
  }

  lemma LastsIs(created: string, expires: string)
    ensures Lasting(created, expires) <==> Lasts(ParseDate(created), ParseDate(expires))
  {
    ParseDateIs(created);
    ParseDateIs(expires);
    hide ParseDate, Written, IsDay, NumberOf;
    if Lasts(ParseDate(created), ParseDate(expires)) {
      var a :| Written(created, a) && IsDay(a);
      var b :| Written(expires, b) && IsDay(b);
      DaysBetween(a, b, NumberOf(b) - NumberOf(a));
    }
    forall a, n: nat | Written(created, a) && IsDay(a) && 1 <= n <= 90 && Written(expires, DaysLater(a, n))
      ensures Lasts(ParseDate(created), ParseDate(expires))
    {
      LaterNumber(a, n);
    }
  }
}

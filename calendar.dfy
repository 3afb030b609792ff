/** Calendar arithmetic as the browser's `Date` does it in local time: a day
    is a (year, month, day) triple, `setDate(getDate() + n)` moves `n` days
    and rolls over month and year ends. Months are numbered 1..12 here, as
    they are printed (the source's `getMonth() + 1`). */
module Calendar {

  datatype Civil = Civil(year: int, month: int, day: int)

  /** Gregorian leap years. */
  predicate IsLeap(y: int) {
    (y % 4 == 0 && y % 100 != 0) || y % 400 == 0
  }

  function DaysInMonth(y: int, m: int): (n: int)
    requires 1 <= m <= 12
    ensures 28 <= n <= 31
    ensures n == 29 <==> m == 2 && IsLeap(y)
  {
    if m == 2 then (if IsLeap(y) then 29 else 28)
    else if m == 4 || m == 6 || m == 9 || m == 11 then 30
    else 31
  }

  /** A date that exists. */
  predicate Valid(c: Civil) {
    1 <= c.month <= 12 && 1 <= c.day <= DaysInMonth(c.year, c.month)
  }

  /** The day after `c`. */
  function NextDay(c: Civil): (r: Civil)
    requires Valid(c)
    ensures Valid(r)
  {
    if c.day < DaysInMonth(c.year, c.month) then Civil(c.year, c.month, c.day + 1)
    else if c.month < 12 then Civil(c.year, c.month + 1, 1)
    else Civil(c.year + 1, 1, 1)
  }

  /** The day before `c`. */
  function PrevDay(c: Civil): (r: Civil)
    requires Valid(c)
    ensures Valid(r)
  {
    if c.day > 1 then Civil(c.year, c.month, c.day - 1)
    else if c.month > 1 then Civil(c.year, c.month - 1, DaysInMonth(c.year, c.month - 1))
    else Civil(c.year - 1, 12, 31)
  }

  /** Going one day forward and one back, in either order, is no move. */
  lemma NextPrev(c: Civil)
    requires Valid(c)
    ensures PrevDay(NextDay(c)) == c
    ensures NextDay(PrevDay(c)) == c
  {
  }

  /** `d.setDate(d.getDate() + n)`: `n` days later (earlier when negative). */
  function AddDays(c: Civil, n: int): (r: Civil)
    requires Valid(c)
    ensures Valid(r)
    decreases if n < 0 then -n else n
  {
    if n == 0 then c
    else if n > 0 then NextDay(AddDays(c, n - 1))
    else PrevDay(AddDays(c, n + 1))
  }

  /** One more day is the next day, whatever the sign of the offset. */
  lemma {:induction false} AddDaysSucc(c: Civil, n: int)
    requires Valid(c)
    ensures AddDays(c, n + 1) == NextDay(AddDays(c, n))
  {
    if n < 0 {
      NextPrev(AddDays(c, n + 1));
    }
  }

  /** Moving `a` days then `b` days is moving `a + b` days. */
  lemma {:induction false} AddDaysAdd(c: Civil, a: int, b: int)
    requires Valid(c)
    ensures AddDays(AddDays(c, a), b) == AddDays(c, a + b)
    decreases if b < 0 then -b else b
  {
    if b > 0 {
      AddDaysAdd(c, a, b - 1);
      AddDaysSucc(c, a + b - 1);
    } else if b < 0 {
      AddDaysAdd(c, a, b + 1);
      AddDaysSucc(c, a + b);
      NextPrev(AddDays(c, a + b));
    }
  }

  /** Dates in time order. */
  predicate Before(a: Civil, b: Civil) {
    a.year < b.year
    || (a.year == b.year && a.month < b.month)
    || (a.year == b.year && a.month == b.month && a.day < b.day)
  }

  /** The next day is later. */
  lemma NextDayLater(c: Civil)
    requires Valid(c)
    ensures Before(c, NextDay(c))
  {
  }

  /** Days from a fixed origin. Years are counted from March, so that a leap day
      ends its year; `mp` numbers the months from March = 0. */
  function DayNumber(c: Civil): int
    requires 1 <= c.month <= 12
  {
    var y := if c.month <= 2 then c.year - 1 else c.year;
    var mp := if c.month <= 2 then c.month + 9 else c.month - 3;
    365 * y + y / 4 - y / 100 + y / 400 + (153 * mp + 2) / 5 + c.day - 1
  }

  /** The day of the week as `getDay()` numbers it, 0 = Sunday (1 March 2000 was
      a Wednesday). */
  function Weekday(c: Civil): (w: int)
    requires 1 <= c.month <= 12
    ensures 0 <= w < 7
  {
    (DayNumber(c) + 3) % 7
  }

  /** `y / k` goes up by one exactly when `y` is a multiple of `k`. */
  lemma Step4(y: int)
    ensures y / 4 - (y - 1) / 4 == if y % 4 == 0 then 1 else 0
  {
    var q := y / 4;
    if y % 4 == 0 { assert y - 1 == 4 * (q - 1) + 3; } else { assert y - 1 == 4 * q + (y % 4 - 1); }
  }

  lemma Step100(y: int)
    ensures y / 100 - (y - 1) / 100 == if y % 100 == 0 then 1 else 0
  {
    var q := y / 100;
    if y % 100 == 0 { assert y - 1 == 100 * (q - 1) + 99; } else { assert y - 1 == 100 * q + (y % 100 - 1); }
  }

  lemma Step400(y: int)
    ensures y / 400 - (y - 1) / 400 == if y % 400 == 0 then 1 else 0
  {
    var q := y / 400;
    if y % 400 == 0 { assert y - 1 == 400 * (q - 1) + 399; } else { assert y - 1 == 400 * q + (y % 400 - 1); }
  }

  lemma Divides(y: int)
    ensures y % 400 == 0 ==> y % 100 == 0
    ensures y % 100 == 0 ==> y % 4 == 0
  {
    if y % 400 == 0 { var q := y / 400; assert y == 100 * (4 * q); }
    if y % 100 == 0 { var q := y / 100; assert y == 4 * (25 * q); }
  }

  /** The leap days up to March of `y` exceed those up to March of `y - 1` by
      one exactly in leap years. */
  lemma LeapDays(y: int)
    ensures (y / 4 - y / 100 + y / 400) - ((y - 1) / 4 - (y - 1) / 100 + (y - 1) / 400)
      == if IsLeap(y) then 1 else 0
  {
    Step4(y);
    Step100(y);
    Step400(y);
    Divides(y);
  }

  /** The day after the last of February is numbered one more. */
  lemma MarchFirst(y: int)
    ensures DayNumber(Civil(y, 3, 1)) == DayNumber(Civil(y, 2, DaysInMonth(y, 2))) + 1
  {
    LeapDays(y);
  }

  /** The next day is numbered one more. */
  lemma DayNumberNext(c: Civil)
    requires Valid(c)
    ensures DayNumber(NextDay(c)) == DayNumber(c) + 1
  {
    if c.day == DaysInMonth(c.year, c.month) && c.month == 2 {
      MarchFirst(c.year);
    }
  }

  /** Adding to a number adds to its remainder, modulo 7. */
  lemma ModShift(x: int, n: int)
    ensures (x + n) % 7 == (x % 7 + n) % 7
  {
    var q, m := x / 7, x % 7 + n;
    var q2 := m / 7;
    assert x + n == 7 * (q + q2) + m % 7;
  }

  /** The next day is the next weekday, Saturday wrapping to Sunday. */
  lemma WeekdayNext(c: Civil)
    requires Valid(c)
    ensures Weekday(NextDay(c)) == (Weekday(c) + 1) % 7
  {
    DayNumberNext(c);
    WeekdayApart(c, NextDay(c), 1);
  }

  /** Moving `n` days moves the day number by `n`. */
  lemma {:induction false} DayNumberAddDays(c: Civil, n: int)
    requires Valid(c)
    ensures DayNumber(AddDays(c, n)) == DayNumber(c) + n
    decreases if n < 0 then -n else n
  {
    if n > 0 {
      DayNumberAddDays(c, n - 1);
      DayNumberNext(AddDays(c, n - 1));
    } else if n < 0 {
      var q := AddDays(c, n + 1);
      DayNumberAddDays(c, n + 1);
      NextPrev(q);
      DayNumberNext(PrevDay(q));
    }
  }

  /** Dates `n` days apart are `n` weekdays apart, modulo 7. */
  lemma WeekdayApart(a: Civil, b: Civil, n: int)
    requires 1 <= a.month <= 12 && 1 <= b.month <= 12
    requires DayNumber(b) == DayNumber(a) + n
    ensures Weekday(b) == (Weekday(a) + n) % 7
  {
    ModShift(DayNumber(a) + 3, n);
  }

  /** Moving `n` days moves the weekday by `n`, modulo 7. */
  lemma WeekdayAddDays(c: Civil, n: int)
    requires Valid(c)
    ensures Weekday(AddDays(c, n)) == (Weekday(c) + n) % 7
  {
    DayNumberAddDays(c, n);
    WeekdayApart(c, AddDays(c, n), n);
  }

  /** A reading of the local clock (`new Date()`): the date, its weekday as
      `getDay()` numbers it (0 = Sunday) and the time of day. */
  datatype Clock = Clock(today: Civil, weekday: int, hour: int, minute: int)

  predicate ValidClock(k: Clock) {
    Valid(k.today) && k.weekday == Weekday(k.today) && 0 <= k.hour < 24 && 0 <= k.minute < 60
  }
}

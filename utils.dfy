/** The static helpers of the `Utils` class (js/utils.js): date keys and
    date lists, CSV parsing, phone formatting, e-mail validation, age and
    notification icons. The clock is an input. */
module Utils {
  import opened Wrappers
  import opened Text
  import opened Calendar

  // ---------------------------------------------------------------- formatDate

  /** `formatDate(d, 'YYYY-MM-DD')`: the year as printed, month and day
      zero-padded to two digits. */
  function DateKey(c: Civil): string {
    Join([IntToString(c.year), PadStart2(IntToString(c.month)), PadStart2(IntToString(c.day))], '-')
  }

  /** `formatDate(d, 'DD/MM/YYYY')`: the same parts in reverse order. */
  function DisplayDate(c: Civil): string {
    Join([PadStart2(IntToString(c.day)), PadStart2(IntToString(c.month)), IntToString(c.year)], '/')
  }

  /** What `toLocaleDateString` renders, which depends on the browser: the
      long pt-BR form and the default form. */
  datatype LocaleText = LocaleText(ptBrLong: string, browserDefault: string)

  /** `formatDate(date, format)`; any format other than the three named ones
      falls back to the browser's default rendering. */
  function FormatDate(c: Civil, format: string, locale: LocaleText): string {
    if format == "pt-BR" then locale.ptBrLong
    else if format == "YYYY-MM-DD" then DateKey(c)
    else if format == "DD/MM/YYYY" then DisplayDate(c)
    else locale.browserDefault
  }

  /** Reading a 'YYYY-MM-DD' key back into a date: three non-empty digit
      runs separated by '-'. */
  function ParseDateKey(s: string): Option<Civil> {
    var parts := Split(s, '-');
    if |parts| == 3 && parts[0] != "" && parts[1] != "" && parts[2] != ""
       && AllDigits(parts[0]) && AllDigits(parts[1]) && AllDigits(parts[2])
    then Some(Civil(DigitsValue(parts[0]), DigitsValue(parts[1]), DigitsValue(parts[2])))
    else None
  }

  /** A zero-padded numeral still denotes its number. */
  lemma PaddedValue(n: nat)
    ensures AllDigits(PadStart2(NatToString(n))) && PadStart2(NatToString(n)) != ""
    ensures DigitsValue(PadStart2(NatToString(n))) == n
  {
    NatToStringValue(n);
    NatToStringDigits(n);
    if |NatToString(n)| == 1 {
      LeadingZeroValue(NatToString(n));
    }
  }

  /** A date key reads back as the date it was made from. */
  lemma DateKeyRoundTrip(c: Civil)
    requires Valid(c) && c.year >= 0
    ensures ParseDateKey(DateKey(c)) == Some(c)
  {
    var y, m, d := NatToString(c.year), PadStart2(NatToString(c.month)), PadStart2(NatToString(c.day));
    NatToStringValue(c.year);
    PaddedValue(c.month);
    PaddedValue(c.day);
    assert '-' !in y && '-' !in m && '-' !in d by {
      assert forall i :: 0 <= i < |y| ==> IsDigit(y[i]);
      assert forall i :: 0 <= i < |m| ==> IsDigit(m[i]);
      assert forall i :: 0 <= i < |d| ==> IsDigit(d[i]);
    }
    SplitJoin([y, m, d], '-');
  }

  /** Distinct dates have distinct keys, so a key identifies a day. */
  lemma DateKeyInjective(a: Civil, b: Civil)
    requires Valid(a) && a.year >= 0 && Valid(b) && b.year >= 0
    requires DateKey(a) == DateKey(b)
    ensures a == b
  {
    DateKeyRoundTrip(a);
    DateKeyRoundTrip(b);
  }

  // ---------------------------------------------------------------- week and month

  /** The Sunday that starts the week of `k.today`. */
  function WeekStart(k: Clock): Civil
    requires ValidClock(k)
  {
    AddDays(k.today, -k.weekday)
  }

  /** The keys of seven days from `start`. */
  function WeekFrom(start: Civil): seq<string>
    requires Valid(start)
  {
    seq(7, i requires 0 <= i < 7 => DateKey(AddDays(start, i)))
  }

  /** The seven keys `getWeekDates()` returns. */
  function WeekDates(k: Clock): seq<string>
    requires ValidClock(k)
  {
    WeekFrom(WeekStart(k))
  }

  /** Going back `getDay()` days from today lands on a Sunday. */
  lemma WeekStartsSunday(k: Clock)
    requires ValidClock(k)
    ensures Weekday(WeekStart(k)) == 0
  {
    WeekdayAddDays(k.today, -k.weekday);
  }

  /** In the week from `w` days before `c`, day `w` is `c` and each day is the
      next of the one before. */
  lemma WeekAround(c: Civil, w: int, i: nat)
    requires Valid(c) && 0 <= w < 7 && i < 6
    ensures WeekFrom(AddDays(c, -w))[w] == DateKey(c)
    ensures WeekFrom(AddDays(c, -w))[i + 1] == DateKey(NextDay(AddDays(AddDays(c, -w), i)))
  {
    AddDaysAdd(c, -w, w);
    AddDaysSucc(AddDays(c, -w), i);
  }

  /** The week's days follow one another, and today's key sits at the
      position of today's weekday. */
  lemma WeekDatesHaveToday(k: Clock, i: nat)
    requires ValidClock(k) && i < 6
    ensures WeekDates(k)[k.weekday] == DateKey(k.today)
    ensures WeekDates(k)[i + 1] == DateKey(NextDay(AddDays(WeekStart(k), i)))
  {
    WeekAround(k.today, k.weekday, i);
  }

  /** `getWeekDates()`: the loop that pushes the keys of the seven days from
      the start of the week. */
  method GetWeekDates(k: Clock) returns (dates: seq<string>)
    requires ValidClock(k)
    ensures dates == WeekDates(k)
  {
    var start := AddDays(k.today, -k.weekday);
    dates := [];
    var i := 0;
    while i < 7
      invariant 0 <= i <= 7 && |dates| == i
      invariant forall j :: 0 <= j < i ==> dates[j] == DateKey(AddDays(start, j))
    {
      dates := dates + [DateKey(AddDays(start, i))];
      i := i + 1;
    }
    assert start == WeekStart(k);
  }

  /** The keys `getMonthDates()` returns for month `m` of year `y`: one per
      day, the `i`-th for day `i + 1`. */
  function MonthDates(y: int, m: int): seq<string>
    requires 1 <= m <= 12
  {
    seq(DaysInMonth(y, m), i requires 0 <= i < DaysInMonth(y, m) => DateKey(Civil(y, m, i + 1)))
  }

  /** `getMonthDates()`: from the first of the current month, one day at a
      time while the day is not after the month's last day. */
  method GetMonthDates(k: Clock) returns (dates: seq<string>)
    requires ValidClock(k)
    ensures dates == MonthDates(k.today.year, k.today.month)
  {
    var y, m := k.today.year, k.today.month;
    var n := DaysInMonth(y, m);
    var last := Civil(y, m, n);
    dates := [];
    var d := Civil(y, m, 1);
    while !Before(last, d)
      invariant Valid(d) && |dates| <= n
      invariant |dates| < n ==> d == Civil(y, m, |dates| + 1)
      invariant |dates| == n ==> d == NextDay(last)
      invariant forall j :: 0 <= j < |dates| ==> dates[j] == DateKey(Civil(y, m, j + 1))
      decreases n - |dates|
    {
      assert d == Civil(y, m, |dates| + 1);
      dates := dates + [DateKey(d)];
      d := NextDay(d);
    }
  }

  // ---------------------------------------------------------------- parseCSV

  /** The cell value `currentline[j] ? currentline[j].trim() : ''`. */
  function Cell(cells: seq<string>, j: int): string {
    if 0 <= j < |cells| && cells[j] != "" then Trim(cells[j]) else ""
  }

  /** The object built from one data line: each trimmed header is a key, and
      a later header with the same trimmed name overwrites an earlier one. */
  function Record(headers: seq<string>, cells: seq<string>): map<string, string>
    decreases |headers|
  {
    if headers == [] then map[]
    else Record(headers[..|headers| - 1], cells)[Trim(headers[|headers| - 1]) := Cell(cells, |headers| - 1)]
  }

  /** The objects for the data lines `lines`, skipping blank ones. */
  function CsvRows(headers: seq<string>, lines: seq<string>): seq<map<string, string>> {
    if lines == [] then []
    else
      var last := lines[|lines| - 1];
      CsvRows(headers, lines[..|lines| - 1]) + (if NonBlank(last) then [Record(headers, Split(last, ','))] else [])
  }

  /** What `parseCSV(text)` returns: the first line holds the headers. */
  function ParseCsv(text: string): seq<map<string, string>> {
    var lines := Split(text, '\n');
    CsvRows(Split(lines[0], ','), lines[1..])
  }

  /** Every object has exactly the trimmed headers as keys. */
  lemma {:induction false} RecordKeys(headers: seq<string>, cells: seq<string>)
    ensures forall k :: k in Record(headers, cells) <==> exists j :: 0 <= j < |headers| && Trim(headers[j]) == k
    decreases |headers|
  {
    if headers != [] {
      var n := |headers| - 1;
      var init := headers[..n];
      RecordKeys(init, cells);
      assert Record(headers, cells) == Record(init, cells)[Trim(headers[n]) := Cell(cells, n)];
      forall k | k in Record(headers, cells)
        ensures exists j :: 0 <= j < |headers| && Trim(headers[j]) == k
      {
        if k != Trim(headers[n]) {
          var j :| 0 <= j < n && Trim(init[j]) == k;
          assert headers[j] == init[j];
        }
      }
      forall k, j | 0 <= j < |headers| && Trim(headers[j]) == k
        ensures k in Record(headers, cells)
      {
        if j < n {
          assert init[j] == headers[j];
        }
      }
    }
  }

  /** The value under a header is the cell in the column of that header's
      last occurrence; a column the line does not reach gives ''. */
  lemma {:induction false} RecordValue(headers: seq<string>, cells: seq<string>, j: int)
    requires 0 <= j < |headers|
    requires forall l :: j < l < |headers| ==> Trim(headers[l]) != Trim(headers[j])
    ensures Trim(headers[j]) in Record(headers, cells)
    ensures Record(headers, cells)[Trim(headers[j])] == Cell(cells, j)
    ensures j >= |cells| ==> Record(headers, cells)[Trim(headers[j])] == ""
    decreases |headers|
  {
    var n := |headers| - 1;
    if j < n {
      RecordValue(headers[..n], cells, j);
    }
  }

  /** The lines that are not blank, in order. */
  function NonBlankLines(lines: seq<string>): seq<string> {
    if lines == [] then []
    else NonBlankLines(lines[..|lines| - 1]) + (if NonBlank(lines[|lines| - 1]) then [lines[|lines| - 1]] else [])
  }

  /** The data rows are one object per non-blank line, in order. */
  lemma {:induction false} CsvRowsLines(headers: seq<string>, lines: seq<string>)
    ensures |CsvRows(headers, lines)| == |NonBlankLines(lines)|
    ensures forall i :: 0 <= i < |CsvRows(headers, lines)| ==>
      CsvRows(headers, lines)[i] == Record(headers, Split(NonBlankLines(lines)[i], ','))
    decreases |lines|
  {
    if lines != [] {
      CsvRowsLines(headers, lines[..|lines| - 1]);
    }
  }

  /** The inner loop of `parseCSV`: one object from one data line, a key per
      header. */
  method ParseLine(headers: seq<string>, line: string) returns (obj: map<string, string>)
    ensures obj == Record(headers, Split(line, ','))
  {
    obj := map[];
    var currentline := Split(line, ',');
    var j := 0;
    while j < |headers|
      invariant 0 <= j <= |headers|
      invariant obj == Record(headers[..j], currentline)
    {
      assert headers[..j + 1][..j] == headers[..j];
      obj := obj[Trim(headers[j]) := if j < |currentline| && currentline[j] != "" then Trim(currentline[j]) else ""];
      j := j + 1;
    }
    assert headers[..j] == headers;
  }

  /** `parseCSV(csvText)`: the nested loops that fill one object per line. */
  method ParseCSV(csvText: string) returns (result: seq<map<string, string>>)
    ensures result == ParseCsv(csvText)
  {
    var lines := Split(csvText, '\n');
    result := [];
    var headers := Split(lines[0], ',');
    var i := 1;
    while i < |lines|
      invariant 1 <= i <= |lines|
      invariant result == CsvRows(headers, lines[1..i])
    {
      assert lines[1..i + 1][..i - 1] == lines[1..i];
      if NonBlank(lines[i]) {
        var obj := ParseLine(headers, lines[i]);
        result := result + [obj];
      }
      i := i + 1;
    }
    assert lines[1..i] == lines[1..];
  }

  // ---------------------------------------------------------------- phone and e-mail

  /** The text `(area) first-last`. */
  function Masked(area: string, first: string, last: string): string {
    "(" + area + ") " + first + "-" + last
  }

  /** The punctuation of the mask carries no digits. */
  lemma {:induction false} DigitsOfMasked(area: string, first: string, last: string)
    requires AllDigits(area) && AllDigits(first) && AllDigits(last)
    ensures Digits(Masked(area, first, last)) == area + first + last
  {
    var s1 := "(" + area;
    var s2 := s1 + ") ";
    var s3 := s2 + first;
    var s4 := s3 + "-";
    DigitsOfNonDigits("(");
    DigitsOfNonDigits(") ");
    DigitsOfNonDigits("-");
    DigitsOfDigits(area);
    DigitsOfDigits(first);
    DigitsOfDigits(last);
    DigitsAppend("(", area);
    assert Digits(s1) == area;
    DigitsAppend(s1, ") ");
    assert Digits(s2) == area;
    DigitsAppend(s2, first);
    assert Digits(s3) == area + first;
    DigitsAppend(s3, "-");
    assert Digits(s4) == area + first;
    DigitsAppend(s4, last);
  }

  /** `formatPhone(phone)`: 11 digits as (DD) DDDDD-DDDD, 10 digits as
      (DD) DDDD-DDDD, anything else unchanged. */
  function FormatPhone(phone: string): string {
    var n := Digits(phone);
    if |n| == 11 then Masked(n[..2], n[2..7], n[7..])
    else if |n| == 10 then Masked(n[..2], n[2..6], n[6..])
    else phone
  }

  /** Formatting keeps exactly the digits of the number. */
  lemma FormatPhoneDigits(phone: string)
    ensures Digits(FormatPhone(phone)) == Digits(phone)
  {
    var n := Digits(phone);
    if |n| == 11 || |n| == 10 {
      var k := if |n| == 11 then 7 else 6;
      DigitsOfMasked(n[..2], n[2..k], n[k..]);
      assert n[..2] + n[2..k] + n[k..] == n;
    }
  }

  /** Formatting an already formatted number changes nothing. */
  lemma FormatPhoneIdempotent(phone: string)
    ensures FormatPhone(FormatPhone(phone)) == FormatPhone(phone)
  {
    FormatPhoneDigits(phone);
  }

  /** A character of `[^\s@]`. */
  predicate Plain(c: char) {
    !IsSpace(c) && c != '@'
  }

  predicate AllPlain(s: string) {
    forall k :: 0 <= k < |s| ==> Plain(s[k])
  }

  /** The domain part of the pattern, `[^\s@]+\.[^\s@]+`. */
  predicate DomainOk(d: string) {
    AllPlain(d) && exists j | 0 < j < |d| - 1 :: d[j] == '.'
  }

  /** `validateEmail(email)`: the pattern `^[^\s@]+@[^\s@]+\.[^\s@]+$`. */
  predicate ValidateEmail(email: string) {
    exists i | 0 < i < |email| :: email[i] == '@' && AllPlain(email[..i]) && DomainOk(email[i + 1..])
  }

  predicate NoSpace(s: string) {
    forall k :: 0 <= k < |s| ==> !IsSpace(s[k])
  }

  /** The address split at '@' into a non-empty local part and a domain,
      neither holding white space, the domain with a '.' that is neither its
      first nor its last character. */
  predicate EmailShape(email: string) {
    var parts := Split(email, '@');
    |parts| == 2 && parts[0] != "" && NoSpace(parts[0]) && NoSpace(parts[1])
    && exists j | 0 < j < |parts[1]| - 1 :: parts[1][j] == '.'
  }

  /** Splitting at the only '@' gives the text before and after it. */
  lemma SplitAtOnly(local: string, domain: string)
    requires '@' !in local && '@' !in domain
    ensures Split(local + ['@'] + domain, '@') == [local, domain]
  {
    SplitAfter(local, '@', domain);
    SplitNone(domain, '@');
  }

  lemma ValidEmailHasShape(email: string)
    requires ValidateEmail(email)
    ensures EmailShape(email)
  {
    var i :| 0 < i < |email| && email[i] == '@' && AllPlain(email[..i]) && DomainOk(email[i + 1..]);
    var a, b := email[..i], email[i + 1..];
    assert AllPlain(a) && AllPlain(b);
    assert '@' !in a && '@' !in b;
    assert email == a + ['@'] + b;
    SplitAtOnly(a, b);
    assert Split(email, '@') == [a, b];
    assert NoSpace(a) && NoSpace(b);
  }

  lemma ShapedEmailIsValid(email: string)
    requires EmailShape(email)
    ensures ValidateEmail(email)
  {
    var parts := Split(email, '@');
    var a, b := parts[0], parts[1];
    JoinSplit(email, '@');
    assert parts[1..] == [b];
    assert email == a + ['@'] + b;
    var i := |a|;
    assert email[..i] == a && email[i + 1..] == b;
    assert forall k :: 0 <= k < |a| ==> '@' != a[k];
    assert forall k :: 0 <= k < |b| ==> '@' != b[k];
    assert AllPlain(a) && AllPlain(b);
  }

  /** The pattern accepts exactly the addresses with one '@', a non-empty
      local part, no white space, and a '.' inside the domain that is
      neither its first nor its last character. */
  lemma ValidateEmailIff(email: string)
    ensures ValidateEmail(email) <==> EmailShape(email)
  {
    if ValidateEmail(email) {
      ValidEmailHasShape(email);
    }
    if EmailShape(email) {
      ShapedEmailIsValid(email);
    }
  }

  // ---------------------------------------------------------------- age and icons

  /** `calculateAge(birthdate)`: null for an empty birth date; otherwise the
      difference of years, less one when this year's birthday is still
      ahead. */
  function CalculateAge(birth: Option<Civil>, today: Civil): (age: Option<int>)
    ensures birth.None? <==> age.None?
    ensures birth.Some? ==>
      var b := birth.value;
      && !Before(today, Civil(b.year + age.value, b.month, b.day))
      && Before(today, Civil(b.year + age.value + 1, b.month, b.day))
  {
    match birth
    case None => None
    case Some(b) =>
      var years := today.year - b.year;
      var monthDiff := today.month - b.month;
      Some(if monthDiff < 0 || (monthDiff == 0 && today.day < b.day) then years - 1 else years)
  }

  /** `getNotificationIcon(type)`: the icon of a known type, 'info-circle'
      for any other. */
  function NotificationIcon(kind: string): (icon: string)
    ensures kind != "success" && kind != "error" && kind != "warning" ==> icon == "info-circle"
    ensures icon in {"check-circle", "exclamation-circle", "exclamation-triangle", "info-circle"}
  {
    if kind == "success" then "check-circle"
    else if kind == "error" then "exclamation-circle"
    else if kind == "warning" then "exclamation-triangle"
    else "info-circle"
  }
}

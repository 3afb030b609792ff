/** The arithmetic and choices of the page controller (js/ui.js): the status
    each member card shows, the report totals and rates, the date range of a
    report period, the late-arrival tolerance, the multi-member form, the
    per-member report and the settings form. The clock is an input. */
module Ui {
  import opened Wrappers
  import opened Text
  import opened Js
  import opened Calendar
  import Numbers
  import Utils
  import Api
  import MemberModel

  // ---------------------------------------------------------------- member cards

  /** A row of the daily attendance as the page reads it: `member_id` and `status`. */
  datatype Record = Record(memberId: int, status: string)

  /** The `attendanceMap` the page fills: each record sets its member's entry,
      so a later record overwrites an earlier one. */
  function StatusMap(records: seq<Record>): map<int, string>
    decreases |records|
  {
    if records == [] then map[]
    else
      var n := |records| - 1;
      StatusMap(records[..n])[records[n].memberId := records[n].status]
  }

  /** `attendance.forEach(record => attendanceMap[record.member_id] = record.status)`. */
  method BuildStatusMap(records: seq<Record>) returns (attendanceMap: map<int, string>)
    ensures attendanceMap == StatusMap(records)
  {
    attendanceMap := map[];
    var i := 0;
    while i < |records|
      invariant 0 <= i <= |records|
      invariant attendanceMap == StatusMap(records[..i])
    {
      assert records[..i + 1][..i] == records[..i];
      attendanceMap := attendanceMap[records[i].memberId := records[i].status];
      i := i + 1;
    }
    assert records[..i] == records;
  }

  /** `attendanceMap[member.id] || 'absent'`. */
  function CardStatus(attendanceMap: map<int, string>, id: int): string {
    if id in attendanceMap && attendanceMap[id] != "" then attendanceMap[id] else "absent"
  }

  /** A member has an entry exactly when some record names it. */
  lemma {:induction false} StatusMapKeys(records: seq<Record>, id: int)
    ensures id in StatusMap(records) <==> exists j :: 0 <= j < |records| && records[j].memberId == id
    decreases |records|
  {
    if records != [] {
      var n := |records| - 1;
      var front := records[..n];
      StatusMapKeys(front, id);
      if exists j :: 0 <= j < |records| && records[j].memberId == id {
        var j :| 0 <= j < |records| && records[j].memberId == id;
        if j < n {
          assert front[j].memberId == id;
        }
      }
      if exists j :: 0 <= j < n && front[j].memberId == id {
        var j :| 0 <= j < n && front[j].memberId == id;
        assert records[j].memberId == id;
      }
    }
  }

  /** The last record of a member decides its entry. */
  lemma {:induction false} StatusMapLast(records: seq<Record>, i: int)
    requires 0 <= i < |records|
    requires forall j :: i < j < |records| ==> records[j].memberId != records[i].memberId
    ensures records[i].memberId in StatusMap(records)
    ensures StatusMap(records)[records[i].memberId] == records[i].status
    decreases |records|
  {
    var n := |records| - 1;
    if i < n {
      var front := records[..n];
      assert front[i] == records[i];
      StatusMapLast(front, i);
    }
  }

  /** A member without a record is shown absent. */
  lemma CardWithoutRecord(records: seq<Record>, id: int)
    requires forall j :: 0 <= j < |records| ==> records[j].memberId != id
    ensures CardStatus(StatusMap(records), id) == "absent"
  {
    StatusMapKeys(records, id);
  }

  /** A member with records shows the status of the last one, or absent when
      that status is empty. */
  lemma CardOfLastRecord(records: seq<Record>, i: int)
    requires 0 <= i < |records|
    requires forall j :: i < j < |records| ==> records[j].memberId != records[i].memberId
    ensures CardStatus(StatusMap(records), records[i].memberId)
         == if records[i].status == "" then "absent" else records[i].status
  {
    StatusMapLast(records, i);
  }

  // ---------------------------------------------------------------- report totals

  /** A day of the attendance summary: the counts for one date. */
  datatype Day = Day(date: string, total: int, present: int, late: int, absent: int)

  /** A day as the server's grouping produces it: non-negative counts whose
      sum does not exceed the day's total. */
  predicate WellFormed(d: Day) {
    0 <= d.present && 0 <= d.late && 0 <= d.absent && d.present + d.late + d.absent <= d.total
  }

  datatype Totals = Totals(present: int, late: int, absent: int, records: int)

  function Add(a: Totals, b: Totals): Totals {
    Totals(a.present + b.present, a.late + b.late, a.absent + b.absent, a.records + b.records)
  }

  function Counts(d: Day): Totals {
    Totals(d.present, d.late, d.absent, d.total)
  }

  /** The totals over a summary, day by day. */
  function Sum(days: seq<Day>): Totals
    decreases |days|
  {
    if days == [] then Totals(0, 0, 0, 0)
    else Add(Sum(days[..|days| - 1]), Counts(days[|days| - 1]))
  }

  /** The totals over two stretches of days are the sum of their totals. */
  lemma {:induction false} SumAppend(a: seq<Day>, b: seq<Day>)
    ensures Sum(a + b) == Add(Sum(a), Sum(b))
    decreases |b|
  {
    if b != [] {
      var n := |b| - 1;
      SumAppend(a, b[..n]);
      assert (a + b)[..|a + b| - 1] == a + b[..n];
    } else {
      assert a + b == a;
    }
  }

  /** Totals over well-formed days are well-formed themselves. */
  lemma {:induction false} SumWellFormed(days: seq<Day>)
    requires forall i :: 0 <= i < |days| ==> WellFormed(days[i])
    ensures var t := Sum(days);
      0 <= t.present && 0 <= t.late && 0 <= t.absent && t.present + t.late + t.absent <= t.records
    decreases |days|
  {
    if days != [] {
      SumWellFormed(days[..|days| - 1]);
      assert WellFormed(days[|days| - 1]);
    }
  }

  /** The four cards of the report summary. */
  datatype Report = Report(
    present: int, late: int, absent: int, members: int,
    presentPercent: int, latePercent: int, absentPercent: int,
    days: int, unit: string)

  /** `updateReportSummary(summary, period)`: the totals accumulated day by
      day, each percentage over the total of records (0 when there are none),
      and the number of days with `dia` for the `today` period. */
  method UpdateReportSummary(summary: seq<Day>, period: string) returns (r: Report)
    ensures var t := Sum(summary);
      && r.present == t.present && r.late == t.late && r.absent == t.absent
      && r.members == t.present + t.late + t.absent
      && r.presentPercent == Numbers.Percent(t.present, t.records)
      && r.latePercent == Numbers.Percent(t.late, t.records)
      && r.absentPercent == Numbers.Percent(t.absent, t.records)
      && r.days == |summary| && r.unit == (if period == "today" then "dia" else "dias")
  {
    var totalPresent, totalLate, totalAbsent, totalRecords := 0, 0, 0, 0;
    var i := 0;
    while i < |summary|
      invariant 0 <= i <= |summary|
      invariant Sum(summary[..i]) == Totals(totalPresent, totalLate, totalAbsent, totalRecords)
    {
      assert summary[..i + 1][..i] == summary[..i];
      totalPresent := totalPresent + summary[i].present;
      totalLate := totalLate + summary[i].late;
      totalAbsent := totalAbsent + summary[i].absent;
      totalRecords := totalRecords + summary[i].total;
      i := i + 1;
    }
    assert summary[..i] == summary;
    r := Report(totalPresent, totalLate, totalAbsent, totalPresent + totalLate + totalAbsent,
                Numbers.Percent(totalPresent, totalRecords),
                Numbers.Percent(totalLate, totalRecords),
                Numbers.Percent(totalAbsent, totalRecords),
                |summary|, if period == "today" then "dia" else "dias");
  }

  /** Over well-formed days the cards never count more members than records,
      every percentage lies between 0 and 100, and all are 0 without records. */
  lemma ReportBounds(summary: seq<Day>)
    requires forall i :: 0 <= i < |summary| ==> WellFormed(summary[i])
    ensures var t := Sum(summary);
      && t.present + t.late + t.absent <= t.records
      && 0 <= Numbers.Percent(t.present, t.records) <= 100
      && 0 <= Numbers.Percent(t.late, t.records) <= 100
      && 0 <= Numbers.Percent(t.absent, t.records) <= 100
      && (t.records == 0 ==>
            Numbers.Percent(t.present, t.records) == 0 && Numbers.Percent(t.late, t.records) == 0
            && Numbers.Percent(t.absent, t.records) == 0)
  {
    var t := Sum(summary);
    SumWellFormed(summary);
    Numbers.PercentBounds(t.present, t.records);
    Numbers.PercentBounds(t.late, t.records);
    Numbers.PercentBounds(t.absent, t.records);
  }

  // ---------------------------------------------------------------- history

  /** An element of `day.date.split('-')`, `undefined` past the end. */
  function Part(parts: seq<string>, i: nat): string {
    if i < |parts| then parts[i] else "undefined"
  }

  /** `${date}/${month}/${year}` from `[year, month, date] = key.split('-')`. */
  function HistoryDate(key: string): string {
    var p := Split(key, '-');
    Join([Part(p, 2), Part(p, 1), Part(p, 0)], '/')
  }

  /** The day's attendance rate: present and late over the day's total. */
  function DayRate(d: Day): int {
    Numbers.Percent(d.present + d.late, d.total)
  }

  datatype HistoryRow = HistoryRow(date: string, rate: int, present: int, late: int, absent: int)

  /** `updateAttendanceHistory(summary)`: one row per day, in the summary's order. */
  method UpdateAttendanceHistory(summary: seq<Day>) returns (rows: seq<HistoryRow>)
    ensures |rows| == |summary|
    ensures forall i :: 0 <= i < |summary| ==>
      rows[i] == HistoryRow(HistoryDate(summary[i].date), DayRate(summary[i]),
                            summary[i].present, summary[i].late, summary[i].absent)
  {
    rows := [];
    var i := 0;
    while i < |summary|
      invariant 0 <= i <= |summary| && |rows| == i
      invariant forall j :: 0 <= j < i ==>
        rows[j] == HistoryRow(HistoryDate(summary[j].date), DayRate(summary[j]),
                              summary[j].present, summary[j].late, summary[j].absent)
    {
      var day := summary[i];
      rows := rows + [HistoryRow(HistoryDate(day.date), DayRate(day), day.present, day.late, day.absent)];
      i := i + 1;
    }
  }

  /** A date key is shown as `formatDate(d, 'DD/MM/YYYY')` would show the date. */
  lemma HistoryDateOfKey(c: Civil)
    requires Valid(c) && c.year >= 0
    ensures HistoryDate(Utils.DateKey(c)) == Utils.DisplayDate(c)
  {
    var y, m, d := NatToString(c.year), PadStart2(NatToString(c.month)), PadStart2(NatToString(c.day));
    Utils.PaddedValue(c.month);
    Utils.PaddedValue(c.day);
    NatToStringDigits(c.year);
    assert '-' !in y && '-' !in m && '-' !in d by {
      assert forall i :: 0 <= i < |y| ==> IsDigit(y[i]);
      assert forall i :: 0 <= i < |m| ==> IsDigit(m[i]);
      assert forall i :: 0 <= i < |d| ==> IsDigit(d[i]);
    }
    SplitJoin([y, m, d], '-');
  }

  /** A well-formed day's rate lies between 0 and 100; it is 0 for a day
      without records and 100 when nobody was absent. */
  lemma DayRateBounds(d: Day)
    requires WellFormed(d)
    ensures 0 <= DayRate(d) <= 100
    ensures d.total == 0 ==> DayRate(d) == 0
    ensures d.total > 0 && d.present + d.late == d.total ==> DayRate(d) == 100
  {
    Numbers.PercentBounds(d.present + d.late, d.total);
  }

  // ---------------------------------------------------------------- report period

  datatype Range = Range(startDate: string, endDate: string)

  /** `getDateRangeFromPeriod(period)`. */
  function DateRangeFromPeriod(period: string, k: Clock): Range
    requires ValidClock(k)
  {
    var today := Utils.DateKey(k.today);
    if period == "today" then Range(today, today)
    else if period == "week" then
      var w := Utils.WeekDates(k);
      Range(w[0], w[6])
    else if period == "month" then
      var m := Utils.MonthDates(k.today.year, k.today.month);
      Range(m[0], m[|m| - 1])
    else if period == "all" then Range("1900-01-01", "2100-12-31")
    else Range(today, today)
  }

  /** The days a period stands for: the week, the month, or today alone. */
  function PeriodDates(period: string, k: Clock): seq<string>
    requires ValidClock(k)
  {
    if period == "week" then Utils.WeekDates(k)
    else if period == "month" then Utils.MonthDates(k.today.year, k.today.month)
    else [Utils.DateKey(k.today)]
  }

  /** Except for `all`, the range runs from the first to the last day of the
      period's days, and today is one of them; `all` is the fixed range. */
  lemma DateRangeSpec(period: string, k: Clock)
    requires ValidClock(k)
    ensures var r := DateRangeFromPeriod(period, k);
      var ds := PeriodDates(period, k);
      period != "all" ==>
        |ds| > 0 && r.startDate == ds[0] && r.endDate == ds[|ds| - 1] && Utils.DateKey(k.today) in ds
    ensures period == "all" ==> DateRangeFromPeriod(period, k) == Range("1900-01-01", "2100-12-31")
    ensures period == "week" ==>
      DateRangeFromPeriod(period, k)
      == Range(Utils.DateKey(Utils.WeekStart(k)), Utils.DateKey(AddDays(Utils.WeekStart(k), 6)))
    ensures var y, m := k.today.year, k.today.month;
      period == "month" ==>
      DateRangeFromPeriod(period, k)
      == Range(Utils.DateKey(Civil(y, m, 1)), Utils.DateKey(Civil(y, m, DaysInMonth(y, m))))
  {
    if period == "week" {
      Utils.WeekDatesHaveToday(k, 0);
    } else if period == "month" {
      var ds := Utils.MonthDates(k.today.year, k.today.month);
      assert ds[k.today.day - 1] == Utils.DateKey(k.today);
    }
  }

  // ---------------------------------------------------------------- tolerance

  /** A setting as arithmetic reads it: its number, or `None` for NaN and
      for a missing entry (`undefined`). */
  function Minutes(settings: map<string, Value>, key: string): Option<int> {
    if key in settings && settings[key].Num? then Some(settings[key].n) else None
  }

  /** `isWithinTolerance(date)`: the time of day is not after the class start
      plus the tolerance; any NaN makes the comparison false. */
  predicate IsWithinTolerance(settings: map<string, Value>, k: Clock) {
    var h, m, t := Minutes(settings, "classHour"), Minutes(settings, "classMinute"), Minutes(settings, "toleranceMinutes");
    h.Some? && m.Some? && t.Some? && k.hour * 60 + k.minute <= h.value * 60 + m.value + t.value
  }

  /** Arriving earlier never turns a punctual arrival into a late one. */
  lemma EarlierStaysWithin(settings: map<string, Value>, a: Clock, b: Clock)
    requires a.hour * 60 + a.minute <= b.hour * 60 + b.minute
    requires IsWithinTolerance(settings, b)
    ensures IsWithinTolerance(settings, a)
  {
  }

  /** With the default settings (class at 9:00, 15 minutes of tolerance) an
      arrival is punctual exactly up to 9:15. */
  lemma DefaultTolerance(k: Clock)
    requires ValidClock(k)
    ensures IsWithinTolerance(Api.DefaultSettings, k) <==> k.hour < 9 || (k.hour == 9 && k.minute <= 15)
  {
    assert Minutes(Api.DefaultSettings, "classHour") == Some(9);
    assert Minutes(Api.DefaultSettings, "classMinute") == Some(0);
    assert Minutes(Api.DefaultSettings, "toleranceMinutes") == Some(15);
  }

  /** A setting that is NaN or missing makes every arrival late. */
  lemma NaNToleranceIsLate(settings: map<string, Value>, k: Clock, key: string)
    requires key == "classHour" || key == "classMinute" || key == "toleranceMinutes"
    requires Minutes(settings, key).None?
    ensures !IsWithinTolerance(settings, k)
  {
  }

  // ---------------------------------------------------------------- several members at once

  /** The trimmed non-blank lines, in order. */
  function Names(lines: seq<string>): seq<string> {
    if lines == [] then []
    else (if Trim(lines[0]) != "" then [Trim(lines[0])] else []) + Names(lines[1..])
  }

  /** `text.split('\n').map(name => name.trim()).filter(name => name.length > 0)`. */
  function NamesOf(text: string): seq<string> {
    Names(Split(text, '\n'))
  }

  /** Every name is non-empty and already trimmed, there are no more names than
      lines, and the trim of every non-blank line is among them. */
  lemma {:induction false} NamesSpec(lines: seq<string>)
    ensures |Names(lines)| <= |lines|
    ensures forall i :: 0 <= i < |Names(lines)| ==> Names(lines)[i] != "" && Trim(Names(lines)[i]) == Names(lines)[i]
    ensures forall i :: 0 <= i < |lines| && Trim(lines[i]) != "" ==> Trim(lines[i]) in Names(lines)
  {
    if lines != [] {
      NamesSpec(lines[1..]);
      TrimIdempotent(lines[0]);
      var head := if Trim(lines[0]) != "" then [Trim(lines[0])] else [];
      assert Names(lines) == head + Names(lines[1..]);
      forall i | 0 < i < |lines| && Trim(lines[i]) != "" ensures Trim(lines[i]) in Names(lines) {
        assert lines[i] == lines[1..][i - 1];
      }
    }
  }

  /** No names means only blank lines. */
  lemma {:induction false} NoNamesAllBlank(lines: seq<string>)
    ensures Names(lines) == [] ==> forall i :: 0 <= i < |lines| ==> AllSpace(lines[i])
  {
    if lines != [] {
      NoNamesAllBlank(lines[1..]);
      TrimSpec(lines[0]);
      if Names(lines) == [] {
        forall i | 0 < i < |lines| ensures AllSpace(lines[i]) {
          assert lines[i] == lines[1..][i - 1];
        }
      }
    }
  }

  /** Joining blank pieces with a white-space separator gives a blank text. */
  lemma {:induction false} JoinBlank(parts: seq<string>, sep: char)
    requires IsSpace(sep) && forall i :: 0 <= i < |parts| ==> AllSpace(parts[i])
    ensures AllSpace(Join(parts, sep))
  {
    if |parts| > 1 {
      JoinBlank(parts[1..], sep);
      var s := parts[0] + [sep] + Join(parts[1..], sep);
      forall i | 0 <= i < |s| ensures IsSpace(s[i]) {
        if i < |parts[0]| {
          assert s[i] == parts[0][i];
        } else if i > |parts[0]| {
          assert s[i] == Join(parts[1..], sep)[i - |parts[0]| - 1];
        }
      }
    }
  }

  /** A text that is not blank always yields a name, so the page's second
      warning, for a text with no valid name, can never be shown. */
  lemma NonBlankTextHasNames(text: string)
    ensures Trim(text) != "" ==> NamesOf(text) != []
  {
    var lines := Split(text, '\n');
    if NamesOf(text) == [] {
      NoNamesAllBlank(lines);
      JoinBlank(lines, '\n');
      JoinSplit(text, '\n');
      TrimSpec(text);
    }
  }

  /** The body of one `addMember` call. */
  datatype MemberRequest = MemberRequest(name: string, className: string, active: bool)

  datatype MultiOutcome =
    | Warned(message: string)
    | Attempted(requests: seq<MemberRequest>, successCount: nat, errorCount: nat)

  const NoName := "Digite pelo menos um nome"

  /** How many of the first `n` attempts succeed, `ok(i)` telling the outcome of
      attempt `i`. */
  function Successes(ok: nat -> bool, n: nat): nat {
    if n == 0 then 0 else Successes(ok, n - 1) + (if ok(n - 1) then 1 else 0)
  }

  /** The multi-member form: a warning for a blank text, otherwise one
      `addMember` per name, in order, each counted as a success or an error. */
  method AddMultipleMembers(text: string, className: string, ok: nat -> bool) returns (r: MultiOutcome)
    ensures r.Warned? <==> Trim(text) == ""
    ensures r.Warned? ==> r.message == NoName
    ensures r.Attempted? ==>
      && |r.requests| == |NamesOf(text)|
      && (forall i :: 0 <= i < |r.requests| ==> r.requests[i] == MemberRequest(NamesOf(text)[i], className, true))
      && r.successCount == Successes(ok, |NamesOf(text)|)
      && r.successCount + r.errorCount == |NamesOf(text)|
  {
    if Trim(text) == "" {
      return Warned(NoName);
    }
    var names := NamesOf(text);
    var requests: seq<MemberRequest> := [];
    var successCount, errorCount := 0, 0;
    var i := 0;
    while i < |names|
      invariant 0 <= i <= |names| && |requests| == i
      invariant forall j :: 0 <= j < i ==> requests[j] == MemberRequest(names[j], className, true)
      invariant successCount == Successes(ok, i) && successCount + errorCount == i
    {
      requests := requests + [MemberRequest(names[i], className, true)];
      if ok(i) {
        successCount := successCount + 1;
      } else {
        errorCount := errorCount + 1;
      }
      i := i + 1;
    }
    r := Attempted(requests, successCount, errorCount);
  }

  /** Successes never outnumber the attempts. */
  lemma {:induction false} SuccessesBounded(ok: nat -> bool, n: nat)
    ensures Successes(ok, n) <= n
    ensures (forall i :: 0 <= i < n ==> ok(i)) ==> Successes(ok, n) == n
    ensures (forall i :: 0 <= i < n ==> !ok(i)) ==> Successes(ok, n) == 0
  {
    if n > 0 {
      SuccessesBounded(ok, n - 1);
    }
  }

  // ---------------------------------------------------------------- detailed report

  /** A member's line in the detailed report. */
  datatype MemberReport = MemberReport(
    id: int, name: string, className: Option<string>,
    presences: nat, lates: nat, absences: nat, rate: int)

  /** `attendanceRecords.filter(record => record.member_id === id)`. */
  function Mine(records: seq<Record>, id: int): seq<Record> {
    if records == [] then []
    else (if records[0].memberId == id then [records[0]] else []) + Mine(records[1..], id)
  }

  /** How many records have status `s`. */
  function CountStatus(records: seq<Record>, s: string): nat {
    if records == [] then 0
    else (if records[0].status == s then 1 else 0) + CountStatus(records[1..], s)
  }

  /** How many records are `present` or `late`. */
  function CountAttended(records: seq<Record>): nat {
    if records == [] then 0
    else (if records[0].status == "present" || records[0].status == "late" then 1 else 0)
         + CountAttended(records[1..])
  }

  /** The report line of one member. */
  function MemberReportOf(m: MemberModel.Member, records: seq<Record>): MemberReport {
    var mine := Mine(records, m.id);
    MemberReport(m.id, m.name, m.className,
                 CountStatus(mine, "present"), CountStatus(mine, "late"), CountStatus(mine, "absent"),
                 Numbers.Percent(CountAttended(mine), |mine|))
  }

  /** The `membros` list: one line per member, in the members' order. */
  function MemberReports(members: seq<MemberModel.Member>, records: seq<Record>): seq<MemberReport> {
    seq(|members|, i requires 0 <= i < |members| => MemberReportOf(members[i], records))
  }

  /** A member's records are exactly the records that name the member. */
  lemma {:induction false} MineSpec(records: seq<Record>, id: int)
    ensures forall x :: x in Mine(records, id) <==> x in records && x.memberId == id
    ensures |Mine(records, id)| <= |records|
  {
    if records != [] {
      MineSpec(records[1..], id);
      assert forall x :: x in records <==> x == records[0] || x in records[1..];
    }
  }

  /** The three counts never exceed the member's records, and the attended
      records are the present ones plus the late ones. */
  lemma {:induction false} CountsSpec(records: seq<Record>)
    ensures CountAttended(records) == CountStatus(records, "present") + CountStatus(records, "late")
    ensures CountStatus(records, "present") + CountStatus(records, "late") + CountStatus(records, "absent") <= |records|
  {
    if records != [] {
      CountsSpec(records[1..]);
    }
  }

  /** A member's counts fit within the member's records, the rate lies
      between 0 and 100, and it is 0 for a member without records. */
  lemma MemberReportSpec(m: MemberModel.Member, records: seq<Record>)
    ensures var r := MemberReportOf(m, records);
      var mine := Mine(records, m.id);
      && r.presences + r.lates + r.absences <= |mine|
      && 0 <= r.rate <= 100
      && (mine == [] ==> r.rate == 0)
      && r.rate == Numbers.Percent(r.presences + r.lates, |mine|)
  {
    var mine := Mine(records, m.id);
    CountsSpec(mine);
    Numbers.PercentBounds(CountAttended(mine), |mine|);
  }

  /** The report has one line per member, in the members' order: line `i` names
      member `i`, its counts fit within that member's records, and its rate lies
      between 0 and 100 and is 0 for a member without records. */
  lemma MemberReportsSpec(members: seq<MemberModel.Member>, records: seq<Record>)
    ensures |MemberReports(members, records)| == |members|
    ensures forall i :: 0 <= i < |members| ==>
      var r := MemberReports(members, records)[i];
      var mine := Mine(records, members[i].id);
      && r.id == members[i].id && r.name == members[i].name && r.className == members[i].className
      && r.presences + r.lates + r.absences <= |mine|
      && 0 <= r.rate <= 100
      && (mine == [] ==> r.rate == 0)
  {
    forall i | 0 <= i < |members|
      ensures var r := MemberReports(members, records)[i];
        var mine := Mine(records, members[i].id);
        && r.presences + r.lates + r.absences <= |mine|
        && 0 <= r.rate <= 100
        && (mine == [] ==> r.rate == 0)
    {
      MemberReportSpec(members[i], records);
    }
  }

  /** The methods the API client defines (js/api.js). */
  const ClientMethods: set<string> := {
    "request", "getMembers", "getAllMembers", "getMember", "addMember", "updateMember",
    "deleteMember", "getClasses", "getActiveClasses", "getClass", "addClass", "updateClass",
    "deleteClass", "markAttendance", "getDailyAttendance", "getAttendanceSummary",
    "clearAttendance", "getSettings", "saveSettings", "getDatabaseInfo", "exportData", "importData"}

  datatype Detailed = ReportFailed(message: string) | ReportBuilt(members: seq<MemberReport>)

  const RecordsMissing := "db.getAttendanceRecords is not a function"

  /** `generateDetailedReport`, given the methods the client has: calling a
      method it lacks throws a TypeError, which the page reports. */
  function DetailedReport(methods: set<string>, members: seq<MemberModel.Member>, records: seq<Record>): Detailed {
    if "getAttendanceRecords" in methods then ReportBuilt(MemberReports(members, records))
    else ReportFailed(RecordsMissing)
  }

  /** The client has no `getAttendanceRecords`, so the detailed report always
      fails, whatever the members and records. */
  lemma DetailedReportAlwaysFails(members: seq<MemberModel.Member>, records: seq<Record>)
    ensures DetailedReport(ClientMethods, members, records) == ReportFailed(RecordsMissing)
  {
    assert "getAttendanceRecords" !in ClientMethods;
  }

  // ---------------------------------------------------------------- settings form

  /** `parseInt(value) || d`. */
  function FormField(text: string, d: int): Value {
    Numbers.OrDefault(Numbers.ParseInt(text), d)
  }

  /** The four settings the form yields. */
  function FormSettings(hour: string, minute: string, duration: string, tolerance: string): map<string, Value> {
    map["classHour" := FormField(hour, 9), "classMinute" := FormField(minute, 0),
        "classDuration" := FormField(duration, 60), "toleranceMinutes" := FormField(tolerance, 15)]
  }

  /** A field reads as its number, except that 0 and anything without digits
      give the default; it is never NaN. */
  lemma FormFieldSpec(n: nat, text: string, d: int)
    requires forall i :: 0 <= i < |text| ==> !IsDigit(text[i])
    ensures FormField(NatToString(n), d) == Num(if n == 0 then d else n)
    ensures FormField(text, d) == Num(d)
  {
    Numbers.ParseNatString(n);
    Numbers.ParseIntNoDigits(text);
  }

  /** The form's four entries, each under its own key. */
  lemma FormSettingsAt(hour: string, minute: string, duration: string, tolerance: string)
    ensures var f := FormSettings(hour, minute, duration, tolerance);
      && f.Keys == {"classHour", "classMinute", "classDuration", "toleranceMinutes"}
      && f["classHour"] == FormField(hour, 9) && f["classMinute"] == FormField(minute, 0)
      && f["classDuration"] == FormField(duration, 60) && f["toleranceMinutes"] == FormField(tolerance, 15)
  {
    assert |"classHour"| == 9 && |"classMinute"| == 11 && |"classDuration"| == 13 && |"toleranceMinutes"| == 16;
  }

  /** After the form is saved the tolerance check compares the form's numbers. */
  lemma FormSettingsTolerance(cache: map<string, Value>, hour: string, minute: string, duration: string,
                              tolerance: string, k: Clock)
    ensures var s := cache + FormSettings(hour, minute, duration, tolerance);
      IsWithinTolerance(s, k) <==>
        k.hour * 60 + k.minute <= FormField(hour, 9).n * 60 + FormField(minute, 0).n + FormField(tolerance, 15).n
  {
    var f := FormSettings(hour, minute, duration, tolerance);
    FormSettingsAt(hour, minute, duration, tolerance);
    assert Minutes(cache + f, "classHour") == Some(FormField(hour, 9).n);
    assert Minutes(cache + f, "classMinute") == Some(FormField(minute, 0).n);
    assert Minutes(cache + f, "toleranceMinutes") == Some(FormField(tolerance, 15).n);
  }

  /** `saveSettings()` as written: the four fields go into the client's cache,
      then `db.saveSettings()` is called without an argument, which throws
      before posting anything; the page still reports success. */
  method SaveSettingsAsWritten(db: Api.ApiService, hour: string, minute: string, duration: string,
                               tolerance: string, ok: string -> bool) returns (posted: map<string, Value>)
    modifies db
    ensures db.settings == old(db.settings) + FormSettings(hour, minute, duration, tolerance)
    ensures posted == map[]
  {
    db.settings := db.settings + FormSettings(hour, minute, duration, tolerance);
    var thrown;
    posted, thrown := db.SaveSettings(None, ok);
  }

  /** `saveSettings()` passing the cache to `db.saveSettings`: every setting,
      the four from the form among them, is posted with its new value. */
  method SaveSettings(db: Api.ApiService, hour: string, minute: string, duration: string,
                      tolerance: string, ok: string -> bool) returns (posted: map<string, Value>)
    modifies db
    ensures db.settings == old(db.settings) + FormSettings(hour, minute, duration, tolerance)
    ensures forall key :: key in db.settings ==> key in posted && posted[key] == Api.SettingBody(key, db.settings[key])
  {
    db.settings := db.settings + FormSettings(hour, minute, duration, tolerance);
    posted := PostCache(db, ok);
  }

  /** `db.saveSettings(db.settings)`: posts every cached setting; writing the
      cache back onto itself leaves it as it was. */
  method PostCache(db: Api.ApiService, ok: string -> bool) returns (posted: map<string, Value>)
    modifies db
    ensures db.settings == old(db.settings)
    ensures forall key :: key in db.settings ==> key in posted && posted[key] == Api.SettingBody(key, db.settings[key])
  {
    var cache := db.settings;
    assert Spread(Obj(cache)) == cache;
    assert cache + cache == cache;
    var thrown;
    posted, thrown := db.SaveSettings(Some(Obj(cache)), ok);
  }
}

// The `attendance` table, at most one row per (member, date): the upsert that marks
// a member on a day, the day's rows joined with their members, the per-day summary
// over a date range, and the removal of one day.

module AttendanceModel {
  import opened Wrappers
  import opened Sql
  import MemberModel

  /** A row of `attendance`. Dates are day numbers, so `BETWEEN` and `ORDER BY date`
      are integer comparisons. `member_id` may be NULL; `date` and `status` may not. */
  datatype Row = Row(id: nat, memberId: Option<int>, date: int, status: string, checkInTime: Option<string>)

  /** The table and its `SERIAL` counter. */
  datatype Table = Table(rows: seq<Row>, nextId: nat)

  /** The row belongs to that member on that date. A row whose `member_id` is NULL
      has no pair. */
  predicate SamePair(r: Row, memberId: int, date: int) {
    r.memberId == Some(memberId) && r.date == date
  }

  /** `UNIQUE (member_id, date)`: NULLs are distinct from each other, so only rows with
      a member are constrained. */
  predicate UniquePairs(rows: seq<Row>) {
    forall i, j :: 0 <= i < j < |rows| && rows[i].memberId.Some? ==>
      !SamePair(rows[j], rows[i].memberId.value, rows[i].date)
  }

  /** The rows of one (member, date) pair. */
  function ForPair(memberId: int, date: int): Row -> bool {
    (r: Row) => SamePair(r, memberId, date)
  }

  function RowsFor(rows: seq<Row>, memberId: int, date: int): seq<Row> {
    Where(rows, ForPair(memberId, date))
  }

  /** The position of the pair's row. */
  function Find(rows: seq<Row>, memberId: int, date: int): (r: Option<nat>)
    ensures r.Some? ==> r.value < |rows| && SamePair(rows[r.value], memberId, date)
  {
    if rows == [] then None
    else if SamePair(rows[0], memberId, date) then Some(0)
    else match Find(rows[1..], memberId, date)
      case None => None
      case Some(i) => Some(i + 1)
  }

  lemma {:induction false} FindNone(rows: seq<Row>, memberId: int, date: int)
    ensures Find(rows, memberId, date).None? <==>
      forall i :: 0 <= i < |rows| ==> !SamePair(rows[i], memberId, date)
  {
    if rows != [] {
      FindNone(rows[1..], memberId, date);
      if Find(rows, memberId, date).None? {
        forall i | 0 < i < |rows| ensures !SamePair(rows[i], memberId, date) {
          assert rows[i] == rows[1..][i - 1];
        }
      }
    }
  }

  /** The row an insert of (member, date) conflicts with: none when the member is NULL. */
  function Conflict(rows: seq<Row>, memberId: Option<int>, date: int): Option<nat> {
    if memberId.None? then None else Find(rows, memberId.value, date)
  }

  // ---------------------------------------------------------------- mark

  /** The error PostgreSQL raises; node-postgres sets its `code`. */
  datatype DbError = DbError(code: string, message: string)

  const DateNotNull := DbError("23502", "null value in column \"date\" violates not-null constraint")
  const StatusNotNull := DbError("23502", "null value in column \"status\" violates not-null constraint")
  const MemberMissing := DbError("23503",
    "insert or update on table \"attendance\" violates foreign key constraint \"attendance_member_id_fkey\"")

  datatype Marked = Marked(table: Table, row: Row)

  /** A failed statement: the error and the table after it, which has used up an id. */
  datatype Rejected = Rejected(error: DbError, table: Table)

  /** The sequence has advanced and no row changed. */
  function Consumed(t: Table): Table {
    Table(t.rows, t.nextId + 1)
  }

  /**
   * `mark`: `INSERT … ON CONFLICT (member_id, date) DO UPDATE SET status, check_in_time`,
   * with `undefined` arguments bound as NULL. PostgreSQL draws the id first, then checks
   * NOT NULL column by column (`date` before `status`), then looks for a conflict: an
   * existing row keeps its id and gets the new status and time. Without a conflict the
   * row is inserted, and the foreign key rejects a member that does not exist (a NULL
   * member is not checked). The sequence advances in every case.
   */
  function Mark(t: Table, members: MemberModel.Table, memberId: Option<int>, date: Option<int>,
                status: Option<string>, checkInTime: Option<string>): Result<Marked, Rejected> {
    if date.None? then Err(Rejected(DateNotNull, Consumed(t)))
    else if status.None? then Err(Rejected(StatusNotNull, Consumed(t)))
    else match Conflict(t.rows, memberId, date.value)
      case Some(i) =>
        var row := t.rows[i].(status := status.value, checkInTime := checkInTime);
        Ok(Marked(Table(t.rows[i := row], t.nextId + 1), row))
      case None =>
        if memberId.Some? && MemberModel.GetById(members, memberId.value).None? then
          Err(Rejected(MemberMissing, Consumed(t)))
        else
          var row := Row(t.nextId, memberId, date.value, status.value, checkInTime);
          Ok(Marked(Table(t.rows + [row], t.nextId + 1), row))
  }

  /** `mark` fails exactly for a missing date or status, or for a new pair whose member
      does not exist, and a failure only uses up an id. After a success the returned row
      carries the arguments; a member's pair then has exactly that row, while a NULL
      member's row is always appended. Pairs stay unique either way. */
  lemma MarkSpec(t: Table, members: MemberModel.Table, memberId: Option<int>, date: Option<int>,
                 status: Option<string>, checkInTime: Option<string>)
    requires UniquePairs(t.rows)
    ensures var r := Mark(t, members, memberId, date, status, checkInTime);
      && (r.Err? <==>
            || date.None?
            || status.None?
            || (memberId.Some? && Find(t.rows, memberId.value, date.value).None?
                && MemberModel.GetById(members, memberId.value).None?))
      && (r.Err? ==>
            && r.error.table == Consumed(t)
            && r.error.error == (if date.None? then DateNotNull else if status.None? then StatusNotNull
                                 else MemberMissing))
      && (r.Ok? ==>
            var m := r.value;
            && UniquePairs(m.table.rows)
            && m.table.nextId == t.nextId + 1
            && m.row.memberId == memberId && m.row.date == date.value
            && m.row.status == status.value && m.row.checkInTime == checkInTime
            && (memberId.Some? ==> RowsFor(m.table.rows, memberId.value, date.value) == [m.row])
            && (memberId.None? ==> m.table.rows == t.rows + [m.row] && m.row.id == t.nextId))
  {
    var r := Mark(t, members, memberId, date, status, checkInTime);
    if r.Ok? {
      var m := r.value;
      var rows := m.table.rows;
      match Conflict(t.rows, memberId, date.value)
      case Some(i) =>
        assert rows[i] == m.row;
        WhereOnly(rows, ForPair(memberId.value, date.value), i);
      case None =>
        assert rows[|t.rows|] == m.row;
        if memberId.Some? {
          FindNone(t.rows, memberId.value, date.value);
          WhereOnly(rows, ForPair(memberId.value, date.value), |t.rows|);
        }
    }
  }

  /** A NULL member never conflicts: the same mark made twice adds two rows, under two
      ids. */
  lemma NullMemberAddsRows(t: Table, members: MemberModel.Table, date: int, status: string,
                           checkInTime: Option<string>)
    ensures var r := Mark(t, members, None, Some(date), Some(status), checkInTime);
      && r.Ok?
      && var r2 := Mark(r.value.table, members, None, Some(date), Some(status), checkInTime);
      && r2.Ok?
      && r2.value.table.rows == t.rows + [r.value.row, r2.value.row]
      && r.value.row.id != r2.value.row.id
  {
  }

  /** Marking a member's pair that already has a row rewrites that row only: the row
      count and every other row stay; marking a new pair appends one row. */
  lemma MarkKeepsOthers(t: Table, members: MemberModel.Table, memberId: Option<int>, date: Option<int>,
                        status: Option<string>, checkInTime: Option<string>)
    ensures var r := Mark(t, members, memberId, date, status, checkInTime);
      r.Ok? ==>
        var m := r.value;
        match Conflict(t.rows, memberId, m.row.date)
        case Some(i) =>
          && |m.table.rows| == |t.rows|
          && m.row.id == t.rows[i].id
          && (forall j :: 0 <= j < |t.rows| && j != i ==> m.table.rows[j] == t.rows[j])
        case None => m.table.rows == t.rows + [m.row] && m.row.id == t.nextId
  {
  }

  /** Repeating a successful mark of a member leaves the rows as the first one did;
      the repeat finds the row and so never meets the foreign key. */
  lemma MarkIdempotent(t: Table, members: MemberModel.Table, memberId: Option<int>, date: Option<int>,
                       status: Option<string>, checkInTime: Option<string>)
    ensures var r := Mark(t, members, memberId, date, status, checkInTime);
      r.Ok? && memberId.Some? ==>
        var r2 := Mark(r.value.table, members, memberId, date, status, checkInTime);
        r2.Ok? && r2.value.table.rows == r.value.table.rows && r2.value.row == r.value.row
  {
    var r := Mark(t, members, memberId, date, status, checkInTime);
    if r.Ok? && memberId.Some? {
      var m := r.value;
      match Find(t.rows, memberId.value, date.value)
      case Some(i) =>
        FindFirst(t.rows, memberId.value, date.value);
        FindAt(m.table.rows, memberId.value, date.value, i);
      case None =>
        FindNone(t.rows, memberId.value, date.value);
        FindAt(m.table.rows, memberId.value, date.value, |t.rows|);
    }
  }

  lemma {:induction false} FindFirst(rows: seq<Row>, memberId: int, date: int)
    ensures Find(rows, memberId, date).Some? ==>
      forall j :: 0 <= j < Find(rows, memberId, date).value ==> !SamePair(rows[j], memberId, date)
  {
    if rows != [] && !SamePair(rows[0], memberId, date) {
      FindFirst(rows[1..], memberId, date);
      if Find(rows, memberId, date).Some? {
        forall j | 0 < j < Find(rows, memberId, date).value ensures !SamePair(rows[j], memberId, date) {
          assert rows[j] == rows[1..][j - 1];
        }
      }
    }
  }

  lemma {:induction false} FindAt(rows: seq<Row>, memberId: int, date: int, i: nat)
    requires i < |rows| && SamePair(rows[i], memberId, date)
    requires forall j :: 0 <= j < i ==> !SamePair(rows[j], memberId, date)
    ensures Find(rows, memberId, date) == Some(i)
  {
    if i > 0 {
      FindAt(rows[1..], memberId, date, i - 1);
    }
  }

  // ---------------------------------------------------------------- clearDate

  function NotOn(date: int): Row -> bool {
    (r: Row) => r.date != date
  }

  /** `clearDate`: delete the rows of that day. */
  function ClearDate(t: Table, date: int): Table {
    Table(Where(t.rows, NotOn(date)), t.nextId)
  }

  lemma ClearDateSpec(t: Table, date: int)
    ensures forall r :: r in ClearDate(t, date).rows <==> r in t.rows && r.date != date
  {
    WhereSpec(t.rows, NotOn(date));
  }

  // ---------------------------------------------------------------- getDailyAttendance

  /** A row of the join: the attendance row with its member's name and class. */
  datatype Daily = Daily(row: Row, name: string, className: Option<string>)

  /** `getDailyAttendance`: the day's rows joined with `members`; a row whose member
      is NULL or does not exist is dropped by the inner join. */
  function GetDailyAttendance(rows: seq<Row>, members: MemberModel.Table, date: int): seq<Daily> {
    if rows == [] then []
    else
      var rest := GetDailyAttendance(rows[1..], members, date);
      var r := rows[0];
      if r.memberId.None? then rest
      else match MemberModel.GetById(members, r.memberId.value)
        case Some(m) => if r.date == date then [Daily(r, m.name, m.className)] + rest else rest
        case None => rest
  }

  lemma {:induction false} GetDailyAttendanceSpec(rows: seq<Row>, members: MemberModel.Table, date: int, d: Daily)
    ensures d in GetDailyAttendance(rows, members, date) <==>
      && d.row in rows
      && d.row.date == date
      && d.row.memberId.Some?
      && MemberModel.GetById(members, d.row.memberId.value).Some?
      && d.name == MemberModel.GetById(members, d.row.memberId.value).value.name
      && d.className == MemberModel.GetById(members, d.row.memberId.value).value.className
  {
    if rows != [] {
      GetDailyAttendanceSpec(rows[1..], members, date, d);
      assert rows == [rows[0]] + rows[1..];
    }
  }

  // ---------------------------------------------------------------- getSummary

  /** One line of the summary. */
  datatype Summary = Summary(date: int, total: nat, present: nat, late: nat, absent: nat)

  predicate Increasing(ds: seq<int>) {
    forall i :: 0 < i < |ds| ==> ds[i - 1] < ds[i]
  }

  /** Put `d` into an increasing list of dates, once. */
  function InsertDate(ds: seq<int>, d: int): seq<int> {
    if ds == [] then [d]
    else if d < ds[0] then [d] + ds
    else if d == ds[0] then ds
    else [ds[0]] + InsertDate(ds[1..], d)
  }

  lemma {:induction false} InsertDateSpec(ds: seq<int>, d: int)
    requires Increasing(ds)
    ensures Increasing(InsertDate(ds, d))
    ensures forall x :: x in InsertDate(ds, d) <==> x in ds || x == d
    ensures InsertDate(ds, d)[0] == d || (ds != [] && InsertDate(ds, d)[0] == ds[0])
  {
    if ds != [] && d > ds[0] {
      var rest := ds[1..];
      assert Increasing(rest) by {
        forall i | 0 < i < |rest| ensures rest[i - 1] < rest[i] {
          assert rest[i - 1] == ds[i] && rest[i] == ds[i + 1];
        }
      }
      InsertDateSpec(rest, d);
      assert ds == [ds[0]] + rest;
    }
  }

  /** The dates within `[start, end]` that have rows: `GROUP BY date ORDER BY date`. */
  function Dates(rows: seq<Row>, start: int, end: int): seq<int> {
    if rows == [] then []
    else
      var rest := Dates(rows[1..], start, end);
      if start <= rows[0].date <= end then InsertDate(rest, rows[0].date) else rest
  }

  lemma {:induction false} DatesSpec(rows: seq<Row>, start: int, end: int)
    ensures Increasing(Dates(rows, start, end))
    ensures forall d :: d in Dates(rows, start, end) <==>
      start <= d <= end && exists r :: r in rows && r.date == d
  {
    if rows != [] {
      DatesSpec(rows[1..], start, end);
      var rest := Dates(rows[1..], start, end);
      if start <= rows[0].date <= end {
        InsertDateSpec(rest, rows[0].date);
      }
      assert rows == [rows[0]] + rows[1..];
    }
  }

  /** `COUNT(*)` for a date. */
  function DayCount(rows: seq<Row>, date: int): nat {
    if rows == [] then 0
    else (if rows[0].date == date then 1 else 0) + DayCount(rows[1..], date)
  }

  /** `SUM(CASE WHEN status = s THEN 1 ELSE 0 END)` for a date. */
  function StatusCount(rows: seq<Row>, date: int, status: string): nat {
    if rows == [] then 0
    else (if rows[0].date == date && rows[0].status == status then 1 else 0) + StatusCount(rows[1..], date, status)
  }

  function Entries(rows: seq<Row>, dates: seq<int>): (r: seq<Summary>)
    ensures |r| == |dates|
  {
    if dates == [] then []
    else
      var d := dates[0];
      [Summary(d, DayCount(rows, d), StatusCount(rows, d, "present"),
               StatusCount(rows, d, "late"), StatusCount(rows, d, "absent"))]
      + Entries(rows, dates[1..])
  }

  /** `getSummary(start, end)`. */
  function GetSummary(t: Table, start: int, end: int): seq<Summary> {
    Entries(t.rows, Dates(t.rows, start, end))
  }

  lemma {:induction false} EntriesAt(rows: seq<Row>, dates: seq<int>, i: int)
    requires 0 <= i < |dates|
    ensures var e := Entries(rows, dates)[i];
      e == Summary(dates[i], DayCount(rows, dates[i]), StatusCount(rows, dates[i], "present"),
                   StatusCount(rows, dates[i], "late"), StatusCount(rows, dates[i], "absent"))
  {
    if i > 0 {
      EntriesAt(rows, dates[1..], i - 1);
    }
  }

  /** Rows of distinct statuses are counted apart, and all are among the day's rows. */
  lemma {:induction false} StatusCountsBounded(rows: seq<Row>, date: int)
    ensures StatusCount(rows, date, "present") + StatusCount(rows, date, "late")
      + StatusCount(rows, date, "absent") <= DayCount(rows, date)
  {
    if rows != [] {
      StatusCountsBounded(rows[1..], date);
    }
  }

  /** A day has rows exactly when its count is positive. */
  lemma {:induction false} DayCountPositive(rows: seq<Row>, date: int)
    ensures DayCount(rows, date) > 0 <==> exists r :: r in rows && r.date == date
  {
    if rows != [] {
      DayCountPositive(rows[1..], date);
      assert rows == [rows[0]] + rows[1..];
    }
  }

  /** The summary has one entry per date in range that has rows, dates ascending and
      each entry's counts those of its date, with present + late + absent <= total. */
  lemma GetSummarySpec(t: Table, start: int, end: int)
    ensures var s := GetSummary(t, start, end);
      && (forall i :: 0 < i < |s| ==> s[i - 1].date < s[i].date)
      && var ds := Dates(t.rows, start, end);
      && |s| == |ds|
      && (forall i :: 0 <= i < |s| ==> s[i].date == ds[i])
      && (forall d :: d in ds <==> start <= d <= end && exists r :: r in t.rows && r.date == d)
      && (forall i :: 0 <= i < |s| ==>
            && s[i].total == DayCount(t.rows, s[i].date) > 0
            && s[i].present == StatusCount(t.rows, s[i].date, "present")
            && s[i].late == StatusCount(t.rows, s[i].date, "late")
            && s[i].absent == StatusCount(t.rows, s[i].date, "absent")
            && s[i].present + s[i].late + s[i].absent <= s[i].total)
  {
    var ds := Dates(t.rows, start, end);
    var s := GetSummary(t, start, end);
    DatesSpec(t.rows, start, end);
    forall i | 0 <= i < |s| ensures s[i].date == ds[i] {
      EntriesAt(t.rows, ds, i);
    }
    forall i | 0 <= i < |s|
      ensures && s[i].total == DayCount(t.rows, s[i].date) > 0
              && s[i].present == StatusCount(t.rows, s[i].date, "present")
              && s[i].late == StatusCount(t.rows, s[i].date, "late")
              && s[i].absent == StatusCount(t.rows, s[i].date, "absent")
              && s[i].present + s[i].late + s[i].absent <= s[i].total
    {
      EntriesAt(t.rows, ds, i);
      StatusCountsBounded(t.rows, ds[i]);
      assert ds[i] in ds;
      DayCountPositive(t.rows, ds[i]);
    }
  }
}

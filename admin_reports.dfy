/** The two report pages of `EmployeeAdmin` in admin.py: the per-day worksheet report and the remark loop
    of the attendance report. Amounts are integer hundredths of a rupee; a commission, worth 0.05 of an
    amount, is in ten-thousandths. */
module AdminReports {
  import opened Wrappers
  import opened Tables
  import opened Models
  import Middleware

  /** A calendar date as the worksheet stores it. */
  datatype Date = Date(year: int, month: int, day: int)

  predicate IsLeap(year: int)
  {
    year % 4 == 0 && (year % 100 != 0 || year % 400 == 0)
  }

  /** `monthrange(year, month)[1]`. */
  function DaysInMonth(year: int, month: int): (n: nat)
    requires 1 <= month <= 12
    ensures 28 <= n <= 31
    ensures month == 2 ==> (n == 29 <==> IsLeap(year))
  {
    if month == 2 then (if IsLeap(year) then 29 else 28)
    else if month == 4 || month == 6 || month == 9 || month == 11 then 30
    else 31
  }

  /** `date(year, month, day)` can be built for every day of the month only in these ranges; otherwise
      `monthrange` or `date` raises `ValueError`. */
  predicate ValidMonth(year: int, month: int)
  {
    1 <= year <= 9999 && 1 <= month <= 12
  }

  /** One worksheet line of an employee. */
  datatype WorksheetEntry = WorksheetEntry(employeeId: int, date: Date, amount: int)

  /** The `employee` query parameter: absent or empty, a number, or text that is not a number (which
      makes the primary-key lookup raise `ValueError`). */
  datatype EmployeeParam = NoEmployee | Pk(pk: int) | BadPk

  /** The `month` query parameter after `map(int, month_str.split('-'))`: two integers, or text that does
      not split into two integers. An absent parameter is replaced by the current month before this. */
  datatype MonthParam = YearMonth(year: int, month: int) | Unparsable

  datatype Row = Row(date: Date, totalAmount: int, commission: int)

  datatype Report = Report(rows: seq<Row>, totalAmount: int, totalCommission: int, error: Option<string>) | ReportCrash

  const InvalidMonthMessage: string := "Invalid month format. Please select a valid month."
  const EmployeeNotFound: string := "Employee not found."

  /** `Sum('amount')` of the employee's entries on one date, `0` when there are none. */
  function DayTotal(entries: seq<WorksheetEntry>, pk: int, date: Date): int
  {
    if entries == [] then 0
    else
      var e := entries[|entries| - 1];
      DayTotal(entries[..|entries| - 1], pk, date) + (if e.employeeId == pk && e.date == date then e.amount else 0)
  }

  /** A date on which the employee has no entry totals `0`. */
  lemma {:induction false} NoEntriesTotalZero(entries: seq<WorksheetEntry>, pk: int, date: Date)
    requires forall i :: 0 <= i < |entries| ==> entries[i].employeeId != pk || entries[i].date != date
    ensures DayTotal(entries, pk, date) == 0
    decreases |entries|
  {
    if entries != [] {
      NoEntriesTotalZero(entries[..|entries| - 1], pk, date);
    }
  }

  /** The row of day `day`: the day's total and 5% of it. */
  function DayRow(entries: seq<WorksheetEntry>, pk: int, year: int, month: int, day: int): Row
  {
    var total := DayTotal(entries, pk, Date(year, month, day));
    Row(Date(year, month, day), total, total * 5)
  }

  function SumAmounts(rows: seq<Row>): int
  {
    if rows == [] then 0 else SumAmounts(rows[..|rows| - 1]) + rows[|rows| - 1].totalAmount
  }

  function SumCommissions(rows: seq<Row>): int
  {
    if rows == [] then 0 else SumCommissions(rows[..|rows| - 1]) + rows[|rows| - 1].commission
  }

  /** Every row's commission is 5% of its amount, so the month's commission is 5% of the month's amount. */
  lemma {:induction false} CommissionIsFivePercent(rows: seq<Row>)
    requires forall i :: 0 <= i < |rows| ==> rows[i].commission == rows[i].totalAmount * 5
    ensures SumCommissions(rows) == SumAmounts(rows) * 5
    decreases |rows|
  {
    if rows != [] {
      CommissionIsFivePercent(rows[..|rows| - 1]);
    }
  }

  const EmptyReport: Report := Report([], 0, 0, None)

  /** `worksheet_report_view`: the rows and totals the page shows. */
  method WorksheetReport(param: EmployeeParam, monthParam: MonthParam, employees: seq<Employee>,
                         entries: seq<WorksheetEntry>)
    returns (report: Report)
    ensures param.NoEmployee? ==> report == EmptyReport
    ensures param.BadPk? ==> report == EmptyReport.(error := Some(InvalidMonthMessage))
    ensures param.Pk? && Middleware.EmployeeById(employees, param.pk).DoesNotExist? ==>
              report == EmptyReport.(error := Some(EmployeeNotFound))
    ensures param.Pk? && Middleware.EmployeeById(employees, param.pk).MultipleObjectsReturned? ==> report == ReportCrash
    ensures param.Pk? && Middleware.EmployeeById(employees, param.pk).Found? ==>
              if monthParam.YearMonth? && ValidMonth(monthParam.year, monthParam.month) then
                var y, m := monthParam.year, monthParam.month;
                && report.Report? && report.error.None?
                && |report.rows| == DaysInMonth(y, m)
                && (forall i :: 0 <= i < |report.rows| ==> report.rows[i] == DayRow(entries, param.pk, y, m, i + 1))
                && report.totalAmount == SumAmounts(report.rows)
                && report.totalCommission == SumCommissions(report.rows)
              else
                report == EmptyReport.(error := Some(InvalidMonthMessage))
  {
    if param.NoEmployee? {
      return EmptyReport;
    } else if param.BadPk? {
      return EmptyReport.(error := Some(InvalidMonthMessage));
    }
    match Middleware.EmployeeById(employees, param.pk)
    case DoesNotExist =>
      return EmptyReport.(error := Some(EmployeeNotFound));
    case MultipleObjectsReturned =>
      return ReportCrash;
    case Found(employee) =>
      if monthParam.Unparsable? || !ValidMonth(monthParam.year, monthParam.month) {
        return EmptyReport.(error := Some(InvalidMonthMessage));
      }
      var year, month := monthParam.year, monthParam.month;
      var daysInMonth := DaysInMonth(year, month);
      var dailyRows: seq<Row> := [];
      var totalMonthAmount := 0;
      var totalMonthCommission := 0;
      var day := 1;
      while day <= daysInMonth
        invariant 1 <= day <= daysInMonth + 1
        invariant |dailyRows| == day - 1
        invariant forall i :: 0 <= i < |dailyRows| ==> dailyRows[i] == DayRow(entries, param.pk, year, month, i + 1)
        invariant totalMonthAmount == SumAmounts(dailyRows)
        invariant totalMonthCommission == SumCommissions(dailyRows)
      {
        var dayDate := Date(year, month, day);
        var totalAmount := DayTotal(entries, param.pk, dayDate);
        var commission := totalAmount * 5;
        var row := Row(dayDate, totalAmount, commission);
        assert (dailyRows + [row])[..|dailyRows|] == dailyRows;
        dailyRows := dailyRows + [row];
        totalMonthAmount := totalMonthAmount + totalAmount;
        totalMonthCommission := totalMonthCommission + commission;
        day := day + 1;
      }
      return Report(dailyRows, totalMonthAmount, totalMonthCommission, None);
  }

  /** A valid report's commission total is 5% of its amount total. */
  lemma ReportCommissionTotal(report: Report, entries: seq<WorksheetEntry>, pk: int, y: int, m: int)
    requires report.Report?
    requires forall i :: 0 <= i < |report.rows| ==> report.rows[i] == DayRow(entries, pk, y, m, i + 1)
    requires report.totalCommission == SumCommissions(report.rows) && report.totalAmount == SumAmounts(report.rows)
    ensures report.totalCommission == report.totalAmount * 5
  {
    CommissionIsFivePercent(report.rows);
  }

  /** One record of the monthly attendance summary. */
  datatype DayRecord = DayRecord(loginTime: Option<Instant>, logoutTime: Option<Instant>)

  /** `datetime.strptime("23:59", "%H:%M").time()`, the start time used when the employee has none. */
  const DefaultStart: int := (23 * 60 + 59) * MicrosPerMinute

  /** `login_datetime.time()`, in microseconds after midnight. */
  function TimeOfDay(t: Instant): (tod: int)
    ensures 0 <= tod < MicrosPerDay
  {
    t % MicrosPerDay
  }

  predicate IsLate(r: DayRecord, start: int)
  {
    r.loginTime.Some? && TimeOfDay(r.loginTime.value) > start
  }

  predicate IsWorkingDay(r: DayRecord)
  {
    r.loginTime.Some? && r.logoutTime.Some?
  }

  function WorkingDay(): DayRecord -> bool
  {
    (r: DayRecord) => IsWorkingDay(r)
  }

  /** The remark loop of `attendance_report_view`: one remark per record and the number of records with
      both a login and a logout. `workingStart` is the employee's `working_start_time`, if set. */
  method AttendanceRemarks(records: seq<DayRecord>, workingStart: Option<int>)
    returns (remarks: seq<string>, workingDayCount: nat)
    ensures |remarks| == |records|
    ensures forall i :: 0 <= i < |records| ==>
              remarks[i] == if IsLate(records[i], workingStart.GetOr(DefaultStart)) then "Late Login" else ""
    ensures workingDayCount == Count(records, WorkingDay())
  {
    var employeeStartTime := if workingStart.Some? then workingStart.value else DefaultStart;
    remarks := [];
    workingDayCount := 0;
    var i := 0;
    while i < |records|
      invariant 0 <= i <= |records| && |remarks| == i
      invariant forall j :: 0 <= j < i ==> remarks[j] == if IsLate(records[j], employeeStartTime) then "Late Login" else ""
      invariant workingDayCount == Count(records[..i], WorkingDay())
    {
      var record := records[i];
      var remark := "";
      if record.loginTime.Some? {
        var loginTimeOnly := TimeOfDay(record.loginTime.value);
        if loginTimeOnly > employeeStartTime {
          remark := "Late Login";
        }
      }
      if record.loginTime.Some? && record.logoutTime.Some? {
        workingDayCount := workingDayCount + 1;
      }
      remarks := remarks + [remark];
      assert records[..i + 1][..i] == records[..i];
      i := i + 1;
    }
    assert records[..i] == records;
  }

  function LateFor(start: int): DayRecord -> bool
  {
    (r: DayRecord) => IsLate(r, start)
  }

  /** A later start time never flags more records as late: every record late against the later start is
      late against the earlier one. */
  lemma {:induction false} LaterStartFlagsFewer(records: seq<DayRecord>, earlier: int, later: int)
    requires earlier <= later
    ensures Count(records, LateFor(later)) <= Count(records, LateFor(earlier))
  {
    if records != [] {
      LaterStartFlagsFewer(records[..|records| - 1], earlier, later);
    }
  }
}

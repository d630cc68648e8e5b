/**
 * The employee detail page: the employee with its department and current
 * salary, the terminate and reactivate actions, the salary link, the status
 * and employment-type badges, and the tenure text.
 */
module EmployeeDetail {
  import opened Wrappers
  import opened Text
  import opened Models
  import opened InMemoryData
  import opened Backend
  import opened Ui
  import EmployeeService
  import SalaryService

  /** The statuses and employment types the badges know. */
  predicate KnownStatus(status: Option<string>) {
    status == Some("Active") || status == Some("On-Leave") || status == Some("Terminated")
  }

  /** `getStatusColor`: a colour for each known status, '' for any other or a missing one. */
  function StatusColor(status: Option<string>): (color: string)
    ensures color == "" <==> !KnownStatus(status)
  {
    match status
    case Some("Active") => "primary"
    case Some("On-Leave") => "accent"
    case Some("Terminated") => "warn"
    case _ => ""
  }

  /** `getStatusIcon`: an icon for each known status, 'help_outline' for any other or a missing one. */
  function StatusIcon(status: Option<string>): (icon: string)
    ensures icon == "help_outline" <==> !KnownStatus(status)
  {
    match status
    case Some("Active") => "check_circle"
    case Some("On-Leave") => "beach_access"
    case Some("Terminated") => "block"
    case _ => "help_outline"
  }

  /** The two badges tell the same statuses apart: the colour is blank exactly when the icon is the fallback, and distinct statuses differ in both. */
  lemma StatusBadgesAgree(a: Option<string>, b: Option<string>)
    ensures StatusColor(a) == "" <==> StatusIcon(a) == "help_outline"
    ensures KnownStatus(a) && KnownStatus(b) && a != b ==> StatusColor(a) != StatusColor(b) && StatusIcon(a) != StatusIcon(b)
  {
  }

  predicate KnownEmploymentType(t: Option<string>) {
    t == Some("Full-Time") || t == Some("Part-Time") || t == Some("Contract")
  }

  /** `getEmploymentTypeIcon`: an icon for each employment type, 'work_outline' for any other or a missing one. */
  function EmploymentTypeIcon(t: Option<string>): (icon: string)
    ensures icon == "work_outline" <==> !KnownEmploymentType(t)
  {
    match t
    case Some("Full-Time") => "business_center"
    case Some("Part-Time") => "schedule"
    case Some("Contract") => "description"
    case _ => "work_outline"
  }

  /** The employee `onTerminate` writes back: only the status changes, to Terminated. */
  function Terminated(e: Employee): (r: Employee)
    ensures r.status == Some("Terminated") && r.(status := e.status) == e
  {
    e.(status := Some("Terminated"))
  }

  /** The employee `onReactivate` writes back: only the status changes, to Active. */
  function Reactivated(e: Employee): (r: Employee)
    ensures r.status == Some("Active") && r.(status := e.status) == e
  {
    e.(status := Some("Active"))
  }

  /** Reactivating a terminated employee gives back the employee with status Active, whatever it was before. */
  lemma ReactivateUndoesTerminate(e: Employee)
    ensures Reactivated(Terminated(e)) == Reactivated(e)
    ensures e.status == Some("Active") ==> Reactivated(Terminated(e)) == e
  {
  }

  /**
   * The tenure text built from a number of years and months: with a positive
   * year count, the years then the months (omitted unless positive);
   * otherwise the months alone. The text opens with the number shown first.
   */
  function TenureText(years: int, months: int): (text: string)
    ensures ParseInt(text) == Some(if years > 0 then years else months)
    ensures years > 0 ==> (text[|text| - 1] == ' ' <==> months <= 0)
  {
    var monthsText := IntToString(months) + " month" + (if months > 1 then "s" else "");
    if years > 0 then
      var rest := " year" + (if years > 1 then "s" else "") + " " + (if months > 0 then monthsText else "");
      ParseIntOfIntToStringThen(years, rest);
      assert months > 0 ==> monthsText[|monthsText| - 1] != ' ';
      IntToString(years) + rest
    else
      var rest := " month" + (if months > 1 then "s" else "");
      ParseIntOfIntToStringThen(months, rest);
      assert monthsText == IntToString(months) + rest;
      monthsText
  }

  /** The years and months `calculateTenure` computes: differences of the calendar years and of the calendar months, taken separately. */
  function WrittenParts(hire: CalendarDate, today: CalendarDate): (int, int) {
    (today.year - hire.year, today.month - hire.month)
  }

  /** `calculateTenure` as written: 'N/A' without a hire date. */
  function TenureAsWritten(hireDate: Option<CalendarDate>, today: CalendarDate): string {
    match hireDate
    case None => "N/A"
    case Some(hire) =>
      var (years, months) := WrittenParts(hire, today);
      TenureText(years, months)
  }

  /** Whole calendar months from the hire month to today's month. */
  function MonthsElapsed(hire: CalendarDate, today: CalendarDate): int {
    12 * (today.year - hire.year) + (today.month - hire.month)
  }

  /** The evidently intended split: the months elapsed as full years and the remaining months. */
  function CorrectedParts(hire: CalendarDate, today: CalendarDate): (p: (int, int))
    ensures MonthsElapsed(hire, today) >= 0 ==> 12 * p.0 + p.1 == MonthsElapsed(hire, today) && 0 <= p.0 && 0 <= p.1 < 12
    ensures MonthsElapsed(hire, today) < 0 ==> p == (0, MonthsElapsed(hire, today))
  {
    var total := MonthsElapsed(hire, today);
    if total >= 0 then (total / 12, total % 12) else (0, total)
  }

  /** `calculateTenure` corrected: the same text, from the corrected years and months. */
  function TenureCorrected(hireDate: Option<CalendarDate>, today: CalendarDate): string {
    match hireDate
    case None => "N/A"
    case Some(hire) =>
      var (years, months) := CorrectedParts(hire, today);
      TenureText(years, months)
  }

  predicate ValidMonths(hire: CalendarDate, today: CalendarDate) {
    0 <= hire.month < 12 && 0 <= today.month < 12
  }

  /** When today's month is not before the hire month, in a year not before the hire year, the text as written is already right. */
  lemma TenureAgreesWhenMonthNotBehind(hire: CalendarDate, today: CalendarDate)
    requires ValidMonths(hire, today)
    requires today.year >= hire.year && today.month >= hire.month
    ensures CorrectedParts(hire, today) == WrittenParts(hire, today)
    ensures TenureAsWritten(Some(hire), today) == TenureCorrected(Some(hire), today)
  {
    var y, m := today.year - hire.year, today.month - hire.month;
    var p := CorrectedParts(hire, today);
    assert 12 * p.0 + p.1 == 12 * y + m;
  }

  /** When today's month is before the hire month in a later year, the years as written are one too many. */
  lemma TenureOvercountsWhenMonthBehind(hire: CalendarDate, today: CalendarDate)
    requires ValidMonths(hire, today)
    requires today.year > hire.year && today.month < hire.month
    ensures WrittenParts(hire, today).0 == CorrectedParts(hire, today).0 + 1
    ensures WrittenParts(hire, today).1 < 0 <= CorrectedParts(hire, today).1
  {
    var y, m := today.year - hire.year, today.month - hire.month;
    var p := CorrectedParts(hire, today);
    assert 12 * p.0 + p.1 == 12 * (y - 1) + (m + 12);
  }

  /** An employee hired in October 2020, viewed in January 2023: the text as written begins with 3 years, though only 2 years and 3 months have passed. */
  lemma TenureCounterexample()
    ensures ParseInt(TenureAsWritten(Some(CalendarDate(2020, 9, 1)), CalendarDate(2023, 0, 1))) == Some(3)
    ensures ParseInt(TenureCorrected(Some(CalendarDate(2020, 9, 1)), CalendarDate(2023, 0, 1))) == Some(2)
    ensures MonthsElapsed(CalendarDate(2020, 9, 1), CalendarDate(2023, 0, 1)) == 27
  {
    TenureOvercountsWhenMonthBehind(CalendarDate(2020, 9, 1), CalendarDate(2023, 0, 1));
  }

  class EmployeeDetailComponent {
    const store: Store
    var employee: Option<Employee>
    var department: Option<Department>
    var salary: Option<Salary>
    var isLoading: bool
    var notice: Notice
    var route: Route

    constructor (store: Store)
      ensures this.store == store && employee == None && department == None && salary == None
      ensures isLoading && notice == NoNotice && route == NotNavigated
    {
      this.store := store;
      employee := None;
      department := None;
      salary := None;
      isLoading := true;
      notice := NoNotice;
      route := NotNavigated;
    }

    /**
     * `loadEmployee` with `loadDepartment` and `loadSalary`: an unknown
     * employee or a failed request reports an error and goes back to the
     * list; otherwise the department is looked up and the current salary
     * (none when the employee has no salary record) is taken. Failures of
     * the last two requests are only logged.
     */
    method LoadEmployee(id: int, employeeStep: Step, departmentStep: Step, salaryStep: Step)
      modifies this
      ensures !isLoading
      ensures var found := FindById(store.db.employees, EmployeeId, id);
        && (employeeStep.Fail? || found.None? ==>
              && employee == old(employee) && department == old(department) && salary == old(salary)
              && notice == ErrorNotice("Failed to load employee details") && route == EmployeesList)
        && (employeeStep.Ok? && found.Some? ==>
              var e := found.value;
              var d := FindById(store.db.departments, DepartmentId, e.departmentId);
              && employee == found
              && department == (if departmentStep.Ok? && d.Some? then d else old(department))
              && salary == SalaryService.CurrentSalaryForEmployee(store.db.salaries, e.id, salaryStep)
              && notice == old(notice) && route == old(route))
    {
      isLoading := true;
      var found := FindById(store.db.employees, EmployeeId, id);
      if employeeStep.Fail? || found.None? {
        notice := ErrorNotice("Failed to load employee details");
        isLoading := false;
        route := EmployeesList;
        return;
      }
      var e := found.value;
      employee := found;
      var d := FindById(store.db.departments, DepartmentId, e.departmentId);
      if departmentStep.Ok? && d.Some? {
        department := d;
      }
      salary := SalaryService.CurrentSalaryForEmployee(store.db.salaries, e.id, salaryStep);
      isLoading := false;
    }

    /** `onViewSalary`: edit the current salary when there is one, else start a new salary for the employee, else nothing. */
    method OnViewSalary()
      modifies this
      ensures salary.Some? ==> route == SalaryEdit(salary.value.id)
      ensures salary.None? && employee.Some? ==> route == SalaryNew(employee.value.id)
      ensures salary.None? && employee.None? ==> route == old(route)
      ensures employee == old(employee) && department == old(department) && salary == old(salary)
      ensures isLoading == old(isLoading) && notice == old(notice)
    {
      if salary.Some? {
        route := SalaryEdit(salary.value.id);
      } else if employee.Some? {
        route := SalaryNew(employee.value.id);
      }
    }

    /**
     * The page after a successful status write and the reload of `updated`:
     * the reloaded employee with its department (kept when that request
     * fails) and current salary and the success message, or, when the reload
     * fails, the previous employee, department and salary, the load error and
     * the employee list.
     */
    predicate Reloaded(updated: Employee, success: string, employeeStep: Step, departmentStep: Step, salaryStep: Step,
                       employee0: Option<Employee>, department0: Option<Department>, salary0: Option<Salary>, route0: Route)
      reads this, store
    {
      && !isLoading
      && (employeeStep.Fail? ==>
            && employee == employee0 && department == department0 && salary == salary0
            && notice == ErrorNotice("Failed to load employee details") && route == EmployeesList)
      && (employeeStep.Ok? ==>
            var d := FindById(store.db.departments, DepartmentId, updated.departmentId);
            && employee == Some(updated)
            && department == (if departmentStep.Ok? && d.Some? then d else department0)
            && salary == SalaryService.CurrentSalaryForEmployee(store.db.salaries, updated.id, salaryStep)
            && notice == SuccessNotice(success) && route == route0)
    }

    /**
     * The write shared by `onTerminate` and `onReactivate`: the employee with
     * its new status is PUT; on success the message is shown and the employee
     * reloaded, on failure the error is shown.
     */
    method WriteStatus(updated: Employee, success: string, failure: string,
                       updateStep: Step, employeeStep: Step, departmentStep: Step, salaryStep: Step)
      modifies this, store
      ensures updateStep.Fail? ==>
        && store.db == old(store.db) && notice == ErrorNotice(failure)
        && employee == old(employee) && department == old(department) && salary == old(salary)
        && isLoading == old(isLoading) && route == old(route)
      ensures updateStep.Ok? ==>
        && store.db == EmployeeService.UpdateEmployee(old(store.db), updated, updateStep).db
        && Reloaded(updated, success, employeeStep, departmentStep, salaryStep,
                    old(employee), old(department), old(salary), old(route))
      ensures old(store.db).Valid() ==> store.db.Valid()
    {
      var reply := EmployeeService.UpdateEmployee(store.db, updated, updateStep);
      store.db := reply.db;
      if reply.result.Failure? {
        notice := ErrorNotice(failure);
        return;
      }
      notice := SuccessNotice(success);
      FindAfterPut(old(store.db).employees, EmployeeId, updated);
      LoadEmployee(updated.id, employeeStep, departmentStep, salaryStep);
    }

    /** `onTerminate`: once confirmed, the shown employee is written back with status Terminated and nothing else changed. */
    method OnTerminate(confirmed: bool, updateStep: Step, employeeStep: Step, departmentStep: Step, salaryStep: Step)
      modifies this, store
      ensures old(employee).None? || !confirmed ==>
        && store.db == old(store.db) && employee == old(employee) && department == old(department)
        && salary == old(salary) && isLoading == old(isLoading) && notice == old(notice) && route == old(route)
      ensures old(employee).Some? && confirmed && updateStep.Ok? ==>
        && store.db == EmployeeService.UpdateEmployee(old(store.db), Terminated(old(employee).value), updateStep).db
        && Reloaded(Terminated(old(employee).value), "Employee terminated successfully", employeeStep, departmentStep, salaryStep,
                    old(employee), old(department), old(salary), old(route))
      ensures old(employee).Some? && confirmed && updateStep.Fail? ==>
        && store.db == old(store.db) && notice == ErrorNotice("Failed to terminate employee")
        && employee == old(employee) && department == old(department) && salary == old(salary)
        && isLoading == old(isLoading) && route == old(route)
      ensures old(store.db).Valid() ==> store.db.Valid()
    {
      if employee.Some? && confirmed {
        WriteStatus(Terminated(employee.value), "Employee terminated successfully", "Failed to terminate employee",
                    updateStep, employeeStep, departmentStep, salaryStep);
      }
    }

    /** `onReactivate`: the shown employee is written back with status Active and nothing else changed; there is no dialog. */
    method OnReactivate(updateStep: Step, employeeStep: Step, departmentStep: Step, salaryStep: Step)
      modifies this, store
      ensures old(employee).None? ==>
        && store.db == old(store.db) && employee == old(employee) && department == old(department)
        && salary == old(salary) && isLoading == old(isLoading) && notice == old(notice) && route == old(route)
      ensures old(employee).Some? && updateStep.Ok? ==>
        && store.db == EmployeeService.UpdateEmployee(old(store.db), Reactivated(old(employee).value), updateStep).db
        && Reloaded(Reactivated(old(employee).value), "Employee reactivated successfully", employeeStep, departmentStep, salaryStep,
                    old(employee), old(department), old(salary), old(route))
      ensures old(employee).Some? && updateStep.Fail? ==>
        && store.db == old(store.db) && notice == ErrorNotice("Failed to reactivate employee")
        && employee == old(employee) && department == old(department) && salary == old(salary)
        && isLoading == old(isLoading) && route == old(route)
      ensures old(store.db).Valid() ==> store.db.Valid()
    {
      if employee.Some? {
        WriteStatus(Reactivated(employee.value), "Employee reactivated successfully", "Failed to reactivate employee",
                    updateStep, employeeStep, departmentStep, salaryStep);
      }
    }
  }
}

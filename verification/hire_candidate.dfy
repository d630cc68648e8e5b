/**
 * The hire-candidate page: its form, the employee and salary records it
 * builds from the loaded candidate, and the submission, which creates the
 * employee, then the salary, then marks the candidate Hired.
 */
module HireCandidate {
  import opened Wrappers
  import opened Models
  import opened InMemoryData
  import opened Backend
  import opened Ui
  import EmployeeService
  import SalaryService
  import CandidateService

  /** The values of the hire form; a control a user cleared holds no value. */
  datatype HireForm = HireForm(
    dateOfBirth: string,
    address: string,
    emergencyContact: string,
    emergencyContactPhone: string,
    baseAmount: Option<real>,
    paymentFrequency: string,
    effectiveDate: Option<int>,
    notes: string)

  /** The form's validators: base amount required and at least 0, payment frequency and effective date required. */
  predicate FormValid(f: HireForm) {
    && f.baseAmount.Some? && f.baseAmount.value >= 0.0
    && f.paymentFrequency != ""
    && f.effectiveDate.Some?
  }

  /**
   * The employee the page creates: identity and phone from the candidate,
   * the applied department (0 when missing), the applied position, Active and
   * Full-Time, the personal fields from the form, hired `today`.
   */
  function HireEmployeeRecord(c: Candidate, f: HireForm, today: CalendarDate): (e: Employee)
    ensures e.name == c.name && e.email == c.email && e.phoneNumber == Some(c.phone)
    ensures e.departmentId == c.appliedDepartmentId.GetOr(0)
    ensures e.position == Some(c.appliedPosition)
    ensures e.status == Some("Active") && e.employmentType == Some("Full-Time")
    ensures e.hireDate == Some(today)
    ensures e.dateOfBirth == Some(f.dateOfBirth) && e.address == Some(f.address)
    ensures e.emergencyContact == Some(f.emergencyContact) && e.emergencyContactPhone == Some(f.emergencyContactPhone)
  {
    var departmentId := if TruthyId(c.appliedDepartmentId) then c.appliedDepartmentId.value else 0;
    Employee(0, c.name, c.email, departmentId, Some(c.phone), Some(f.address), Some(f.dateOfBirth),
             Some(c.appliedPosition), Some(today), Some(f.emergencyContact), Some(f.emergencyContactPhone),
             Some("Full-Time"), Some("Active"))
  }

  /** The salary the page creates, before the employee id is known: no bonus, base, frequency, date and notes from the form. */
  function HireSalaryRecord(f: HireForm): (s: Salary)
    requires FormValid(f)
    ensures s.employeeId == 0 && s.bonus == Some(0.0)
    ensures s.baseAmount == f.baseAmount.value && s.paymentFrequency == f.paymentFrequency
    ensures s.effectiveDate == f.effectiveDate.value && s.notes == Some(f.notes)
    ensures s.previousSalaryId.None? && s.adjustmentType.None?
  {
    Salary(0, 0, f.baseAmount.value, Some(0.0), None, None, None, f.paymentFrequency, f.effectiveDate.value,
           None, None, Some(f.notes))
  }

  /** The success snackbar: the candidate's name and the new employee's position (`undefined` when it has none). */
  function HiredMessage(name: string, position: Option<string>): string {
    name + " hired successfully as " + (if position.Some? then position.value else "undefined") + "!"
  }

  const SalaryFailedMessage: string := "Employee created but failed to create salary record"

  class HireCandidateComponent {
    const store: Store
    var candidate: Option<Candidate>
    var form: HireForm
    var isHiring: bool
    var notice: Notice
    var route: Route

    constructor (store: Store, candidate: Option<Candidate>, form: HireForm)
      ensures this.store == store && this.candidate == candidate && this.form == form
      ensures !isHiring && notice == NoNotice && route == NotNavigated
    {
      this.store := store;
      this.candidate := candidate;
      this.form := form;
      isHiring := false;
      notice := NoNotice;
      route := NotNavigated;
    }

    /**
     * `onSubmit`: nothing happens unless the form is valid and a candidate is
     * loaded. Otherwise the employee is created; only then the salary, with
     * the new employee's id; only then the candidate's status is set to Hired.
     * A failed employee creation reports the error and clears `isHiring`; a
     * failed salary creation keeps the employee, leaves the candidate alone
     * and goes to the employee list; a failed status update is reported like
     * a success.
     */
    method OnSubmit(today: CalendarDate, employeeStep: Step, salaryStep: Step, statusStep: Step)
      modifies this, store
      ensures candidate == old(candidate) && form == old(form)
      ensures !(FormValid(form) && candidate.Some?) ==>
        store.db == old(store.db) && isHiring == old(isHiring) && notice == old(notice) && route == old(route)
      ensures FormValid(form) && candidate.Some? && employeeStep.Fail? ==>
        && store.db == old(store.db)
        && !isHiring && notice == ErrorNotice("Failed to create employee: " + employeeStep.message)
        && route == old(route)
      ensures FormValid(form) && candidate.Some? && employeeStep.Ok? ==>
        var e := HireEmployeeRecord(candidate.value, form, today).(id := GenId(IdsOf(old(store.db.employees), EmployeeId)));
        var s := SalaryService.PrepareForSave(HireSalaryRecord(form).(employeeId := e.id))
                   .(id := GenId(IdsOf(old(store.db.salaries), SalaryId)));
        && isHiring
        && store.db.employees == old(store.db.employees) + [e]
        && store.db.departments == old(store.db.departments)
        && (salaryStep.Fail? ==>
              && store.db.salaries == old(store.db.salaries) && store.db.candidates == old(store.db.candidates)
              && notice == ErrorNotice(SalaryFailedMessage) && route == EmployeesList)
        && (salaryStep.Ok? ==>
              && store.db.salaries == old(store.db.salaries) + [s]
              && store.db.candidates
                   == CandidateService.UpdateCandidateStatus(old(store.db), candidate.value.id, "Hired", statusStep).db.candidates
              && notice == SuccessNotice(HiredMessage(candidate.value.name, e.position))
              && route == EmployeeView(e.id))
      ensures old(store.db).Valid() ==> store.db.Valid()
    {
      if FormValid(form) && candidate.Some? {
        isHiring := true;
        var c := candidate.value;
        var employeeData := HireEmployeeRecord(c, form, today);
        var salaryData := HireSalaryRecord(form);
        var employeeReply := EmployeeService.AddEmployee(store.db, employeeData, employeeStep);
        store.db := employeeReply.db;
        match employeeReply.result
        case Failure(message) =>
          notice := ErrorNotice("Failed to create employee: " + message);
          isHiring := false;
        case Success(newEmployee) =>
          salaryData := salaryData.(employeeId := newEmployee.id);
          var salaryReply := SalaryService.AddSalary(store.db, salaryData, salaryStep);
          store.db := salaryReply.db;
          if salaryReply.result.Failure? {
            notice := ErrorNotice(SalaryFailedMessage);
            route := EmployeesList;
          } else {
            // a failed status update is logged and otherwise treated as a success
            var statusReply := CandidateService.UpdateCandidateStatus(store.db, c.id, "Hired", statusStep);
            store.db := statusReply.db;
            notice := SuccessNotice(HiredMessage(c.name, newEmployee.position));
            route := EmployeeView(newEmployee.id);
          }
      }
    }
  }
}

/**
 * The employee form page: one form for adding and editing an employee, with
 * a salary section that is shown, and saved after the employee, only when a
 * new employee is added.
 */
module EmployeeForm {
  import opened Wrappers
  import opened Models
  import opened InMemoryData
  import opened Backend
  import opened Ui
  import EmployeeService
  import SalaryService

  /** The values of the employee form; a control that holds no value is `None`. */
  datatype EmployeeFields = EmployeeFields(
    id: Option<int>,
    name: string,
    email: string,
    departmentId: Option<int>,
    phoneNumber: string,
    address: string,
    dateOfBirth: string,
    position: string,
    hireDate: Option<CalendarDate>,
    emergencyContact: string,
    emergencyContactPhone: string,
    employmentType: string,
    status: string)

  /** The required validators of the employee form: name, e-mail, department and hire date. */
  predicate EmployeeFieldsValid(f: EmployeeFields) {
    f.name != "" && f.email != "" && f.departmentId.Some? && f.hireDate.Some?
  }

  /** The employee the form submits; an id-less form is sent with id 0. */
  function EmployeeOf(f: EmployeeFields): (e: Employee)
    requires EmployeeFieldsValid(f)
    ensures e.id == f.id.GetOr(0) && e.name == f.name && e.email == f.email
    ensures e.departmentId == f.departmentId.value && e.hireDate == f.hireDate
    ensures e.position == Some(f.position) && e.status == Some(f.status) && e.employmentType == Some(f.employmentType)
    ensures e.phoneNumber == Some(f.phoneNumber) && e.address == Some(f.address) && e.dateOfBirth == Some(f.dateOfBirth)
    ensures e.emergencyContact == Some(f.emergencyContact) && e.emergencyContactPhone == Some(f.emergencyContactPhone)
  {
    Employee(f.id.GetOr(0), f.name, f.email, f.departmentId.value, Some(f.phoneNumber), Some(f.address),
             Some(f.dateOfBirth), Some(f.position), f.hireDate, Some(f.emergencyContact),
             Some(f.emergencyContactPhone), Some(f.employmentType), Some(f.status))
  }

  /** The values of the salary section. */
  datatype SalaryFields = SalaryFields(
    baseAmount: Option<real>,
    paymentFrequency: string,
    effectiveDate: Option<int>,
    bonus: Option<real>,
    notes: string)

  /** The salary section's validators: base amount required and at least 0, frequency and date required, bonus at least 0 when given. */
  predicate SalaryFieldsValid(f: SalaryFields) {
    && f.baseAmount.Some? && f.baseAmount.value >= 0.0
    && f.paymentFrequency != ""
    && f.effectiveDate.Some?
    && (f.bonus.Some? ==> f.bonus.value >= 0.0)
  }

  /** `createSalaryForEmployee`'s record: the saved employee's id and the section's values. */
  function SalaryOf(f: SalaryFields, employeeId: int): (s: Salary)
    requires SalaryFieldsValid(f)
    ensures s.employeeId == employeeId && s.baseAmount == f.baseAmount.value && s.bonus == f.bonus
    ensures s.paymentFrequency == f.paymentFrequency && s.effectiveDate == f.effectiveDate.value
    ensures s.notes == Some(f.notes)
  {
    Salary(0, employeeId, f.baseAmount.value, f.bonus, None, None, None, f.paymentFrequency, f.effectiveDate.value,
           None, None, Some(f.notes))
  }

  function SavedMessage(isEditMode: bool): string {
    "Employee " + (if isEditMode then "updated" else "added") + " successfully!"
  }

  function SaveFailedMessage(isEditMode: bool): string {
    "Failed to " + (if isEditMode then "update" else "add") + " employee"
  }

  const SalaryFailedMessage: string := "Employee created but failed to create salary record"

  class EmployeeFormComponent {
    const store: Store
    var form: EmployeeFields
    var salaryForm: SalaryFields
    var isEditMode: bool
    var isLoading: bool
    var showSalarySection: bool
    var notice: Notice
    var route: Route

    constructor (store: Store, form: EmployeeFields, salaryForm: SalaryFields)
      ensures this.store == store && this.form == form && this.salaryForm == salaryForm
      ensures !isEditMode && !isLoading && !showSalarySection && notice == NoNotice && route == NotNavigated
    {
      this.store := store;
      this.form := form;
      this.salaryForm := salaryForm;
      isEditMode := false;
      isLoading := false;
      showSalarySection := false;
      notice := NoNotice;
      route := NotNavigated;
    }

    /** `ngOnInit`: a route id means editing; no route id shows the salary section for a new employee. */
    method NgOnInit(routeId: Option<string>)
      modifies this
      ensures TruthyText(routeId) ==> isEditMode && showSalarySection == old(showSalarySection)
      ensures !TruthyText(routeId) ==> showSalarySection && isEditMode == old(isEditMode)
      ensures form == old(form) && salaryForm == old(salaryForm) && isLoading == old(isLoading)
      ensures notice == old(notice) && route == old(route)
    {
      if TruthyText(routeId) {
        isEditMode := true;
      } else {
        showSalarySection := true;
      }
    }

    /** The submit guard: a valid employee form, and a valid salary section when it is shown. */
    predicate CanSubmit()
      reads this
    {
      EmployeeFieldsValid(form) && (!showSalarySection || SalaryFieldsValid(salaryForm))
    }

    /**
     * `onSubmit`: updates the employee in edit mode and adds it otherwise. A
     * failed save reports the error and clears `isLoading`; in edit mode a
     * form without an id (its employee never loaded) is PUT to `.../null`,
     * which the backend refuses. After an added
     * employee with the salary section shown, the salary is created with the
     * new id; whatever its outcome the page goes to the employee list, and
     * `isLoading` is cleared only when the salary was created. Without a
     * salary to create, a saved employee is reported and the page goes to the
     * list with `isLoading` still set.
     */
    method OnSubmit(employeeStep: Step, salaryStep: Step)
      modifies this, store
      ensures form == old(form) && salaryForm == old(salaryForm)
      ensures isEditMode == old(isEditMode) && showSalarySection == old(showSalarySection)
      ensures !old(CanSubmit()) ==>
        store.db == old(store.db) && isLoading == old(isLoading) && notice == old(notice) && route == old(route)
      ensures old(CanSubmit()) && (employeeStep.Fail? || (isEditMode && form.id.None?)) ==>
        store.db == old(store.db) && !isLoading && notice == ErrorNotice(SaveFailedMessage(isEditMode)) && route == old(route)
      ensures old(CanSubmit()) && employeeStep.Ok? && isEditMode && form.id.Some? ==>
        && store.db == old(store.db).(employees := Put(old(store.db.employees), EmployeeId, EmployeeOf(form)))
        && isLoading && notice == SuccessNotice(SavedMessage(true)) && route == EmployeesList
      ensures old(CanSubmit()) && employeeStep.Ok? && !isEditMode ==>
        var e := EmployeeOf(form).(id := GenId(IdsOf(old(store.db.employees), EmployeeId)));
        && store.db.employees == old(store.db.employees) + [e]
        && route == EmployeesList
        && (!showSalarySection ==>
              store.db.salaries == old(store.db.salaries) && isLoading && notice == SuccessNotice(SavedMessage(false)))
        && (showSalarySection && salaryStep.Fail? ==>
              store.db.salaries == old(store.db.salaries) && isLoading && notice == ErrorNotice(SalaryFailedMessage))
        && (showSalarySection && salaryStep.Ok? ==>
              && store.db.salaries == old(store.db.salaries)
                   + [SalaryService.PrepareForSave(SalaryOf(salaryForm, e.id)).(id := GenId(IdsOf(old(store.db.salaries), SalaryId)))]
              && !isLoading && notice == SuccessNotice(SavedMessage(false)))
      ensures store.db.candidates == old(store.db.candidates) && store.db.departments == old(store.db.departments)
      ensures old(store.db).Valid() ==> store.db.Valid()
    {
      if CanSubmit() {
        isLoading := true;
        var employee := EmployeeOf(form);
        var reply;
        if isEditMode {
          reply := EmployeeService.UpdateEmployee(store.db, employee, PutOutcome(form.id, employeeStep));
        } else {
          reply := EmployeeService.AddEmployee(store.db, employee, employeeStep);
        }
        store.db := reply.db;
        match reply.result
        case Failure(_) =>
          notice := ErrorNotice(SaveFailedMessage(isEditMode));
          isLoading := false;
        case Success(savedEmployee) =>
          if !isEditMode && showSalarySection {
            CreateSalaryForEmployee(savedEmployee, salaryStep);
          } else {
            notice := SuccessNotice(SavedMessage(isEditMode));
            route := EmployeesList;
          }
      }
    }

    /** `createSalaryForEmployee`: POST the section's salary for the saved employee, then go to the employee list. */
    method CreateSalaryForEmployee(employee: Employee, salaryStep: Step)
      requires SalaryFieldsValid(salaryForm)
      modifies this, store
      ensures form == old(form) && salaryForm == old(salaryForm)
      ensures isEditMode == old(isEditMode) && showSalarySection == old(showSalarySection)
      ensures store.db == SalaryService.AddSalary(old(store.db), SalaryOf(salaryForm, employee.id), salaryStep).db
      ensures salaryStep.Fail? ==> notice == ErrorNotice(SalaryFailedMessage) && isLoading == old(isLoading)
      ensures salaryStep.Ok? ==> notice == SuccessNotice(SavedMessage(isEditMode)) && !isLoading
      ensures route == EmployeesList
    {
      var reply := SalaryService.AddSalary(store.db, SalaryOf(salaryForm, employee.id), salaryStep);
      store.db := reply.db;
      if reply.result.Success? {
        notice := SuccessNotice(SavedMessage(isEditMode));
        route := EmployeesList;
        isLoading := false;   // the request's completion handler
      } else {
        notice := ErrorNotice(SalaryFailedMessage);
        route := EmployeesList;
      }
    }
  }
}

/**
 * The department detail page: the department, its manager and employees,
 * the counts shown beside them, and deletion, which is refused while the
 * department has employees.
 */
module DepartmentDetail {
  import opened Wrappers
  import opened Seqs
  import opened Text
  import opened Models
  import opened InMemoryData
  import opened Backend
  import opened Ui
  import opened EmployeeService
  import DepartmentService

  /** An employee counted as active: status Active, or no status at all. */
  predicate CountsAsActive(e: Employee) {
    e.status == Some("Active") || !TruthyText(e.status)
  }

  /** `getActiveEmployeesCount`: never more than the employees, and all of them exactly when every one counts as active. */
  function ActiveEmployeesCount(employees: seq<Employee>): (n: nat)
    ensures n <= |employees|
    ensures n == |employees| <==> forall e :: e in employees ==> CountsAsActive(e)
  {
    if forall e :: e in employees ==> CountsAsActive(e) then
      FilterKeepsAll(employees, CountsAsActive);
      |Filter(employees, CountsAsActive)|
    else
      var x :| x in employees && !CountsAsActive(x);
      FilterDropsFailing(employees, CountsAsActive, x);
      |Filter(employees, CountsAsActive)|
  }

  /** The count adds up over two lists, and one employee counts exactly when it counts as active. */
  lemma ActiveEmployeesCountAppend(a: seq<Employee>, b: seq<Employee>, e: Employee)
    ensures ActiveEmployeesCount(a + b) == ActiveEmployeesCount(a) + ActiveEmployeesCount(b)
    ensures ActiveEmployeesCount([e]) == if CountsAsActive(e) then 1 else 0
  {
    FilterAppend(a, b, CountsAsActive);
  }

  /** A manager: a position whose lower-cased text contains 'manager'. */
  predicate IsManager(e: Employee) {
    TruthyText(e.position) && Contains(ToLower(e.position.value), "manager")
  }

  /** `getManagerCount`: never more than the employees, and zero exactly when none is a manager. */
  function ManagerCount(employees: seq<Employee>): (n: nat)
    ensures n <= |employees|
    ensures n == 0 <==> forall e :: e in employees ==> !IsManager(e)
  {
    var managers := Filter(employees, IsManager);
    assert managers == [] <==> forall e :: e !in managers;
    |managers|
  }

  /** The count adds up over two lists, and one employee counts exactly when it is a manager. */
  lemma ManagerCountAppend(a: seq<Employee>, b: seq<Employee>, e: Employee)
    ensures ManagerCount(a + b) == ManagerCount(a) + ManagerCount(b)
    ensures ManagerCount([e]) == if IsManager(e) then 1 else 0
  {
    FilterAppend(a, b, IsManager);
  }

  /** `getEmployeeCountText`: the count, then ' employee', pluralised unless the count is 1. */
  function EmployeeCountText(n: nat): (text: string)
    ensures |text| > 0 && (text[|text| - 1] == 's' <==> n != 1)
  {
    NatToString(n) + " employee" + (if n != 1 then "s" else "")
  }

  /** The text begins with the count: `parseInt` reads it back. */
  lemma EmployeeCountTextReadsBack(n: nat)
    ensures ParseInt(EmployeeCountText(n)) == Some(n)
  {
    var rest := " employee" + (if n != 1 then "s" else "");
    assert EmployeeCountText(n) == NatToString(n) + rest;
    ParseIntOfNatToStringThen(n, rest);
  }

  const CannotDeleteMessage := "Cannot delete department with employees. Please reassign or remove employees first."

  class DepartmentDetailComponent {
    const store: Store
    var department: Option<Department>
    var manager: Option<Employee>
    var employees: seq<Employee>
    var isLoading: bool
    var notice: Notice
    var route: Route

    constructor (store: Store)
      ensures this.store == store && department == None && manager == None && employees == []
      ensures isLoading && notice == NoNotice && route == NotNavigated
    {
      this.store := store;
      department := None;
      manager := None;
      employees := [];
      isLoading := true;
      notice := NoNotice;
      route := NotNavigated;
    }

    /**
     * `loadDepartment` with `loadManager` and `loadDepartmentEmployees`: an
     * unknown department or a failed request reports an error and goes back
     * to the list; otherwise the manager is looked up when the manager id is
     * truthy, and the employees are those of this department. Failures of
     * the last two requests are only logged.
     */
    method LoadDepartment(id: int, departmentStep: Step, managerStep: Step, employeesStep: Step)
      modifies this
      ensures !isLoading
      ensures var found := FindById(store.db.departments, DepartmentId, id);
        && (departmentStep.Fail? || found.None? ==>
              && department == old(department) && manager == old(manager) && employees == old(employees)
              && notice == ErrorNotice("Failed to load department details") && route == DepartmentsList)
        && (departmentStep.Ok? && found.Some? ==>
              var d := found.value;
              var head := if TruthyId(d.managerId) then FindById(store.db.employees, EmployeeId, d.managerId.value) else None;
              && department == found
              && manager == (if managerStep.Ok? && head.Some? then head else old(manager))
              && employees == (if employeesStep.Ok? then EmployeesIn(store.db.employees, d.id) else old(employees))
              && notice == old(notice) && route == old(route))
    {
      isLoading := true;
      var found := FindById(store.db.departments, DepartmentId, id);
      if departmentStep.Fail? || found.None? {
        notice := ErrorNotice("Failed to load department details");
        isLoading := false;
        route := DepartmentsList;
        return;
      }
      var d := found.value;
      department := found;
      if TruthyId(d.managerId) {
        var head := FindById(store.db.employees, EmployeeId, d.managerId.value);
        if managerStep.Ok? && head.Some? {
          manager := head;
        }
      }
      if employeesStep.Ok? {
        employees := EmployeesIn(store.db.employees, d.id);
      }
      isLoading := false;
    }

    /**
     * `onDelete`: without a department nothing happens; with employees shown
     * the deletion is refused with a message and no dialog; otherwise, once
     * the dialog is confirmed, the department is deleted and the page goes
     * back to the list, or a failure is reported.
     */
    method OnDelete(confirmed: bool, step: Step)
      modifies this, store
      ensures department == old(department) && manager == old(manager) && employees == old(employees)
      ensures isLoading == old(isLoading)
      ensures department.None? ==> store.db == old(store.db) && notice == old(notice) && route == old(route)
      ensures department.Some? && |employees| > 0 ==>
        store.db == old(store.db) && notice == ErrorNotice(CannotDeleteMessage) && route == old(route)
      ensures department.Some? && |employees| == 0 && !confirmed ==>
        store.db == old(store.db) && notice == old(notice) && route == old(route)
      ensures department.Some? && |employees| == 0 && confirmed && step.Fail? ==>
        store.db == old(store.db) && notice == ErrorNotice("Failed to delete department") && route == old(route)
      ensures department.Some? && |employees| == 0 && confirmed && step.Ok? ==>
        && store.db == DepartmentService.DeleteDepartment(old(store.db), department.value.id, step).db
        && notice == SuccessNotice("Department deleted successfully") && route == DepartmentsList
      ensures store.db != old(store.db) ==> department.Some? && |employees| == 0
    {
      if department.None? {
        return;
      }
      if |employees| > 0 {
        notice := ErrorNotice(CannotDeleteMessage);
        return;
      }
      if !confirmed {
        return;
      }
      var reply := DepartmentService.DeleteDepartment(store.db, department.value.id, step);
      store.db := reply.db;
      if reply.result.Success? {
        notice := SuccessNotice("Department deleted successfully");
        route := DepartmentsList;
      } else {
        notice := ErrorNotice("Failed to delete department");
      }
    }
  }

  /**
   * The guard protects the store: when the employees shown are those the
   * store holds for the department, a department is deleted only when no
   * employee of the store belongs to it.
   */
  lemma GuardLeavesNoOrphans(all: seq<Employee>, departmentId: int)
    ensures |EmployeesIn(all, departmentId)| == 0 <==> forall e :: e in all ==> e.departmentId != departmentId
  {
    var shown := EmployeesIn(all, departmentId);
    assert shown == [] <==> forall e :: e !in shown;
  }
}

/** The department service: the defaults of a new department, its deletion, and the join of departments with their managers. */
module DepartmentService {
  import opened Wrappers
  import opened Models
  import opened InMemoryData
  import opened Backend

  /** The record `addDepartment` sends: a falsy budget becomes 0 and a falsy description ''; every other field is kept. */
  function WithDepartmentDefaults(d: Department): (r: Department)
    ensures TruthyNumber(d.budget) ==> r.budget == d.budget
    ensures !TruthyNumber(d.budget) ==> r.budget == Some(0.0)
    ensures TruthyText(d.description) ==> r.description == d.description
    ensures !TruthyText(d.description) ==> r.description == Some("")
    ensures r.(budget := d.budget, description := d.description) == d
  {
    d.(budget := Some(AmountOrZero(d.budget)), description := Some(TextOr(d.description, "")))
  }

  /** Applying the defaults to a record that already has them changes nothing. */
  lemma WithDepartmentDefaultsIdempotent(d: Department)
    ensures WithDepartmentDefaults(WithDepartmentDefaults(d)) == WithDepartmentDefaults(d)
  {
    var once := WithDepartmentDefaults(d);
    assert once.budget.Some? && once.description.Some?;
  }

  /** `addDepartment`: POST the department with its defaults. */
  function AddDepartment(db: Db, d: Department, step: Step): (r: Reply<Department>)
    ensures step.Fail? ==> r == Reply(db, Failure(step.message))
    ensures step.Ok? ==> r.result.Success? && r.result.value == WithDepartmentDefaults(d).(id := r.result.value.id)
    ensures step.Ok? ==> r.db == db.(departments := db.departments + [r.result.value])
    ensures step.Ok? ==> r.result.value.budget.Some? && r.result.value.description.Some?
    ensures db.Valid() ==> r.db.Valid()
  {
    if step.Fail? then Reply(db, Failure(step.message))
    else
      var (departments, stored) := PostDepartment(db.departments, WithDepartmentDefaults(d));
      Reply(db.(departments := departments), Success(stored))
  }

  /** `deleteDepartment`: DELETE the department with that id; the other collections are untouched. */
  function DeleteDepartment(db: Db, id: int, step: Step): (r: Reply<()>)
    ensures step.Fail? ==> r == Reply(db, Failure(step.message))
    ensures step.Ok? ==> r.result.Success? && r.db == db.(departments := Delete(db.departments, DepartmentId, id))
    ensures step.Ok? && db.Valid() ==> r.db.Valid() && forall d :: d in r.db.departments ==> d.id != id
  {
    if step.Fail? then Reply(db, Failure(step.message))
    else Reply(db.(departments := Delete(db.departments, DepartmentId, id)), Success(()))
  }

  /** A department joined with the name of its manager. */
  datatype ManagedDepartment = ManagedDepartment(department: Department, managerName: string)

  const NotAssigned: string := "Not assigned"

  /** The manager name of one department: the first employee with the manager id, when that id is truthy. */
  function ManagerName(d: Department, employees: seq<Employee>): (name: string)
    ensures !TruthyId(d.managerId) ==> name == NotAssigned
    ensures TruthyId(d.managerId) && FindById(employees, EmployeeId, d.managerId.value).None? ==> name == NotAssigned
    ensures TruthyId(d.managerId) && FindById(employees, EmployeeId, d.managerId.value).Some? ==>
      exists e :: e in employees && e.id == d.managerId.value && name == e.name
  {
    if !TruthyId(d.managerId) then NotAssigned
    else match FindById(employees, EmployeeId, d.managerId.value)
      case None => NotAssigned
      case Some(m) => m.name
  }

  /** `getDepartmentsWithManagers`: one joined entry per department, in order, each keeping the department's fields. */
  function DepartmentsWithManagers(departments: seq<Department>, employees: seq<Employee>): (r: seq<ManagedDepartment>)
    ensures |r| == |departments|
    ensures forall i :: 0 <= i < |r| ==> r[i].department == departments[i]
    ensures forall i :: 0 <= i < |r| ==> r[i].managerName == ManagerName(departments[i], employees)
  {
    seq(|departments|, i requires 0 <= i < |departments| => ManagedDepartment(departments[i], ManagerName(departments[i], employees)))
  }

  /** The manager named is the first employee carrying the manager id, so with unique employee ids it is the only one. */
  lemma ManagerNameIsFirstMatch(d: Department, employees: seq<Employee>, k: nat)
    requires TruthyId(d.managerId)
    requires k < |employees| && employees[k].id == d.managerId.value
    requires forall i :: 0 <= i < k ==> employees[i].id != d.managerId.value
    ensures ManagerName(d, employees) == employees[k].name
  {
    var f := FindIndex(employees, EmployeeId, d.managerId.value);
    assert f.Some?;
    assert f.value == k;
  }
}

/** The employee service's create and update requests, and the employees of one department. */
module EmployeeService {
  import opened Wrappers
  import opened Seqs
  import opened Models
  import opened InMemoryData
  import opened Backend

  /** `addEmployee`: POST the employee; the reply is the stored record, which carries the new id. */
  function AddEmployee(db: Db, e: Employee, step: Step): (r: Reply<Employee>)
    ensures step.Fail? ==> r == Reply(db, Failure(step.message))
    ensures step.Ok? ==> r.result.Success? && r.result.value == e.(id := r.result.value.id)
    ensures step.Ok? ==> r.db == db.(employees := db.employees + [r.result.value])
    ensures step.Ok? ==> forall i :: 0 <= i < |db.employees| ==> db.employees[i].id < r.result.value.id
    ensures db.Valid() ==> r.db.Valid()
  {
    if step.Fail? then Reply(db, Failure(step.message))
    else
      var (employees, stored) := PostEmployee(db.employees, e);
      Reply(db.(employees := employees), Success(stored))
  }

  /** `updateEmployee`: PUT the employee under its id. */
  function UpdateEmployee(db: Db, e: Employee, step: Step): (r: Reply<Employee>)
    ensures step.Fail? ==> r == Reply(db, Failure(step.message))
    ensures step.Ok? ==> r.result == Success(e) && r.db == db.(employees := Put(db.employees, EmployeeId, e))
    ensures db.Valid() ==> r.db.Valid()
  {
    if step.Fail? then Reply(db, Failure(step.message))
    else Reply(db.(employees := Put(db.employees, EmployeeId, e)), Success(e))
  }

  /** `employees.filter(e => e.departmentId === departmentId)`: the employees of one department, in order. */
  function EmployeesIn(employees: seq<Employee>, departmentId: int): (r: seq<Employee>)
    ensures forall e :: e in r <==> e in employees && e.departmentId == departmentId
    ensures IsSubsequence(r, employees)
  {
    Filter(employees, (e: Employee) => e.departmentId == departmentId)
  }
}

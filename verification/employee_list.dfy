/**
 * The employee list page: employees with their department names, the sorted
 * position options, and the name, department and position filters.
 */
module EmployeeList {
  import opened Wrappers
  import opened Seqs
  import opened Text
  import opened Models
  import opened InMemoryData
  import opened Backend
  import opened Ui

  /** An employee with the department name the table shows. */
  datatype EmployeeRow = EmployeeRow(employee: Employee, departmentName: string)

  /** `getDepartmentName`: 'Unassigned' for a zero id or an unknown department, the department's name otherwise. */
  function DepartmentName(departmentId: int, departments: seq<Department>): (name: string)
    ensures departmentId == 0 ==> name == "Unassigned"
    ensures departmentId != 0 && FindById(departments, DepartmentId, departmentId).None? ==> name == "Unassigned"
    ensures departmentId != 0 && FindById(departments, DepartmentId, departmentId).Some? ==>
      exists d :: d in departments && d.id == departmentId && name == d.name
  {
    if departmentId == 0 then "Unassigned"
    else match FindById(departments, DepartmentId, departmentId)
      case None => "Unassigned"
      case Some(d) => d.name
  }

  /** The rows of `loadEmployees`: one per employee, in order, with its department name. */
  function EmployeeRows(employees: seq<Employee>, departments: seq<Department>): (rows: seq<EmployeeRow>)
    ensures |rows| == |employees|
    ensures forall i :: 0 <= i < |rows| ==>
      rows[i].employee == employees[i] && rows[i].departmentName == DepartmentName(employees[i].departmentId, departments)
  {
    seq(|employees|, i requires 0 <= i < |employees| => EmployeeRow(employees[i], DepartmentName(employees[i].departmentId, departments)))
  }

  /** A position that is present and not blank after trimming. */
  predicate ListedPosition(p: Option<string>) {
    p.Some? && p.value != "" && !IsBlank(p.value)
  }

  /** The listed positions of the rows, in order. */
  function ListedPositions(rows: seq<EmployeeRow>): (r: seq<string>)
    ensures forall p :: p in r <==> exists row :: row in rows && ListedPosition(row.employee.position) && row.employee.position.value == p
  {
    if rows == [] then []
    else
      var rest := ListedPositions(rows[1..]);
      assert forall row :: row in rows <==> row == rows[0] || row in rows[1..];
      var p := rows[0].employee.position;
      if ListedPosition(p) then [p.value] + rest else rest
  }

  /**
   * `extractPositionOptions`: every non-blank position once, in ascending
   * order. Positions are kept as written, so they differ in text only.
   */
  function ExtractPositionOptions(rows: seq<EmployeeRow>): (options: seq<string>)
    ensures forall p :: p in options <==> exists row :: row in rows && ListedPosition(row.employee.position) && row.employee.position.value == p
    ensures forall i, j :: 0 <= i < j < |options| ==> LexLe(options[i], options[j]) && options[i] != options[j]
  {
    var distinct := Distinct(ListedPositions(rows));
    LexLeIsTotalPreorder();
    var sorted := SortBy(distinct, LexLe);
    PermutationKeepsNoDuplicates(distinct, sorted);
    assert forall p :: p in sorted <==> p in multiset(sorted);
    assert forall p :: p in distinct <==> p in multiset(distinct);
    sorted
  }

  /** The filter controls' values; an empty text imposes nothing. */
  datatype EmployeeFilters = EmployeeFilters(search: string, departmentId: string, position: string)

  const NoFilters: EmployeeFilters := EmployeeFilters("", "", "")

  /**
   * The filter of `applyFilters`: the lower-cased name contains the
   * lower-cased term; the department id equals `parseInt` of the department
   * control (never, when that is `NaN`); the position equals the position
   * control ignoring case, and an employee without a position is dropped when
   * the control is set.
   */
  predicate RowMatches(row: EmployeeRow, f: EmployeeFilters) {
    var e := row.employee;
    && (f.search == "" || Contains(ToLower(e.name), ToLower(f.search)))
    && (f.departmentId == "" || ParseInt(f.departmentId) == Some(e.departmentId))
    && (f.position == "" || (TruthyText(e.position) && ToLower(e.position.value) == ToLower(f.position)))
  }

  /** Selecting a department by the text of its id keeps exactly the employees of that department. */
  lemma DepartmentFilterSelectsDepartment(row: EmployeeRow, departmentId: int)
    ensures RowMatches(row, NoFilters.(departmentId := IntToString(departmentId)))
      <==> row.employee.departmentId == departmentId
  {
    ParseIntOfIntToString(departmentId);
    assert IntToString(departmentId) != "" by {
      if departmentId < 0 { } else { assert |NatToString(departmentId)| >= 1; }
    }
  }

  /** With no filter set every row is shown. */
  lemma NoFiltersKeepEveryRow(rows: seq<EmployeeRow>)
    ensures Filter(rows, (row: EmployeeRow) => RowMatches(row, NoFilters)) == rows
  {
    FilterKeepsAll(rows, (row: EmployeeRow) => RowMatches(row, NoFilters));
  }

  class EmployeeListComponent {
    const store: Store
    var departmentOptions: seq<Department>
    var allEmployees: seq<EmployeeRow>
    var data: seq<EmployeeRow>
    var positionOptions: seq<string>
    var filters: EmployeeFilters
    var isLoading: bool
    var notice: Notice

    constructor (store: Store)
      ensures this.store == store && departmentOptions == [] && allEmployees == [] && data == []
      ensures positionOptions == [] && filters == NoFilters && !isLoading && notice == NoNotice
    {
      this.store := store;
      departmentOptions := [];
      allEmployees := [];
      data := [];
      positionOptions := [];
      filters := NoFilters;
      isLoading := false;
      notice := NoNotice;
    }

    /**
     * `loadEmployees`: departments first, then employees joined with their
     * department names; the list is shown unfiltered and the position options
     * rebuilt. Either request may fail with its own message; loading ends.
     */
    method LoadEmployees(departmentsStep: Step, employeesStep: Step)
      modifies this
      ensures !isLoading && filters == old(filters)
      ensures departmentsStep.Fail? ==>
        && notice == ErrorNotice("Failed to load departments") && departmentOptions == old(departmentOptions)
        && allEmployees == old(allEmployees) && data == old(data) && positionOptions == old(positionOptions)
      ensures departmentsStep.Ok? ==> departmentOptions == store.db.departments
      ensures departmentsStep.Ok? && employeesStep.Fail? ==>
        && notice == ErrorNotice("Failed to load employees")
        && allEmployees == old(allEmployees) && data == old(data) && positionOptions == old(positionOptions)
      ensures departmentsStep.Ok? && employeesStep.Ok? ==>
        && allEmployees == EmployeeRows(store.db.employees, store.db.departments)
        && data == allEmployees
        && positionOptions == ExtractPositionOptions(allEmployees)
        && notice == old(notice)
    {
      isLoading := true;
      if departmentsStep.Fail? {
        notice := ErrorNotice("Failed to load departments");
        isLoading := false;
        return;
      }
      departmentOptions := store.db.departments;
      if employeesStep.Ok? {
        allEmployees := EmployeeRows(store.db.employees, departmentOptions);
        data := allEmployees;
        positionOptions := ExtractPositionOptions(allEmployees);
      } else {
        notice := ErrorNotice("Failed to load employees");
      }
      isLoading := false;
    }

    /** `applyFilters`: shows exactly the rows the current filters keep, in their original order. */
    method ApplyFilters()
      modifies this
      ensures IsSubsequence(data, allEmployees)
      ensures forall row :: row in data <==> row in allEmployees && RowMatches(row, filters)
      ensures forall row :: multiset(data)[row] == if RowMatches(row, filters) then multiset(allEmployees)[row] else 0
      ensures allEmployees == old(allEmployees) && filters == old(filters) && departmentOptions == old(departmentOptions)
      ensures positionOptions == old(positionOptions) && isLoading == old(isLoading) && notice == old(notice)
    {
      var current := filters;
      data := Filter(allEmployees, (row: EmployeeRow) => RowMatches(row, current));
      FilterCount(allEmployees, (row: EmployeeRow) => RowMatches(row, current));
    }

    /** `resetFilters`: clears every control and shows the full list again. */
    method ResetFilters()
      modifies this
      ensures filters == NoFilters && data == allEmployees
      ensures allEmployees == old(allEmployees) && departmentOptions == old(departmentOptions)
      ensures positionOptions == old(positionOptions) && isLoading == old(isLoading) && notice == old(notice)
    {
      filters := NoFilters;
      data := allEmployees;
    }
  }
}

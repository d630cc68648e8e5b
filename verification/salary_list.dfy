/**
 * The salary list page: salary records joined with their employee and
 * department, the position options, and the search, department, position and
 * amount-range filters over the joined rows.
 */
module SalaryList {
  import opened Wrappers
  import opened Seqs
  import opened Text
  import opened Models
  import opened InMemoryData
  import opened Backend
  import opened Ui
  import SalaryService

  /** A salary record with the names the table shows beside it. */
  datatype SalaryRow = SalaryRow(
    salary: Salary,
    employeeName: string,
    position: string,
    departmentName: string,
    departmentId: Option<int>)

  /** `getDepartmentName`: the name of the department with that id, or 'Unassigned'. */
  function DepartmentName(departmentId: int, departments: seq<Department>): (name: string)
    ensures FindById(departments, DepartmentId, departmentId).None? ==> name == "Unassigned"
    ensures FindById(departments, DepartmentId, departmentId).Some? ==>
      exists d :: d in departments && d.id == departmentId && name == d.name
  {
    match FindById(departments, DepartmentId, departmentId)
    case None => "Unassigned"
    case Some(d) => d.name
  }

  /**
   * The row of one salary: the employee's name ('Unknown' without an employee
   * or name), position ('-' without one), and department name ('-' without an
   * employee or a truthy department id; otherwise looked up).
   */
  function EnrichRow(s: Salary, employees: seq<Employee>, departments: seq<Department>): (r: SalaryRow)
    ensures r.salary == s
    ensures var e := FindById(employees, EmployeeId, s.employeeId);
      && (e.None? ==> r.employeeName == "Unknown" && r.position == "-" && r.departmentName == "-" && r.departmentId.None?)
      && (e.Some? ==>
            && r.employeeName == (if e.value.name != "" then e.value.name else "Unknown")
            && r.position == TextOr(e.value.position, "-")
            && r.departmentId == Some(e.value.departmentId)
            && r.departmentName == (if e.value.departmentId != 0 then DepartmentName(e.value.departmentId, departments) else "-"))
      && (e.Some? ==> e.value.id == s.employeeId)
  {
    match FindById(employees, EmployeeId, s.employeeId)
    case None => SalaryRow(s, "Unknown", "-", "-", None)
    case Some(e) =>
      SalaryRow(s,
                if e.name != "" then e.name else "Unknown",
                TextOr(e.position, "-"),
                if e.departmentId != 0 then DepartmentName(e.departmentId, departments) else "-",
                Some(e.departmentId))
  }

  /** The enrichment in `loadSalaries`: one row per salary, in the same order. */
  function EnrichSalaries(salaries: seq<Salary>, employees: seq<Employee>, departments: seq<Department>): (rows: seq<SalaryRow>)
    ensures |rows| == |salaries|
    ensures forall i :: 0 <= i < |rows| ==> rows[i] == EnrichRow(salaries[i], employees, departments)
  {
    seq(|salaries|, i requires 0 <= i < |salaries| => EnrichRow(salaries[i], employees, departments))
  }

  /** The truthy positions of the employees, in order. */
  function TruthyPositions(employees: seq<Employee>): (r: seq<string>)
    ensures forall p :: p in r <==> p != "" && exists e :: e in employees && e.position == Some(p)
  {
    if employees == [] then []
    else
      var rest := TruthyPositions(employees[1..]);
      assert forall e :: e in employees <==> e == employees[0] || e in employees[1..];
      if TruthyText(employees[0].position) then [employees[0].position.value] + rest else rest
  }

  /** The truthy positions of two lists one after the other are those of each, in turn; one employee contributes its position exactly when it is truthy. */
  lemma {:induction false} TruthyPositionsAppend(a: seq<Employee>, b: seq<Employee>, e: Employee)
    ensures TruthyPositions(a + b) == TruthyPositions(a) + TruthyPositions(b)
    ensures TruthyPositions([e]) == if TruthyText(e.position) then [e.position.value] else []
  {
    if a == [] {
      assert a + b == b;
    } else {
      var ab := a + b;
      assert ab[0] == a[0] && ab[1..] == a[1..] + b;
      TruthyPositionsAppend(a[1..], b, e);
      AppendAssoc(if TruthyText(a[0].position) then [a[0].position.value] else [], TruthyPositions(a[1..]), TruthyPositions(b));
    }
  }

  /** `positionOptions`: every truthy position once, in the order of its first appearance. */
  function PositionOptions(employees: seq<Employee>): (options: seq<string>)
    ensures forall p :: p in options <==> p != "" && exists e :: e in employees && e.position == Some(p)
    ensures forall i, j :: 0 <= i < j < |options| ==> options[i] != options[j]
    ensures forall p :: p in options <==> p in TruthyPositions(employees)
    ensures forall i, j :: 0 <= i < j < |options| ==>
      IndexOf(TruthyPositions(employees), options[i]) < IndexOf(TruthyPositions(employees), options[j])
  {
    Distinct(TruthyPositions(employees))
  }

  /** The filter controls' values; an empty text or a missing number imposes nothing. */
  datatype SalaryFilters = SalaryFilters(
    search: string,
    departmentId: Option<int>,
    position: string,
    minSalary: Option<real>,
    maxSalary: Option<real>)

  /** The values `resetFilters` restores. */
  const NoFilters: SalaryFilters := SalaryFilters("", None, "", None, None)

  /**
   * The filter of `applyFilters`: the lower-cased term occurs in the lower-cased
   * employee name, position or department name, or in the base amount's text
   * (`numberText` is JavaScript's number-to-string conversion); the department
   * and position match when set; the base amount is within the bounds that are
   * set. A zero bound is falsy and imposes nothing.
   */
  predicate RowMatches(row: SalaryRow, f: SalaryFilters, numberText: real -> string) {
    var term := ToLower(f.search);
    && (|| Contains(ToLower(row.employeeName), term)
        || Contains(ToLower(row.position), term)
        || Contains(ToLower(row.departmentName), term)
        || Contains(numberText(row.salary.baseAmount), term))
    && (!TruthyId(f.departmentId) || row.departmentId == f.departmentId)
    && (f.position == "" || row.position == f.position)
    && (!TruthyNumber(f.minSalary) || row.salary.baseAmount >= f.minSalary.value)
    && (!TruthyNumber(f.maxSalary) || row.salary.baseAmount <= f.maxSalary.value)
  }

  /** With no filter set every row matches, because the empty term occurs in every text. */
  lemma NoFiltersMatchEveryRow(rows: seq<SalaryRow>, numberText: real -> string)
    ensures Filter(rows, (row: SalaryRow) => RowMatches(row, NoFilters, numberText)) == rows
  {
    forall row | row in rows ensures RowMatches(row, NoFilters, numberText) {
      ContainsEmpty(ToLower(row.employeeName));
    }
    FilterKeepsAll(rows, (row: SalaryRow) => RowMatches(row, NoFilters, numberText));
  }

  class SalaryListComponent {
    const store: Store
    var allSalaries: seq<SalaryRow>
    var data: seq<SalaryRow>
    var filters: SalaryFilters
    var positionOptions: seq<string>
    var departmentOptions: seq<(int, string)>
    var isLoading: bool
    var notice: Notice

    constructor (store: Store)
      ensures this.store == store && allSalaries == [] && data == [] && filters == NoFilters
      ensures positionOptions == [] && departmentOptions == [] && !isLoading && notice == NoNotice
    {
      this.store := store;
      allSalaries := [];
      data := [];
      filters := NoFilters;
      positionOptions := [];
      departmentOptions := [];
      isLoading := false;
      notice := NoNotice;
    }

    /**
     * `loadSalaries`: reads salaries (with derived amounts), employees and
     * departments together; on success the options and the joined rows are
     * rebuilt and shown unfiltered; on failure an error is shown. Loading
     * ends either way.
     */
    method LoadSalaries(step: Step)
      modifies this
      ensures !isLoading && filters == old(filters)
      ensures step.Fail? ==>
        && notice == ErrorNotice("Failed to load salary records")
        && allSalaries == old(allSalaries) && data == old(data)
        && positionOptions == old(positionOptions) && departmentOptions == old(departmentOptions)
      ensures step.Ok? ==>
        && |departmentOptions| == |store.db.departments|
        && (forall i :: 0 <= i < |departmentOptions| ==>
              departmentOptions[i] == (store.db.departments[i].id, store.db.departments[i].name))
        && positionOptions == PositionOptions(store.db.employees)
        && allSalaries == EnrichSalaries(SalaryService.GetSalaries(store.db.salaries), store.db.employees, store.db.departments)
        && data == allSalaries
        && notice == old(notice)
    {
      isLoading := true;
      if step.Ok? {
        var departments := store.db.departments;
        departmentOptions := seq(|departments|, i requires 0 <= i < |departments| => (departments[i].id, departments[i].name));
        positionOptions := PositionOptions(store.db.employees);
        allSalaries := EnrichSalaries(SalaryService.GetSalaries(store.db.salaries), store.db.employees, departments);
        data := allSalaries;
      } else {
        notice := ErrorNotice("Failed to load salary records");
      }
      isLoading := false;
    }

    /** `applyFilters`: shows exactly the rows the current filters keep, in their original order. */
    method ApplyFilters(numberText: real -> string)
      modifies this
      ensures IsSubsequence(data, allSalaries)
      ensures forall row :: row in data <==> row in allSalaries && RowMatches(row, filters, numberText)
      ensures forall row :: multiset(data)[row] == if RowMatches(row, filters, numberText) then multiset(allSalaries)[row] else 0
      ensures allSalaries == old(allSalaries) && filters == old(filters)
      ensures positionOptions == old(positionOptions) && departmentOptions == old(departmentOptions)
      ensures isLoading == old(isLoading) && notice == old(notice)
    {
      var current := filters;
      data := Filter(allSalaries, (row: SalaryRow) => RowMatches(row, current, numberText));
      FilterCount(allSalaries, (row: SalaryRow) => RowMatches(row, current, numberText));
    }

    /** `resetFilters`: clears every control and shows the full list again. */
    method ResetFilters()
      modifies this
      ensures filters == NoFilters && data == allSalaries
      ensures allSalaries == old(allSalaries)
      ensures positionOptions == old(positionOptions) && departmentOptions == old(departmentOptions)
      ensures isLoading == old(isLoading) && notice == old(notice)
    {
      filters := NoFilters;
      data := allSalaries;
    }
  }
}

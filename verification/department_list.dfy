/**
 * The department list page: departments joined with their managers, the
 * location options, and the search, location and budget-range filters.
 */
module DepartmentList {
  import opened Wrappers
  import opened Seqs
  import opened Text
  import opened Models
  import opened Backend
  import opened Ui
  import opened DepartmentService

  /** The truthy locations of the departments, in order. */
  function TruthyLocations(rows: seq<ManagedDepartment>): (r: seq<string>)
    ensures forall l :: l in r <==> l != "" && exists row :: row in rows && row.department.location == l
  {
    if rows == [] then []
    else
      var rest := TruthyLocations(rows[1..]);
      assert forall row :: row in rows <==> row == rows[0] || row in rows[1..];
      if rows[0].department.location != "" then [rows[0].department.location] + rest else rest
  }

  /** The truthy locations of two lists one after the other are those of each, in turn; one department contributes its location exactly when it is not empty. */
  lemma {:induction false} TruthyLocationsAppend(a: seq<ManagedDepartment>, b: seq<ManagedDepartment>, row: ManagedDepartment)
    ensures TruthyLocations(a + b) == TruthyLocations(a) + TruthyLocations(b)
    ensures TruthyLocations([row]) == if row.department.location != "" then [row.department.location] else []
  {
    if a == [] {
      assert a + b == b;
    } else {
      var ab := a + b;
      assert ab[0] == a[0] && ab[1..] == a[1..] + b;
      TruthyLocationsAppend(a[1..], b, row);
      AppendAssoc(if a[0].department.location != "" then [a[0].department.location] else [], TruthyLocations(a[1..]), TruthyLocations(b));
    }
  }

  /** `extractLocationOptions`: every non-empty location once, in the order of its first appearance. */
  function LocationOptions(rows: seq<ManagedDepartment>): (options: seq<string>)
    ensures forall l :: l in options <==> l != "" && exists row :: row in rows && row.department.location == l
    ensures NoDuplicates(options)
    ensures forall l :: l in options <==> l in TruthyLocations(rows)
    ensures forall i, j :: 0 <= i < j < |options| ==>
      IndexOf(TruthyLocations(rows), options[i]) < IndexOf(TruthyLocations(rows), options[j])
  {
    Distinct(TruthyLocations(rows))
  }

  /** The filter controls' values; an empty text or a missing number imposes nothing. */
  datatype DepartmentFilters = DepartmentFilters(
    search: string,
    location: string,
    minBudget: Option<real>,
    maxBudget: Option<real>)

  const NoFilters: DepartmentFilters := DepartmentFilters("", "", None, None)

  /** The lower-cased term occurs in the lower-cased name, location or manager name. */
  predicate MatchesText(row: ManagedDepartment, term: string) {
    || Contains(ToLower(row.department.name), term)
    || Contains(ToLower(row.department.location), term)
    || (row.managerName != "" && Contains(ToLower(row.managerName), term))
  }

  /** The location, when set, is equal; the budget, a missing one counting as 0, is within the bounds that are set. */
  predicate MatchesLocationAndBudget(row: ManagedDepartment, f: DepartmentFilters) {
    var budget := AmountOrZero(row.department.budget);
    && (f.location == "" || row.department.location == f.location)
    && (!TruthyNumber(f.minBudget) || budget >= f.minBudget.value)
    && (!TruthyNumber(f.maxBudget) || budget <= f.maxBudget.value)
  }

  /**
   * The filter of `applyFilters` as written: when the term is not found in
   * the name, location or manager name, the budget's text is searched, and a
   * department without a budget makes that `toString` call throw (`None`).
   */
  function RowMatchesAsWritten(row: ManagedDepartment, f: DepartmentFilters, numberText: real -> string): (r: Option<bool>)
    ensures r.None? <==> !MatchesText(row, ToLower(f.search)) && row.department.budget.None?
  {
    var term := ToLower(f.search);
    if MatchesText(row, term) then Some(MatchesLocationAndBudget(row, f))
    else if row.department.budget.None? then None
    else Some(Contains(numberText(row.department.budget.value), term) && MatchesLocationAndBudget(row, f))
  }

  /** `applyFilters` as written: the filtered rows, or `None` when some row throws. */
  function ApplyFiltersAsWritten(rows: seq<ManagedDepartment>, f: DepartmentFilters, numberText: real -> string): (r: Option<seq<ManagedDepartment>>)
    ensures r.None? <==> exists row :: row in rows && RowMatchesAsWritten(row, f, numberText).None?
  {
    if rows == [] then Some([])
    else
      assert forall row :: row in rows <==> row == rows[0] || row in rows[1..];
      match RowMatchesAsWritten(rows[0], f, numberText)
      case None => None
      case Some(keep) =>
        match ApplyFiltersAsWritten(rows[1..], f, numberText)
        case None => None
        case Some(rest) => Some(if keep then [rows[0]] + rest else rest)
  }

  /** The department of the counterexample: no budget, and no 'z' in its name or location, and no manager. */
  const Unbudgeted: ManagedDepartment := ManagedDepartment(Department(9, "Legal", "Floor 9", None, None, None), NotAssigned)

  lemma UnbudgetedRowThrows(numberText: real -> string)
    ensures RowMatchesAsWritten(Unbudgeted, NoFilters.(search := "zzz"), numberText).None?
  {
    ToLowerOfLower("zzz");
    var d := Unbudgeted.department;
    LowerLetterNotInToLower(d.name, 'z');
    LowerLetterNotInToLower(d.location, 'z');
    LowerLetterNotInToLower(NotAssigned, 'z');
    MissingFirstChar(ToLower(d.name), "zzz");
    MissingFirstChar(ToLower(d.location), "zzz");
    MissingFirstChar(ToLower(NotAssigned), "zzz");
  }

  /** A department without a budget, searched for a term it does not contain, makes the whole filter throw. */
  lemma MissingBudgetThrows(numberText: real -> string)
    ensures ApplyFiltersAsWritten([Unbudgeted], NoFilters.(search := "zzz"), numberText).None?
  {
    UnbudgetedRowThrows(numberText);
    assert Unbudgeted in [Unbudgeted];
  }

  /**
   * The filter as evidently intended: a department without a budget simply
   * has no budget text to match, and every department gets an answer.
   */
  predicate RowMatches(row: ManagedDepartment, f: DepartmentFilters, numberText: real -> string) {
    var term := ToLower(f.search);
    && (MatchesText(row, term)
        || (row.department.budget.Some? && Contains(numberText(row.department.budget.value), term)))
    && MatchesLocationAndBudget(row, f)
  }

  /** Where the filter as written does not throw, it keeps exactly what the corrected filter keeps. */
  lemma {:induction false} CorrectedAgreesWhereNoThrow(rows: seq<ManagedDepartment>, f: DepartmentFilters, numberText: real -> string)
    requires ApplyFiltersAsWritten(rows, f, numberText).Some?
    ensures ApplyFiltersAsWritten(rows, f, numberText).value == Filter(rows, (row: ManagedDepartment) => RowMatches(row, f, numberText))
  {
    if rows != [] {
      CorrectedAgreesWhereNoThrow(rows[1..], f, numberText);
    }
  }

  /** With no filter set every department is shown, budget or not. */
  lemma NoFiltersKeepEveryRow(rows: seq<ManagedDepartment>, numberText: real -> string)
    ensures Filter(rows, (row: ManagedDepartment) => RowMatches(row, NoFilters, numberText)) == rows
  {
    forall row | row in rows ensures RowMatches(row, NoFilters, numberText) {
      ContainsEmpty(ToLower(row.department.name));
    }
    FilterKeepsAll(rows, (row: ManagedDepartment) => RowMatches(row, NoFilters, numberText));
  }

  class DepartmentListComponent {
    const store: Store
    var allDepartments: seq<ManagedDepartment>
    var data: seq<ManagedDepartment>
    var locationOptions: seq<string>
    var filters: DepartmentFilters
    var isLoading: bool
    var notice: Notice

    constructor (store: Store)
      ensures this.store == store && allDepartments == [] && data == [] && locationOptions == []
      ensures filters == NoFilters && !isLoading && notice == NoNotice
    {
      this.store := store;
      allDepartments := [];
      data := [];
      locationOptions := [];
      filters := NoFilters;
      isLoading := false;
      notice := NoNotice;
    }

    /** `loadDepartments`: the departments joined with their managers, shown unfiltered, and their locations as options. */
    method LoadDepartments(step: Step)
      modifies this
      ensures !isLoading && filters == old(filters)
      ensures step.Fail? ==>
        && notice == ErrorNotice("Failed to load departments")
        && allDepartments == old(allDepartments) && data == old(data) && locationOptions == old(locationOptions)
      ensures step.Ok? ==>
        && allDepartments == DepartmentsWithManagers(store.db.departments, store.db.employees)
        && data == allDepartments
        && locationOptions == LocationOptions(allDepartments)
        && notice == old(notice)
    {
      isLoading := true;
      if step.Ok? {
        allDepartments := DepartmentsWithManagers(store.db.departments, store.db.employees);
        data := allDepartments;
        locationOptions := LocationOptions(allDepartments);
      } else {
        notice := ErrorNotice("Failed to load departments");
      }
      isLoading := false;
    }

    /** `applyFilters`, corrected: shows exactly the departments the filters keep, in their original order. */
    method ApplyFilters(numberText: real -> string)
      modifies this
      ensures IsSubsequence(data, allDepartments)
      ensures forall row :: row in data <==> row in allDepartments && RowMatches(row, filters, numberText)
      ensures forall row :: multiset(data)[row] == if RowMatches(row, filters, numberText) then multiset(allDepartments)[row] else 0
      ensures allDepartments == old(allDepartments) && filters == old(filters) && locationOptions == old(locationOptions)
      ensures isLoading == old(isLoading) && notice == old(notice)
    {
      var current := filters;
      data := Filter(allDepartments, (row: ManagedDepartment) => RowMatches(row, current, numberText));
      FilterCount(allDepartments, (row: ManagedDepartment) => RowMatches(row, current, numberText));
    }

    /** `resetFilters`: clears every control and shows the full list again. */
    method ResetFilters()
      modifies this
      ensures filters == NoFilters && data == allDepartments
      ensures allDepartments == old(allDepartments) && locationOptions == old(locationOptions)
      ensures isLoading == old(isLoading) && notice == old(notice)
    {
      filters := NoFilters;
      data := allDepartments;
    }
  }
}

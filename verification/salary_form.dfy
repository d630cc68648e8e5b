/**
 * The salary form page: the live derivation of gross, tax and net while the
 * user types, guarded against re-entry; the prefill of a new salary from the
 * employee's earlier record; and the save.
 */
module SalaryForm {
  import opened Wrappers
  import opened Models
  import opened InMemoryData
  import opened Backend
  import opened Ui
  import SalaryService

  /** The values of the salary form, including the three read-only derived amounts. */
  datatype SalaryFields = SalaryFields(
    id: Option<int>,
    employeeId: Option<int>,
    baseAmount: Option<real>,
    bonus: Option<real>,
    paymentFrequency: string,
    effectiveDate: Option<int>,
    previousSalaryId: Option<int>,
    adjustmentType: Option<string>,
    notes: string,
    grossAmount: real,
    taxDeductions: real,
    netAmount: real)

  /** The derived amounts the form shows. */
  datatype Amounts = Amounts(gross: real, tax: real, net: real)

  /**
   * `calculateDerived`'s arithmetic: a missing or zero base amount counts as
   * 0, and so does an empty bonus control (`null` adds as 0).
   */
  function DerivedAmounts(baseAmount: Option<real>, bonus: Option<real>): (a: Amounts)
    ensures a.gross == baseAmount.GetOr(0.0) + bonus.GetOr(0.0)
    ensures 5.0 * a.tax == a.gross
    ensures a.net + a.tax == a.gross
  {
    var base := if TruthyNumber(baseAmount) then baseAmount.value else 0.0;
    var extra := if bonus.Some? then bonus.value else 0.0;
    var gross := base + extra;
    var tax := gross * 0.2;
    Amounts(gross, tax, gross - tax)
  }

  /** What the form shows agrees with what the salary service stores for the same base amount and bonus. */
  lemma DerivedAmountsAgreeWithService(s: Salary)
    ensures var a := DerivedAmounts(Some(s.baseAmount), s.bonus);
      var stored := SalaryService.EnsureCalculatedFields(s);
      && stored.grossAmount == Some(a.gross)
      && stored.taxDeductions == Some(a.tax)
      && stored.netAmount == Some(a.net)
  {
    var a := DerivedAmounts(Some(s.baseAmount), s.bonus);
    var stored := SalaryService.EnsureCalculatedFields(s);
    assert stored.grossAmount.value == a.gross;
    SalaryService.DerivedAmountsSplitGross(stored);
  }

  /** The form's validators: employee, base amount (at least 0), frequency and date required; bonus at least 0 when given. */
  predicate FieldsValid(f: SalaryFields) {
    && f.employeeId.Some?
    && f.baseAmount.Some? && f.baseAmount.value >= 0.0
    && (f.bonus.Some? ==> f.bonus.value >= 0.0)
    && f.paymentFrequency != ""
    && f.effectiveDate.Some?
  }

  /** The record the form submits (its raw value, derived amounts included); an id-less form is sent with id 0. */
  function SalaryOf(f: SalaryFields): (s: Salary)
    requires FieldsValid(f)
    ensures s.id == f.id.GetOr(0) && s.employeeId == f.employeeId.value
    ensures s.baseAmount == f.baseAmount.value && s.bonus == f.bonus
    ensures s.grossAmount == Some(f.grossAmount) && s.taxDeductions == Some(f.taxDeductions) && s.netAmount == Some(f.netAmount)
    ensures s.previousSalaryId == f.previousSalaryId && s.adjustmentType == f.adjustmentType && s.notes == Some(f.notes)
  {
    Salary(f.id.GetOr(0), f.employeeId.value, f.baseAmount.value, f.bonus, Some(f.grossAmount), Some(f.taxDeductions),
           Some(f.netAmount), f.paymentFrequency, f.effectiveDate.value, f.previousSalaryId, f.adjustmentType, Some(f.notes))
  }

  function SavedMessage(isEditMode: bool): string {
    "Salary " + (if isEditMode then "updated" else "added") + " successfully!"
  }

  function SaveFailedMessage(isEditMode: bool): string {
    "Failed to " + (if isEditMode then "update" else "add") + " salary record"
  }

  class SalaryFormComponent {
    const store: Store
    var form: SalaryFields
    var isEditMode: bool
    var isLoading: bool
    var isCalculating: bool
    var notice: Notice
    var route: Route

    constructor (store: Store, form: SalaryFields)
      ensures this.store == store && this.form == form
      ensures !isEditMode && !isLoading && !isCalculating && notice == NoNotice && route == NotNavigated
    {
      this.store := store;
      this.form := form;
      isEditMode := false;
      isLoading := false;
      isCalculating := false;
      notice := NoNotice;
      route := NotNavigated;
    }

    /**
     * `calculateDerived`: while a calculation is in progress a call does
     * nothing; otherwise only gross, tax and net are patched, from the base
     * amount and bonus, and the flag is clear again afterwards.
     */
    method CalculateDerived()
      modifies this
      ensures old(isCalculating) ==> form == old(form) && isCalculating
      ensures !old(isCalculating) ==>
        && !isCalculating
        && form.(grossAmount := old(form).grossAmount, taxDeductions := old(form).taxDeductions, netAmount := old(form).netAmount) == old(form)
        && form.grossAmount == old(form).baseAmount.GetOr(0.0) + old(form).bonus.GetOr(0.0)
        && 5.0 * form.taxDeductions == form.grossAmount
        && form.netAmount + form.taxDeductions == form.grossAmount
      ensures isEditMode == old(isEditMode) && isLoading == old(isLoading) && notice == old(notice) && route == old(route)
    {
      if isCalculating {
        return;
      }
      isCalculating := true;
      var amounts := DerivedAmounts(form.baseAmount, form.bonus);
      form := form.(grossAmount := amounts.gross, taxDeductions := amounts.tax, netAmount := amounts.net);
      isCalculating := false;
    }

    /**
     * `ngOnInit`: a route id means editing. Otherwise, with an employee id in
     * the query, the form is bound to that employee and, when the employee
     * already has salary records, prefilled with the id and base amount of
     * the first one in store order; setting the base amount recalculates
     * the derived amounts. When reading those records fails, the form keeps
     * only the employee id and the error is shown.
     */
    method NgOnInit(routeId: Option<int>, employeeIdParam: Option<int>, previousStep: Step)
      requires !isCalculating
      modifies this
      ensures routeId.Some? ==> isEditMode && form == old(form)
      ensures routeId.None? && employeeIdParam.None? ==> form == old(form) && isEditMode == old(isEditMode)
      ensures routeId.None? && employeeIdParam.Some? && previousStep.Fail? ==>
        && isEditMode == old(isEditMode) && form == old(form).(employeeId := employeeIdParam)
        && notice == ErrorNotice("Failed to load previous salary data")
      ensures routeId.None? && employeeIdParam.Some? && previousStep.Ok? ==>
        var earlier := SalaryService.SalariesByEmployee(SalaryService.GetSalaries(store.db.salaries), employeeIdParam.value);
        && isEditMode == old(isEditMode)
        && form.employeeId == employeeIdParam
        && (earlier == [] ==> form == old(form).(employeeId := employeeIdParam))
        && (earlier != [] ==>
              && form.previousSalaryId == Some(earlier[0].id)
              && form.baseAmount == Some(earlier[0].baseAmount)
              && form.(grossAmount := old(form).grossAmount, taxDeductions := old(form).taxDeductions, netAmount := old(form).netAmount)
                   == old(form).(employeeId := employeeIdParam, previousSalaryId := Some(earlier[0].id), baseAmount := Some(earlier[0].baseAmount))
              && form.grossAmount == earlier[0].baseAmount + form.bonus.GetOr(0.0))
      ensures !(routeId.None? && employeeIdParam.Some? && previousStep.Fail?) ==> notice == old(notice)
      ensures !isCalculating && isLoading == old(isLoading) && route == old(route)
    {
      if routeId.Some? {
        isEditMode := true;
      } else if employeeIdParam.Some? {
        form := form.(employeeId := employeeIdParam);
        if previousStep.Fail? {
          notice := ErrorNotice("Failed to load previous salary data");
          return;
        }
        var earlier := SalaryService.SalariesByEmployee(SalaryService.GetSalaries(store.db.salaries), employeeIdParam.value);
        if |earlier| > 0 {
          var previousSalary := earlier[0];
          form := form.(previousSalaryId := Some(previousSalary.id), baseAmount := Some(previousSalary.baseAmount));
          CalculateDerived();
        }
      }
    }

    /**
     * `onSubmit`: a valid form is updated in edit mode and added otherwise;
     * success goes to the salary list, failure clears `isLoading`. In edit
     * mode a form without an id (its record never loaded) is PUT to
     * `.../null`, which the backend refuses.
     */
    method OnSubmit(step: Step)
      modifies this, store
      ensures form == old(form) && isEditMode == old(isEditMode) && isCalculating == old(isCalculating)
      ensures !FieldsValid(form) ==> store.db == old(store.db) && isLoading == old(isLoading) && notice == old(notice) && route == old(route)
      ensures FieldsValid(form) && (step.Fail? || (isEditMode && form.id.None?)) ==>
        store.db == old(store.db) && !isLoading && notice == ErrorNotice(SaveFailedMessage(isEditMode)) && route == old(route)
      ensures FieldsValid(form) && step.Ok? && !(isEditMode && form.id.None?) ==>
        && isLoading && notice == SuccessNotice(SavedMessage(isEditMode)) && route == SalariesList
        && (isEditMode ==> store.db == SalaryService.UpdateSalary(old(store.db), SalaryOf(form), step).db)
        && (!isEditMode ==> store.db == SalaryService.AddSalary(old(store.db), SalaryOf(form), step).db)
      ensures old(store.db).Valid() ==> store.db.Valid()
    {
      if FieldsValid(form) {
        isLoading := true;
        var reply;
        if isEditMode {
          reply := SalaryService.UpdateSalary(store.db, SalaryOf(form), PutOutcome(form.id, step));
        } else {
          reply := SalaryService.AddSalary(store.db, SalaryOf(form), step);
        }
        store.db := reply.db;
        if reply.result.Success? {
          notice := SuccessNotice(SavedMessage(isEditMode));
          route := SalariesList;
        } else {
          notice := ErrorNotice(SaveFailedMessage(isEditMode));
          isLoading := false;
        }
      }
    }
  }
}

/**
 * The salary service: derivation of gross, tax and net amounts, bonus
 * defaulting before a save, the per-employee lookup and the "current salary"
 * rule.
 */
module SalaryService {
  import opened Wrappers
  import opened Seqs
  import opened Models
  import opened InMemoryData
  import opened Backend

  /** `calculateTax`: a flat 20 % of the gross amount. */
  function CalculateTax(grossAmount: real): (tax: real)
    ensures 5.0 * tax == grossAmount
  {
    grossAmount * 0.2
  }

  /** `calculateNetAmount`: what is left of the gross amount after tax. */
  function CalculateNetAmount(grossAmount: real, taxDeductions: real): (net: real)
    ensures net + taxDeductions == grossAmount
  {
    grossAmount - taxDeductions
  }

  /** The three derived amounts are present and agree with the base amount and bonus (a missing or zero bonus counts as 0). */
  predicate HasDerivedAmounts(s: Salary) {
    && s.grossAmount == Some(s.baseAmount + AmountOrZero(s.bonus))
    && s.taxDeductions == Some(CalculateTax(s.grossAmount.value))
    && s.netAmount == Some(CalculateNetAmount(s.grossAmount.value, s.taxDeductions.value))
  }

  /** `a` and `b` agree on every field except the three derived amounts. */
  predicate SameExceptDerived(a: Salary, b: Salary) {
    a.(grossAmount := None, taxDeductions := None, netAmount := None)
      == b.(grossAmount := None, taxDeductions := None, netAmount := None)
  }

  /**
   * `ensureCalculatedFields`: recomputes gross, tax and net from the base
   * amount and bonus, and keeps every other field, including a missing bonus.
   */
  function EnsureCalculatedFields(s: Salary): (r: Salary)
    ensures HasDerivedAmounts(r)
    ensures SameExceptDerived(s, r)
    ensures r.bonus == s.bonus
  {
    var grossAmount := s.baseAmount + AmountOrZero(s.bonus);
    var taxDeductions := CalculateTax(grossAmount);
    var netAmount := CalculateNetAmount(grossAmount, taxDeductions);
    s.(grossAmount := Some(grossAmount), taxDeductions := Some(taxDeductions), netAmount := Some(netAmount))
  }

  /** The derived amounts depend only on the base amount and bonus, so deriving twice is deriving once. */
  lemma EnsureCalculatedFieldsIdempotent(s: Salary)
    ensures EnsureCalculatedFields(EnsureCalculatedFields(s)) == EnsureCalculatedFields(s)
  {
    var once := EnsureCalculatedFields(s);
    assert SameExceptDerived(once, EnsureCalculatedFields(once));
    assert once.bonus == s.bonus;
  }

  /** A record whose derived amounts agree splits its gross amount into tax and net, with net four fifths of gross. */
  lemma DerivedAmountsSplitGross(s: Salary)
    requires HasDerivedAmounts(s)
    ensures s.taxDeductions.value + s.netAmount.value == s.grossAmount.value
    ensures s.netAmount.value == 0.8 * s.grossAmount.value
    ensures s.grossAmount.value == s.baseAmount + s.bonus.GetOr(0.0)
  {
  }

  /**
   * The record `addSalary` and `updateSalary` send: the bonus becomes 0 when
   * it is missing or 0, then the derived amounts are filled in.
   */
  function PrepareForSave(s: Salary): (r: Salary)
    ensures r.bonus == Some(s.bonus.GetOr(0.0))
    ensures HasDerivedAmounts(r)
    ensures r.(bonus := s.bonus, grossAmount := s.grossAmount, taxDeductions := s.taxDeductions, netAmount := s.netAmount) == s
  {
    EnsureCalculatedFields(s.(bonus := Some(AmountOrZero(s.bonus))))
  }

  /** `addSalary`: POST the prepared record; the reply is the stored record with its new id and derived amounts. */
  function AddSalary(db: Db, s: Salary, step: Step): (r: Reply<Salary>)
    ensures step.Fail? ==> r == Reply(db, Failure(step.message))
    ensures step.Ok? ==> r.result.Success? && r.result.value == PrepareForSave(s).(id := r.result.value.id)
    ensures step.Ok? ==> r.db == db.(salaries := db.salaries + [r.result.value])
    ensures step.Ok? ==> forall i :: 0 <= i < |db.salaries| ==> db.salaries[i].id < r.result.value.id
    ensures db.Valid() ==> r.db.Valid()
  {
    if step.Fail? then Reply(db, Failure(step.message))
    else
      var (salaries, stored) := PostSalary(db.salaries, PrepareForSave(s));
      Reply(db.(salaries := salaries), Success(EnsureCalculatedFields(stored)))
  }

  /** `updateSalary`: PUT the prepared record under its id. */
  function UpdateSalary(db: Db, s: Salary, step: Step): (r: Reply<Salary>)
    ensures step.Fail? ==> r == Reply(db, Failure(step.message))
    ensures step.Ok? ==> r.db == db.(salaries := Put(db.salaries, SalaryId, PrepareForSave(s)))
    ensures step.Ok? ==> PrepareForSave(s) in r.db.salaries && r.result == Success(PrepareForSave(s))
    ensures db.Valid() ==> r.db.Valid()
  {
    if step.Fail? then Reply(db, Failure(step.message))
    else
      var prepared := PrepareForSave(s);
      Reply(db.(salaries := Put(db.salaries, SalaryId, prepared)), Success(prepared))
  }

  /** `getSalaries`: every stored record, in store order, with its derived amounts filled in. */
  function GetSalaries(stored: seq<Salary>): (r: seq<Salary>)
    ensures |r| == |stored|
    ensures forall i :: 0 <= i < |r| ==> HasDerivedAmounts(r[i]) && SameExceptDerived(stored[i], r[i]) && r[i].bonus == stored[i].bonus
  {
    seq(|stored|, i requires 0 <= i < |stored| => EnsureCalculatedFields(stored[i]))
  }

  /** `getSalary`: the stored record with that id, with its derived amounts; `None` when no record has it (the backend answers 404). */
  function GetSalary(stored: seq<Salary>, id: int): (r: Option<Salary>)
    ensures r.None? <==> forall i :: 0 <= i < |stored| ==> stored[i].id != id
    ensures r.Some? ==> r.value.id == id && HasDerivedAmounts(r.value)
    ensures r.Some? ==> exists i :: 0 <= i < |stored| && stored[i].id == id && SameExceptDerived(stored[i], r.value)
  {
    match FindIndex(stored, SalaryId, id)
    case None => None
    case Some(k) => Some(EnsureCalculatedFields(stored[k]))
  }

  /** `getSalariesByEmployee`: exactly the records of the employee, in their original order. */
  function SalariesByEmployee(salaries: seq<Salary>, employeeId: int): (r: seq<Salary>)
    ensures IsSubsequence(r, salaries)
    ensures forall s :: s in r <==> s in salaries && s.employeeId == employeeId
    ensures forall i :: 0 <= i < |r| ==> r[i].employeeId == employeeId
  {
    Filter(salaries, (s: Salary) => s.employeeId == employeeId)
  }

  /** The comparator `(a, b) => dateB - dateA` read as "`a` may come before `b`": newest first. */
  predicate NewerOrSame(a: Salary, b: Salary) {
    a.effectiveDate >= b.effectiveDate
  }

  lemma NewerOrSameIsTotalPreorder()
    ensures IsTotalPreorder(NewerOrSame)
  {
  }

  /** `[...salaries].sort(newest first)`: a sorted copy; the sort is stable, so records with the same date keep their order. */
  function SortNewestFirst(salaries: seq<Salary>): (r: seq<Salary>)
    ensures |r| == |salaries| && multiset(r) == multiset(salaries)
    ensures forall i, j :: 0 <= i < j < |r| ==> r[i].effectiveDate >= r[j].effectiveDate
  {
    NewerOrSameIsTotalPreorder();
    var r := SortBy(salaries, NewerOrSame);
    assert forall i, j :: 0 <= i < j < |r| ==> NewerOrSame(r[i], r[j]);
    r
  }

  /** The position of the first record with the latest effective date. */
  function LatestIndex(salaries: seq<Salary>): (k: nat)
    requires |salaries| > 0
    ensures k < |salaries|
    ensures forall i :: 0 <= i < |salaries| ==> salaries[i].effectiveDate <= salaries[k].effectiveDate
    ensures forall i :: 0 <= i < k ==> salaries[i].effectiveDate < salaries[k].effectiveDate
  {
    if |salaries| == 1 then 0
    else
      var k := LatestIndex(salaries[1..]) + 1;
      if salaries[0].effectiveDate >= salaries[k].effectiveDate then 0 else k
  }

  /** The head of the newest-first copy is the first record, in store order, carrying the latest date. */
  lemma {:induction false} SortNewestFirstHead(salaries: seq<Salary>)
    requires |salaries| > 0
    ensures SortNewestFirst(salaries)[0] == salaries[LatestIndex(salaries)]
  {
    NewerOrSameIsTotalPreorder();
    if |salaries| > 1 {
      SortNewestFirstHead(salaries[1..]);
      assert salaries == [salaries[0]] + salaries[1..];
    }
  }

  /**
   * `getCurrentSalaryForEmployee` applied to the employee's records: no
   * record gives `null`; otherwise the head of the newest-first copy, which
   * is the first record with the latest date. The input is not reordered.
   */
  function CurrentSalary(salaries: seq<Salary>): (r: Option<Salary>)
    ensures r.None? <==> salaries == []
    ensures r.Some? ==> r.value in salaries
    ensures r.Some? ==> forall i :: 0 <= i < |salaries| ==> salaries[i].effectiveDate <= r.value.effectiveDate
    ensures r.Some? ==> r.value == salaries[LatestIndex(salaries)]
  {
    if salaries == [] then None
    else
      var sorted := SortNewestFirst(salaries);
      SortNewestFirstHead(salaries);
      Some(sorted[0])
  }

  /** A stored record of the employee reappears, with derived amounts, among the employee's records. */
  lemma {:induction false} StoredRecordsOfEmployee(stored: seq<Salary>, employeeId: int)
    ensures var mine := SalariesByEmployee(GetSalaries(stored), employeeId);
      && (mine == [] <==> forall i :: 0 <= i < |stored| ==> stored[i].employeeId != employeeId)
      && (forall i :: 0 <= i < |stored| && stored[i].employeeId == employeeId ==>
            EnsureCalculatedFields(stored[i]) in mine)
  {
    var all := GetSalaries(stored);
    var mine := SalariesByEmployee(all, employeeId);
    forall i | 0 <= i < |stored| && stored[i].employeeId == employeeId
      ensures EnsureCalculatedFields(stored[i]) in mine
    {
      assert all[i] == EnsureCalculatedFields(stored[i]) && all[i] in all;
    }
    if mine == [] {
      forall i | 0 <= i < |stored| ensures stored[i].employeeId != employeeId {
        assert all[i] in all && all[i].employeeId == stored[i].employeeId;
      }
    } else {
      var s := mine[0];
      assert s in all;
      var i :| 0 <= i < |all| && all[i] == s;
      assert stored[i].employeeId == employeeId;
    }
  }

  /**
   * `getCurrentSalaryForEmployee` against the stored records: the employee's
   * latest record, with derived amounts; a failed read is caught and gives
   * `null`, as does an employee without records.
   */
  function CurrentSalaryForEmployee(stored: seq<Salary>, employeeId: int, step: Step): (r: Option<Salary>)
    ensures step.Fail? ==> r.None?
    ensures step.Ok? ==> r == CurrentSalary(SalariesByEmployee(GetSalaries(stored), employeeId))
    ensures r.None? <==> step.Fail? || forall i :: 0 <= i < |stored| ==> stored[i].employeeId != employeeId
    ensures r.Some? ==>
      exists i :: 0 <= i < |stored| && stored[i].employeeId == employeeId && r.value == EnsureCalculatedFields(stored[i])
    ensures r.Some? ==> r.value.employeeId == employeeId && HasDerivedAmounts(r.value)
    ensures r.Some? ==> forall i :: 0 <= i < |stored| && stored[i].employeeId == employeeId ==>
      stored[i].effectiveDate <= r.value.effectiveDate
  {
    if step.Fail? then None
    else
      StoredRecordsOfEmployee(stored, employeeId);
      var all := GetSalaries(stored);
      var r := CurrentSalary(SalariesByEmployee(all, employeeId));
      if r.Some? then
        assert r.value in all;
        var i :| 0 <= i < |all| && all[i] == r.value;
        assert stored[i].employeeId == employeeId && r.value == EnsureCalculatedFields(stored[i]);
        r
      else r
  }
}

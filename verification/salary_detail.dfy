/**
 * The salary detail page: the displayed record, its employee, and the
 * employee's other salary records, newest first.
 */
module SalaryDetail {
  import opened Wrappers
  import opened Seqs
  import opened Models
  import opened InMemoryData
  import opened Backend
  import opened Ui
  import SalaryService

  function NotCurrent(currentId: int): Salary -> bool {
    (s: Salary) => s.id != currentId
  }

  /**
   * The history of `loadSalaryHistory`: the employee's records without the one
   * displayed, sorted by effective date with the newest first.
   */
  function SalaryHistory(salaries: seq<Salary>, currentId: int): (history: seq<Salary>)
    ensures forall s :: s in history <==> s in salaries && s.id != currentId
    ensures forall i, j :: 0 <= i < j < |history| ==> history[i].effectiveDate >= history[j].effectiveDate
  {
    var others := Filter(salaries, NotCurrent(currentId));
    var history := SalaryService.SortNewestFirst(others);
    assert forall s :: s in history <==> s in multiset(history);
    assert forall s :: s in others <==> s in multiset(others);
    history
  }

  /** Whether some record carries the id. */
  predicate HasId(salaries: seq<Salary>, id: int) {
    exists i :: 0 <= i < |salaries| && salaries[i].id == id
  }

  /** With distinct ids, leaving out one id removes one record if some record has it, and none otherwise. */
  lemma {:induction false} NotCurrentLength(salaries: seq<Salary>, currentId: int)
    requires UniqueIds(salaries, SalaryId)
    ensures |Filter(salaries, NotCurrent(currentId))| == |salaries| - (if HasId(salaries, currentId) then 1 else 0)
  {
    if salaries != [] {
      var rest := salaries[1..];
      assert UniqueIds(rest, SalaryId) by {
        forall i, j | 0 <= i < j < |rest| ensures rest[i].id != rest[j].id {
          assert rest[i] == salaries[i + 1] && rest[j] == salaries[j + 1];
        }
      }
      if salaries[0].id == currentId {
        assert !HasId(rest, currentId) by {
          forall i | 0 <= i < |rest| ensures rest[i].id != currentId {
            assert rest[i] == salaries[i + 1];
          }
        }
        FilterKeepsAll(rest, NotCurrent(currentId));
        assert HasId(salaries, currentId) by { assert salaries[0].id == currentId; }
      } else {
        NotCurrentLength(rest, currentId);
        assert HasId(salaries, currentId) <==> HasId(rest, currentId) by {
          if HasId(salaries, currentId) {
            var i :| 0 <= i < |salaries| && salaries[i].id == currentId;
            assert rest[i - 1] == salaries[i];
          }
          if HasId(rest, currentId) {
            var i :| 0 <= i < |rest| && rest[i].id == currentId;
            assert salaries[i + 1] == rest[i];
          }
        }
      }
    }
  }

  /** With distinct ids the history holds every record of the list but the displayed one. */
  lemma HistoryLength(salaries: seq<Salary>, currentId: int)
    requires UniqueIds(salaries, SalaryId)
    ensures |SalaryHistory(salaries, currentId)| == |salaries| - (if HasId(salaries, currentId) then 1 else 0)
  {
    NotCurrentLength(salaries, currentId);
  }

  /** A filter keeps the ids of a collection distinct. */
  lemma {:induction false} FilterKeepsUniqueIds(salaries: seq<Salary>, p: Salary -> bool)
    requires UniqueIds(salaries, SalaryId)
    ensures UniqueIds(Filter(salaries, p), SalaryId)
  {
    if salaries != [] {
      var rest := salaries[1..];
      assert UniqueIds(rest, SalaryId) by {
        forall i, j | 0 <= i < j < |rest| ensures rest[i].id != rest[j].id {
          assert rest[i] == salaries[i + 1] && rest[j] == salaries[j + 1];
        }
      }
      FilterKeepsUniqueIds(rest, p);
      var kept := Filter(rest, p);
      if p(salaries[0]) {
        var r := Filter(salaries, p);
        assert r == [salaries[0]] + kept;
        forall i, j | 0 <= i < j < |r| ensures r[i].id != r[j].id {
          if i == 0 {
            assert r[j] == kept[j - 1] && r[j] in rest;
            var k :| 0 <= k < |rest| && rest[k] == r[j];
            assert salaries[k + 1] == r[j];
          } else {
            assert r[i] == kept[i - 1] && r[j] == kept[j - 1];
          }
        }
      }
    }
  }

  /**
   * The history of a salary in a store with distinct ids: only records of the
   * same employee, never the displayed one, newest first, and one record fewer
   * than the employee has exactly when the displayed record is among them.
   */
  lemma HistoryOfStoredSalary(stored: seq<Salary>, current: Salary)
    requires UniqueIds(stored, SalaryId)
    ensures var mine := SalaryService.SalariesByEmployee(SalaryService.GetSalaries(stored), current.employeeId);
      var history := SalaryHistory(mine, current.id);
      && (forall i :: 0 <= i < |history| ==> history[i].employeeId == current.employeeId && history[i].id != current.id)
      && |history| == |mine| - (if HasId(mine, current.id) then 1 else 0)
  {
    var all := SalaryService.GetSalaries(stored);
    assert UniqueIds(all, SalaryId) by {
      forall i, j | 0 <= i < j < |all| ensures all[i].id != all[j].id {
        assert SalaryService.SameExceptDerived(stored[i], all[i]);
        assert SalaryService.SameExceptDerived(stored[j], all[j]);
      }
    }
    var mine := SalaryService.SalariesByEmployee(all, current.employeeId);
    FilterKeepsUniqueIds(all, (s: Salary) => s.employeeId == current.employeeId);
    HistoryLength(mine, current.id);
    var history := SalaryHistory(mine, current.id);
    forall i | 0 <= i < |history| ensures history[i].employeeId == current.employeeId && history[i].id != current.id {
      assert history[i] in history;
    }
  }

  class SalaryDetailComponent {
    const store: Store
    var salary: Option<Salary>
    var employee: Option<Employee>
    var salaryHistory: seq<Salary>
    var isLoading: bool
    var notice: Notice

    constructor (store: Store)
      ensures this.store == store && salary == None && employee == None && salaryHistory == []
      ensures !isLoading && notice == NoNotice
    {
      this.store := store;
      salary := None;
      employee := None;
      salaryHistory := [];
      isLoading := false;
      notice := NoNotice;
    }

    /**
     * `loadEmployee` and `loadSalaryHistory` for the record `s`: the owner
     * and the owner's other records, each request reporting its own error;
     * the history error is the one left showing when both fail.
     */
    method LoadRelated(s: Salary, employeeStep: Step, historyStep: Step)
      modifies this
      ensures salary == old(salary) && isLoading == old(isLoading)
      ensures var owner := FindById(store.db.employees, EmployeeId, s.employeeId);
        employee == if employeeStep.Ok? && owner.Some? then owner else old(employee)
      ensures historyStep.Ok? ==>
        salaryHistory == SalaryHistory(SalaryService.SalariesByEmployee(SalaryService.GetSalaries(store.db.salaries), s.employeeId), s.id)
      ensures historyStep.Fail? ==> salaryHistory == old(salaryHistory)
      ensures var owner := FindById(store.db.employees, EmployeeId, s.employeeId);
        notice == if historyStep.Fail? then ErrorNotice("Failed to load salary history")
                  else if employeeStep.Fail? || owner.None? then ErrorNotice("Failed to load employee data")
                  else old(notice)
    {
      var owner := FindById(store.db.employees, EmployeeId, s.employeeId);
      if employeeStep.Ok? && owner.Some? {
        employee := owner;
      } else {
        notice := ErrorNotice("Failed to load employee data");
      }
      if historyStep.Ok? {
        var mine := SalaryService.SalariesByEmployee(SalaryService.GetSalaries(store.db.salaries), s.employeeId);
        salaryHistory := SalaryHistory(mine, s.id);
      } else {
        notice := ErrorNotice("Failed to load salary history");
      }
    }

    /**
     * `loadSalary` with `loadEmployee` and `loadSalaryHistory`: the record is
     * fetched (a failed or unknown id reports an error and changes nothing
     * else); then its employee and the employee's other records, each
     * reporting its own error. Loading ends either way.
     */
    method LoadSalary(id: int, salaryStep: Step, employeeStep: Step, historyStep: Step)
      modifies this
      ensures !isLoading
      ensures var found := SalaryService.GetSalary(store.db.salaries, id);
        && (salaryStep.Fail? || found.None? ==>
              && salary == old(salary) && employee == old(employee) && salaryHistory == old(salaryHistory)
              && notice == ErrorNotice("Failed to load salary record"))
        && (salaryStep.Ok? && found.Some? ==>
              var s := found.value;
              var owner := FindById(store.db.employees, EmployeeId, s.employeeId);
              && salary == found
              && (employeeStep.Ok? && owner.Some? ==> employee == owner)
              && (employeeStep.Fail? || owner.None? ==> employee == old(employee))
              && (historyStep.Ok? ==>
                    salaryHistory == SalaryHistory(SalaryService.SalariesByEmployee(SalaryService.GetSalaries(store.db.salaries), s.employeeId), s.id))
              && (historyStep.Fail? ==> salaryHistory == old(salaryHistory))
              && notice == (if historyStep.Fail? then ErrorNotice("Failed to load salary history")
                            else if employeeStep.Fail? || owner.None? then ErrorNotice("Failed to load employee data")
                            else old(notice)))
    {
      isLoading := true;
      var found := SalaryService.GetSalary(store.db.salaries, id);
      if salaryStep.Fail? || found.None? {
        notice := ErrorNotice("Failed to load salary record");
        isLoading := false;
        return;
      }
      salary := found;
      LoadRelated(found.value, employeeStep, historyStep);
      isLoading := false;
    }
  }
}

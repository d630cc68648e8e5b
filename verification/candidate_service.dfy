/**
 * The candidate service: the search filter, the defaults of a new
 * application, the status update, and the hiring chain that turns a
 * candidate into an employee with a salary record.
 */
module CandidateService {
  import opened Wrappers
  import opened Seqs
  import opened Text
  import opened Models
  import opened InMemoryData
  import opened Backend
  import EmployeeService
  import SalaryService

  /** The lower-cased name, applied position or e-mail contains the lower-cased term. */
  predicate MatchesTerm(c: Candidate, term: string) {
    var t := ToLower(term);
    Contains(ToLower(c.name), t) || Contains(ToLower(c.appliedPosition), t) || Contains(ToLower(c.email), t)
  }

  /** `searchCandidates`: a blank term returns every candidate; otherwise the matching ones, in their original order. */
  function SearchCandidates(candidates: seq<Candidate>, term: string): (r: seq<Candidate>)
    ensures IsBlank(term) ==> r == candidates
    ensures IsSubsequence(r, candidates)
    ensures !IsBlank(term) ==> forall c :: c in r <==> c in candidates && MatchesTerm(c, term)
    ensures !IsBlank(term) ==> forall c :: multiset(r)[c] == if MatchesTerm(c, term) then multiset(candidates)[c] else 0
  {
    SubsequenceRefl(candidates);
    if IsBlank(term) then candidates
    else
      FilterCount(candidates, (c: Candidate) => MatchesTerm(c, term));
      Filter(candidates, (c: Candidate) => MatchesTerm(c, term))
  }

  /**
   * The record `addCandidate` sends: status 'Applied' and the current time
   * `now` as application date when they are missing or empty; everything
   * else as given.
   */
  function WithApplicationDefaults(c: Candidate, now: string): (r: Candidate)
    ensures TruthyText(c.status) ==> r.status == c.status
    ensures !TruthyText(c.status) ==> r.status == Some("Applied")
    ensures TruthyText(c.applicationDate) ==> r.applicationDate == c.applicationDate
    ensures !TruthyText(c.applicationDate) ==> r.applicationDate == Some(now)
    ensures r.(status := c.status, applicationDate := c.applicationDate) == c
  {
    c.(status := Some(TextOr(c.status, "Applied")), applicationDate := Some(TextOr(c.applicationDate, now)))
  }

  /** `addCandidate`: POST the candidate with its defaults. */
  function AddCandidate(db: Db, c: Candidate, now: string, step: Step): (r: Reply<Candidate>)
    ensures step.Fail? ==> r == Reply(db, Failure(step.message))
    ensures step.Ok? ==> r.result.Success? && r.result.value == WithApplicationDefaults(c, now).(id := r.result.value.id)
    ensures step.Ok? ==> r.db == db.(candidates := db.candidates + [r.result.value])
    ensures step.Ok? ==> r.result.value.status.Some? && r.result.value.status.value != ""
    ensures db.Valid() ==> r.db.Valid()
  {
    if step.Fail? then Reply(db, Failure(step.message))
    else
      var (candidates, stored) := PostCandidate(db.candidates, WithApplicationDefaults(c, now));
      Reply(db.(candidates := candidates), Success(stored))
  }

  /**
   * `updateCandidateStatus`: fetch the candidate, then PUT it back with only
   * its status replaced. Nothing is written when the candidate does not exist
   * or the PUT fails.
   */
  function UpdateCandidateStatus(db: Db, id: int, status: string, step: Step): (r: Reply<Candidate>)
    ensures FindById(db.candidates, CandidateId, id).None? ==> r == Reply(db, Failure(CandidateNotFoundMessage))
    ensures FindById(db.candidates, CandidateId, id).Some? && step.Fail? ==> r == Reply(db, Failure(step.message))
    ensures FindById(db.candidates, CandidateId, id).Some? && step.Ok? ==>
      var found := FindById(db.candidates, CandidateId, id).value;
      && r.result == Success(found.(status := Some(status)))
      && r.db == db.(candidates := Put(db.candidates, CandidateId, found.(status := Some(status))))
    ensures r.db.departments == db.departments && r.db.employees == db.employees && r.db.salaries == db.salaries
    ensures db.Valid() ==> r.db.Valid()
  {
    match FindById(db.candidates, CandidateId, id)
    case None => Reply(db, Failure(CandidateNotFoundMessage))
    case Some(candidate) =>
      if step.Fail? then Reply(db, Failure(step.message))
      else
        var updated := candidate.(status := Some(status));
        Reply(db.(candidates := Put(db.candidates, CandidateId, updated)), Success(updated))
  }

  const CandidateNotFoundMessage: string := "Candidate not found"

  /** A successful status update leaves exactly one candidate with that id, whose status is the new one. */
  lemma UpdateCandidateStatusWrites(db: Db, id: int, status: string, step: Step)
    requires db.Valid()
    requires FindById(db.candidates, CandidateId, id).Some? && step.Ok?
    ensures var r := UpdateCandidateStatus(db, id, status, step);
      && |r.db.candidates| == |db.candidates|
      && (forall i :: 0 <= i < |db.candidates| ==>
            r.db.candidates[i] == if db.candidates[i].id == id then db.candidates[i].(status := Some(status)) else db.candidates[i])
  {
    var k := FindIndex(db.candidates, CandidateId, id).value;
    var found := db.candidates[k];
    var r := UpdateCandidateStatus(db, id, status, step);
    var updated := found.(status := Some(status));
    assert updated.id == id;
    forall i | 0 <= i < |db.candidates|
      ensures r.db.candidates[i] == if db.candidates[i].id == id then db.candidates[i].(status := Some(status)) else db.candidates[i]
    {
      if db.candidates[i].id == id {
        assert i == k;
        assert r.db.candidates[i] == updated || r.db.candidates[i] == db.candidates[i];
        PutReplacesAtFirst(db.candidates, CandidateId, updated, k);
      }
    }
  }

  /** A PUT of a record whose id sits at position `k` puts it exactly there. */
  lemma {:induction false} PutReplacesAtFirst<T>(s: seq<T>, idOf: T -> int, x: T, k: nat)
    requires k < |s| && idOf(s[k]) == idOf(x)
    requires forall i :: 0 <= i < k ==> idOf(s[i]) != idOf(x)
    ensures Put(s, idOf, x)[k] == x
  {
    if k > 0 {
      PutReplacesAtFirst(s[1..], idOf, x, k - 1);
    }
  }

  /** The salary details `hireCandidate` receives. */
  datatype SalaryDetails = SalaryDetails(baseAmount: real, bonus: Option<real>, paymentFrequency: string)

  /** The employee `hireCandidate` creates: name and e-mail from the candidate, the given position, the applied department, hired today. */
  function HiredEmployee(c: Candidate, position: string, today: CalendarDate): (e: Employee)
    requires c.appliedDepartmentId.Some?
    ensures e.name == c.name && e.email == c.email && e.position == Some(position)
    ensures e.departmentId == c.appliedDepartmentId.value && e.hireDate == Some(today)
    ensures e.status.None? && e.employmentType.None? && e.phoneNumber.None?
  {
    Employee(0, c.name, c.email, c.appliedDepartmentId.value, None, None, None, Some(position), Some(today),
             None, None, None, None)
  }

  /** The note on the salary record of a hire. */
  function HireNote(candidateId: int): string {
    "Hired from candidate " + IntToString(candidateId)
  }

  /** The salary `hireCandidate` creates for the new employee, effective `now`. */
  function HireSalary(employeeId: int, details: SalaryDetails, candidateId: int, now: int): (s: Salary)
    ensures s.employeeId == employeeId && s.baseAmount == details.baseAmount && s.bonus == details.bonus
    ensures s.paymentFrequency == details.paymentFrequency && s.effectiveDate == now
    ensures s.adjustmentType == Some("raise") && s.notes == Some(HireNote(candidateId))
  {
    Salary(0, employeeId, details.baseAmount, details.bonus, None, None, None, details.paymentFrequency, now,
           None, Some("raise"), Some(HireNote(candidateId)))
  }

  /** The steps of the hiring chain that can fail: status PUT, employee POST, salary POST. */
  datatype HireSteps = HireSteps(status: Step, employee: Step, salary: Step)

  /**
   * `hireCandidate`: fetch the candidate; refuse when it has no applied
   * department; then set its status to 'Hired', create the employee, and
   * create the salary, each step only after the previous one succeeded. There
   * is no rollback: a later failure leaves the earlier writes in place.
   */
  function HireCandidate(db: Db, candidateId: int, position: string, details: SalaryDetails,
                         today: CalendarDate, now: int, steps: HireSteps): (r: Reply<Employee>)
    ensures db.Valid() ==> r.db.Valid()
  {
    match FindById(db.candidates, CandidateId, candidateId)
    case None => Reply(db, Failure(CandidateNotFoundMessage))
    case Some(candidate) =>
      if !TruthyId(candidate.appliedDepartmentId) then Reply(db, Failure(NoAppliedDepartmentMessage))
      else
        var afterStatus := UpdateCandidateStatus(db, candidateId, "Hired", steps.status);
        if afterStatus.result.Failure? then Reply(afterStatus.db, Failure(afterStatus.result.error))
        else
          var afterEmployee := EmployeeService.AddEmployee(afterStatus.db, HiredEmployee(candidate, position, today), steps.employee);
          if afterEmployee.result.Failure? then Reply(afterEmployee.db, Failure(afterEmployee.result.error))
          else
            var employee := afterEmployee.result.value;
            var afterSalary := SalaryService.AddSalary(afterEmployee.db, HireSalary(employee.id, details, candidateId, now), steps.salary);
            if afterSalary.result.Failure? then Reply(afterSalary.db, Failure(afterSalary.result.error))
            else Reply(afterSalary.db, Success(employee))
  }

  const NoAppliedDepartmentMessage: string := "Candidate has no applied department"

  /** Without an applied department (missing or 0) the chain stops before any write. */
  lemma HireWithoutDepartmentWritesNothing(db: Db, candidateId: int, position: string, details: SalaryDetails,
                                           today: CalendarDate, now: int, steps: HireSteps)
    requires FindById(db.candidates, CandidateId, candidateId).Some?
    requires !TruthyId(FindById(db.candidates, CandidateId, candidateId).value.appliedDepartmentId)
    ensures HireCandidate(db, candidateId, position, details, today, now, steps)
      == Reply(db, Failure(NoAppliedDepartmentMessage))
  {
  }

  /**
   * The steps run in order: an employee is created only after the status
   * update succeeded, and a salary only after the employee was created. A
   * created employee carries the candidate's name and e-mail, the applied
   * department and the requested position; a created salary belongs to it.
   */
  lemma HireStepsInOrder(db: Db, candidateId: int, position: string, details: SalaryDetails,
                         today: CalendarDate, now: int, steps: HireSteps)
    ensures var r := HireCandidate(db, candidateId, position, details, today, now, steps);
      && (|r.db.employees| > |db.employees| ==> steps.status.Ok?)
      && (|r.db.salaries| > |db.salaries| ==> steps.status.Ok? && steps.employee.Ok?)
      && (r.db.departments == db.departments)
  {
  }

  /** A fully successful hire: the candidate is Hired, the employee and its salary are appended, and the chain returns the employee. */
  lemma HireSucceeds(db: Db, candidateId: int, position: string, details: SalaryDetails,
                     today: CalendarDate, now: int, steps: HireSteps)
    requires FindById(db.candidates, CandidateId, candidateId).Some?
    requires TruthyId(FindById(db.candidates, CandidateId, candidateId).value.appliedDepartmentId)
    requires steps == HireSteps(Ok, Ok, Ok)
    ensures var r := HireCandidate(db, candidateId, position, details, today, now, steps);
      var c := FindById(db.candidates, CandidateId, candidateId).value;
      && r.result.Success?
      && var e := r.result.value;
      && r.db.employees == db.employees + [e]
      && e.name == c.name && e.email == c.email && e.position == Some(position)
      && e.departmentId == c.appliedDepartmentId.value
      && (forall i :: 0 <= i < |db.employees| ==> db.employees[i].id < e.id)
      && |r.db.salaries| == |db.salaries| + 1
      && var s := r.db.salaries[|db.salaries|];
      && s.employeeId == e.id && s.adjustmentType == Some("raise") && s.notes == Some(HireNote(candidateId))
      && s.bonus == Some(details.bonus.GetOr(0.0))
      && s.baseAmount == details.baseAmount && s.paymentFrequency == details.paymentFrequency && s.effectiveDate == now
      && Put(db.candidates, CandidateId, c.(status := Some("Hired"))) == r.db.candidates
  {
  }

  /** A failing salary step still leaves the candidate Hired and the employee created: there is no rollback. */
  lemma HireSalaryFailureKeepsEarlierWrites(db: Db, candidateId: int, position: string, details: SalaryDetails,
                                            today: CalendarDate, now: int, message: string)
    requires FindById(db.candidates, CandidateId, candidateId).Some?
    requires TruthyId(FindById(db.candidates, CandidateId, candidateId).value.appliedDepartmentId)
    ensures var r := HireCandidate(db, candidateId, position, details, today, now, HireSteps(Ok, Ok, Fail(message)));
      && r.result == Failure(message)
      && |r.db.employees| == |db.employees| + 1
      && r.db.salaries == db.salaries
      && var c := FindById(db.candidates, CandidateId, candidateId).value;
      && r.db.candidates == Put(db.candidates, CandidateId, c.(status := Some("Hired")))
  {
  }

  /** A failing status step ends the chain before any write: the store is unchanged and its error is the result. */
  lemma HireStatusFailureWritesNothing(db: Db, candidateId: int, position: string, details: SalaryDetails,
                                       today: CalendarDate, now: int, message: string, employeeStep: Step, salaryStep: Step)
    requires FindById(db.candidates, CandidateId, candidateId).Some?
    requires TruthyId(FindById(db.candidates, CandidateId, candidateId).value.appliedDepartmentId)
    ensures HireCandidate(db, candidateId, position, details, today, now, HireSteps(Fail(message), employeeStep, salaryStep))
      == Reply(db, Failure(message))
  {
  }

  /** A failing employee step leaves the candidate Hired with no employee and no salary: there is no rollback. */
  lemma HireEmployeeFailureLeavesCandidateHired(db: Db, candidateId: int, position: string, details: SalaryDetails,
                                                today: CalendarDate, now: int, message: string)
    requires FindById(db.candidates, CandidateId, candidateId).Some?
    requires TruthyId(FindById(db.candidates, CandidateId, candidateId).value.appliedDepartmentId)
    ensures var r := HireCandidate(db, candidateId, position, details, today, now, HireSteps(Ok, Fail(message), Ok));
      && r.result == Failure(message)
      && r.db.employees == db.employees
      && r.db.salaries == db.salaries
      && var c := FindById(db.candidates, CandidateId, candidateId).value;
      && r.db.candidates == Put(db.candidates, CandidateId, c.(status := Some("Hired")))
  {
  }
}

/**
 * The dashboard: head counts, payroll total and average, employees per
 * department, and the candidate-status histogram.
 */
module Dashboard {
  import opened Wrappers
  import opened Seqs
  import opened Models
  import opened Backend
  import opened Ui
  import SalaryService
  import opened EmployeeService

  datatype DepartmentStat = DepartmentStat(name: string, count: nat, budget: real)

  datatype StatusCount = StatusCount(status: string, count: nat)

  /** The metrics the dashboard shows (the two date-window lists are not modelled). */
  datatype Metrics = Metrics(
    totalEmployees: nat,
    totalDepartments: nat,
    totalCandidates: nat,
    activeCandidates: nat,
    totalPayroll: real,
    averageSalary: real,
    departmentStats: seq<DepartmentStat>,
    candidateStatus: seq<StatusCount>)

  const InitialMetrics: Metrics := Metrics(0, 0, 0, 0, 0.0, 0.0, [], [])

  /** An active candidate is one whose status is Applied or Interviewed. */
  predicate IsActiveCandidate(c: Candidate) {
    c.status == Some("Applied") || c.status == Some("Interviewed")
  }

  /** The payroll: base amounts added left to right, as `reduce` does from 0. */
  function TotalPayroll(salaries: seq<Salary>): real {
    if salaries == [] then 0.0
    else TotalPayroll(salaries[..|salaries| - 1]) + AmountOrZero(Some(salaries[|salaries| - 1].baseAmount))
  }

  /** The payroll of two lists one after the other is the sum of their payrolls. */
  lemma {:induction false} TotalPayrollAppend(a: seq<Salary>, b: seq<Salary>)
    ensures TotalPayroll(a + b) == TotalPayroll(a) + TotalPayroll(b)
    decreases |b|
  {
    if b == [] {
      assert a + b == a;
    } else {
      assert (a + b)[..|a + b| - 1] == a + b[..|b| - 1];
      assert (a + b)[|a + b| - 1] == b[|b| - 1];
      TotalPayrollAppend(a, b[..|b| - 1]);
    }
  }

  /** The payroll does not depend on the order of the records. */
  lemma {:induction false} TotalPayrollPermutation(a: seq<Salary>, b: seq<Salary>)
    requires multiset(a) == multiset(b)
    ensures TotalPayroll(a) == TotalPayroll(b)
    decreases |a|
  {
    if a != [] {
      var x := a[|a| - 1];
      assert x in multiset(b);
      var k :| 0 <= k < |b| && b[k] == x;
      assert b == b[..k] + [x] + b[k + 1..];
      assert a == a[..|a| - 1] + [x];
      assert multiset(a) == multiset(a[..|a| - 1]) + multiset{x};
      assert multiset(b) == multiset(b[..k]) + multiset{x} + multiset(b[k + 1..]);
      assert multiset(b[..k] + b[k + 1..]) == multiset(b[..k]) + multiset(b[k + 1..]);
      var ma, mb := multiset(a[..|a| - 1]), multiset(b[..k] + b[k + 1..]);
      assert ma + multiset{x} == mb + multiset{x};
      assert ma == (ma + multiset{x}) - multiset{x};
      assert mb == (mb + multiset{x}) - multiset{x};
      TotalPayrollPermutation(a[..|a| - 1], b[..k] + b[k + 1..]);
      TotalPayrollAppend(b[..k], b[k + 1..]);
      TotalPayrollAppend(b[..k] + [x], b[k + 1..]);
      TotalPayrollAppend(b[..k], [x]);
      assert TotalPayroll([x]) == x.baseAmount by {
        assert [x][..0] == [];
      }
    }
  }

  /** With no negative base amount the payroll is not negative. */
  lemma {:induction false} TotalPayrollNonNegative(salaries: seq<Salary>)
    requires forall i :: 0 <= i < |salaries| ==> salaries[i].baseAmount >= 0.0
    ensures TotalPayroll(salaries) >= 0.0
    decreases |salaries|
  {
    if salaries != [] {
      TotalPayrollNonNegative(salaries[..|salaries| - 1]);
    }
  }

  /** The average salary: the payroll over the number of records, or 0 without records. */
  function AverageSalary(salaries: seq<Salary>): (average: real)
    ensures salaries == [] ==> average == 0.0
    ensures salaries != [] ==> average * |salaries| as real == TotalPayroll(salaries)
  {
    if |salaries| > 0 then TotalPayroll(salaries) / |salaries| as real else 0.0
  }

  /** `departmentStats`: per department, in order, its name, head count and budget (0 when missing). */
  function DepartmentStats(departments: seq<Department>, employees: seq<Employee>): (stats: seq<DepartmentStat>)
    ensures |stats| == |departments|
    ensures forall i :: 0 <= i < |stats| ==>
      && stats[i].name == departments[i].name
      && stats[i].count == |EmployeesIn(employees, departments[i].id)|
      && stats[i].budget == departments[i].budget.GetOr(0.0)
  {
    seq(|departments|, i requires 0 <= i < |departments| =>
      DepartmentStat(departments[i].name, |EmployeesIn(employees, departments[i].id)|, AmountOrZero(departments[i].budget)))
  }

  function SumCounts(stats: seq<DepartmentStat>): nat {
    if stats == [] then 0 else stats[0].count + SumCounts(stats[1..])
  }

  /** The employees whose department id is in `ids`. */
  function EmployeesInAny(employees: seq<Employee>, ids: set<int>): seq<Employee> {
    Filter(employees, (e: Employee) => e.departmentId in ids)
  }

  /** Adding a department id not yet counted adds exactly that department's employees. */
  lemma {:induction false} EmployeesInAnyAdd(employees: seq<Employee>, ids: set<int>, id: int)
    requires id !in ids
    ensures |EmployeesInAny(employees, ids + {id})| == |EmployeesIn(employees, id)| + |EmployeesInAny(employees, ids)|
  {
    if employees != [] {
      EmployeesInAnyAdd(employees[1..], ids, id);
    }
  }

  function IdsOfDepartments(departments: seq<Department>): set<int> {
    set d | d in departments :: d.id
  }

  /** With distinct department ids, the head counts add up to the employees of those departments. */
  lemma {:induction false} SumCountsIsEmployeesInAny(departments: seq<Department>, employees: seq<Employee>)
    requires forall i, j :: 0 <= i < j < |departments| ==> departments[i].id != departments[j].id
    ensures SumCounts(DepartmentStats(departments, employees)) == |EmployeesInAny(employees, IdsOfDepartments(departments))|
  {
    if departments == [] {
      assert IdsOfDepartments(departments) == {};
      assert EmployeesInAny(employees, {}) == [] by {
        assert forall e :: e !in EmployeesInAny(employees, {});
      }
    } else {
      var rest := departments[1..];
      SumCountsIsEmployeesInAny(rest, employees);
      var stats := DepartmentStats(departments, employees);
      assert stats[1..] == DepartmentStats(rest, employees);
      assert IdsOfDepartments(departments) == IdsOfDepartments(rest) + {departments[0].id} by {
        assert forall d :: d in departments <==> d == departments[0] || d in rest;
      }
      assert departments[0].id !in IdsOfDepartments(rest) by {
        forall d | d in rest ensures d.id != departments[0].id {
          var j :| 0 <= j < |rest| && rest[j] == d;
          assert departments[j + 1] == d;
        }
      }
      EmployeesInAnyAdd(employees, IdsOfDepartments(rest), departments[0].id);
    }
  }

  /** With distinct department ids, no employee is counted twice: the head counts add up to at most the total. */
  lemma DepartmentCountsBounded(departments: seq<Department>, employees: seq<Employee>)
    requires forall i, j :: 0 <= i < j < |departments| ==> departments[i].id != departments[j].id
    ensures SumCounts(DepartmentStats(departments, employees)) <= |employees|
  {
    SumCountsIsEmployeesInAny(departments, employees);
  }

  /** The status a candidate is counted under: its own, or Applied when missing or empty. */
  function CountedStatus(c: Candidate): string {
    TextOr(c.status, "Applied")
  }

  function CountedStatuses(candidates: seq<Candidate>): (r: seq<string>)
    ensures |r| == |candidates| && forall i :: 0 <= i < |r| ==> r[i] == CountedStatus(candidates[i])
  {
    seq(|candidates|, i requires 0 <= i < |candidates| => CountedStatus(candidates[i]))
  }

  /** The position of the entry for `status`, if the histogram has one. */
  function FindStatus(acc: seq<StatusCount>, status: string): (k: Option<nat>)
    ensures k.None? <==> forall i :: 0 <= i < |acc| ==> acc[i].status != status
    ensures k.Some? ==> k.value < |acc| && acc[k.value].status == status
  {
    if acc == [] then None
    else if acc[0].status == status then Some(0)
    else match FindStatus(acc[1..], status)
      case None => None
      case Some(k) => Some(k + 1)
  }

  /** One step of the `reduce`: the status's entry goes up by one, or a new entry with 1 is added at the end. */
  function Tally(acc: seq<StatusCount>, status: string): seq<StatusCount> {
    match FindStatus(acc, status)
    case None => acc + [StatusCount(status, 1)]
    case Some(k) => acc[k := StatusCount(status, acc[k].count + 1)]
  }

  /** The histogram of `statuses`, entries in order of first occurrence (the order `Object.entries` lists them in). */
  function Histogram(statuses: seq<string>): seq<StatusCount> {
    if statuses == [] then []
    else Tally(Histogram(statuses[..|statuses| - 1]), statuses[|statuses| - 1])
  }

  /** Each status has one entry, exactly the statuses that occur have one, and its count is the number of occurrences. */
  lemma {:induction false} HistogramCounts(statuses: seq<string>)
    ensures var h := Histogram(statuses);
      && (forall i, j :: 0 <= i < j < |h| ==> h[i].status != h[j].status)
      && (forall s :: s in statuses <==> exists i :: 0 <= i < |h| && h[i].status == s)
      && (forall i :: 0 <= i < |h| ==> h[i].count == multiset(statuses)[h[i].status])
    decreases |statuses|
  {
    if statuses != [] {
      var prefix := statuses[..|statuses| - 1];
      var last := statuses[|statuses| - 1];
      HistogramCounts(prefix);
      assert statuses == prefix + [last];
      assert forall s :: s in statuses <==> s in prefix || s == last;
      var h := Histogram(prefix);
      var h' := Histogram(statuses);
      match FindStatus(h, last)
      case None =>
        assert h' == h + [StatusCount(last, 1)];
        assert last !in prefix;
        assert forall i :: 0 <= i < |h'| ==> h'[i].count == multiset(statuses)[h'[i].status] by {
          forall i | 0 <= i < |h'| ensures h'[i].count == multiset(statuses)[h'[i].status] {
            if i < |h| {
              assert h'[i] == h[i];
            }
          }
        }
        assert forall s :: s in statuses <==> exists i :: 0 <= i < |h'| && h'[i].status == s by {
          forall s | s in statuses ensures exists i :: 0 <= i < |h'| && h'[i].status == s {
            if s == last {
              assert h'[|h|].status == s;
            } else {
              var i :| 0 <= i < |h| && h[i].status == s;
              assert h'[i].status == s;
            }
          }
          forall s | exists i :: 0 <= i < |h'| && h'[i].status == s ensures s in statuses {
            var i :| 0 <= i < |h'| && h'[i].status == s;
            if i < |h| {
              assert h[i].status == s;
            }
          }
        }
      case Some(k) =>
        assert h' == h[k := StatusCount(last, h[k].count + 1)];
        assert forall s :: s in statuses <==> exists i :: 0 <= i < |h'| && h'[i].status == s by {
          forall s | s in statuses ensures exists i :: 0 <= i < |h'| && h'[i].status == s {
            if s == last {
              assert h'[k].status == s;
            } else {
              var i :| 0 <= i < |h| && h[i].status == s;
              assert h'[i].status == s;
            }
          }
          forall s | exists i :: 0 <= i < |h'| && h'[i].status == s ensures s in statuses {
            var i :| 0 <= i < |h'| && h'[i].status == s;
            assert h[i].status == s;
          }
        }
    }
  }

  function SumStatusCounts(h: seq<StatusCount>): nat {
    if h == [] then 0 else h[0].count + SumStatusCounts(h[1..])
  }

  lemma {:induction false} SumStatusCountsAppend(a: seq<StatusCount>, b: seq<StatusCount>)
    ensures SumStatusCounts(a + b) == SumStatusCounts(a) + SumStatusCounts(b)
  {
    if a == [] {
      assert a + b == b;
    } else {
      assert (a + b)[1..] == a[1..] + b;
      SumStatusCountsAppend(a[1..], b);
    }
  }

  lemma {:induction false} SumStatusCountsIncrement(h: seq<StatusCount>, k: nat, status: string)
    requires k < |h|
    ensures SumStatusCounts(h[k := StatusCount(status, h[k].count + 1)]) == SumStatusCounts(h) + 1
  {
    if k > 0 {
      assert h[k := StatusCount(status, h[k].count + 1)][1..] == h[1..][k - 1 := StatusCount(status, h[k].count + 1)];
      SumStatusCountsIncrement(h[1..], k - 1, status);
    }
  }

  /** Every candidate is counted once: the histogram's counts add up to the number of candidates. */
  lemma {:induction false} HistogramSum(statuses: seq<string>)
    ensures SumStatusCounts(Histogram(statuses)) == |statuses|
    decreases |statuses|
  {
    if statuses != [] {
      var prefix := statuses[..|statuses| - 1];
      var last := statuses[|statuses| - 1];
      HistogramSum(prefix);
      var h := Histogram(prefix);
      match FindStatus(h, last)
      case None =>
        SumStatusCountsAppend(h, [StatusCount(last, 1)]);
        assert SumStatusCounts([StatusCount(last, 1)]) == 1;
      case Some(k) =>
        SumStatusCountsIncrement(h, k, last);
    }
  }

  /**
   * The `reduce` over the candidates: each candidate's status (Applied when
   * missing) is counted into the accumulator in place.
   */
  method CandidateStatusCounts(candidates: seq<Candidate>) returns (acc: seq<StatusCount>)
    ensures acc == Histogram(CountedStatuses(candidates))
  {
    acc := [];
    var i := 0;
    while i < |candidates|
      invariant 0 <= i <= |candidates|
      invariant acc == Histogram(CountedStatuses(candidates)[..i])
    {
      var status := CountedStatus(candidates[i]);
      var k := 0;
      while k < |acc| && acc[k].status != status
        invariant 0 <= k <= |acc|
        invariant forall j :: 0 <= j < k ==> acc[j].status != status
      {
        k := k + 1;
      }
      assert CountedStatuses(candidates)[..i + 1] == CountedStatuses(candidates)[..i] + [status];
      if k < |acc| {
        assert FindStatus(acc, status) == Some(k) by {
          FirstStatusIsFound(acc, status, k);
        }
        acc := acc[k := StatusCount(status, acc[k].count + 1)];
      } else {
        acc := acc + [StatusCount(status, 1)];
      }
      i := i + 1;
    }
    assert CountedStatuses(candidates)[..i] == CountedStatuses(candidates);
  }

  lemma {:induction false} FirstStatusIsFound(acc: seq<StatusCount>, status: string, k: nat)
    requires k < |acc| && acc[k].status == status
    requires forall j :: 0 <= j < k ==> acc[j].status != status
    ensures FindStatus(acc, status) == Some(k)
  {
    if k > 0 {
      FirstStatusIsFound(acc[1..], status, k - 1);
    }
  }

  /** The metrics `calculateMetrics` computes from the four lists. */
  ghost predicate MetricsOf(m: Metrics, employees: seq<Employee>, departments: seq<Department>,
                            candidates: seq<Candidate>, salaries: seq<Salary>) {
    && m.totalEmployees == |employees|
    && m.totalDepartments == |departments|
    && m.totalCandidates == |candidates|
    && m.activeCandidates == |Filter(candidates, IsActiveCandidate)|
    && m.totalPayroll == TotalPayroll(salaries)
    && m.averageSalary == AverageSalary(salaries)
    && m.departmentStats == DepartmentStats(departments, employees)
    && m.candidateStatus == Histogram(CountedStatuses(candidates))
  }

  /** What the dashboard's metrics promise: the active candidates and the head counts are bounded by the totals, and the histogram counts every candidate once. */
  lemma MetricsConsistent(m: Metrics, employees: seq<Employee>, departments: seq<Department>,
                          candidates: seq<Candidate>, salaries: seq<Salary>)
    requires MetricsOf(m, employees, departments, candidates, salaries)
    requires forall i, j :: 0 <= i < j < |departments| ==> departments[i].id != departments[j].id
    ensures m.activeCandidates <= m.totalCandidates
    ensures SumCounts(m.departmentStats) <= m.totalEmployees
    ensures SumStatusCounts(m.candidateStatus) == m.totalCandidates
  {
    DepartmentCountsBounded(departments, employees);
    HistogramSum(CountedStatuses(candidates));
  }

  class DashboardComponent {
    const store: Store
    var isLoading: bool
    var metrics: Metrics
    var notice: Notice

    constructor (store: Store)
      ensures this.store == store && isLoading && metrics == InitialMetrics && notice == NoNotice
    {
      this.store := store;
      isLoading := true;
      metrics := InitialMetrics;
      notice := NoNotice;
    }

    /** `calculateMetrics`: writes each metric from the four lists; the two date-window lists are left as they were. */
    method CalculateMetrics(employees: seq<Employee>, departments: seq<Department>,
                            candidates: seq<Candidate>, salaries: seq<Salary>)
      modifies this
      ensures MetricsOf(metrics, employees, departments, candidates, salaries)
      ensures isLoading == old(isLoading) && notice == old(notice)
    {
      metrics := metrics.(totalEmployees := |employees|);
      metrics := metrics.(totalDepartments := |departments|);
      metrics := metrics.(totalCandidates := |candidates|);
      metrics := metrics.(activeCandidates := |Filter(candidates, IsActiveCandidate)|);
      var totalSalary := TotalPayroll(salaries);
      metrics := metrics.(totalPayroll := totalSalary);
      metrics := metrics.(averageSalary := if |salaries| > 0 then totalSalary / |salaries| as real else 0.0);
      metrics := metrics.(departmentStats := DepartmentStats(departments, employees));
      var statusCounts := CandidateStatusCounts(candidates);
      metrics := metrics.(candidateStatus := statusCounts);
    }

    /** `loadDashboardData`: reads the four lists together and computes the metrics; a failure is reported. Loading ends either way. */
    method LoadDashboardData(step: Step)
      modifies this
      ensures !isLoading
      ensures step.Fail? ==> metrics == old(metrics) && notice == ErrorNotice("Failed to load dashboard data")
      ensures step.Ok? ==>
        && MetricsOf(metrics, store.db.employees, store.db.departments, store.db.candidates,
                     SalaryService.GetSalaries(store.db.salaries))
        && notice == old(notice)
    {
      isLoading := true;
      if step.Ok? {
        CalculateMetrics(store.db.employees, store.db.departments, store.db.candidates,
                         SalaryService.GetSalaries(store.db.salaries));
      } else {
        notice := ErrorNotice("Failed to load dashboard data");
      }
      isLoading := false;
    }
  }
}

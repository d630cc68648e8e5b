# HR management front-end: a verified model

This project models the core of an Angular human-resources application. The application manages four collections: departments, employees, job candidates and salary records. They live in an in-memory web backend, which hands out ids with `genId` and is seeded by `createDb`. The model covers the following, with their contracts proved in Dafny:

- The services that read and write those collections. Salary records get their derived gross, tax and net amounts. Candidates get their defaults, their status updates and the hiring chain. Departments get their defaults, their deletion and the join with their managers.
- The pages built on those services:
  - the list pages with their search and filter panels;
  - the detail pages with their badges, counters and actions;
  - the employee, salary and hire forms;
  - the dashboard's metrics.
- The `initials` pipe.

## How the model is laid out

- **Shared definitions.**
  - `common.dfy`: `Wrappers` (`Option`, `Result`), `Seqs` (order-preserving filter, distinct elements, stable sort) and `Text` (ASCII case mapping, `includes`, `trim`, `split`, `parseInt` and number printing). These are helpers for the rest.
  - `models.dfy`: the four record types, and JavaScript truthiness of optional fields.
  - `ui.dfy`: the snackbar notice and the route a page navigates to.
- **The backend.**
  - `in_memory_data.dfy`: the four collections, as sequences. Their operations are `genId`, lookup by id, POST (stamp the next id and append), PUT (replace the first record with the id, or append) and DELETE (remove the first record with the id). The seed data is here too, with `Db.Valid()`: ids distinct in every collection.
  - `backend.dfy`: the `Store` object that holds the database, the outcome of one request (`Step`: succeeded, or failed with a message), and the reply of a service call.
- **Services.** `salary_service.dfy`, `candidate_service.dfy`, `department_service.dfy` and `employee_service.dfy`. Each call is a function from the database and the request's outcome to a reply holding the new database and the result. Every write keeps `Db.Valid()`.
- **Pages.** One file per page. A component is a `class` whose fields are the page's state (the loaded records, the table's rows, the filter values, loading flags, the last notice and the last navigation). Its methods update those fields as the component does, and each method states the whole new state. The pure helpers a page uses (`getDepartmentName`, the badge colours, the counters, the tenure text, the metrics) are functions with lemmas.

Some things are parameters of the model rather than values it computes:
- the outcome of each request;
- the confirmation dialog's answer;
- today's date;
- JavaScript's `Number.prototype.toString`.

## Model

| member | source | states |
|---|---|---|
| Models.AmountOrZero | src/app/features/dashboard/dashboard/dashboard.component.ts:93 | `x || 0` on an optional amount is the amount when present and 0 otherwise |
| Models.TextOr | src/app/features/dashboard/dashboard/dashboard.component.ts:130 | `s || fallback` yields the text when it is present and non-empty, else the fallback |
| InMemoryData.MaxOf | src/app/core/services/in-memory-data.service.ts:9 | the largest id is one of the ids and no id exceeds it |
| InMemoryData.GenId | src/app/core/services/in-memory-data.service.ts:8-10 | 1 for an empty collection; otherwise one more than an id of the collection and larger than every id |
| InMemoryData.GenIdOrderIndependent | src/app/core/services/in-memory-data.service.ts:8-10 | collections holding the same ids get the same next id, whatever their order |
| InMemoryData.IdsOf | src/app/core/services/in-memory-data.service.ts:9 | one id per record, in order |
| InMemoryData.FindIndex | src/app/core/services/in-memory-data.service.ts:9 | none exactly when no record has the id; otherwise the first position holding it |
| InMemoryData.FindById | src/app/core/services/in-memory-data.service.ts:9 | none exactly when no record has the id; otherwise a stored record carrying it |
| InMemoryData.Put | src/app/core/services/in-memory-data.service.ts:12-70 | a PUT stores the record: length unchanged when the id exists, else one more; records with other ids untouched; distinct ids preserved |
| InMemoryData.FindAfterPut | src/app/core/services/in-memory-data.service.ts:12-70 | after a PUT of a record, looking up its id finds exactly that record |
| InMemoryData.Delete | src/app/core/services/in-memory-data.service.ts:12-70 | a DELETE removes one record exactly when the id exists, keeps every record with another id, adds none, and with distinct ids leaves no record with the id |
| InMemoryData.AppendFresh | src/app/core/services/in-memory-data.service.ts:8-10 | a record stamped with the next id is new to the collection and keeps the ids distinct |
| InMemoryData.PostCandidate | src/app/core/services/in-memory-data.service.ts:8-10 | a POST stamps the next id, appends the record at the end and keeps ids distinct |
| InMemoryData.PostDepartment | src/app/core/services/in-memory-data.service.ts:8-10 | a POST stamps the next id, appends the record at the end and keeps ids distinct |
| InMemoryData.PostEmployee | src/app/core/services/in-memory-data.service.ts:8-10 | a POST stamps the next id, appends the record at the end and keeps ids distinct |
| InMemoryData.PostSalary | src/app/core/services/in-memory-data.service.ts:8-10 | a POST stamps the next id, appends the record at the end and keeps ids distinct |
| InMemoryData.SeedIdsConsecutive | src/app/core/services/in-memory-data.service.ts:12-70 | the seeded ids of every collection run 1, 2, 3, ... so the initial database is valid |
| InMemoryData.SeedReferences | src/app/core/services/in-memory-data.service.ts:50-67 | every seeded salary belongs to a seeded employee and every seeded candidate applied to a seeded department |
| SalaryService.CalculateTax | src/app/core/services/salary.service.ts:141-143 | the tax is one fifth of the gross amount |
| SalaryService.CalculateNetAmount | src/app/core/services/salary.service.ts:148-150 | net plus tax is the gross amount |
| SalaryService.EnsureCalculatedFields | src/app/core/services/salary.service.ts:121-136 | gross, tax and net are filled in and consistent with base amount and bonus; every other field, bonus included, is kept |
| SalaryService.EnsureCalculatedFieldsIdempotent | src/app/core/services/salary.service.ts:121-136 | deriving the amounts twice is the same as deriving them once |
| SalaryService.DerivedAmountsSplitGross | src/app/core/services/salary.service.ts:121-143 | derived amounts split the gross into tax and net, net being four fifths of gross and gross base plus bonus |
| SalaryService.PrepareForSave | src/app/core/services/salary.service.ts:78-81 | a missing or zero bonus is sent as 0, the derived amounts are filled in, and no other field changes |
| SalaryService.AddSalary | src/app/core/services/salary.service.ts:77-86 | a failure leaves the store alone; a success appends the prepared record under an id larger than every stored one and replies with it |
| SalaryService.UpdateSalary | src/app/core/services/salary.service.ts:91-100 | a failure leaves the store alone; a success PUTs the prepared record under its id and replies with it |
| SalaryService.GetSalaries | src/app/core/services/salary.service.ts:19-23 | one record per stored record, in order, each with its derived amounts and otherwise unchanged |
| SalaryService.GetSalary | src/app/core/services/salary.service.ts:28-32 | none exactly when no record has the id; otherwise a stored record with that id, derived amounts filled in |
| SalaryService.SalariesByEmployee | src/app/core/services/salary.service.ts:37-45 | exactly the records of the employee, in their original order |
| SalaryService.NewerOrSameIsTotalPreorder | src/app/core/services/salary.service.ts:58-62 | the newest-first comparator is a total preorder, so sorting by it is well defined |
| SalaryService.SortNewestFirst | src/app/core/services/salary.service.ts:58-62 | a permutation of the records ordered by non-increasing effective date |
| SalaryService.LatestIndex | src/app/core/services/salary.service.ts:58-65 | the first position holding the latest effective date |
| SalaryService.SortNewestFirstHead | src/app/core/services/salary.service.ts:58-65 | the head of the sorted copy is the first record, in store order, with the latest date (the sort is stable) |
| SalaryService.CurrentSalary | src/app/core/services/salary.service.ts:49-72 | none exactly for no records; otherwise a record with the latest effective date, the first such in store order |
| SalaryService.StoredRecordsOfEmployee | src/app/core/services/salary.service.ts:37-45 | each stored record of the employee appears, with derived amounts, among the records the service returns for that employee |
| SalaryService.CurrentSalaryForEmployee | src/app/core/services/salary.service.ts:49-72 | a failed read is caught and gives none; otherwise it is the current salary of the employee's records, none exactly when the employee has no record, and else a stored record of that employee with its derived amounts recomputed, no earlier than any of the employee's records |
| CandidateService.SearchCandidates | src/app/core/services/candidate.service.ts:40-51 | a blank term returns every candidate; otherwise the candidates whose lower-cased name, position or e-mail contains the lower-cased term, in order, each as often as it is stored and no other |
| CandidateService.WithApplicationDefaults | src/app/core/services/candidate.service.ts:53-58 | a falsy status becomes Applied and a falsy application date becomes now; every other field is kept |
| CandidateService.AddCandidate | src/app/core/services/candidate.service.ts:53-60 | a failure leaves the store alone; a success appends the defaulted candidate under a fresh id, whose status is never empty |
| CandidateService.UpdateCandidateStatus | src/app/core/services/candidate.service.ts:62-69 | an unknown id fails (the backend answers 404); a failed PUT changes nothing; otherwise the candidate is PUT with the new status and the other collections are untouched |
| CandidateService.UpdateCandidateStatusWrites | src/app/core/services/candidate.service.ts:62-69 | after a successful update the candidate with that id has the new status and every other candidate is unchanged |
| CandidateService.PutReplacesAtFirst | src/app/core/services/candidate.service.ts:66 | a PUT replaces the first record carrying the id, in place |
| CandidateService.HiredEmployee | src/app/core/services/candidate.service.ts:93-99 | the new employee takes name, e-mail and applied department from the candidate, the given position, and today as hire date |
| CandidateService.HireSalary | src/app/core/services/candidate.service.ts:103-111 | the new salary belongs to the new employee, carries the given amounts, takes effect now, is a raise and notes the candidate id |
| CandidateService.HireCandidate | src/app/core/services/candidate.service.ts:79-122 | the hiring chain keeps the ids of every collection distinct |
| CandidateService.HireWithoutDepartmentWritesNothing | src/app/core/services/candidate.service.ts:86-88 | a candidate without an applied department is refused before anything is written |
| CandidateService.HireStepsInOrder | src/app/core/services/candidate.service.ts:90-117 | an employee is created only after the status update succeeded, a salary only after the employee was created, and departments never change |
| CandidateService.HireSucceeds | src/app/core/services/candidate.service.ts:79-122 | when every step succeeds the candidate is Hired, the employee is appended with a fresh id and the candidate's data, and its salary is appended with the given base amount, bonus (0 when missing) and frequency, effective now |
| CandidateService.HireEmployeeFailureLeavesCandidateHired | src/app/core/services/candidate.service.ts:91-101 | a failing employee step reports its error and leaves the candidate Hired with no employee and no salary created: there is no rollback |
| CandidateService.HireStatusFailureWritesNothing | src/app/core/services/candidate.service.ts:91-92 | a failing status step ends the chain with its error and the store unchanged, whatever the later steps would do |
| CandidateService.HireSalaryFailureKeepsEarlierWrites | src/app/core/services/candidate.service.ts:101-115 | a failing salary step reports its error but keeps the created employee: there is no rollback |
| DepartmentService.WithDepartmentDefaults | src/app/core/services/department.service.ts:29-33 | a falsy budget becomes 0 and a falsy description becomes empty; every other field is kept |
| DepartmentService.WithDepartmentDefaultsIdempotent | src/app/core/services/department.service.ts:29-33 | applying the defaults twice is applying them once |
| DepartmentService.AddDepartment | src/app/core/services/department.service.ts:27-35 | a failure leaves the store alone; a success appends the defaulted department under a fresh id, with a budget and a description |
| DepartmentService.DeleteDepartment | src/app/core/services/department.service.ts:41-43 | a failure leaves the store alone; a success deletes the department and leaves no department with that id |
| DepartmentService.ManagerName | src/app/core/services/department.service.ts:53-56 | Not assigned for a falsy manager id or an unknown manager; otherwise the name of the first employee carrying the id |
| DepartmentService.DepartmentsWithManagers | src/app/core/services/department.service.ts:46-61 | one entry per department, in order, each keeping the department and naming its manager |
| DepartmentService.ManagerNameIsFirstMatch | src/app/core/services/department.service.ts:53 | the manager named is the first employee whose id is the manager id |
| EmployeeService.AddEmployee | src/app/core/services/employee.service.ts:15-17 | a failure leaves the store alone; a success appends the employee under an id larger than every stored one |
| Backend.PutOutcome | src/app/core/services/employee.service.ts:29-31 | a PUT for a record without an id goes to `.../null` and is refused whatever the network does; a record with an id gets the request's own outcome |
| EmployeeService.UpdateEmployee | src/app/core/services/employee.service.ts:29-31 | a failure leaves the store alone; a success PUTs the employee under its id |
| EmployeeService.EmployeesIn | src/app/features/departments/department-detail/department-detail.component.ts:65-72 | exactly the employees of the department, in their original order |
| EmployeeList.DepartmentName | src/app/features/employees/employee-list/employee-list.component.ts:158-164 | Unassigned for a zero id or an unknown department, otherwise the name of the department with that id |
| EmployeeList.EmployeeRows | src/app/features/employees/employee-list/employee-list.component.ts:95-98 | one row per employee, in order, carrying its department name |
| EmployeeList.ListedPositions | src/app/features/employees/employee-list/employee-list.component.ts:114-116 | exactly the positions that are present and not blank |
| EmployeeList.ExtractPositionOptions | src/app/features/employees/employee-list/employee-list.component.ts:113-118 | exactly the listed positions, each once, in ascending order |
| EmployeeList.DepartmentFilterSelectsDepartment | src/app/features/employees/employee-list/employee-list.component.ts:131-132 | choosing a department by its id keeps exactly the employees of that department |
| EmployeeList.NoFiltersKeepEveryRow | src/app/features/employees/employee-list/employee-list.component.ts:120-139 | with no filter set every row is shown |
| EmployeeList.EmployeeListComponent.LoadEmployees | src/app/features/employees/employee-list/employee-list.component.ts:82-111 | departments then employees are loaded; each failure is reported; on success every employee is shown with its department name and the position options are extracted |
| EmployeeList.EmployeeListComponent.ApplyFilters | src/app/features/employees/employee-list/employee-list.component.ts:120-145 | the table shows the rows the filters keep, in their original order, each as often as in the full list and no other row |
| EmployeeList.EmployeeListComponent.ResetFilters | src/app/features/employees/employee-list/employee-list.component.ts:147-156 | the filters are cleared and every row is shown again |
| DepartmentList.TruthyLocations | src/app/features/departments/department-list/department-list.component.ts:81 | exactly the non-empty locations |
| DepartmentList.TruthyLocationsAppend | src/app/features/departments/department-list/department-list.component.ts:81 | the non-empty locations of two lists are those of the first followed by those of the second; one department contributes its location exactly when it is not empty |
| DepartmentList.LocationOptions | src/app/features/departments/department-list/department-list.component.ts:80-83 | exactly the non-empty locations, each once, in the order of their first appearance |
| DepartmentList.RowMatchesAsWritten | src/app/features/departments/department-list/department-list.component.ts:93-109 | the row filter as written throws exactly when a department without a budget misses the search term on name, location and manager |
| DepartmentList.ApplyFiltersAsWritten | src/app/features/departments/department-list/department-list.component.ts:85-110 | the filter as written throws exactly when some row throws |
| DepartmentList.UnbudgetedRowThrows | src/app/features/departments/department-list/department-list.component.ts:95-99 | a department without a budget throws for a term it does not contain |
| DepartmentList.MissingBudgetThrows | src/app/features/departments/department-list/department-list.component.ts:95-99 | a list holding such a department makes the whole filter throw |
| DepartmentList.CorrectedAgreesWhereNoThrow | src/app/features/departments/department-list/department-list.component.ts:93-110 | wherever the filter as written does not throw, it keeps exactly what the corrected filter keeps |
| DepartmentList.NoFiltersKeepEveryRow | src/app/features/departments/department-list/department-list.component.ts:117-122 | with no filter set every department is shown, with or without a budget |
| DepartmentList.DepartmentListComponent.LoadDepartments | src/app/features/departments/department-list/department-list.component.ts:66-78 | a failure is reported; on success the joined departments are shown unfiltered with their location options |
| DepartmentList.DepartmentListComponent.ApplyFilters | src/app/features/departments/department-list/department-list.component.ts:85-115 | the table shows the departments the corrected filters keep, in their original order, each as often as in the full list and no other department |
| DepartmentList.DepartmentListComponent.ResetFilters | src/app/features/departments/department-list/department-list.component.ts:117-123 | the filters are cleared and every department is shown again |
| SalaryList.DepartmentName | src/app/features/salaries/salary-list/salary-list.component.ts:200-203 | Unassigned for an unknown department, otherwise the name of the department with that id |
| SalaryList.EnrichRow | src/app/features/salaries/salary-list/salary-list.component.ts:113-123 | the salary is kept, and the employee name, position, department name and department id come from its employee, with Unknown, - and none when absent |
| SalaryList.EnrichSalaries | src/app/features/salaries/salary-list/salary-list.component.ts:113-124 | one enriched row per salary, in order |
| SalaryList.TruthyPositions | src/app/features/salaries/salary-list/salary-list.component.ts:109 | exactly the non-empty positions of the employees |
| SalaryList.TruthyPositionsAppend | src/app/features/salaries/salary-list/salary-list.component.ts:109 | the non-empty positions of two lists are those of the first followed by those of the second; one employee contributes its position exactly when it is truthy |
| SalaryList.PositionOptions | src/app/features/salaries/salary-list/salary-list.component.ts:109-110 | exactly the non-empty positions, each once, in the order of their first appearance |
| SalaryList.NoFiltersMatchEveryRow | src/app/features/salaries/salary-list/salary-list.component.ts:139-158 | with no filter set every row matches, because the empty term occurs in every text |
| SalaryList.SalaryListComponent.LoadSalaries | src/app/features/salaries/salary-list/salary-list.component.ts:95-130 | a failure is reported; on success the department and position options and the enriched rows are shown |
| SalaryList.SalaryListComponent.ApplyFilters | src/app/features/salaries/salary-list/salary-list.component.ts:132-164 | the table shows the rows the filters keep, in their original order, each as often as in the full list and no other row |
| SalaryList.SalaryListComponent.ResetFilters | src/app/features/salaries/salary-list/salary-list.component.ts:166-173 | the filters are cleared and every row is shown again |
| SalaryForm.DerivedAmounts | src/app/features/salaries/salary-form/salary-form.component.ts:114-122 | gross is base plus bonus (missing counting as 0), tax a fifth of gross, and net plus tax is gross |
| SalaryForm.DerivedAmountsAgreeWithService | src/app/features/salaries/salary-form/salary-form.component.ts:110-131 | the amounts the form shows are the amounts the salary service stores for the same base and bonus |
| SalaryForm.SalaryOf | src/app/features/salaries/salary-form/salary-form.component.ts:136 | the record submitted carries every control of the form, disabled derived amounts included |
| SalaryForm.SalaryFormComponent.CalculateDerived | src/app/features/salaries/salary-form/salary-form.component.ts:110-131 | a re-entrant call does nothing; otherwise the three derived controls receive the derived amounts and nothing else changes |
| SalaryForm.SalaryFormComponent.NgOnInit | src/app/features/salaries/salary-form/salary-form.component.ts:59-84 | a route id means edit mode; an employee id alone preselects the employee and prefills previous salary id and base amount from the employee's first record, or reports that the previous salary data failed to load |
| SalaryForm.SalaryFormComponent.OnSubmit | src/app/features/salaries/salary-form/salary-form.component.ts:133-157 | an invalid form does nothing; a valid one is updated in edit mode and added otherwise; in edit mode a form without an id is refused by the backend; success reports and goes to the salary list, failure reports and clears loading |
| EmployeeForm.EmployeeOf | src/app/features/employees/employee-form/employee-form.component.ts:100-125 | the employee submitted carries every value of the form: id (0 when absent), name, e-mail, department, hire date, position, status, employment type, phone, address, date of birth and emergency contact |
| EmployeeForm.SalaryOf | src/app/features/employees/employee-form/employee-form.component.ts:127-151 | the salary created belongs to the saved employee and carries the salary section's values |
| EmployeeForm.EmployeeFormComponent.NgOnInit | src/app/features/employees/employee-form/employee-form.component.ts:66-77 | a route id means edit mode; no route id shows the salary section |
| EmployeeForm.EmployeeFormComponent.OnSubmit | src/app/features/employees/employee-form/employee-form.component.ts:100-125 | nothing happens unless the forms are valid; an edit PUTs the employee, and one without an id is refused by the backend; a creation POSTs it and then its salary when the section is shown; failures are reported; other collections are untouched |
| EmployeeForm.EmployeeFormComponent.CreateSalaryForEmployee | src/app/features/employees/employee-form/employee-form.component.ts:127-151 | the section's salary is added for the saved employee, the outcome reported, and the page goes to the employee list |
| HireCandidate.HireEmployeeRecord | src/app/features/candidates/hire-candidate/hire-candidate.component.ts:92-107 | the employee takes name, e-mail, phone, position and applied department (0 when none) from the candidate, is active, full-time and hired today, with the personal fields from the form |
| HireCandidate.HireSalaryRecord | src/app/features/candidates/hire-candidate/hire-candidate.component.ts:110-117 | the salary has no bonus and takes base amount, frequency, date and notes from the form |
| HireCandidate.HireCandidateComponent.OnSubmit | src/app/features/candidates/hire-candidate/hire-candidate.component.ts:86-158 | employee, then salary, then status are written in that order, each only after the previous success; each failure reports its message and keeps earlier writes; a failed status update is reported as a success |
| Dashboard.TotalPayrollAppend | src/app/features/dashboard/dashboard/dashboard.component.ts:93 | the payroll of two lists one after the other is the sum of their payrolls |
| Dashboard.TotalPayrollPermutation | src/app/features/dashboard/dashboard/dashboard.component.ts:93 | the payroll does not depend on the order of the records |
| Dashboard.TotalPayrollNonNegative | src/app/features/dashboard/dashboard/dashboard.component.ts:93 | without negative base amounts the payroll is not negative |
| Dashboard.AverageSalary | src/app/features/dashboard/dashboard/dashboard.component.ts:95 | 0 without records; otherwise the average times the number of records is the payroll |
| Dashboard.DepartmentStats | src/app/features/dashboard/dashboard/dashboard.component.ts:98-102 | one entry per department, in order, with its name, the number of its employees and its budget (0 when missing) |
| Dashboard.EmployeesInAnyAdd | src/app/features/dashboard/dashboard/dashboard.component.ts:100 | counting one more department adds exactly its employees |
| Dashboard.SumCountsIsEmployeesInAny | src/app/features/dashboard/dashboard/dashboard.component.ts:98-102 | with distinct department ids the head counts add up to the employees of those departments |
| Dashboard.DepartmentCountsBounded | src/app/features/dashboard/dashboard/dashboard.component.ts:98-102 | with distinct department ids the head counts add up to at most the number of employees |
| Dashboard.CountedStatuses | src/app/features/dashboard/dashboard/dashboard.component.ts:130 | one counted status per candidate, Applied when its own is missing or empty |
| Dashboard.FindStatus | src/app/features/dashboard/dashboard/dashboard.component.ts:131 | none exactly when the histogram has no entry for the status, otherwise its entry |
| Dashboard.HistogramCounts | src/app/features/dashboard/dashboard/dashboard.component.ts:129-138 | one entry per distinct status, exactly the statuses that occur, each counting its occurrences |
| Dashboard.SumStatusCountsAppend | src/app/features/dashboard/dashboard/dashboard.component.ts:135-138 | the counts of two histograms together add up |
| Dashboard.SumStatusCountsIncrement | src/app/features/dashboard/dashboard/dashboard.component.ts:131 | raising one entry raises the total by one |
| Dashboard.HistogramSum | src/app/features/dashboard/dashboard/dashboard.component.ts:129-138 | the histogram counts every candidate exactly once |
| Dashboard.CandidateStatusCounts | src/app/features/dashboard/dashboard/dashboard.component.ts:129-138 | the loop builds the histogram of the candidates' counted statuses |
| Dashboard.FirstStatusIsFound | src/app/features/dashboard/dashboard/dashboard.component.ts:131 | the search finds the first entry with the status |
| Dashboard.MetricsConsistent | src/app/features/dashboard/dashboard/dashboard.component.ts:78-139 | active candidates never exceed all candidates, department head counts never exceed all employees, and the status counts sum to the candidates |
| Dashboard.DashboardComponent.CalculateMetrics | src/app/features/dashboard/dashboard/dashboard.component.ts:78-139 | every metric is computed from the four lists |
| Dashboard.DashboardComponent.LoadDashboardData | src/app/features/dashboard/dashboard/dashboard.component.ts:60-76 | a failure is reported and keeps the metrics; success computes them from the store; loading ends either way |
| SalaryDetail.SalaryHistory | src/app/features/salaries/salary-detail/salary-detail.component.ts:63-65 | exactly the records other than the displayed one, newest first |
| SalaryDetail.NotCurrentLength | src/app/features/salaries/salary-detail/salary-detail.component.ts:64 | with distinct ids leaving out one id removes one record when some record has it and none otherwise |
| SalaryDetail.HistoryLength | src/app/features/salaries/salary-detail/salary-detail.component.ts:63-65 | with distinct ids the history holds every record of the list except the displayed one |
| SalaryDetail.FilterKeepsUniqueIds | src/app/features/salaries/salary-detail/salary-detail.component.ts:64 | filtering keeps ids distinct |
| SalaryDetail.HistoryOfStoredSalary | src/app/features/salaries/salary-detail/salary-detail.component.ts:60-69 | the history of a displayed record holds the other records of its employee, one fewer when the displayed record is stored |
| SalaryDetail.SalaryDetailComponent.LoadRelated | src/app/features/salaries/salary-detail/salary-detail.component.ts:51-69 | the owner is loaded unless its request fails, the owner's other records newest first unless theirs fails, each failure reported, the history error last |
| SalaryDetail.SalaryDetailComponent.LoadSalary | src/app/features/salaries/salary-detail/salary-detail.component.ts:34-69 | an unknown or failed record is reported; otherwise the record, its employee and its history are loaded, each failure reported with its own message |
| DepartmentDetail.ActiveEmployeesCount | src/app/features/departments/department-detail/department-detail.component.ts:140-142 | at most the employees, and all of them exactly when each is Active or has no status |
| DepartmentDetail.ActiveEmployeesCountAppend | src/app/features/departments/department-detail/department-detail.component.ts:140-142 | the count of two lists is the sum of their counts, and one employee counts 1 exactly when it is Active or has no status: the count is the number of such employees |
| DepartmentDetail.ManagerCount | src/app/features/departments/department-detail/department-detail.component.ts:144-148 | at most the employees, and zero exactly when no position contains manager |
| DepartmentDetail.ManagerCountAppend | src/app/features/departments/department-detail/department-detail.component.ts:144-148 | the count of two lists is the sum of their counts, and one employee counts 1 exactly when its position contains manager: the count is the number of such employees |
| DepartmentDetail.EmployeeCountText | src/app/features/departments/department-detail/department-detail.component.ts:150-153 | the text ends in s exactly when the count is not 1 |
| DepartmentDetail.EmployeeCountTextReadsBack | src/app/features/departments/department-detail/department-detail.component.ts:150-153 | the text begins with the count: parsing it gives the count back |
| DepartmentDetail.DepartmentDetailComponent.LoadDepartment | src/app/features/departments/department-detail/department-detail.component.ts:39-72 | an unknown or failed department is reported and goes back to the list; otherwise the department, its manager and its employees are loaded |
| DepartmentDetail.DepartmentDetailComponent.OnDelete | src/app/features/departments/department-detail/department-detail.component.ts:90-120 | deletion is refused while employees are shown; otherwise, once confirmed, the department is deleted and the page goes to the list; the store changes only in that case |
| DepartmentDetail.GuardLeavesNoOrphans | src/app/features/departments/department-detail/department-detail.component.ts:92-96 | the employees shown are none exactly when no stored employee belongs to the department |
| EmployeeDetail.StatusColor | src/app/features/employees/employee-detail/employee-detail.component.ts:161-168 | no colour exactly for a status other than Active, On-Leave and Terminated |
| EmployeeDetail.StatusIcon | src/app/features/employees/employee-detail/employee-detail.component.ts:170-177 | the help icon exactly for a status other than Active, On-Leave and Terminated |
| EmployeeDetail.StatusBadgesAgree | src/app/features/employees/employee-detail/employee-detail.component.ts:161-177 | colour and icon agree on which statuses are known, and distinct known statuses look different |
| EmployeeDetail.EmploymentTypeIcon | src/app/features/employees/employee-detail/employee-detail.component.ts:179-186 | the generic icon exactly for a type other than Full-Time, Part-Time and Contract |
| EmployeeDetail.Terminated | src/app/features/employees/employee-detail/employee-detail.component.ts:103-106 | only the status changes, to Terminated |
| EmployeeDetail.Reactivated | src/app/features/employees/employee-detail/employee-detail.component.ts:121-124 | only the status changes, to Active |
| EmployeeDetail.ReactivateUndoesTerminate | src/app/features/employees/employee-detail/employee-detail.component.ts:103-124 | reactivating a terminated employee gives back an active employee unchanged |
| EmployeeDetail.TenureText | src/app/features/employees/employee-detail/employee-detail.component.ts:208-214 | the text begins with the years when there are any and with the months otherwise |
| EmployeeDetail.CorrectedParts | src/app/features/employees/employee-detail/employee-detail.component.ts:203-215 | whole years and remaining months add up to the months elapsed, months between 0 and 11 |
| EmployeeDetail.TenureAgreesWhenMonthNotBehind | src/app/features/employees/employee-detail/employee-detail.component.ts:203-215 | when today's month is not before the hire month the text as written is the intended one |
| EmployeeDetail.TenureOvercountsWhenMonthBehind | src/app/features/employees/employee-detail/employee-detail.component.ts:203-215 | when today's month is before the hire month the text as written counts one year too many |
| EmployeeDetail.TenureCounterexample | src/app/features/employees/employee-detail/employee-detail.component.ts:203-215 | hired in October 2020 and seen in January 2023, the text as written says 3 years, the intended 2 |
| EmployeeDetail.EmployeeDetailComponent.LoadEmployee | src/app/features/employees/employee-detail/employee-detail.component.ts:42-71 | an unknown or failed employee is reported and goes back to the list; otherwise the employee and its department are loaded (a failed department request keeps the previous one) and the salary becomes the current salary, none when that request fails |
| EmployeeDetail.EmployeeDetailComponent.OnViewSalary | src/app/features/employees/employee-detail/employee-detail.component.ts:79-87 | the current salary is opened when there is one, otherwise a new salary for the employee |
| EmployeeDetail.EmployeeDetailComponent.WriteStatus | src/app/features/employees/employee-detail/employee-detail.component.ts:107-111 | the changed employee is PUT; a failure is reported and changes nothing else; on success the page is reloaded: the employee, its department, its current salary and the success message, or the load error and the employee list when the reload fails |
| EmployeeDetail.EmployeeDetailComponent.OnTerminate | src/app/features/employees/employee-detail/employee-detail.component.ts:89-117 | once confirmed, the employee is PUT as Terminated; a failure is reported and changes nothing else; a success reloads the whole page as WriteStatus states; without confirmation or employee nothing changes |
| EmployeeDetail.EmployeeDetailComponent.OnReactivate | src/app/features/employees/employee-detail/employee-detail.component.ts:119-133 | the employee is PUT as Active; a failure is reported and changes nothing else; a success reloads the whole page as WriteStatus states; without an employee nothing changes |
| CandidateDetail.StatusColor | src/app/features/candidates/candidate-detail/candidate-detail.component.ts:128-136 | no colour exactly for a status other than Hired, Interviewed and Rejected |
| CandidateDetail.StatusIcon | src/app/features/candidates/candidate-detail/candidate-detail.component.ts:145-153 | the help icon exactly for a status other than the four known ones |
| CandidateDetail.StatusBadgesDistinguish | src/app/features/candidates/candidate-detail/candidate-detail.component.ts:128-153 | distinct known statuses get distinct icons and distinct coloured statuses distinct colours |
| CandidateDetail.CandidateDetailComponent.LoadCandidate | src/app/features/candidates/candidate-detail/candidate-detail.component.ts:39-62 | an unknown or failed candidate is reported and goes back to the list; otherwise the candidate and its department are loaded |
| CandidateDetail.CandidateDetailComponent.OnHire | src/app/features/candidates/candidate-detail/candidate-detail.component.ts:70-74 | only an interviewed candidate is taken to the hire page |
| CandidateDetail.CandidateDetailComponent.OnReject | src/app/features/candidates/candidate-detail/candidate-detail.component.ts:102-126 | once confirmed, the candidate is stored as Rejected; a failure is reported and changes nothing else; a success reloads the candidate and its department and reports success, or reports the load error and goes to the list when the reload fails; otherwise nothing changes |
| CandidateList.StatusesAreTheKnownOnes | src/app/features/candidates/candidate-list/candidate-list.component.ts:25-26 | the offered statuses are distinct and exactly those the badges know |
| CandidateList.DepartmentName | src/app/features/candidates/candidate-list/candidate-list.component.ts:156-160 | empty for a falsy or unknown id, otherwise the name of a department with that id |
| CandidateList.DepartmentNameOfUniqueIds | src/app/features/candidates/candidate-list/candidate-list.component.ts:156-160 | with distinct ids the name shown is that of the one department carrying the id |
| CandidateList.CandidateListComponent.HireCandidate | src/app/features/candidates/candidate-list/candidate-list.component.ts:204-208 | only an interviewed candidate is taken to the hire page |
| InitialsPipe.Transform | src/app/shared/pipes/initials.pipe.ts:8-26 | empty for no name; at most two capitals, the first from the first part and the last from the last part when there are several; exactly two when the name neither starts nor ends with a space and contains one, one for a name without spaces |

## Left out

- HTTP, rxjs and asynchrony. Requests are modelled as if they ran one after the other, in the order the callbacks run when each responds. A `forkJoin` is one request that succeeds or fails as a whole. Debouncing and `valueChanges` subscriptions are not modelled: filters are applied when a method is called.
- Dialogs, snackbars and the router. A confirmation dialog is a boolean parameter. A snackbar is recorded as the last notice shown, and a navigation as the last route. Durations, panel classes and `console` logging are not modelled.
- The wall clock. Today's date and the current time are parameters. Because they depend on the clock, the dashboard's recent hires, its upcoming anniversaries and `getDaysUntilAnniversary` are not modelled. Dates are calendar triples or integer keys. Time zones and date-string parsing are not modelled.
- Number formatting and random colours: `Intl` currency formatting, `toLocaleDateString`, `formatDate`, `formatBudget`, `formatCurrency` and `getRandomColor` (which uses `Math.random`).
- Floating point. Amounts are exact reals, so tax is exactly a fifth of gross. JavaScript rounding is not modelled.
- `Number.prototype.toString`, used by the department and salary searches, is a parameter `numberText`: its exact digits are not modelled.
- Text operations. Case mapping covers ASCII letters only, so non-ASCII letters such as ß or accented capitals keep their case. `parseInt` reads decimal digits only: hexadecimal prefixes are not modelled.
- Route parameters are taken as already converted to numbers (`+id`).
- Store shape. The in-memory web backend is modelled by its observable rules: find returns the first match, PUT replaces the first record with the id or appends (a PUT whose URL id is not the record's id, such as `.../null` for a record without id, is refused; the library that enforces this is not part of this model), POST stamps `genId`, DELETE removes the first match, and a lookup of an unknown id answers 404. The collections are sequences rather than maps because the pages show records in store order. `SalaryService.UpdateSalary` and `CandidateService.UpdateCandidateStatus` reply with the record they sent, while the in-memory backend answers a PUT with no body; the pages ignore the reply body and reload the record by id, and `HireCandidate` only checks that the request succeeded. The contract of `CandidateDetail.CandidateDetailComponent.OnReject` uses the returned record only as a name for the record written, which is the one the reload finds.
- Not modelled:
  - the delete actions of the employee, candidate and salary pages, and of the department list (only the department detail's deletion is modelled);
  - the `onEdit` navigations;
  - the forms' `loadEmployee`, `loadSalary` and `loadCandidate` patches of the edit forms;
  - `updateDepartment`, `updateCandidate`, `searchSalaries`, `getEmployeesByDepartment`, `getCandidatesByDepartment` and `getCandidatesByStatus`;
  - the candidate list's `loadData` and its server-side search, department and status filters (`applySearchFilter`, `applyDepartmentFilter`, `applyStatusFilter`);
  - Angular's e-mail validator (the form validators modelled are `required` and `min`).
- The salary list's department select is taken to hold the numeric department id.
- Dashboard.CandidateStatusCounts: entries come in order of first occurrence, which is what `Object.entries` gives for non-numeric keys. Statuses that look like integers, which `Object.entries` would list first, are not modelled, nor are keys inherited by a plain object.
- CandidateService.HireCandidate: its own contract states only that ids stay distinct. What the chain does is stated by the lemmas `HireWithoutDepartmentWritesNothing`, `HireStepsInOrder`, `HireSucceeds`, `HireStatusFailureWritesNothing`, `HireEmployeeFailureLeavesCandidateHired` and `HireSalaryFailureKeepsEarlierWrites`.
- InitialsPipe.Transform: it states the first and last letters, when there are two, and the length for every non-empty name that does not start with a space. For a name that starts with a space it states only that there is at most one letter, not which one.

## Findings

| source | as written | input that shows it | evidently intended | confidence | as-written member | corrected member |
|---|---|---|---|---|---|---|
| src/app/features/departments/department-list/department-list.component.ts:95-99 | the search calls `department.budget.toString()` whenever the name, location and manager miss the term, and that throws for a department without a budget (department-form.component.ts leaves the budget optional) | departments `[{id: 9, name: "Legal", location: "Floor 9", no budget, no manager}]`, search term "zzz" | a department without a budget is simply not matched by the budget text, as the budget-range filter on line 105 already treats a missing budget as 0 | not executed | DepartmentList.MissingBudgetThrows | DepartmentList.DepartmentListComponent.ApplyFilters |
| src/app/features/employees/employee-detail/employee-detail.component.ts:203-215 | years are the difference of calendar years and months the difference of calendar months, so the months can be negative and are then dropped while the year count stays | hired 1 October 2020, viewed 1 January 2023: 27 months elapsed, text "3 years " | whole years and the remaining months of the months elapsed: "2 years 3 months" | not executed | EmployeeDetail.TenureCounterexample | EmployeeDetail.CorrectedParts |

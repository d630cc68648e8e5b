/**
 * What a component shows and where it navigates, recorded as tags: the
 * snackbar message it opens and the router path it navigates to.
 */
module Ui {

  /** The last snackbar a component opened. */
  datatype Notice = NoNotice | SuccessNotice(message: string) | ErrorNotice(message: string)

  /** The last navigation a component requested. */
  datatype Route =
    | NotNavigated
    | EmployeesList                     // /employees
    | EmployeeView(employeeId: int)     // /employees/view/<id>
    | CandidateHire(candidateId: int)   // /candidates/hire/<id>
    | SalaryEdit(salaryId: int)         // /salaries/edit/<id>
    | SalaryNew(employeeId: int)        // /salaries/new?employeeId=<id>
    | DepartmentsList                   // /departments
    | SalariesList                      // /salaries
    | CandidatesList                    // /candidates
}

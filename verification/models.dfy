/**
 * The four record shapes of the HR application: candidates, departments,
 * employees and salary records. An optional field of the source (`field?: T`,
 * which may also hold `null`) is an `Option`. Status and adjustment-type
 * fields are open strings, because the seed data holds values outside the
 * declared unions.
 */
module Models {
  import opened Wrappers

  /** A job applicant. `status` is one of Applied, Interviewed, Hired, Rejected in the declared type. */
  datatype Candidate = Candidate(
    id: int,
    name: string,
    email: string,
    phone: string,
    appliedPosition: string,
    appliedDepartmentId: Option<int>,
    resume: Option<string>,
    status: Option<string>,
    applicationDate: Option<string>)

  datatype Department = Department(
    id: int,
    name: string,
    location: string,
    budget: Option<real>,
    managerId: Option<int>,
    description: Option<string>)

  /** A calendar date as `Date` reports it: full year, month 0 to 11, day of the month. */
  datatype CalendarDate = CalendarDate(year: int, month: int, day: int)

  /** An employee. `employmentType` is Full-Time, Part-Time or Contract and `status` Active, On-Leave or Terminated in the declared type. */
  datatype Employee = Employee(
    id: int,
    name: string,
    email: string,
    departmentId: int,
    phoneNumber: Option<string>,
    address: Option<string>,
    dateOfBirth: Option<string>,
    position: Option<string>,
    hireDate: Option<CalendarDate>,
    emergencyContact: Option<string>,
    emergencyContactPhone: Option<string>,
    employmentType: Option<string>,
    status: Option<string>)

  /**
   * A salary record. Amounts are exact reals. `effectiveDate` is the
   * record's date as an ordered key: only its order matters (the source
   * compares the milliseconds `getTime` gives; the seed data writes
   * 2023-01-01 as 20230101).
   * The three derived amounts are absent until the salary service fills them in.
   */
  datatype Salary = Salary(
    id: int,
    employeeId: int,
    baseAmount: real,
    bonus: Option<real>,
    grossAmount: Option<real>,
    taxDeductions: Option<real>,
    netAmount: Option<real>,
    paymentFrequency: string,
    effectiveDate: int,
    previousSalaryId: Option<int>,
    adjustmentType: Option<string>,
    notes: Option<string>)

  /** JavaScript truthiness of an optional string: present and not empty. */
  predicate TruthyText(s: Option<string>) {
    s.Some? && s.value != ""
  }

  /** JavaScript truthiness of an optional number: present and not zero. */
  predicate TruthyNumber(x: Option<real>) {
    x.Some? && x.value != 0.0
  }

  /** JavaScript truthiness of an optional id: present and not zero. */
  predicate TruthyId(x: Option<int>) {
    x.Some? && x.value != 0
  }

  /** `x || 0` for an optional amount: for numbers it is the same as `x ?? 0`. */
  function AmountOrZero(x: Option<real>): (r: real)
    ensures r == x.GetOr(0.0)
  {
    if TruthyNumber(x) then x.value else 0.0
  }

  /** `s || fallback` for an optional string. */
  function TextOr(s: Option<string>, fallback: string): (r: string)
    ensures TruthyText(s) ==> r == s.value
    ensures !TruthyText(s) ==> r == fallback
  {
    if TruthyText(s) then s.value else fallback
  }
}

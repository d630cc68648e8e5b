/**
 * The in-memory backend's data: the id generator `genId`, the seed
 * collections of `createDb`, and how a collection changes when a record is
 * created (POST) or replaced (PUT).
 */
module InMemoryData {
  import opened Wrappers
  import opened Models

  /** The largest of a non-empty sequence of ids. */
  function MaxOf(ids: seq<int>): (m: int)
    requires |ids| > 0
    ensures m in ids
    ensures forall i :: 0 <= i < |ids| ==> ids[i] <= m
  {
    if |ids| == 1 then ids[0]
    else
      var rest := MaxOf(ids[1..]);
      if ids[0] >= rest then ids[0] else rest
  }

  /** `genId`: one more than the largest id in the collection, or 1 when the collection is empty. */
  function GenId(ids: seq<int>): (r: int)
    ensures ids == [] ==> r == 1
    ensures ids != [] ==> r - 1 in ids
    ensures forall i :: 0 <= i < |ids| ==> ids[i] < r
  {
    if ids == [] then 1 else MaxOf(ids) + 1
  }

  /** The generated id depends only on which ids the collection holds, not on their order. */
  lemma GenIdOrderIndependent(a: seq<int>, b: seq<int>)
    requires multiset(a) == multiset(b)
    ensures GenId(a) == GenId(b)
  {
    var ra, rb := GenId(a), GenId(b);
    if a != [] {
      assert a[0] in multiset(b);
      assert ra - 1 in multiset(a) && rb - 1 in multiset(b);
      assert ra - 1 in b && rb - 1 in a;
    } else {
      assert |b| == |multiset(b)| == 0;
    }
  }

  /** The ids of a collection, in order. */
  function IdsOf<T>(s: seq<T>, idOf: T -> int): (ids: seq<int>)
    ensures |ids| == |s| && forall i :: 0 <= i < |s| ==> ids[i] == idOf(s[i])
  {
    seq(|s|, i requires 0 <= i < |s| => idOf(s[i]))
  }

  /** No two records of the collection share an id. */
  predicate UniqueIds<T>(s: seq<T>, idOf: T -> int) {
    forall i, j :: 0 <= i < j < |s| ==> idOf(s[i]) != idOf(s[j])
  }

  function CandidateId(c: Candidate): int { c.id }
  function DepartmentId(d: Department): int { d.id }
  function EmployeeId(e: Employee): int { e.id }
  function SalaryId(s: Salary): int { s.id }

  /** `collection.findIndex(r => r.id === id)`: the position of the first record with this id. */
  function FindIndex<T>(s: seq<T>, idOf: T -> int, id: int): (k: Option<nat>)
    ensures k.None? <==> forall i :: 0 <= i < |s| ==> idOf(s[i]) != id
    ensures k.Some? ==> k.value < |s| && idOf(s[k.value]) == id
    ensures k.Some? ==> forall i :: 0 <= i < k.value ==> idOf(s[i]) != id
  {
    if s == [] then None
    else if idOf(s[0]) == id then Some(0)
    else
      match FindIndex(s[1..], idOf, id)
      case None => None
      case Some(k) => Some(k + 1)
  }

  /** `collection.find(r => r.id === id)`: the first record with this id, if any. */
  function FindById<T>(s: seq<T>, idOf: T -> int, id: int): (r: Option<T>)
    ensures r.None? <==> forall i :: 0 <= i < |s| ==> idOf(s[i]) != id
    ensures r.Some? ==> r.value in s && idOf(r.value) == id
  {
    match FindIndex(s, idOf, id)
    case None => None
    case Some(k) => Some(s[k])
  }

  /**
   * A PUT of `x`: the first record carrying `x`'s id is replaced by `x`, or
   * `x` is appended when no record carries that id.
   */
  function Put<T>(s: seq<T>, idOf: T -> int, x: T): (r: seq<T>)
    ensures x in r
    ensures |r| == if FindIndex(s, idOf, idOf(x)).Some? then |s| else |s| + 1
    ensures forall i :: 0 <= i < |s| && idOf(s[i]) != idOf(x) ==> r[i] == s[i]
    ensures forall i :: 0 <= i < |r| ==> r[i] == x || (i < |s| && r[i] == s[i])
    ensures UniqueIds(s, idOf) ==> UniqueIds(r, idOf)
  {
    if s == [] then [x]
    else if idOf(s[0]) == idOf(x) then [x] + s[1..]
    else [s[0]] + Put(s[1..], idOf, x)
  }

  /** After a PUT of `x`, looking up `x`'s id finds `x`. */
  lemma {:induction false} FindAfterPut<T>(s: seq<T>, idOf: T -> int, x: T)
    ensures FindById(Put(s, idOf, x), idOf, idOf(x)) == Some(x)
  {
    if s != [] && idOf(s[0]) != idOf(x) {
      FindAfterPut(s[1..], idOf, x);
      var r := Put(s, idOf, x);
      assert r == [s[0]] + Put(s[1..], idOf, x);
      assert r[1..] == Put(s[1..], idOf, x);
    }
  }

  /**
   * A DELETE of `id`: the first record carrying that id is removed; the
   * collection is unchanged when no record carries it.
   */
  function Delete<T(!new)>(s: seq<T>, idOf: T -> int, id: int): (r: seq<T>)
    ensures |r| == if FindIndex(s, idOf, id).Some? then |s| - 1 else |s|
    ensures forall x :: x in r ==> x in s
    ensures forall x :: x in s && idOf(x) != id ==> x in r
    ensures UniqueIds(s, idOf) ==> UniqueIds(r, idOf) && forall i :: 0 <= i < |r| ==> idOf(r[i]) != id
  {
    if s == [] then []
    else if idOf(s[0]) == id then
      assert forall i :: 0 <= i < |s| - 1 ==> s[1..][i] == s[i + 1];
      s[1..]
    else
      var rest := Delete(s[1..], idOf, id);
      assert forall x :: x in s <==> x == s[0] || x in s[1..];
      assert UniqueIds(s, idOf) ==> UniqueIds(s[1..], idOf) by {
        if UniqueIds(s, idOf) {
          forall i, j | 0 <= i < j < |s| - 1 ensures idOf(s[1..][i]) != idOf(s[1..][j]) {
            assert s[1..][i] == s[i + 1] && s[1..][j] == s[j + 1];
          }
        }
      }
      var r := [s[0]] + rest;
      assert UniqueIds(s, idOf) ==> UniqueIds(r, idOf) by {
        if UniqueIds(s, idOf) {
          forall i, j | 0 <= i < j < |r| ensures idOf(r[i]) != idOf(r[j]) {
            if i == 0 {
              assert r[j] in rest;
              var k :| 0 <= k < |s| - 1 && s[1..][k] == r[j];
              assert s[k + 1] == r[j];
            }
          }
        }
      }
      r
  }

  /** The record that a POST stores: `x` stamped with the collection's next id. */
  lemma AppendFresh<T>(s: seq<T>, idOf: T -> int, x: T)
    requires idOf(x) == GenId(IdsOf(s, idOf))
    ensures UniqueIds(s, idOf) ==> UniqueIds(s + [x], idOf)
    ensures FindIndex(s, idOf, idOf(x)).None?
  {
    var ids := IdsOf(s, idOf);
    assert forall i :: 0 <= i < |s| ==> idOf(s[i]) == ids[i] < idOf(x);
  }

  /** POST of a candidate: stored under the next id, appended at the end. */
  function PostCandidate(s: seq<Candidate>, c: Candidate): (r: (seq<Candidate>, Candidate))
    ensures r.1 == c.(id := GenId(IdsOf(s, CandidateId)))
    ensures r.0 == s + [r.1]
    ensures UniqueIds(s, CandidateId) ==> UniqueIds(r.0, CandidateId)
  {
    var stored := c.(id := GenId(IdsOf(s, CandidateId)));
    AppendFresh(s, CandidateId, stored);
    (s + [stored], stored)
  }

  function PostDepartment(s: seq<Department>, d: Department): (r: (seq<Department>, Department))
    ensures r.1 == d.(id := GenId(IdsOf(s, DepartmentId)))
    ensures r.0 == s + [r.1]
    ensures UniqueIds(s, DepartmentId) ==> UniqueIds(r.0, DepartmentId)
  {
    var stored := d.(id := GenId(IdsOf(s, DepartmentId)));
    AppendFresh(s, DepartmentId, stored);
    (s + [stored], stored)
  }

  function PostEmployee(s: seq<Employee>, e: Employee): (r: (seq<Employee>, Employee))
    ensures r.1 == e.(id := GenId(IdsOf(s, EmployeeId)))
    ensures r.0 == s + [r.1]
    ensures UniqueIds(s, EmployeeId) ==> UniqueIds(r.0, EmployeeId)
  {
    var stored := e.(id := GenId(IdsOf(s, EmployeeId)));
    AppendFresh(s, EmployeeId, stored);
    (s + [stored], stored)
  }

  function PostSalary(s: seq<Salary>, x: Salary): (r: (seq<Salary>, Salary))
    ensures r.1 == x.(id := GenId(IdsOf(s, SalaryId)))
    ensures r.0 == s + [r.1]
    ensures UniqueIds(s, SalaryId) ==> UniqueIds(r.0, SalaryId)
  {
    var stored := x.(id := GenId(IdsOf(s, SalaryId)));
    AppendFresh(s, SalaryId, stored);
    (s + [stored], stored)
  }

  /** The backend's four collections. */
  datatype Db = Db(
    departments: seq<Department>,
    employees: seq<Employee>,
    candidates: seq<Candidate>,
    salaries: seq<Salary>)
  {
    /** Every collection keeps its ids distinct. */
    predicate Valid() {
      && UniqueIds(departments, DepartmentId)
      && UniqueIds(employees, EmployeeId)
      && UniqueIds(candidates, CandidateId)
      && UniqueIds(salaries, SalaryId)
    }
  }

  /** A seeded employee: every one is a full-time, active employee. */
  function SeedEmployee(id: int, name: string, email: string, departmentId: int, position: string,
                        hireDate: CalendarDate, phoneNumber: string, address: string, dateOfBirth: string,
                        emergencyContact: string, emergencyContactPhone: string): Employee
  {
    Employee(id, name, email, departmentId, Some(phoneNumber), Some(address), Some(dateOfBirth),
             Some(position), Some(hireDate), Some(emergencyContact), Some(emergencyContactPhone),
             Some("Full-Time"), Some("Active"))
  }

  /** `createDb`: the collections the application starts with. */
  function SeedDb(): Db {
    Db(
      [ Department(1, "Human Resources", "Floor 1", Some(500000.0), Some(1), Some("Handles HR operations")),
        Department(2, "Information Technology", "Floor 2", Some(800000.0), Some(2), Some("Tech infrastructure")),
        Department(3, "Finance", "Floor 3", Some(600000.0), Some(3), Some("Manages company finances")),
        Department(4, "Marketing", "Floor 4", Some(400000.0), Some(4), Some("Handles promotions & branding")),
        Department(5, "Sales", "Floor 5", Some(450000.0), Some(5), Some("Drives revenue through sales")),
        Department(6, "Operations", "Floor 6", Some(700000.0), Some(6), Some("Ensures daily operations")),
        Department(7, "Customer Support", "Floor 7", Some(300000.0), Some(7), Some("Handles client support")),
        Department(8, "R&D", "Floor 8", Some(1000000.0), Some(8), Some("Research and development")) ],
      [ SeedEmployee(1, "John Doe", "john@hr.com", 1, "HR Manager", CalendarDate(2020, 0, 15), "555-0101", "123 Main St, City, State", "1985-05-15", "Jane Doe", "555-0102"),
        SeedEmployee(2, "Jane Smith", "jane@it.com", 2, "IT Director", CalendarDate(2019, 4, 20), "555-0103", "234 Oak St, City, State", "1983-03-22", "John Smith", "555-0104"),
        SeedEmployee(3, "Michael Johnson", "michael@hr.com", 1, "Recruiter", CalendarDate(2021, 3, 10), "555-0105", "456 Pine St, City, State", "1990-07-12", "Sarah Johnson", "555-0106"),
        SeedEmployee(4, "Emily Davis", "emily@it.com", 2, "Software Engineer", CalendarDate(2022, 1, 15), "555-0107", "789 Maple Ave, City, State", "1995-11-08", "James Davis", "555-0108"),
        SeedEmployee(5, "Robert Brown", "robert@finance.com", 3, "Accountant", CalendarDate(2018, 7, 5), "555-0109", "321 Elm St, City, State", "1987-02-20", "Laura Brown", "555-0110"),
        SeedEmployee(6, "Sophia Wilson", "sophia@marketing.com", 4, "Marketing Specialist", CalendarDate(2021, 5, 1), "555-0111", "654 Cedar St, City, State", "1993-09-25", "David Wilson", "555-0112"),
        SeedEmployee(7, "James Taylor", "james@it.com", 2, "System Administrator", CalendarDate(2017, 11, 10), "555-0113", "987 Birch St, City, State", "1989-06-14", "Olivia Taylor", "555-0114"),
        SeedEmployee(8, "Olivia Martinez", "olivia@hr.com", 1, "HR Assistant", CalendarDate(2023, 0, 5), "555-0115", "246 Walnut St, City, State", "1997-12-03", "Daniel Martinez", "555-0116"),
        SeedEmployee(9, "William Anderson", "william@finance.com", 3, "Financial Analyst", CalendarDate(2020, 8, 14), "555-0117", "135 Spruce St, City, State", "1992-04-18", "Emma Anderson", "555-0118"),
        SeedEmployee(10, "Isabella Thomas", "isabella@marketing.com", 4, "Content Creator", CalendarDate(2021, 10, 12), "555-0119", "864 Cherry St, City, State", "1994-08-09", "Lucas Thomas", "555-0120"),
        SeedEmployee(11, "Benjamin Lee", "benjamin@it.com", 2, "DevOps Engineer", CalendarDate(2019, 6, 20), "555-0121", "753 Fir St, City, State", "1991-10-01", "Sophia Lee", "555-0122"),
        SeedEmployee(12, "Mia Harris", "mia@hr.com", 1, "HR Coordinator", CalendarDate(2022, 4, 9), "555-0123", "369 Poplar St, City, State", "1996-02-14", "Ethan Harris", "555-0124"),
        SeedEmployee(13, "Ethan Clark", "ethan@finance.com", 3, "Auditor", CalendarDate(2020, 2, 28), "555-0125", "147 Ash St, City, State", "1988-07-11", "Grace Clark", "555-0126"),
        SeedEmployee(14, "Charlotte Lewis", "charlotte@marketing.com", 4, "SEO Specialist", CalendarDate(2021, 8, 15), "555-0127", "258 Magnolia St, City, State", "1995-05-06", "Henry Lewis", "555-0128"),
        SeedEmployee(15, "Alexander Walker", "alexander@it.com", 2, "Frontend Developer", CalendarDate(2018, 9, 25), "555-0129", "369 Palm St, City, State", "1993-01-30", "Ella Walker", "555-0130"),
        SeedEmployee(16, "Amelia Hall", "amelia@finance.com", 3, "Payroll Specialist", CalendarDate(2019, 5, 19), "555-0131", "951 Willow St, City, State", "1990-12-22", "Jack Hall", "555-0132"),
        SeedEmployee(17, "Daniel Allen", "daniel@marketing.com", 4, "Brand Manager", CalendarDate(2020, 11, 8), "555-0133", "753 Dogwood St, City, State", "1989-09-03", "Zoe Allen", "555-0134"),
        SeedEmployee(18, "Harper Young", "harper@hr.com", 1, "Training Coordinator", CalendarDate(2021, 2, 30), "555-0135", "159 Redwood St, City, State", "1994-04-27", "Leo Young", "555-0136"),
        SeedEmployee(19, "Matthew King", "matthew@it.com", 2, "Backend Developer", CalendarDate(2022, 6, 11), "555-0137", "357 Sycamore St, City, State", "1997-08-17", "Chloe King", "555-0138"),
        SeedEmployee(20, "Ava Wright", "ava@finance.com", 3, "Treasury Analyst", CalendarDate(2023, 1, 22), "555-0139", "753 Beech St, City, State", "1998-06-29", "Noah Wright", "555-0140"),
        SeedEmployee(21, "Logan Scott", "logan@marketing.com", 4, "Digital Strategist", CalendarDate(2021, 9, 18), "555-0141", "951 Hickory St, City, State", "1995-01-19", "Mila Scott", "555-0142"),
        SeedEmployee(22, "Abigail Green", "abigail@it.com", 2, "QA Engineer", CalendarDate(2020, 7, 7), "555-0143", "159 Linden St, City, State", "1996-03-02", "Mason Green", "555-0144") ],
      [ Candidate(1, "Alice Johnson", "alice@test.com", "555-0111", "HR Assistant", Some(1), Some("https://example.com/resumes/alice-johnson.pdf"), Some("Interviewed"), Some("2023-03-10")),
        Candidate(2, "Mark Lee", "mark@test.com", "555-0112", "Software Engineer", Some(2), None, Some("Applied"), Some("2023-04-12")),
        Candidate(3, "Rachel Green", "rachel@test.com", "555-0113", "Accountant", Some(3), None, Some("Rejected"), Some("2023-02-28")),
        Candidate(4, "David Kim", "david@test.com", "555-0114", "Marketing Coordinator", Some(4), None, Some("Interview Scheduled"), Some("2023-06-15")),
        Candidate(5, "Laura White", "laura@test.com", "555-0115", "Sales Associate", Some(5), None, Some("Hired"), Some("2023-01-20")) ],
      [ Salary(1, 1, 75000.0, None, None, None, None, "Monthly", 20230101, None, Some("raise"), Some("Annual raise")),
        Salary(2, 2, 95000.0, Some(10000.0), None, None, None, "Monthly", 20230101, None, None, None),
        Salary(3, 3, 85000.0, None, None, None, None, "Monthly", 20220701, None, Some("promotion"), None),
        Salary(4, 4, 40000.0, Some(5000.0), None, None, None, "Monthly", 20230215, None, None, None),
        Salary(5, 5, 88000.0, None, None, None, None, "Monthly", 20210901, None, None, Some("No bonus included")),
        Salary(6, 6, 70000.0, None, None, None, None, "Monthly", 20200301, None, Some("cost-of-living"), None),
        Salary(7, 7, 50000.0, None, None, None, None, "Monthly", 20230601, None, None, None),
        Salary(8, 8, 110000.0, Some(15000.0), None, None, None, "Monthly", 20221201, None, Some("performance"), None) ]
    )
  }

  /** The seeded ids of each collection run 1, 2, 3, ... in order, so they are distinct. */
  lemma SeedIdsConsecutive()
    ensures var db := SeedDb();
      && (forall i :: 0 <= i < |db.departments| ==> db.departments[i].id == i + 1)
      && (forall i :: 0 <= i < |db.employees| ==> db.employees[i].id == i + 1)
      && (forall i :: 0 <= i < |db.candidates| ==> db.candidates[i].id == i + 1)
      && (forall i :: 0 <= i < |db.salaries| ==> db.salaries[i].id == i + 1)
    ensures SeedDb().Valid()
  {
  }

  /** Every seeded salary belongs to a seeded employee, and every seeded candidate applied to a seeded department. */
  lemma SeedReferences()
    ensures var db := SeedDb();
      forall i :: 0 <= i < |db.salaries| ==> FindById(db.employees, EmployeeId, db.salaries[i].employeeId).Some?
    ensures var db := SeedDb();
      forall i :: 0 <= i < |db.candidates| ==>
        db.candidates[i].appliedDepartmentId.Some?
        && FindById(db.departments, DepartmentId, db.candidates[i].appliedDepartmentId.value).Some?
  {
    SeedIdsConsecutive();
    var db := SeedDb();
    assert forall i :: 0 <= i < |db.salaries| ==> db.salaries[i].employeeId == i + 1;
    forall i | 0 <= i < |db.salaries|
      ensures FindById(db.employees, EmployeeId, db.salaries[i].employeeId).Some?
    {
      assert EmployeeId(db.employees[i]) == db.salaries[i].employeeId;
    }
    assert forall i :: 0 <= i < |db.candidates| ==> db.candidates[i].appliedDepartmentId == Some(i + 1);
    forall i | 0 <= i < |db.candidates|
      ensures FindById(db.departments, DepartmentId, db.candidates[i].appliedDepartmentId.value).Some?
    {
      assert DepartmentId(db.departments[i]) == i + 1;
    }
  }
}

/**
 * The candidate list page: the selectable statuses, the hire action offered
 * only to interviewed candidates, the department names shown beside each
 * candidate, and the status colour (the same mapping as the detail page's).
 */
module CandidateList {
  import opened Wrappers
  import opened Seqs
  import opened Models
  import opened InMemoryData
  import opened Ui
  import CandidateDetail

  /** `statuses`: the values the status filter offers. */
  const Statuses: seq<string> := ["Applied", "Interviewed", "Hired", "Rejected"]

  /** The selectable statuses are exactly those the badges know, each offered once. */
  lemma StatusesAreTheKnownOnes(status: Option<string>)
    ensures NoDuplicates(Statuses)
    ensures (status.Some? && status.value in Statuses) <==> CandidateDetail.KnownStatus(status)
    ensures (status.Some? && status.value in Statuses) <==> CandidateDetail.StatusIcon(status) != "help_outline"
  {
  }

  /** `getDepartmentName`: '' for a falsy id or an unknown department, the department's name otherwise. */
  function DepartmentName(departments: seq<Department>, id: Option<int>): (name: string)
    ensures !TruthyId(id) ==> name == ""
    ensures TruthyId(id) && FindById(departments, DepartmentId, id.value).None? ==> name == ""
    ensures TruthyId(id) && FindById(departments, DepartmentId, id.value).Some? ==>
      exists d :: d in departments && d.id == id.value && name == d.name
  {
    if !TruthyId(id) then ""
    else match FindById(departments, DepartmentId, id.value)
      case None => ""
      case Some(d) => d.name
  }

  /** With distinct department ids, the name shown is the name of the one department carrying the id. */
  lemma DepartmentNameOfUniqueIds(departments: seq<Department>, k: nat)
    requires UniqueIds(departments, DepartmentId) && k < |departments| && departments[k].id != 0
    ensures DepartmentName(departments, Some(departments[k].id)) == departments[k].name
  {
    var found := FindIndex(departments, DepartmentId, departments[k].id);
    assert found.value == k;
  }

  class CandidateListComponent {
    var departments: seq<Department>
    var route: Route

    constructor (departments: seq<Department>)
      ensures this.departments == departments && route == NotNavigated
    {
      this.departments := departments;
      route := NotNavigated;
    }

    /** `hireCandidate`: goes to the hire page only for an interviewed candidate, as the detail page's `onHire` does. */
    method HireCandidate(c: Candidate)
      modifies this
      ensures CandidateDetail.MayHire(c) ==> route == CandidateHire(c.id)
      ensures !CandidateDetail.MayHire(c) ==> route == old(route)
      ensures departments == old(departments)
    {
      if c.status == Some("Interviewed") {
        route := CandidateHire(c.id);
      }
    }
  }
}

/**
 * The candidate detail page: the candidate with the department applied to,
 * the hire link offered only to interviewed candidates, rejection, and the
 * status badges.
 */
module CandidateDetail {
  import opened Wrappers
  import opened Models
  import opened InMemoryData
  import opened Backend
  import opened Ui
  import CandidateService

  /** The statuses with a colour of their own (Applied has none). */
  predicate ColouredStatus(status: Option<string>) {
    status == Some("Hired") || status == Some("Interviewed") || status == Some("Rejected")
  }

  /** `getStatusColor`: a colour for Hired, Interviewed and Rejected, '' for Applied and anything else. */
  function StatusColor(status: Option<string>): (color: string)
    ensures color == "" <==> !ColouredStatus(status)
  {
    match status
    case Some("Hired") => "primary"
    case Some("Interviewed") => "accent"
    case Some("Rejected") => "warn"
    case _ => ""
  }

  /** The four statuses of a candidate's life. */
  predicate KnownStatus(status: Option<string>) {
    status == Some("Applied") || ColouredStatus(status)
  }

  /** `getStatusIcon`: an icon for each of the four statuses, 'help_outline' for anything else. */
  function StatusIcon(status: Option<string>): (icon: string)
    ensures icon == "help_outline" <==> !KnownStatus(status)
  {
    match status
    case Some("Hired") => "check_circle"
    case Some("Interviewed") => "schedule"
    case Some("Rejected") => "cancel"
    case Some("Applied") => "send"
    case _ => "help_outline"
  }

  /** Distinct known statuses get distinct icons, and distinct coloured statuses distinct colours. */
  lemma StatusBadgesDistinguish(a: Option<string>, b: Option<string>)
    ensures KnownStatus(a) && KnownStatus(b) && a != b ==> StatusIcon(a) != StatusIcon(b)
    ensures ColouredStatus(a) && ColouredStatus(b) && a != b ==> StatusColor(a) != StatusColor(b)
  {
  }

  /** Hiring is offered only to a candidate who has been interviewed. */
  predicate MayHire(c: Candidate) {
    c.status == Some("Interviewed")
  }

  class CandidateDetailComponent {
    const store: Store
    var candidate: Option<Candidate>
    var department: Option<Department>
    var isLoading: bool
    var notice: Notice
    var route: Route

    constructor (store: Store)
      ensures this.store == store && candidate == None && department == None
      ensures isLoading && notice == NoNotice && route == NotNavigated
    {
      this.store := store;
      candidate := None;
      department := None;
      isLoading := true;
      notice := NoNotice;
      route := NotNavigated;
    }

    /**
     * `loadCandidate` with `loadDepartment`: an unknown candidate or a failed
     * request reports an error and goes back to the list; otherwise the
     * department applied to is looked up when its id is truthy (a failure
     * there is only logged).
     */
    method LoadCandidate(id: int, candidateStep: Step, departmentStep: Step)
      modifies this
      ensures !isLoading
      ensures var found := FindById(store.db.candidates, CandidateId, id);
        && (candidateStep.Fail? || found.None? ==>
              && candidate == old(candidate) && department == old(department)
              && notice == ErrorNotice("Failed to load candidate details") && route == CandidatesList)
        && (candidateStep.Ok? && found.Some? ==>
              var c := found.value;
              var d := if TruthyId(c.appliedDepartmentId) then FindById(store.db.departments, DepartmentId, c.appliedDepartmentId.value) else None;
              && candidate == found
              && department == (if departmentStep.Ok? && d.Some? then d else old(department))
              && notice == old(notice) && route == old(route))
    {
      isLoading := true;
      var found := FindById(store.db.candidates, CandidateId, id);
      if candidateStep.Fail? || found.None? {
        notice := ErrorNotice("Failed to load candidate details");
        isLoading := false;
        route := CandidatesList;
        return;
      }
      var c := found.value;
      candidate := found;
      if TruthyId(c.appliedDepartmentId) {
        var d := FindById(store.db.departments, DepartmentId, c.appliedDepartmentId.value);
        if departmentStep.Ok? && d.Some? {
          department := d;
        }
      }
      isLoading := false;
    }

    /** `onHire`: goes to the hire page only for an interviewed candidate; otherwise nothing happens. */
    method OnHire()
      modifies this
      ensures candidate.Some? && MayHire(candidate.value) ==> route == CandidateHire(candidate.value.id)
      ensures !(candidate.Some? && MayHire(candidate.value)) ==> route == old(route)
      ensures candidate == old(candidate) && department == old(department) && isLoading == old(isLoading) && notice == old(notice)
    {
      if candidate.Some? && candidate.value.status == Some("Interviewed") {
        route := CandidateHire(candidate.value.id);
      }
    }

    /**
     * The page after a successful status write and the reload of `updated`:
     * the reloaded candidate with the department applied to (kept when its id
     * is not truthy or that request fails) and the success message, or, when
     * the reload fails, the previous candidate and department, the load error
     * and the candidate list.
     */
    predicate Reloaded(updated: Candidate, success: string, candidateStep: Step, departmentStep: Step,
                       candidate0: Option<Candidate>, department0: Option<Department>, route0: Route)
      reads this, store
    {
      && !isLoading
      && (candidateStep.Fail? ==>
            && candidate == candidate0 && department == department0
            && notice == ErrorNotice("Failed to load candidate details") && route == CandidatesList)
      && (candidateStep.Ok? ==>
            var d := if TruthyId(updated.appliedDepartmentId)
              then FindById(store.db.departments, DepartmentId, updated.appliedDepartmentId.value) else None;
            && candidate == Some(updated)
            && department == (if departmentStep.Ok? && d.Some? then d else department0)
            && notice == SuccessNotice(success) && route == route0)
    }

    /**
     * `onReject`: once confirmed, the candidate's status is set to Rejected
     * whatever it was, and the candidate reloaded; a failure is reported.
     */
    method OnReject(confirmed: bool, updateStep: Step, candidateStep: Step, departmentStep: Step)
      modifies this, store
      ensures old(candidate).None? || !confirmed ==>
        && store.db == old(store.db) && candidate == old(candidate) && department == old(department)
        && isLoading == old(isLoading) && notice == old(notice) && route == old(route)
      ensures old(candidate).Some? && confirmed ==>
        var reply := CandidateService.UpdateCandidateStatus(old(store.db), old(candidate).value.id, "Rejected", updateStep);
        && store.db == reply.db
        && (reply.result.Failure? ==>
              && candidate == old(candidate) && department == old(department) && isLoading == old(isLoading)
              && notice == ErrorNotice("Failed to reject candidate") && route == old(route))
        && (reply.result.Success? ==>
              && reply.result.value.status == Some("Rejected")
              && Reloaded(reply.result.value, "Candidate rejected successfully", candidateStep, departmentStep,
                          old(candidate), old(department), old(route)))
      ensures old(store.db).Valid() ==> store.db.Valid()
    {
      if candidate.None? || !confirmed {
        return;
      }
      var id := candidate.value.id;
      var reply := CandidateService.UpdateCandidateStatus(store.db, id, "Rejected", updateStep);
      store.db := reply.db;
      if reply.result.Failure? {
        notice := ErrorNotice("Failed to reject candidate");
        return;
      }
      notice := SuccessNotice("Candidate rejected successfully");
      FindAfterPut(old(store.db).candidates, CandidateId, reply.result.value);
      LoadCandidate(id, candidateStep, departmentStep);
    }
  }
}

/** The moderation endpoints: the queue of open reports, assigning a report to a
    moderator, and approving or denying it. Each action that succeeds writes one
    row to the audit log. */
module ModerationViews {
  import opened Wrappers
  import opened Text
  import opened Seqs
  import opened UsersModels
  import opened OperationsModels
  import opened Store
  import opened UsersViews

  /** DRF's answer when a permission class refuses a signed-in caller. */
  const PermissionDenied := ApiError(403, "You do not have permission to perform this action.")
  /** Reading a field the profile model does not declare. */
  const ModeratorFlagMissing := ApiError(500, "AttributeError: 'Profile' object has no attribute 'is_moderator'")

  /** `IsModerator.has_permission` as written, for the signed-in caller `me`
      (`None` admits, an error refuses): a caller without a profile is refused,
      and for one with a profile the flag it reads does not exist, so the request
      fails. No caller is ever admitted. */
  function ModeratorGateAsWritten(me: Id, profiles: map<Id, Profile>): (r: Option<ApiError>)
    ensures r.Some?
    ensures r == Some(ModeratorFlagMissing) <==> me in profiles
    ensures r == Some(PermissionDenied) <==> me !in profiles
  {
    if me in profiles then Some(ModeratorFlagMissing) else Some(PermissionDenied)
  }

  /** `IsModerator.has_permission` as evidently intended, with `moderators` the
      users whose profile carries the moderator flag: a caller is admitted exactly
      when it has a profile and that profile is flagged, and refused with a 403
      otherwise. */
  function ModeratorGate(me: Id, profiles: map<Id, Profile>, moderators: set<Id>): (r: Option<ApiError>)
    ensures r.None? <==> me in profiles && me in moderators
    ensures r.Some? ==> r == Some(PermissionDenied)
  {
    if me in profiles && me in moderators then None else Some(PermissionDenied)
  }

  /** The gate as written and the intended one agree exactly on the callers the
      intended gate refuses for lack of a profile; every flagged moderator is
      turned away by the written one. */
  lemma GateRefusesModerators(me: Id, profiles: map<Id, Profile>, moderators: set<Id>)
    ensures ModeratorGate(me, profiles, moderators).None? ==> ModeratorGateAsWritten(me, profiles) == Some(ModeratorFlagMissing)
    ensures me !in profiles ==> ModeratorGate(me, profiles, moderators) == ModeratorGateAsWritten(me, profiles)
  {
  }

  /** The creation time of report `r`, the sort key of the queue. */
  function CreatedOf(reports: map<Id, Report>, r: Id): int
  {
    if r in reports then reports[r].createdAt else 0
  }

  /** `ReportListView.get_queryset`: the unresolved reports, newest first. `order`
      is the report table in the order the database scans it. */
  function ReportList(reports: map<Id, Report>, order: seq<Id>): (r: seq<Id>)
    requires NoDup(order) && forall k :: k in order <==> k in reports
    ensures forall k :: k in r <==> k in reports && !reports[k].isResolved
    ensures NoDup(r)
    ensures forall i, j :: 0 <= i < j < |r| ==> CreatedOf(reports, r[i]) >= CreatedOf(reports, r[j])
  {
    var open := Filter(order, k => k in reports && !reports[k].isResolved);
    var r := SortDesc(open, k => CreatedOf(reports, k));
    PermutationKeepsNoDup(open, r);
    assert forall k :: k in r <==> k in multiset(r);
    r
  }

  const ReportIdRequired := ApiError(400, "report_id required")
  /** `Report.objects.get` finds no row; the view does not catch the exception. */
  const ReportNotFound := ApiError(500, "Report.DoesNotExist: Report matching query does not exist.")

  /** The audit row of an assignment. */
  function AssignEntry(moderator: Id, username: string, report: Id): AuditEntry
  {
    AuditEntry(moderator, "assign_report", Some(report),
               "Assigned report " + NatToString(report) + " to " + username)
  }

  /** `get_or_create(report=report)` without defaults inserts an assignment whose
      moderator is NULL, which the non-null column refuses; the retried lookup
      finds nothing and the error escapes the view. */
  const AssignmentIntegrityError :=
    ApiError(500, "IntegrityError: NOT NULL constraint failed: moderation_moderatorassignment.moderator_id")

  /** `AssignReportView.update` by the moderator `me`, as written: a missing or
      falsy report id is refused before anything is read, an unknown report is a
      500, and so is a report nobody was assigned yet, with nothing written. Only a
      report that already has an assignment can be taken over: it then names `me`
      and one audit row records it. */
  method AssignReportAsWritten(db: Db, me: Id, reportId: Option<Id>) returns (r: Result<Id, ApiError>)
    requires db.Valid() && me in db.users
    modifies db`assignments, db`auditLog
    ensures db.Valid()
    ensures r.Ok? <==> Present(reportId) && reportId.value in db.assignments
    ensures !Present(reportId) ==> r == Err(ReportIdRequired)
    ensures Present(reportId) && reportId.value !in db.reports ==> r == Err(ReportNotFound)
    ensures Present(reportId) && reportId.value in db.reports && reportId.value !in old(db.assignments) ==>
      r == Err(AssignmentIntegrityError)
    ensures r.Err? ==> db.assignments == old(db.assignments) && db.auditLog == old(db.auditLog)
    ensures r.Ok? ==>
      r.value == reportId.value
      && db.assignments == old(db.assignments)[r.value := me]
      && db.auditLog == old(db.auditLog) + [AssignEntry(me, db.users[me].username, r.value)]
  {
    if !Present(reportId) {
      return Err(ReportIdRequired);
    }
    var id := reportId.value;
    if id !in db.reports {
      return Err(ReportNotFound);
    }
    if id !in db.assignments {
      return Err(AssignmentIntegrityError);
    }
    db.PutAssignment(id, me);
    db.Log(AssignEntry(me, db.users[me].username, id));
    r := Ok(id);
  }

  /** `AssignReportView.update` as evidently intended, with the moderator given as
      the default of `get_or_create`: every existing report can be assigned, and
      the report's single assignment now names `me`, whoever held it before, with
      one audit row recording it. */
  method AssignReport(db: Db, me: Id, reportId: Option<Id>) returns (r: Result<Id, ApiError>)
    requires db.Valid() && me in db.users
    modifies db`assignments, db`auditLog
    ensures db.Valid()
    ensures r.Ok? <==> Present(reportId) && reportId.value in db.reports
    ensures !Present(reportId) ==> r == Err(ReportIdRequired)
    ensures Present(reportId) && reportId.value !in db.reports ==> r == Err(ReportNotFound)
    ensures r.Err? ==> db.assignments == old(db.assignments) && db.auditLog == old(db.auditLog)
    ensures r.Ok? ==>
      r.value == reportId.value
      && db.assignments == old(db.assignments)[r.value := me]
      && db.auditLog == old(db.auditLog) + [AssignEntry(me, db.users[me].username, r.value)]
  {
    if !Present(reportId) {
      return Err(ReportIdRequired);
    }
    var id := reportId.value;
    if id !in db.reports {
      return Err(ReportNotFound);
    }
    db.PutAssignment(id, me);
    db.Log(AssignEntry(me, db.users[me].username, id));
    r := Ok(id);
  }

  /** A report marked resolved at `now`; what it reports is unchanged. */
  function Resolved(report: Report, now: int): (r: Report)
    ensures r.isResolved && r.resolvedAt == Some(now)
    ensures r.bookmark == report.bookmark && r.user == report.user
    ensures r.reportType == report.reportType && r.createdAt == report.createdAt
  {
    report.(isResolved := true, resolvedAt := Some(now))
  }

  /** The verdicts a moderator can give, with the action name and the detail text
      of their audit rows. */
  datatype Verdict = Approve | Deny

  function ActionName(v: Verdict): string
  {
    match v
    case Approve => "approve_report"
    case Deny => "deny_report"
  }

  function VerdictEntry(moderator: Id, v: Verdict, report: Id): AuditEntry
  {
    var verb := match v case Approve => "Approved" case Deny => "Denied";
    AuditEntry(moderator, ActionName(v), Some(report), verb + " report " + NatToString(report))
  }

  /** `ApproveReportView.update` and `DenyReportView.update`, which differ only in
      the audit row: the report is looked up without checking the id first, then
      marked resolved at `now` (again, when it already was) and one audit row is
      written. Neither touches the reported bookmark. */
  method ResolveReport(db: Db, me: Id, reportId: Option<Id>, now: int, v: Verdict) returns (r: Result<Id, ApiError>)
    requires db.Valid()
    modifies db`reports, db`auditLog
    ensures db.Valid()
    ensures r.Ok? <==> reportId.Some? && reportId.value in old(db.reports)
    ensures r.Err? ==> r == Err(ReportNotFound) && db.reports == old(db.reports) && db.auditLog == old(db.auditLog)
    ensures r.Ok? ==>
      r.value == reportId.value
      && db.reports == old(db.reports)[r.value := Resolved(old(db.reports)[r.value], now)]
      && db.auditLog == old(db.auditLog) + [VerdictEntry(me, v, r.value)]
    ensures db.bookmarks == old(db.bookmarks)
  {
    if reportId.None? || reportId.value !in db.reports {
      return Err(ReportNotFound);
    }
    var id := reportId.value;
    db.PutReport(id, Resolved(db.reports[id], now));
    db.Log(VerdictEntry(me, v, id));
    r := Ok(id);
  }

  /** A resolved report leaves the queue and no other report enters or leaves it. */
  lemma ResolvedLeavesQueue(reports: map<Id, Report>, order: seq<Id>, id: Id, now: int)
    requires NoDup(order) && (forall k :: k in order <==> k in reports) && id in reports
    ensures var after := reports[id := Resolved(reports[id], now)];
      forall k :: k in ReportList(after, order) <==> k in ReportList(reports, order) && k != id
  {
  }

  /** Resolving is idempotent up to the resolution time: resolving twice is
      resolving once, at the later time. */
  lemma ResolveTwice(report: Report, t1: int, t2: int)
    ensures Resolved(Resolved(report, t1), t2) == Resolved(report, t2)
  {
  }
}

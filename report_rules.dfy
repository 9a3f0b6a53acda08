/** The pure part of the report lifecycle (ReportServiceImpl): who may move
    a report to which status, what the target status demands of the report,
    the audit fields each transition stamps, the owner-side edit and
    resubmission guards, and the "mark as important" toggle on one report
    and one user. */
module ReportRules {
  import opened Common
  import opened Domain

  // ---------------------------------------------------------------------
  // updateReportStatus

  /** validateStatusPermissions: an administrator may request any status;
      anybody else only RESOLVED, and only on a report they own. */
  function StatusPermission(r: Report, target: ReportStatus, callerId: UserId, callerRole: Role): (o: Outcome)
    ensures o == Pass || o == Fail(AccessDenied)
    ensures o == Pass <==> callerRole == Admin || (r.idUser == callerId && target == Resolved)
  {
    if callerRole != Admin && !(r.idUser == callerId && target == Resolved) then Fail(AccessDenied) else Pass
  }

  /** validateStateRequirements: REJECTED needs a non-blank reason (checked
      first) and a PENDING or VERIFIED report; VERIFIED needs a PENDING
      report; RESOLVED is refused only for a REJECTED report; PENDING and
      ANONYMOUS ask nothing. */
  function StateRequirements(r: Report, target: ReportStatus, reason: Option<string>): (o: Outcome)
    ensures o == Pass || o == Fail(IllegalArgument) || o == Fail(BusinessRule)
    ensures o == Fail(IllegalArgument) <==> target == Rejected && Blank(reason)
    ensures target == Pending || target == Anonymous ==> o == Pass
  {
    match target
    case Rejected =>
      if Blank(reason) then Fail(IllegalArgument)
      else if r.status != Pending && r.status != Verified then Fail(BusinessRule)
      else Pass
    case Verified =>
      if r.status != Pending then Fail(BusinessRule) else Pass
    case Resolved =>
      if r.status == Rejected then Fail(BusinessRule) else Pass
    case _ => Pass
  }

  /** Both checks, in the order updateReportStatus runs them. */
  function CheckStatusChange(r: Report, target: ReportStatus, reason: Option<string>,
                             callerId: UserId, callerRole: Role): Outcome
  {
    match StatusPermission(r, target, callerId, callerRole)
    case Fail(e) => Fail(e)
    case Pass => StateRequirements(r, target, reason)
  }

  /** setStatusSpecificData: the audit fields each target status stamps. */
  function StampStatus(r: Report, target: ReportStatus, reason: Option<string>,
                       callerId: UserId, callerRole: Role, now: Time): Report
  {
    match target
    case Rejected =>
      r.(rejectionReason := reason, rejectionDate := Some(now),
         resubmissionDeadline := Some(now + ResubmissionWindow))
    case Verified =>
      r.(verifiedBy := Some(callerId), verificationDate := Some(now))
    case Resolved =>
      if callerRole == Admin then r.(resolutionDate := Some(now), resolvedBy := Some(callerId))
      else r.(resolutionDate := Some(now))
    case _ => r
  }

  /** The report after a status change has passed its checks. */
  function ApplyStatus(r: Report, target: ReportStatus, reason: Option<string>,
                       callerId: UserId, callerRole: Role, now: Time): Report
  {
    StampStatus(r.(status := target), target, reason, callerId, callerRole, now)
  }

  /** updateReportStatus on a found report and caller: the first failing
      check's error, or the updated report. */
  function StatusChangeResult(r: Report, target: ReportStatus, reason: Option<string>,
                              callerId: UserId, callerRole: Role, now: Time): (res: Result<Report>)
    ensures res.Ok? <==> CheckStatusChange(r, target, reason, callerId, callerRole) == Pass
    ensures res.Ok? ==> res.value == ApplyStatus(r, target, reason, callerId, callerRole, now)
    ensures res.Err? ==> CheckStatusChange(r, target, reason, callerId, callerRole) == Fail(res.error)
  {
    match CheckStatusChange(r, target, reason, callerId, callerRole)
    case Fail(e) => Err(e)
    case Pass => Ok(ApplyStatus(r, target, reason, callerId, callerRole, now))
  }

  /** The transitions an administrator may request, pair by pair. */
  predicate AdminMayMove(from: ReportStatus, to: ReportStatus)
  {
    match (from, to)
    case (_, Pending) => true
    case (_, Anonymous) => true
    case (Pending, Verified) => true
    case (_, Verified) => false
    case (Pending, Rejected) => true
    case (Verified, Rejected) => true
    case (_, Rejected) => false
    case (Rejected, Resolved) => false
    case (_, Resolved) => true
  }

  /** The transitions the owner of a report may request when not an
      administrator: to RESOLVED from anything but REJECTED (so from
      VERIFIED and ANONYMOUS too, not only from PENDING). */
  predicate OwnerMayMove(from: ReportStatus, to: ReportStatus)
  {
    to == Resolved && from != Rejected
  }

  /** The whole transition table: a status change passes its checks exactly
      when the table admits it and, for REJECTED, a reason is given. */
  lemma TransitionTable(r: Report, target: ReportStatus, reason: Option<string>, callerId: UserId, callerRole: Role)
    ensures CheckStatusChange(r, target, reason, callerId, callerRole) == Pass <==>
      && (if callerRole == Admin then AdminMayMove(r.status, target)
          else r.idUser == callerId && OwnerMayMove(r.status, target))
      && (target == Rejected ==> !Blank(reason))
  {
  }

  /** Which error a refused status change raises: permission comes first,
      then the missing reason, then the state rule. */
  lemma StatusChangeErrors(r: Report, target: ReportStatus, reason: Option<string>, callerId: UserId, callerRole: Role)
    ensures var o := CheckStatusChange(r, target, reason, callerId, callerRole);
      && (callerRole != Admin && !(r.idUser == callerId && target == Resolved) ==> o == Fail(AccessDenied))
      && (callerRole == Admin && target == Rejected && Blank(reason) ==> o == Fail(IllegalArgument))
      && ((callerRole == Admin && target == Rejected && !Blank(reason) && r.status !in {Pending, Verified})
            ==> o == Fail(BusinessRule))
      && (o.Fail? && o.error == BusinessRule ==> target in {Rejected, Verified, Resolved})
  {
  }

  /** What a successful status change records. */
  lemma StatusChangeStamps(r: Report, target: ReportStatus, reason: Option<string>,
                           callerId: UserId, callerRole: Role, now: Time)
    requires CheckStatusChange(r, target, reason, callerId, callerRole) == Pass
    ensures var r' := ApplyStatus(r, target, reason, callerId, callerRole, now);
      && r'.status == target
      && (target == Rejected ==>
            && r'.rejectionReason == reason && !Blank(r'.rejectionReason)
            && r'.rejectionDate == Some(now)
            && r'.resubmissionDeadline == Some(now + ResubmissionWindow)
            && r.status in {Pending, Verified})
      && (target == Verified ==>
            r'.verifiedBy == Some(callerId) && r'.verificationDate == Some(now) && r.status == Pending)
      && (target == Resolved ==>
            && r'.resolutionDate == Some(now)
            && r'.resolvedBy == (if callerRole == Admin then Some(callerId) else r.resolvedBy)
            && r.status != Rejected)
      // the report's content, owner and likes are never touched
      && r'.title == r.title && r'.description == r.description && r'.date == r.date
      && r'.location == r.location && r'.categories == r.categories && r'.imageUrls == r.imageUrls
      && r'.idUser == r.idUser && r'.ratingsImportant == r.ratingsImportant && r'.likedBy == r.likedBy
      && r'.resubmissionCount == r.resubmissionCount && r'.anonymous == r.anonymous
  {
  }

  /** Every status change keeps the report invariant. */
  lemma ApplyStatusKeepsInvariant(r: Report, target: ReportStatus, reason: Option<string>,
                                  callerId: UserId, callerRole: Role, now: Time)
    requires ReportInvariant(r)
    ensures ReportInvariant(ApplyStatus(r, target, reason, callerId, callerRole, now))
  {
  }

  // ---------------------------------------------------------------------
  // rejectReportWithReason

  /** The report-side guards of rejectReportWithReason, after the caller has
      been found to be an administrator: the status first (Forbidden), the
      reason second (IllegalArgument). */
  function CheckRejection(r: Report, reason: Option<string>): (o: Outcome)
    ensures o == Pass <==> (r.status == Pending || r.status == Verified) && !Blank(reason)
    ensures r.status != Pending && r.status != Verified ==> o == Fail(Forbidden(NotRejectable))
    ensures (r.status == Pending || r.status == Verified) && Blank(reason) ==> o == Fail(IllegalArgument)
  {
    if r.status != Pending && r.status != Verified then Fail(Forbidden(NotRejectable))
    else if Blank(reason) then Fail(IllegalArgument)
    else Pass
  }

  /** The rejected report: REJECTED, with the reason, the date and the
      deadline five days later. */
  function RejectResult(r: Report, reason: Option<string>, now: Time): (res: Result<Report>)
    ensures res.Ok? <==> CheckRejection(r, reason) == Pass
    ensures res.Err? ==> CheckRejection(r, reason) == Fail(res.error)
    ensures res.Ok? ==> res.value == r.(status := Rejected, rejectionReason := reason, rejectionDate := Some(now),
                                        resubmissionDeadline := Some(now + ResubmissionWindow))
  {
    match CheckRejection(r, reason)
    case Fail(e) => Err(e)
    case Pass =>
      Ok(r.(status := Rejected, rejectionReason := reason, rejectionDate := Some(now),
            resubmissionDeadline := Some(now + ResubmissionWindow)))
  }

  /** For an administrator, rejecting with a reason accepts exactly the
      reports a status change to REJECTED accepts, and records the same
      fields; only the error raised differs (Forbidden here, IllegalArgument
      first there), because the two operations check in opposite orders. */
  lemma RejectionAgreesWithStatusChange(r: Report, reason: Option<string>, adminId: UserId, now: Time)
    ensures CheckRejection(r, reason) == Pass <==> CheckStatusChange(r, Rejected, reason, adminId, Admin) == Pass
    ensures r.status !in {Pending, Verified} && Blank(reason) ==>
      CheckRejection(r, reason) == Fail(Forbidden(NotRejectable)) &&
      CheckStatusChange(r, Rejected, reason, adminId, Admin) == Fail(IllegalArgument)
    ensures RejectResult(r, reason, now).Ok? ==>
      RejectResult(r, reason, now) == StatusChangeResult(r, Rejected, reason, adminId, Admin, now)
  {
  }

  // ---------------------------------------------------------------------
  // updateReport and resubmitReport

  /** The fields of a create, edit or resubmission request the services copy
      into the report. */
  datatype ReportRequest = ReportRequest(
    title: string, description: string, categories: seq<CategoryId>, location: Point)

  /** What became of the request's images: none were sent, the upload
      returned these URLs, or the upload threw. */
  datatype Images = NoImages | Uploaded(urls: seq<string>) | UploadError

  /** updateReport's guards, in source order: the expired-REJECTED check runs
      before the ownership check. */
  function CheckEdit(r: Report, callerId: UserId, now: Time): (o: Outcome)
    requires r.status == Rejected ==> r.resubmissionDeadline.Some?
    ensures o == Pass <==> r.idUser == callerId && r.status == Pending
    ensures o.Fail? ==> o.error.Forbidden?
  {
    if r.status == Rejected && now > r.resubmissionDeadline.value then Fail(Forbidden(DeadlineExpired))
    else if r.idUser != callerId then Fail(Forbidden(NotOwner))
    else if r.status != Pending then Fail(Forbidden(NotPending))
    else Pass
  }

  /** The edited report: the request's fields, the new image URLs when
      images were uploaded and the old ones otherwise, and a fresh date. */
  function Edited(r: Report, req: ReportRequest, images: Images, now: Time): Report
  {
    r.(title := req.title, description := req.description, location := req.location,
       categories := req.categories,
       imageUrls := if images.Uploaded? then Some(images.urls) else r.imageUrls,
       date := now)
  }

  /** updateReport on a found report: the guards, then the category check
      (`unknown` lists the request's unknown category ids), then the upload. */
  function EditResult(r: Report, req: ReportRequest, images: Images, callerId: UserId, now: Time,
                      unknown: seq<CategoryId>): (res: Result<Report>)
    requires r.status == Rejected ==> r.resubmissionDeadline.Some?
    ensures res.Ok? <==> r.idUser == callerId && r.status == Pending && unknown == [] && !images.UploadError?
    ensures res.Ok? ==> res.value == Edited(r, req, images, now)
    ensures CheckEdit(r, callerId, now).Fail? ==> res == Err(CheckEdit(r, callerId, now).error)
    ensures CheckEdit(r, callerId, now) == Pass && unknown != [] ==> res == Err(CategoriesNotFound(unknown))
  {
    match CheckEdit(r, callerId, now)
    case Fail(e) => Err(e)
    case Pass =>
      if unknown != [] then Err(CategoriesNotFound(unknown))
      else if images.UploadError? then Err(UploadFailed)
      else Ok(Edited(r, req, images, now))
  }

  /** resubmitReport's guards, in source order. */
  function CheckResubmission(r: Report, callerId: UserId, now: Time): (o: Outcome)
    requires r.status == Rejected ==> r.resubmissionDeadline.Some?
    ensures o == Pass <==>
      && r.idUser == callerId && r.status == Rejected
      && now <= r.resubmissionDeadline.value && r.resubmissionCount < MaxResubmissions
    ensures o.Fail? ==> o.error.Forbidden?
    ensures (r.idUser == callerId && r.status == Rejected && now <= r.resubmissionDeadline.value
             && r.resubmissionCount >= MaxResubmissions) ==> o == Fail(Forbidden(ResubmissionLimit))
  {
    if r.idUser != callerId then Fail(Forbidden(NotOwner))
    else if r.status != Rejected then Fail(Forbidden(NotRejected))
    else if now > r.resubmissionDeadline.value then Fail(Forbidden(DeadlineExpired))
    else if r.resubmissionCount >= MaxResubmissions then Fail(Forbidden(ResubmissionLimit))
    else Pass
  }

  /** The resubmitted report: edited, back to PENDING, one more resubmission. */
  function Resubmitted(r: Report, req: ReportRequest, images: Images, now: Time): Report
  {
    Edited(r, req, images, now).(status := Pending, resubmissionCount := r.resubmissionCount + 1)
  }

  /** resubmitReport on a found report: the guards, the categories, the upload. */
  function ResubmitResult(r: Report, req: ReportRequest, images: Images, callerId: UserId, now: Time,
                          unknown: seq<CategoryId>): (res: Result<Report>)
    requires r.status == Rejected ==> r.resubmissionDeadline.Some?
    ensures res.Ok? <==> CheckResubmission(r, callerId, now) == Pass && unknown == [] && !images.UploadError?
    ensures res.Ok? ==> res.value == Resubmitted(r, req, images, now)
    ensures CheckResubmission(r, callerId, now).Fail? ==> res == Err(CheckResubmission(r, callerId, now).error)
    ensures CheckResubmission(r, callerId, now) == Pass && unknown != [] ==> res == Err(CategoriesNotFound(unknown))
  {
    match CheckResubmission(r, callerId, now)
    case Fail(e) => Err(e)
    case Pass =>
      if unknown != [] then Err(CategoriesNotFound(unknown))
      else if images.UploadError? then Err(UploadFailed)
      else Ok(Resubmitted(r, req, images, now))
  }

  /** An accepted resubmission moves the report to PENDING, counts exactly
      one more resubmission, keeps the invariant (so the count never exceeds
      three) and keeps the images when none were sent. */
  lemma ResubmissionEffect(r: Report, req: ReportRequest, images: Images, callerId: UserId, now: Time)
    requires ReportInvariant(r)
    requires CheckResubmission(r, callerId, now) == Pass
    ensures var r' := Resubmitted(r, req, images, now);
      && r'.status == Pending
      && r'.resubmissionCount == r.resubmissionCount + 1 <= MaxResubmissions
      && ReportInvariant(r')
      && (images.NoImages? ==> r'.imageUrls == r.imageUrls)
      && r'.rejectionDate == r.rejectionDate && r'.resubmissionDeadline == r.resubmissionDeadline
  {
  }

  /** Once a report has been resubmitted three times the next attempt is
      refused, whatever the clock says. */
  lemma FourthResubmissionRefused(r: Report, callerId: UserId, now: Time)
    requires ReportInvariant(r)
    requires r.resubmissionCount == MaxResubmissions
    ensures CheckResubmission(r, callerId, now).Fail?
  {
  }

  /** Editing keeps the invariant and the images when none were sent. */
  lemma EditEffect(r: Report, req: ReportRequest, images: Images, now: Time)
    requires ReportInvariant(r)
    ensures ReportInvariant(Edited(r, req, images, now))
    ensures images.NoImages? ==> Edited(r, req, images, now).imageUrls == r.imageUrls
    ensures Edited(r, req, images, now).status == r.status
  {
  }

  // ---------------------------------------------------------------------
  // createReport and deleteReport

  /** The report createReport builds: PENDING, owned by the caller, not
      marked by anybody, never rejected; without images its list is null. */
  function NewReport(req: ReportRequest, images: Images, owner: UserId, now: Time): (r: Report)
    ensures ReportInvariant(r)
    ensures r.status == Pending && r.idUser == owner && r.ratingsImportant == 0 && r.likedBy == []
    ensures r.imageUrls == (if images.Uploaded? then Some(images.urls) else None)
    ensures r.title == req.title && r.description == req.description
    ensures r.location == req.location && r.categories == req.categories && r.date == now
    ensures r.resubmissionCount == 0 && !r.anonymous
    ensures r.rejectionReason.None? && r.rejectionDate.None? && r.resubmissionDeadline.None?
    ensures r.verifiedBy.None? && r.verificationDate.None? && r.resolvedBy.None? && r.resolutionDate.None?
  {
    Report(req.title, req.description, now, req.location, req.categories,
           if images.Uploaded? then Some(images.urls) else None,
           owner, Pending, 0, [], None, None, None, 0, None, None, None, None, false)
  }

  /** deleteReport's guards on a found report and caller: an administrator
      or the owner, and only a PENDING report. */
  function CheckDelete(r: Report, callerId: UserId, callerRole: Role): (o: Outcome)
    ensures o == Pass <==> (callerRole == Admin || r.idUser == callerId) && r.status == Pending
    ensures callerRole != Admin && r.idUser != callerId ==> o == Fail(Forbidden(NotOwnerNorAdmin))
    ensures (callerRole == Admin || r.idUser == callerId) && r.status != Pending ==> o == Fail(Forbidden(NotPending))
  {
    if callerRole != Admin && r.idUser != callerId then Fail(Forbidden(NotOwnerNorAdmin))
    else if r.status != Pending then Fail(Forbidden(NotPending))
    else Pass
  }

  // ---------------------------------------------------------------------
  // toggleReportImportance

  /** Un-mark: both memberships go, the counter drops by one but not below 0. */
  function Unmark(r: Report, u: User, reportId: ReportId, userId: UserId): (Report, User)
  {
    (r.(likedBy := RemoveFirst(r.likedBy, userId),
        ratingsImportant := if r.ratingsImportant > 0 then r.ratingsImportant - 1 else r.ratingsImportant),
     u.(likedReports := RemoveFirst(u.likedReports, reportId)))
  }

  /** Mark: both memberships are appended, the counter rises by one. */
  function Mark(r: Report, u: User, reportId: ReportId, userId: UserId): (Report, User)
  {
    (r.(likedBy := r.likedBy + [userId], ratingsImportant := r.ratingsImportant + 1),
     u.(likedReports := u.likedReports + [reportId]))
  }

  /** The toggle decides on the user's side of the relation. */
  function Toggle(r: Report, u: User, reportId: ReportId, userId: UserId): (Report, User)
  {
    if reportId in u.likedReports then Unmark(r, u, reportId, userId) else Mark(r, u, reportId, userId)
  }

  /** The report and the user agree on whether the user marked the report,
      neither list repeats an entry and the counter is the number of users
      who marked the report. */
  predicate PairConsistent(r: Report, u: User, reportId: ReportId, userId: UserId)
  {
    && NoDuplicates(r.likedBy) && NoDuplicates(u.likedReports)
    && (reportId in u.likedReports <==> userId in r.likedBy)
    && r.ratingsImportant == |r.likedBy|
  }

  /** The toggle keeps the pair consistent, flips the membership and moves
      the counter by exactly one. */
  lemma ToggleKeepsConsistency(r: Report, u: User, reportId: ReportId, userId: UserId)
    requires PairConsistent(r, u, reportId, userId)
    ensures var (r', u') := Toggle(r, u, reportId, userId);
      && PairConsistent(r', u', reportId, userId)
      && (reportId in u'.likedReports <==> reportId !in u.likedReports)
      && r'.ratingsImportant == (if reportId in u.likedReports then r.ratingsImportant - 1 else r.ratingsImportant + 1)
      && r'.ratingsImportant >= 0
  {
    if reportId in u.likedReports {
      RemoveFirstNoDuplicates(r.likedBy, userId);
      RemoveFirstNoDuplicates(u.likedReports, reportId);
    } else {
      AppendFresh(r.likedBy, userId);
      AppendFresh(u.likedReports, reportId);
    }
  }

  /** The toggle touches only the relation and the counter, which stays
      non-negative, so the report invariant is kept. */
  lemma ToggleKeepsReportInvariant(r: Report, u: User, reportId: ReportId, userId: UserId)
    requires ReportInvariant(r)
    ensures var (r', u') := Toggle(r, u, reportId, userId);
      ReportInvariant(r') && r' == r.(likedBy := r'.likedBy, ratingsImportant := r'.ratingsImportant)
      && u' == u.(likedReports := u'.likedReports)
  {
  }

  /** The toggle changes the report's likedBy only at the user and the
      user's likedReports only at the report. */
  lemma ToggleTouchesOnlyPair(r: Report, u: User, reportId: ReportId, userId: UserId)
    ensures var (r', u') := Toggle(r, u, reportId, userId);
      && (forall y :: y != userId ==> (y in r'.likedBy <==> y in r.likedBy))
      && (forall x :: x != reportId ==> (x in u'.likedReports <==> x in u.likedReports))
  {
    if reportId in u.likedReports {
      forall y | y != userId
        ensures y in RemoveFirst(r.likedBy, userId) <==> y in r.likedBy
      {
        RemoveFirstOthers(r.likedBy, userId, y);
      }
      forall x | x != reportId
        ensures x in RemoveFirst(u.likedReports, reportId) <==> x in u.likedReports
      {
        RemoveFirstOthers(u.likedReports, reportId, x);
      }
    }
  }

  /** The relation between all stored reports and all stored users: a
      report's likedBy holds a user exactly when the user's likedReports
      holds the report, no list repeats an entry, and every report's counter
      is the number of users who marked it. */
  predicate LikesConsistent(reports: map<ReportId, Report>, users: map<UserId, User>)
  {
    && (forall rid :: rid in reports ==>
          NoDuplicates(reports[rid].likedBy) && reports[rid].ratingsImportant == |reports[rid].likedBy|)
    && (forall uid :: uid in users ==> NoDuplicates(users[uid].likedReports))
    && (forall rid, uid :: rid in reports && uid in users ==>
          (rid in users[uid].likedReports <==> uid in reports[rid].likedBy))
  }

  /** toggleReportImportance saves both records; the relation stays
      consistent across the whole collection. */
  lemma ToggleKeepsLikesConsistent(reports: map<ReportId, Report>, users: map<UserId, User>,
                                   reportId: ReportId, userId: UserId)
    requires LikesConsistent(reports, users)
    requires reportId in reports && userId in users
    ensures var (r', u') := Toggle(reports[reportId], users[userId], reportId, userId);
      LikesConsistent(reports[reportId := r'], users[userId := u'])
  {
    var r, u := reports[reportId], users[userId];
    var (r', u') := Toggle(r, u, reportId, userId);
    assert PairConsistent(r, u, reportId, userId);
    ToggleKeepsConsistency(r, u, reportId, userId);
    ToggleTouchesOnlyPair(r, u, reportId, userId);
    var reports', users' := reports[reportId := r'], users[userId := u'];
    forall rid, uid | rid in reports' && uid in users'
      ensures rid in users'[uid].likedReports <==> uid in reports'[rid].likedBy
    {
      if rid == reportId && uid == userId {
      } else if rid == reportId {
        assert users'[uid] == users[uid];
      } else if uid == userId {
        assert reports'[rid] == reports[rid];
      } else {
        assert users'[uid] == users[uid] && reports'[rid] == reports[rid];
      }
    }
  }

  lemma AppendFresh<T>(s: seq<T>, x: T)
    requires NoDuplicates(s) && x !in s
    ensures NoDuplicates(s + [x])
  {
  }

  /** Toggling twice from "not marked" gives back exactly the same records. */
  lemma {:induction false} ToggleTwiceFromUnmarked(r: Report, u: User, reportId: ReportId, userId: UserId)
    requires PairConsistent(r, u, reportId, userId)
    requires reportId !in u.likedReports
    ensures var (r1, u1) := Toggle(r, u, reportId, userId);
            Toggle(r1, u1, reportId, userId) == (r, u)
  {
    assert userId !in r.likedBy;
    RemoveAppended(r.likedBy, userId);
    RemoveAppended(u.likedReports, reportId);
  }

  /** Toggling twice from "marked" restores the counter and both lists up
      to order: the entries move to the end of their lists. */
  lemma ToggleTwiceFromMarked(r: Report, u: User, reportId: ReportId, userId: UserId)
    requires PairConsistent(r, u, reportId, userId)
    requires reportId in u.likedReports
    ensures var (r1, u1) := Toggle(r, u, reportId, userId);
            var (r2, u2) := Toggle(r1, u1, reportId, userId);
      && r2.ratingsImportant == r.ratingsImportant
      && multiset(r2.likedBy) == multiset(r.likedBy)
      && multiset(u2.likedReports) == multiset(u.likedReports)
      && r2 == r.(likedBy := r2.likedBy) && u2 == u.(likedReports := u2.likedReports)
  {
    RemoveFirstNoDuplicates(u.likedReports, reportId);
    assert userId in multiset(r.likedBy);
    assert reportId in multiset(u.likedReports);
  }

  lemma {:induction false} RemoveAppended<T>(s: seq<T>, x: T)
    requires x !in s
    ensures RemoveFirst(s + [x], x) == s
  {
    if s != [] {
      assert (s + [x])[1..] == s[1..] + [x];
      RemoveAppended(s[1..], x);
    }
  }
}

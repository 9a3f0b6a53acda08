/** ReportServiceImpl as a class over the store: each operation looks the
    records up, runs the guards of ReportRules in the source's order, saves
    the new records and appends the messages it sends to the outbox. */
module ReportService {
  import opened Common
  import opened Domain
  import opened ReportRules
  import opened ReportFilters
  import opened Repository

  /** The request's category ids that name no stored category, in request
      order. categoryRepository.existsById ignores the status, so a
      soft-deleted category still counts as existing. */
  function UnknownCategories(ids: seq<CategoryId>, cats: map<CategoryId, Category>): (bad: seq<CategoryId>)
    ensures |bad| <= |ids|
    ensures forall i :: 0 <= i < |bad| ==> bad[i] !in cats && bad[i] in ids
    ensures bad == [] <==> forall i :: 0 <= i < |ids| ==> ids[i] in cats
  {
    if ids == [] then []
    else
      var init := ids[..|ids| - 1];
      var last := ids[|ids| - 1];
      assert forall x :: x in init ==> x in ids;
      UnknownCategories(init, cats) + (if last in cats then [] else [last])
  }

  /** Category ids are checked one by one, in request order: the unknown ids
      of a concatenation are those of each part, concatenated. */
  lemma {:induction false} UnknownCategoriesAppend(a: seq<CategoryId>, b: seq<CategoryId>,
                                                   cats: map<CategoryId, Category>)
    ensures UnknownCategories(a + b, cats) == UnknownCategories(a, cats) + UnknownCategories(b, cats)
    decreases |b|
  {
    if b == [] {
      assert a + b == a;
    } else {
      var init := b[..|b| - 1];
      assert (a + b)[..|a + b| - 1] == a + init;
      assert (a + b)[|a + b| - 1] == b[|b| - 1];
      UnknownCategoriesAppend(a, init, cats);
    }
  }

  /** Every unknown id is reported, as often as it was requested, and no
      known id is. */
  lemma {:induction false} UnknownCategoriesCount(ids: seq<CategoryId>, cats: map<CategoryId, Category>,
                                                  x: CategoryId)
    ensures multiset(UnknownCategories(ids, cats))[x] == if x in cats then 0 else multiset(ids)[x]
  {
    if ids != [] {
      var init := ids[..|ids| - 1];
      var last := ids[|ids| - 1];
      UnknownCategoriesCount(init, cats, x);
      assert ids == init + [last];
      assert multiset(ids) == multiset(init) + multiset{last};
      assert UnknownCategories(ids, cats) == UnknownCategories(init, cats) + (if last in cats then [] else [last]);
    }
  }

  /** The NewReportEvents of notifyNearbyUsers: one per user returned by the
      geo query who has a location and whose event was published; an event
      whose publication throws is logged and skipped. */
  function NearbyNotices(id: ReportId, nearby: seq<UserId>, users: map<UserId, User>,
                         failed: set<UserId>): (out: seq<Notice>)
    ensures |out| <= |nearby|
  {
    if nearby == [] then []
    else
      NearbyNotices(id, nearby[..|nearby| - 1], users, failed) +
        (if Notified(nearby[|nearby| - 1], users, failed) then [NearbyReport(id, nearby[|nearby| - 1])] else [])
  }

  /** A nearby user gets the event when it has a location and the
      publication did not fail. */
  predicate Notified(u: UserId, users: map<UserId, User>, failed: set<UserId>)
  {
    u in users && users[u].location.Some? && u !in failed
  }

  /** The events go exactly to the nearby users who are notified, and each
      is about the new report. */
  lemma {:induction false} NearbyNoticesExactly(id: ReportId, nearby: seq<UserId>, users: map<UserId, User>,
                                                failed: set<UserId>)
    ensures forall i :: 0 <= i < |NearbyNotices(id, nearby, users, failed)| ==>
      && NearbyNotices(id, nearby, users, failed)[i].NearbyReport?
      && NearbyNotices(id, nearby, users, failed)[i].report == id
      && NearbyNotices(id, nearby, users, failed)[i].user in nearby
      && Notified(NearbyNotices(id, nearby, users, failed)[i].user, users, failed)
    ensures forall u :: u in nearby && Notified(u, users, failed) ==> NearbyReport(id, u) in NearbyNotices(id, nearby, users, failed)
  {
    if nearby != [] {
      var init, u := nearby[..|nearby| - 1], nearby[|nearby| - 1];
      NearbyNoticesExactly(id, init, users, failed);
      var out0 := NearbyNotices(id, init, users, failed);
      var tail := if Notified(u, users, failed) then [NearbyReport(id, u)] else [];
      var out := NearbyNotices(id, nearby, users, failed);
      assert out == out0 + tail;
      assert nearby == init + [u];
      forall i | 0 <= i < |out|
        ensures out[i].NearbyReport? && out[i].report == id
        ensures out[i].user in nearby && Notified(out[i].user, users, failed)
      {
        if i < |out0| {
          assert out[i] == out0[i];
          assert out0[i].user in init;
          assert out0[i].user in nearby;
        } else {
          assert out[i] == tail[i - |out0|];
          assert |tail| == 1 && tail[0] == NearbyReport(id, u) && Notified(u, users, failed);
          assert u == nearby[|nearby| - 1];
        }
      }
      forall v | v in nearby && Notified(v, users, failed)
        ensures NearbyReport(id, v) in out
      {
        if v in init {
          assert NearbyReport(id, v) in out0;
        } else {
          assert v == u;
          assert out[|out0|] == NearbyReport(id, u);
        }
      }
    }
  }

  /** validateAdmin. */
  function AdminCheck(users: map<UserId, User>, userId: UserId): (o: Outcome)
    ensures o == Pass <==> userId in users && users[userId].role == Admin
    ensures userId !in users ==> o == Fail(NotFound)
    ensures userId in users && users[userId].role != Admin ==> o == Fail(Forbidden(NotAdmin))
  {
    if userId !in users then Fail(NotFound)
    else if users[userId].role != Admin then Fail(Forbidden(NotAdmin))
    else Pass
  }

  class Service {
    const store: Store
    const outbox: Outbox
    /** calculateDistance (haversine), left abstract. */
    const dist: Distance

    constructor(store: Store, outbox: Outbox, dist: Distance)
      ensures this.store == store && this.outbox == outbox && this.dist == dist
    {
      this.store := store;
      this.outbox := outbox;
      this.dist := dist;
    }

    /** The forEach of createReport collecting every unknown category id. */
    method InvalidCategories(ids: seq<CategoryId>) returns (bad: seq<CategoryId>)
      ensures bad == UnknownCategories(ids, store.categories)
    {
      bad := [];
      var i := 0;
      while i < |ids|
        invariant 0 <= i <= |ids|
        invariant bad == UnknownCategories(ids[..i], store.categories)
      {
        assert ids[..i + 1][..i] == ids[..i];
        if ids[i] !in store.categories {
          bad := bad + [ids[i]];
        }
        i := i + 1;
      }
      assert ids[..|ids|] == ids;
    }

    /** notifyNearbyUsers: publishes one event per nearby user with a
        location; failures are swallowed. */
    method NotifyNearbyUsers(id: ReportId, nearby: seq<UserId>, failed: set<UserId>)
      modifies outbox`sent
      ensures outbox.sent == old(outbox.sent) + NearbyNotices(id, nearby, store.users, failed)
    {
      var i := 0;
      while i < |nearby|
        invariant 0 <= i <= |nearby|
        invariant outbox.sent == old(outbox.sent) + NearbyNotices(id, nearby[..i], store.users, failed)
      {
        assert nearby[..i + 1][..i] == nearby[..i];
        var u := nearby[i];
        if Notified(u, store.users, failed) {
          outbox.sent := outbox.sent + [NearbyReport(id, u)];
        }
        i := i + 1;
      }
      assert nearby[..|nearby|] == nearby;
    }

    /** createReport. `nearby` is the answer of the geo query for users
        within 10 km other than the author, `failed` the users whose event
        could not be published. */
    method CreateReport(req: ReportRequest, images: Images, userId: UserId, now: Time,
                        nearby: seq<UserId>, failed: set<UserId>) returns (res: Result<ReportId>)
      requires store.Valid()
      requires userId !in nearby
      modifies store`reports, store`users, store`nextReportId, outbox`sent
      ensures store.Valid()
      ensures res.Ok? <==>
        userId in old(store.users) && UnknownCategories(req.categories, store.categories) == [] && !images.UploadError?
      ensures userId !in old(store.users) ==> res == Err(NotFound)
      ensures userId in old(store.users) && UnknownCategories(req.categories, store.categories) != [] ==>
        res == Err(CategoriesNotFound(UnknownCategories(req.categories, store.categories)))
      ensures res.Err? ==> unchanged(store, outbox)
      ensures res.Ok? ==>
        && res.value == old(store.nextReportId) && res.value !in old(store.reports)
        && store.reports == old(store.reports)[res.value := NewReport(req, images, userId, now)]
        && store.users == old(store.users)[userId := old(store.users)[userId].(reports := old(store.users)[userId].reports + [res.value])]
        && store.nextReportId == old(store.nextReportId) + 1
        && outbox.sent == old(outbox.sent) + NearbyNotices(res.value, nearby, store.users, failed)
      ensures res.Ok? ==> forall i :: |old(outbox.sent)| <= i < |outbox.sent| ==>
        outbox.sent[i].NearbyReport? && outbox.sent[i].user != userId
    {
      if userId !in store.users {
        return Err(NotFound);
      }
      var user := store.users[userId];
      var bad := InvalidCategories(req.categories);
      if bad != [] {
        return Err(CategoriesNotFound(bad));
      }
      if images.UploadError? {
        return Err(UploadFailed);
      }
      var id := store.nextReportId;
      store.reports := store.reports[id := NewReport(req, images, userId, now)];
      store.nextReportId := store.nextReportId + 1;
      store.users := store.users[userId := user.(reports := user.reports + [id])];
      NotifyNearbyUsers(id, nearby, failed);
      NearbyNoticesExactly(id, nearby, store.users, failed);
      res := Ok(id);
    }

    /** updateReport. */
    method UpdateReport(req: ReportRequest, images: Images, reportId: ReportId, userId: UserId, now: Time)
      returns (res: Result<Report>)
      requires store.Valid()
      modifies store`reports
      ensures store.Valid()
      ensures reportId !in old(store.reports) ==> res == Err(NotFound)
      ensures reportId in old(store.reports) ==>
        res == EditResult(old(store.reports)[reportId], req, images, userId, now,
                          UnknownCategories(req.categories, store.categories))
      ensures res.Ok? ==> store.reports == old(store.reports)[reportId := res.value]
      ensures res.Err? ==> store.reports == old(store.reports)
    {
      if reportId !in store.reports {
        return Err(NotFound);
      }
      var report := store.reports[reportId];
      var bad := InvalidCategories(req.categories);
      res := EditResult(report, req, images, userId, now, bad);
      if res.Ok? {
        EditEffect(report, req, images, now);
        store.reports := store.reports[reportId := res.value];
      }
    }

    /** deleteReport: the id leaves the store and the caller's own list of
        reports, which is the owner's list only when the caller owns it. */
    method DeleteReport(reportId: ReportId, callerId: UserId) returns (o: Outcome)
      requires store.Valid()
      modifies store`reports, store`users
      ensures store.Valid()
      ensures reportId !in old(store.reports) || callerId !in old(store.users) ==> o == Fail(NotFound)
      ensures reportId in old(store.reports) && callerId in old(store.users) ==>
        o == CheckDelete(old(store.reports)[reportId], callerId, old(store.users)[callerId].role)
      ensures o.Fail? ==> store.reports == old(store.reports) && store.users == old(store.users)
      ensures o == Pass ==>
        && store.reports == old(store.reports) - {reportId}
        && store.users == old(store.users)[callerId := old(store.users)[callerId].(
             reports := RemoveFirst(old(store.users)[callerId].reports, reportId))]
    {
      if reportId !in store.reports || callerId !in store.users {
        return Fail(NotFound);
      }
      var report := store.reports[reportId];
      var user := store.users[callerId];
      o := CheckDelete(report, callerId, user.role);
      if o == Pass {
        store.reports := store.reports - {reportId};
        store.users := store.users[callerId := user.(reports := RemoveFirst(user.reports, reportId))];
      }
    }

    /** toggleReportImportance; the two saves are one step here. */
    method ToggleReportImportance(reportId: ReportId, userId: UserId) returns (o: Outcome)
      requires store.Valid()
      modifies store`reports, store`users
      ensures store.Valid()
      ensures old(LikesConsistent(store.reports, store.users)) ==> LikesConsistent(store.reports, store.users)
      ensures o == Pass <==> reportId in old(store.reports) && userId in old(store.users)
      ensures o.Fail? ==> o == Fail(NotFound) && store.reports == old(store.reports) && store.users == old(store.users)
      ensures o == Pass ==>
        var (r, u) := Toggle(old(store.reports)[reportId], old(store.users)[userId], reportId, userId);
        store.reports == old(store.reports)[reportId := r] && store.users == old(store.users)[userId := u]
    {
      if reportId !in store.reports || userId !in store.users {
        return Fail(NotFound);
      }
      var r0, u0 := store.reports[reportId], store.users[userId];
      var (r, u) := Toggle(r0, u0, reportId, userId);
      ToggleKeepsReportInvariant(r0, u0, reportId, userId);
      if LikesConsistent(store.reports, store.users) {
        ToggleKeepsLikesConsistent(store.reports, store.users, reportId, userId);
      }
      store.PutReport(reportId, r);
      store.users := store.users[userId := u];
      o := Pass;
    }

    /** updateReportStatus: on success the change is broadcast, flagged when
        an administrator verified the report. */
    method UpdateReportStatus(reportId: ReportId, target: ReportStatus, reason: Option<string>,
                              userId: UserId, now: Time) returns (res: Result<Report>)
      requires store.Valid()
      modifies store`reports, outbox`sent
      ensures store.Valid()
      ensures reportId !in old(store.reports) || userId !in store.users ==> res == Err(NotFound)
      ensures reportId in old(store.reports) && userId in store.users ==>
        res == StatusChangeResult(old(store.reports)[reportId], target, reason, userId, store.users[userId].role, now)
      ensures res.Err? ==> store.reports == old(store.reports) && outbox.sent == old(outbox.sent)
      ensures res.Ok? ==>
        && store.reports == old(store.reports)[reportId := res.value]
        && outbox.sent == old(outbox.sent) + [StatusChanged(reportId, old(store.reports)[reportId].status, target,
                                                            store.users[userId].role == Admin && target == Verified)]
    {
      if reportId !in store.reports || userId !in store.users {
        return Err(NotFound);
      }
      var report := store.reports[reportId];
      var role := store.users[userId].role;
      res := StatusChangeResult(report, target, reason, userId, role, now);
      if res.Ok? {
        ApplyStatusKeepsInvariant(report, target, reason, userId, role, now);
        store.reports := store.reports[reportId := res.value];
        outbox.sent := outbox.sent + [StatusChanged(reportId, report.status, target, role == Admin && target == Verified)];
      }
    }

    /** rejectReportWithReason. The report is saved before its owner is
        looked up, so a missing owner raises NotFound after the rejection
        is stored. `emailSent` says whether the mail server accepted the
        e-mail; a refusal is logged and ignored. */
    method RejectReportWithReason(reportId: ReportId, reason: Option<string>, adminId: UserId, now: Time,
                                  emailSent: bool) returns (res: Result<Report>)
      requires store.Valid()
      modifies store`reports, outbox`sent
      ensures store.Valid()
      ensures adminId !in store.users ==> res == Err(NotFound)
      ensures adminId in store.users && store.users[adminId].role != Admin ==> res == Err(Forbidden(NotAdmin))
      ensures adminId in store.users && store.users[adminId].role == Admin && reportId !in old(store.reports) ==>
        res == Err(NotFound)
      ensures adminId in store.users && store.users[adminId].role == Admin && reportId in old(store.reports) ==>
        var rejected := RejectResult(old(store.reports)[reportId], reason, now);
        && (rejected.Err? ==> res == rejected && store.reports == old(store.reports))
        && (rejected.Ok? ==>
              && store.reports == old(store.reports)[reportId := rejected.value]
              && (res.Ok? <==> rejected.value.idUser in store.users)
              && (res.Ok? ==> res == rejected)
              && (res.Err? ==> res == Err(NotFound)))
      ensures res.Ok? ==>
        && reason.Some? && res.value.idUser in store.users
        && outbox.sent == old(outbox.sent)
          + (if emailSent then [RejectionEmail(store.users[res.value.idUser].email, reportId, reason.value)] else [])
          + [RejectionNotice(res.value.idUser, reportId, reason.value)]
      ensures res.Err? ==> outbox.sent == old(outbox.sent)
    {
      if adminId !in store.users {
        return Err(NotFound);
      }
      if store.users[adminId].role != Admin {
        return Err(Forbidden(NotAdmin));
      }
      if reportId !in store.reports {
        return Err(NotFound);
      }
      var rejected := RejectResult(store.reports[reportId], reason, now);
      if rejected.Err? {
        return rejected;
      }
      var report := rejected.value;
      store.reports := store.reports[reportId := report];
      if report.idUser !in store.users {
        return Err(NotFound);
      }
      var owner := store.users[report.idUser];
      if emailSent {
        outbox.sent := outbox.sent + [RejectionEmail(owner.email, reportId, reason.value)];
      }
      outbox.sent := outbox.sent + [RejectionNotice(report.idUser, reportId, reason.value)];
      res := rejected;
    }

    /** resubmitReport. */
    method ResubmitReport(req: ReportRequest, images: Images, reportId: ReportId, userId: UserId, now: Time)
      returns (res: Result<Report>)
      requires store.Valid()
      modifies store`reports
      ensures store.Valid()
      ensures reportId !in old(store.reports) ==> res == Err(NotFound)
      ensures reportId in old(store.reports) ==>
        res == ResubmitResult(old(store.reports)[reportId], req, images, userId, now,
                              UnknownCategories(req.categories, store.categories))
      ensures res.Ok? ==> store.reports == old(store.reports)[reportId := res.value]
      ensures res.Err? ==> store.reports == old(store.reports)
    {
      if reportId !in store.reports {
        return Err(NotFound);
      }
      var report := store.reports[reportId];
      var bad := InvalidCategories(req.categories);
      res := ResubmitResult(report, req, images, userId, now, bad);
      if res.Ok? {
        ResubmissionEffect(report, req, images, userId, now);
        store.reports := store.reports[reportId := res.value];
      }
    }

    /** getReportsWithFilters: administrators only; the ids of the reports
        every given criterion accepts. */
    method GetReportsWithFilters(f: Filter, adminId: UserId) returns (res: Result<set<ReportId>>)
      ensures AdminCheck(store.users, adminId).Fail? ==> res == Err(AdminCheck(store.users, adminId).error)
      ensures AdminCheck(store.users, adminId) == Pass ==>
        res.Ok? && forall id :: id in res.value <==> id in store.reports && AdminMatches(store.reports[id], f, dist)
    {
      var check := AdminCheck(store.users, adminId);
      if check.Fail? {
        return Err(check.error);
      }
      res := Ok(set id | id in store.reports && AdminMatches(store.reports[id], f, dist));
    }

    /** getReportsByUserId: the stored reports among the user's list of ids
        (findAllById skips ids that no longer exist). */
    method GetReportsByUserId(userId: UserId) returns (res: Result<set<ReportId>>)
      ensures userId !in store.users <==> res == Err(NotFound)
      ensures res.Ok? ==> forall id :: id in res.value <==> id in store.users[userId].reports && id in store.reports
    {
      if userId !in store.users {
        return Err(NotFound);
      }
      var ids := store.users[userId].reports;
      res := Ok(set i | 0 <= i < |ids| && ids[i] in store.reports :: ids[i]);
    }

    /** getReportById. */
    method GetReportById(reportId: ReportId) returns (res: Result<Report>)
      ensures reportId !in store.reports <==> res == Err(NotFound)
      ensures res.Ok? ==> res.value == store.reports[reportId]
    {
      if reportId !in store.reports {
        return Err(NotFound);
      }
      res := Ok(store.reports[reportId]);
    }

    /** getLikedBy: a copy of the users who marked the report. */
    method GetLikedBy(reportId: ReportId) returns (res: Result<seq<UserId>>)
      ensures reportId !in store.reports <==> res == Err(NotFound)
      ensures res.Ok? ==> res.value == store.reports[reportId].likedBy
    {
      if reportId !in store.reports {
        return Err(NotFound);
      }
      res := Ok(store.reports[reportId].likedBy);
    }

    /** getLikedReports: a copy of the reports the user marked. */
    method GetLikedReports(userId: UserId) returns (res: Result<seq<ReportId>>)
      ensures userId !in store.users <==> res == Err(NotFound)
      ensures res.Ok? ==> res.value == store.users[userId].likedReports
    {
      if userId !in store.users {
        return Err(NotFound);
      }
      res := Ok(store.users[userId].likedReports);
    }
  }
}

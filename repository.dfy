/** The MongoDB collections the services read and write, as maps from ids to
    records, and the log of messages the services send out (e-mails,
    WebSocket messages and application events). */
module Repository {
  import opened Common
  import opened Domain

  /** One outgoing message; its text is not modelled. */
  datatype Notice =
    | NearbyReport(report: ReportId, user: UserId)                       // NewReportEvent to a nearby user
    | StatusChanged(report: ReportId, from: ReportStatus, to: ReportStatus,
                    verifiedByAdmin: bool)                               // broadcast on /queue/status-updates
    | RejectionEmail(email: string, report: ReportId, reason: string)
    | RejectionNotice(user: UserId, report: ReportId, reason: string)    // sent to the user on /queue/report-rejections
    | ActivationEmail(email: string, code: string)
    | ResetEmail(email: string, code: string)

  /** No two ACTIVE categories share a name. */
  predicate ActiveNamesUnique(cats: map<CategoryId, Category>)
  {
    forall a, b ::
      a in cats && b in cats && a != b && cats[a].status == ActiveCategory && cats[b].status == ActiveCategory
      ==> cats[a].name != cats[b].name
  }

  /** Whether an ACTIVE category has this name (existsByNameAndStatus). */
  predicate ActiveNameTaken(cats: map<CategoryId, Category>, name: string)
  {
    exists id :: id in cats && cats[id].status == ActiveCategory && cats[id].name == name
  }

  /** UserRepository.findByEmail looks only at users that are not DELETED. */
  predicate EmailInUse(users: map<UserId, User>, email: string)
  {
    exists id :: id in users && users[id].status != Deleted && users[id].email == email
  }

  /** No two users that are not DELETED share an e-mail address. */
  predicate EmailsUnique(users: map<UserId, User>)
  {
    forall a, b ::
      a in users && b in users && a != b && users[a].status != Deleted && users[b].status != Deleted
      ==> users[a].email != users[b].email
  }

  /** Replacing a user by a record with the same address, visible to
      findByEmail exactly when the old one was, keeps the addresses unique. */
  lemma {:induction false} SameLoginKeepsEmailsUnique(users: map<UserId, User>, id: UserId, u: User)
    requires EmailsUnique(users) && id in users
    requires u.email == users[id].email && (u.status == Deleted <==> users[id].status == Deleted)
    ensures EmailsUnique(users[id := u])
  {
    var users' := users[id := u];
    forall a, b | a in users' && b in users' && a != b && users'[a].status != Deleted && users'[b].status != Deleted
      ensures users'[a].email != users'[b].email
    {
      assert users'[a].email == users[a].email && (users'[a].status == Deleted <==> users[a].status == Deleted);
      assert users'[b].email == users[b].email && (users'[b].status == Deleted <==> users[b].status == Deleted);
    }
  }

  class Store {
    var reports: map<ReportId, Report>
    var users: map<UserId, User>
    var categories: map<CategoryId, Category>
    /** The ids the database assigns to the next report and category. */
    var nextReportId: nat
    var nextCategoryId: nat

    predicate Valid()
      reads this
    {
      && (forall id :: id in reports ==> id < nextReportId && ReportInvariant(reports[id]))
      && (forall id :: id in categories ==> id < nextCategoryId)
      && ActiveNamesUnique(categories)
    }

    constructor()
      ensures Valid()
      ensures reports == map[] && users == map[] && categories == map[]
    {
      reports := map[];
      users := map[];
      categories := map[];
      nextReportId := 0;
      nextCategoryId := 0;
    }

    /** Saving a report that keeps the invariant under an id already
        handed out. */
    method PutReport(id: ReportId, r: Report)
      requires Valid() && id < nextReportId && ReportInvariant(r)
      modifies this`reports
      ensures Valid() && reports == old(reports)[id := r]
    {
      reports := reports[id := r];
    }

    /** UserRepository.findByEmail: a user, not DELETED, with this address
        (the only one while the addresses are unique). */
    method FindByEmail(email: string) returns (r: Option<UserId>)
      ensures r.None? <==> !EmailInUse(users, email)
      ensures r.Some? ==> r.value in users && users[r.value].status != Deleted && users[r.value].email == email
      ensures r.Some? && EmailsUnique(users) ==>
        forall id :: id in users && users[id].status != Deleted && users[id].email == email ==> id == r.value
    {
      if id :| id in users && users[id].status != Deleted && users[id].email == email {
        r := Some(id);
      } else {
        r := None;
      }
    }
  }

  class Outbox {
    var sent: seq<Notice>

    constructor()
      ensures sent == []
    {
      sent := [];
    }
  }
}

/** The records the services read and write: reports, users and their
    one-time codes, as the services' getters and setters use them. */
module Domain {
  import opened Common

  type UserId = string
  type ReportId = nat
  type CategoryId = nat

  datatype ReportStatus = Pending | Verified | Rejected | Resolved | Anonymous

  /** Enum.name() of a report status. */
  function StatusName(s: ReportStatus): string
  {
    match s
    case Pending => "PENDING"
    case Verified => "VERIFIED"
    case Rejected => "REJECTED"
    case Resolved => "RESOLVED"
    case Anonymous => "ANONYMOUS"
  }

  datatype Role = Client | Admin

  datatype UserStatus = Registered | Active | Inactive | Deleted

  /** Owner id written into a report when its owner is deactivated. */
  const AnonymousOwner: UserId := "ANONYMOUS"

  /** A rejected report may be corrected and resubmitted for five days ... */
  const ResubmissionWindow: int := 5 * MillisPerDay
  /** ... and at most three times. */
  const MaxResubmissions: int := 3
  /** Activation and password-reset codes live fifteen minutes. */
  const CodeLifetime: int := 15 * MillisPerMinute

  /** A GeoJSON point: x is the longitude, y the latitude. */
  datatype Point = Point(longitude: real, latitude: real)

  datatype Report = Report(
    title: string,
    description: string,
    date: Time,                          // creation, or last edit / resubmission
    location: Point,
    categories: seq<CategoryId>,
    imageUrls: Option<seq<string>>,      // null when the report was created without images
    idUser: UserId,                      // owner, or AnonymousOwner
    status: ReportStatus,
    ratingsImportant: int,               // how many users marked the report important
    likedBy: seq<UserId>,
    rejectionReason: Option<string>,
    rejectionDate: Option<Time>,
    resubmissionDeadline: Option<Time>,
    resubmissionCount: int,
    verifiedBy: Option<UserId>,
    verificationDate: Option<Time>,
    resolvedBy: Option<UserId>,
    resolutionDate: Option<Time>,
    anonymous: bool)

  /** An activation code or a password-reset code. */
  datatype OneTimeCode = OneTimeCode(code: string, creationDate: Time, expirationDate: Time, used: bool)

  datatype User = User(
    name: string,
    email: string,
    password: string,                    // the encoded password
    role: Role,
    status: UserStatus,
    location: Option<Point>,
    active: bool,
    deactivationDate: Option<Time>,
    reports: seq<ReportId>,
    activationCodes: seq<OneTimeCode>,
    resetCodes: seq<OneTimeCode>,
    likedReports: seq<ReportId>)

  datatype CategoryStatus = ActiveCategory | DeletedCategory

  datatype Category = Category(name: string, description: string, status: CategoryStatus)

  /** What every stored report satisfies: a rejected report has its
      deadline, the deadline is stamped together with the rejection date,
      five days after it, and the counters stay in range. */
  predicate ReportInvariant(r: Report)
  {
    && (r.status == Rejected ==> r.resubmissionDeadline.Some?)
    && (r.rejectionDate.Some? <==> r.resubmissionDeadline.Some?)
    && (r.rejectionDate.Some? ==> r.resubmissionDeadline.value == r.rejectionDate.value + ResubmissionWindow)
    && 0 <= r.resubmissionCount <= MaxResubmissions
    && r.ratingsImportant >= 0
  }
}

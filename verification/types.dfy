/**
 * The records of the achievement system: user roles, achievement statuses,
 * achievement, user, notification and category documents, and the dashboard
 * counters. Timestamps are milliseconds since the epoch.
 */
module Types {
  import opened Wrappers
  import Text

  /** Document id assigned by the store when a document is added. */
  type Id = nat

  /** Decimal text of a document id, as it appears in paths, URLs and messages. */
  function IdText(id: Id): string {
    Text.NatToString(id)
  }

  // ---------------------------------------------------------------- roles

  datatype UserRole = Student | Faculty | Admin | VerificationTeam {
    /** The string stored in a user document's `role` field. */
    function Wire(): string {
      match this
      case Student => "student"
      case Faculty => "faculty"
      case Admin => "admin"
      case VerificationTeam => "verification_team"
    }
  }

  function ParseRole(s: string): (r: Option<UserRole>)
    ensures r.Some? ==> r.value.Wire() == s
  {
    if s == "student" then Some(Student)
    else if s == "faculty" then Some(Faculty)
    else if s == "admin" then Some(Admin)
    else if s == "verification_team" then Some(VerificationTeam)
    else None
  }

  /** Every role survives a trip through its stored string, so the four strings are distinct. */
  lemma RoleRoundTrip(r: UserRole)
    ensures ParseRole(r.Wire()) == Some(r)
  {
  }

  /** Exactly four strings name a role. */
  lemma RoleStrings(s: string)
    ensures ParseRole(s).Some? <==> s in {"student", "faculty", "admin", "verification_team"}
  {
  }

  // ---------------------------------------------------------------- statuses

  datatype AchievementStatus = Pending | Approved | Rejected {
    function Wire(): string {
      match this
      case Pending => "pending"
      case Approved => "approved"
      case Rejected => "rejected"
    }
  }

  function ParseStatus(s: string): (r: Option<AchievementStatus>)
    ensures r.Some? ==> r.value.Wire() == s
  {
    if s == "pending" then Some(Pending)
    else if s == "approved" then Some(Approved)
    else if s == "rejected" then Some(Rejected)
    else None
  }

  lemma StatusRoundTrip(st: AchievementStatus)
    ensures ParseStatus(st.Wire()) == Some(st)
  {
  }

  /** Exactly three strings name a status. */
  lemma StatusStrings(s: string)
    ensures ParseStatus(s).Some? <==> s in {"pending", "approved", "rejected"}
  {
  }

  // ---------------------------------------------------------------- JavaScript `||` on optional text

  /** A value JavaScript treats as true: present and not the empty string. */
  predicate Truthy(s: Option<string>) {
    s.Some? && s.value != ""
  }

  /** `a || b` on optional text: `a` when it is truthy, otherwise `b`. */
  function Or(a: Option<string>, b: Option<string>): Option<string> {
    if Truthy(a) then a else b
  }

  /** `a || fallback` where the fallback is a string. */
  function OrElse(a: Option<string>, fallback: string): string {
    if Truthy(a) then a.value else fallback
  }

  /** `${value}` in a template literal: a missing value prints as `undefined`. */
  function Template(s: Option<string>): string {
    match s
    case Some(v) => v
    case None => "undefined"
  }

  // ---------------------------------------------------------------- documents

  /**
   * An achievement document together with its id. Optional text fields that
   * every consumer only tests for truthiness (certificate and review text)
   * are strings where "" stands for absent; the two department fields are
   * compared with `!==` and `===`, so their absence is kept apart from "".
   */
  datatype Achievement = Achievement(
    id: Id,
    studentId: string,
    studentEmail: string,
    studentName: string,
    title: string,
    description: string,
    category: string,
    organizationName: string,
    eventDate: int,
    certificateUrl: string,
    certificateFileName: string,
    certificateSize: nat,
    status: AchievementStatus,
    remarks: string,
    verifiedBy: string,
    verifiedByName: string,
    verificationDate: Option<int>,
    department: Option<string>,
    studentDepartment: Option<string>,
    submittedAt: int,
    updatedAt: int,
    tags: seq<string>,
    isPublic: bool)

  /** The signed-in user as the components see it. `role` is the stored string. */
  datatype User = User(
    id: string,
    email: string,
    name: string,
    role: Option<string>,
    department: Option<string>,
    createdAt: int,
    updatedAt: int)

  /** A user document in the `users` collection, keyed by the auth uid; any field may be missing. */
  datatype UserDoc = UserDoc(
    id: Option<string>,
    email: Option<string>,
    name: Option<string>,
    displayName: Option<string>,
    role: Option<string>,
    department: Option<string>,
    profileImageUrl: Option<string>,
    phoneNumber: Option<string>,
    enrollmentNumber: Option<string>,
    createdAt: Option<int>,
    updatedAt: Option<int>,
    lastLogin: Option<int>,
    isActive: bool)

  datatype Priority = High | Normal

  /** A notification document; `kind` is the `type` field. */
  datatype Notification = Notification(
    id: Id,
    userId: string,
    kind: string,
    title: string,
    message: string,
    relatedAchievementId: string,
    relatedAchievementTitle: string,
    actionUrl: string,
    isRead: bool,
    createdAt: int,
    readAt: Option<int>,
    priority: Priority)

  /** A category document. */
  datatype Category = Category(
    id: Id,
    name: string,
    slug: string,
    description: string,
    icon: string,
    color: string,
    order: int,
    isActive: bool,
    createdAt: int,
    updatedAt: int)

  /** The six counters of the admin dashboard. */
  datatype DashboardStats = DashboardStats(
    totalAchievements: nat,
    approvedAchievements: nat,
    pendingAchievements: nat,
    rejectedAchievements: nat,
    totalStudents: nat,
    totalFaculty: nat)

  // ---------------------------------------------------------------- keys and predicates over records

  function SubmittedAt(a: Achievement): int {
    a.submittedAt
  }

  function StatusIs(st: AchievementStatus): Achievement -> bool {
    (a: Achievement) => a.status == st
  }

  function StudentIs(uid: string): Achievement -> bool {
    (a: Achievement) => a.studentId == uid
  }

  /** The review fields: what a status update writes. */
  predicate SameReview(a: Achievement, b: Achievement) {
    a.status == b.status && a.remarks == b.remarks && a.verifiedBy == b.verifiedBy
    && a.verifiedByName == b.verifiedByName && a.verificationDate == b.verificationDate
  }

  /** The certificate fields: what a certificate upload writes. */
  predicate SameCertificate(a: Achievement, b: Achievement) {
    a.certificateUrl == b.certificateUrl && a.certificateFileName == b.certificateFileName
    && a.certificateSize == b.certificateSize
  }

  /** Everything the submitter supplied, and the record's identity. */
  predicate SameSubmission(a: Achievement, b: Achievement) {
    a.id == b.id && a.studentId == b.studentId && a.studentEmail == b.studentEmail
    && a.studentName == b.studentName && a.title == b.title && a.description == b.description
    && a.category == b.category && a.organizationName == b.organizationName
    && a.eventDate == b.eventDate && a.department == b.department
    && a.studentDepartment == b.studentDepartment && a.submittedAt == b.submittedAt
    && a.tags == b.tags && a.isPublic == b.isPublic
  }

  /** A record carries a verification date exactly when it has left the pending state. */
  predicate DateMatchesStatus(a: Achievement) {
    a.verificationDate.Some? <==> a.status != Pending
  }
}

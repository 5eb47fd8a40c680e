/**
 * The authentication service: e-mail registration and login, the profile
 * lookup with its bounded retry, and the two Google paths. Sign-in state is a
 * `Session`, the `users` collection a `Directory` keyed by the auth uid. The
 * answers of the authentication provider (account creation, password check,
 * popup) and of each read and write are parameters chosen by the environment.
 */
module AuthService {
  import opened Wrappers
  import opened Types
  import opened FirebaseErrors

  /** Who is signed in: the uid of the current auth user, if any. */
  class Session {
    var current: Option<string>

    constructor ()
      ensures current == None
    {
      current := None;
    }

    /** `signOut`. */
    method SignOut()
      modifies this
      ensures current == None
    {
      current := None;
    }
  }

  /** The `users` collection: one profile document per auth uid. */
  class Directory {
    var users: map<string, UserDoc>

    constructor ()
      ensures users == map[]
    {
      users := map[];
    }
  }

  /** The user the popup signs in. */
  datatype GoogleUser = GoogleUser(
    uid: string, email: Option<string>, displayName: Option<string>,
    photoUrl: Option<string>, phoneNumber: Option<string>)

  /** What one `getDoc` of a profile gives: the document, no document, or a thrown error. */
  datatype ProfileRead = Found(doc: UserDoc) | Missing | ReadFailed

  /** An `Error` built from a message alone: it has no code. */
  function Thrown(message: string): ErrorValue {
    ErrorValue(None, Some(message))
  }

  const MaxReads: nat := 4

  const AccountNotFound: string := "User account not found. Please register first before logging in."
  const GoogleAccountNotFound: string := "User account not found. Please register first before logging in with Google."

  // ---------------------------------------------------------------- the profile lookup

  /**
   * The user built from a profile document: a missing or empty id, name or
   * department falls back to the uid, the display name and then `User`, and
   * the empty string; missing timestamps to the time of the read.
   */
  function ToUser(uid: string, d: UserDoc, now: int): (u: User)
    ensures u.id == (if Truthy(d.id) then d.id.value else uid)
    ensures u.name != "" && (Truthy(d.name) ==> u.name == d.name.value)
    ensures !Truthy(d.name) && Truthy(d.displayName) ==> u.name == d.displayName.value
    ensures !Truthy(d.name) && !Truthy(d.displayName) ==> u.name == "User"
    ensures u.email == (if Truthy(d.email) then d.email.value else "")
    ensures u.department.Some? && (u.department.value == "" <==> !Truthy(d.department))
    ensures Truthy(d.department) ==> u.department == d.department
    ensures u.role == d.role
    ensures u.createdAt == (if d.createdAt.Some? then d.createdAt.value else now)
    ensures u.updatedAt == (if d.updatedAt.Some? then d.updatedAt.value else now)
  {
    User(
      OrElse(d.id, uid), OrElse(d.email, ""), OrElse(Or(d.name, d.displayName), "User"),
      d.role, Some(OrElse(d.department, "")), d.createdAt.GetOr(now), d.updatedAt.GetOr(now))
  }

  /**
   * `getUserProfile`. `answers[j]` is what read number `j` would see; a read
   * that finds nothing is repeated at most three times, and a read that throws
   * ends the lookup with no profile. `attempts` is how many reads were made.
   */
  method GetUserProfile(uid: string, answers: seq<ProfileRead>, now: int) returns (r: Option<User>, attempts: nat)
    requires |answers| == MaxReads
    ensures 1 <= attempts <= MaxReads
    ensures forall j | 0 <= j < attempts - 1 :: answers[j].Missing?
    ensures attempts < MaxReads ==> !answers[attempts - 1].Missing?
    ensures r == if answers[attempts - 1].Found? then Some(ToUser(uid, answers[attempts - 1].doc, now)) else None
  {
    var snap := answers[0];
    attempts := 1;
    var retries := 0;
    while snap.Missing? && retries < 3
      invariant 0 <= retries <= 3 && attempts == retries + 1
      invariant snap == answers[attempts - 1]
      invariant forall j | 0 <= j < attempts - 1 :: answers[j].Missing?
    {
      snap := answers[attempts];
      attempts := attempts + 1;
      retries := retries + 1;
    }
    match snap
    case Found(d) => r := Some(ToUser(uid, d, now));
    case Missing => r := None;
    case ReadFailed => r := None;
  }

  /** The lookup finds the profile as soon as one read sees it, however many reads missed it before. */
  lemma FoundWithinRetries(answers: seq<ProfileRead>, k: nat)
    requires |answers| == MaxReads && k < MaxReads && answers[k].Found?
    requires forall j | 0 <= j < k :: answers[j].Missing?
    ensures FirstSeen(answers) == Some(answers[k].doc)
  {
    if k > 0 {
      assert answers[0].Missing?;
    }
    if k > 1 {
      assert answers[1].Missing?;
    }
    if k > 2 {
      assert answers[2].Missing?;
    }
  }

  /** The document the lookup ends with, as the loop would find it: the first read that is not a miss decides. */
  function FirstSeen(answers: seq<ProfileRead>): (d: Option<UserDoc>)
    requires |answers| == MaxReads
    ensures d.Some? ==> exists k | 0 <= k < MaxReads :: answers[k] == Found(d.value)
  {
    if !answers[0].Missing? then (if answers[0].Found? then Some(answers[0].doc) else None)
    else if !answers[1].Missing? then (if answers[1].Found? then Some(answers[1].doc) else None)
    else if !answers[2].Missing? then (if answers[2].Found? then Some(answers[2].doc) else None)
    else if answers[3].Found? then Some(answers[3].doc) else None
  }

  /** The loop computes exactly the unrolled lookup. */
  method GetUserProfileIsFirstSeen(uid: string, answers: seq<ProfileRead>, now: int) returns (r: Option<User>)
    requires |answers| == MaxReads
    ensures r == (match FirstSeen(answers) case Some(d) => Some(ToUser(uid, d, now)) case None => None)
  {
    var attempts;
    r, attempts := GetUserProfile(uid, answers, now);
  }

  // ---------------------------------------------------------------- registration

  /** The profile `register` writes: the given role and department, active, empty optional fields. */
  function RegisteredDoc(uid: string, email: string, displayName: string, role: UserRole, department: string, now: int): (d: UserDoc)
    ensures d.id == Some(uid) && d.email == Some(email) && d.name == Some(displayName)
    ensures d.role == Some(role.Wire()) && d.department == Some(department) && d.isActive
    ensures d.profileImageUrl == d.phoneNumber == d.enrollmentNumber == Some("")
    ensures d.createdAt == d.updatedAt == d.lastLogin == Some(now)
  {
    UserDoc(
      Some(uid), Some(email), Some(displayName), None, Some(role.Wire()), Some(department),
      Some(""), Some(""), Some(""), Some(now), Some(now), Some(now), true)
  }

  /**
   * A registered profile reads back as the registered user: the role and
   * department chosen at registration are the ones the application sees.
   */
  lemma RegisteredProfileReadsBack(uid: string, email: string, displayName: string, role: UserRole, department: string, now: int, later: int)
    requires uid != ""
    ensures var u := ToUser(uid, RegisteredDoc(uid, email, displayName, role, department, now), later);
      u.id == uid && u.email == email && ParseRole(u.role.value) == Some(role)
      && u.department == Some(department) && u.createdAt == now
      && u.name == (if displayName == "" then "User" else displayName)
  {
    RoleRoundTrip(role);
  }

  /** The error `register` throws for a failure: its message, or `Registration failed`. */
  function RegisterError(e: ErrorValue): (r: ErrorValue)
    ensures r.code == None && Truthy(r.message)
    ensures Truthy(e.message) ==> r.message == e.message
  {
    Thrown(OrElse(e.message, "Registration failed"))
  }

  /**
   * `register`. `created` is the provider's answer to the account creation (a
   * new uid, which is then signed in); `writeFail` is the error of the profile
   * write, if it fails. A failed profile write leaves the account created and
   * signed in.
   */
  method Register(
    session: Session, directory: Directory, email: string, displayName: string, role: UserRole,
    department: string, created: Result<string, ErrorValue>, writeFail: Option<ErrorValue>, now: int)
    returns (r: Result<string, ErrorValue>)
    modifies session, directory
    ensures created.Err? ==> (r == Err(RegisterError(created.error))
      && session.current == old(session.current) && directory.users == old(directory.users))
    ensures created.Ok? ==> session.current == Some(created.value)
    ensures created.Ok? && writeFail.Some? ==>
      r == Err(Thrown("Failed to create user profile: " + Template(writeFail.value.message)))
      && directory.users == old(directory.users)
    ensures created.Ok? && writeFail.None? ==> (r == Ok(created.value)
      && directory.users == old(directory.users)[created.value := RegisteredDoc(created.value, email, displayName, role, department, now)])
  {
    if created.Err? {
      return Err(RegisterError(created.error));
    }
    var uid := created.value;
    session.current := Some(uid);
    if writeFail.Some? {
      var inner := Thrown("Failed to create user profile: " + Template(writeFail.value.message));
      return Err(RegisterError(inner));
    }
    directory.users := directory.users[uid := RegisteredDoc(uid, email, displayName, role, department, now)];
    return Ok(uid);
  }

  // ---------------------------------------------------------------- login

  /** The error `login` throws for a failure: three provider codes get fixed messages, all else is rethrown. */
  function LoginError(e: ErrorValue): (r: ErrorValue)
    ensures e.code == Some("auth/user-not-found") ==> r == Thrown("No account found with this email. Please register first.")
    ensures e.code == Some("auth/wrong-password") ==> r == Thrown("Incorrect password. Please try again.")
    ensures e.code == Some("auth/invalid-email") ==> r == Thrown("Invalid email address.")
    ensures e.code !in {Some("auth/user-not-found"), Some("auth/wrong-password"), Some("auth/invalid-email")} ==> r == e
  {
    if e.code == Some("auth/user-not-found") then Thrown("No account found with this email. Please register first.")
    else if e.code == Some("auth/wrong-password") then Thrown("Incorrect password. Please try again.")
    else if e.code == Some("auth/invalid-email") then Thrown("Invalid email address.")
    else e
  }

  /** Mapping an already mapped error changes nothing: the mapped errors carry no code. */
  lemma LoginErrorIdempotent(e: ErrorValue)
    ensures LoginError(LoginError(e)) == LoginError(e)
  {
  }

  /**
   * `login`. `signIn` is the provider's answer to the password check (the
   * uid it signs in); `answers` are the profile attempts. Without a profile the
   * user is signed out again.
   */
  method Login(session: Session, signIn: Result<string, ErrorValue>, answers: seq<ProfileRead>, now: int)
    returns (r: Result<string, ErrorValue>)
    requires |answers| == MaxReads
    modifies session
    ensures signIn.Err? ==> r == Err(LoginError(signIn.error)) && session.current == old(session.current)
    ensures signIn.Ok? && FirstSeen(answers).Some? ==> r == Ok(signIn.value) && session.current == Some(signIn.value)
    ensures signIn.Ok? && FirstSeen(answers).None? ==> r == Err(Thrown(AccountNotFound)) && session.current == None
  {
    if signIn.Err? {
      return Err(LoginError(signIn.error));
    }
    var uid := signIn.value;
    session.current := Some(uid);
    var profile := GetUserProfileIsFirstSeen(uid, answers, now);
    if profile.None? {
      session.SignOut();
      return Err(LoginError(Thrown(AccountNotFound)));
    }
    return Ok(uid);
  }

  /** `logout`. */
  method Logout(session: Session)
    modifies session
    ensures session.current == None
  {
    session.SignOut();
  }

  // ---------------------------------------------------------------- Google

  /** The merge both Google paths apply to an existing profile: only the two times change. */
  function Touched(d: UserDoc, now: int): (e: UserDoc)
    ensures e.lastLogin == e.updatedAt == Some(now)
    ensures e.role == d.role && e.department == d.department && e.name == d.name && e.id == d.id
    ensures e.(lastLogin := d.lastLogin, updatedAt := d.updatedAt) == d
  {
    d.(lastLogin := Some(now), updatedAt := Some(now))
  }

  /**
   * `signInWithGoogle`: an existing profile gets its login time refreshed;
   * without one the user is signed out and nothing is written.
   */
  method SignInWithGoogle(
    session: Session, directory: Directory, popup: Result<GoogleUser, ErrorValue>,
    readFail: Option<ErrorValue>, writeFail: Option<ErrorValue>, now: int)
    returns (r: Result<string, ErrorValue>)
    modifies session, directory
    ensures popup.Err? ==> r == Err(popup.error) && session.current == old(session.current)
    ensures popup.Ok? ==> session.current == (if readFail.None? && popup.value.uid !in old(directory.users) then None else Some(popup.value.uid))
    ensures r.Ok? <==> popup.Ok? && readFail.None? && writeFail.None? && popup.value.uid in old(directory.users)
    ensures r.Ok? ==> (r.value == popup.value.uid
      && directory.users == old(directory.users)[r.value := Touched(old(directory.users)[r.value], now)])
    ensures r.Err? ==> directory.users == old(directory.users)
    ensures popup.Ok? && readFail.None? && popup.value.uid !in old(directory.users) ==> r == Err(Thrown(GoogleAccountNotFound))
  {
    if popup.Err? {
      return Err(popup.error);
    }
    var uid := popup.value.uid;
    session.current := Some(uid);
    if readFail.Some? {
      return Err(readFail.value);
    }
    if uid !in directory.users {
      session.SignOut();
      return Err(Thrown(GoogleAccountNotFound));
    }
    if writeFail.Some? {
      return Err(writeFail.value);
    }
    directory.users := directory.users[uid := Touched(directory.users[uid], now)];
    return Ok(uid);
  }

  /** The profile `signUpWithGoogle` creates from the popup's user and the chosen role and department. */
  function GoogleDoc(g: GoogleUser, role: UserRole, department: string, now: int): (d: UserDoc)
    ensures d.id == Some(g.uid) && d.email == g.email && d.role == Some(role.Wire()) && d.department == Some(department)
    ensures d.name == Some(OrElse(g.displayName, "User")) && d.isActive
    ensures d.profileImageUrl == Some(OrElse(g.photoUrl, "")) && d.phoneNumber == Some(OrElse(g.phoneNumber, ""))
    ensures d.enrollmentNumber == Some("") && d.createdAt == d.updatedAt == d.lastLogin == Some(now)
  {
    UserDoc(
      Some(g.uid), g.email, Some(OrElse(g.displayName, "User")), None, Some(role.Wire()), Some(department),
      Some(OrElse(g.photoUrl, "")), Some(OrElse(g.phoneNumber, "")), Some(""), Some(now), Some(now), Some(now), true)
  }

  /**
   * `signUpWithGoogle`: a new profile with the chosen role and department
   * when none exists; an existing profile keeps its role and department and
   * gets only its login time refreshed.
   */
  method SignUpWithGoogle(
    session: Session, directory: Directory, selectedRole: UserRole, selectedDept: string,
    popup: Result<GoogleUser, ErrorValue>, readFail: Option<ErrorValue>, writeFail: Option<ErrorValue>, now: int)
    returns (r: Result<string, ErrorValue>)
    modifies session, directory
    ensures popup.Err? ==> r == Err(popup.error) && session.current == old(session.current)
    ensures popup.Ok? ==> session.current == Some(popup.value.uid)
    ensures r.Ok? <==> popup.Ok? && readFail.None? && writeFail.None?
    ensures r.Ok? ==> var uid := popup.value.uid;
      r.value == uid
      && directory.users == old(directory.users)[uid :=
        if uid in old(directory.users) then Touched(old(directory.users)[uid], now)
        else GoogleDoc(popup.value, selectedRole, selectedDept, now)]
    ensures r.Err? ==> directory.users == old(directory.users)
  {
    if popup.Err? {
      return Err(popup.error);
    }
    var g := popup.value;
    session.current := Some(g.uid);
    if readFail.Some? {
      return Err(readFail.value);
    }
    if writeFail.Some? {
      return Err(writeFail.value);
    }
    if g.uid !in directory.users {
      directory.users := directory.users[g.uid := GoogleDoc(g, selectedRole, selectedDept, now)];
    } else {
      directory.users := directory.users[g.uid := Touched(directory.users[g.uid], now)];
    }
    return Ok(g.uid);
  }

  /** Signing up again with Google never changes the role or department of an existing profile. */
  lemma SignUpKeepsExistingRole(d: UserDoc, g: GoogleUser, role: UserRole, department: string, now: int)
    ensures Touched(d, now).role == d.role && Touched(d, now).department == d.department
    ensures d.role != Some(role.Wire()) ==> Touched(d, now) != GoogleDoc(g, role, department, now)
  {
  }
}

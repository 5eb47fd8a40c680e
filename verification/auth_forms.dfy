/**
 * The login form: the e-mail pattern, the field checks that fill the error
 * object, and the submit guard in front of the login call.
 */
module AuthForms {
  import opened Wrappers
  import Text
  import FirebaseErrors
  import AuthService

  // ---------------------------------------------------------------- the e-mail pattern

  /** A character the pattern's `[^\s@]` accepts. */
  predicate EmailChar(c: char) {
    !Text.IsSpace(c) && c != '@'
  }

  /** A run the pattern's `[^\s@]+` accepts. */
  predicate Part(t: string) {
    |t| > 0 && forall k | 0 <= k < |t| :: EmailChar(t[k])
  }

  /**
   * `^[^\s@]+@[^\s@]+\.[^\s@]+$` read as a split: the text is
   * `local@d1.d2` with three non-empty parts free of whitespace and `@`.
   */
  ghost predicate EmailPattern(s: string) {
    exists i, j | 0 <= i < j < |s| :: s[i] == '@' && s[j] == '.' && Part(s[..i]) && Part(s[i + 1..j]) && Part(s[j + 1..])
  }

  /** The position of the first `@`, if any. */
  function AtIndex(s: string): (i: Option<nat>)
    ensures i.Some? ==> i.value < |s| && s[i.value] == '@' && forall k | 0 <= k < i.value :: s[k] != '@'
    ensures i.None? ==> forall k | 0 <= k < |s| :: s[k] != '@'
  {
    if s == [] then None
    else if s[0] == '@' then Some(0)
    else match AtIndex(s[1..])
      case None => None
      case Some(k) => Some(k + 1)
  }

  /** A dot with at least one character on each side. */
  predicate InnerDot(d: string) {
    exists j | 1 <= j < |d| - 1 :: d[j] == '.'
  }

  /** The test the form applies: split at the first `@`, then look for an inner dot in the domain. */
  predicate ValidEmail(s: string) {
    match AtIndex(s)
    case None => false
    case Some(i) => Part(s[..i]) && Part(s[i + 1..]) && InnerDot(s[i + 1..])
  }

  /** What the test accepts has the split the pattern describes. */
  lemma ValidEmailMatches(s: string)
    requires ValidEmail(s)
    ensures EmailPattern(s)
  {
    var i := AtIndex(s).value;
    var d := s[i + 1..];
    var j' :| 1 <= j' < |d| - 1 && d[j'] == '.';
    var j := i + 1 + j';
    assert s[i + 1..j] == d[..j'];
    assert s[j + 1..] == d[j' + 1..];
    assert Part(s[..i]) && Part(s[i + 1..j]) && Part(s[j + 1..]);
  }

  /** A split `local@d1.d2` is found by the test: its `@` is the first one. */
  lemma PatternIsValidEmail(s: string, i: nat, j: nat)
    requires i < j < |s| && s[i] == '@' && s[j] == '.'
    requires Part(s[..i]) && Part(s[i + 1..j]) && Part(s[j + 1..])
    ensures ValidEmail(s)
  {
    assert forall k | 0 <= k < i :: s[k] == s[..i][k];
    assert AtIndex(s) == Some(i);
    var d := s[i + 1..];
    forall k | 0 <= k < |d| ensures EmailChar(d[k]) {
      if i + 1 + k < j {
        assert d[k] == s[i + 1..j][k];
      } else if i + 1 + k > j {
        assert d[k] == s[j + 1..][k - (j - i)];
      }
    }
    assert d[j - (i + 1)] == '.';
  }

  /** The test accepts exactly the texts the pattern describes. */
  lemma ValidEmailIsPattern(s: string)
    ensures ValidEmail(s) <==> EmailPattern(s)
  {
    if ValidEmail(s) {
      ValidEmailMatches(s);
    }
    if EmailPattern(s) {
      var i, j :| 0 <= i < j < |s| && s[i] == '@' && s[j] == '.' && Part(s[..i]) && Part(s[i + 1..j]) && Part(s[j + 1..]);
      PatternIsValidEmail(s, i, j);
    }
  }

  /** An accepted e-mail has no whitespace and exactly one `@`. */
  lemma AcceptedEmailShape(s: string)
    requires ValidEmail(s)
    ensures Text.NoSpace(s)
    ensures exists i | 0 <= i < |s| :: s[i] == '@' && forall k | 0 <= k < |s| && k != i :: s[k] != '@'
  {
    var i := AtIndex(s).value;
    var d := s[i + 1..];
    forall k | 0 <= k < |s| && k != i ensures EmailChar(s[k]) {
      if k < i {
        assert s[k] == s[..i][k];
      } else {
        assert s[k] == d[k - (i + 1)];
      }
    }
  }

  // ---------------------------------------------------------------- the field checks

  /** The two entries of the form's error object. */
  datatype Field = Email | Password

  const EmailRequired: string := "Email is required"
  const EmailInvalid: string := "Please enter a valid email"
  const PasswordRequired: string := "Password is required"
  const PasswordShort: string := "Password must be at least 6 characters"
  const MinPasswordLength: nat := 6

  /**
   * `LoginForm.validateForm`: fill the error object field by field; the form
   * is valid when it stays empty.
   */
  method ValidateForm(email: string, password: string) returns (errors: map<Field, string>, valid: bool)
    ensures Email in errors <==> !ValidEmail(email)
    ensures Email in errors ==> errors[Email] == (if email == "" then EmailRequired else EmailInvalid)
    ensures Password in errors <==> |password| < MinPasswordLength
    ensures Password in errors ==> errors[Password] == (if password == "" then PasswordRequired else PasswordShort)
    ensures valid <==> errors == map[]
    ensures valid <==> ValidEmail(email) && |password| >= MinPasswordLength
  {
    errors := map[];
    if email == "" {
      errors := errors[Email := EmailRequired];
    } else if !ValidEmail(email) {
      errors := errors[Email := EmailInvalid];
    }
    if password == "" {
      errors := errors[Password := PasswordRequired];
    } else if |password| < MinPasswordLength {
      errors := errors[Password := PasswordShort];
    }
    valid := |errors.Keys| == 0;
    if !valid {
      assert Email in errors || Password in errors;
    }
  }

  /** The empty e-mail is never valid, so the required-field message always wins over the pattern message. */
  lemma EmptyEmailInvalid()
    ensures !ValidEmail("")
  {
  }

  // ---------------------------------------------------------------- submit

  datatype LoginOutcome = Refused(errors: map<Field, string>) | SignedIn(uid: string) | LoginFailed(message: string)

  /** The text shown for a caught error: its message, or `Login failed` for a thrown value that is not an `Error`. */
  function FailureText(e: FirebaseErrors.ErrorValue): string {
    e.message.GetOr("Login failed")
  }

  /**
   * `LoginForm.handleSubmit`: an invalid form never reaches `login`, so the
   * session is untouched; otherwise the outcome is the outcome of `login`.
   */
  method HandleSubmit(
    session: AuthService.Session, email: string, password: string,
    signIn: Result<string, FirebaseErrors.ErrorValue>, answers: seq<AuthService.ProfileRead>, now: int)
    returns (out: LoginOutcome)
    requires |answers| == AuthService.MaxReads
    modifies session
    ensures out.Refused? <==> !ValidEmail(email) || |password| < MinPasswordLength
    ensures out.Refused? ==> session.current == old(session.current) && out.errors != map[]
    ensures out.SignedIn? ==> signIn == Ok(out.uid) && session.current == Some(out.uid)
    ensures !out.Refused? && signIn.Err? ==>
      out == LoginFailed(FailureText(AuthService.LoginError(signIn.error))) && session.current == old(session.current)
    ensures !out.Refused? && signIn.Ok? ==> (out.SignedIn? <==> AuthService.FirstSeen(answers).Some?)
    ensures !out.Refused? && signIn.Ok? && AuthService.FirstSeen(answers).None? ==>
      out == LoginFailed(AuthService.AccountNotFound) && session.current == None
  {
    var errors, valid := ValidateForm(email, password);
    if !valid {
      return Refused(errors);
    }
    var r := AuthService.Login(session, signIn, answers, now);
    match r
    case Ok(uid) => out := SignedIn(uid);
    case Err(e) => out := LoginFailed(FailureText(e));
  }
}

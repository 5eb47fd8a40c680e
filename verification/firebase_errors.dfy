/**
 * Turning Firebase errors into messages for the user, and the three error
 * classifiers. Each reads one text out of the error: the classifier and
 * `isAuthError` / `shouldRetry` prefer the code, `isNetworkError` the message.
 */
module FirebaseErrors {
  import opened Wrappers
  import opened Types
  import Text

  /** A thrown value: `undefined`, or an object that may carry a `code` and a `message`. */
  datatype ErrorValue = ErrorValue(code: Option<string>, message: Option<string>)

  /** One step of the ordered chain: any of `patterns` occurring in the text selects `text`. */
  datatype Rule = Rule(patterns: seq<string>, text: string)

  const Unexpected: string := "An unexpected error occurred. Please try again."
  const Fallback: string := "An error occurred. Please try again."
  const NetworkRequestFailed: string := "Network connection failed. Please check your internet connection and try again."
  const DatabaseError: string := "Database connection error. Please check your internet connection and try again."
  const NetworkError: string := "Network connection error. Please check your internet connection and try again."

  /** The authentication codes (after `auth/`) and their messages, in the order they are tried. */
  const AuthTable: seq<(string, string)> := [
    ("popup-blocked", "Pop-up was blocked by your browser. Please enable pop-ups and try again."),
    ("popup-closed-by-user", "Sign-in was cancelled. Please try again."),
    ("internal-error", "Authentication service error. Please check your internet connection and try again."),
    ("network-request-failed", NetworkRequestFailed),
    ("email-already-in-use", "The email ID is already existed. Try with another email."),
    ("invalid-email", "Invalid email address. Please enter a valid email."),
    ("weak-password", "Password is too weak. Please use a stronger password."),
    ("user-not-found", "No account found with this email. Please register first."),
    ("wrong-password", "Incorrect password. Please try again."),
    ("too-many-requests", "Too many login attempts. Please try again later."),
    ("account-exists-with-different-credential", "An account already exists with this email but a different sign-in method.")
  ]

  /** One rule per table entry, matching `auth/` followed by the entry's code. */
  function AuthRulesOf(table: seq<(string, string)>): (rules: seq<Rule>)
    ensures |rules| == |table|
    ensures forall j | 0 <= j < |table| :: rules[j] == Rule(["auth/" + table[j].0], table[j].1)
  {
    if table == [] then [] else [Rule(["auth/" + table[0].0], table[0].1)] + AuthRulesOf(table[1..])
  }

  const AuthRules: seq<Rule> := AuthRulesOf(AuthTable)

  /** The database, network and certificate rules that follow them. */
  const InfraRules: seq<Rule> := [
    Rule(["firestore", "FIRESTORE"], DatabaseError),
    Rule(["network", "NETWORK"], NetworkError),
    Rule(["ERR_CERT"], "SSL certificate error. Please check that you are accessing the correct website.")
  ]

  const Rules: seq<Rule> := AuthRules + InfraRules

  predicate Matches(t: string, rule: Rule) {
    exists i | 0 <= i < |rule.patterns| :: Text.Contains(t, rule.patterns[i])
  }

  /** The text of the first rule that matches `t`, if any. */
  function FirstMatch(t: string, rules: seq<Rule>): Option<string> {
    if rules == [] then None
    else if Matches(t, rules[0]) then Some(rules[0].text)
    else FirstMatch(t, rules[1..])
  }

  /** The rule that is tried first among those that match decides the message. */
  lemma {:induction false} FirstMatchWins(t: string, rules: seq<Rule>, i: nat)
    requires i < |rules| && Matches(t, rules[i])
    requires forall j | 0 <= j < i :: !Matches(t, rules[j])
    ensures FirstMatch(t, rules) == Some(rules[i].text)
  {
    if i > 0 {
      FirstMatchWins(t, rules[1..], i - 1);
    }
  }

  /**
   * The message of an error whose code (or else message) matches rule `i` of
   * the chain, and no earlier one, is that rule's text.
   */
  lemma MessageOfFirstMatchingRule(e: Option<ErrorValue>, i: nat)
    requires Truthy(CodeFirst(e)) && i < |Rules| && Matches(CodeFirst(e).value, Rules[i])
    requires forall j | 0 <= j < i :: !Matches(CodeFirst(e).value, Rules[j])
    ensures GetFirebaseErrorMessage(e) == Rules[i].text
  {
    FirstMatchWins(CodeFirst(e).value, Rules, i);
  }

  /** When no rule matches, the chain falls through. */
  lemma {:induction false} NoMatchFallsThrough(t: string, rules: seq<Rule>)
    requires forall j | 0 <= j < |rules| :: !Matches(t, rules[j])
    ensures FirstMatch(t, rules) == None
  {
    if rules != [] {
      NoMatchFallsThrough(t, rules[1..]);
    }
  }

  /** Trying two lists of rules one after the other is trying their concatenation. */
  lemma {:induction false} FirstMatchAppend(t: string, a: seq<Rule>, b: seq<Rule>)
    ensures FirstMatch(t, a + b) == if FirstMatch(t, a).Some? then FirstMatch(t, a) else FirstMatch(t, b)
  {
    if a == [] {
      assert a + b == b;
    } else {
      assert (a + b)[1..] == a[1..] + b;
      FirstMatchAppend(t, a[1..], b);
    }
  }

  /** `error?.code || error?.message`: the text the classifier reads. */
  function CodeFirst(e: Option<ErrorValue>): Option<string> {
    if e.None? then None else Or(e.value.code, e.value.message)
  }

  /** `error?.message || error?.code || ''`: the text `isNetworkError` reads. */
  function MessageFirst(e: Option<ErrorValue>): string {
    if e.None? then "" else OrElse(Or(e.value.message, e.value.code), "")
  }

  /** `getFirebaseErrorMessage`. */
  function GetFirebaseErrorMessage(e: Option<ErrorValue>): (msg: string)
    ensures !Truthy(CodeFirst(e)) ==> msg == Unexpected
    ensures Truthy(CodeFirst(e)) && FirstMatch(CodeFirst(e).value, Rules).None? ==>
      msg == OrElse(e.value.message, Fallback)
  {
    var errorCode := CodeFirst(e);
    if !Truthy(errorCode) then Unexpected
    else match FirstMatch(errorCode.value, Rules)
      case Some(text) => text
      case None => OrElse(e.value.message, Fallback)
  }

  /** `isNetworkError`: the message (or else the code) mentions a network failure; no error is not one. */
  predicate IsNetworkError(e: Option<ErrorValue>): (b: bool)
    ensures b ==> e.Some? && (Truthy(e.value.message) || Truthy(e.value.code))
  {
    var t := MessageFirst(e);
    Text.Contains(t, "network") || Text.Contains(t, "offline") || Text.Contains(t, "connection")
    || Text.Contains(t, "ERR_")
  }

  /** `isAuthError`: the code (or else the message) mentions `auth/`; no error is not one. */
  predicate IsAuthError(e: Option<ErrorValue>): (b: bool)
    ensures b ==> e.Some? && (Truthy(e.value.code) || Truthy(e.value.message))
  {
    Text.Contains(OrElse(CodeFirst(e), ""), "auth/")
  }

  /** A present message alone decides `isNetworkError`: the code is then never read. */
  lemma NetworkReadsMessageFirst(e: ErrorValue, code: Option<string>)
    requires Truthy(e.message)
    ensures IsNetworkError(Some(e)) == IsNetworkError(Some(e.(code := code)))
  {
  }

  /** A present code alone decides `isAuthError`: the message is then never read. */
  lemma AuthReadsCodeFirst(e: ErrorValue, message: Option<string>)
    requires Truthy(e.code)
    ensures IsAuthError(Some(e)) == IsAuthError(Some(e.(message := message)))
  {
  }

  /** `shouldRetry`: every network error, and unavailable or timed-out backend calls. */
  function ShouldRetry(e: Option<ErrorValue>): (retry: bool)
    ensures IsNetworkError(e) ==> retry
    ensures !IsNetworkError(e) ==> (retry <==>
      Text.Contains(OrElse(CodeFirst(e), ""), "UNAVAILABLE") || Text.Contains(OrElse(CodeFirst(e), ""), "DEADLINE_EXCEEDED"))
  {
    var code := OrElse(CodeFirst(e), "");
    IsNetworkError(e) || Text.Contains(code, "UNAVAILABLE") || Text.Contains(code, "DEADLINE_EXCEEDED")
  }

  // ---------------------------------------------------------------- properties of the chain

  /** Every authentication pattern starts with `auth/`. */
  lemma AuthPatternsMentionAuth(j: nat, k: nat)
    requires j < |AuthRules| && k < |AuthRules[j].patterns|
    ensures Text.Contains(AuthRules[j].patterns[k], "auth/")
  {
    var suffix := AuthTable[j].0;
    assert AuthRules[j].patterns[k] == "" + "auth/" + suffix;
    Text.ContainsMiddle("", "auth/", suffix);
  }

  /**
   * An error that `isAuthError` rejects never receives one of the
   * authentication messages: only the database, network and certificate rules
   * or the default can apply.
   */
  lemma NonAuthSkipsAuthRules(e: Option<ErrorValue>)
    requires !IsAuthError(e) && Truthy(CodeFirst(e))
    ensures GetFirebaseErrorMessage(e) == match FirstMatch(CodeFirst(e).value, InfraRules)
      case Some(text) => text
      case None => OrElse(e.value.message, Fallback)
  {
    var t := CodeFirst(e).value;
    forall j | 0 <= j < |AuthRules| ensures !Matches(t, AuthRules[j]) {
      forall k | 0 <= k < |AuthRules[j].patterns| ensures !Text.Contains(t, AuthRules[j].patterns[k]) {
        AuthPatternsMentionAuth(j, k);
        if Text.Contains(t, AuthRules[j].patterns[k]) {
          Text.ContainsTransitive(t, AuthRules[j].patterns[k], "auth/");
        }
      }
    }
    NoMatchFallsThrough(t, AuthRules);
    FirstMatchAppend(t, AuthRules, InfraRules);
  }

  /** The rules are tried authentication first, in table order. */
  lemma AuthRuleAt(j: nat)
    requires j < |AuthTable|
    ensures Rules[j] == Rule(["auth/" + AuthTable[j].0], AuthTable[j].1)
  {
  }

  lemma MissesRule0()
    ensures !Matches("auth/network-request-failed", Rules[0])
  {
    AuthRuleAt(0);
    assert Rules[0].patterns == ["auth/" + "popup-blocked"];
    Text.NotContainedAt("auth/network-request-failed", "auth/" + "popup-blocked", 5);
  }

  lemma MissesRule1()
    ensures !Matches("auth/network-request-failed", Rules[1])
  {
    AuthRuleAt(1);
    assert Rules[1].patterns == ["auth/" + "popup-closed-by-user"];
    Text.NotContainedAt("auth/network-request-failed", "auth/" + "popup-closed-by-user", 5);
  }

  lemma MissesRule2()
    ensures !Matches("auth/network-request-failed", Rules[2])
  {
    AuthRuleAt(2);
    assert Rules[2].patterns == ["auth/" + "internal-error"];
    Text.NotContainedAt("auth/network-request-failed", "auth/" + "internal-error", 5);
  }

  lemma HitsRule3()
    ensures Matches("auth/network-request-failed", Rules[3]) && Rules[3].text == NetworkRequestFailed
  {
    AuthRuleAt(3);
    assert Rules[3].patterns == ["auth/" + "network-request-failed"];
    assert "auth/" + "network-request-failed" == "auth/network-request-failed";
    Text.ContainsSelf("auth/network-request-failed");
    assert Text.Contains("auth/network-request-failed", Rules[3].patterns[0]);
  }

  /**
   * Order matters: `auth/network-request-failed` also contains `network`, yet
   * it receives its own message and not the generic network one.
   */
  lemma AuthNetworkGetsSpecificMessage()
    ensures GetFirebaseErrorMessage(Some(ErrorValue(Some("auth/network-request-failed"), None))) == NetworkRequestFailed
  {
    MissesRule0();
    MissesRule1();
    MissesRule2();
    HitsRule3();
    FirstMatchWins("auth/network-request-failed", Rules, 3);
  }

  /** Without a code or a message, and for a missing error, the generic unexpected-error text is used. */
  lemma NothingToReadIsUnexpected(e: Option<ErrorValue>)
    requires e.None? || (!Truthy(e.value.code) && !Truthy(e.value.message))
    ensures GetFirebaseErrorMessage(e) == Unexpected
    ensures !IsAuthError(e) && !IsNetworkError(e)
  {
    Text.NotContainedAt("", "auth/", 0);
    Text.NotContainedAt("", "network", 0);
    Text.NotContainedAt("", "offline", 0);
    Text.NotContainedAt("", "connection", 0);
    Text.NotContainedAt("", "ERR_", 0);
  }

  /**
   * The classifier and `isNetworkError` can read different texts: with an
   * authentication code and a message about the network, the error counts as
   * a network error while its message is the authentication one.
   */
  lemma ReadOrderDiffers()
    ensures var e := Some(ErrorValue(Some("auth/network-request-failed"), Some("network")));
      IsNetworkError(e) && IsAuthError(e) && ShouldRetry(e)
  {
    Text.ContainsSelf("network");
    Text.ContainsMiddle("", "auth/", "network-request-failed");
    assert "auth/network-request-failed" == "" + "auth/" + "network-request-failed";
  }
}

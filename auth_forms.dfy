/** The sign-up and sign-in forms (src/pages/RegisterPage.tsx,
    src/pages/LoginPage.tsx). Users type a bare username; the institutional
    domain is appended to it. The authentication service and the role the
    session stores are outside the model: their answers are parameters. */
module AuthForms {
  import opened Wrappers
  import opened Strings

  const EmailDomain := "@pateros.edu.ph"
  const MinPasswordLength: nat := 6

  const FieldsRequiredError := "All fields are required"
  const UsernameFormatError := "Username should not include @ or .edu.ph (it will be added automatically)"
  const PasswordLengthError := "Password must be at least 6 characters"
  const PasswordMismatchError := "Passwords do not match"
  const UsernameRequiredError := "Username is required"
  const InvalidRoleError := "Invalid user role"
  const SignInFailedError := "Failed to sign in"
  const EmailInUseError := "Email already registered"
  const RegisterFailedError := "Failed to register"

  /** The address the forms hand to the authentication service. */
  function FullEmail(username: string): (email: string)
    ensures |email| == |username| + |EmailDomain|
    ensures email[..|username|] == username && email[|username|..] == EmailDomain
  {
    username + EmailDomain
  }

  /** The username can be read back from the address, so distinct usernames
      give distinct addresses. */
  lemma FullEmailIsInjective(u1: string, u2: string)
    ensures FullEmail(u1) == FullEmail(u2) ==> u1 == u2
  {
    if FullEmail(u1) == FullEmail(u2) {
      assert |u1| == |u2|;
      assert u1 == FullEmail(u1)[..|u1|];
    }
  }

  /** A username the forms accept has no '@' of its own, so its address holds
      exactly one '@', right after the username. */
  lemma AcceptedUsernameGivesOneAt(username: string)
    requires !Contains(username, "@")
    ensures FullEmail(username)[|username|] == '@'
    ensures forall i :: 0 <= i < |FullEmail(username)| && FullEmail(username)[i] == '@' ==> i == |username|
  {
    ContainsChar(username, '@');
    var email := FullEmail(username);
    forall i | 0 <= i < |email| && i != |username|
      ensures email[i] != '@'
    {
      if i < |username| {
        assert username[i] == email[i];
      } else if i > |username| {
        assert email[i] == EmailDomain[i - |username|];
      }
    }
  }

  /** The username check both forms run. */
  predicate HasDomainText(username: string) {
    Contains(username, "@") || Contains(username, ".edu.ph")
  }

  // ---------------------------------------------------------------- register

  datatype RegisterForm = RegisterForm(username: string, password: string, confirmPassword: string, displayName: string)

  /** `validateForm`: the first failed check decides the message. */
  function RegisterFault(f: RegisterForm): Option<string> {
    if f.username == "" || f.password == "" || f.confirmPassword == "" || f.displayName == "" then Some(FieldsRequiredError)
    else if HasDomainText(f.username) then Some(UsernameFormatError)
    else if |f.password| < MinPasswordLength then Some(PasswordLengthError)
    else if f.password != f.confirmPassword then Some(PasswordMismatchError)
    else None
  }

  /** A form passes exactly when every field is filled, the username is bare,
      and the password is long enough and confirmed; a failing form reports
      its first failed check. */
  lemma RegisterFaultOrder(f: RegisterForm)
    ensures RegisterFault(f).None? <==>
      && f.username != "" && f.password != "" && f.confirmPassword != "" && f.displayName != ""
      && !HasDomainText(f.username) && |f.password| >= MinPasswordLength && f.password == f.confirmPassword
    ensures RegisterFault(f) == Some(PasswordMismatchError) ==> |f.password| >= MinPasswordLength && !HasDomainText(f.username)
    ensures RegisterFault(f) == Some(PasswordLengthError) ==> f.password != "" && !HasDomainText(f.username)
    ensures RegisterFault(f) == Some(UsernameFormatError) ==> f.username != "" && f.displayName != ""
  {
  }

  /** What the authentication service answered to the sign-up request. */
  datatype SignUpAnswer = SignedUp | EmailInUse | SignUpError(message: string)

  /** The sign-up request a form leads to (`None` when it fails validation),
      and the message or success the page shows. */
  function Register(f: RegisterForm, answer: SignUpAnswer): (r: (Option<string>, Result<(), string>))
    ensures RegisterFault(f).Some? ==> r.0.None? && r.1 == Failure(RegisterFault(f).value)
    ensures RegisterFault(f).None? ==> r.0 == Some(FullEmail(f.username))
    ensures r.1.Success? <==> RegisterFault(f).None? && answer.SignedUp?
  {
    match RegisterFault(f)
    case Some(message) => (None, Failure(message))
    case None =>
      var email := FullEmail(f.username);
      match answer
      case SignedUp => (Some(email), Success(()))
      case EmailInUse => (Some(email), Failure(EmailInUseError))
      case SignUpError(message) => (Some(email), Failure(if message == "" then RegisterFailedError else message))
  }

  // ---------------------------------------------------------------- sign in

  datatype Route = AdminRooms | ProfessorToday

  /** The role the session stored after signing in (`null` when none). */
  function RouteFor(role: Option<string>): (r: Result<Route, string>)
    ensures r == Success(AdminRooms) <==> role == Some("super-admin") || role == Some("admin")
    ensures r == Success(ProfessorToday) <==> role == Some("professor")
    ensures r.Failure? ==> r.error == InvalidRoleError
  {
    match role
    case Some(name) =>
      if name == "super-admin" || name == "admin" then Success(AdminRooms)
      else if name == "professor" then Success(ProfessorToday)
      else Failure(InvalidRoleError)
    case None => Failure(InvalidRoleError)
  }

  /** The check before the sign-in call: domain text first, then a blank username. */
  function LoginFault(username: string): Option<string> {
    if HasDomainText(username) then Some(UsernameFormatError)
    else if Trim(username) == "" then Some(UsernameRequiredError)
    else None
  }

  /** A username is refused exactly when it holds domain text or only white
      space, and domain text is reported even when the name is otherwise blank. */
  lemma LoginFaultIsExact(username: string)
    ensures LoginFault(username).None? <==>
      !HasDomainText(username) && exists i :: 0 <= i < |username| && !IsJsWhitespace(username[i])
    ensures HasDomainText(username) ==> LoginFault(username) == Some(UsernameFormatError)
  {
    TrimIsEmptyIffBlank(username);
  }

  /** The outcome of a sign-in attempt; the address signed in with is the
      untrimmed username plus the domain. */
  datatype LoginOutcome = Refused(message: string) | SignInRequested(email: string, result: Result<Route, string>)

  function Login(username: string, signedIn: bool, role: Option<string>): (r: LoginOutcome)
    ensures LoginFault(username).Some? ==> r == Refused(LoginFault(username).value)
    ensures LoginFault(username).None? ==> r.SignInRequested? && r.email == FullEmail(username)
    ensures r.SignInRequested? && r.result.Success? <==> LoginFault(username).None? && signedIn && RouteFor(role).Success?
  {
    match LoginFault(username)
    case Some(message) => Refused(message)
    case None =>
      SignInRequested(FullEmail(username), if signedIn then RouteFor(role) else Failure(SignInFailedError))
  }

  /** Both forms refuse the same domain text, so every address either form
      sends has exactly one '@'. */
  lemma FormsSendOneAt(f: RegisterForm, username: string, signedIn: bool, role: Option<string>)
    ensures RegisterFault(f).None? ==> forall i :: 0 <= i < |FullEmail(f.username)| && FullEmail(f.username)[i] == '@' ==> i == |f.username|
    ensures Login(username, signedIn, role).SignInRequested? ==>
      forall i :: 0 <= i < |FullEmail(username)| && FullEmail(username)[i] == '@' ==> i == |username|
  {
    if RegisterFault(f).None? {
      AcceptedUsernameGivesOneAt(f.username);
    }
    if LoginFault(username).None? {
      AcceptedUsernameGivesOneAt(username);
    }
  }
}

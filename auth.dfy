/**
 * The login and register modals: the e-mail pattern `^[^\s@]+@[^\s@]+\.[^\s@]+$`,
 * the per-field error messages, and the submit and switch handlers that write
 * the shared user and modal flags.
 */
module Auth {
  import opened Types
  import Text
  import Catalog

  /** A character of the class `[^\s@]`. */
  predicate Plain(c: char) {
    !Text.IsSpace(c) && c != '@'
  }

  predicate NoSpace(s: string) {
    forall i :: 0 <= i < |s| ==> !Text.IsSpace(s[i])
  }

  predicate AllPlain(s: string) {
    forall i :: 0 <= i < |s| ==> Plain(s[i])
  }

  /**
   * One way the pattern can match: `s[..a]` is the first `[^\s@]+`, `s[a]` the
   * `@`, `s[a+1..b]` the second `[^\s@]+`, `s[b]` the `\.` and `s[b+1..]` the
   * third `[^\s@]+` (the dot itself is in `[^\s@]`, so it is part of the plain
   * text after the `@`).
   */
  ghost predicate PatternSplit(s: string, a: int, b: int) {
    0 < a && a + 1 < b && b + 1 < |s| && s[a] == '@' && s[b] == '.'
    && AllPlain(s[..a]) && AllPlain(s[a + 1..])
  }

  /** The regular expression matches the whole of `s`. */
  ghost predicate MatchesEmailPattern(s: string) {
    exists a, b :: PatternSplit(s, a, b)
  }

  /** The domain (text after the `@`) holds a `.` that is neither its first nor its last character. */
  predicate HasInnerDot(d: string) {
    |d| >= 3 && '.' in d[1..|d| - 1]
  }

  /** `validateEmail`: a scan for the first `@` deciding exactly what the pattern decides. */
  function ValidateEmail(s: string): (ok: bool)
    ensures ok <==> MatchesEmailPattern(s)
  {
    var a := Text.IndexOf(s, '@');
    EmailPatternAt(s);
    0 < a < |s| && AllPlain(s[..a]) && AllPlain(s[a + 1..]) && HasInnerDot(s[a + 1..])
  }

  lemma EmailPatternAt(s: string)
    ensures var a := Text.IndexOf(s, '@');
      MatchesEmailPattern(s) <==>
        (0 < a < |s| && AllPlain(s[..a]) && AllPlain(s[a + 1..]) && HasInnerDot(s[a + 1..]))
  {
    var a := Text.IndexOf(s, '@');
    if 0 < a < |s| && AllPlain(s[..a]) && AllPlain(s[a + 1..]) && HasInnerDot(s[a + 1..]) {
      ScanGivesSplit(s, a);
    }
    if MatchesEmailPattern(s) {
      var a', b :| PatternSplit(s, a', b);
      SplitIsScan(s, a', b);
    }
  }

  /** The scan's checks give a match, splitting at the first `@` and at a dot inside the domain. */
  lemma ScanGivesSplit(s: string, a: nat)
    requires 0 < a < |s| && s[a] == '@'
    requires AllPlain(s[..a]) && AllPlain(s[a + 1..]) && HasInnerDot(s[a + 1..])
    ensures MatchesEmailPattern(s)
  {
    var d := s[a + 1..];
    var inner := d[1..|d| - 1];
    var j :| 0 <= j < |inner| && inner[j] == '.';
    assert inner[j] == d[1 + j];
    assert d[1 + j] == s[a + 2 + j];
    assert PatternSplit(s, a, a + 2 + j);
  }

  /** Any match splits at the first `@`, and its dot lies inside the domain. */
  lemma SplitIsScan(s: string, a: int, b: int)
    requires PatternSplit(s, a, b)
    ensures Text.IndexOf(s, '@') == a
    ensures HasInnerDot(s[a + 1..])
  {
    var d := s[a + 1..];
    var inner := d[1..|d| - 1];
    assert d[b - a - 1] == s[b];
    assert inner[b - a - 2] == d[b - a - 1];
  }

  /**
   * The pattern in plain terms: exactly one `@`, no white space, a non-empty
   * local part, and a `.` inside the domain that is neither its first nor its
   * last character.
   */
  ghost predicate EmailShape(s: string) {
    multiset(s)['@'] == 1
    && NoSpace(s)
    && var a := Text.IndexOf(s, '@');
       a > 0 && exists j :: a + 1 < j < |s| - 1 && s[j] == '.'
  }

  lemma ValidateEmailShape(s: string)
    ensures ValidateEmail(s) <==> EmailShape(s)
  {
    var a := Text.IndexOf(s, '@');
    if a < |s| {
      AtCount(s, a);
      if ValidateEmail(s) {
        ValidGivesShape(s, a);
      }
      if EmailShape(s) {
        ShapeGivesValid(s, a);
      }
    } else {
      assert multiset(s)['@'] == 0;
    }
  }

  /** Around the first `@`, the count of `@` is one plus the count after it. */
  lemma AtCount(s: string, a: nat)
    requires a == Text.IndexOf(s, '@') && a < |s|
    ensures multiset(s)['@'] == 1 + multiset(s[a + 1..])['@']
  {
    var pre, post := s[..a], s[a + 1..];
    assert s == pre + [s[a]] + post;
    assert multiset(s) == multiset(pre) + multiset{'@'} + multiset(post);
    assert multiset(pre)['@'] == 0;
  }

  lemma ValidGivesShape(s: string, a: nat)
    requires a == Text.IndexOf(s, '@') && a < |s|
    requires 0 < a && AllPlain(s[..a]) && AllPlain(s[a + 1..]) && HasInnerDot(s[a + 1..])
    ensures EmailShape(s)
  {
    var pre, post := s[..a], s[a + 1..];
    AtCount(s, a);
    assert multiset(post)['@'] == 0;
    forall i | 0 <= i < |s|
      ensures !Text.IsSpace(s[i])
    {
      if i < a { assert s[i] == pre[i]; }
      if i > a { assert s[i] == post[i - a - 1]; }
    }
    var inner := post[1..|post| - 1];
    var j :| 0 <= j < |inner| && inner[j] == '.';
    assert s[a + 2 + j] == inner[j];
  }

  lemma ShapeGivesValid(s: string, a: nat)
    requires a == Text.IndexOf(s, '@') && a < |s|
    requires EmailShape(s)
    ensures 0 < a && AllPlain(s[..a]) && AllPlain(s[a + 1..]) && HasInnerDot(s[a + 1..])
  {
    var post := s[a + 1..];
    AtCount(s, a);
    NoSpaceParts(s, a);
    NoAtIsPlain(post);
    var j :| a + 1 < j < |s| - 1 && s[j] == '.';
    assert post[j - a - 1] == s[j];
    InnerDotAt(post, j - a - 1);
  }

  /** Without white space and without `@`, every character is in `[^\s@]`. */
  lemma NoAtIsPlain(d: string)
    requires NoSpace(d) && multiset(d)['@'] == 0
    ensures AllPlain(d)
  {
    forall i | 0 <= i < |d|
      ensures Plain(d[i])
    {
      assert d[i] in multiset(d);
    }
  }

  /** A `.` strictly inside `d` is an inner dot. */
  lemma InnerDotAt(d: string, k: nat)
    requires 0 < k < |d| - 1 && d[k] == '.'
    ensures HasInnerDot(d)
  {
    assert d[1..|d| - 1][k - 1] == '.';
  }

  /** Without white space in `s`, there is none before or after position `a`. */
  lemma NoSpaceParts(s: string, a: nat)
    requires a < |s|
    requires NoSpace(s)
    requires '@' !in s[..a]
    ensures AllPlain(s[..a])
    ensures NoSpace(s[a + 1..])
  {
    var pre, post := s[..a], s[a + 1..];
    forall i | 0 <= i < |pre|
      ensures Plain(pre[i])
    {
      assert pre[i] == s[i];
    }
    forall i | 0 <= i < |post|
      ensures !Text.IsSpace(post[i])
    {
      assert post[i] == s[a + 1 + i];
    }
  }

  /** The user name the login derives: the text before the `@` of a valid address. */
  lemma UsernameIsLocalPart(email: string)
    requires ValidateEmail(email)
    ensures var u := Text.BeforeFirst(email, '@');
      |u| > 0 && '@' !in u && email == u + "@" + email[|u| + 1..]
  {
    var u := Text.BeforeFirst(email, '@');
    var a, b :| PatternSplit(email, a, b);
    assert email[..a][0] == email[0];
    assert email[a] == '@';
    assert email == email[..|u|] + [email[|u|]] + email[|u| + 1..];
  }

  const EmailRequired := "El email es requerido"
  const EmailInvalid := "Email inválido"
  const PasswordRequired := "La contraseña es requerida"
  const PasswordTooShort := "La contraseña debe tener al menos 6 caracteres"
  const UsernameRequired := "El nombre de usuario es requerido"
  const UsernameTooShort := "El nombre de usuario debe tener al menos 3 caracteres"
  const PasswordsDiffer := "Las contraseñas no coinciden"
  const TermsRequired := "Debes aceptar los términos y condiciones"

  /** The keys of the shared `errors` record (`username`, `email`, `password`, `confirmPassword`, `acceptTerms`). */
  datatype Field = Username | Email | Password | ConfirmPassword | AcceptTerms

  datatype LoginForm = LoginForm(email: string, password: string, remember: bool)

  datatype RegisterForm = RegisterForm(
    username: string, email: string, password: string, confirmPassword: string, acceptTerms: bool)

  const EmptyLoginForm := LoginForm("", "", false)
  const EmptyRegisterForm := RegisterForm("", "", "", "", false)

  /** The message for the e-mail field, if any: required when empty, invalid when the pattern fails. */
  function EmailCheck(email: string): (r: Option<string>)
    ensures r.None? <==> ValidateEmail(email)
    ensures r == Some(EmailRequired) <==> email == ""
  {
    if email == "" then
      assert !PatternSplit("", 0, 0);
      Some(EmailRequired)
    else if !ValidateEmail(email) then Some(EmailInvalid)
    else None
  }

  /** The message for the password field, if any: required when empty, too short under six characters. */
  function PasswordCheck(password: string): (r: Option<string>)
    ensures r.None? <==> |password| >= 6
    ensures r == Some(PasswordRequired) <==> password == ""
  {
    if password == "" then Some(PasswordRequired)
    else if |password| < 6 then Some(PasswordTooShort)
    else None
  }

  function UsernameCheck(username: string): (r: Option<string>)
    ensures r.None? <==> |username| >= 3
    ensures r == Some(UsernameRequired) <==> username == ""
  {
    if username == "" then Some(UsernameRequired)
    else if |username| < 3 then Some(UsernameTooShort)
    else None
  }

  /** The outcome of each field's check: a message, or none when the field passes. */
  datatype Messages = Messages(
    username: Option<string>, email: Option<string>, password: Option<string>,
    confirmPassword: Option<string>, acceptTerms: Option<string>)

  function MessageFor(ms: Messages, k: Field): Option<string> {
    match k
    case Username => ms.username
    case Email => ms.email
    case Password => ms.password
    case ConfirmPassword => ms.confirmPassword
    case AcceptTerms => ms.acceptTerms
  }

  /** The error record: an entry exactly for each field that has a message. */
  function ErrorMap(ms: Messages): map<Field, string> {
    map k | k in {Username, Email, Password, ConfirmPassword, AcceptTerms} && MessageFor(ms, k).Some?
      :: MessageFor(ms, k).value
  }

  /** Recording the checks one field after the other, in the handlers' order, builds the error record. */
  lemma ErrorMapSteps(ms: Messages)
    ensures Put(Put(Put(Put(Put(map[], Username, ms.username), Email, ms.email), Password, ms.password),
              ConfirmPassword, ms.confirmPassword), AcceptTerms, ms.acceptTerms)
         == ErrorMap(ms)
  {
  }

  function LoginMessages(f: LoginForm): Messages {
    Messages(None, EmailCheck(f.email), PasswordCheck(f.password), None, None)
  }

  function RegisterMessages(f: RegisterForm): Messages {
    Messages(UsernameCheck(f.username), EmailCheck(f.email), PasswordCheck(f.password),
      if f.password != f.confirmPassword then Some(PasswordsDiffer) else None,
      if !f.acceptTerms then Some(TermsRequired) else None)
  }

  /** The error map `handleLogin` builds: one entry per failing field. */
  function LoginErrors(f: LoginForm): (r: map<Field, string>)
    ensures r.Keys <= {Email, Password}
    ensures Email in r <==> (f.email == "" || !ValidateEmail(f.email))
    ensures Email in r ==> r[Email] == (if f.email == "" then EmailRequired else EmailInvalid)
    ensures Password in r <==> |f.password| < 6
    ensures Password in r ==> r[Password] == (if f.password == "" then PasswordRequired else PasswordTooShort)
  {
    ErrorMap(LoginMessages(f))
  }

  /** The error map `handleRegister` builds; the confirmation is checked whatever the password's own state. */
  function RegisterErrors(f: RegisterForm): (r: map<Field, string>)
    ensures Username in r <==> |f.username| < 3
    ensures Username in r ==> r[Username] == (if f.username == "" then UsernameRequired else UsernameTooShort)
    ensures Email in r <==> (f.email == "" || !ValidateEmail(f.email))
    ensures Email in r ==> r[Email] == (if f.email == "" then EmailRequired else EmailInvalid)
    ensures Password in r <==> |f.password| < 6
    ensures Password in r ==> r[Password] == (if f.password == "" then PasswordRequired else PasswordTooShort)
    ensures ConfirmPassword in r <==> f.password != f.confirmPassword
    ensures ConfirmPassword in r ==> r[ConfirmPassword] == PasswordsDiffer
    ensures AcceptTerms in r <==> !f.acceptTerms
    ensures AcceptTerms in r ==> r[AcceptTerms] == TermsRequired
  {
    ErrorMap(RegisterMessages(f))
  }

  /** A login is accepted exactly for a valid address and a password of at least six characters. */
  lemma LoginAcceptsExactly(f: LoginForm)
    ensures LoginErrors(f) == map[] <==> ValidateEmail(f.email) && |f.password| >= 6
  {
    if !(ValidateEmail(f.email) && |f.password| >= 6) {
      assert Email in LoginErrors(f) || Password in LoginErrors(f);
    }
  }

  /** A registration is accepted exactly when all five fields pass. */
  lemma RegisterAcceptsExactly(f: RegisterForm)
    ensures RegisterErrors(f) == map[] <==>
      |f.username| >= 3 && ValidateEmail(f.email) && |f.password| >= 6
      && f.password == f.confirmPassword && f.acceptTerms
  {
    var r := RegisterErrors(f);
    if !(|f.username| >= 3 && ValidateEmail(f.email) && |f.password| >= 6
         && f.password == f.confirmPassword && f.acceptTerms) {
      assert Username in r || Email in r || Password in r || ConfirmPassword in r || AcceptTerms in r;
    }
  }

  /** One `if / else if` block of the handlers: the username's message, if any, recorded in `m`. */
  method AddUsernameError(m: map<Field, string>, username: string) returns (r: map<Field, string>)
    ensures r == Put(m, Username, UsernameCheck(username))
  {
    r := m;
    if username == "" {
      r := r[Username := UsernameRequired];
    } else if |username| < 3 {
      r := r[Username := UsernameTooShort];
    }
  }

  method AddEmailError(m: map<Field, string>, email: string) returns (r: map<Field, string>)
    ensures r == Put(m, Email, EmailCheck(email))
  {
    r := m;
    if email == "" {
      r := r[Email := EmailRequired];
    } else if !ValidateEmail(email) {
      r := r[Email := EmailInvalid];
    }
  }

  method AddPasswordError(m: map<Field, string>, password: string) returns (r: map<Field, string>)
    ensures r == Put(m, Password, PasswordCheck(password))
  {
    r := m;
    if password == "" {
      r := r[Password := PasswordRequired];
    } else if |password| < 6 {
      r := r[Password := PasswordTooShort];
    }
  }

  /** The local `newErrors` of `handleLogin`, filled one field at a time. */
  method CollectLoginErrors(f: LoginForm) returns (newErrors: map<Field, string>)
    ensures newErrors == LoginErrors(f)
  {
    newErrors := map[];
    newErrors := AddEmailError(newErrors, f.email);
    newErrors := AddPasswordError(newErrors, f.password);
    ErrorMapSteps(LoginMessages(f));
  }

  /** The local `newErrors` of `handleRegister`, filled one field at a time. */
  method CollectRegisterErrors(f: RegisterForm) returns (newErrors: map<Field, string>)
    ensures newErrors == RegisterErrors(f)
  {
    newErrors := map[];
    newErrors := AddUsernameError(newErrors, f.username);
    newErrors := AddEmailError(newErrors, f.email);
    newErrors := AddPasswordError(newErrors, f.password);
    if f.password != f.confirmPassword {
      newErrors := newErrors[ConfirmPassword := PasswordsDiffer];
    }
    if !f.acceptTerms {
      newErrors := newErrors[AcceptTerms := TermsRequired];
    }
    ErrorMapSteps(RegisterMessages(f));
  }

  /** The user a successful login creates. */
  function LoginUser(f: LoginForm): (u: User)
    ensures u.id == "1" && u.email == f.email && u.isLoggedIn && u.avatar == None
    ensures |u.username| <= |f.email| && u.username == f.email[..|u.username|] && '@' !in u.username
    ensures |u.username| < |f.email| ==> f.email[|u.username|] == '@'
  {
    User("1", Text.BeforeFirst(f.email, '@'), f.email, None, true)
  }

  function RegisterUser(f: RegisterForm): (u: User)
    ensures u.id == "1" && u.username == f.username && u.email == f.email && u.isLoggedIn && u.avatar == None
  {
    User("1", f.username, f.email, None, true)
  }

  /**
   * A registered user and one logged in with the same address are the same
   * record except for the name: the form's name, not the text before the `@`.
   */
  lemma RegisterLikeLogin(rf: RegisterForm, lf: LoginForm)
    requires rf.email == lf.email
    ensures RegisterUser(rf).(username := LoginUser(lf).username) == LoginUser(lf)
    ensures RegisterUser(rf).username == rf.username
  {
  }

  /** The state of the two modals; the open flags and the user live in the shared application state. */
  class AuthModals {
    const app: Catalog.AppState
    var showPassword: bool
    var loginForm: LoginForm
    var registerForm: RegisterForm
    var errors: map<Field, string>

    constructor (app: Catalog.AppState)
      ensures this.app == app && !showPassword
      ensures loginForm == EmptyLoginForm && registerForm == EmptyRegisterForm && errors == map[]
    {
      this.app := app;
      showPassword := false;
      loginForm := EmptyLoginForm;
      registerForm := EmptyRegisterForm;
      errors := map[];
    }

    /**
     * `handleLogin`: the errors are replaced as a whole; with none, the user is
     * logged in, the login modal closed and the form reset, and otherwise the
     * user, the flag and the form stay as they were.
     */
    method HandleLogin()
      modifies this`errors, this`loginForm, app`user, app`showLoginModal
      ensures errors == LoginErrors(old(loginForm))
      ensures errors == map[] ==>
        app.user == Some(LoginUser(old(loginForm))) && !app.showLoginModal && loginForm == EmptyLoginForm
      ensures errors != map[] ==>
        app.user == old(app.user) && app.showLoginModal == old(app.showLoginModal) && loginForm == old(loginForm)
    {
      var newErrors := CollectLoginErrors(loginForm);
      errors := newErrors;
      if |newErrors| == 0 {
        app.SetUser(Some(User("1", Text.BeforeFirst(loginForm.email, '@'), loginForm.email, None, true)));
        app.SetShowLoginModal(false);
        loginForm := EmptyLoginForm;
      }
    }

    /** `handleRegister`, with the same shape as the login. */
    method HandleRegister()
      modifies this`errors, this`registerForm, app`user, app`showRegisterModal
      ensures errors == RegisterErrors(old(registerForm))
      ensures errors == map[] ==>
        app.user == Some(RegisterUser(old(registerForm))) && !app.showRegisterModal && registerForm == EmptyRegisterForm
      ensures errors != map[] ==>
        app.user == old(app.user) && app.showRegisterModal == old(app.showRegisterModal) && registerForm == old(registerForm)
    {
      var f := registerForm;
      var newErrors := CollectRegisterErrors(f);
      errors := newErrors;
      if |newErrors| == 0 {
        app.SetUser(Some(User("1", f.username, f.email, None, true)));
        app.SetShowRegisterModal(false);
        registerForm := EmptyRegisterForm;
      }
    }

    /** "Regístrate" in the login modal: only the register modal open, no errors. */
    method SwitchToRegister()
      modifies app`showLoginModal, app`showRegisterModal, this`errors
      ensures !app.showLoginModal && app.showRegisterModal && errors == map[]
    {
      app.SetShowLoginModal(false);
      app.SetShowRegisterModal(true);
      errors := map[];
    }

    /** "Inicia sesión" in the register modal: only the login modal open, no errors. */
    method SwitchToLogin()
      modifies app`showLoginModal, app`showRegisterModal, this`errors
      ensures app.showLoginModal && !app.showRegisterModal && errors == map[]
    {
      app.SetShowRegisterModal(false);
      app.SetShowLoginModal(true);
      errors := map[];
    }

    /** The overlay or the close button of the login modal; the errors are kept. */
    method CloseLogin()
      modifies app`showLoginModal
      ensures !app.showLoginModal
    {
      app.SetShowLoginModal(false);
    }

    method CloseRegister()
      modifies app`showRegisterModal
      ensures !app.showRegisterModal
    {
      app.SetShowRegisterModal(false);
    }

    /** The eye button: show or hide the login password. */
    method TogglePassword()
      modifies this`showPassword
      ensures showPassword == !old(showPassword)
    {
      showPassword := !showPassword;
    }

    method SetLoginForm(f: LoginForm)
      modifies this`loginForm
      ensures loginForm == f
    {
      loginForm := f;
    }

    method SetRegisterForm(f: RegisterForm)
      modifies this`registerForm
      ensures registerForm == f
    {
      registerForm := f;
    }
  }
}

/** Accounts and sign-in (backend/controllers/authController.js): the role
    policy `decideRole`, and the account updates of Google sign-in,
    registration and password sign-in. Google token verification, bcrypt
    and token signing are foreign calls: their results are parameters. */
module Auth {
  import opened Common
  import opened Text

  const Admin: string := "admin"
  const Student: string := "student"

  /** The student domain used when none is configured. */
  const DefaultStudentDomain: string := "vitbhopal.ac.in"

  /** `process.env.ALLOWED_STUDENT_DOMAIN || 'vitbhopal.ac.in'`. */
  function StudentDomain(configured: Option<string>): (d: string)
    ensures d != ""
  {
    if Truthy(configured) then configured.value else DefaultStudentDomain
  }

  /** `lower.split('@')[1]`: the text between the first and the second
      `@`, or `undefined` when there is no `@`. */
  function DomainPart(lower: string): Option<string> {
    var parts := Split(lower, '@');
    if |parts| >= 2 then Some(parts[1]) else None
  }

  /** `decideRole`: an allowlisted address (compared lowercased) is an
      admin; otherwise an address in the student domain is a student;
      otherwise there is no role. */
  function DecideRole(email: string, adminEmails: seq<string>, domain: string): (r: Option<string>)
    ensures r == Some(Admin) <==> ToLower(email) in adminEmails
    ensures r == Some(Student) <==> ToLower(email) !in adminEmails && DomainPart(ToLower(email)) == Some(domain)
    ensures r.None? || r == Some(Admin) || r == Some(Student)
  {
    var lower := ToLower(email);
    if lower in adminEmails then Some(Admin)
    else if DomainPart(lower) == Some(domain) then Some(Student)
    else None
  }

  /** The policy ignores case. */
  lemma DecideRoleIgnoresCase(email: string, adminEmails: seq<string>, domain: string)
    ensures DecideRole(ToLower(email), adminEmails, domain) == DecideRole(email, adminEmails, domain)
  {
    ToLowerIdempotent(email);
  }

  lemma LowerCharAt(c: char)
    ensures LowerChar(c) == '@' <==> c == '@'
  {
  }

  lemma ToLowerAppend(a: string, b: string)
    ensures ToLower(a + b) == ToLower(a) + ToLower(b)
  {
  }

  lemma ToLowerKeepsNoAt(s: string)
    requires '@' !in s
    ensures '@' !in ToLower(s)
  {
    forall i | 0 <= i < |s| ensures ToLower(s)[i] != '@' {
      LowerCharAt(s[i]);
    }
  }

  /** For an address `local@host` with one `@`, that is not allowlisted,
      the role is student exactly when the lowercased host is the student
      domain, and none otherwise. */
  lemma {:induction false} DecideRoleOfAddress(local: string, host: string, adminEmails: seq<string>, domain: string)
    requires '@' !in local && '@' !in host
    requires ToLower(local + "@" + host) !in adminEmails
    ensures DecideRole(local + "@" + host, adminEmails, domain) == if ToLower(host) == domain then Some(Student) else None
  {
    DomainOfAddress(local, host);
  }

  lemma {:induction false} DomainOfAddress(local: string, host: string)
    requires '@' !in local && '@' !in host
    ensures DomainPart(ToLower(local + "@" + host)) == Some(ToLower(host))
  {
    ToLowerAppend(local + "@", host);
    ToLowerAppend(local, "@");
    assert ToLower("@") == "@";
    ToLowerKeepsNoAt(local);
    ToLowerKeepsNoAt(host);
    SplitAtFirst(ToLower(local), ToLower(host), '@');
    SplitWithout(ToLower(host), '@');
  }

  /** Only the text between the first and the second `@` is compared: an
      address with a second `@` after the student domain is still a
      student's. */
  lemma {:induction false} SecondAtIgnored(local: string, host: string, rest: string, adminEmails: seq<string>, domain: string)
    requires '@' !in local && '@' !in host
    requires ToLower(local + "@" + host + "@" + rest) !in adminEmails
    requires ToLower(host) == domain
    ensures DecideRole(local + "@" + host + "@" + rest, adminEmails, domain) == Some(Student)
  {
    var lower := ToLower(local + "@" + host + "@" + rest);
    assert local + "@" + host + "@" + rest == local + "@" + (host + "@" + rest);
    ToLowerAppend(local + "@", host + "@" + rest);
    ToLowerAppend(local, "@");
    ToLowerAppend(host + "@", rest);
    ToLowerAppend(host, "@");
    assert ToLower("@") == "@";
    ToLowerKeepsNoAt(local);
    ToLowerKeepsNoAt(host);
    SplitAtFirst(ToLower(local), ToLower(host + "@" + rest), '@');
    SplitAtFirst(ToLower(host), ToLower(rest), '@');
  }

  /** An address without `@` is never a student's. */
  lemma {:induction false} NoAtNoStudent(email: string, adminEmails: seq<string>, domain: string)
    requires '@' !in email
    ensures DecideRole(email, adminEmails, domain) != Some(Student)
  {
    ToLowerKeepsNoAt(email);
    SplitWithout(ToLower(email), '@');
  }

  /* ---------------- accounts ---------------- */

  /** A user record: the lowercased email is its key. */
  datatype Account = Account(
    email: string,
    name: Option<string>,
    role: string,
    passwordHash: Option<string>,
    googleId: Option<string>,
    phone: Option<string>)

  /** The token payload answered on sign-in. */
  datatype Session = Session(email: string, role: string)

  datatype AuthFailure =
    | MissingCredentials
    | EmailNotVerified
    | RoleNotAllowed
    | AlreadyRegistered
    | InvalidCredentials

  /** What `verifyIdToken` reports about a Google ID token. */
  datatype GoogleIdentity = GoogleIdentity(email: string, emailVerified: bool, googleId: string, name: Option<string>)

  /** Every account is stored under its own lowercased email and has one of
      the two roles. */
  predicate AccountsValid(accounts: map<string, Account>) {
    forall k :: k in accounts ==>
      accounts[k].email == k && ToLower(k) == k && (accounts[k].role == Admin || accounts[k].role == Student)
  }

  /** An operation's new accounts and its answer. */
  datatype AuthOutcome = AuthOutcome(accounts: map<string, Account>, result: Result<Session, AuthFailure>)

  /** `googleLogin`: a missing token, an unverified email or an address
      with no role fail; otherwise the account is created with the decided
      role, or its stored role is overwritten when it differs. */
  function GoogleSignIn(accounts: map<string, Account>, idToken: Option<string>, g: GoogleIdentity,
                        adminEmails: seq<string>, domain: string): (o: AuthOutcome)
    ensures !Truthy(idToken) ==> o.result == Err(MissingCredentials)
    ensures Truthy(idToken) && !g.emailVerified ==> o.result == Err(EmailNotVerified)
    ensures Truthy(idToken) && g.emailVerified && DecideRole(g.email, adminEmails, domain).None? ==> o.result == Err(RoleNotAllowed)
    ensures o.result.Err? ==> o.accounts == accounts
    ensures o.result.Ok? ==> o.accounts.Keys == accounts.Keys + {ToLower(g.email)}
  {
    if !Truthy(idToken) then AuthOutcome(accounts, Err(MissingCredentials))
    else if !g.emailVerified then AuthOutcome(accounts, Err(EmailNotVerified))
    else
      match DecideRole(g.email, adminEmails, domain)
      case None => AuthOutcome(accounts, Err(RoleNotAllowed))
      case Some(role) =>
        var lower := ToLower(g.email);
        var account :=
          if lower !in accounts then Account(lower, g.name, role, None, Some(g.googleId), None)
          else accounts[lower].(role := role);
        AuthOutcome(accounts[lower := account], Ok(Session(lower, role)))
  }

  /** `register`: missing email or password, an address with no role, or
      an address already registered fail; otherwise one account is added. */
  function Register(accounts: map<string, Account>, email: Option<string>, password: Option<string>,
                    name: Option<string>, hash: string, adminEmails: seq<string>, domain: string): (o: AuthOutcome)
    ensures !Truthy(email) || !Truthy(password) ==> o.result == Err(MissingCredentials)
    ensures Truthy(email) && Truthy(password) && DecideRole(email.value, adminEmails, domain).None? ==> o.result == Err(RoleNotAllowed)
    ensures Truthy(email) && Truthy(password) && DecideRole(email.value, adminEmails, domain).Some? && ToLower(email.value) in accounts
            ==> o.result == Err(AlreadyRegistered)
    ensures o.result.Err? ==> o.accounts == accounts
    ensures o.result.Ok? ==> o.result.value.email !in accounts && o.accounts.Keys == accounts.Keys + {o.result.value.email}
  {
    if !Truthy(email) || !Truthy(password) then AuthOutcome(accounts, Err(MissingCredentials))
    else
      match DecideRole(email.value, adminEmails, domain)
      case None => AuthOutcome(accounts, Err(RoleNotAllowed))
      case Some(role) =>
        var lower := ToLower(email.value);
        if lower in accounts then AuthOutcome(accounts, Err(AlreadyRegistered))
        else AuthOutcome(accounts[lower := Account(lower, name, role, Some(hash), None, None)], Ok(Session(lower, role)))
  }

  /** `login`: missing email or password, an unknown account, one without a
      password hash or a wrong password fail; then the policy is enforced
      again on the stored email and the stored role synced with it. */
  function PasswordSignIn(accounts: map<string, Account>, email: Option<string>, password: Option<string>,
                          passwordMatches: (string, string) -> bool, adminEmails: seq<string>, domain: string): (o: AuthOutcome)
    ensures !Truthy(email) || !Truthy(password) ==> o.result == Err(MissingCredentials)
    ensures Truthy(email) && Truthy(password) && ToLower(email.value) !in accounts ==> o.result == Err(InvalidCredentials)
    ensures Truthy(email) && Truthy(password) && ToLower(email.value) in accounts ==>
      var user := accounts[ToLower(email.value)];
      (!Truthy(user.passwordHash) ==> o.result == Err(InvalidCredentials))
      && (Truthy(user.passwordHash) && !passwordMatches(password.value, user.passwordHash.value)
          ==> o.result == Err(InvalidCredentials))
      && (Truthy(user.passwordHash) && passwordMatches(password.value, user.passwordHash.value)
          && DecideRole(user.email, adminEmails, domain).None?
          ==> o.result == Err(RoleNotAllowed))
    ensures o.result.Ok? ==>
      Truthy(email) && Truthy(password) && ToLower(email.value) in accounts
      && Truthy(accounts[ToLower(email.value)].passwordHash)
      && passwordMatches(password.value, accounts[ToLower(email.value)].passwordHash.value)
    ensures o.result.Err? ==> o.accounts == accounts
    ensures o.accounts.Keys == accounts.Keys
  {
    if !Truthy(email) || !Truthy(password) then AuthOutcome(accounts, Err(MissingCredentials))
    else
      var lower := ToLower(email.value);
      if lower !in accounts || !Truthy(accounts[lower].passwordHash) then AuthOutcome(accounts, Err(InvalidCredentials))
      else if !passwordMatches(password.value, accounts[lower].passwordHash.value) then AuthOutcome(accounts, Err(InvalidCredentials))
      else
        var user := accounts[lower];
        match DecideRole(user.email, adminEmails, domain)
        case None => AuthOutcome(accounts, Err(RoleNotAllowed))
        case Some(role) => AuthOutcome(accounts[lower := user.(role := role)], Ok(Session(user.email, role)))
  }

  /** Every successful sign-in leaves the stored role equal to the role the
      policy decides now, and answers that role. */
  lemma SignInSyncsRole(accounts: map<string, Account>, idToken: Option<string>, g: GoogleIdentity,
                        email: Option<string>, password: Option<string>, passwordMatches: (string, string) -> bool,
                        adminEmails: seq<string>, domain: string)
    requires AccountsValid(accounts)
    ensures var o := GoogleSignIn(accounts, idToken, g, adminEmails, domain);
      o.result.Ok? ==>
        o.result.value.email == ToLower(g.email) && o.result.value.email in o.accounts
        && Some(o.accounts[o.result.value.email].role) == DecideRole(g.email, adminEmails, domain)
        && o.result.value.role == o.accounts[o.result.value.email].role
    ensures var o := PasswordSignIn(accounts, email, password, passwordMatches, adminEmails, domain);
      o.result.Ok? ==>
        o.result.value.email in o.accounts
        && Some(o.accounts[o.result.value.email].role) == DecideRole(o.result.value.email, adminEmails, domain)
        && o.result.value.role == o.accounts[o.result.value.email].role
  {
  }

  /** Sign-in and registration keep every account under its lowercased
      email with a valid role. */
  lemma GoogleSignInKeepsAccountsValid(accounts: map<string, Account>, idToken: Option<string>, g: GoogleIdentity,
                                       adminEmails: seq<string>, domain: string)
    requires AccountsValid(accounts)
    ensures AccountsValid(GoogleSignIn(accounts, idToken, g, adminEmails, domain).accounts)
  {
    ToLowerIdempotent(g.email);
  }

  lemma RegisterKeepsAccountsValid(accounts: map<string, Account>, email: Option<string>, password: Option<string>,
                                   name: Option<string>, hash: string, adminEmails: seq<string>, domain: string)
    requires AccountsValid(accounts)
    ensures AccountsValid(Register(accounts, email, password, name, hash, adminEmails, domain).accounts)
  {
    if email.Some? {
      ToLowerIdempotent(email.value);
    }
  }

  lemma PasswordSignInKeepsAccountsValid(accounts: map<string, Account>, email: Option<string>, password: Option<string>,
                                         passwordMatches: (string, string) -> bool, adminEmails: seq<string>, domain: string)
    requires AccountsValid(accounts)
    ensures AccountsValid(PasswordSignIn(accounts, email, password, passwordMatches, adminEmails, domain).accounts)
  {
  }

  /** A registered address cannot be registered again. */
  lemma RegisterTwiceConflicts(accounts: map<string, Account>, email: Option<string>, password: Option<string>,
                               name: Option<string>, h1: string, h2: string, adminEmails: seq<string>, domain: string)
    requires Register(accounts, email, password, name, h1, adminEmails, domain).result.Ok?
    ensures var once := Register(accounts, email, password, name, h1, adminEmails, domain).accounts;
      Register(once, email, password, name, h2, adminEmails, domain) == AuthOutcome(once, Err(AlreadyRegistered))
  {
  }

  /** The users collection. */
  class UserDirectory {
    var accounts: map<string, Account>

    predicate Valid()
      reads this
    {
      AccountsValid(accounts)
    }

    constructor ()
      ensures accounts == map[] && Valid()
    {
      accounts := map[];
    }

    /** `googleLogin`. */
    method GoogleLogin(idToken: Option<string>, g: GoogleIdentity, adminEmails: seq<string>, domain: string)
      returns (r: Result<Session, AuthFailure>)
      requires Valid()
      modifies this
      ensures AuthOutcome(accounts, r) == GoogleSignIn(old(accounts), idToken, g, adminEmails, domain)
      ensures Valid()
    {
      GoogleSignInKeepsAccountsValid(accounts, idToken, g, adminEmails, domain);
      if !Truthy(idToken) {
        return Err(MissingCredentials);
      }
      if !g.emailVerified {
        return Err(EmailNotVerified);
      }
      var role := DecideRole(g.email, adminEmails, domain);
      if role.None? {
        return Err(RoleNotAllowed);
      }
      var lower := ToLower(g.email);
      if lower !in accounts {
        accounts := accounts[lower := Account(lower, g.name, role.value, None, Some(g.googleId), None)];
      } else if accounts[lower].role != role.value {
        accounts := accounts[lower := accounts[lower].(role := role.value)];
      }
      return Ok(Session(lower, role.value));
    }

    /** `register`; `hash` is what bcrypt made of the password. */
    method RegisterAccount(email: Option<string>, password: Option<string>, name: Option<string>, hash: string,
                           adminEmails: seq<string>, domain: string) returns (r: Result<Session, AuthFailure>)
      requires Valid()
      modifies this
      ensures AuthOutcome(accounts, r) == Register(old(accounts), email, password, name, hash, adminEmails, domain)
      ensures Valid()
    {
      RegisterKeepsAccountsValid(accounts, email, password, name, hash, adminEmails, domain);
      if !Truthy(email) || !Truthy(password) {
        return Err(MissingCredentials);
      }
      var role := DecideRole(email.value, adminEmails, domain);
      if role.None? {
        return Err(RoleNotAllowed);
      }
      var lower := ToLower(email.value);
      if lower in accounts {
        return Err(AlreadyRegistered);
      }
      accounts := accounts[lower := Account(lower, name, role.value, Some(hash), None, None)];
      return Ok(Session(lower, role.value));
    }

    /** `login`; `passwordMatches` stands for bcrypt's comparison. */
    method Login(email: Option<string>, password: Option<string>, passwordMatches: (string, string) -> bool,
                 adminEmails: seq<string>, domain: string) returns (r: Result<Session, AuthFailure>)
      requires Valid()
      modifies this
      ensures AuthOutcome(accounts, r) == PasswordSignIn(old(accounts), email, password, passwordMatches, adminEmails, domain)
      ensures Valid()
    {
      PasswordSignInKeepsAccountsValid(accounts, email, password, passwordMatches, adminEmails, domain);
      if !Truthy(email) || !Truthy(password) {
        return Err(MissingCredentials);
      }
      var lower := ToLower(email.value);
      if lower !in accounts || !Truthy(accounts[lower].passwordHash) {
        return Err(InvalidCredentials);
      }
      if !passwordMatches(password.value, accounts[lower].passwordHash.value) {
        return Err(InvalidCredentials);
      }
      var user := accounts[lower];
      var role := DecideRole(user.email, adminEmails, domain);
      if role.None? {
        return Err(RoleNotAllowed);
      }
      if user.role != role.value {
        accounts := accounts[lower := user.(role := role.value)];
      }
      return Ok(Session(user.email, role.value));
    }
  }
}

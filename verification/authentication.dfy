/**
 * The `authenticateUser` middleware: credentials present, then a user with
 * that address, then a password that verifies against the stored hash.
 */
module Authentication {
  import opened Wrappers
  import opened Http
  import opened Externals
  import opened UserModel
  import opened Database

  /** Why a request was refused; the client never learns which. */
  datatype Denial =
    | MissingCredentials
    | UnknownIdentifier(name: string)
    | InvalidSecret(name: string)

  /** Either `next()` runs with `req.currentUser` set, or the request is refused. */
  datatype Decision = Next(currentUser: User) | Reject(reason: Denial)

  /** The one response a refused request gets, whatever the reason. */
  const AccessDenied := Response(401, None, Message("Access Denied"))

  const HeaderMissing := "Auth header not found"
  const UnknownPrefix := "User not found for username: "
  const FailurePrefix := "Authentication failure for username: "

  /** The server-side warning logged for a refusal. */
  function Diagnostic(reason: Denial): (r: string)
    ensures reason.MissingCredentials? <==> r == HeaderMissing
    ensures reason.UnknownIdentifier? ==>
      |r| >= |UnknownPrefix| && r[..|UnknownPrefix|] == UnknownPrefix && r[|UnknownPrefix|..] == reason.name
    ensures reason.InvalidSecret? ==>
      |r| >= |FailurePrefix| && r[..|FailurePrefix|] == FailurePrefix && r[|FailurePrefix|..] == reason.name
  {
    match reason
    case MissingCredentials => HeaderMissing
    case UnknownIdentifier(name) => UnknownPrefix + name
    case InvalidSecret(name) => FailurePrefix + name
  }

  /** The middleware's decision; it reads the store and never changes it. */
  function AuthenticateUser(env: Env, s: Store, credentials: Option<Credentials>): (r: Decision)
    ensures credentials.None? <==> r == Reject(MissingCredentials)
    ensures r.Next? ==>
      && credentials.Some?
      && r.currentUser in s.users
      && r.currentUser.emailAddress == credentials.value.name
      && env.compare(credentials.value.pass, r.currentUser.password)
    ensures (r.Reject? && r.reason.UnknownIdentifier?) <==>
      credentials.Some? && forall u | u in s.users :: u.emailAddress != credentials.value.name
    ensures r.Reject? && r.reason.InvalidSecret? ==>
      && credentials.Some?
      && FindUser(s.users, ByEmail(credentials.value.name)).Some?
      && !env.compare(credentials.value.pass, FindUser(s.users, ByEmail(credentials.value.name)).value.password)
    ensures r.Reject? && !r.reason.MissingCredentials? ==> r.reason.name == credentials.value.name
  {
    match credentials
    case None => Reject(MissingCredentials)
    case Some(c) =>
      match FindUser(s.users, ByEmail(c.name))
      case None => Reject(UnknownIdentifier(c.name))
      case Some(user) =>
        if env.compare(c.pass, user.password) then Next(user) else Reject(InvalidSecret(c.name))
  }

  /** The decision depends on the Users table alone; courses and the id counter play no part. */
  lemma DecisionReadsOnlyUsers(env: Env, s1: Store, s2: Store, credentials: Option<Credentials>)
    requires s1.users == s2.users
    ensures AuthenticateUser(env, s1, credentials) == AuthenticateUser(env, s2, credentials)
  {
  }

  /**
   * Under the store invariant, a request passes exactly when its credentials
   * name a registered address whose password verifies.
   */
  lemma AuthenticateIff(env: Env, s: Store, c: Credentials)
    requires Valid(env, s)
    ensures AuthenticateUser(env, s, Some(c)).Next? <==>
      exists i | 0 <= i < |s.users| :: s.users[i].emailAddress == c.name && env.compare(c.pass, s.users[i].password)
  {
  }

  /** The three warnings differ, and each names the reason and the user it was logged for. */
  lemma DiagnosticInjective(a: Denial, b: Denial)
    ensures Diagnostic(a) == Diagnostic(b) <==> a == b
  {
    match a {
      case MissingCredentials =>
        match b {
          case MissingCredentials =>
          case UnknownIdentifier(n) => assert Diagnostic(a)[0] == 'A' && Diagnostic(b)[0] == 'U';
          case InvalidSecret(n) => assert Diagnostic(a)[4] == ' ' && Diagnostic(b)[4] == 'e';
        }
      case UnknownIdentifier(n) =>
        match b {
          case MissingCredentials => assert Diagnostic(a)[0] == 'U' && Diagnostic(b)[0] == 'A';
          case UnknownIdentifier(m) =>
            assert Diagnostic(a)[|UnknownPrefix|..] == n && Diagnostic(b)[|UnknownPrefix|..] == m;
          case InvalidSecret(m) => assert Diagnostic(a)[0] == 'U' && Diagnostic(b)[0] == 'A';
        }
      case InvalidSecret(n) =>
        match b {
          case MissingCredentials => assert Diagnostic(a)[4] == 'e' && Diagnostic(b)[4] == ' ';
          case UnknownIdentifier(m) => assert Diagnostic(a)[0] == 'A' && Diagnostic(b)[0] == 'U';
          case InvalidSecret(m) =>
            assert Diagnostic(a)[|FailurePrefix|..] == n && Diagnostic(b)[|FailurePrefix|..] == m;
        }
    }
  }
}

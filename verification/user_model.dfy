/** The User model: its attributes, their validators, and the hashing password setter. */
module UserModel {
  import opened Http
  import opened Externals

  /** A stored user row; `password` holds what the setter stored, the hash. */
  datatype User = User(id: nat, firstName: string, lastName: string, emailAddress: string, password: string)

  /** The attributes handed to `User.create` (the POST /users body is passed as is). */
  datatype UserDraft = UserDraft(
    firstName: Field<string>,
    lastName: Field<string>,
    emailAddress: Field<string>,
    password: Field<string>)

  const FirstNameNull := "First name cannot be empty"
  const LastNameNull := "Last name cannot be empty"
  const EmailNull := "Email name cannot be empty"
  const EmailInvalid := "Email is not valid"
  const PasswordNull := "Password name cannot be empty"
  /** Sequelize's own wording for a violated `unique` column; the model declares none. */
  const EmailTaken := "emailAddress must be unique"

  /** A draft every validator of the model accepts. */
  predicate UserAcceptable(env: Env, d: UserDraft) {
    && d.firstName.Given?
    && d.lastName.Given?
    && d.emailAddress.Given?
    && d.password.Given?
    && env.isEmail(d.emailAddress.value)
  }

  /**
   * The messages of the validators a draft violates. A null attribute skips its
   * other validators, so `isEmail` only judges a present address.
   */
  function UserViolations(env: Env, d: UserDraft): (r: seq<string>)
    ensures FirstNameNull in r <==> IsNull(d.firstName)
    ensures LastNameNull in r <==> IsNull(d.lastName)
    ensures EmailNull in r <==> IsNull(d.emailAddress)
    ensures EmailInvalid in r <==> d.emailAddress.Given? && !env.isEmail(d.emailAddress.value)
    ensures PasswordNull in r <==> IsNull(d.password)
    ensures forall m | m in r :: m in {FirstNameNull, LastNameNull, EmailNull, EmailInvalid, PasswordNull}
    ensures r == [] <==> UserAcceptable(env, d)
  {
    (if IsNull(d.firstName) then [FirstNameNull] else [])
    + (if IsNull(d.lastName) then [LastNameNull] else [])
    + (if IsNull(d.emailAddress) then [EmailNull]
       else if env.isEmail(d.emailAddress.value) then [] else [EmailInvalid])
    + (if IsNull(d.password) then [PasswordNull] else [])
  }

  /** The row `User.create` persists for an accepted draft: the setter stores the hash, not the plaintext. */
  function BuildUser(env: Env, id: nat, d: UserDraft): (u: User)
    requires UserAcceptable(env, d)
    ensures u.id == id
    ensures u.firstName == d.firstName.value && u.lastName == d.lastName.value
    ensures u.emailAddress == d.emailAddress.value
    ensures u.password == env.hash(d.password.value)
    ensures HashVerifies(env) ==> env.compare(d.password.value, u.password)
  {
    User(id, d.firstName.value, d.lastName.value, d.emailAddress.value, env.hash(d.password.value))
  }
}

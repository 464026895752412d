/**
 * The persistent store: the Users table in row order and the Courses table
 * keyed by id, with the Sequelize calls the handlers make on them.
 */
module Database {
  import opened Wrappers
  import opened Http
  import opened Externals
  import opened UserModel
  import opened CourseModel

  /**
   * Users are never deleted, so row i of the Users table has id i + 1.
   * Course ids come from an autoincrement counter and are never reused.
   */
  datatype Store = Store(users: seq<User>, courses: map<nat, Course>, nextCourseId: nat)

  /** The errors a Sequelize call throws. */
  datatype StoreError =
    | ValidationError(messages: seq<string>)
    | UniqueConstraintError(messages: seq<string>)
    | ForeignKeyConstraintError
    /** Not a Sequelize error: bcrypt's own refusal of a non-string password, thrown by the setter. */
    | HashArgumentError

  /** A `where` clause on the Users table. */
  datatype Key = ById(id: nat) | ByEmail(email: string)

  predicate Matches(u: User, key: Key) {
    match key
    case ById(id) => u.id == id
    case ByEmail(email) => u.emailAddress == email
  }

  /** The position of the first row matching the key, in table order. */
  function FindIndex(users: seq<User>, key: Key): (r: Option<nat>)
    ensures r.Some? ==> r.value < |users| && Matches(users[r.value], key)
    ensures r.Some? ==> forall j | 0 <= j < r.value :: !Matches(users[j], key)
    ensures r.None? <==> forall j | 0 <= j < |users| :: !Matches(users[j], key)
  {
    if |users| == 0 then None
    else if Matches(users[0], key) then Some(0)
    else match FindIndex(users[1..], key)
      case None => None
      case Some(i) => Some(i + 1)
  }

  /** `User.findOne({where})` and `User.findByPk`: the first matching row, or null. */
  function FindUser(users: seq<User>, key: Key): (r: Option<User>)
    ensures r.Some? ==> r.value in users && Matches(r.value, key)
    ensures r.None? <==> forall u | u in users :: !Matches(u, key)
  {
    match FindIndex(users, key)
    case None => None
    case Some(i) => Some(users[i])
  }

  /** What the handlers check of a user before storing it: non-empty names and address. */
  ghost predicate Registered(env: Env, u: User) {
    u.firstName != "" && u.lastName != "" && u.emailAddress != "" && env.isEmail(u.emailAddress)
  }

  /** What the handlers check of a course before storing it: non-empty title and description. */
  ghost predicate Listed(c: Course) {
    c.title != "" && c.description != ""
  }

  /**
   * The store invariant: row ids follow row order, e-mail addresses are unique,
   * every course has an id the counter has issued and an owner that exists.
   */
  ghost predicate Valid(env: Env, s: Store) {
    && s.nextCourseId > 0
    && (forall i | 0 <= i < |s.users| :: s.users[i].id == i + 1 && Registered(env, s.users[i]))
    && (forall i, j | 0 <= i < j < |s.users| :: s.users[i].emailAddress != s.users[j].emailAddress)
    && (forall k | k in s.courses :: 0 < k < s.nextCourseId && Listed(s.courses[k]))
    && (forall k | k in s.courses :: 0 < s.courses[k].userId <= |s.users|)
  }

  /** The empty database: no users, no courses, the counter at its first id. */
  const EmptyStore := Store([], map[], 1)

  /** Under the invariant, every stored user is the row its id names. */
  lemma UserIsRow(env: Env, s: Store, u: User)
    requires Valid(env, s)
    requires u in s.users
    ensures 0 < u.id <= |s.users| && s.users[u.id - 1] == u
  {
  }

  /** Inserting a course with non-empty title and description and an existing owner under the next id keeps the invariant. */
  lemma InsertCourseKeepsValid(env: Env, s: Store, c: Course)
    requires Valid(env, s)
    requires Listed(c) && 0 < c.userId <= |s.users|
    ensures Valid(env, s.(courses := s.courses[s.nextCourseId := c], nextCourseId := s.nextCourseId + 1))
  {
  }

  /** Replacing a stored course by one with non-empty title and description and an existing owner keeps the invariant. */
  lemma ReplaceCourseKeepsValid(env: Env, s: Store, id: nat, c: Course)
    requires Valid(env, s)
    requires id in s.courses
    requires Listed(c) && 0 < c.userId <= |s.users|
    ensures Valid(env, s.(courses := s.courses[id := c]))
  {
  }

  /** Under the invariant, looking a user up by its own address finds that user. */
  lemma FindByEmailUnique(env: Env, s: Store, i: nat)
    requires Valid(env, s)
    requires i < |s.users|
    ensures FindUser(s.users, ByEmail(s.users[i].emailAddress)) == Some(s.users[i])
  {
  }

  /** Under the invariant, a user id exists exactly when it is a row number, and names that row. */
  lemma FindByIdIsRow(env: Env, s: Store, id: nat)
    requires Valid(env, s)
    ensures FindUser(s.users, ById(id)).Some? <==> 0 < id <= |s.users|
    ensures 0 < id <= |s.users| ==> FindUser(s.users, ById(id)) == Some(s.users[id - 1])
  {
    if 0 < id <= |s.users| {
      assert Matches(s.users[id - 1], ById(id));
    }
  }

  /**
   * `User.create(draft)`: the password setter hashes whatever value the draft supplies, so an explicit
   * null fails inside bcrypt before any validator runs; otherwise validate, then insert unless the
   * address is taken.
   */
  function CreateUser(env: Env, s: Store, d: UserDraft): (r: Result<(User, Store), StoreError>)
    ensures r.Success? <==>
      UserAcceptable(env, d) && forall u | u in s.users :: u.emailAddress != d.emailAddress.value
    ensures r == Failure(HashArgumentError) <==> d.password.Null?
    ensures !d.password.Null? && !UserAcceptable(env, d) ==> r == Failure(ValidationError(UserViolations(env, d)))
    ensures UserAcceptable(env, d) && r.Failure? ==> r.error == UniqueConstraintError([EmailTaken])
    ensures r.Success? ==>
      && r.value.1 == s.(users := s.users + [r.value.0])
      && r.value.0.id == |s.users| + 1
      && r.value.0.emailAddress == d.emailAddress.value
      && r.value.0.password == env.hash(d.password.value)
  {
    var violations := UserViolations(env, d);
    if d.password.Null? then Failure(HashArgumentError)
    else if violations != [] then Failure(ValidationError(violations))
    else if FindUser(s.users, ByEmail(d.emailAddress.value)).Some? then Failure(UniqueConstraintError([EmailTaken]))
    else
      var u := BuildUser(env, |s.users| + 1, d);
      Success((u, s.(users := s.users + [u])))
  }

  /** Sequelize's own wording for a primary key that is already taken. */
  const IdTaken := "id must be unique"

  /** `Course.create(draft)`: validate, check the owner key, insert under the next id. */
  function CreateCourse(s: Store, d: CourseDraft): (r: Result<(nat, Store), StoreError>)
    ensures r.Success? <==>
      && CourseComplete(d)
      && (exists u | u in s.users :: u.id == d.userId.value)
      && s.nextCourseId !in s.courses
    ensures !CourseComplete(d) ==> r == Failure(ValidationError(CourseViolations(d)))
    ensures CourseComplete(d) && (forall u | u in s.users :: u.id != d.userId.value) ==> r == Failure(ForeignKeyConstraintError)
    ensures r.Success? ==>
      && r.value.0 == s.nextCourseId
      && r.value.1 == s.(courses := s.courses[r.value.0 := BuildCourse(d)], nextCourseId := s.nextCourseId + 1)
  {
    var violations := CourseViolations(d);
    if violations != [] then Failure(ValidationError(violations))
    else if FindUser(s.users, ById(d.userId.value)).None? then Failure(ForeignKeyConstraintError)
    else if s.nextCourseId in s.courses then Failure(UniqueConstraintError([IdTaken]))
    else
      var id := s.nextCourseId;
      Success((id, s.(courses := s.courses[id := BuildCourse(d)], nextCourseId := id + 1)))
  }

  /**
   * `course.update(body)` on a loaded course: overlay the body, validate the
   * instance, check a changed owner key, save. Only that course changes.
   */
  function UpdateCourse(s: Store, id: nat, body: CourseDraft): (r: Result<Store, StoreError>)
    requires id in s.courses
    ensures r.Success? <==>
      && CourseComplete(Patch(s.courses[id], body))
      && (body.userId.Given? ==> exists u | u in s.users :: u.id == body.userId.value)
    ensures !CourseComplete(Patch(s.courses[id], body)) ==>
      r == Failure(ValidationError(CourseViolations(Patch(s.courses[id], body))))
    ensures body.title.Given? && body.description.Given? && body.userId.Null? ==>
      r == Failure(ValidationError([UserIdNull]))
    ensures CourseComplete(Patch(s.courses[id], body)) && body.userId.Given?
            && (forall u | u in s.users :: u.id != body.userId.value) ==>
      r == Failure(ForeignKeyConstraintError)
    ensures r.Success? ==> r.value == s.(courses := s.courses[id := BuildCourse(Patch(s.courses[id], body))])
    ensures r.Success? ==> r.value.courses[id].userId == (if body.userId.Given? then body.userId.value else s.courses[id].userId)
  {
    var d := Patch(s.courses[id], body);
    var violations := CourseViolations(d);
    assert d.title.Given? && d.description.Given? && d.userId.Null? ==> violations == [UserIdNull] by {
      if d.title.Given? && d.description.Given? && d.userId.Null? {
        assert |violations| == 1 && UserIdNull in violations;
      }
    }
    if violations != [] then Failure(ValidationError(violations))
    else if body.userId.Given? && FindUser(s.users, ById(body.userId.value)).None? then Failure(ForeignKeyConstraintError)
    else Success(s.(courses := s.courses[id := BuildCourse(d)]))
  }

  /** `course.destroy()` on a loaded course: that course is gone and nothing else changes. */
  function DestroyCourse(s: Store, id: nat): (s': Store)
    requires id in s.courses
    ensures id !in s'.courses
    ensures forall k | k in s.courses && k != id :: k in s'.courses && s'.courses[k] == s.courses[k]
    ensures s'.courses.Keys == s.courses.Keys - {id}
    ensures s'.users == s.users && s'.nextCourseId == s.nextCourseId
  {
    s.(courses := s.courses - {id})
  }
}

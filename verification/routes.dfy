/**
 * The request handlers. Each is a pure function from a request and the store
 * to a response and the new store, or to the fault that escapes it.
 */
module Routes {
  import opened Wrappers
  import opened Http
  import opened Externals
  import opened Decimal
  import opened UserModel
  import opened CourseModel
  import opened Database
  import opened Authentication

  /** An exception no handler catches; the framework answers with a server error and the store is unchanged. */
  datatype Fault = NullDereference(expression: string) | Unhandled(error: StoreError)

  datatype Outcome = Done(response: Response, store: Store) | Thrown(fault: Fault)

  const NotTheCorrectUser := Response(403, None, Error("Not the correct user"))

  // ---------------------------------------------------------------------------
  // Manual payload validation

  /** The handlers' message for a falsy body member. */
  function MissingValue(field: string): string {
    "Please provide a value for \"" + field + "\""
  }

  /** Different fields get different messages. */
  lemma MissingValueInjective(a: string, b: string)
    ensures MissingValue(a) == MissingValue(b) <==> a == b
  {
    var prefix := "Please provide a value for \"";
    if MissingValue(a) == MissingValue(b) {
      assert |a| == |b|;
      assert a == MissingValue(a)[|prefix|..|prefix| + |a|];
      assert b == MissingValue(b)[|prefix|..|prefix| + |b|];
    }
  }

  /** xs is ys with some elements left out, the rest in their order. */
  ghost predicate Subsequence<T>(xs: seq<T>, ys: seq<T>)
    decreases |ys|
  {
    if |xs| == 0 then true
    else if |ys| == 0 then false
    else (xs[0] == ys[0] && Subsequence(xs[1..], ys[1..])) || Subsequence(xs, ys[1..])
  }

  /** Every message the check of these fields could produce, in field order. */
  function Prompts(fields: seq<(string, Field<string>)>): seq<string> {
    seq(|fields|, i requires 0 <= i < |fields| => MissingValue(fields[i].0))
  }

  /**
   * One message per falsy field, in field order; every field is checked, none
   * stops the others.
   */
  function RequiredErrors(fields: seq<(string, Field<string>)>): (errors: seq<string>)
    ensures |errors| <= |fields|
    ensures errors == [] <==> forall i | 0 <= i < |fields| :: Truthy(fields[i].1)
    ensures forall i | 0 <= i < |fields| && !Truthy(fields[i].1) :: MissingValue(fields[i].0) in errors
    ensures forall e | e in errors :: exists i | 0 <= i < |fields| :: !Truthy(fields[i].1) && e == MissingValue(fields[i].0)
    ensures Subsequence(errors, Prompts(fields))
  {
    if |fields| == 0 then []
    else
      var rest := RequiredErrors(fields[1..]);
      assert Prompts(fields) == [MissingValue(fields[0].0)] + Prompts(fields[1..]);
      if Truthy(fields[0].1) then rest else [MissingValue(fields[0].0)] + rest
  }

  /** When the field names differ, a field's message is reported exactly when that field is falsy. */
  lemma ReportedIffFalsy(fields: seq<(string, Field<string>)>, i: nat)
    requires i < |fields|
    requires forall j, k | 0 <= j < k < |fields| :: fields[j].0 != fields[k].0
    ensures MissingValue(fields[i].0) in RequiredErrors(fields) <==> !Truthy(fields[i].1)
  {
    if MissingValue(fields[i].0) in RequiredErrors(fields) {
      var j :| 0 <= j < |fields| && !Truthy(fields[j].1) && MissingValue(fields[i].0) == MissingValue(fields[j].0);
      MissingValueInjective(fields[i].0, fields[j].0);
    }
  }

  /** The members POST /users checks, in the order it checks them. */
  function UserFields(b: UserDraft): seq<(string, Field<string>)> {
    [("firstName", b.firstName), ("lastName", b.lastName), ("emailAddress", b.emailAddress), ("password", b.password)]
  }

  /** The members POST and PUT /courses check, in the order they check them. */
  function CourseFields(b: CourseDraft): seq<(string, Field<string>)> {
    [("title", b.title), ("description", b.description)]
  }

  predicate UserFilled(b: UserDraft) {
    Truthy(b.firstName) && Truthy(b.lastName) && Truthy(b.emailAddress) && Truthy(b.password)
  }

  predicate CourseFilled(b: CourseDraft) {
    Truthy(b.title) && Truthy(b.description)
  }

  lemma UserErrorsEmptyIff(b: UserDraft)
    ensures RequiredErrors(UserFields(b)) == [] <==> UserFilled(b)
  {
    var f := UserFields(b);
    assert f[0].1 == b.firstName && f[1].1 == b.lastName && f[2].1 == b.emailAddress && f[3].1 == b.password;
  }

  lemma CourseErrorsEmptyIff(b: CourseDraft)
    ensures RequiredErrors(CourseFields(b)) == [] <==> CourseFilled(b)
  {
    var f := CourseFields(b);
    assert f[0].1 == b.title && f[1].1 == b.description;
  }

  // ---------------------------------------------------------------------------
  // Response shaping

  const CoursesPrefix := "/courses/"

  /** The Location of a course: `/courses/${id}`. */
  function CourseLocation(id: nat): string {
    CoursesPrefix + Render(id)
  }

  /** The course id a Location names, if it names one. */
  function CourseIdOf(location: string): Option<nat> {
    if |location| >= |CoursesPrefix| && location[..|CoursesPrefix|] == CoursesPrefix
    then Parse(location[|CoursesPrefix|..])
    else None
  }

  /** A course's Location names that course and no other. */
  lemma LocationNamesCourse(id: nat)
    ensures CourseIdOf(CourseLocation(id)) == Some(id)
  {
    assert CourseLocation(id)[|CoursesPrefix|..] == Render(id);
    ParseRender(id);
  }

  /** The owner summary included with a course. */
  function OwnerOf(s: Store, c: Course): (r: Option<OwnerView>)
    ensures r.Some? <==> exists u | u in s.users :: u.id == c.userId
    ensures r.Some? ==> r.value.id == c.userId
    ensures r.Some? ==> exists u | u in s.users && u.id == c.userId ::
      r.value == OwnerView(u.id, u.firstName, u.lastName, u.emailAddress)
  {
    match FindUser(s.users, ById(c.userId))
    case None => None
    case Some(u) => Some(OwnerView(u.id, u.firstName, u.lastName, u.emailAddress))
  }

  /** A course as GET /courses and GET /courses/:id send it. */
  function View(s: Store, id: nat, c: Course): (v: CourseView)
    ensures v.id == id && v.title == c.title && v.description == c.description
    ensures v.estimatedTime == c.estimatedTime && v.materialsNeeded == c.materialsNeeded
    ensures v.owner.Some? <==> exists u | u in s.users :: u.id == c.userId
  {
    CourseView(id, c.title, c.description, c.estimatedTime, c.materialsNeeded, OwnerOf(s, c))
  }

  // ---------------------------------------------------------------------------
  // Handlers

  /** GET /users: the authenticated user's id, full name and address. */
  function GetUsers(env: Env, s: Store, credentials: Option<Credentials>): (o: Outcome)
    ensures o.Done? && o.store == s
    ensures o.response.status == 200 <==> AuthenticateUser(env, s, credentials).Next?
    ensures o.response.status != 200 ==> o.response == AccessDenied
    ensures o.response.status == 200 ==>
      exists u | u in s.users ::
        && u.emailAddress == credentials.value.name
        && env.compare(credentials.value.pass, u.password)
        && o.response.body == Profile(u.id, u.firstName + " " + u.lastName, u.emailAddress)
  {
    match AuthenticateUser(env, s, credentials)
    case Reject(_) => Done(AccessDenied, s)
    case Next(user) =>
      Done(Response(200, None, Profile(user.id, user.firstName + " " + user.lastName, user.emailAddress)), s)
  }

  /** POST /users: manual validation, then `User.create`, mapping its validation and unique errors to 400. */
  function PostUsers(env: Env, s: Store, body: UserDraft): (o: Outcome)
    ensures o.Done?
    ensures !UserFilled(body) ==>
      o == Done(Response(400, None, Errors(RequiredErrors(UserFields(body)))), s)
    ensures o.response.status == 201 <==>
      && UserFilled(body)
      && env.isEmail(body.emailAddress.value)
      && forall u | u in s.users :: u.emailAddress != body.emailAddress.value
    ensures o.response.status == 201 ==>
      && UserAcceptable(env, body)
      && o.response == Response(201, Some("/"), Empty)
      && o.store == s.(users := s.users + [BuildUser(env, |s.users| + 1, body)])
    ensures o.response.status != 201 ==>
      && o.store == s
      && o.response.status == 400
      && o.response.body.Errors?
      && o.response.body.errors != []
    ensures UserFilled(body) && !env.isEmail(body.emailAddress.value) ==>
      o.response.body == Errors([EmailInvalid])
    ensures UserFilled(body) && env.isEmail(body.emailAddress.value) && o.response.status != 201 ==>
      o.response.body == Errors([EmailTaken])
  {
    UserErrorsEmptyIff(body);
    var errors := RequiredErrors(UserFields(body));
    if |errors| > 0 then Done(Response(400, None, Errors(errors)), s)
    else
      match CreateUser(env, s, body)
      case Success((_, s')) => Done(Response(201, Some("/"), Empty), s')
      case Failure(ValidationError(messages)) => Done(Response(400, None, Errors(messages)), s)
      case Failure(UniqueConstraintError(messages)) => Done(Response(400, None, Errors(messages)), s)
      case Failure(e) => Thrown(Unhandled(e))
  }

  /** Every course in id order, from `lo` up. */
  function CoursesFrom(s: Store, lo: nat): (r: seq<CourseView>)
    ensures forall i | 0 <= i < |r| :: lo <= r[i].id < s.nextCourseId && r[i].id in s.courses
    ensures forall i | 0 <= i < |r| :: r[i].id in s.courses && r[i] == View(s, r[i].id, s.courses[r[i].id])
    decreases s.nextCourseId - lo
  {
    if lo >= s.nextCourseId then []
    else if lo in s.courses then [View(s, lo, s.courses[lo])] + CoursesFrom(s, lo + 1)
    else CoursesFrom(s, lo + 1)
  }

  /** The listing is in strictly increasing id order. */
  lemma {:induction false} CoursesFromSorted(s: Store, lo: nat)
    ensures forall i, j | 0 <= i < j < |CoursesFrom(s, lo)| :: CoursesFrom(s, lo)[i].id < CoursesFrom(s, lo)[j].id
    decreases s.nextCourseId - lo
  {
    if lo < s.nextCourseId {
      CoursesFromSorted(s, lo + 1);
    }
  }

  /** The listing leaves out no course whose id the counter has issued. */
  lemma {:induction false} CoursesFromComplete(s: Store, lo: nat, k: nat)
    requires k in s.courses && lo <= k < s.nextCourseId
    ensures exists i | 0 <= i < |CoursesFrom(s, lo)| :: CoursesFrom(s, lo)[i].id == k
    decreases s.nextCourseId - lo
  {
    var r := CoursesFrom(s, lo);
    if k == lo {
      assert r[0].id == k;
    } else {
      CoursesFromComplete(s, lo + 1, k);
      var rest := CoursesFrom(s, lo + 1);
      var i :| 0 <= i < |rest| && rest[i].id == k;
      if lo in s.courses {
        assert r[i + 1] == rest[i];
      } else {
        assert r[i] == rest[i];
      }
    }
  }

  /** GET /courses: every course with its owner summary. */
  function GetCourses(s: Store): (o: Outcome)
    ensures o.Done? && o.store == s && o.response.status == 200
    ensures o.response.body.CourseList?
    ensures forall v | v in o.response.body.courses :: v.id in s.courses && v == View(s, v.id, s.courses[v.id])
  {
    Done(Response(200, None, CourseList(CoursesFrom(s, 0))), s)
  }

  /** GET /courses/:id: the course with its owner summary, or a 200 with a null body. */
  function GetCourse(s: Store, id: nat): (o: Outcome)
    ensures o.Done? && o.store == s && o.response.status == 200
    ensures o.response.body.CourseDetail?
    ensures o.response.body.course.None? <==> id !in s.courses
    ensures o.response.body.course.Some? ==> o.response.body.course.value == View(s, id, s.courses[id])
  {
    Done(Response(200, None, CourseDetail(if id in s.courses then Some(View(s, id, s.courses[id])) else None)), s)
  }

  /** POST /courses: authenticate, validate, then create the course owned by the requester. */
  function PostCourses(env: Env, s: Store, credentials: Option<Credentials>, body: CourseDraft): (o: Outcome)
    ensures AuthenticateUser(env, s, credentials).Reject? ==> o == Done(AccessDenied, s)
    ensures AuthenticateUser(env, s, credentials).Next? && !CourseFilled(body) ==>
      o == Done(Response(400, None, Errors(RequiredErrors(CourseFields(body)))), s)
    ensures o.Done? && o.response.status != 201 ==> o.store == s
    ensures o.Done? && o.response.status == 201 ==>
      && AuthenticateUser(env, s, credentials).Next?
      && CourseFilled(body)
      && s.nextCourseId !in s.courses
      && o.response == Response(201, Some(CourseLocation(s.nextCourseId)), Empty)
      && o.store == s.(courses := s.courses[s.nextCourseId := BuildCourse(body.(userId := Given(AuthenticateUser(env, s, credentials).currentUser.id)))],
                       nextCourseId := s.nextCourseId + 1)
  {
    match AuthenticateUser(env, s, credentials)
    case Reject(_) => Done(AccessDenied, s)
    case Next(_) =>
      CourseErrorsEmptyIff(body);
      var errors := RequiredErrors(CourseFields(body));
      if |errors| > 0 then Done(Response(400, None, Errors(errors)), s)
      else
        match FindUser(s.users, ByEmail(credentials.value.name))
        case None => Thrown(NullDereference("user.id"))
        case Some(user) =>
          match CreateCourse(s, body.(userId := Given(user.id)))
          case Failure(e) => Thrown(Unhandled(e))
          case Success((id, s')) => Done(Response(201, Some(CourseLocation(id)), Empty), s')
  }

  /**
   * The ownership guard of PUT /courses/:id, after validation: load the course
   * and the requester, update only when the requester owns the course.
   */
  function UpdateIfOwner(s: Store, user: Option<User>, id: nat, body: CourseDraft): (o: Outcome)
    requires CourseFilled(body)
    ensures id !in s.courses ==> o == Thrown(NullDereference("course.userId"))
    ensures id in s.courses && user.Some? && s.courses[id].userId != user.value.id ==> o == Done(NotTheCorrectUser, s)
    ensures id in s.courses && user.Some? && s.courses[id].userId == user.value.id ==>
      if body.userId.Null? then o == Thrown(Unhandled(ValidationError([UserIdNull])))
      else if body.userId.Given? && forall u | u in s.users :: u.id != body.userId.value
      then o == Thrown(Unhandled(ForeignKeyConstraintError))
      else o.Done? && o.response.status == 204
    ensures o.Done? && o.response.status != 204 ==> o.store == s
    ensures o.Done? && o.response.status == 204 ==>
      && id in s.courses
      && user.Some?
      && s.courses[id].userId == user.value.id
      && !body.userId.Null?
      && (body.userId.Given? ==> exists u | u in s.users :: u.id == body.userId.value)
      && o.response == Response(204, Some(CourseLocation(id)), Empty)
      && o.store == s.(courses := s.courses[id := BuildCourse(Patch(s.courses[id], body))])
  {
    var course := if id in s.courses then Some(s.courses[id]) else None;
    if course.None? then Thrown(NullDereference("course.userId"))
    else if user.None? then Thrown(NullDereference("user.id"))
    else if course.value.userId == user.value.id then
      match UpdateCourse(s, id, body)
      case Failure(e) => Thrown(Unhandled(e))
      case Success(s') => Done(Response(204, Some(CourseLocation(id)), Empty), s')
    else Done(NotTheCorrectUser, s)
  }

  /** The handlers look the requester up again by the credential name and find the user the middleware attached. */
  lemma RelookupIsCurrentUser(env: Env, s: Store, credentials: Option<Credentials>)
    requires AuthenticateUser(env, s, credentials).Next?
    ensures FindUser(s.users, ByEmail(credentials.value.name)) == Some(AuthenticateUser(env, s, credentials).currentUser)
  {
  }

  /**
   * PUT /courses/:id: authenticate, validate the body before any lookup, then
   * apply the ownership guard with the requester looked up again.
   */
  function PutCourse(env: Env, s: Store, credentials: Option<Credentials>, id: nat, body: CourseDraft): (o: Outcome)
    ensures AuthenticateUser(env, s, credentials).Reject? ==> o == Done(AccessDenied, s)
    ensures AuthenticateUser(env, s, credentials).Next? && !CourseFilled(body) ==>
      o == Done(Response(400, None, Errors(RequiredErrors(CourseFields(body)))), s)
    ensures AuthenticateUser(env, s, credentials).Next? && CourseFilled(body) ==>
      o == UpdateIfOwner(s, Some(AuthenticateUser(env, s, credentials).currentUser), id, body)
  {
    match AuthenticateUser(env, s, credentials)
    case Reject(_) => Done(AccessDenied, s)
    case Next(_) =>
      CourseErrorsEmptyIff(body);
      var errors := RequiredErrors(CourseFields(body));
      if |errors| > 0 then Done(Response(400, None, Errors(errors)), s)
      else UpdateIfOwner(s, FindUser(s.users, ByEmail(credentials.value.name)), id, body)
  }

  /** DELETE /courses/:id: authenticate, then remove the course only when the requester owns it. */
  function DeleteCourse(env: Env, s: Store, credentials: Option<Credentials>, id: nat): (o: Outcome)
    ensures AuthenticateUser(env, s, credentials).Reject? ==> o == Done(AccessDenied, s)
    ensures AuthenticateUser(env, s, credentials).Next? && id !in s.courses ==>
      o == Thrown(NullDereference("course.userId"))
    ensures AuthenticateUser(env, s, credentials).Next? && id in s.courses ==>
      if s.courses[id].userId == AuthenticateUser(env, s, credentials).currentUser.id
      then o == Done(Response(204, None, Empty), DestroyCourse(s, id))
      else o == Done(NotTheCorrectUser, s)
  {
    match AuthenticateUser(env, s, credentials)
    case Reject(_) => Done(AccessDenied, s)
    case Next(_) =>
      var course := if id in s.courses then Some(s.courses[id]) else None;
      var user := FindUser(s.users, ByEmail(credentials.value.name));
      if course.None? then Thrown(NullDereference("course.userId"))
      else if user.None? then Thrown(NullDereference("user.id"))
      else if course.value.userId == user.value.id then Done(Response(204, None, Empty), DestroyCourse(s, id))
      else Done(NotTheCorrectUser, s)
  }
}

/**
 * Properties that relate several handlers, or a handler and the store
 * invariant: what one request leaves behind for the next.
 */
module Properties {
  import opened Wrappers
  import opened Http
  import opened Externals
  import opened Decimal
  import opened UserModel
  import opened CourseModel
  import opened Database
  import opened Authentication
  import opened Routes

  lemma EmptyStoreValid(env: Env)
    ensures Valid(env, EmptyStore)
  {
  }

  // ---------------------------------------------------------------------------
  // Every handler keeps the store invariant

  lemma PostUsersPreservesValid(env: Env, s: Store, body: UserDraft)
    requires Valid(env, s)
    ensures Valid(env, PostUsers(env, s, body).store)
  {
  }

  lemma PostCoursesPreservesValid(env: Env, s: Store, credentials: Option<Credentials>, body: CourseDraft)
    requires Valid(env, s)
    requires PostCourses(env, s, credentials, body).Done?
    ensures Valid(env, PostCourses(env, s, credentials, body).store)
  {
    var o := PostCourses(env, s, credentials, body);
    if o.response.status == 201 {
      var u := AuthenticateUser(env, s, credentials).currentUser;
      UserIsRow(env, s, u);
      var c := BuildCourse(body.(userId := Given(u.id)));
      assert o.store == s.(courses := s.courses[s.nextCourseId := c], nextCourseId := s.nextCourseId + 1);
      InsertCourseKeepsValid(env, s, c);
    }
  }

  lemma PutCoursePreservesValid(env: Env, s: Store, credentials: Option<Credentials>, id: nat, body: CourseDraft)
    requires Valid(env, s)
    requires PutCourse(env, s, credentials, id, body).Done?
    ensures Valid(env, PutCourse(env, s, credentials, id, body).store)
  {
    var o := PutCourse(env, s, credentials, id, body);
    if o.response.status == 204 {
      var c := BuildCourse(Patch(s.courses[id], body));
      assert o.store == s.(courses := s.courses[id := c]);
      assert 0 < c.userId <= |s.users| by {
        if body.userId.Given? {
          var u :| u in s.users && u.id == body.userId.value;
          UserIsRow(env, s, u);
        }
      }
      ReplaceCourseKeepsValid(env, s, id, c);
    }
  }

  lemma DeleteCoursePreservesValid(env: Env, s: Store, credentials: Option<Credentials>, id: nat)
    requires Valid(env, s)
    requires DeleteCourse(env, s, credentials, id).Done?
    ensures Valid(env, DeleteCourse(env, s, credentials, id).store)
  {
  }

  // ---------------------------------------------------------------------------
  // Authentication across requests

  /** A user who has just registered can authenticate with the address and password they registered. */
  lemma RegisterThenAuthenticate(env: Env, s: Store, body: UserDraft)
    requires HashVerifies(env)
    requires PostUsers(env, s, body).response.status == 201
    ensures AuthenticateUser(env, PostUsers(env, s, body).store,
                             Some(Credentials(body.emailAddress.value, body.password.value)))
            == Next(BuildUser(env, |s.users| + 1, body))
  {
  }

  /** The client cannot tell refusals apart; the server log can, down to the user named. */
  lemma RefusalsIndistinguishable(env: Env, s1: Store, c1: Option<Credentials>, s2: Store, c2: Option<Credentials>)
    requires AuthenticateUser(env, s1, c1).Reject? && AuthenticateUser(env, s2, c2).Reject?
    ensures GetUsers(env, s1, c1).response == GetUsers(env, s2, c2).response == AccessDenied
    ensures var r1 := AuthenticateUser(env, s1, c1).reason;
            var r2 := AuthenticateUser(env, s2, c2).reason;
            Diagnostic(r1) == Diagnostic(r2) <==> r1 == r2
  {
    DiagnosticInjective(AuthenticateUser(env, s1, c1).reason, AuthenticateUser(env, s2, c2).reason);
  }

  // ---------------------------------------------------------------------------
  // Courses across requests

  /**
   * Under the invariant an authenticated, filled-in POST /courses always
   * creates the course: the owner key exists and the next id is free.
   */
  lemma PostCoursesSucceeds(env: Env, s: Store, credentials: Option<Credentials>, body: CourseDraft)
    requires Valid(env, s)
    requires AuthenticateUser(env, s, credentials).Next? && CourseFilled(body)
    ensures PostCourses(env, s, credentials, body).Done?
    ensures PostCourses(env, s, credentials, body).response.status == 201
  {
  }

  /**
   * The Location of a created course names it, and GET on that id returns the
   * submitted course with the requester as its owner.
   */
  lemma PostCourseThenGet(env: Env, s: Store, credentials: Option<Credentials>, body: CourseDraft)
    requires Valid(env, s)
    requires PostCourses(env, s, credentials, body).Done?
    requires PostCourses(env, s, credentials, body).response.status == 201
    ensures var o := PostCourses(env, s, credentials, body);
            var u := AuthenticateUser(env, s, credentials).currentUser;
            && CourseIdOf(o.response.location.value) == Some(s.nextCourseId)
            && GetCourse(o.store, s.nextCourseId).response.body == CourseDetail(Some(CourseView(
                 s.nextCourseId, body.title.value, body.description.value,
                 Stored(body.estimatedTime), Stored(body.materialsNeeded),
                 Some(OwnerView(u.id, u.firstName, u.lastName, u.emailAddress)))))
  {
    var o := PostCourses(env, s, credentials, body);
    var u := AuthenticateUser(env, s, credentials).currentUser;
    LocationNamesCourse(s.nextCourseId);
    UserIsRow(env, s, u);
    PostCoursesPreservesValid(env, s, credentials, body);
    FindByIdIsRow(env, o.store, u.id);
  }

  /** After the owner deletes a course, GET on its id answers 200 with a null body. */
  lemma DeleteThenGet(env: Env, s: Store, credentials: Option<Credentials>, id: nat)
    requires DeleteCourse(env, s, credentials, id).Done?
    requires DeleteCourse(env, s, credentials, id).response.status == 204
    ensures GetCourse(DeleteCourse(env, s, credentials, id).store, id).response == Response(200, None, CourseDetail(None))
  {
  }

  /** Only the owner of a course can change the store through PUT or DELETE on it. */
  lemma OnlyOwnerMutates(env: Env, s: Store, credentials: Option<Credentials>, id: nat, body: CourseDraft)
    ensures var o := PutCourse(env, s, credentials, id, body);
            o.Done? && o.store != s ==>
              && AuthenticateUser(env, s, credentials).Next?
              && id in s.courses
              && s.courses[id].userId == AuthenticateUser(env, s, credentials).currentUser.id
    ensures var o := DeleteCourse(env, s, credentials, id);
            o.Done? && o.store != s ==>
              && AuthenticateUser(env, s, credentials).Next?
              && id in s.courses
              && s.courses[id].userId == AuthenticateUser(env, s, credentials).currentUser.id
  {
  }

  /**
   * PUT passes the whole body to `course.update`, so the owner can hand the
   * course to any registered user by sending a `userId`.
   */
  lemma PutTransfersOwnership(env: Env, s: Store, credentials: Option<Credentials>, id: nat, body: CourseDraft)
    requires Valid(env, s)
    requires AuthenticateUser(env, s, credentials).Next? && CourseFilled(body)
    requires id in s.courses && s.courses[id].userId == AuthenticateUser(env, s, credentials).currentUser.id
    requires body.userId.Given? && 0 < body.userId.value <= |s.users|
    ensures PutCourse(env, s, credentials, id, body).Done?
    ensures PutCourse(env, s, credentials, id, body).response.status == 204
    ensures PutCourse(env, s, credentials, id, body).store.courses[id].userId == body.userId.value
  {
    assert s.users[body.userId.value - 1].id == body.userId.value;
  }

  /**
   * Repeating an owner's PUT leaves the store as the first one left it, unless
   * the body handed the course to another user: then the repeat is refused.
   */
  lemma PutRepeat(env: Env, s: Store, credentials: Option<Credentials>, id: nat, body: CourseDraft)
    requires PutCourse(env, s, credentials, id, body).Done?
    requires PutCourse(env, s, credentials, id, body).response.status == 204
    ensures var s' := PutCourse(env, s, credentials, id, body).store;
            var u := AuthenticateUser(env, s, credentials).currentUser;
            if body.userId.Missing? || body.userId == Given(u.id)
            then PutCourse(env, s', credentials, id, body) == Done(Response(204, Some(CourseLocation(id)), Empty), s')
            else PutCourse(env, s', credentials, id, body) == Done(NotTheCorrectUser, s')
  {
    var s' := PutCourse(env, s, credentials, id, body).store;
    DecisionReadsOnlyUsers(env, s, s', credentials);
    PatchIdempotent(s.courses[id], body);
    var c' := BuildCourse(Patch(s.courses[id], body));
    assert s'.courses[id] == c';
    assert s'.(courses := s'.courses[id := c']) == s';
  }

  /** Another user's PUT is refused and leaves the course as it was. */
  lemma ForeignPutForbidden(env: Env, s: Store, credentials: Option<Credentials>, id: nat, body: CourseDraft)
    requires AuthenticateUser(env, s, credentials).Next? && CourseFilled(body)
    requires id in s.courses && s.courses[id].userId != AuthenticateUser(env, s, credentials).currentUser.id
    ensures PutCourse(env, s, credentials, id, body) == Done(NotTheCorrectUser, s)
  {
  }

  /** GET /courses/:id and GET /courses agree on every stored course. */
  lemma GetCourseInListing(env: Env, s: Store, id: nat)
    requires Valid(env, s)
    requires id in s.courses
    ensures GetCourse(s, id).response.body.course.value in GetCourses(s).response.body.courses
  {
    CoursesFromComplete(s, 0, id);
  }

  // ---------------------------------------------------------------------------
  // Validation order

  /** The four field names POST /users checks are pairwise distinct. */
  lemma UserFieldNamesDistinct(b: UserDraft)
    ensures forall j, k | 0 <= j < k < |UserFields(b)| :: UserFields(b)[j].0 != UserFields(b)[k].0
  {
    var f := UserFields(b);
    assert f[0].0[0] == 'f' && f[1].0[0] == 'l' && f[2].0[0] == 'e' && f[3].0[0] == 'p';
  }

  /** POST /users reports a member's message exactly when that member is falsy. */
  lemma UserErrorsReported(b: UserDraft)
    ensures var e := RequiredErrors(UserFields(b));
            && (MissingValue("firstName") in e <==> !Truthy(b.firstName))
            && (MissingValue("lastName") in e <==> !Truthy(b.lastName))
            && (MissingValue("emailAddress") in e <==> !Truthy(b.emailAddress))
            && (MissingValue("password") in e <==> !Truthy(b.password))
  {
    var f := UserFields(b);
    UserFieldNamesDistinct(b);
    ReportedIffFalsy(f, 0);
    ReportedIffFalsy(f, 1);
    ReportedIffFalsy(f, 2);
    ReportedIffFalsy(f, 3);
  }

  /** POST /users reports its messages in the order firstName, lastName, emailAddress, password. */
  lemma UserErrorsInFieldOrder(b: UserDraft)
    ensures Subsequence(RequiredErrors(UserFields(b)),
                        [MissingValue("firstName"), MissingValue("lastName"),
                         MissingValue("emailAddress"), MissingValue("password")])
  {
    var f := UserFields(b);
    assert Prompts(f) == [MissingValue("firstName"), MissingValue("lastName"),
                          MissingValue("emailAddress"), MissingValue("password")];
  }

  // ---------------------------------------------------------------------------
  // The documented walk-through

  /** The first registration in the empty database stores exactly that user, as user 1. */
  lemma FirstRegistration(env: Env, b: UserDraft)
    requires UserFilled(b) && env.isEmail(b.emailAddress.value)
    ensures PostUsers(env, EmptyStore, b) == Done(Response(201, Some("/"), Empty), Store([BuildUser(env, 1, b)], map[], 1))
  {
    assert EmptyStore.users + [BuildUser(env, 1, b)] == [BuildUser(env, 1, b)];
  }

  /**
   * In the empty database: a user registers, creates a course with their own
   * credentials, and reads it back as course 1 with themselves as owner.
   */
  lemma FirstCourseOfFirstUser(env: Env, b: UserDraft, c: CourseDraft)
    requires HashVerifies(env)
    requires UserFilled(b) && env.isEmail(b.emailAddress.value) && CourseFilled(c)
    ensures var r1 := PostUsers(env, EmptyStore, b);
            var r2 := PostCourses(env, r1.store, Some(Credentials(b.emailAddress.value, b.password.value)), c);
            && r1.response == Response(201, Some("/"), Empty)
            && r2.Done?
            && r2.response == Response(201, Some(CourseLocation(1)), Empty)
            && GetCourse(r2.store, 1).response == Response(200, None, CourseDetail(Some(CourseView(
                 1, c.title.value, c.description.value, Stored(c.estimatedTime), Stored(c.materialsNeeded),
                 Some(OwnerView(1, b.firstName.value, b.lastName.value, b.emailAddress.value))))))
  {
    var credentials := Some(Credentials(b.emailAddress.value, b.password.value));
    var u := BuildUser(env, 1, b);
    var s1 := Store([u], map[], 1);
    FirstRegistration(env, b);
    RegisterThenAuthenticate(env, EmptyStore, b);
    assert AuthenticateUser(env, s1, credentials) == Next(u);
    EmptyStoreValid(env);
    PostUsersPreservesValid(env, EmptyStore, b);
    PostCoursesSucceeds(env, s1, credentials, c);
    PostCourseThenGet(env, s1, credentials, c);
  }

  /**
   * Register Jo, create a course as Jo, read it back: 201 with Location `/`,
   * 201 with Location `/courses/1`, then the course with Jo as its owner.
   */
  lemma RegisterCreateRead(env: Env)
    requires HashVerifies(env) && env.isEmail("jo@example.com")
    ensures var jo := UserDraft(Given("Jo"), Given("Doe"), Given("jo@example.com"), Given("secretpw"));
            var r1 := PostUsers(env, EmptyStore, jo);
            var credentials := Some(Credentials("jo@example.com", "secretpw"));
            var intro := CourseDraft(Given("Intro"), Given("Basics"), Missing, Missing, Missing);
            var r2 := PostCourses(env, r1.store, credentials, intro);
            && r1.response == Response(201, Some("/"), Empty)
            && r2.Done?
            && r2.response == Response(201, Some("/courses/1"), Empty)
            && GetCourse(r2.store, 1).response == Response(200, None, CourseDetail(Some(CourseView(
                 1, "Intro", "Basics", None, None, Some(OwnerView(1, "Jo", "Doe", "jo@example.com"))))))
  {
    var jo := UserDraft(Given("Jo"), Given("Doe"), Given("jo@example.com"), Given("secretpw"));
    var intro := CourseDraft(Given("Intro"), Given("Basics"), Missing, Missing, Missing);
    assert UserFilled(jo) && CourseFilled(intro);
    assert Render(1) == "1";
    assert CourseLocation(1) == "/courses/1";
    assert Stored(intro.estimatedTime) == None && Stored(intro.materialsNeeded) == None;
    FirstCourseOfFirstUser(env, jo, intro);
  }
}

/** The Course model: required and optional attributes and the non-null owner key. */
module CourseModel {
  import opened Wrappers
  import opened Http

  /** A stored course row; its id is its key in the store. */
  datatype Course = Course(
    title: string,
    description: string,
    estimatedTime: Option<string>,
    materialsNeeded: Option<string>,
    userId: nat)

  /** The attributes handed to `Course.create` or `course.update`. */
  datatype CourseDraft = CourseDraft(
    title: Field<string>,
    description: Field<string>,
    estimatedTime: Field<string>,
    materialsNeeded: Field<string>,
    userId: Field<nat>)

  /** The model's message for a null title, and also (sic) for a null description. */
  const TitleNull := "Title cannot be empty"
  /** Sequelize's own wording for a null foreign key; the association declares none. */
  const UserIdNull := "Course.userId cannot be null"

  /** A draft with every non-null attribute present. */
  predicate CourseComplete(d: CourseDraft) {
    d.title.Given? && d.description.Given? && d.userId.Given?
  }

  /** The messages of the `notNull` checks a draft violates. */
  function CourseViolations(d: CourseDraft): (r: seq<string>)
    ensures TitleNull in r <==> IsNull(d.title) || IsNull(d.description)
    ensures multiset(r)[TitleNull] == (if IsNull(d.title) then 1 else 0) + (if IsNull(d.description) then 1 else 0)
    ensures multiset(r)[UserIdNull] == if IsNull(d.userId) then 1 else 0
    ensures |r| == multiset(r)[TitleNull] + multiset(r)[UserIdNull]
    ensures r == [] <==> CourseComplete(d)
  {
    (if IsNull(d.title) then [TitleNull] else [])
    + (if IsNull(d.description) then [TitleNull] else [])
    + (if IsNull(d.userId) then [UserIdNull] else [])
  }

  /** How an optional attribute is stored: absent and null both become null. */
  function Stored(v: Field<string>): (r: Option<string>)
    ensures r.Some? <==> v.Given?
    ensures r.Some? ==> r.value == v.value
  {
    if v.Given? then Some(v.value) else None
  }

  /** An optional stored attribute as an attribute value (null stays null). */
  function AsField(o: Option<string>): (v: Field<string>)
    ensures Stored(v) == o
    ensures !v.Missing?
  {
    if o.Some? then Given(o.value) else Null
  }

  /** The row persisted for a complete draft. */
  function BuildCourse(d: CourseDraft): (c: Course)
    requires CourseComplete(d)
    ensures c.title == d.title.value && c.description == d.description.value
    ensures c.estimatedTime == Stored(d.estimatedTime) && c.materialsNeeded == Stored(d.materialsNeeded)
    ensures c.userId == d.userId.value
    ensures c.estimatedTime == None <==> IsNull(d.estimatedTime)
    ensures c.materialsNeeded == None <==> IsNull(d.materialsNeeded)
  {
    Course(d.title.value, d.description.value, Stored(d.estimatedTime), Stored(d.materialsNeeded), d.userId.value)
  }

  /** A member present in the update body replaces the attribute; an absent one keeps it. */
  function Overlay<T>(current: Field<T>, update: Field<T>): Field<T> {
    if update.Missing? then current else update
  }

  /** The instance `course.update(body)` validates and saves. */
  function Patch(c: Course, body: CourseDraft): (d: CourseDraft)
    ensures body.title.Missing? ==> d.title == Given(c.title)
    ensures !body.title.Missing? ==> d.title == body.title
    ensures body.description.Missing? ==> d.description == Given(c.description)
    ensures !body.description.Missing? ==> d.description == body.description
    ensures body.estimatedTime.Missing? ==> Stored(d.estimatedTime) == c.estimatedTime
    ensures !body.estimatedTime.Missing? ==> d.estimatedTime == body.estimatedTime
    ensures body.materialsNeeded.Missing? ==> Stored(d.materialsNeeded) == c.materialsNeeded
    ensures !body.materialsNeeded.Missing? ==> d.materialsNeeded == body.materialsNeeded
    ensures body.userId.Missing? ==> d.userId == Given(c.userId)
    ensures !body.userId.Missing? ==> d.userId == body.userId
    ensures CourseComplete(d) <==> !body.title.Null? && !body.description.Null? && !body.userId.Null?
    ensures CourseComplete(d) ==>
      var n := BuildCourse(d);
      && (body.title.Missing? ==> n.title == c.title)
      && (body.description.Missing? ==> n.description == c.description)
      && (body.estimatedTime.Missing? ==> n.estimatedTime == c.estimatedTime)
      && (body.materialsNeeded.Missing? ==> n.materialsNeeded == c.materialsNeeded)
      && (body.userId.Missing? ==> n.userId == c.userId)
    ensures CourseComplete(d) ==>
      var n := BuildCourse(d);
      && (body.estimatedTime.Null? ==> n.estimatedTime == None)
      && (body.estimatedTime.Given? ==> n.estimatedTime == Some(body.estimatedTime.value))
      && (body.materialsNeeded.Null? ==> n.materialsNeeded == None)
      && (body.materialsNeeded.Given? ==> n.materialsNeeded == Some(body.materialsNeeded.value))
  {
    CourseDraft(
      Overlay(Given(c.title), body.title),
      Overlay(Given(c.description), body.description),
      Overlay(AsField(c.estimatedTime), body.estimatedTime),
      Overlay(AsField(c.materialsNeeded), body.materialsNeeded),
      Overlay(Given(c.userId), body.userId))
  }

  /** Applying the same update body twice gives the same course as applying it once. */
  lemma PatchIdempotent(c: Course, body: CourseDraft)
    requires CourseComplete(Patch(c, body))
    ensures CourseComplete(Patch(BuildCourse(Patch(c, body)), body))
    ensures BuildCourse(Patch(BuildCourse(Patch(c, body)), body)) == BuildCourse(Patch(c, body))
  {
  }

  /** Every attribute of a course, as a request body would carry it. */
  function FullBody(c: Course): CourseDraft {
    CourseDraft(Given(c.title), Given(c.description), AsField(c.estimatedTime), AsField(c.materialsNeeded), Given(c.userId))
  }

  /** A stored course sent back with all its attributes rebuilds itself, by `create` or by `update` of any course. */
  lemma FullBodyRebuilds(c0: Course, c: Course)
    ensures CourseComplete(FullBody(c)) && BuildCourse(FullBody(c)) == c
    ensures CourseComplete(Patch(c0, FullBody(c))) && BuildCourse(Patch(c0, FullBody(c))) == c
  {
  }

  /** An update naming only the title and the description changes those two attributes and nothing else. */
  lemma TitleAndDescriptionPatch(c: Course, title: string, description: string)
    ensures CourseComplete(Patch(c, CourseDraft(Given(title), Given(description), Missing, Missing, Missing)))
    ensures BuildCourse(Patch(c, CourseDraft(Given(title), Given(description), Missing, Missing, Missing)))
      == c.(title := title, description := description)
  {
  }
}

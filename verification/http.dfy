/** Request and response shapes of the HTTP surface, as the handlers see them. */
module Http {
  import opened Wrappers

  /** One member of a JSON request body: the key is absent, holds null, or holds a value. */
  datatype Field<T> = Missing | Null | Given(value: T)

  /** Sequelize reads an absent attribute as null, so both fail a `notNull` check. */
  predicate IsNull<T>(v: Field<T>) {
    !v.Given?
  }

  /** JavaScript truthiness of a body member that is absent, null or a string. */
  predicate Truthy(v: Field<string>) {
    v.Given? && v.value != ""
  }

  /** The name/pass pair a Basic-Authentication header carries. */
  datatype Credentials = Credentials(name: string, pass: string)

  /** The owner summary nested in a course payload. */
  datatype OwnerView = OwnerView(id: nat, firstName: string, lastName: string, emailAddress: string)

  /** A course payload; `owner` is null when the included user row is missing. */
  datatype CourseView = CourseView(
    id: nat,
    title: string,
    description: string,
    estimatedTime: Option<string>,
    materialsNeeded: Option<string>,
    owner: Option<OwnerView>)

  /** The JSON bodies the handlers send. */
  datatype Body =
    | Empty
    | Message(message: string)
    | Errors(errors: seq<string>)
    | Error(error: string)
    | Profile(id: nat, name: string, email: string)
    | CourseDetail(course: Option<CourseView>)
    | CourseList(courses: seq<CourseView>)

  datatype Response = Response(status: nat, location: Option<string>, body: Body)
}

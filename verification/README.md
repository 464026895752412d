# Course REST API: request decisions as a pure state machine

This project models the request-handling core of a small Express/Sequelize REST API for users and courses.
The database is an immutable `Store`. Each handler is a pure function from a request and a store to an
`Outcome`. An outcome is either a response together with the new store (`Done`) or an exception that
escapes the handler (`Thrown`). The framework answers a thrown exception with a generic server error,
and the store stays as it was.

Modules, following the source files:

- `Wrappers`: `Option` (a JavaScript `null`) and `Result` (a call that may throw).
- `Decimal`: how a numeric id is rendered in a `Location` header, and the parser that reads it back.
- `Http`: request-body members (`Field`: absent, null or given), JavaScript truthiness, Basic-Auth
  credentials, and response shapes.
- `Externals`: bcrypt's `hashSync`/`compareSync` and the validator's `isEmail`. They are function-valued
  parameters, so every result holds for every implementation. The one assumed fact,
  `compare(p, hash(p))`, is the hypothesis `HashVerifies` of the lemmas that need it.
- `UserModel`, `CourseModel`: attributes, `notNull`/`isEmail` validators and their messages, the hashing
  password setter, and the overlay `course.update(body)` performs.
- `Database`: the Users table in row order (users are never deleted, so row i has id i + 1) and the
  Courses table keyed by id with an autoincrement counter. It also holds the `findOne`/`findByPk`,
  `create`, `update` and `destroy` calls, and the store invariant `Valid`: unique e-mail addresses,
  every course owned by an existing user, and non-empty required fields.
- `Authentication`: the `authenticateUser` middleware, as a three-step decision with three refusal reasons.
- `Routes`: manual payload validation, response shaping and the seven handlers.
- `Properties`: facts that relate several requests.

Behaviours of the code worth knowing before reading the contracts:

- The authentication middleware runs before the handler's payload validation. So an unauthenticated
  request with a bad body gets 401, not 400. Validation does still come before any course lookup.
- A course id that does not exist gives 200 with a `null` body on GET. On PUT (with a valid body) and
  on DELETE it gives a fault (`course.userId` of `null`), not a 404.
- A course's owner is not immutable. PUT hands the whole body to `course.update`, so a `userId` in the
  body moves the course to that user. A `null` `userId` makes the update throw a validation error. An
  unknown one makes it throw a foreign-key error. Neither is caught.
- A null `description` is reported with the title's message, `Title cannot be empty`.

## Model

| member | source | states |
|---|---|---|
| Authentication.AuthenticateUser | middleware/authentication.js:7-43 | No credentials is refused as MissingCredentials, and only that input is. UnknownIdentifier exactly when no user has the credential name as address. InvalidSecret only when that user exists and the password does not verify. Success only when the attached user has the name as address and the password verifies against the stored hash. The store is only read. |
| Authentication.AuthenticateIff | middleware/authentication.js:13-25 | Under the store invariant, a request passes exactly when some registered user has the credential name as address and a password that verifies. |
| Authentication.Diagnostic | middleware/authentication.js:20-33 | The warning for each refusal: exactly `Auth header not found` for missing credentials. Otherwise the unknown-user or authentication-failure prefix followed by exactly the supplied name. |
| Authentication.DiagnosticInjective | middleware/authentication.js:27-33 | The three warnings are pairwise distinct. Equal warnings mean the same reason for the same user name. |
| Properties.RefusalsIndistinguishable | middleware/authentication.js:36-38 | Any two refused requests get the same 401 `{message: 'Access Denied'}`, while their warnings differ exactly when their reasons differ. |
| Authentication.DecisionReadsOnlyUsers | middleware/authentication.js:13-34 | The decision depends only on the Users table. Two stores with the same users decide every request the same way. |
| Properties.RegisterThenAuthenticate | middleware/authentication.js:15-25 | After a successful registration, the registered address and password authenticate as the new user. This relies only on a password verifying against its own hash. |
| Routes.GetUsers | routes.js:11-17 | Leaves the store unchanged. Answers 200 exactly when authentication passes, otherwise the uniform 401. On 200 the body is `{id, name: firstName + " " + lastName, email}` of the user whose address is the credential name and whose password verifies. |
| Routes.RequiredErrors | routes.js:24-47 | One message per falsy member, none for a truthy one. The list is empty exactly when all members are truthy. It is a subsequence of the per-field messages in field order, so no check stops the others. |
| Routes.MissingValueInjective | routes.js:28-43 | Different field names give different `Please provide a value for "…"` messages. |
| Routes.ReportedIffFalsy | routes.js:26-44 | For distinct field names, a field's message is reported exactly when that field is falsy. |
| Properties.UserErrorsReported | routes.js:26-44 | POST /users reports the firstName, lastName, emailAddress and password messages each exactly when that member is falsy. |
| Properties.UserErrorsInFieldOrder | routes.js:26-44 | POST /users reports its messages in the fixed order firstName, lastName, emailAddress, password. |
| Properties.FirstRegistration | routes.js:51-54 | In the empty database, a filled-in registration with a valid address gives 201 with Location `/`. It stores exactly that user as user 1. |
| Routes.PostUsers | routes.js:22-65 | Never faults. Any falsy field gives 400 with the manual list and an unchanged store. Gives 201 with Location `/` exactly when all fields are filled, the address passes `isEmail` and no user has it; the store then gains exactly the new user, with the hashed password. Otherwise 400 with `Email is not valid` or the unique-constraint message, and an unchanged store. |
| Properties.PostUsersPreservesValid | models/User.js:27-34 | POST /users keeps the store invariant, in particular pairwise-distinct e-mail addresses. |
| Routes.OwnerOf | routes.js:69-79 | The included `User`: present exactly when a user with the course's `userId` exists. It is that user's id, first name, last name and address, and never the password. |
| Routes.View | routes.js:81-87 | A course as the GET routes send it: its id, title, description, estimatedTime and materialsNeeded, plus the included owner when that user exists. |
| Routes.CoursesFrom | routes.js:68-91 | Every listed entry is a stored course with an id the counter has issued, shown with its owner summary. |
| Routes.CoursesFromSorted | routes.js:68-91 | The listing is in strictly increasing id order, so no course appears twice. |
| Routes.CoursesFromComplete | routes.js:68-91 | Every course whose id the counter has issued appears in the listing. |
| Routes.GetCourses | routes.js:68-91 | GET /courses answers 200 with course entries, each equal to the stored course with its owner summary, and leaves the store unchanged. |
| Routes.GetCourse | routes.js:94-117 | GET /courses/:id always answers 200 and leaves the store unchanged. The body is null exactly when no course has that id, otherwise that course with its owner summary. |
| Properties.GetCourseInListing | routes.js:95-116 | Under the invariant, the course GET /courses/:id returns also appears in GET /courses. |
| Routes.PostCourses | routes.js:121-155 | A refused request gets 401 with an unchanged store. Next, a falsy title or description gives 400 with messages in order title, description, and an unchanged store. A 201 carries Location `/courses/<new id>` and stores exactly the submitted course under the next id, owned by the authenticated user whatever `userId` the body holds. |
| Properties.PostCoursesSucceeds | routes.js:141-153 | Under the invariant, an authenticated POST /courses with title and description always ends in 201. |
| Properties.PostCourseThenGet | routes.js:148-153 | The Location of a created course parses back to its id. GET on that id returns the submitted fields with the requester as the nested owner. |
| Properties.PostCoursesPreservesValid | routes.js:141-152 | POST /courses keeps the store invariant: the new course has an existing owner and non-empty required fields. |
| Routes.RelookupIsCurrentUser | routes.js:177-182 | The handler's second lookup by credential name finds the same user the middleware attached. |
| Routes.PutCourse | routes.js:158-194 | A refused request gets 401 with an unchanged store. A falsy title or description gives 400 before any lookup, whether or not the course exists. Otherwise the result is the ownership guard applied to the authenticated user. |
| Routes.UpdateIfOwner | routes.js:176-193 | A missing course faults. A non-owner gets 403 `{error: 'Not the correct user'}` with an unchanged store. An owner gets 204 with Location `/courses/<id>`, and only that course changes, to the body overlaid on it. The exception is a null `userId` in the body (notNull error) or an unknown one (foreign-key error): either faults. |
| Properties.PutRepeat | routes.js:186-189 | Repeating an owner's successful PUT leaves the store exactly as the first PUT left it, with another 204. The exception is a body whose `userId` handed the course to someone else: then the repeat gets 403. |
| Properties.ForeignPutForbidden | routes.js:186-192 | A PUT by an authenticated user who does not own the course gives exactly 403 and leaves the store unchanged. |
| Properties.PutTransfersOwnership | routes.js:188 | Under the invariant, an owner's PUT whose body names a registered `userId` ends in 204, and the course then belongs to that user. |
| Properties.PutCoursePreservesValid | routes.js:186-189 | A PUT that completes keeps the store invariant. |
| Routes.DeleteCourse | routes.js:197-214 | There is no body validation. A refused request gets 401. A missing course faults. The owner gets 204, and only that course is removed. Anyone else gets 403 with an unchanged store. |
| Properties.DeleteThenGet | routes.js:208-210 | After the owner's DELETE, GET on that id answers 200 with a null body. |
| Properties.DeleteCoursePreservesValid | routes.js:208-210 | DELETE keeps the store invariant. |
| Properties.OnlyOwnerMutates | routes.js:184-213 | If PUT or DELETE changes the store, the requester was authenticated and owned the course. |
| Properties.FirstCourseOfFirstUser | routes.js:121-153 | In the empty database, a user registers, creates a course with their own credentials, and reads it back as course 1 with themselves as the nested owner. |
| Properties.RegisterCreateRead | routes.js:121-153 | The walk-through: registering Jo gives 201 with Location `/`. Creating "Intro" as Jo gives 201 with Location `/courses/1`. GET /courses/1 returns the course with Jo `{1, Jo, Doe, jo@example.com}` as owner. |
| UserModel.UserViolations | models/User.js:9-51 | Each null attribute gives its own message. A present address failing `isEmail` gives `Email is not valid`. The list is empty exactly when the model accepts the draft. |
| UserModel.BuildUser | models/User.js:52-55 | The row keeps the draft's name and address. Its password is `hash(plaintext)`, and the plaintext verifies against it whenever bcrypt's `compare` accepts what its `hash` produced. |
| CourseModel.CourseViolations | models/Course.js:8-43 | A null title and a null description each add one `Title cannot be empty`. A null `userId` adds one notNull message. Nothing else is reported, and an empty list means all three are present. |
| CourseModel.BuildCourse | models/Course.js:26-31 | An optional attribute is stored as null exactly when the draft leaves it absent or null. |
| CourseModel.FullBodyRebuilds | models/Course.js:8-43 | A stored course sent back with all its attributes rebuilds exactly that course, whether through `create` or through `update` of any course. |
| CourseModel.Patch | routes.js:188 | The updated instance passes the notNull checks exactly when the body sets none of title, description and `userId` to null. The saved course then keeps the old value of every attribute the body leaves out. It stores a given optional member as given and a null one as null. |
| CourseModel.TitleAndDescriptionPatch | routes.js:163-188 | A PUT body naming only title and description changes those two attributes and nothing else. |
| CourseModel.PatchIdempotent | routes.js:188 | Applying the same update body twice gives the same course as applying it once. |
| Database.Valid | models/User.js:27-34 | The store invariant. Row i holds the user with id i + 1 (the autoincrement key). E-mail addresses are pairwise distinct (the `unique` constraint). Every stored user has non-empty names and a valid address (its `notNull`/`isEmail` validators plus the handler's falsy checks). Every course key is an id the counter has issued. Every course has non-empty title and description (the handler's checks) and an owner id of an existing user (models/Course.js:36-43, the non-null foreign key). |
| Database.FindIndex | middleware/authentication.js:15-19 | `findOne` returns the first matching row: it matches and no earlier row does. It returns none exactly when no row matches. |
| Database.FindUser | middleware/authentication.js:15-20 | The user found is a stored user that matches. Nothing is found exactly when no stored user matches. |
| Database.FindByEmailUnique | models/User.js:27-34 | Under the unique-address invariant, looking up a user's own address finds that very user. |
| Database.CreateUser | models/User.js:27-55 | Succeeds exactly when the model's validators accept the draft and the address is not taken. The only change is one appended row: id = row number, given address, hashed password. An explicit null password fails in the hashing setter before validation, with bcrypt's own error. Otherwise the call throws a validation error with the model's messages, or the unique-constraint error. |
| Database.CreateCourse | models/Course.js:36-43 | Succeeds exactly when title, description and `userId` are present, the owner exists and the next id is free. The course is then stored under the next id and the counter advances. A missing owner is a foreign-key error. |
| Database.UpdateCourse | routes.js:188 | The result is the overlaid course, validated. A null `userId` throws the notNull error. A changed owner that does not exist throws the foreign-key error. On success only that course changes, and its owner is the body's `userId` when one is given. |
| Database.DestroyCourse | routes.js:209 | Only the destroyed course leaves the table. Users and the id counter are untouched. |
| Decimal.Render | routes.js:153 | The `${id}` rendering: a non-empty run of digits, with a leading `0` only for id 0, and at least two digits exactly from 10 on. |
| Decimal.ParseRender | routes.js:153 | Parsing the rendered decimal id gives the id back. |
| Decimal.RenderInjective | routes.js:189 | Two ids render to the same text exactly when they are equal, so Locations of different courses differ. |
| Routes.LocationNamesCourse | routes.js:153 | The Location `/courses/<id>` names course id and no other. |

## Left out

- Express routing, `asyncHandler`, and Basic-Auth header parsing and base64 decoding. Credentials arrive as `Option<Credentials>`, and route ids as natural numbers (a non-numeric id behaves like a missing one).
- UserModel.BuildUser: that a digest never equals its plaintext is bcrypt's property. It is not promised, because `hash` is a parameter.
- bcrypt internals, salt randomness and timing safety. `hash` is a deterministic parameter, so the claim that two users with the same password get different hashes is not modelled.
- The `isEmail` regular expression: it is a parameter.
- The password `len` validator (8 to 100 characters). It sits beside a setter that replaces the value with its hash, and which of the two values Sequelize validates is internal to the library. No plaintext bound is asserted.
- The order in which Sequelize aggregates several validation errors. `UserViolations` and `CourseViolations` list them in declaration order, and only their membership is part of the contracts. Validation runs before the uniqueness check, so an invalid and taken address gives only `Email is not valid`.
- The unique-constraint, null-`userId` and duplicate-id messages are Sequelize's default wording, because the source does not declare any.
- Query building (`findAll`/`findByPk` and the SQL join behind `include`) and JSON serialisation. The projection itself is modelled by `Routes.View` and `Routes.OwnerOf`. GET /courses lists courses in id order, the database's scan order.
- Request-body members other than strings and null (numbers, booleans, arrays, objects), and body members such as `id` that the model does not declare. A PUT `userId` is modelled as a natural number.
- Failures of the database engine itself. The "any other error is re-thrown" branch of POST /users exists in `PostUsers`. The one such error the model has, bcrypt's refusal of a null password, cannot reach it, because the handler rejects a falsy password with 400 first.
- Database.CreateUser: bcrypt's refusal of a null password is the bare `HashArgumentError`, without its message text, since bcrypt is not part of this model.
- `console.warn` and `console.log`. The refusal warning is returned as a value by `Diagnostic`.
- Concurrency, including the race between the ownership check and the mutation. Each handler sees one store.

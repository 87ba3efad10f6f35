/**
 * The persisted entities of the résumé backend as values: one row of the
 * `persons` table and one row of the `activities` table, the request
 * records the use cases read, and the outcome every use case returns in
 * place of the Java exceptions ForbiddenException, NotFoundException and
 * ConflictException.
 */
module Model {
  import opened Wrappers

  /** A UUID. Only equality is ever used on it. */
  type Uuid = nat

  /** A java.time.LocalDate, carried through unchanged. */
  datatype Date = Date(year: int, month: int, day: int)

  /** A stored Person without its lazily loaded activity list. */
  datatype Person = Person(
    id: Uuid,
    firstName: string,
    lastName: string,
    email: string,
    website: Option<string>,
    birthDate: Option<Date>,
    passwordHash: string)

  /**
   * A stored Activity. `activityType` is the enum constant's name, as the
   * column stores it; `owner` is the id of the `person` it belongs to.
   */
  datatype Activity = Activity(
    id: Uuid,
    year: int,
    activityType: string,
    title: string,
    description: Option<string>,
    url: Option<string>,
    owner: Uuid)

  /** ActivityCreateRequestDto: the five fields a caller may set. */
  datatype ActivityRequest = ActivityRequest(
    year: int,
    activityType: string,
    title: string,
    description: Option<string>,
    url: Option<string>)

  /** PersonCreateRequestDto. */
  datatype PersonCreateRequest = PersonCreateRequest(
    firstName: string,
    lastName: string,
    email: string,
    website: Option<string>,
    birthDate: Option<Date>,
    rawPassword: string)

  /** The message of the NotFoundException both services throw for a missing person. */
  const PersonNotFound := "Person not found"

  /** What a use case returns, or the exception it throws, with its message. */
  datatype Outcome<+T> =
    | Ok(value: T)
    | Forbidden(message: string)
    | NotFound(message: string)
    | Conflict(message: string)
}

# Authentication and ownership core of the résumé backend, in Dafny

This project models the decision logic of a Spring résumé backend: who may
create, change or delete persons and their activities, how a bearer token on a
request becomes the request's principal, and how a login turns an email and a
password into a token.

- `model.dfy` (module `Model`): a stored `Person` and `Activity` as values, the
  request records, and `Outcome` = `Ok | Forbidden | NotFound | Conflict`,
  which stands for the value returned or the exception thrown, with its message.
- `repository.dfy` (module `Repository`): class `Database` holding the persons
  table and the activities table as maps from id to row. `Valid()` is the
  database's integrity: rows stored under their own id, unique emails, and
  every activity owned by a stored person. `Cascade` is the removal of a
  person's activities when the person is deleted.
- `activity_service.dfy`, `person_service.dfy`: the use cases of
  ActivityService and PersonService, as methods that take the `Database` and
  change its maps. Each states every outcome and the whole new state, and keeps
  `Valid()`.
- `jwt_auth_filter.dfy`: `JwtAuthFilter.doFilterInternal`. `Decide` is the
  filter's decision for a header and a verifier. `DoFilterInternal` applies it
  to an `Exchange`, which holds the request header, the `authPersonId`
  attribute, the response status and a count of the chain's invocations.
- `auth_controller.dfy`: `AuthController.login`, a pure function over the
  persons table.
- `lists.dfy`, `person_aggregate.dfy`: the in-memory `Person` entity, with
  `addActivity` and `removeActivity` on its `activities` list and the
  activity's back-reference. `List.remove(Object)` is `Lists.RemoveFirst`.
- `scenarios.dfy`: client code that uses only the contracts above, replaying
  situations from the unit tests.

Collaborators whose code is not modelled are parameters:

- the password hasher (`hash`, `matches`);
- the token verifier (`verify`, returning `Verified(id)`, `JwtRejected` for a
  JwtException, or `Failed` for any other exception);
- the token generator (`generateToken`);
- the id the database generates for a new row (`newId`, required to be unused).

The principal is an `Option<Uuid>`. Java's `id.equals(null)` is false, so an
absent principal takes the `Forbidden` branch of every ownership check: there
is no separate "Unauthenticated" outcome. Only `createPerson` tests for an
absent principal itself, with its own message.

The services check in different orders. `addActivity`, `updateWebsite` and
`deletePerson` compare the path id with the principal before any lookup.
`updateActivity` and `deleteActivity` look the activity up first, so a missing
activity is `NotFound` for every caller, the anonymous one included.

## Model

| member | source | states |
|---|---|---|
| `ActivityService.AddActivity` | src/main/java/resume/service/ActivityService.java:23-40 | Ids differ (or no principal): Forbidden, whatever the stores hold, nothing written. Person missing: NotFound, nothing written. Otherwise exactly one new activity under the new id, with the request's five fields and owner personId; every other activity unchanged. Persons never change; integrity kept |
| `ActivityService.UpdateActivity` | src/main/java/resume/service/ActivityService.java:52-66 | Missing id: NotFound for any caller. Caller not the stored owner: Forbidden, store unchanged. Owner: the activity with exactly the five request fields replaced (id and owner kept), every other activity unchanged. Success only when the caller is the stored owner |
| `ActivityService.DeleteActivity` | src/main/java/resume/service/ActivityService.java:70-78 | Missing id: NotFound. Non-owner: Forbidden, the activity still stored. Owner: exactly that activity removed. Success only when the caller is the stored owner |
| `PersonService.CreatePerson` | src/main/java/resume/service/PersonService.java:25-47 | Guards in order: no creator gives Forbidden; unknown creator gives Forbidden (its own message); email already stored gives Conflict. On any failure nothing is saved and neither the result nor the store involves the hasher. Success adds exactly one person with the request's names, email, website and birth date and passwordHash = hash(rawPassword); unique emails kept |
| `PersonService.GetPersonWithActivities` | src/main/java/resume/service/PersonService.java:51-54 | Ok exactly when the id is stored: the stored person with exactly the activities it owns; otherwise NotFound("Person not found"). Changes nothing |
| `PersonService.UpdateWebsite` | src/main/java/resume/service/PersonService.java:57-67 | Ids differ: Forbidden before any lookup. Missing person: NotFound. Otherwise only that person's website changes |
| `PersonService.DeletePerson` | src/main/java/resume/service/PersonService.java:70-78 | Ids differ: Forbidden, no store change. Missing person: NotFound. Otherwise exactly that person is removed, and with it every activity it owns and no other |
| `Repository.Cascade` | src/main/java/resume/model/Person.java:65 | Every activity of the deleted person is gone; the activities left are exactly the others, each unchanged |
| `Repository.EmailTaken` | src/main/java/resume/repository/PersonRepository.java:16 | existsByEmail, the Conflict guard of createPerson: true exactly when some stored person has that email |
| `Repository.Database.Valid` | src/main/java/resume/model/Person.java:46 | The database's integrity: no two stored persons share an email (unique column and index), and every stored activity's owner is a stored person (the non-null foreign key); every use case keeps it |
| `Repository.DuplicateEmailBreaksUniqueness` | src/main/java/resume/model/Person.java:46 | Saving a person under a new id with an email already stored violates the unique-email rule, which is why createPerson's Conflict guard is needed |
| `Repository.FreshEmailKeepsUniqueness` | src/main/java/resume/model/Person.java:18 | Inserting under a fresh id and an unused email keeps emails unique |
| `Repository.CascadeKeepsOwners` | src/main/java/resume/model/Activity.java:54-55 | After removing a person and cascading, every remaining activity still has a stored owner |
| `JwtAuthFilter.Decide` | src/main/java/resume/web/security/JwtAuthFilter.java:29-52 | A principal is bound only for a bearer header whose token the verifier accepted, and then it is the returned id. 401 exactly when the token after the prefix raised a JwtException. Anonymous pass-through exactly when there is no header or no `Bearer ` prefix. A verified token always binds the id it carries; the exception leaves the filter exactly when the verifier fails otherwise |
| `JwtAuthFilter.DoFilterInternal` | src/main/java/resume/web/security/JwtAuthFilter.java:24-53 | The request's attribute, status and chain count change as Decide says and in no other way. The chain runs once on anonymous or verified requests. On a JwtException the status is 401, the chain does not run and nothing is bound. Any other exception leaves the filter with nothing changed. The chain running and 401 being set never happen in the same pass |
| `JwtAuthFilter.HasBearerPrefix` | src/main/java/resume/web/security/JwtAuthFilter.java:31 | `startsWith("Bearer ")`: true exactly when the header is `Bearer ` followed by some token |
| `JwtAuthFilter.NoHeaderIsAnonymous` | src/main/java/resume/web/security/JwtAuthFilter.java:29-31 | No Authorization header: anonymous, and the chain runs |
| `JwtAuthFilter.LowercaseSchemeIsAnonymous` | src/main/java/resume/web/security/JwtAuthFilter.java:31 | The scheme is case-sensitive: `bearer t` is anonymous |
| `JwtAuthFilter.SchemeWithoutSpaceIsAnonymous` | src/main/java/resume/web/security/JwtAuthFilter.java:31 | The trailing space is part of the prefix: `Bearer` followed directly by a token is anonymous |
| `JwtAuthFilter.TokenIsTextAfterPrefix` | src/main/java/resume/web/security/JwtAuthFilter.java:32-34 | Header `Bearer ` + t hands exactly t to the verifier, and the decision follows the verifier's answer for t |
| `JwtAuthFilter.ChainRunsExactlyWhen` | src/main/java/resume/web/security/JwtAuthFilter.java:29-52 | The chain runs exactly when there is no header, the header lacks the `Bearer ` prefix, or the verifier accepts the token after it; a rejected or failing token never reaches it |
| `AuthController.FindByEmail` | src/main/java/resume/web/controller/AuthController.java:24 | With unique emails: finds a person exactly when the email is stored, and it is the one stored person with that email |
| `AuthController.Login` | src/main/java/resume/web/controller/AuthController.java:23-32 | Unknown email and wrong password both give the same Forbidden("Bad credentials"). Otherwise the token is generateToken(id, email) of the person found, issued exactly when matches(password, storedHash). Only reads the store |
| `AuthController.UnknownEmailIgnoresMatcher` | src/main/java/resume/web/controller/AuthController.java:24-25 | For an unknown email the outcome does not depend on the password matcher, which is never consulted |
| `AuthController.TokenOnlyOnMatch` | src/main/java/resume/web/controller/AuthController.java:27-31 | A token is issued only when a stored person with that email has a hash matching the password, and it is that person's token |
| `Lists.RemoveFirst` | src/main/java/resume/model/Person.java:76 | List.remove(Object): the list shrinks by one exactly when the element is present |
| `Lists.IndexOf` | src/main/java/resume/model/Person.java:76 | The first position holding the element: it is there, and not earlier |
| `Lists.RemoveFirstAbsent` | src/main/java/resume/model/Person.java:75-78 | Removing an activity that is not listed leaves the list unchanged |
| `Lists.RemoveFirstSplices` | src/main/java/resume/model/Person.java:76 | Removal splices out the first occurrence; the elements before and after keep their order |
| `Lists.RemoveFirstAppended` | src/main/java/resume/model/Person.java:69-78 | Appending a fresh activity and then removing it gives back the original list |
| `Lists.RemoveFirstMultiset` | src/main/java/resume/model/Person.java:76 | Removal takes exactly one copy of the element out of the list's multiset |
| `Lists.RemoveFirstDistinct` | src/main/java/resume/model/Person.java:75-78 | In a list without duplicates, removal leaves no copy of the element and no duplicate, and adds nothing |
| `PersonAggregate.PersonEntity.AddActivity` | src/main/java/resume/model/Person.java:69-72 | The activity's person becomes this one, and it is appended at the end (earlier elements unchanged). A consistent list stays consistent when the activity was not yet listed |
| `PersonAggregate.PersonEntity.RemoveActivity` | src/main/java/resume/model/Person.java:75-78 | The list loses the first occurrence of the activity. The activity's person is cleared whether or not it was listed. A consistent list stays consistent and no longer holds the activity |
| `PersonAggregate.AddThenRemove` | src/main/java/resume/model/Person.java:69-78 | addActivity followed by removeActivity of an unlisted activity restores the list and leaves the activity detached |

## Left out

- Token signing, parsing and expiry are not modelled; `JwtService` is not part of this model. The verifier and generator are parameters. The round trip of issuing and then verifying a token, and expiry after the TTL, are therefore not stated.
- Salted bcrypt hashing is a parameter `hash`, and matching is a parameter `matches`. Hashing is randomised in the source; the model sees the one value that `createPerson`'s single call returns.
- "The hasher/matcher is never called" is stated as independence: on the failure paths the result and the new store do not depend on the hasher or matcher. The number of calls is not recorded.
- `@GeneratedValue` ids are a parameter `newId`, required not to be stored yet.
- Listing, searching and pagination (`listActivities`, `searchByTitle`, `listPersons`, `searchPersons`) and the repositories' derived queries are not modelled. Their behaviour lives in the persistence layer.
- The SecurityContextHolder authentication set by the filter is not modelled; only the `authPersonId` request attribute is.
- Controllers, DTO mapping, Bean Validation and the controllers' `@RequestAttribute` binding are not modelled. That binding rejects a request with no `authPersonId` before any service runs; the services are modelled as called directly.
- Transactions and JPA object identity are not modelled. The stores hold rows as values, so a loaded entity and the saved row cannot alias.
- `findByEmail` with two persons sharing an email throws in the persistence layer. `Login` and `FindByEmail` require unique emails, which `Database.Valid()` guarantees.
- `ActivityType.java` is not part of this model; an activity's type is the enum constant's name.
- Person fields other than `activities` are held by the store's `Person` rows, not by `PersonEntity`. An `ActivityEntity` carries only its `person` back-reference.
- `PersonAggregate.PersonEntity.AddActivity`: the back-reference consistency is promised only when the activity is not already listed. Adding an activity twice lists it twice, and a later `removeActivity` then leaves one listed copy whose person is null.
- `PersonAggregate.PersonEntity.RemoveActivity`: orphan removal (`orphanRemoval = true` on the `activities` list) is not modelled. In the program, removing an activity from a stored person's list deletes that activity's row from the activities table at the next flush. Here the in-memory list and the `Database` store are separate models, so `RemoveActivity` changes only the list and never the store.

/**
 * Client code that uses only the contracts of the use cases, replaying
 * the situations the unit tests describe.
 */
module Scenarios {
  import opened Wrappers
  import opened Model
  import opened Repository
  import ActivityService
  import PersonService
  import JwtAuthFilter

  /** Two persons, one activity owned by the second. */
  method SeededDatabase() returns (db: Database)
    ensures fresh(db) && db.Valid()
    ensures db.persons.Keys == {1, 2} && db.activities.Keys == {10}
    ensures db.persons[1].email == "a@mail.fr" && db.activities[10].owner == 2
  {
    db := new Database();
    db.persons := map[
      1 := Person(1, "A", "A", "a@mail.fr", None, None, "HASH1"),
      2 := Person(2, "B", "B", "b@mail.fr", None, None, "HASH2")];
    db.activities := map[10 := Activity(10, 2020, "PROJECT", "Old", None, None, 2)];
  }

  /** A non-owner cannot delete, a missing id is NotFound for anyone, the owner can. */
  method DeleteActivityScenario()
  {
    var db := SeededDatabase();
    var r := ActivityService.DeleteActivity(db, 10, Some(1));
    assert r == Forbidden(ActivityService.ModifyOnlyYourCv) && 10 in db.activities;
    r := ActivityService.DeleteActivity(db, 11, None);
    assert r == NotFound(ActivityService.ActivityNotFound);
    r := ActivityService.DeleteActivity(db, 10, Some(2));
    assert r == Ok(()) && db.activities == map[];
  }

  /** Deleting the owner of an activity takes the activity with it. */
  method CascadeScenario()
  {
    var db := SeededDatabase();
    var r := PersonService.DeletePerson(db, 2, Some(1));
    assert r == Forbidden(PersonService.DeleteOnlyYourProfile);
    r := PersonService.DeletePerson(db, 2, Some(2));
    assert r == Ok(()) && db.persons.Keys == {1} && 10 !in db.activities;
  }

  /** A second person with an existing email is a Conflict and nothing is saved. */
  method DuplicateEmailScenario(hash: string -> string)
  {
    var db := SeededDatabase();
    var req := PersonCreateRequest("C", "C", "a@mail.fr", None, None, "secret");
    assert EmailTaken(db.persons, req.email) by { assert db.persons[1].email == req.email; }
    var r := PersonService.CreatePerson(db, req, Some(2), hash, 3);
    assert r == Conflict(PersonService.EmailAlreadyUsed) && db.persons.Keys == {1, 2};
  }

  /** An expired or forged token stops the request with 401 before any handler. */
  method RejectedTokenScenario()
  {
    var ex := new JwtAuthFilter.Exchange(Some("Bearer xyz"));
    var verify := (t: string) => JwtAuthFilter.JwtRejected;
    var escaped := JwtAuthFilter.DoFilterInternal(ex, verify);
    assert "Bearer xyz"[..7] == JwtAuthFilter.BearerPrefix;
    assert ex.status == 401 && ex.chainCalls == 0 && ex.authPersonId == None && !escaped;
  }
}

/**
 * PersonService: creating a person by cooptation, reading a person with
 * its activities, and the two self-mutations (website update, deletion),
 * which compare the path's id with the principal before any lookup.
 */
module PersonService {
  import opened Wrappers
  import opened Model
  import opened Repository

  const MustBeAuthenticated := "You must be authenticated to create a person (cooptation)"
  const CreatorMustBeAuthenticated := "Creator must be authenticated"
  const EmailAlreadyUsed := "Email already used"
  const UpdateOnlyYourProfile := "You can update only your profile"
  const DeleteOnlyYourProfile := "You can delete only your profile"

  /** A person as returned with its activities fetched. */
  datatype PersonWithActivities = PersonWithActivities(person: Person, activities: set<Activity>)

  /**
   * createPerson. `creatorId` is the principal (None when absent), `hash`
   * the password hasher's one call, `newId` the id the database generates.
   * The guards run in order: no creator, unknown creator, email in use.
   */
  method CreatePerson(db: Database, req: PersonCreateRequest, creatorId: Option<Uuid>,
                      hash: string -> string, newId: Uuid)
    returns (r: Outcome<Person>)
    requires db.Valid()
    requires newId !in db.persons
    modifies db
    ensures db.Valid()
    ensures db.activities == old(db.activities)
    ensures creatorId == None ==>
      r == Forbidden(MustBeAuthenticated) && db.persons == old(db.persons)
    ensures creatorId.Some? && creatorId.value !in old(db.persons) ==>
      r == Forbidden(CreatorMustBeAuthenticated) && db.persons == old(db.persons)
    ensures creatorId.Some? && creatorId.value in old(db.persons) && EmailTaken(old(db.persons), req.email) ==>
      r == Conflict(EmailAlreadyUsed) && db.persons == old(db.persons)
    ensures creatorId.Some? && creatorId.value in old(db.persons) && !EmailTaken(old(db.persons), req.email) ==>
      && r == Ok(Person(newId, req.firstName, req.lastName, req.email, req.website, req.birthDate,
                        hash(req.rawPassword)))
      && db.persons == old(db.persons)[newId := r.value]
  {
    if creatorId == None {
      return Forbidden(MustBeAuthenticated);
    }
    if creatorId.value !in db.persons {
      return Forbidden(CreatorMustBeAuthenticated);
    }
    if EmailTaken(db.persons, req.email) {
      return Conflict(EmailAlreadyUsed);
    }
    var p := Person(newId, req.firstName, req.lastName, req.email, req.website, req.birthDate,
                    hash(req.rawPassword));
    FreshEmailKeepsUniqueness(db.persons, newId, p);
    db.persons := db.persons[newId := p];
    r := Ok(p);
  }

  /** getPersonWithActivities: a read-only lookup with the person's activities. */
  method GetPersonWithActivities(db: Database, id: Uuid) returns (r: Outcome<PersonWithActivities>)
    ensures r.Ok? <==> id in db.persons
    ensures !r.Ok? ==> r == NotFound(PersonNotFound)
    ensures r.Ok? ==> r.value.person == db.persons[id]
    ensures r.Ok? ==> forall a :: a in r.value.activities <==> a in db.activities.Values && a.owner == id
  {
    if id !in db.persons {
      return NotFound(PersonNotFound);
    }
    var owned := set a | a in db.activities.Values && a.owner == id;
    r := Ok(PersonWithActivities(db.persons[id], owned));
  }

  /** updateWebsite: a person changes the website of its own profile. */
  method UpdateWebsite(db: Database, personId: Uuid, authPersonId: Option<Uuid>, website: Option<string>)
    returns (r: Outcome<Person>)
    requires db.Valid()
    modifies db
    ensures db.Valid()
    ensures db.activities == old(db.activities)
    ensures authPersonId != Some(personId) ==>
      r == Forbidden(UpdateOnlyYourProfile) && db.persons == old(db.persons)
    ensures authPersonId == Some(personId) && personId !in old(db.persons) ==>
      r == NotFound(PersonNotFound) && db.persons == old(db.persons)
    ensures authPersonId == Some(personId) && personId in old(db.persons) ==>
      && r == Ok(old(db.persons)[personId].(website := website))
      && db.persons == old(db.persons)[personId := r.value]
  {
    if authPersonId != Some(personId) {
      return Forbidden(UpdateOnlyYourProfile);
    }
    if personId !in db.persons {
      return NotFound(PersonNotFound);
    }
    var p := db.persons[personId];
    p := p.(website := website);
    db.persons := db.persons[personId := p];
    r := Ok(p);
  }

  /**
   * deletePerson: a person deletes its own profile; the cascade removes
   * every activity it owns and nothing else.
   */
  method DeletePerson(db: Database, personId: Uuid, authPersonId: Option<Uuid>)
    returns (r: Outcome<()>)
    requires db.Valid()
    modifies db
    ensures db.Valid()
    ensures authPersonId != Some(personId) ==>
      r == Forbidden(DeleteOnlyYourProfile) && db.persons == old(db.persons) && db.activities == old(db.activities)
    ensures authPersonId == Some(personId) && personId !in old(db.persons) ==>
      r == NotFound(PersonNotFound) && db.persons == old(db.persons) && db.activities == old(db.activities)
    ensures authPersonId == Some(personId) && personId in old(db.persons) ==>
      && r == Ok(())
      && db.persons == old(db.persons) - {personId}
      && db.activities == Cascade(old(db.activities), personId)
    ensures r.Ok? ==> forall id | id in db.activities :: db.activities[id].owner != personId
  {
    if authPersonId != Some(personId) {
      return Forbidden(DeleteOnlyYourProfile);
    }
    if personId !in db.persons {
      return NotFound(PersonNotFound);
    }
    CascadeKeepsOwners(db.persons, db.activities, personId);
    db.persons := db.persons - {personId};
    db.activities := Cascade(db.activities, personId);
    r := Ok(());
  }
}

/**
 * The two tables behind PersonRepository and ActivityRepository, held as
 * maps from id to row, with the integrity rules the database enforces:
 * the unique index on `persons.email`, the non-null foreign key from an
 * activity to its person, and the cascade from a person to its activities.
 */
module Repository {
  import opened Model

  /** No two stored persons share an email (the unique index and column). */
  ghost predicate UniqueEmails(persons: map<Uuid, Person>)
  {
    forall i, j | i in persons && j in persons && persons[i].email == persons[j].email :: i == j
  }

  /** PersonRepository.existsByEmail. */
  predicate EmailTaken(persons: map<Uuid, Person>, email: string)
    ensures EmailTaken(persons, email) <==> exists p | p in persons.Values :: p.email == email
  {
    exists id | id in persons :: persons[id].email == email
  }

  /** Every row is stored under its own id. */
  ghost predicate KeyedById(persons: map<Uuid, Person>, activities: map<Uuid, Activity>)
  {
    && (forall id | id in persons :: persons[id].id == id)
    && (forall id | id in activities :: activities[id].id == id)
  }

  /** Every activity belongs to a stored person (the non-null foreign key). */
  ghost predicate OwnersExist(persons: map<Uuid, Person>, activities: map<Uuid, Activity>)
  {
    forall id | id in activities :: activities[id].owner in persons
  }

  /** The activities that remain once the cascade from person `owner` has run. */
  function Cascade(activities: map<Uuid, Activity>, owner: Uuid): (r: map<Uuid, Activity>)
    // every activity of `owner` is gone
    ensures forall id | id in activities && activities[id].owner == owner :: id !in r
    // every other activity stays, unchanged, and nothing else is there
    ensures forall id | id in activities && activities[id].owner != owner :: id in r && r[id] == activities[id]
    ensures forall id | id in r :: id in activities && activities[id].owner != owner && r[id] == activities[id]
  {
    map id | id in activities && activities[id].owner != owner :: activities[id]
  }

  /**
   * Saving a second person under an email that is already stored breaks the
   * unique index: the insert is what the database refuses.
   */
  lemma DuplicateEmailBreaksUniqueness(persons: map<Uuid, Person>, newId: Uuid, p: Person)
    requires newId !in persons
    requires EmailTaken(persons, p.email)
    ensures !UniqueEmails(persons[newId := p])
  {
    var other :| other in persons && persons[other].email == p.email;
    var after := persons[newId := p];
    assert other in after && newId in after && after[other].email == after[newId].email;
    assert other != newId;
  }

  /** Inserting under a fresh id and an unused email keeps emails unique. */
  lemma FreshEmailKeepsUniqueness(persons: map<Uuid, Person>, newId: Uuid, p: Person)
    requires UniqueEmails(persons)
    requires newId !in persons
    requires !EmailTaken(persons, p.email)
    ensures UniqueEmails(persons[newId := p])
  {
  }

  /**
   * Removing a person together with the cascade over its activities keeps
   * every remaining activity's owner stored.
   */
  lemma CascadeKeepsOwners(persons: map<Uuid, Person>, activities: map<Uuid, Activity>, personId: Uuid)
    requires OwnersExist(persons, activities)
    ensures OwnersExist(persons - {personId}, Cascade(activities, personId))
  {
  }

  /** The database: the persons table and the activities table. */
  class Database {
    var persons: map<Uuid, Person>
    var activities: map<Uuid, Activity>

    ghost predicate Valid()
      reads this
      // no two stored rows share an email
      ensures Valid() ==> forall p, q | p in persons.Values && q in persons.Values && p.email == q.email :: p == q
      // every stored activity's owner is a stored person
      ensures Valid() ==> forall a | a in activities.Values :: a.owner in persons
    {
      && KeyedById(persons, activities)
      && UniqueEmails(persons)
      && OwnersExist(persons, activities)
    }

    constructor ()
      ensures Valid()
      ensures persons == map[] && activities == map[]
    {
      persons := map[];
      activities := map[];
    }
  }
}

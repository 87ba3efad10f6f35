/**
 * The in-memory Person entity and its `activities` list, with the two
 * helpers that keep the list and each activity's back-reference to its
 * person in step. Activities are compared by identity, as the entity
 * does not override equals.
 */
module PersonAggregate {
  import opened Lists

  class ActivityEntity {
    var person: PersonEntity?

    constructor ()
      ensures person == null
    {
      person := null;
    }
  }

  class PersonEntity {
    var activities: seq<ActivityEntity>

    constructor ()
      ensures activities == []
    {
      activities := [];
    }

    /** Every listed activity points back here, and none is listed twice. */
    ghost predicate Linked()
      reads this, activities
    {
      && (forall i | 0 <= i < |activities| :: activities[i].person == this)
      && Distinct(activities)
    }

    /** addActivity: sets the back-reference, then appends at the end. */
    method AddActivity(a: ActivityEntity)
      modifies this, a
      ensures a.person == this
      ensures activities == old(activities) + [a]
      ensures old(Linked()) && a !in old(activities) ==> Linked()
    {
      a.person := this;
      activities := activities + [a];
    }

    /**
     * removeActivity: drops the first occurrence from the list, then clears
     * the back-reference, whether or not the activity was listed.
     */
    method RemoveActivity(a: ActivityEntity)
      modifies this, a
      ensures activities == RemoveFirst(old(activities), a)
      ensures a.person == null
      ensures old(Linked()) ==> Linked() && a !in activities
    {
      ghost var before := activities;
      if Distinct(before) {
        RemoveFirstDistinct(before, a);
      }
      activities := RemoveFirst(activities, a);
      a.person := null;
      if old(Linked()) {
        forall i | 0 <= i < |activities| ensures activities[i].person == this {
          assert activities[i] in before;
          var j :| 0 <= j < |before| && before[j] == activities[i];
          assert old(before[j].person) == this;
        }
      }
    }
  }

  /** Adding a new activity and removing it again gives back the original list. */
  method AddThenRemove(p: PersonEntity, a: ActivityEntity)
    requires a !in p.activities
    modifies p, a
    ensures p.activities == old(p.activities)
    ensures a.person == null
  {
    p.AddActivity(a);
    p.RemoveActivity(a);
    RemoveFirstAppended(old(p.activities), a);
  }
}

/**
 * ActivityService: adding, updating and deleting a person's activities.
 * Adding compares the path's person id with the principal before any
 * lookup; updating and deleting look the activity up first, so a missing
 * activity is NotFound for every caller, and only then compare the
 * principal with the stored owner.
 */
module ActivityService {
  import opened Wrappers
  import opened Model
  import opened Repository

  const ModifyOnlyYourCv := "You can modify only your CV"
  const ActivityNotFound := "Activity not found"

  /**
   * addActivity. `authPersonId` is the request's principal, None when no
   * token was presented; `newId` is the id the database generates for the
   * saved row.
   */
  method AddActivity(db: Database, personId: Uuid, authPersonId: Option<Uuid>,
                     req: ActivityRequest, newId: Uuid)
    returns (r: Outcome<Activity>)
    requires db.Valid()
    requires newId !in db.activities
    modifies db
    ensures db.Valid()
    ensures db.persons == old(db.persons)
    // the ids are compared first, whatever the stores hold
    ensures authPersonId != Some(personId) ==>
      r == Forbidden(ModifyOnlyYourCv) && db.activities == old(db.activities)
    ensures authPersonId == Some(personId) && personId !in old(db.persons) ==>
      r == NotFound(PersonNotFound) && db.activities == old(db.activities)
    // success stores exactly one new activity, built from the request
    ensures authPersonId == Some(personId) && personId in old(db.persons) ==>
      && r == Ok(Activity(newId, req.year, req.activityType, req.title, req.description, req.url, personId))
      && db.activities == old(db.activities)[newId := r.value]
  {
    if authPersonId != Some(personId) {
      return Forbidden(ModifyOnlyYourCv);
    }
    if personId !in db.persons {
      return NotFound(PersonNotFound);
    }
    var a := Activity(newId, req.year, req.activityType, req.title, req.description, req.url, personId);
    db.activities := db.activities[newId := a];
    r := Ok(a);
  }

  /** updateActivity: replaces the five request fields of an owned activity. */
  method UpdateActivity(db: Database, activityId: Uuid, authPersonId: Option<Uuid>,
                        req: ActivityRequest)
    returns (r: Outcome<Activity>)
    requires db.Valid()
    modifies db
    ensures db.Valid()
    ensures db.persons == old(db.persons)
    // existence is resolved before ownership
    ensures activityId !in old(db.activities) ==>
      r == NotFound(ActivityNotFound) && db.activities == old(db.activities)
    ensures activityId in old(db.activities) && authPersonId != Some(old(db.activities)[activityId].owner) ==>
      r == Forbidden(ModifyOnlyYourCv) && db.activities == old(db.activities)
    ensures activityId in old(db.activities) && authPersonId == Some(old(db.activities)[activityId].owner) ==>
      && r == Ok(old(db.activities)[activityId].(year := req.year, activityType := req.activityType,
                   title := req.title, description := req.description, url := req.url))
      && db.activities == old(db.activities)[activityId := r.value]
    // no update succeeds unless the caller is the stored owner
    ensures r.Ok? ==> activityId in old(db.activities) && authPersonId == Some(old(db.activities)[activityId].owner)
  {
    if activityId !in db.activities {
      return NotFound(ActivityNotFound);
    }
    var a := db.activities[activityId];
    if Some(a.owner) != authPersonId {
      return Forbidden(ModifyOnlyYourCv);
    }
    a := a.(year := req.year);
    a := a.(activityType := req.activityType);
    a := a.(title := req.title);
    a := a.(description := req.description);
    a := a.(url := req.url);
    db.activities := db.activities[activityId := a];
    r := Ok(a);
  }

  /** deleteActivity: removes an owned activity and nothing else. */
  method DeleteActivity(db: Database, activityId: Uuid, authPersonId: Option<Uuid>)
    returns (r: Outcome<()>)
    requires db.Valid()
    modifies db
    ensures db.Valid()
    ensures db.persons == old(db.persons)
    ensures activityId !in old(db.activities) ==>
      r == NotFound(ActivityNotFound) && db.activities == old(db.activities)
    ensures activityId in old(db.activities) && authPersonId != Some(old(db.activities)[activityId].owner) ==>
      r == Forbidden(ModifyOnlyYourCv) && db.activities == old(db.activities)
    ensures activityId in old(db.activities) && authPersonId == Some(old(db.activities)[activityId].owner) ==>
      r == Ok(()) && db.activities == old(db.activities) - {activityId}
    // no delete succeeds unless the caller is the stored owner
    ensures r.Ok? ==> activityId in old(db.activities) && authPersonId == Some(old(db.activities)[activityId].owner)
  {
    if activityId !in db.activities {
      return NotFound(ActivityNotFound);
    }
    var a := db.activities[activityId];
    if Some(a.owner) != authPersonId {
      return Forbidden(ModifyOnlyYourCv);
    }
    db.activities := db.activities - {activityId};
    r := Ok(());
  }
}

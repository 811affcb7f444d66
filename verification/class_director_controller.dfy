/** controller/ClassDirectorController.java: the class director's operations
    on teaching requirements, delegated to a requirement store. Identifiers
    and clock readings, which the source draws from `UUID.randomUUID()` and
    `System.currentTimeMillis()`, are the parameters `id` and `now`. */
module ClassDirectorControllers {
  import opened Wrappers
  import opened Strings
  import opened Requirements
  import Maps
  import Dao = RequirementDao

  /** The validation of `createRequirement`: a course name and a course code,
      neither null nor blank. */
  predicate ValidCourse(courseName: Option<string>, courseCode: Option<string>)
    ensures ValidCourse(courseName, courseCode) <==>
      && courseName.Some? && (exists i :: 0 <= i < |courseName.value| && !IsTrimmed(courseName.value[i]))
      && courseCode.Some? && (exists i :: 0 <= i < |courseCode.value| && !IsTrimmed(courseCode.value[i]))
  {
    Filled(courseName) && Filled(courseCode)
  }

  /** A non-null string that is not blank once trimmed: it holds some
      character above U+0020. */
  predicate Filled(s: Option<string>)
    ensures Filled(s) <==> s.Some? && exists i :: 0 <= i < |s.value| && !IsTrimmed(s.value[i])
  {
    s.Some? && (BlankIffAllTrimmed(s.value); !IsBlank(s.value))
  }

  /** The requirement `createRequirement` builds: the five-argument constructor
      followed by `setNotes(notes)`. */
  function Drafted(id: string, courseName: Option<string>, courseCode: Option<string>,
                   schedule: Option<string>, location: Option<string>,
                   qualifications: Option<seq<string>>, notes: Option<string>,
                   now: int): (r: RequirementRecord)
    ensures r.id == id && r.notes == notes
    ensures r.courseName == courseName && r.courseCode == courseCode
    ensures r.schedule == schedule && r.location == location
    ensures r.requiredQualifications == if qualifications.Some? then qualifications.value else []
    ensures r.createdTimestamp == now && r.lastModifiedTimestamp == now
    ensures r.assignedTeacherIds == [] && r.status == Unassigned && r.StatusDerived()
  {
    var built := RequirementRecord(id, courseName, courseCode, schedule, location,
      if qualifications.Some? then qualifications.value else [],
      Unassigned, [], Some(""), now, now);
    Apply(built, Edit.SetNotes(notes), now)
  }

  /** The setter calls of `updateRequirement`: the course name and code only
      when non-blank, the other four fields whenever the argument is non-null.
      The identity, the status and the assignments are never touched. */
  function Overrides(r: RequirementRecord, courseName: Option<string>, courseCode: Option<string>,
                     schedule: Option<string>, location: Option<string>,
                     qualifications: Option<seq<string>>, notes: Option<string>,
                     now: int): (u: RequirementRecord)
    ensures u.id == r.id && u.createdTimestamp == r.createdTimestamp
    ensures u.status == r.status && u.assignedTeacherIds == r.assignedTeacherIds
    ensures r.StatusDerived() ==> u.StatusDerived()
  {
    var r1 := CourseOverrides(r, courseName, courseCode, now);
    var r2 := PlaceOverrides(r1, schedule, location, now);
    DetailOverrides(r2, qualifications, notes, now)
  }

  /** The course name and code, each only when non-blank. */
  function CourseOverrides(r: RequirementRecord, courseName: Option<string>,
                           courseCode: Option<string>, now: int): (u: RequirementRecord)
    ensures u.id == r.id && u.createdTimestamp == r.createdTimestamp
    ensures u.status == r.status && u.assignedTeacherIds == r.assignedTeacherIds
  {
    var r1 := Step(r, Filled(courseName), Edit.SetCourseName(courseName), now);
    Step(r1, Filled(courseCode), Edit.SetCourseCode(courseCode), now)
  }

  /** The schedule and the location, each whenever non-null. */
  function PlaceOverrides(r: RequirementRecord, schedule: Option<string>,
                          location: Option<string>, now: int): (u: RequirementRecord)
    ensures u.id == r.id && u.createdTimestamp == r.createdTimestamp
    ensures u.status == r.status && u.assignedTeacherIds == r.assignedTeacherIds
  {
    var r1 := Step(r, schedule.Some?, Edit.SetSchedule(schedule), now);
    Step(r1, location.Some?, Edit.SetLocation(location), now)
  }

  /** The qualification list and the notes, each whenever non-null. */
  function DetailOverrides(r: RequirementRecord, qualifications: Option<seq<string>>,
                           notes: Option<string>, now: int): (u: RequirementRecord)
    ensures u.id == r.id && u.createdTimestamp == r.createdTimestamp
    ensures u.status == r.status && u.assignedTeacherIds == r.assignedTeacherIds
  {
    var r1 := Step(r, qualifications.Some?,
      Edit.SetRequiredQualifications(if qualifications.Some? then qualifications.value else []), now);
    Step(r1, notes.Some?, Edit.SetNotes(notes), now)
  }

  /** One guarded setter call. */
  function Step(r: RequirementRecord, guard: bool, e: Edit, now: int): (u: RequirementRecord)
    requires e.IsFieldEdit()
    ensures u.id == r.id && u.createdTimestamp == r.createdTimestamp
    ensures u.status == r.status && u.assignedTeacherIds == r.assignedTeacherIds
  {
    if guard then Apply(r, e, now) else r
  }

  /** What each argument does to its field. */
  lemma OverridesFields(r: RequirementRecord, courseName: Option<string>, courseCode: Option<string>,
                        schedule: Option<string>, location: Option<string>,
                        qualifications: Option<seq<string>>, notes: Option<string>, now: int)
    ensures var u := Overrides(r, courseName, courseCode, schedule, location, qualifications, notes, now);
      && u.courseName == (if Filled(courseName) then courseName else r.courseName)
      && u.courseCode == (if Filled(courseCode) then courseCode else r.courseCode)
      && u.schedule == (if schedule.Some? then schedule else r.schedule)
      && u.location == (if location.Some? then location else r.location)
      && u.requiredQualifications ==
           (if qualifications.Some? then qualifications.value else r.requiredQualifications)
      && u.notes == (if notes.Some? then notes else r.notes)
  {
  }

  /** The last-modified time moves to `now` exactly when some setter runs. */
  lemma OverridesTouch(r: RequirementRecord, courseName: Option<string>, courseCode: Option<string>,
                       schedule: Option<string>, location: Option<string>,
                       qualifications: Option<seq<string>>, notes: Option<string>, now: int)
    ensures var u := Overrides(r, courseName, courseCode, schedule, location, qualifications, notes, now);
      var touched := Filled(courseName) || Filled(courseCode) || schedule.Some? ||
                     location.Some? || qualifications.Some? || notes.Some?;
      && (touched ==> u.lastModifiedTimestamp == now)
      && (!touched ==> u == r)
  {
  }

  /** The search keyword of `searchRequirementsByCourseName`. */
  function Keyword(courseName: string): (k: string)
    ensures |k| <= |courseName|
    ensures forall i :: 0 <= i < |k| ==> !('A' <= k[i] <= 'Z')
  {
    Trim(ToLower(courseName))
  }

  /** A course name that passes the blank check never yields the empty
      keyword, which would match every named requirement. */
  lemma KeywordNotEmpty(courseName: string)
    requires !IsBlank(courseName)
    ensures Keyword(courseName) != ""
  {
    LowerKeepsBlank(courseName);
  }

  /** The requirement has a course name whose lower-cased form contains the
      keyword at some position. */
  predicate NameMatches(r: RequirementRecord, keyword: string)
    ensures NameMatches(r, keyword) <==>
      r.courseName.Some? &&
      exists i :: 0 <= i <= |r.courseName.value| && keyword <= ToLower(r.courseName.value)[i..]
  {
    r.courseName.Some? &&
    (ContainsIffOccurs(ToLower(r.courseName.value), keyword);
     Contains(ToLower(r.courseName.value), keyword))
  }

  /** The stream filter of `getRequirementsByStatus`, in list order. */
  function WithStatus(rs: seq<TeachingRequirement>, status: RequirementStatus): (r: seq<TeachingRequirement>)
    reads rs
    ensures |r| <= |rs|
    ensures forall i :: 0 <= i < |r| ==> r[i] in rs && r[i].status == status
    decreases |rs|
  {
    if |rs| == 0 then []
    else
      var q := rs[|rs| - 1];
      WithStatus(rs[..|rs| - 1], status) + (if q.status == status then [q] else [])
  }

  lemma {:induction false} WithStatusMembers(rs: seq<TeachingRequirement>, status: RequirementStatus)
    ensures forall i :: 0 <= i < |WithStatus(rs, status)| ==>
      WithStatus(rs, status)[i] in rs && WithStatus(rs, status)[i].status == status
    ensures forall j :: 0 <= j < |rs| && rs[j].status == status ==> rs[j] in WithStatus(rs, status)
    decreases |rs|
  {
    if |rs| > 0 {
      var init := rs[..|rs| - 1];
      WithStatusMembers(init, status);
      assert forall x :: x in init ==> x in rs;
      assert forall j :: 0 <= j < |init| ==> rs[j] == init[j];
    }
  }

  /** The stream filter of `searchRequirementsByCourseName`, in list order. */
  function WithName(rs: seq<TeachingRequirement>, keyword: string): (r: seq<TeachingRequirement>)
    reads rs
    ensures |r| <= |rs|
    ensures forall i :: 0 <= i < |r| ==> r[i] in rs && NameMatches(r[i].View(), keyword)
    decreases |rs|
  {
    if |rs| == 0 then []
    else
      var q := rs[|rs| - 1];
      WithName(rs[..|rs| - 1], keyword) + (if NameMatches(q.View(), keyword) then [q] else [])
  }

  lemma {:induction false} WithNameMembers(rs: seq<TeachingRequirement>, keyword: string)
    ensures forall i :: 0 <= i < |WithName(rs, keyword)| ==>
      WithName(rs, keyword)[i] in rs && NameMatches(WithName(rs, keyword)[i].View(), keyword)
    ensures forall j :: 0 <= j < |rs| && NameMatches(rs[j].View(), keyword) ==>
      rs[j] in WithName(rs, keyword)
    decreases |rs|
  {
    if |rs| > 0 {
      var init := rs[..|rs| - 1];
      WithNameMembers(init, keyword);
      assert forall x :: x in init ==> x in rs;
      assert forall j :: 0 <= j < |init| ==> rs[j] == init[j];
    }
  }

  class ClassDirectorController {
    const store: Dao.RequirementStore

    constructor (store: Dao.RequirementStore)
      ensures this.store == store
    {
      this.store := store;
    }

    /** Refuses a missing or blank course name or code. Otherwise builds the
        requirement, saves it and returns it when saving succeeded. A save
        whose flush failed still leaves the requirement stored. */
    method CreateRequirement(id: string, now: int, courseName: Option<string>,
                             courseCode: Option<string>, schedule: Option<string>,
                             location: Option<string>, qualifications: Option<seq<string>>,
                             notes: Option<string>, flushOk: bool)
      returns (r: Option<TeachingRequirement>)
      requires store.Valid()
      modifies store
      ensures store.Valid()
      ensures r.Some? <==> ValidCourse(courseName, courseCode) && id !in old(store.db) && flushOk
      ensures !ValidCourse(courseName, courseCode) || id in old(store.db) ==>
        store.db == old(store.db)
      ensures ValidCourse(courseName, courseCode) && id !in old(store.db) ==>
        && id in store.db && fresh(store.db[id])
        && store.db[id].View() ==
             Drafted(id, courseName, courseCode, schedule, location, qualifications, notes, now)
        && store.db == old(store.db)[id := store.db[id]]
        && (r.Some? ==> r.value == store.db[id])
    {
      if !ValidCourse(courseName, courseCode) {
        return None;
      }
      var requirement := new TeachingRequirement(id, courseName, courseCode, schedule,
                                                 location, qualifications, now);
      requirement.SetNotes(notes, now);
      var success := store.Save(requirement, flushOk);
      r := if success then Some(requirement) else None;
    }

    /** Fetches the stored requirement, edits that very object with
        `Overrides` and hands it back to `update`; the map itself is left as it
        was. An unknown id fails and changes nothing. */
    method UpdateRequirement(id: string, now: int, courseName: Option<string>,
                             courseCode: Option<string>, schedule: Option<string>,
                             location: Option<string>, qualifications: Option<seq<string>>,
                             notes: Option<string>, flushOk: bool) returns (ok: bool)
      requires store.Valid()
      modifies store, if id in store.db then {store.db[id]} else {}
      ensures store.Valid() && store.db == old(store.db)
      ensures id !in old(store.db) ==> !ok
      ensures id in old(store.db) ==>
        && ok == flushOk
        && old(store.db)[id].View() ==
             Overrides(old(store.db[id].View()), courseName, courseCode, schedule,
                       location, qualifications, notes, now)
    {
      var found := store.FindById(id);
      if found.None? {
        return false;
      }
      var requirement := found.value;
      EditRequirement(requirement, now, courseName, courseCode, schedule, location,
                      qualifications, notes);
      ok := store.Update(requirement, flushOk);
    }

    /** The setter calls of `updateRequirement`, on the fetched object. */
    method EditRequirement(requirement: TeachingRequirement, now: int, courseName: Option<string>,
                           courseCode: Option<string>, schedule: Option<string>,
                           location: Option<string>, qualifications: Option<seq<string>>,
                           notes: Option<string>)
      modifies requirement
      ensures requirement.View() ==
        Overrides(old(requirement.View()), courseName, courseCode, schedule, location,
                  qualifications, notes, now)
    {
      EditCourse(requirement, now, courseName, courseCode);
      EditPlace(requirement, now, schedule, location);
      EditDetails(requirement, now, qualifications, notes);
    }

    method EditCourse(requirement: TeachingRequirement, now: int, courseName: Option<string>,
                      courseCode: Option<string>)
      modifies requirement
      ensures requirement.View() == CourseOverrides(old(requirement.View()), courseName, courseCode, now)
    {
      if Filled(courseName) {
        requirement.SetCourseName(courseName, now);
      }
      if Filled(courseCode) {
        requirement.SetCourseCode(courseCode, now);
      }
    }

    method EditPlace(requirement: TeachingRequirement, now: int, schedule: Option<string>,
                     location: Option<string>)
      modifies requirement
      ensures requirement.View() == PlaceOverrides(old(requirement.View()), schedule, location, now)
    {
      if schedule.Some? {
        requirement.SetSchedule(schedule, now);
      }
      if location.Some? {
        requirement.SetLocation(location, now);
      }
    }

    method EditDetails(requirement: TeachingRequirement, now: int,
                       qualifications: Option<seq<string>>, notes: Option<string>)
      modifies requirement
      ensures requirement.View() == DetailOverrides(old(requirement.View()), qualifications, notes, now)
    {
      if qualifications.Some? {
        requirement.SetRequiredQualifications(qualifications.value, now);
      }
      if notes.Some? {
        requirement.SetNotes(notes, now);
      }
    }

    method DeleteRequirement(id: string, flushOk: bool) returns (ok: bool)
      requires store.Valid()
      modifies store
      ensures store.Valid()
      ensures id in old(store.db) ==> store.db == old(store.db) - {id} && ok == flushOk
      ensures id !in old(store.db) ==> store.db == old(store.db) && !ok
    {
      ok := store.Delete(id, flushOk);
    }

    method GetAllRequirements() returns (r: seq<TeachingRequirement>)
      ensures multiset(r) == Maps.Values(store.db)
      ensures |r| == |store.db|
    {
      r := store.FindAll();
    }

    function GetRequirementById(id: string): (r: Option<TeachingRequirement>)
      reads this, store
      ensures r.Some? <==> id in store.db
      ensures r.Some? ==> r.value == store.db[id]
    {
      store.FindById(id)
    }

    /** A null status gives an empty list; otherwise the stored requirements
        with that status. */
    method GetRequirementsByStatus(status: Option<RequirementStatus>)
      returns (r: seq<TeachingRequirement>)
      ensures status.None? ==> r == []
      ensures |r| <= |store.db|
      ensures status.Some? ==>
        && (forall i :: 0 <= i < |r| ==> r[i] in store.db.Values && r[i].status == status.value)
        && (forall k :: k in store.db && store.db[k].status == status.value ==> store.db[k] in r)
    {
      if status.None? {
        return [];
      }
      var all := store.FindAll();
      Maps.ListedValues(store.db, all);
      WithStatusMembers(all, status.value);
      r := WithStatus(all, status.value);
      forall k | k in store.db && store.db[k].status == status.value
        ensures store.db[k] in r
      {
        assert store.db[k] in store.db.Values;
        var j :| 0 <= j < |all| && all[j] == store.db[k];
      }
    }

    /** A null or blank name gives an empty list; otherwise the stored
        requirements with a course name whose lower-cased form contains the
        lower-cased, trimmed name. */
    method SearchRequirementsByCourseName(courseName: Option<string>)
      returns (r: seq<TeachingRequirement>)
      ensures !Filled(courseName) ==> r == []
      ensures |r| <= |store.db|
      ensures Filled(courseName) ==>
        var keyword := Keyword(courseName.value);
        && keyword != ""
        && (forall i :: 0 <= i < |r| ==> r[i] in store.db.Values && NameMatches(r[i].View(), keyword))
        && (forall k :: k in store.db && NameMatches(store.db[k].View(), keyword) ==> store.db[k] in r)
    {
      if !Filled(courseName) {
        return [];
      }
      var keyword := Keyword(courseName.value);
      KeywordNotEmpty(courseName.value);
      var all := store.FindAll();
      Maps.ListedValues(store.db, all);
      WithNameMembers(all, keyword);
      r := WithName(all, keyword);
      forall k | k in store.db && NameMatches(store.db[k].View(), keyword)
        ensures store.db[k] in r
      {
        assert store.db[k] in store.db.Values;
        var j :| 0 <= j < |all| && all[j] == store.db[k];
      }
    }
  }
}

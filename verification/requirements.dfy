/** model/TeachingRequirement.java: a course requirement whose status is
    derived from the list of teachers assigned to it. */
module Requirements {
  import opened Wrappers
  import opened Lists

  datatype RequirementStatus = Unassigned | PartiallyAssigned | FullyAssigned

  /** `updateStatus`: no headcount exists, so any assignment at all counts as
      partial and `FullyAssigned` is never derived. */
  function DerivedStatus(ids: seq<string>): (s: RequirementStatus)
    ensures s == Unassigned <==> |ids| == 0
    ensures s != FullyAssigned
  {
    if |ids| == 0 then Unassigned else PartiallyAssigned
  }

  /** The value of a TeachingRequirement object; `None` is a null field. */
  datatype RequirementRecord = RequirementRecord(
    id: string,
    courseName: Option<string>,
    courseCode: Option<string>,
    schedule: Option<string>,
    location: Option<string>,
    requiredQualifications: seq<string>,
    status: RequirementStatus,
    assignedTeacherIds: seq<string>,
    notes: Option<string>,
    createdTimestamp: int,
    lastModifiedTimestamp: int)
  {
    predicate StatusDerived() { status == DerivedStatus(assignedTeacherIds) }
  }

  /** The state-changing calls the class offers, one per public mutator. */
  datatype Edit =
    | SetCourseName(name: Option<string>)
    | SetCourseCode(code: Option<string>)
    | SetSchedule(schedule: Option<string>)
    | SetLocation(location: Option<string>)
    | SetRequiredQualifications(qualifications: seq<string>)
    | AddRequiredQualification(qualification: string)
    | SetStatus(status: RequirementStatus)
    | SetAssignedTeacherIds(ids: seq<string>)
    | AssignTeacher(teacherId: string)
    | RemoveTeacher(teacherId: string)
    | SetNotes(notes: Option<string>)
  {
    /** A plain field setter: neither the status nor the assignment list. */
    predicate IsFieldEdit()
    {
      !(SetStatus? || SetAssignedTeacherIds? || AssignTeacher? || RemoveTeacher?)
    }
  }

  /** One mutator applied at clock reading `now`. */
  function Apply(r: RequirementRecord, e: Edit, now: int): (a: RequirementRecord)
    ensures a.id == r.id && a.createdTimestamp == r.createdTimestamp
    ensures e.IsFieldEdit() ==>
      a.status == r.status && a.assignedTeacherIds == r.assignedTeacherIds &&
      a.lastModifiedTimestamp == now
  {
    match e
    case SetCourseName(v) => r.(courseName := v, lastModifiedTimestamp := now)
    case SetCourseCode(v) => r.(courseCode := v, lastModifiedTimestamp := now)
    case SetSchedule(v) => r.(schedule := v, lastModifiedTimestamp := now)
    case SetLocation(v) => r.(location := v, lastModifiedTimestamp := now)
    case SetRequiredQualifications(q) =>
      r.(requiredQualifications := q, lastModifiedTimestamp := now)
    case AddRequiredQualification(q) =>
      r.(requiredQualifications := r.requiredQualifications + [q], lastModifiedTimestamp := now)
    case SetStatus(s) => r.(status := s, lastModifiedTimestamp := now)
    case SetAssignedTeacherIds(ids) =>
      r.(assignedTeacherIds := ids, status := DerivedStatus(ids), lastModifiedTimestamp := now)
    case AssignTeacher(t) =>
      if t in r.assignedTeacherIds then r
      else
        var ids := r.assignedTeacherIds + [t];
        r.(assignedTeacherIds := ids, status := DerivedStatus(ids), lastModifiedTimestamp := now)
    case RemoveTeacher(t) =>
      var ids := RemoveFirst(r.assignedTeacherIds, t);
      r.(assignedTeacherIds := ids, status := DerivedStatus(ids), lastModifiedTimestamp := now)
    case SetNotes(v) => r.(notes := v, lastModifiedTimestamp := now)
  }

  /** A mutator together with the clock reading it takes. */
  datatype StampedEdit = StampedEdit(edit: Edit, now: int)

  function ApplyAll(r: RequirementRecord, edits: seq<StampedEdit>): RequirementRecord
    decreases |edits|
  {
    if |edits| == 0 then r
    else ApplyAll(Apply(r, edits[0].edit, edits[0].now), edits[1..])
  }

  /** The identifier and the creation time survive any sequence of mutators. */
  lemma {:induction false} IdentityIsPermanent(r: RequirementRecord, edits: seq<StampedEdit>)
    ensures ApplyAll(r, edits).id == r.id
    ensures ApplyAll(r, edits).createdTimestamp == r.createdTimestamp
    decreases |edits|
  {
    if |edits| > 0 {
      IdentityIsPermanent(Apply(r, edits[0].edit, edits[0].now), edits[1..]);
    }
  }

  /** Status equals the derived status after every sequence of mutators that
      avoids `setStatus`, starting from a derived status. */
  lemma {:induction false} StatusStaysDerived(r: RequirementRecord, edits: seq<StampedEdit>)
    requires r.StatusDerived()
    requires forall i :: 0 <= i < |edits| ==> !edits[i].edit.SetStatus?
    ensures ApplyAll(r, edits).StatusDerived()
    decreases |edits|
  {
    if |edits| > 0 {
      var next := Apply(r, edits[0].edit, edits[0].now);
      StatusStaysDerived(next, edits[1..]);
    }
  }

  /** `setStatus` alone can break the derivation: an empty list marked fully
      assigned. */
  lemma SetStatusBypassesDerivation(r: RequirementRecord, now: int)
    requires r.assignedTeacherIds == []
    ensures !Apply(r, SetStatus(FullyAssigned), now).StatusDerived()
  {
  }

  /** The assignment list stays free of duplicates under every mutator except
      the bulk `setAssignedTeacherIds`. */
  lemma {:induction false} AssignmentsStayDistinct(r: RequirementRecord, edits: seq<StampedEdit>)
    requires NoDup(r.assignedTeacherIds)
    requires forall i :: 0 <= i < |edits| ==> !edits[i].edit.SetAssignedTeacherIds?
    ensures NoDup(ApplyAll(r, edits).assignedTeacherIds)
    decreases |edits|
  {
    if |edits| > 0 {
      var e := edits[0].edit;
      match e {
        case AssignTeacher(t) =>
          if t !in r.assignedTeacherIds {
            AppendNoDup(r.assignedTeacherIds, t);
          }
        case RemoveTeacher(t) =>
          RemoveFirstNoDup(r.assignedTeacherIds, t);
        case _ =>
      }
      AssignmentsStayDistinct(Apply(r, e, edits[0].now), edits[1..]);
    }
  }

  /** Assigning the same teacher twice is the same as assigning once; the
      second call does not even touch the timestamp. */
  lemma AssignTwice(r: RequirementRecord, t: string, now1: int, now2: int)
    ensures Apply(Apply(r, AssignTeacher(t), now1), AssignTeacher(t), now2)
         == Apply(r, AssignTeacher(t), now1)
  {
  }

  class TeachingRequirement {
    const id: string
    var courseName: Option<string>
    var courseCode: Option<string>
    var schedule: Option<string>
    var location: Option<string>
    var requiredQualifications: seq<string>
    var status: RequirementStatus
    var assignedTeacherIds: seq<string>
    var notes: Option<string>
    const createdTimestamp: int
    var lastModifiedTimestamp: int

    function View(): RequirementRecord
      reads this
    {
      RequirementRecord(id, courseName, courseCode, schedule, location,
        requiredQualifications, status, assignedTeacherIds, notes,
        createdTimestamp, lastModifiedTimestamp)
    }

    /** The no-argument constructor: a fresh identifier `id` (a random UUID in
        the source), empty lists, status Unassigned, notes "" and both
        timestamps from the clock reading `now`. */
    constructor Empty(id: string, now: int)
      ensures View() == RequirementRecord(id, None, None, None, None, [], Unassigned, [],
                                          Some(""), now, now)
      ensures View().StatusDerived()
    {
      this.id := id;
      this.courseName := None;
      this.courseCode := None;
      this.schedule := None;
      this.location := None;
      this.requiredQualifications := [];
      this.status := Unassigned;
      this.assignedTeacherIds := [];
      this.notes := Some("");
      this.createdTimestamp := now;
      this.lastModifiedTimestamp := now;
    }

    /** The five-argument constructor: the fields verbatim, except that a null
        qualification list keeps the empty one. */
    constructor (id: string, courseName: Option<string>, courseCode: Option<string>,
                 schedule: Option<string>, location: Option<string>,
                 requiredQualifications: Option<seq<string>>, now: int)
      ensures View() == RequirementRecord(id, courseName, courseCode, schedule, location,
                          if requiredQualifications.Some? then requiredQualifications.value else [],
                          Unassigned, [], Some(""), now, now)
      ensures View().StatusDerived()
    {
      this.id := id;
      this.courseName := courseName;
      this.courseCode := courseCode;
      this.schedule := schedule;
      this.location := location;
      this.requiredQualifications :=
        if requiredQualifications.Some? then requiredQualifications.value else [];
      this.status := Unassigned;
      this.assignedTeacherIds := [];
      this.notes := Some("");
      this.createdTimestamp := now;
      this.lastModifiedTimestamp := now;
    }

    method SetCourseName(courseName: Option<string>, now: int)
      modifies this
      ensures View() == Apply(old(View()), Edit.SetCourseName(courseName), now)
    {
      this.courseName := courseName;
      lastModifiedTimestamp := now;
    }

    method SetCourseCode(courseCode: Option<string>, now: int)
      modifies this
      ensures View() == Apply(old(View()), Edit.SetCourseCode(courseCode), now)
    {
      this.courseCode := courseCode;
      lastModifiedTimestamp := now;
    }

    method SetSchedule(schedule: Option<string>, now: int)
      modifies this
      ensures View() == Apply(old(View()), Edit.SetSchedule(schedule), now)
    {
      this.schedule := schedule;
      lastModifiedTimestamp := now;
    }

    method SetLocation(location: Option<string>, now: int)
      modifies this
      ensures View() == Apply(old(View()), Edit.SetLocation(location), now)
    {
      this.location := location;
      lastModifiedTimestamp := now;
    }

    method SetRequiredQualifications(qualifications: seq<string>, now: int)
      modifies this
      ensures View() == Apply(old(View()), Edit.SetRequiredQualifications(qualifications), now)
    {
      requiredQualifications := qualifications;
      lastModifiedTimestamp := now;
    }

    method AddRequiredQualification(qualification: string, now: int)
      modifies this
      ensures View() == Apply(old(View()), Edit.AddRequiredQualification(qualification), now)
    {
      requiredQualifications := requiredQualifications + [qualification];
      lastModifiedTimestamp := now;
    }

    /** Overwrites the status directly; the derivation then holds exactly when
        the new status happens to be the derived one. */
    method SetStatus(status: RequirementStatus, now: int)
      modifies this
      ensures View() == Apply(old(View()), Edit.SetStatus(status), now)
      ensures View().StatusDerived() <==> status == DerivedStatus(assignedTeacherIds)
    {
      this.status := status;
      lastModifiedTimestamp := now;
    }

    method SetAssignedTeacherIds(ids: seq<string>, now: int)
      modifies this
      ensures View() == Apply(old(View()), Edit.SetAssignedTeacherIds(ids), now)
      ensures View().StatusDerived()
    {
      assignedTeacherIds := ids;
      UpdateStatus();
      lastModifiedTimestamp := now;
    }

    /** A teacher already on the list changes nothing at all; any other is
        appended and the status becomes PartiallyAssigned. */
    method AssignTeacher(teacherId: string, now: int)
      modifies this
      ensures View() == Apply(old(View()), Edit.AssignTeacher(teacherId), now)
      ensures teacherId in assignedTeacherIds
      ensures teacherId !in old(assignedTeacherIds) ==> status == PartiallyAssigned
      ensures old(NoDup(assignedTeacherIds)) ==> NoDup(assignedTeacherIds)
    {
      if teacherId !in assignedTeacherIds {
        if NoDup(assignedTeacherIds) {
          AppendNoDup(assignedTeacherIds, teacherId);
        }
        assignedTeacherIds := assignedTeacherIds + [teacherId];
        UpdateStatus();
        lastModifiedTimestamp := now;
      }
    }

    /** Removes the first occurrence, if any, and always refreshes the status
        and the timestamp. */
    method RemoveTeacher(teacherId: string, now: int)
      modifies this
      ensures View() == Apply(old(View()), Edit.RemoveTeacher(teacherId), now)
      ensures View().StatusDerived()
      ensures multiset(assignedTeacherIds) == old(multiset(assignedTeacherIds)) - multiset{teacherId}
      ensures old(NoDup(assignedTeacherIds)) ==> NoDup(assignedTeacherIds) && teacherId !in assignedTeacherIds
    {
      RemoveFirstMultiset(assignedTeacherIds, teacherId);
      if NoDup(assignedTeacherIds) {
        RemoveFirstNoDup(assignedTeacherIds, teacherId);
      }
      assignedTeacherIds := RemoveFirst(assignedTeacherIds, teacherId);
      UpdateStatus();
      lastModifiedTimestamp := now;
    }

    method SetNotes(notes: Option<string>, now: int)
      modifies this
      ensures View() == Apply(old(View()), Edit.SetNotes(notes), now)
    {
      this.notes := notes;
      lastModifiedTimestamp := now;
    }

    /** `updateStatus`: recomputes the status from the assignment list only. */
    method UpdateStatus()
      modifies this
      ensures View() == old(View()).(status := DerivedStatus(assignedTeacherIds))
    {
      status := if |assignedTeacherIds| == 0 then Unassigned else PartiallyAssigned;
    }
  }
}

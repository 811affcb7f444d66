/** model/TrainingSession.java: a training session with a list of
    participating teacher ids. */
module Sessions {
  import opened Lists

  /** `addTeacher`: append unless already present. */
  function WithParticipant(ids: seq<string>, teacherId: string): (r: seq<string>)
    ensures teacherId in r
    ensures multiset(ids) <= multiset(r)
  {
    if teacherId in ids then ids else ids + [teacherId]
  }

  /** One call of `addTeacher` (`add` true) or `removeTeacher`. */
  datatype ParticipantChange = ParticipantChange(add: bool, teacherId: string)

  function ApplyChanges(ids: seq<string>, changes: seq<ParticipantChange>): seq<string>
    decreases |changes|
  {
    if |changes| == 0 then ids
    else
      var c := changes[0];
      ApplyChanges(if c.add then WithParticipant(ids, c.teacherId) else RemoveFirst(ids, c.teacherId),
                   changes[1..])
  }

  /** Starting from the constructor's empty list, no sequence of additions and
      removals produces a duplicate participant. */
  lemma {:induction false} ParticipantsStayDistinct(ids: seq<string>, changes: seq<ParticipantChange>)
    requires NoDup(ids)
    ensures NoDup(ApplyChanges(ids, changes))
    decreases |changes|
  {
    if |changes| > 0 {
      var c := changes[0];
      if c.add {
        if c.teacherId !in ids {
          AppendNoDup(ids, c.teacherId);
        }
        ParticipantsStayDistinct(WithParticipant(ids, c.teacherId), changes[1..]);
      } else {
        RemoveFirstNoDup(ids, c.teacherId);
        ParticipantsStayDistinct(RemoveFirst(ids, c.teacherId), changes[1..]);
      }
    }
  }

  /** Adding the same teacher twice is the same as adding once. */
  lemma WithParticipantIdempotent(ids: seq<string>, teacherId: string)
    ensures WithParticipant(WithParticipant(ids, teacherId), teacherId) == WithParticipant(ids, teacherId)
  {
  }

  class TrainingSession {
    const id: string
    var name: string
    var date: string
    var location: string
    var content: string
    var participatingTeacherIds: seq<string>

    /** `id` is a fresh identifier (a random UUID in the source); there is no
        setter for it. */
    constructor (id: string, name: string, date: string, location: string, content: string)
      ensures this.id == id && this.name == name && this.date == date
      ensures this.location == location && this.content == content
      ensures participatingTeacherIds == []
    {
      this.id := id;
      this.name := name;
      this.date := date;
      this.location := location;
      this.content := content;
      participatingTeacherIds := [];
    }

    method SetName(name: string)
      modifies this
      ensures this.name == name
      ensures date == old(date) && location == old(location) && content == old(content)
      ensures participatingTeacherIds == old(participatingTeacherIds)
    {
      this.name := name;
    }

    method SetDate(date: string)
      modifies this
      ensures this.date == date
      ensures name == old(name) && location == old(location) && content == old(content)
      ensures participatingTeacherIds == old(participatingTeacherIds)
    {
      this.date := date;
    }

    method SetLocation(location: string)
      modifies this
      ensures this.location == location
      ensures name == old(name) && date == old(date) && content == old(content)
      ensures participatingTeacherIds == old(participatingTeacherIds)
    {
      this.location := location;
    }

    method SetContent(content: string)
      modifies this
      ensures this.content == content
      ensures name == old(name) && date == old(date) && location == old(location)
      ensures participatingTeacherIds == old(participatingTeacherIds)
    {
      this.content := content;
    }

    /** Appends the id unless it is already a participant. */
    method AddTeacher(teacherId: string)
      modifies this
      ensures participatingTeacherIds == WithParticipant(old(participatingTeacherIds), teacherId)
      ensures old(NoDup(participatingTeacherIds)) ==> NoDup(participatingTeacherIds)
      ensures name == old(name) && date == old(date) && location == old(location)
      ensures content == old(content)
    {
      if teacherId !in participatingTeacherIds {
        if NoDup(participatingTeacherIds) {
          AppendNoDup(participatingTeacherIds, teacherId);
        }
        participatingTeacherIds := participatingTeacherIds + [teacherId];
      }
    }

    /** Removes the first occurrence of the id; on a duplicate-free list the id
        is then absent. */
    method RemoveTeacher(teacherId: string)
      modifies this
      ensures participatingTeacherIds == RemoveFirst(old(participatingTeacherIds), teacherId)
      ensures old(NoDup(participatingTeacherIds)) ==>
        NoDup(participatingTeacherIds) && teacherId !in participatingTeacherIds
      ensures name == old(name) && date == old(date) && location == old(location)
      ensures content == old(content)
    {
      if NoDup(participatingTeacherIds) {
        RemoveFirstNoDup(participatingTeacherIds, teacherId);
      }
      participatingTeacherIds := RemoveFirst(participatingTeacherIds, teacherId);
    }
  }
}

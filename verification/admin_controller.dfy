/** controller/AdminController.java: the administrator's operations on
    teachers, delegated to the teacher store the application wires in
    (dao/impl/FileTeacherDAO.java). */
module AdminControllers {
  import opened Ints
  import opened Wrappers
  import opened Teachers
  import opened Strings
  import Maps
  import Store = FileTeacherDaoImpl

  /** Whether a teacher matches a qualification search: the lower-cased
      qualifications contain the lower-cased keyword. */
  predicate QualificationMatches(t: TeacherRecord, keyword: string)
    ensures QualificationMatches(t, keyword) <==>
      exists i :: 0 <= i <= |t.qualifications| && ToLower(keyword) <= ToLower(t.qualifications)[i..]
  {
    ContainsIffOccurs(ToLower(t.qualifications), ToLower(keyword));
    Contains(ToLower(t.qualifications), ToLower(keyword))
  }

  /** The stream filter of `searchTeachersByQualification`, in list order. */
  function WithQualification(ts: seq<Teacher>, keyword: string): (r: seq<Teacher>)
    reads ts
    ensures |r| <= |ts|
    ensures forall i :: 0 <= i < |r| ==> r[i] in ts && QualificationMatches(r[i].View(), keyword)
    decreases |ts|
  {
    if |ts| == 0 then []
    else
      var t := ts[|ts| - 1];
      WithQualification(ts[..|ts| - 1], keyword)
        + (if QualificationMatches(t.View(), keyword) then [t] else [])
  }

  /** The filter keeps exactly the matching teachers. */
  lemma {:induction false} WithQualificationMembers(ts: seq<Teacher>, keyword: string)
    ensures forall i :: 0 <= i < |WithQualification(ts, keyword)| ==>
      WithQualification(ts, keyword)[i] in ts
      && QualificationMatches(WithQualification(ts, keyword)[i].View(), keyword)
    ensures forall j :: 0 <= j < |ts| && QualificationMatches(ts[j].View(), keyword) ==>
      ts[j] in WithQualification(ts, keyword)
    decreases |ts|
  {
    if |ts| > 0 {
      var init := ts[..|ts| - 1];
      WithQualificationMembers(init, keyword);
      assert forall x :: x in init ==> x in ts;
      assert forall j :: 0 <= j < |init| ==> ts[j] == init[j];
    }
  }

  /** An empty keyword matches every teacher. */
  lemma EmptyKeywordMatchesAll(t: TeacherRecord)
    ensures QualificationMatches(t, "")
  {
    assert ToLower("") == "";
    ContainsEmpty(ToLower(t.qualifications));
  }

  /** The edit `updateTeacher` makes: a non-null, non-empty name, contact or
      qualification string replaces the field, a non-null availability replaces
      it; null and the empty string leave the field as it was. The id is never
      touched. */
  function Overrides(t: TeacherRecord, name: Option<string>, contact: Option<string>,
                     isAvailable: Option<bool>, qualifications: Option<string>): (u: TeacherRecord)
    ensures u.id == t.id
    ensures u.name == if name.Some? && name.value != "" then name.value else t.name
    ensures u.contact == if contact.Some? && contact.value != "" then contact.value else t.contact
    ensures u.isAvailable == if isAvailable.Some? then isAvailable.value else t.isAvailable
    ensures u.qualifications ==
      if qualifications.Some? && qualifications.value != "" then qualifications.value
      else t.qualifications
  {
    var t1 := if name.Some? && name.value != "" then t.(name := name.value) else t;
    var t2 := if contact.Some? && contact.value != "" then t1.(contact := contact.value) else t1;
    var t3 := if isAvailable.Some? then t2.(isAvailable := isAvailable.value) else t2;
    if qualifications.Some? && qualifications.value != "" then
      t3.(qualifications := qualifications.value)
    else t3
  }

  /** Applying the same overrides twice is the same as applying them once. */
  lemma OverridesIdempotent(t: TeacherRecord, name: Option<string>, contact: Option<string>,
                            isAvailable: Option<bool>, qualifications: Option<string>)
    ensures var u := Overrides(t, name, contact, isAvailable, qualifications);
      Overrides(u, name, contact, isAvailable, qualifications) == u
  {
  }

  class AdminController {
    const dao: Store.FileTeacherDao

    constructor (dao: Store.FileTeacherDao)
      ensures this.dao == dao
    {
      this.dao := dao;
    }

    /** Builds a new Teacher from the arguments and saves it, overwriting any
        teacher with that id; the result is the flush's. */
    method AddTeacher(id: int32, name: string, contact: string, isAvailable: bool,
                      qualifications: string, flushOk: bool) returns (ok: bool)
      modifies dao
      ensures id in dao.db && fresh(dao.db[id])
      ensures dao.db[id].View() == TeacherRecord(id, name, contact, isAvailable, qualifications)
      ensures dao.db == old(dao.db)[id := dao.db[id]]
      ensures ok == flushOk
    {
      var t := new Teacher(id, name, contact, isAvailable, qualifications);
      ok := dao.Save(t, flushOk);
    }

    /** Fetches the stored teacher, edits that very object with `Overrides`
        and hands it back to `update`. An unknown id fails and changes
        nothing. When every key maps to a teacher with that id (the store's
        own operations keep this), the map is left as it was and the result
        is the flush's. */
    method UpdateTeacher(id: int32, name: Option<string>, contact: Option<string>,
                         isAvailable: Option<bool>, qualifications: Option<string>,
                         flushOk: bool) returns (ok: bool)
      modifies dao, if id in dao.db then {dao.db[id]} else {}
      ensures id !in old(dao.db) ==> !ok && dao.db == old(dao.db)
      ensures id in old(dao.db) ==>
        var t := old(dao.db)[id];
        && t.View() == Overrides(old(t.View()), name, contact, isAvailable, qualifications)
        && dao.db == (if t.id in old(dao.db) then old(dao.db)[t.id := t] else old(dao.db))
        && ok == (t.id in old(dao.db) && flushOk)
      ensures old(dao.KeysMatch()) && id in old(dao.db) ==>
        dao.db == old(dao.db) && ok == flushOk && dao.KeysMatch()
    {
      var found := dao.FindById(id);
      if found.None? {
        return false;
      }
      var t := found.value;
      EditTeacher(t, name, contact, isAvailable, qualifications);
      ok := dao.Update(t, flushOk);
    }

    /** The setter calls of `updateTeacher`, on the fetched object. */
    method EditTeacher(t: Teacher, name: Option<string>, contact: Option<string>,
                       isAvailable: Option<bool>, qualifications: Option<string>)
      modifies t
      ensures t.View() == Overrides(old(t.View()), name, contact, isAvailable, qualifications)
    {
      if name.Some? && name.value != "" {
        t.SetName(name.value);
      }
      if contact.Some? && contact.value != "" {
        t.SetContact(contact.value);
      }
      if isAvailable.Some? {
        t.SetAvailable(isAvailable.value);
      }
      if qualifications.Some? && qualifications.value != "" {
        t.SetQualifications(qualifications.value);
      }
    }

    method DeleteTeacher(id: int32, flushOk: bool) returns (ok: bool)
      modifies dao
      ensures id in old(dao.db) ==> dao.db == old(dao.db) - {id} && ok == flushOk
      ensures id !in old(dao.db) ==> dao.db == old(dao.db) && !ok
    {
      ok := dao.Delete(id, flushOk);
    }

    /** Every stored teacher, once per id. */
    method ListAllTeachers() returns (r: seq<Teacher>)
      ensures multiset(r) == Maps.Values(dao.db)
      ensures |r| == |dao.db|
    {
      r := dao.FindAll();
    }

    function FindTeacherById(id: int32): (r: Option<Teacher>)
      reads this, dao
      ensures r.Some? <==> id in dao.db
      ensures r.Some? ==> r.value == dao.db[id]
    {
      dao.FindById(id)
    }

    /** The stored teachers whose qualifications contain the keyword, ignoring
        ASCII case. */
    method SearchTeachersByQualification(keyword: string) returns (r: seq<Teacher>)
      ensures |r| <= |dao.db|
      ensures forall i :: 0 <= i < |r| ==>
        r[i] in dao.db.Values && QualificationMatches(r[i].View(), keyword)
      ensures forall k :: k in dao.db && QualificationMatches(dao.db[k].View(), keyword) ==>
        dao.db[k] in r
    {
      var all := dao.FindAll();
      Maps.ListedValues(dao.db, all);
      WithQualificationMembers(all, keyword);
      r := WithQualification(all, keyword);
      forall k | k in dao.db && QualificationMatches(dao.db[k].View(), keyword)
        ensures dao.db[k] in r
      {
        assert dao.db[k] in dao.db.Values;
        var j :| 0 <= j < |all| && all[j] == dao.db[k];
      }
    }
  }
}

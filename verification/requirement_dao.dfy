/** dao/TeachingRequirementDAO.java: the repository contract for teaching
    requirements, keyed by the requirement's string id. The repository has no
    implementation of it (dao/impl/FileTeachingRequirementDAO.java is an empty
    class), so `RequirementStore` realises the documented contract on a map,
    with the rules the teacher stores share: `save` refuses an id already
    stored, `update` and `delete` fail on an unknown id, and every change is
    followed by a flush whose outcome is `flushOk`. */
module RequirementDao {
  import opened Wrappers
  import opened Requirements
  import Maps

  /** `save`: stores a new requirement; success means it was not there before
      and now is, nothing else changed. */
  ghost predicate SaveMeets(before: map<string, TeachingRequirement>,
                            after: map<string, TeachingRequirement>,
                            r: TeachingRequirement, ok: bool)
    ensures SaveMeets(before, after, r, ok) && ok ==>
      FindMeets(after, r.id, Some(r)) && |after| == |before| + 1
  {
    ok ==> r.id !in before && after == before[r.id := r]
  }

  /** `update`: succeeds only for an existing requirement. */
  ghost predicate UpdateMeets(before: map<string, TeachingRequirement>,
                              after: map<string, TeachingRequirement>,
                              r: TeachingRequirement, ok: bool)
    ensures UpdateMeets(before, after, r, ok) && ok ==>
      FindMeets(after, r.id, Some(r)) && after.Keys == before.Keys
  {
    ok ==> r.id in before && after == before[r.id := r]
  }

  /** `delete`: succeeds only for an existing id, which is then gone. */
  ghost predicate DeleteMeets(before: map<string, TeachingRequirement>,
                              after: map<string, TeachingRequirement>,
                              id: string, ok: bool)
    ensures DeleteMeets(before, after, id, ok) && ok ==>
      FindMeets(after, id, None) && |after| == |before| - 1
  {
    ok ==> id in before && after == before - {id}
  }

  /** `findById`: the requirement, or null when the id does not exist. */
  ghost predicate FindMeets(m: map<string, TeachingRequirement>, id: string,
                            r: Option<TeachingRequirement>)
    ensures FindMeets(m, id, r) ==> (r.None? <==> id !in m)
  {
    r == if id in m then Some(m[id]) else None
  }

  /** `findAll`: every stored requirement. */
  ghost predicate FindAllMeets(m: map<string, TeachingRequirement>, r: seq<TeachingRequirement>)
    ensures FindAllMeets(m, r) ==>
      && |r| == |m|
      && (forall i :: 0 <= i < |r| ==> r[i] in m.Values)
      && (forall k :: k in m ==> m[k] in r)
  {
    Maps.ListedEntries(m, r);
    multiset(r) == Maps.Values(m)
  }

  class RequirementStore {
    var db: map<string, TeachingRequirement>

    /** Every key is the id of the requirement under it; ids are constant, so
        this holds whatever is done to the stored objects. */
    predicate Valid()
      reads this
    {
      forall k :: k in db ==> db[k].id == k
    }

    constructor ()
      ensures db == map[] && Valid()
    {
      db := map[];
    }

    method Save(r: TeachingRequirement, flushOk: bool) returns (ok: bool)
      modifies this
      ensures r.id in old(db) ==> db == old(db) && !ok
      ensures r.id !in old(db) ==> db == old(db)[r.id := r] && ok == flushOk
      ensures old(Valid()) ==> Valid()
      ensures SaveMeets(old(db), db, r, ok)
    {
      if r.id in db {
        return false;
      }
      db := db[r.id := r];
      ok := SaveAll(flushOk);
    }

    method Update(r: TeachingRequirement, flushOk: bool) returns (ok: bool)
      modifies this
      ensures r.id in old(db) ==> db == old(db)[r.id := r] && ok == flushOk
      ensures r.id !in old(db) ==> db == old(db) && !ok
      ensures old(Valid()) ==> Valid()
      ensures UpdateMeets(old(db), db, r, ok)
    {
      if r.id !in db {
        return false;
      }
      db := db[r.id := r];
      ok := SaveAll(flushOk);
    }

    method Delete(id: string, flushOk: bool) returns (ok: bool)
      modifies this
      ensures id in old(db) ==> db == old(db) - {id} && ok == flushOk
      ensures id !in old(db) ==> db == old(db) && !ok
      ensures old(Valid()) ==> Valid()
      ensures DeleteMeets(old(db), db, id, ok)
    {
      if id !in db {
        return false;
      }
      db := db - {id};
      ok := SaveAll(flushOk);
    }

    function FindById(id: string): (r: Option<TeachingRequirement>)
      reads this
      ensures FindMeets(db, id, r)
      ensures Valid() && r.Some? ==> r.value.id == id
    {
      if id in db then Some(db[id]) else None
    }

    method FindAll() returns (r: seq<TeachingRequirement>)
      ensures FindAllMeets(db, r)
      ensures |r| == |db|
    {
      r := Maps.ValuesList(db);
    }

    method SaveAll(flushOk: bool) returns (ok: bool)
      ensures ok == flushOk
    {
      ok := flushOk;
    }
  }
}

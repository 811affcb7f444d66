/** dao/TeacherDAO.java: the repository contract every teacher store promises,
    stated over the id-to-teacher map a store represents. Each implementation
    proves its methods meet these predicates. `delete` and `findAll` are used by
    the admin controller though the interface does not declare them; they are
    given the meaning of `deleteById` and `getAll`. */
module TeacherDaoContract {
  import opened Ints
  import opened Wrappers
  import opened Teachers
  import Maps

  /** `save`: on success the teacher is registered under its id and no other
      entry changed. */
  ghost predicate SaveMeets(before: map<int32, Teacher>, after: map<int32, Teacher>,
                            id: int32, t: Teacher, ok: bool)
    ensures SaveMeets(before, after, id, t, ok) && ok ==>
      && FindMeets(after, id, Some(t))
      && forall k :: k in before && k != id ==> k in after && after[k] == before[k]
  {
    ok ==> after == before[id := t]
  }

  /** `update`: succeeds only for an already registered id, which then maps to
      the given teacher. */
  ghost predicate UpdateMeets(before: map<int32, Teacher>, after: map<int32, Teacher>,
                              id: int32, t: Teacher, ok: bool)
    ensures UpdateMeets(before, after, id, t, ok) && ok ==>
      FindMeets(after, id, Some(t)) && after.Keys == before.Keys
  {
    ok ==> id in before && after == before[id := t]
  }

  /** `deleteById` and `delete`: succeed only for a registered id, which is
      then gone. */
  ghost predicate DeleteMeets(before: map<int32, Teacher>, after: map<int32, Teacher>,
                              id: int32, ok: bool)
    ensures DeleteMeets(before, after, id, ok) && ok ==>
      FindMeets(after, id, None) && |after| == |before| - 1
  {
    ok ==> id in before && after == before - {id}
  }

  /** `findById`: the registered teacher with that id, or null. */
  ghost predicate FindMeets(m: map<int32, Teacher>, id: int32, r: Option<Teacher>)
    ensures FindMeets(m, id, r) ==> (r.None? <==> id !in m)
  {
    r == if id in m then Some(m[id]) else None
  }

  /** `getAll` and `findAll`: every registered teacher, once per id. */
  ghost predicate GetAllMeets(m: map<int32, Teacher>, r: seq<Teacher>)
    ensures GetAllMeets(m, r) ==>
      && |r| == |m|
      && (forall i :: 0 <= i < |r| ==> r[i] in m.Values)
      && (forall k :: k in m ==> m[k] in r)
  {
    Maps.ListedEntries(m, r);
    multiset(r) == Maps.Values(m)
  }
}

/** dao/impl/TeacherDAOImpl.java: a teacher store kept as a list. Unlike the
    map-backed store, `save` refuses an id that is already present, so the
    list keeps at most one teacher per id. */
module TeacherListDaoImpl {
  import opened Ints
  import opened Wrappers
  import opened Teachers
  import Maps
  import Contract = TeacherDaoContract
  import Files = FileTeacherDaoImpl

  /** No two teachers of the list share an id. */
  predicate DistinctIds(s: seq<Teacher>)
    reads s
  {
    forall i, j :: 0 <= i < j < |s| ==> s[i].id != s[j].id
  }

  /** The index of the first teacher with the id, if any. */
  function FindIndex(s: seq<Teacher>, id: int32): (r: Option<nat>)
    reads s
    ensures r.Some? ==> r.value < |s| && s[r.value].id == id
    ensures r.Some? ==> forall j :: 0 <= j < r.value ==> s[j].id != id
    ensures r.None? ==> forall j :: 0 <= j < |s| ==> s[j].id != id
    decreases |s|
  {
    if |s| == 0 then None
    else
      var r := FindIndex(s[..|s| - 1], id);
      if r.Some? then r
      else if s[|s| - 1].id == id then Some(|s| - 1)
      else None
  }

  /** `removeIf(t -> t.getId() == id)`: the others, in their order. */
  function WithoutId(s: seq<Teacher>, id: int32): (r: seq<Teacher>)
    reads s
    ensures |r| <= |s|
    decreases |s|
  {
    if |s| == 0 then []
    else
      var t := s[|s| - 1];
      WithoutId(s[..|s| - 1], id) + (if t.id == id then [] else [t])
  }

  /** What `removeIf` keeps: every teacher with another id and none with this
      one; the length drops exactly when some teacher had the id. */
  lemma {:induction false} WithoutIdMembers(s: seq<Teacher>, id: int32)
    ensures forall i :: 0 <= i < |WithoutId(s, id)| ==>
      WithoutId(s, id)[i] in s && WithoutId(s, id)[i].id != id
    ensures forall j :: 0 <= j < |s| && s[j].id != id ==> s[j] in WithoutId(s, id)
    ensures |WithoutId(s, id)| == |s| <==> FindIndex(s, id).None?
    decreases |s|
  {
    if |s| > 0 {
      var init := s[..|s| - 1];
      WithoutIdMembers(init, id);
      assert forall x :: x in init ==> x in s;
      assert forall j :: 0 <= j < |init| ==> s[j] == init[j];
    }
  }

  /** The id-to-teacher map a list represents (the last teacher wins, which
      on a list with distinct ids is the only one). */
  ghost function AsMap(s: seq<Teacher>): (m: map<int32, Teacher>)
    reads s
    decreases |s|
  {
    if |s| == 0 then map[]
    else AsMap(s[..|s| - 1])[s[|s| - 1].id := s[|s| - 1]]
  }

  /** The keys are the ids of the list, and each maps to a teacher of the
      list carrying that id. */
  lemma {:induction false} AsMapKeys(s: seq<Teacher>)
    ensures forall i :: 0 <= i < |s| ==> s[i].id in AsMap(s)
    ensures forall k :: k in AsMap(s) ==> AsMap(s)[k] in s && AsMap(s)[k].id == k
    decreases |s|
  {
    if |s| > 0 {
      var init := s[..|s| - 1];
      AsMapKeys(init);
      assert forall x :: x in init ==> x in s;
      assert forall j :: 0 <= j < |init| ==> s[j] == init[j];
    }
  }

  /** On a list with distinct ids, every teacher is what the map holds for
      its id. */
  lemma {:induction false} AsMapAt(s: seq<Teacher>, i: nat)
    requires DistinctIds(s) && i < |s|
    ensures s[i].id in AsMap(s) && AsMap(s)[s[i].id] == s[i]
    decreases |s|
  {
    if i < |s| - 1 {
      AsMapAt(s[..|s| - 1], i);
    }
  }

  /** `findById` agrees with the represented map. */
  lemma FindIndexAsMap(s: seq<Teacher>, id: int32)
    requires DistinctIds(s)
    ensures FindIndex(s, id).None? <==> id !in AsMap(s)
    ensures FindIndex(s, id).Some? ==> AsMap(s)[id] == s[FindIndex(s, id).value]
  {
    var r := FindIndex(s, id);
    AsMapKeys(s);
    if r.Some? {
      AsMapAt(s, r.value);
    }
  }

  /** Overwriting a slot with a teacher of the same id keeps the ids distinct
      and updates the represented map at that id only. */
  lemma {:induction false} AsMapReplace(s: seq<Teacher>, i: nat, t: Teacher)
    requires DistinctIds(s) && i < |s| && s[i].id == t.id
    ensures DistinctIds(s[i := t])
    ensures AsMap(s[i := t]) == AsMap(s)[t.id := t]
    decreases |s|
  {
    var s' := s[i := t];
    assert forall j :: 0 <= j < |s| ==> s'[j].id == s[j].id;
    var n := |s| - 1;
    if i < n {
      DistinctPrefix(s);
      assert s'[..n] == s[..n][i := t];
      AsMapReplace(s[..n], i, t);
      assert s[n].id != t.id;
    }
  }

  /** Replacing the first teacher with an id: the slot `findById` finds,
      and on distinct ids an update of the represented map at that id. */
  lemma ReplaceFirst(s: seq<Teacher>, i: nat, t: Teacher)
    requires i < |s| && s[i].id == t.id
    requires forall j :: 0 <= j < i ==> s[j].id != t.id
    ensures FindIndex(s, t.id) == Some(i)
    ensures DistinctIds(s) ==>
      && DistinctIds(s[i := t])
      && t.id in AsMap(s)
      && AsMap(s[i := t]) == AsMap(s)[t.id := t]
  {
    if DistinctIds(s) {
      AsMapReplace(s, i, t);
      AsMapAt(s, i);
    }
  }

  /** What `removeIf` does to the list and to the map it represents: the
      length drops exactly when some teacher had the id, that id leaves the
      map, and distinct ids stay distinct. */
  lemma RemoveAll(s: seq<Teacher>, id: int32)
    ensures |WithoutId(s, id)| < |s| <==> FindIndex(s, id).Some?
    ensures FindIndex(s, id).Some? ==> id in AsMap(s)
    ensures AsMap(WithoutId(s, id)) == AsMap(s) - {id}
    ensures DistinctIds(s) ==> DistinctIds(WithoutId(s, id))
  {
    WithoutIdMembers(s, id);
    AsMapKeys(s);
    AsMapWithout(s, id);
    if DistinctIds(s) {
      WithoutIdDistinct(s, id);
    }
  }

  /** `removeIf` followed by a result that is true only when something was
      removed meets the `delete` contract on the represented map. */
  lemma RemoveAllMeets(s: seq<Teacher>, id: int32, ok: bool)
    requires ok ==> FindIndex(s, id).Some?
    ensures DistinctIds(s) ==>
      DistinctIds(WithoutId(s, id)) && Contract.DeleteMeets(AsMap(s), AsMap(WithoutId(s, id)), id, ok)
  {
    RemoveAll(s, id);
  }

  lemma {:induction false} WithoutIdDistinct(s: seq<Teacher>, id: int32)
    requires DistinctIds(s)
    ensures DistinctIds(WithoutId(s, id))
    decreases |s|
  {
    if |s| > 0 {
      var init := s[..|s| - 1];
      WithoutIdDistinct(init, id);
      WithoutIdMembers(init, id);
      var r := WithoutId(init, id);
      forall i | 0 <= i < |r| ensures r[i].id != s[|s| - 1].id {
        var j :| 0 <= j < |init| && init[j] == r[i];
      }
    }
  }

  /** Dropping every teacher with an id removes that key from the
      represented map. */
  lemma {:induction false} AsMapWithout(s: seq<Teacher>, id: int32)
    ensures AsMap(WithoutId(s, id)) == AsMap(s) - {id}
    decreases |s|
  {
    if |s| > 0 {
      var init, t := s[..|s| - 1], s[|s| - 1];
      AsMapWithout(init, id);
      var r, m := WithoutId(s, id), AsMap(init);
      assert AsMap(s) == m[t.id := t];
      if t.id == id {
        assert r == WithoutId(init, id);
        assert m[id := t] - {id} == m - {id};
      } else {
        assert r[..|r| - 1] == WithoutId(init, id);
        assert m[t.id := t] - {id} == (m - {id})[t.id := t];
      }
    }
  }

  lemma LastIdIsNew(s: seq<Teacher>)
    requires DistinctIds(s) && |s| > 0
    ensures s[|s| - 1].id !in AsMap(s[..|s| - 1])
  {
    var init := s[..|s| - 1];
    AsMapKeys(init);
    assert forall j :: 0 <= j < |init| ==> init[j].id != s[|s| - 1].id;
  }

  lemma DistinctPrefix(s: seq<Teacher>)
    requires DistinctIds(s) && |s| > 0
    ensures DistinctIds(s[..|s| - 1])
  {
    var init := s[..|s| - 1];
    assert forall j :: 0 <= j < |init| ==> init[j] == s[j];
  }

  /** On a list with distinct ids, the list holds exactly the map's values. */
  lemma {:induction false} AsMapValues(s: seq<Teacher>)
    requires DistinctIds(s)
    ensures Maps.Values(AsMap(s)) == multiset(s)
    decreases |s|
  {
    if |s| > 0 {
      var init, t := s[..|s| - 1], s[|s| - 1];
      DistinctPrefix(s);
      AsMapValues(init);
      LastIdIsNew(s);
      Maps.ValuesAdd(AsMap(init), t.id, t);
      assert s == init + [t];
    }
  }

  class TeacherDaoImpl {
    var teachers: seq<Teacher>

    /** The object before the constructor's `loadAll` has run; only `Open`
        uses it. */
    constructor Unloaded()
      ensures teachers == []
    {
      teachers := [];
    }

    /** `new TeacherDAOImpl(filePath)`: the constructor runs `loadAll`, whose
        ClassCastException on a stored object that is not a list escapes the
        constructor, so no store is obtained. Otherwise the new store holds
        what `loadAll` read. */
    static method Open(snapshot: Files.Snapshot) returns (r: Outcome<TeacherDaoImpl>)
      requires snapshot.Entries? ==> forall i :: 0 <= i < |snapshot.entries| ==> snapshot.entries[i].TeacherEntry?
      ensures snapshot.NotAList? <==> r.Thrown?
      ensures r.Thrown? ==> r.exception == ClassCast
      ensures r.Normal? ==> fresh(r.value)
      ensures snapshot.NoFile? || snapshot.Unreadable? ==> r.Normal? && r.value.teachers == []
      ensures snapshot.Entries? ==>
        r.Normal? && r.value.teachers == Files.TeacherEntries(snapshot.entries)
    {
      var dao := new TeacherDaoImpl.Unloaded();
      var loaded := dao.LoadAll(snapshot);
      if loaded.Thrown? {
        return Thrown(loaded.exception);
      }
      r := Normal(dao);
    }

    /** Refuses an id that is already present (list unchanged); otherwise
        appends and flushes. */
    method Save(t: Teacher, flushOk: bool) returns (ok: bool)
      modifies this
      ensures FindIndex(old(teachers), t.id).Some? ==> teachers == old(teachers) && !ok
      ensures FindIndex(old(teachers), t.id).None? ==> teachers == old(teachers) + [t] && ok == flushOk
      ensures old(DistinctIds(teachers)) ==> DistinctIds(teachers)
      ensures old(DistinctIds(teachers)) ==>
        Contract.SaveMeets(old(AsMap(teachers)), AsMap(teachers), t.id, t, ok)
    {
      if FindById(t.id).Some? {
        return false;
      }
      teachers := teachers + [t];
      assert teachers[..|teachers| - 1] == old(teachers);
      ok := SaveAll(flushOk);
    }

    /** Replaces, in place, the first teacher with the same id and flushes;
        length and order are kept. No match: false, list unchanged. */
    method Update(t: Teacher, flushOk: bool) returns (ok: bool)
      modifies this
      ensures FindIndex(old(teachers), t.id).None? ==> teachers == old(teachers) && !ok
      ensures FindIndex(old(teachers), t.id).Some? ==>
        teachers == old(teachers)[FindIndex(old(teachers), t.id).value := t] && ok == flushOk
      ensures old(DistinctIds(teachers)) ==> DistinctIds(teachers)
      ensures old(DistinctIds(teachers)) ==>
        Contract.UpdateMeets(old(AsMap(teachers)), AsMap(teachers), t.id, t, ok)
    {
      for i := 0 to |teachers|
        invariant forall j :: 0 <= j < i ==> teachers[j].id != t.id
      {
        if teachers[i].id == t.id {
          ReplaceFirst(teachers, i, t);
          teachers := teachers[i := t];
          ok := SaveAll(flushOk);
          return;
        }
      }
      ok := false;
    }

    /** Removes every teacher with the id, keeping the others in order; fails
        when there was none. */
    method Delete(id: int32, flushOk: bool) returns (ok: bool)
      modifies this
      ensures teachers == WithoutId(old(teachers), id)
      ensures ok == (FindIndex(old(teachers), id).Some? && flushOk)
      ensures old(DistinctIds(teachers)) ==> DistinctIds(teachers)
      ensures old(DistinctIds(teachers)) ==>
        Contract.DeleteMeets(old(AsMap(teachers)), AsMap(teachers), id, ok)
    {
      // `removeIf` reports whether it removed anything; by `RemoveAll` that
      // is whether some teacher had the id.
      var removed := FindIndex(teachers, id).Some?;
      if removed {
        ok := SaveAll(flushOk);
      } else {
        ok := false;
      }
      RemoveAllMeets(teachers, id, ok);
      teachers := WithoutId(teachers, id);
    }

    /** The first teacher with the id, or null. */
    function FindById(id: int32): (r: Option<Teacher>)
      reads this, teachers
      ensures r.Some? ==> r.value in teachers && r.value.id == id
      ensures r.None? <==> forall j :: 0 <= j < |teachers| ==> teachers[j].id != id
      ensures r.Some? ==>
        exists k :: 0 <= k < |teachers| && teachers[k] == r.value &&
                    forall j :: 0 <= j < k ==> teachers[j].id != id
      ensures DistinctIds(teachers) ==> Contract.FindMeets(AsMap(teachers), id, r)
    {
      var i := FindIndex(teachers, id);
      var r := if i.Some? then Some(teachers[i.value]) else None;
      if DistinctIds(teachers) then FindIndexAsMap(teachers, id); r else r
    }

    /** A copy of the list, in order. */
    method FindAll() returns (r: seq<Teacher>)
      ensures r == teachers
      ensures DistinctIds(teachers) ==> Contract.GetAllMeets(AsMap(teachers), r)
    {
      r := teachers;
      if DistinctIds(teachers) {
        AsMapValues(teachers);
      }
    }

    method SaveAll(flushOk: bool) returns (ok: bool)
      ensures ok == flushOk
    {
      ok := flushOk;
    }

    /** A missing file gives an empty list and success; an unreadable one an
        empty list and failure; a stored object that is not a list makes the
        unchecked cast throw, leaving the list as it was. The cast checks no
        element, so the model takes a list whose elements are all teachers. */
    method LoadAll(snapshot: Files.Snapshot) returns (r: Outcome<bool>)
      requires snapshot.Entries? ==> forall i :: 0 <= i < |snapshot.entries| ==> snapshot.entries[i].TeacherEntry?
      modifies this
      ensures snapshot.NoFile? ==> teachers == [] && r == Normal(true)
      ensures snapshot.Unreadable? ==> teachers == [] && r == Normal(false)
      ensures snapshot.NotAList? ==> teachers == old(teachers) && r == Thrown(ClassCast)
      ensures snapshot.Entries? ==>
        && r == Normal(true)
        && teachers == Files.TeacherEntries(snapshot.entries)
        && |teachers| == |snapshot.entries|
        && forall i :: 0 <= i < |teachers| ==> teachers[i] == snapshot.entries[i].teacher
    {
      match snapshot {
        case NoFile =>
          teachers := [];
          r := Normal(true);
        case Unreadable =>
          teachers := [];
          r := Normal(false);
        case NotAList =>
          r := Thrown(ClassCast);
        case Entries(entries) =>
          AllTeacherEntries(entries);
          teachers := Files.TeacherEntries(entries);
          r := Normal(true);
      }
    }
  }

  /** A list made only of Teacher elements passes the Teacher filter whole. */
  lemma {:induction false} AllTeacherEntries(entries: seq<Files.Entry>)
    requires forall i :: 0 <= i < |entries| ==> entries[i].TeacherEntry?
    ensures |Files.TeacherEntries(entries)| == |entries|
    ensures forall i :: 0 <= i < |entries| ==> Files.TeacherEntries(entries)[i] == entries[i].teacher
    decreases |entries|
  {
    if |entries| > 0 {
      var init := entries[..|entries| - 1];
      AllTeacherEntries(init);
      var ts := Files.TeacherEntries(entries);
      assert ts == Files.TeacherEntries(init) + [entries[|entries| - 1].teacher];
      assert forall i :: 0 <= i < |init| ==> ts[i] == Files.TeacherEntries(init)[i];
    }
  }
}

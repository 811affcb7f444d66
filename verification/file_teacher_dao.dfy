/** dao/impl/FileTeacherDAO.java: the teacher store the application wires in.
    A HashMap from id to Teacher, flushed whole to a file after every change.
    The flush is the boolean `flushOk` (did writing the file succeed); the file
    read by `loadAll` is a `Snapshot` of already deserialised objects. */
module FileTeacherDaoImpl {
  import opened Ints
  import opened Wrappers
  import opened Teachers
  import Maps
  import Contract = TeacherDaoContract

  /** One element of the deserialised list. */
  datatype Entry = TeacherEntry(teacher: Teacher) | ForeignEntry | NullEntry

  /** What reading the data file gave. */
  datatype Snapshot =
    | NoFile                          // the file does not exist
    | Unreadable                      // readObject threw IOException or ClassNotFoundException
    | NotAList                        // the stored object is not a List
    | Entries(entries: seq<Entry>)

  function EntryTeachers(e: Entry): seq<Teacher>
  {
    if e.TeacherEntry? then [e.teacher] else []
  }

  /** The first loop of `loadAll`: the Teacher elements in list order; null and
      foreign elements are skipped. */
  function TeacherEntries(entries: seq<Entry>): (ts: seq<Teacher>)
    ensures |ts| <= |entries|
    ensures forall i :: 0 <= i < |ts| ==> TeacherEntry(ts[i]) in entries
    decreases |entries|
  {
    if |entries| == 0 then []
    else
      TeacherEntries(entries[..|entries| - 1]) + EntryTeachers(entries[|entries| - 1])
  }

  /** The filter keeps exactly the Teacher elements. */
  lemma {:induction false} TeacherEntriesMembers(entries: seq<Entry>)
    ensures forall i :: 0 <= i < |TeacherEntries(entries)| ==> TeacherEntry(TeacherEntries(entries)[i]) in entries
    ensures forall j :: 0 <= j < |entries| && entries[j].TeacherEntry? ==> entries[j].teacher in TeacherEntries(entries)
    decreases |entries|
  {
    if |entries| > 0 {
      var init := entries[..|entries| - 1];
      TeacherEntriesMembers(init);
      assert forall j :: 0 <= j < |init| ==> init[j] == entries[j];
    }
  }

  /** The second loop of `loadAll`: each teacher put under its id, id 0
      skipped, a later teacher replacing an earlier one with the same id. */
  function Index(ts: seq<Teacher>): (m: map<int32, Teacher>)
    reads ts
    ensures 0 !in m
    ensures |m| <= |ts|
    decreases |ts|
  {
    if |ts| == 0 then map[]
    else
      var m := Index(ts[..|ts| - 1]);
      var t := ts[|ts| - 1];
      if t.id != 0 then m[t.id := t] else m
  }

  /** The first loop of `loadAll`, which keeps the Teacher elements. */
  method CollectTeachers(entries: seq<Entry>) returns (teacherList: seq<Teacher>)
    ensures teacherList == TeacherEntries(entries)
  {
    teacherList := [];
    for i := 0 to |entries|
      invariant teacherList == TeacherEntries(entries[..i])
    {
      assert entries[..i + 1][..i] == entries[..i];
      if entries[i].TeacherEntry? {
        teacherList := teacherList + [entries[i].teacher];
      }
    }
    assert entries[..|entries|] == entries;
  }

  /** Every key is non-zero and maps to a teacher of the list carrying it. */
  lemma {:induction false} IndexKeys(ts: seq<Teacher>)
    ensures forall k :: k in Index(ts) ==> k != 0 && Index(ts)[k].id == k && Index(ts)[k] in ts
    decreases |ts|
  {
    if |ts| > 0 {
      var init := ts[..|ts| - 1];
      IndexKeys(init);
      assert forall x :: x in init ==> x in ts;
    }
  }

  /** Every non-zero id present in the list is a key of the index. */
  lemma {:induction false} IndexHasEveryId(ts: seq<Teacher>, i: nat)
    requires i < |ts| && ts[i].id != 0
    ensures ts[i].id in Index(ts)
    decreases |ts|
  {
    if i < |ts| - 1 {
      IndexHasEveryId(ts[..|ts| - 1], i);
    }
  }

  /** The last teacher with a given non-zero id is the one the index keeps. */
  lemma {:induction false} IndexLastWins(ts: seq<Teacher>, i: nat)
    requires i < |ts| && ts[i].id != 0
    requires forall j :: i < j < |ts| ==> ts[j].id != ts[i].id
    ensures ts[i].id in Index(ts) && Index(ts)[ts[i].id] == ts[i]
    decreases |ts|
  {
    if i < |ts| - 1 {
      IndexLastWins(ts[..|ts| - 1], i);
    }
  }

  class FileTeacherDao {
    var db: map<int32, Teacher>

    /** Every key maps to a teacher carrying that id. `loadAll`, `save` and
        `update` keep it, but a caller that calls `setId` on a stored teacher
        breaks it, so it is not an object invariant. */
    ghost predicate KeysMatch()
      reads this, db.Values
    {
      forall k :: k in db ==> db[k].id == k
    }

    /** The constructor loads the data file (creating the data directory is
        left out). */
    constructor (snapshot: Snapshot)
      ensures snapshot.Entries? ==> db == Index(TeacherEntries(snapshot.entries))
      ensures !snapshot.Entries? ==> db == map[]
    {
      db := map[];
      new;
      var _ := LoadAll(snapshot);
    }

    /** Puts the teacher under its id, overwriting any teacher already there,
        then flushes; the result is the flush's. */
    method Save(t: Teacher, flushOk: bool) returns (ok: bool)
      modifies this
      ensures db == old(db)[t.id := t]
      ensures ok == flushOk
      ensures Contract.SaveMeets(old(db), db, t.id, t, ok)
    {
      db := db[t.id := t];
      ok := SaveAll(flushOk);
    }

    /** Replaces a registered teacher and flushes; an unknown id fails with the
        map untouched. */
    method Update(t: Teacher, flushOk: bool) returns (ok: bool)
      modifies this
      ensures t.id in old(db) ==> db == old(db)[t.id := t] && ok == flushOk
      ensures t.id !in old(db) ==> db == old(db) && !ok
      ensures Contract.UpdateMeets(old(db), db, t.id, t, ok)
    {
      if t.id in db {
        db := db[t.id := t];
        ok := SaveAll(flushOk);
        return;
      }
      ok := false;
    }

    /** Removes a registered teacher and flushes; an unknown id fails with the
        map untouched. */
    method DeleteById(id: int32, flushOk: bool) returns (ok: bool)
      modifies this
      ensures id in old(db) ==> db == old(db) - {id} && ok == flushOk
      ensures id !in old(db) ==> db == old(db) && !ok
      ensures Contract.DeleteMeets(old(db), db, id, ok)
    {
      if id in db {
        db := db - {id};
        ok := SaveAll(flushOk);
        return;
      }
      ok := false;
    }

    /** Identical to `deleteById`. */
    method Delete(id: int32, flushOk: bool) returns (ok: bool)
      modifies this
      ensures id in old(db) ==> db == old(db) - {id} && ok == flushOk
      ensures id !in old(db) ==> db == old(db) && !ok
      ensures Contract.DeleteMeets(old(db), db, id, ok)
    {
      ok := DeleteById(id, flushOk);
    }

    /** The stored teacher object itself, not a copy, or null. */
    function FindById(id: int32): (r: Option<Teacher>)
      reads this
      ensures Contract.FindMeets(db, id, r)
      ensures r.Some? ==> r.value in db.Values
    {
      if id in db then Some(db[id]) else None
    }

    /** A fresh list of exactly the map's values, in HashMap order. */
    method GetAll() returns (r: seq<Teacher>)
      ensures Contract.GetAllMeets(db, r)
      ensures |r| == |db|
    {
      r := Maps.ValuesList(db);
    }

    method FindAll() returns (r: seq<Teacher>)
      ensures Contract.GetAllMeets(db, r)
      ensures |r| == |db|
    {
      r := GetAll();
    }

    /** Writes the whole map; the result says whether writing succeeded and the
        map is never rolled back. */
    method SaveAll(flushOk: bool) returns (ok: bool)
      ensures ok == flushOk
    {
      ok := flushOk;
    }

    /** Rebuilds the map from the data file. A missing file gives an empty map
        and success; a non-list or an unreadable file gives an empty map and
        failure; a list gives the Index of its Teacher elements and success,
        however many elements were skipped. */
    method LoadAll(snapshot: Snapshot) returns (ok: bool)
      modifies this
      ensures ok <==> snapshot.NoFile? || snapshot.Entries?
      ensures snapshot.Entries? ==> db == Index(TeacherEntries(snapshot.entries))
      ensures !snapshot.Entries? ==> db == map[]
      ensures KeysMatch()
    {
      match snapshot {
        case NoFile =>
          db := map[];
          return true;
        case Unreadable =>
          db := map[];
          return false;
        case NotAList =>
          db := map[];
          return false;
        case Entries(entries) =>
          var teacherList := CollectTeachers(entries);
          db := map[];
          for j := 0 to |teacherList|
            invariant db == Index(teacherList[..j])
          {
            assert teacherList[..j + 1][..j] == teacherList[..j];
            var t := teacherList[j];
            assert Index(teacherList[..j + 1]) ==
              if t.id != 0 then Index(teacherList[..j])[t.id := t] else Index(teacherList[..j]);
            if t.id != 0 {
              db := db[t.id := t];
            }
          }
          assert teacherList[..|teacherList|] == teacherList;
          IndexKeys(teacherList);
          return true;
      }
    }

    /** Parses the decimal id and looks it up; a string `Integer.parseInt`
        rejects gives null. */
    function GetTeacherById(teacherId: string): (r: Option<Teacher>)
      reads this
      ensures ParseInt(teacherId).None? ==> r.None?
      ensures ParseInt(teacherId).Some? ==> Contract.FindMeets(db, ParseInt(teacherId).value, r)
    {
      match ParseInt(teacherId)
      case None => None
      case Some(id) => FindById(id)
    }
  }

  /** Looking a teacher up by the decimal form of its id is looking it up by
      the id. */
  lemma GetTeacherByDecimalId(dao: FileTeacherDao, id: int32)
    ensures dao.GetTeacherById(DecimalString(id)) == dao.FindById(id)
  {
    ParseIntDecimalString(id);
  }
}

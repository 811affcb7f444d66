/** model/FileTeacherDAO.java: an earlier draft of the teacher store that
    keeps the map in a JSON file. Its booleans differ from the other stores:
    `save` always reports true, and `loadAll` only says whether the map is
    non-empty. A failed write is not a false result: `saveToFile` throws. */
module GsonTeacherDao {
  import opened Ints
  import opened Wrappers
  import opened Teachers
  import Maps
  import Contract = TeacherDaoContract

  /** What `saveToFile` throws when writing the file fails. */
  const SaveFailure := Runtime("保存 teachers.json 文件时出错。")

  /** The outcome of a call that returns `result` after flushing. */
  function AfterFlush(flushOk: bool, result: bool): (r: Outcome<bool>)
    ensures r.Normal? <==> flushOk
    ensures r.Normal? ==> r.value == result
  {
    if flushOk then Normal(result) else Thrown(SaveFailure)
  }

  class FileTeacherDao {
    var db: map<int32, Teacher>

    /** `loaded` is what Gson read from the file; a JSON null gives an empty
        map. Creating the directory and the file is left out. */
    constructor (loaded: Option<map<int32, Teacher>>)
      ensures db == if loaded.Some? then loaded.value else map[]
    {
      db := if loaded.Some? then loaded.value else map[];
    }

    /** Overwrites any teacher with that id; true unless the write throws. */
    method Save(t: Teacher, flushOk: bool) returns (r: Outcome<bool>)
      modifies this
      ensures db == old(db)[t.id := t]
      ensures r == AfterFlush(flushOk, true)
      ensures r.Normal? ==> Contract.SaveMeets(old(db), db, t.id, t, r.value)
    {
      db := db[t.id := t];
      r := SaveToFile(flushOk, true);
    }

    /** True exactly when the id was registered, after replacing it. */
    method Update(t: Teacher, flushOk: bool) returns (r: Outcome<bool>)
      modifies this
      ensures t.id in old(db) ==> db == old(db)[t.id := t] && r == AfterFlush(flushOk, true)
      ensures t.id !in old(db) ==> db == old(db) && r == Normal(false)
      ensures r.Normal? ==> Contract.UpdateMeets(old(db), db, t.id, t, r.value)
    {
      if t.id in db {
        db := db[t.id := t];
        r := SaveToFile(flushOk, true);
        return;
      }
      r := Normal(false);
    }

    /** True exactly when the id was registered and is now removed. */
    method DeleteById(id: int32, flushOk: bool) returns (r: Outcome<bool>)
      modifies this
      ensures id in old(db) ==> db == old(db) - {id} && r == AfterFlush(flushOk, true)
      ensures id !in old(db) ==> db == old(db) && r == Normal(false)
      ensures r.Normal? ==> Contract.DeleteMeets(old(db), db, id, r.value)
    {
      if id in db {
        db := db - {id};
        r := SaveToFile(flushOk, true);
        return;
      }
      r := Normal(false);
    }

    function FindById(id: int32): (r: Option<Teacher>)
      reads this
      ensures Contract.FindMeets(db, id, r)
    {
      if id in db then Some(db[id]) else None
    }

    /** An empty list for an empty map, otherwise every value. */
    method GetAll() returns (r: seq<Teacher>)
      ensures Contract.GetAllMeets(db, r)
      ensures r == [] <==> db == map[]
    {
      if db == map[] {
        r := [];
        return;
      }
      r := Maps.ValuesList(db);
    }

    /** Rewrites the file; true unless the write throws. */
    method SaveAll(flushOk: bool) returns (r: Outcome<bool>)
      ensures r == AfterFlush(flushOk, true)
    {
      r := SaveToFile(flushOk, true);
    }

    /** Does not read the file again: reports whether the map holds anything. */
    function LoadAll(): (loaded: bool)
      reads this
      ensures loaded <==> exists k :: k in db
    {
      db != map[]
    }

    function GetTeacherById(teacherId: string): (r: Option<Teacher>)
      reads this
      ensures ParseInt(teacherId).None? ==> r.None?
      ensures ParseInt(teacherId).Some? ==> Contract.FindMeets(db, ParseInt(teacherId).value, r)
    {
      match ParseInt(teacherId)
      case None => None
      case Some(id) => FindById(id)
    }

    /** `saveToFile` followed by `return result`. */
    method SaveToFile(flushOk: bool, result: bool) returns (r: Outcome<bool>)
      ensures r == AfterFlush(flushOk, result)
    {
      if !flushOk {
        return Thrown(SaveFailure);
      }
      r := Normal(result);
    }
  }

  /** Looking a teacher up by the decimal form of its id is looking it up by
      the id. */
  lemma GetTeacherByDecimalId(dao: FileTeacherDao, id: int32)
    ensures dao.GetTeacherById(DecimalString(id)) == dao.FindById(id)
  {
    ParseIntDecimalString(id);
  }
}

/** dao/FileTrainingSessionDAO.java: an in-memory map from session id to
    session. Despite the name nothing is written to a file; a missing id makes
    `update` and `delete` throw NoSuchElementException. */
module TrainingSessionDao {
  import opened Wrappers
  import opened Sessions
  import Maps

  const NotFound := NoSuchElement("Training session not found.")

  class FileTrainingSessionDao {
    var db: map<string, TrainingSession>

    /** Every key is the id of the session stored under it. Session ids never
        change, so every operation keeps this. */
    predicate Valid()
      reads this
    {
      forall k :: k in db ==> db[k].id == k
    }

    constructor ()
      ensures db == map[] && Valid()
    {
      db := map[];
    }

    /** Puts the session under its id, overwriting any session already there. */
    method AddTrainingSession(session: TrainingSession)
      modifies this
      ensures db == old(db)[session.id := session]
      ensures old(Valid()) ==> Valid()
    {
      db := db[session.id := session];
    }

    /** The stored session, or null. */
    function GetTrainingSessionById(id: string): (r: Option<TrainingSession>)
      reads this
      ensures r.Some? <==> id in db
      ensures r.Some? ==> r.value == db[id]
      ensures Valid() && r.Some? ==> r.value.id == id
    {
      if id in db then Some(db[id]) else None
    }

    /** A fresh list of exactly the map's values. */
    method GetAllTrainingSessions() returns (r: seq<TrainingSession>)
      ensures multiset(r) == Maps.Values(db)
      ensures |r| == |db|
    {
      r := Maps.ValuesList(db);
    }

    /** Replaces a stored session; an unknown id throws with the map untouched. */
    method UpdateTrainingSession(session: TrainingSession) returns (r: Outcome<()>)
      modifies this
      ensures session.id in old(db) ==> db == old(db)[session.id := session] && r == Normal(())
      ensures session.id !in old(db) ==> db == old(db) && r == Thrown(NotFound)
      ensures old(Valid()) ==> Valid()
    {
      if session.id in db {
        db := db[session.id := session];
        return Normal(());
      }
      return Thrown(NotFound);
    }

    /** Removes a stored session; an unknown id throws with the map untouched. */
    method DeleteTrainingSession(id: string) returns (r: Outcome<()>)
      modifies this
      ensures id in old(db) ==> db == old(db) - {id} && r == Normal(())
      ensures id !in old(db) ==> db == old(db) && r == Thrown(NotFound)
      ensures old(Valid()) ==> Valid()
    {
      if id !in db {
        return Thrown(NotFound);
      }
      db := db - {id};
      r := Normal(());
    }
  }
}

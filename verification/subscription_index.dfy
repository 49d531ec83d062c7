/** The persisted list of mailbox users (dmsg/service/mailbox/service.go): what saving and loading do to the
    database and to the map of users, and how the two agree. Writes to the database succeed. */
module SubscriptionIndex {
  import opened GoTypes

  type Db = map<Bytes, Bytes>

  function On(): Bytes { Ascii("1") }
  function Off(): Bytes { Ascii("0") }

  function Marked(db: Db): set<Bytes> {
    set k | k in db && db[k] == On()
  }

  /** Every user is marked, every other recorded key is cleared, and none is dropped. */
  function Saved(db: Db, users: set<Bytes>): Db {
    map k | k in db.Keys + users :: if k in users then On() else Off()
  }

  /** The records other than those still to do say who is a user. */
  predicate Settled(db: Db, todo: set<Bytes>, users: set<Bytes>) {
    forall k | k in db && k !in todo :: db[k] == if k in users then On() else Off()
  }

  lemma SettledNew(db: Db, k: Bytes, users: set<Bytes>)
    requires Settled(db, {}, users) && k in users
    ensures Settled(db[k := On()], {}, users)
  {
  }

  lemma SavedIs(db: Db, users: set<Bytes>, db': Db)
    requires Settled(db', {}, users) && db'.Keys == db.Keys + users
    ensures db' == Saved(db, users)
  {
  }

  /** The database once the list of an older version has been taken over. */
  function Imported(db: Db, legacy: seq<Bytes>): Db {
    db + map k | k in legacy :: On()
  }

  lemma ImportedNone(db: Db)
    ensures Imported(db, []) == db
  {
  }

  lemma ImportedSnoc(db: Db, legacy: seq<Bytes>, k: Bytes)
    ensures Imported(db, legacy + [k]) == Imported(db, legacy)[k := On()]
  {
  }

  /** Users after a load; `failing` are those whose subscription fails. */
  function Loaded(db: Db, users: set<Bytes>, failing: set<Bytes>): set<Bytes> {
    users + (Marked(db) - failing)
  }

  /** After a save, whatever the database was, the marked keys are the users; loading into an empty service
      gives them back, and saving again changes nothing. */
  lemma SaveLoad(db: Db, users: set<Bytes>)
    ensures Marked(Saved(db, users)) == users
    ensures Loaded(Saved(db, users), {}, {}) == users
    ensures Saved(Saved(db, users), users) == Saved(db, users)
  {
    assert On()[0] != Off()[0];
  }

  /** A save keeps every record, marks the users with "1" and all others with "0". */
  lemma SavedExactly(db: Db, users: set<Bytes>, k: Bytes)
    ensures k in Saved(db, users) <==> k in db || k in users
    ensures k in users ==> Saved(db, users)[k] == Ascii("1")
    ensures k in db && k !in users ==> Saved(db, users)[k] == Ascii("0")
  {
  }

  /** The list of an older version marks its users with "1" and leaves the other records alone. */
  lemma ImportedExactly(db: Db, legacy: seq<Bytes>, k: Bytes)
    ensures k in Imported(db, legacy) <==> k in db || k in legacy
    ensures k in legacy ==> Imported(db, legacy)[k] == Ascii("1")
    ensures k in db && k !in legacy ==> Imported(db, legacy)[k] == db[k]
  {
  }

  /** A service restarted from what it saved loses exactly the users whose subscription fails, and the next save
      records that. */
  lemma Restart(db: Db, users: set<Bytes>, failing: set<Bytes>)
    ensures Loaded(Saved(db, users), {}, failing) == users - failing
    ensures Marked(Saved(Saved(db, users), users - failing)) == users - failing
  {
    SaveLoad(db, users);
    SaveLoad(Saved(db, users), users - failing);
  }

  /** The list of an older version is added to what the database has: its users come up beside those saved. */
  lemma ImportedUsers(db: Db, users: set<Bytes>, legacy: seq<Bytes>)
    ensures Loaded(Imported(Saved(db, users), legacy), {}, {}) == users + set k | k in legacy
  {
    SaveLoad(db, users);
    var d := Imported(Saved(db, users), legacy);
    forall k
      ensures k in Marked(d) <==> k in users || k in legacy
    {
      if k in legacy {
        assert d[k] == On();
      } else if k in d {
        assert d[k] == Saved(db, users)[k];
      }
    }
  }
}

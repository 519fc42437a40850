/** lib/db/db.js: the credential records of directory users, read and
    written through the store of lib/db/memory.js. The backend is chosen by
    configuration; this model uses the in-memory one. */
module Db {
  import opened Common
  import opened Memory

  const TableUserCredentials: string := "user_credentials"

  /** The record returned for a user without a stored one. Its id field is
      named `userid`, unlike the `uid` of stored records. */
  function DefaultRecord(uid: string): (r: Record)
    ensures r.Keys == {"userid", "password"}
    ensures r["userid"] == Text(uid) && r["password"] == Null
    ensures !Truthy(r, "password")
  {
    map["userid" := Text(uid), "password" := Null]
  }

  /** The record `getDBRecordForUserId(uid)` gives over `rows`. */
  function RecordFor(rows: map<string, Record>, uid: string): (r: Record)
    ensures uid in rows ==> r == rows[uid]
    ensures uid !in rows ==> r == DefaultRecord(uid)
  {
    match Row(rows, uid)
    case Some(rec) => rec
    case None => DefaultRecord(uid)
  }

  /** The table after `saveDBRecordForUserId(uid, data)`: an update of the
      record at `uid` when there is one, otherwise an insert of `{uid}`
      followed by the fields of `data`. */
  function Saved(rows: map<string, Record>, uid: string, data: Record): (r: map<string, Record>)
    ensures uid in rows ==> r == Updated(rows, data, uid)
    ensures uid !in rows ==> r == Inserted(rows, Assign(map["uid" := Text(uid)], data))
  {
    if uid in rows then Updated(rows, data, uid)
    else Inserted(rows, Assign(map["uid" := Text(uid)], data))
  }

  /** `getDBRecordForUserId(uid)`. */
  method GetDBRecordForUserId(t: Table, uid: string) returns (r: Record)
    ensures r == RecordFor(t.rows, uid)
  {
    var record := t.DbSelect(uid);
    if record.Some? {
      return record.value;
    }
    return DefaultRecord(uid);
  }

  /** `saveDBRecordForUserId(uid, data)`. */
  method SaveDBRecordForUserId(t: Table, uid: string, data: Record)
    modifies t
    ensures t.rows == Saved(old(t.rows), uid, data)
  {
    var record := t.DbSelect(uid);
    if record.Some? {
      t.DbUpdate(data, uid);
    } else {
      t.DbInsert(Assign(map["uid" := Text(uid)], data));
    }
  }

  /** After a save, reading the user's record back gives every field that
      was saved and keeps the fields the save did not name. `data` must not
      carry a different `uid`, which would send an insert elsewhere. */
  lemma SaveThenGet(rows: map<string, Record>, uid: string, data: Record)
    requires "uid" in data ==> data["uid"] == Text(uid)
    ensures forall f :: f in data ==> f in RecordFor(Saved(rows, uid, data), uid) && RecordFor(Saved(rows, uid, data), uid)[f] == data[f]
    ensures uid in rows ==> forall f :: f in rows[uid] && f !in data ==>
              f in RecordFor(Saved(rows, uid, data), uid) && RecordFor(Saved(rows, uid, data), uid)[f] == rows[uid][f]
    ensures uid !in rows ==> RecordFor(Saved(rows, uid, data), uid)["uid"] == Text(uid)
  {
    if uid !in rows {
      var params := Assign(map["uid" := Text(uid)], data);
      assert UidKey(params) == uid;
    }
  }

  /** A save touches no other user's record. */
  lemma SaveKeepsOthers(rows: map<string, Record>, uid: string, data: Record, other: string)
    requires "uid" in data ==> data["uid"] == Text(uid)
    requires other != uid
    ensures RecordFor(Saved(rows, uid, data), other) == RecordFor(rows, other)
  {
    if uid !in rows {
      var params := Assign(map["uid" := Text(uid)], data);
      assert UidKey(params) == uid;
    }
  }

  /** A `data` that names another uid is stored under that uid when the user
      has no record yet, and the user still reads back the default. */
  lemma SaveElsewhere(rows: map<string, Record>, uid: string, data: Record, other: string)
    requires uid !in rows && other != uid
    requires "uid" in data && data["uid"] == Text(other)
    ensures other in Saved(rows, uid, data)
    ensures RecordFor(Saved(rows, uid, data), uid) == DefaultRecord(uid)
  {
    var params := Assign(map["uid" := Text(uid)], data);
    assert UidKey(params) == other;
  }
}

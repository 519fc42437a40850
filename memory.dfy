/** lib/db/memory.js: the in-memory credential store, a table from user id
    to record object. Reads hand out the stored record itself; an update
    stores a new object holding the old fields with the new ones laid over
    them; an insert stores the given object.

    The functions as written name their first parameter `table`, which
    hides the module's map, and the credential code passes them the table
    name. The store is modelled as intended, over the module's map (class
    `Table`); what the code does as written is modelled beside it
    (`ShadowedRead`, `ShadowedGet`, `ShadowedForgets`). */
module Memory {
  import opened Common

  /** A field of a stored record: a string, or JavaScript `null`. */
  datatype Field = Null | Text(s: string)

  /** A record object: its fields by name. */
  type Record = map<string, Field>

  /** A field is truthy unless it is missing, `null` or the empty string. */
  predicate Truthy(r: Record, field: string)
  {
    field in r && r[field].Text? && r[field].s != ""
  }

  /** `Object.assign({}, base, params)`: every field of `params`, and the
      fields of `base` that `params` does not name. */
  function Assign(base: Record, params: Record): (r: Record)
    ensures r.Keys == base.Keys + params.Keys
    ensures forall k :: k in params ==> r[k] == params[k]
    ensures forall k :: k in base && k !in params ==> r[k] == base[k]
  {
    base + params
  }

  /** The property key `table[params.uid]` uses: the uid string, or the
      text JavaScript converts `null` and `undefined` to. */
  function UidKey(params: Record): (r: string)
    ensures "uid" in params && params["uid"].Text? ==> r == params["uid"].s
    ensures "uid" !in params ==> r == "undefined"
  {
    if "uid" !in params then "undefined"
    else match params["uid"]
      case Null => "null"
      case Text(s) => s
  }

  /** The record stored under `uid`, if any. */
  function Row(rows: map<string, Record>, uid: string): (r: Option<Record>)
    ensures r.Some? <==> uid in rows
    ensures r.Some? ==> r.value == rows[uid]
  {
    if uid in rows then Some(rows[uid]) else None
  }

  /** The table after `dbUpdate(table, params, { uid })`: the record at
      `uid` (or an empty one) with `params` laid over it; no other key
      changes. */
  function Updated(rows: map<string, Record>, params: Record, uid: string): (r: map<string, Record>)
    ensures r.Keys == rows.Keys + {uid}
    ensures forall k :: k in rows && k != uid ==> r[k] == rows[k]
    ensures forall f :: f in params ==> f in r[uid] && r[uid][f] == params[f]
    ensures uid in rows ==> forall f :: f in rows[uid] && f !in params ==> f in r[uid] && r[uid][f] == rows[uid][f]
    ensures uid !in rows ==> r[uid] == params
  {
    var before := if uid in rows then rows[uid] else map[];
    assert uid !in rows ==> Assign(before, params) == params by {
      if uid !in rows {
        MapsEqual(Assign(before, params), params);
      }
    }
    rows[uid := Assign(before, params)]
  }

  /** The table after `dbInsert(table, params)`: `params` itself is the
      record at `params.uid`; no other key changes. */
  function Inserted(rows: map<string, Record>, params: Record): (r: map<string, Record>)
    ensures r.Keys == rows.Keys + {UidKey(params)}
    ensures r[UidKey(params)] == params
    ensures forall k :: k in rows && k != UidKey(params) ==> r[k] == rows[k]
  {
    rows[UidKey(params) := params]
  }

  /** Updating twice with the same fields is updating once. */
  lemma UpdateIdempotent(rows: map<string, Record>, params: Record, uid: string)
    ensures Updated(Updated(rows, params, uid), params, uid) == Updated(rows, params, uid)
  {
    var once := Updated(rows, params, uid);
    var twice := Updated(once, params, uid);
    MapsEqual(twice[uid], once[uid]);
    MapsEqual(twice, once);
  }

  /** The module's table, as memory.js means it to be used. */
  class Table {
    var rows: map<string, Record>

    /** `const table = {}`. */
    constructor ()
      ensures rows == map[]
    {
      rows := map[];
    }

    /** `dbSelect(table, { uid })`: the one-element list holding the record
        at `uid`, absent (`undefined`) when there is none. */
    method DbSelect(uid: string) returns (r: Option<Record>)
      ensures r.Some? <==> uid in rows
      ensures r.Some? ==> r.value == rows[uid]
    {
      r := Row(rows, uid);
    }

    /** `dbUpdate(table, params, { uid })`. */
    method DbUpdate(params: Record, uid: string)
      modifies this
      ensures rows == Updated(old(rows), params, uid)
    {
      var before := if uid in rows then rows[uid] else map[];
      rows := rows[uid := Assign(before, params)];
    }

    /** `dbInsert(table, params)`. */
    method DbInsert(params: Record)
      modifies this
      ensures rows == Inserted(old(rows), params)
    {
      rows := rows[UidKey(params) := params];
    }
  }

  // ---------------------------------------------------------------------------
  // As written: the table argument is the table-name string

  /** A JavaScript value a property read can yield here. */
  datatype JsValue = Undefined | Character(s: string) | Number(n: nat) | Object(rec: Record)

  /** The index below `len` that `key` writes in decimal, if any. */
  function IndexKey(len: nat, key: string): (r: Option<nat>)
    ensures r.Some? ==> r.value < len && Decimal(r.value) == key
    ensures r.None? ==> forall n :: 0 <= n < len ==> Decimal(n) != key
  {
    if len == 0 then None
    else if Decimal(len - 1) == key then Some(len - 1)
    else IndexKey(len - 1, key)
  }

  /** The keys a string answers itself: its indices, written in decimal,
      and `length`. */
  predicate OwnKey(name: string, key: string)
  {
    key == "length" || IndexKey(|name|, key).Some?
  }

  /** `name[key]` on a string: the character at an index, the length, or
      undefined. It is never a record object. */
  function ShadowedRead(name: string, key: string): (r: JsValue)
    ensures !r.Object?
    ensures r.Undefined? <==> !OwnKey(name, key)
  {
    if key == "length" then Number(|name|)
    else match IndexKey(|name|, key)
      case Some(n) => Character([name[n]])
      case None => Undefined
  }

  /** `getDBRecordForUserId(uid)` as written: the value read off the table
      name when it is truthy, otherwise the fresh default record. Writes
      through the parameter go to the string and are dropped, so the
      module's map plays no part. */
  function ShadowedGet(name: string, uid: string): (r: JsValue)
    ensures !OwnKey(name, uid) ==> r == Object(map["userid" := Text(uid), "password" := Null])
    ensures OwnKey(name, uid) && name != "" ==> !r.Object?
  {
    match ShadowedRead(name, uid)
    case Undefined => Object(map["userid" := Text(uid), "password" := Null])
    case Character(s) => if s == "" then Object(map["userid" := Text(uid), "password" := Null]) else Character(s)
    case Number(n) => if n == 0 then Object(map["userid" := Text(uid), "password" := Null]) else Number(n)
    case Object(rec) => Object(rec)
  }

  /** The store forgets: whatever was saved, reading back the credentials of
      `alice` gives a record whose password is null, so a password set
      through the directory never takes effect with this backend. */
  lemma ShadowedForgets()
    ensures ShadowedGet("user_credentials", "alice") == Object(map["userid" := Text("alice"), "password" := Null])
  {
    assert !OwnKey("user_credentials", "alice") by {
      forall n | 0 <= n < 16 ensures Decimal(n) != "alice" {
        assert |Decimal(n)| <= 2;
        if n < 10 {
          assert Decimal(n)[0] == "0123456789"[n];
        } else {
          assert Decimal(n)[0] == Decimal(n / 10)[0] == "0123456789"[n / 10];
        }
      }
    }
  }
}

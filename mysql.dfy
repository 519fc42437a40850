/** lib/db/mysql.js: the MySQL backend of the credential store. The model
    covers the SQL text and parameter lists each operation builds and the
    once-only pool creation; running a query is the database driver's
    business and is a parameter here. */
module MySql {
  import opened Common
  import opened Memory
  import Db

  /** An object's own properties in `Object.keys` order. */
  type Fields = seq<(string, Field)>

  /** A parameterised statement: its text and the values bound to its `?`
      placeholders, in order. */
  datatype Query = Query(sql: string, values: seq<Field>)

  /** `Object.keys(params)`. */
  function Keys(ps: Fields): (r: seq<string>)
    ensures |r| == |ps|
    ensures forall i :: 0 <= i < |ps| ==> r[i] == ps[i].0
  {
    seq(|ps|, i requires 0 <= i < |ps| => ps[i].0)
  }

  /** `fields.map(k => params[k])`. */
  function ValuesOf(ps: Fields): (r: seq<Field>)
    ensures |r| == |ps|
    ensures forall i :: 0 <= i < |ps| ==> r[i] == ps[i].1
  {
    seq(|ps|, i requires 0 <= i < |ps| => ps[i].1)
  }

  /** `fields.map(k => `${k}=?`)`. */
  function Bindings(keys: seq<string>): (r: seq<string>)
    ensures |r| == |keys|
    ensures forall i :: 0 <= i < |keys| ==> r[i] == keys[i] + "=?"
  {
    seq(|keys|, i requires 0 <= i < |keys| => keys[i] + "=?")
  }

  /** `fields.map(k => '?')`. */
  function Marks(n: nat): (r: seq<string>)
    ensures |r| == n
    ensures forall i :: 0 <= i < n ==> r[i] == "?"
  {
    seq(n, i => "?")
  }

  /** A name that can be spliced into a statement without adding a
      placeholder. */
  predicate Plain(name: string)
  {
    '?' !in name
  }

  predicate PlainKeys(ps: Fields)
  {
    forall i :: 0 <= i < |ps| ==> Plain(ps[i].0)
  }

  // ---------------------------------------------------------------------------
  // Counting placeholders

  /** The number of occurrences of `c` in `s`. */
  function Count(s: string, c: char): nat
    decreases |s|
  {
    if |s| == 0 then 0 else (if s[0] == c then 1 else 0) + Count(s[1..], c)
  }

  lemma {:induction false} CountConcat(a: string, b: string, c: char)
    ensures Count(a + b, c) == Count(a, c) + Count(b, c)
    decreases |a|
  {
    if |a| > 0 {
      assert (a + b)[0] == a[0] && (a + b)[1..] == a[1..] + b;
      CountConcat(a[1..], b, c);
    } else {
      assert a + b == b;
    }
  }

  lemma {:induction false} CountAbsent(s: string, c: char)
    requires c !in s
    ensures Count(s, c) == 0
    decreases |s|
  {
    if |s| > 0 {
      assert c !in s[1..];
      CountAbsent(s[1..], c);
    }
  }

  /** Joining pieces that hold one `c` each with a separator free of `c`
      gives as many `c` as there are pieces. */
  lemma {:induction false} CountJoin(parts: seq<string>, sep: string, c: char)
    requires c !in sep
    requires forall i :: 0 <= i < |parts| ==> Count(parts[i], c) == 1
    ensures Count(Join(parts, sep), c) == |parts|
    decreases |parts|
  {
    if |parts| == 1 {
    } else if |parts| > 1 {
      CountJoin(parts[1..], sep, c);
      CountAbsent(sep, c);
      CountConcat(parts[0] + sep, Join(parts[1..], sep), c);
      CountConcat(parts[0], sep, c);
    }
  }

  /** Each binding of a plain key holds one placeholder. */
  lemma BindingsCount(ps: Fields)
    requires PlainKeys(ps)
    ensures Count(Join(Bindings(Keys(ps)), " AND "), '?') == |ps|
    ensures Count(Join(Bindings(Keys(ps)), ", "), '?') == |ps|
  {
    var b := Bindings(Keys(ps));
    forall i | 0 <= i < |b| ensures Count(b[i], '?') == 1 {
      CountAbsent(ps[i].0, '?');
      CountConcat(ps[i].0, "=?", '?');
    }
    CountJoin(b, " AND ", '?');
    CountJoin(b, ", ", '?');
  }

  // ---------------------------------------------------------------------------
  // Statements

  /** `dbSelect(table, params)`: `SELECT * FROM <table> WHERE k1=? AND ...`
      with the values in key order. */
  function SelectQuery(table: string, params: Fields): Query
  {
    Query("SELECT * FROM " + table + " WHERE " + Join(Bindings(Keys(params)), " AND "), ValuesOf(params))
  }

  /** ` WHERE c1=? AND ...` for the update and delete statements. */
  function WhereClause(conditions: Fields): string
  {
    " WHERE " + Join(Bindings(Keys(conditions)), " AND ")
  }

  /** `dbUpdate(table, params, conditions)`: the SET bindings, then the
      WHERE clause when conditions are given; the SET values come first,
      then the condition values. */
  function UpdateQuery(table: string, params: Fields, conditions: Option<Fields>): (q: Query)
    ensures conditions.None? ==> q.values == ValuesOf(params)
    ensures conditions.Some? ==> q.values == ValuesOf(params) + ValuesOf(conditions.value)
    ensures q.values[..|params|] == ValuesOf(params)
  {
    var set_ := "UPDATE " + table + " SET " + Join(Bindings(Keys(params)), ", ") + " ";
    match conditions
    case None => Query(set_, ValuesOf(params))
    case Some(cs) => Query(set_ + WhereClause(cs), ValuesOf(params) + ValuesOf(cs))
  }

  /** `dbInsert(table, params)`: the column list and a `?` per column. */
  function InsertQuery(table: string, params: Fields): (q: Query)
    ensures q.values == ValuesOf(params)
  {
    Query("INSERT INTO " + table + " (" + Join(Keys(params), ", ") + ") VALUES (" + Join(Marks(|params|), ", ") + ")",
          ValuesOf(params))
  }

  /** The select statement has one placeholder per value. */
  lemma SelectInStep(table: string, params: Fields)
    requires Plain(table) && PlainKeys(params)
    ensures Count(SelectQuery(table, params).sql, '?') == |SelectQuery(table, params).values|
  {
    BindingsCount(params);
    CountAbsent("SELECT * FROM " + table + " WHERE ", '?');
    CountConcat("SELECT * FROM " + table + " WHERE ", Join(Bindings(Keys(params)), " AND "), '?');
  }

  /** The update statement has one placeholder per value, with or without
      conditions. */
  lemma UpdateInStep(table: string, params: Fields, conditions: Option<Fields>)
    requires Plain(table) && PlainKeys(params)
    requires conditions.Some? ==> PlainKeys(conditions.value)
    ensures Count(UpdateQuery(table, params, conditions).sql, '?') == |UpdateQuery(table, params, conditions).values|
  {
    var head := "UPDATE " + table + " SET ";
    var sets := Join(Bindings(Keys(params)), ", ");
    BindingsCount(params);
    CountAbsent(head, '?');
    CountAbsent(" ", '?');
    CountConcat(head, sets, '?');
    CountConcat(head + sets, " ", '?');
    if conditions.Some? {
      var cs := conditions.value;
      BindingsCount(cs);
      CountAbsent(" WHERE ", '?');
      CountConcat(" WHERE ", Join(Bindings(Keys(cs)), " AND "), '?');
      CountConcat(head + sets + " ", WhereClause(cs), '?');
    }
  }

  /** The insert statement has one placeholder per value, and its columns
      are the keys in the order of the values. */
  lemma InsertInStep(table: string, params: Fields)
    requires Plain(table) && PlainKeys(params)
    ensures Count(InsertQuery(table, params).sql, '?') == |InsertQuery(table, params).values|
  {
    var pre := "INSERT INTO " + table + " (" + Join(Keys(params), ", ") + ") VALUES (";
    var marks := Join(Marks(|params|), ", ");
    InsertColumnsCount(table, params);
    CountAbsent(")", '?');
    MarksCount(|params|);
    CountConcat(pre, marks, '?');
    CountConcat(pre + marks, ")", '?');
    assert InsertQuery(table, params).sql == pre + marks + ")";
  }

  /** The part of an insert statement before its `?` list holds no
      placeholder. */
  lemma InsertColumnsCount(table: string, params: Fields)
    requires Plain(table) && PlainKeys(params)
    ensures Count("INSERT INTO " + table + " (" + Join(Keys(params), ", ") + ") VALUES (", '?') == 0
  {
    var head := "INSERT INTO " + table + " (";
    var cols := Join(Keys(params), ", ");
    KeysJoinPlain(params);
    CountAbsent(head, '?');
    CountAbsent(") VALUES (", '?');
    CountConcat(head, cols, '?');
    CountConcat(head + cols, ") VALUES (", '?');
  }

  /** The `?` list of an insert holds one placeholder per column. */
  lemma MarksCount(n: nat)
    ensures Count(Join(Marks(n), ", "), '?') == n
  {
    forall i | 0 <= i < n ensures Count(Marks(n)[i], '?') == 1 {
      assert Marks(n)[i] == "?";
    }
    CountJoin(Marks(n), ", ", '?');
  }

  /** Plain keys joined with a plain separator hold no placeholder. */
  lemma {:induction false} KeysJoinPlain(ps: Fields)
    requires PlainKeys(ps)
    ensures Count(Join(Keys(ps), ", "), '?') == 0
    decreases |ps|
  {
    if |ps| == 1 {
      CountAbsent(ps[0].0, '?');
    } else if |ps| > 1 {
      KeysJoinPlain(ps[1..]);
      assert Keys(ps)[1..] == Keys(ps[1..]);
      CountAbsent(ps[0].0 + ", ", '?');
      CountConcat(ps[0].0 + ", ", Join(Keys(ps[1..]), ", "), '?');
    }
  }

  // ---------------------------------------------------------------------------
  // The statements of saveDBRecordForUserId

  /** No key occurs twice, as in any object. */
  predicate DistinctKeys(ps: Fields)
  {
    forall i, j :: 0 <= i < j < |ps| ==> ps[i].0 != ps[j].0
  }

  /** Setting one property: a key already present takes the new value in
      its place, a new key goes last. */
  function Put(ps: Fields, k: string, v: Field): (r: Fields)
    decreases |ps|
  {
    if ps == [] then [(k, v)]
    else if ps[0].0 == k then [(k, v)] + ps[1..]
    else [ps[0]] + Put(ps[1..], k, v)
  }

  /** `Object.assign(ps, more)` on key lists: the properties of `more` set
      one after the other. */
  function AssignFields(ps: Fields, more: Fields): Fields
    decreases |more|
  {
    if more == [] then ps else AssignFields(Put(ps, more[0].0, more[0].1), more[1..])
  }

  /** A new key is appended. */
  lemma {:induction false} PutAbsent(ps: Fields, k: string, v: Field)
    requires k !in Keys(ps)
    ensures Put(ps, k, v) == ps + [(k, v)]
    decreases |ps|
  {
    if ps != [] {
      assert Keys(ps[1..]) == Keys(ps)[1..];
      PutAbsent(ps[1..], k, v);
    }
  }

  /** Assigning properties none of which is present appends them in order. */
  lemma {:induction false} AssignAppends(ps: Fields, more: Fields)
    requires DistinctKeys(more)
    requires forall i :: 0 <= i < |more| ==> more[i].0 !in Keys(ps)
    ensures AssignFields(ps, more) == ps + more
    decreases |more|
  {
    if more != [] {
      PutAbsent(ps, more[0].0, more[0].1);
      var next := ps + [more[0]];
      assert Keys(next) == Keys(ps) + [more[0].0];
      assert forall i :: 0 <= i < |more[1..]| ==> more[1..][i].0 !in Keys(next) by {
        forall i | 0 <= i < |more[1..]| ensures more[1..][i].0 !in Keys(next) {
          assert more[1..][i] == more[i + 1];
        }
      }
      AssignAppends(next, more[1..]);
      assert next + more[1..] == ps + more;
    }
  }

  /** The statement `saveDBRecordForUserId(uid, data)` issues after its
      select: an update of the row when one was found, otherwise an insert
      of `Object.assign({uid}, data)`. */
  function SaveStatement(uid: string, data: Fields, found: bool): Query
  {
    if found then UpdateQuery(Db.TableUserCredentials, data, Some([("uid", Text(uid))]))
    else InsertQuery(Db.TableUserCredentials, AssignFields([("uid", Text(uid))], data))
  }

  /** For data with plain, distinct keys other than `uid`: the update binds
      the data values and then the uid, the insert binds the uid and then
      the data values under the columns `uid` and the data keys; either
      way with one placeholder per value. */
  lemma SaveStatementBinds(uid: string, data: Fields, found: bool)
    requires PlainKeys(data) && DistinctKeys(data) && "uid" !in Keys(data)
    ensures found ==> SaveStatement(uid, data, found).values == ValuesOf(data) + [Text(uid)]
    ensures !found ==>
              && SaveStatement(uid, data, found) == InsertQuery(Db.TableUserCredentials, [("uid", Text(uid))] + data)
              && SaveStatement(uid, data, found).values == [Text(uid)] + ValuesOf(data)
    ensures Count(SaveStatement(uid, data, found).sql, '?') == |SaveStatement(uid, data, found).values|
  {
    var key := [("uid", Text(uid))];
    if found {
      assert ValuesOf(key) == [Text(uid)];
      UpdateInStep(Db.TableUserCredentials, data, Some(key));
    } else {
      AssignAppends(key, data);
      var all := key + data;
      assert ValuesOf(all) == [Text(uid)] + ValuesOf(data);
      assert PlainKeys(all) by {
        assert forall i :: 1 <= i < |all| ==> all[i] == data[i - 1];
      }
      InsertInStep(Db.TableUserCredentials, all);
    }
  }

  // ---------------------------------------------------------------------------
  // dbDelete

  /** `dbDelete(table, conditions)` as written: with conditions it reads
      the undefined name `fields` and throws (None); without, it deletes
      every row, binding nothing. */
  function DeleteAsWritten(table: string, conditions: Option<Fields>): (r: Option<Query>)
    ensures conditions.Some? <==> r.None?
    ensures conditions.None? ==> r == Some(Query("DELETE FROM " + table + " ", []))
  {
    match conditions
    case Some(_) => None
    case None => Some(Query("DELETE FROM " + table + " ", []))
  }

  /** A delete of one user's row throws instead of deleting it. */
  lemma DeleteOneUserThrows(uid: string)
    ensures DeleteAsWritten("user_credentials", Some([("uid", Text(uid))])).None?
  {
  }

  /** `dbDelete` as evidently meant: the condition values are read from
      the condition keys, as in `dbUpdate`. */
  function DeleteQuery(table: string, conditions: Option<Fields>): (q: Query)
    ensures conditions.None? ==> q == Query("DELETE FROM " + table + " ", [])
    ensures conditions.Some? ==> q.values == ValuesOf(conditions.value)
  {
    match conditions
    case None => Query("DELETE FROM " + table + " ", [])
    case Some(cs) => Query("DELETE FROM " + table + " " + WhereClause(cs), ValuesOf(cs))
  }

  /** The corrected delete has one placeholder per value, and agrees with
      the code as written wherever that does not throw. */
  lemma DeleteInStep(table: string, conditions: Option<Fields>)
    requires Plain(table)
    requires conditions.Some? ==> PlainKeys(conditions.value)
    ensures Count(DeleteQuery(table, conditions).sql, '?') == |DeleteQuery(table, conditions).values|
    ensures DeleteAsWritten(table, conditions).Some? ==> DeleteAsWritten(table, conditions).value == DeleteQuery(table, conditions)
  {
    var head := "DELETE FROM " + table + " ";
    CountAbsent(head, '?');
    if conditions.Some? {
      var cs := conditions.value;
      BindingsCount(cs);
      CountAbsent(" WHERE ", '?');
      CountConcat(" WHERE ", Join(Bindings(Keys(cs)), " AND "), '?');
      CountConcat(head, WhereClause(cs), '?');
    }
  }

  // ---------------------------------------------------------------------------
  // connect and dbQuery

  /** The module state of mysql.js: the connection flag and the pool, built
      from the database configuration without its `type` key. */
  class Connection {
    const config: map<string, string>
    var dbConnected: bool
    var dbPool: Option<map<string, string>>
    ghost var poolsCreated: nat

    ghost predicate Valid()
      reads this
    {
      && poolsCreated == (if dbConnected then 1 else 0)
      && (dbConnected <==> dbPool.Some?)
      && (dbPool.Some? ==> dbPool.value == config - {"type"})
    }

    constructor (config: map<string, string>)
      ensures Valid() && !dbConnected && this.config == config
    {
      this.config := config;
      dbConnected := false;
      dbPool := None;
      poolsCreated := 0;
    }

    /** `connect()`: creates the pool on the first call only. */
    method Connect()
      requires Valid()
      modifies this
      ensures Valid() && dbConnected && poolsCreated == 1
      ensures old(dbConnected) ==> dbPool == old(dbPool)
    {
      if !dbConnected {
        dbPool := Some(config - {"type"});
        poolsCreated := poolsCreated + 1;
        dbConnected := true;
      }
    }

    /** `dbQuery(sql, params)`: connect, then run the statement on the pool;
        `run` stands for the driver. */
    method DbQuery(q: Query, run: Query -> seq<Record>) returns (rows: seq<Record>)
      requires Valid()
      modifies this
      ensures Valid() && dbConnected && poolsCreated == 1
      ensures rows == run(q)
    {
      Connect();
      rows := run(q);
    }
  }
}

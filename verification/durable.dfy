/**
 * The Postgres side (src/storage.py:86-234): two tables that may or may not exist yet,
 * with the key constraints of their DDL, and the calls that create and fill them.
 * Every call swallows its database errors, so a failing statement leaves the tables as they were.
 */
module Durable {
  import opened Common
  import opened Json
  import opened Normalize

  /** A row of `users`: the nine user columns and the insertion time `ts`. */
  datatype UserRow = UserRow(user: User, ts: int)

  /** A row of `users_address`: the seven address columns and `ts`. */
  datatype AddressRow = AddressRow(address: Address, ts: int)

  /** Both tables, keyed by `uid`; `None` while a table has not been created. */
  datatype Db = Db(users: Option<map<Value, UserRow>>, addresses: Option<map<Value, AddressRow>>)

  /** The effect of one storage call and the flag it returns to the loop. */
  datatype Call = Call(db: Db, reported: bool)

  /**
   * What the DDL guarantees of every reachable state: `uid` is a non-null primary key
   * of both tables, and every address references an existing user.
   */
  predicate Valid(db: Db)
  {
    && (db.users.Some? ==>
          forall k :: k in db.users.value ==> k != Null && db.users.value[k].user.uid == k)
    && (db.addresses.Some? ==>
          && db.users.Some?
          && forall k :: k in db.addresses.value ==> k in db.users.value && db.addresses.value[k].address.uid == k)
  }

  /** Append-only growth: a table never disappears, and no row is ever changed or removed. */
  predicate Extends(db: Db, db': Db)
  {
    && (db.users.Some? ==>
          && db'.users.Some?
          && forall k :: k in db.users.value ==> k in db'.users.value && db'.users.value[k] == db.users.value[k])
    && (db.addresses.Some? ==>
          && db'.addresses.Some?
          && forall k :: k in db.addresses.value ==> k in db'.addresses.value && db'.addresses.value[k] == db.addresses.value[k])
  }

  /** `check_table_exists`: the catalogue lookup, or `False` when the database cannot be reached. */
  function CheckTableExists(db: Db, name: string, up: bool): (r: bool)
    ensures r ==> up
    ensures up && name == "users" ==> (r <==> db.users.Some?)
    ensures up && name == "users_address" ==> (r <==> db.addresses.Some?)
  {
    if !up then false
    else if name == "users" then db.users.Some?
    else if name == "users_address" then db.addresses.Some?
    else false
  }

  /** `create_user_table`: `CREATE TABLE IF NOT EXISTS users`, reporting `True` whatever happened. */
  function CreateUserTable(db: Db, up: bool): (r: Call)
    ensures r.reported
    ensures r.db.addresses == db.addresses
    ensures r.db.users.Some? <==> db.users.Some? || up
    ensures db.users.None? && r.db.users.Some? ==> r.db.users.value == map[]
    ensures Extends(db, r.db) && (Valid(db) ==> Valid(r.db))
  {
    Call(if up && db.users.None? then db.(users := Some(map[])) else db, true)
  }

  /**
   * `create_address_table`: `CREATE TABLE IF NOT EXISTS users_address`. Its foreign key
   * names `users`, so the statement fails (and is swallowed) while `users` is missing.
   */
  function CreateAddressTable(db: Db, up: bool): (r: Call)
    ensures r.reported
    ensures r.db.users == db.users
    ensures r.db.addresses.Some? <==> db.addresses.Some? || (up && db.users.Some?)
    ensures db.addresses.None? && r.db.addresses.Some? ==> r.db.addresses.value == map[]
    ensures Extends(db, r.db) && (Valid(db) ==> Valid(r.db))
  {
    Call(if up && db.addresses.None? && db.users.Some? then db.(addresses := Some(map[])) else db, true)
  }

  /** The columns `insert_into_user_table` reads from its dict; `None` for the KeyError a missing one raises. */
  function UserFromRecord(d: Record): (r: Option<User>)
    ensures r.Some? <==> UserKeys <= d.Keys
  {
    if UserKeys <= d.Keys then
      Some(User(d["uid"], d["password"], d["first_name"], d["last_name"], d["username"],
                d["email"], d["phone_number"], d["social_insurance_number"], d["date_of_birth"]))
    else None
  }

  /** The columns `insert_into_address_table` reads from its dict. */
  function AddressFromRecord(d: Record): (r: Option<Address>)
    ensures r.Some? <==> AddressKeys <= d.Keys
  {
    if AddressKeys <= d.Keys then
      Some(Address(d["uid"], d["city"], d["street_name"], d["street_address"], d["zip_code"],
                   d["state"], d["country"]))
    else None
  }

  /** The dict the normaliser builds for a user carries exactly the user back to the insert. */
  lemma UserRecordRoundTrip(u: User)
    ensures UserFromRecord(u.AsRecord()) == Some(u)
  {
  }

  /** Likewise for an address. */
  lemma AddressRecordRoundTrip(a: Address)
    ensures AddressFromRecord(a.AsRecord()) == Some(a)
  {
  }

  /**
   * `insert_into_user_table`: the row lands, stamped `now`, only if the database is up,
   * the table exists, every column is in the dict and the primary key is non-null and
   * new; otherwise nothing changes. It reports `True` in every case.
   */
  function InsertUser(db: Db, d: Record, now: int, up: bool): (r: Call)
    ensures r.reported
    ensures r.db.addresses == db.addresses
    ensures r.db != db <==>
      up && db.users.Some? && UserKeys <= d.Keys && d["uid"] != Null && d["uid"] !in db.users.value
    ensures r.db != db ==>
      r.db.users == Some(db.users.value[d["uid"] := UserRow(UserFromRecord(d).value, now)])
    ensures Extends(db, r.db) && (Valid(db) ==> Valid(r.db))
  {
    match UserFromRecord(d)
    case None => Call(db, true)
    case Some(u) =>
      if up && db.users.Some? && u.uid != Null && u.uid !in db.users.value then
        Call(db.(users := Some(db.users.value[u.uid := UserRow(u, now)])), true)
      else Call(db, true)
  }

  /**
   * `insert_into_address_table`: as for users, and in addition the foreign key demands
   * that `users` holds the uid.
   */
  function InsertAddress(db: Db, d: Record, now: int, up: bool): (r: Call)
    ensures r.reported
    ensures r.db.users == db.users
    ensures r.db != db <==>
      && up && db.addresses.Some? && AddressKeys <= d.Keys && d["uid"] != Null
      && db.users.Some? && d["uid"] in db.users.value && d["uid"] !in db.addresses.value
    ensures r.db != db ==>
      r.db.addresses == Some(db.addresses.value[d["uid"] := AddressRow(AddressFromRecord(d).value, now)])
    ensures Extends(db, r.db) && (Valid(db) ==> Valid(r.db))
  {
    match AddressFromRecord(d)
    case None => Call(db, true)
    case Some(a) =>
      if up && db.addresses.Some? && a.uid != Null && db.users.Some? && a.uid in db.users.value
         && a.uid !in db.addresses.value then
        Call(db.(addresses := Some(db.addresses.value[a.uid := AddressRow(a, now)])), true)
      else Call(db, true)
  }

  /** Creating a table twice is the same as creating it once. */
  lemma CreateTablesIdempotent(db: Db, up: bool)
    ensures CreateUserTable(CreateUserTable(db, up).db, up) == CreateUserTable(db, up)
    ensures CreateAddressTable(CreateAddressTable(db, up).db, up) == CreateAddressTable(db, up)
  {
  }

  /** Re-ingesting a user is a no-op: the primary key rejects the second insert, whatever its time. */
  lemma DuplicateUserInsertIsNoOp(db: Db, d: Record, now: int, later: int, up: bool)
    ensures var once := InsertUser(db, d, now, up).db;
      InsertUser(once, d, later, up).db == once
  {
  }

  /** The dict names a non-null `uid` and every column of a user row. */
  predicate UserRecordComplete(d: Record)
  {
    UserKeys <= d.Keys && d["uid"] != Null
  }

  /** The dict names a non-null `uid` and every column of an address row. */
  predicate AddressRecordComplete(d: Record)
  {
    AddressKeys <= d.Keys && d["uid"] != Null
  }

  /**
   * The loop at src/main.py:108-110: every user is inserted in turn, whatever happened
   * to the ones before it.
   */
  function InsertUsers(db: Db, rs: seq<Record>, now: int, up: bool): (r: Db)
    ensures r.addresses == db.addresses
    ensures r.users.Some? <==> db.users.Some?
    ensures Extends(db, r) && (Valid(db) ==> Valid(r))
    ensures up && db.users.Some? ==>
      forall i :: 0 <= i < |rs| && UserRecordComplete(rs[i]) ==> rs[i]["uid"] in r.users.value
    ensures db.users.Some? ==>
      forall k :: k in r.users.value && k !in db.users.value ==>
        r.users.value[k].ts == now && exists i :: 0 <= i < |rs| && UserFromRecord(rs[i]) == Some(r.users.value[k].user)
    decreases |rs|
  {
    if |rs| == 0 then db
    else
      var init := rs[..|rs| - 1];
      assert forall i :: 0 <= i < |init| ==> init[i] == rs[i];
      InsertUser(InsertUsers(db, init, now, up), rs[|rs| - 1], now, up).db
  }

  /** The loop at src/main.py:112-114, run after every user insert of the cycle. */
  function InsertAddresses(db: Db, rs: seq<Record>, now: int, up: bool): (r: Db)
    ensures r.users == db.users
    ensures r.addresses.Some? <==> db.addresses.Some?
    ensures Extends(db, r) && (Valid(db) ==> Valid(r))
    ensures up && db.addresses.Some? && db.users.Some? ==>
      forall i :: 0 <= i < |rs| && AddressRecordComplete(rs[i]) && rs[i]["uid"] in db.users.value ==>
        rs[i]["uid"] in r.addresses.value
    ensures db.addresses.Some? ==>
      forall k :: k in r.addresses.value && k !in db.addresses.value ==>
        r.addresses.value[k].ts == now && exists i :: 0 <= i < |rs| && AddressFromRecord(rs[i]) == Some(r.addresses.value[k].address)
    decreases |rs|
  {
    if |rs| == 0 then db
    else
      var init := rs[..|rs| - 1];
      assert forall i :: 0 <= i < |init| ==> init[i] == rs[i];
      InsertAddress(InsertAddresses(db, init, now, up), rs[|rs| - 1], now, up).db
  }

  /** Within one batch the first complete record of a new uid is the one stored; later ones hit the primary key. */
  lemma {:induction false} FirstUserInsertWins(db: Db, rs: seq<Record>, now: int, up: bool, i: nat)
    requires Valid(db) && up && db.users.Some?
    requires i < |rs| && UserRecordComplete(rs[i]) && rs[i]["uid"] !in db.users.value
    requires forall j :: 0 <= j < i && UserRecordComplete(rs[j]) ==> rs[j]["uid"] != rs[i]["uid"]
    ensures var r := InsertUsers(db, rs, now, up);
      r.users.Some? && rs[i]["uid"] in r.users.value
      && r.users.value[rs[i]["uid"]] == UserRow(UserFromRecord(rs[i]).value, now)
    decreases |rs|
  {
    var init := rs[..|rs| - 1];
    if i < |rs| - 1 {
      assert init[i] == rs[i];
      assert forall j :: 0 <= j < i ==> init[j] == rs[j];
      FirstUserInsertWins(db, init, now, up, i);
    } else {
      var before := InsertUsers(db, init, now, up);
      var k := rs[i]["uid"];
      assert forall j :: 0 <= j < |init| && UserFromRecord(init[j]).Some? ==> UserFromRecord(init[j]).value.uid != k by {
        forall j | 0 <= j < |init| && UserFromRecord(init[j]).Some?
          ensures UserFromRecord(init[j]).value.uid != k
        {
          assert init[j] == rs[j];
        }
      }
      assert Valid(before);
      assert k !in before.users.value;
    }
  }

  /** Append-only growth composes. */
  lemma ExtendsTransitive(a: Db, b: Db, c: Db)
    requires Extends(a, b) && Extends(b, c)
    ensures Extends(a, c)
  {
  }
}

/**
 * One iteration of the ingestion loop (src/main.py:90-118) as a transition on both
 * stores. The clock, the anonymiser, `str` on numbers, the fetched batch and whether
 * each backend answers are inputs.
 */
module Sync {
  import opened Common
  import opened Json
  import opened Normalize
  import Cache
  import opened Durable
  import opened Backends

  /** Everything one iteration takes from outside. */
  datatype Env = Env(
    now: int,                    // wall-clock seconds, for the TTL and for `ts`
    hashPii: Value -> string,    // the anonymiser
    show: Value -> string,       // `str` on numbers, lists and dicts
    cacheUp: bool,               // whether Redis answers
    dbUp: bool)                  // whether Postgres answers

  /** How the iteration ended: nothing fetched, an error caught by the top-level handler, or all steps run. */
  datatype Status = NoData | Crashed | Completed(processed: nat)

  datatype Step = Step(stores: Stores, status: Status)

  /**
   * The dicts handed to the stores. Users and addresses get one function each, rather than
   * one generic function over a lambda, so that two calls on equal lists are equal by
   * definition wherever a lemma compares the records of two passes.
   */
  function UserRecords(users: seq<User>): (rs: seq<Record>)
    ensures |rs| == |users| && forall i :: 0 <= i < |users| ==> rs[i] == users[i].AsRecord()
  {
    seq(|users|, i requires 0 <= i < |users| => users[i].AsRecord())
  }

  /** The address dicts handed to the stores, as `UserRecords` does for users. */
  function AddressRecords(addresses: seq<Address>): (rs: seq<Record>)
    ensures |rs| == |addresses| && forall i :: 0 <= i < |addresses| ==> rs[i] == addresses[i].AsRecord()
  {
    seq(|addresses|, i requires 0 <= i < |addresses| => addresses[i].AsRecord())
  }

  /**
   * src/main.py:102-106: when either table is reported missing, both creations are
   * attempted, users first; otherwise the schema is left alone.
   */
  function EnsureSchema(db: Db, up: bool): (r: Db)
    ensures CheckTableExists(db, "users", up) && CheckTableExists(db, "users_address", up) ==> r == db
    ensures up ==> r.users.Some? && r.addresses.Some?
    ensures Extends(db, r) && (Valid(db) ==> Valid(r))
  {
    if !CheckTableExists(db, "users", up) || !CheckTableExists(db, "users_address", up) then
      CreateAddressTable(CreateUserTable(db, up).db, up).db
    else db
  }

  /**
   * The durable half of the iteration (src/main.py:102-114): ensure the schema, insert
   * every user, then every address.
   */
  function Persist(db: Db, userRecords: seq<Record>, addressRecords: seq<Record>, now: int, up: bool): (r: Db)
    ensures Extends(db, r) && (Valid(db) ==> Valid(r))
    ensures up ==> r.users.Some? && r.addresses.Some?
  {
    var db1 := EnsureSchema(db, up);
    var db2 := InsertUsers(db1, userRecords, now, up);
    var db3 := InsertAddresses(db2, addressRecords, now, up);
    ExtendsTransitive(db, db1, db2);
    ExtendsTransitive(db, db2, db3);
    db3
  }

  /**
   * With Postgres up, a user dict and an address dict of the same non-null uid end up as
   * rows of both tables: users are inserted before addresses, so the foreign key is met.
   */
  lemma PersistStoresMatchingPair(db: Db, userRecords: seq<Record>, addressRecords: seq<Record>, now: int, j: nat, l: nat)
    requires Valid(db)
    requires j < |userRecords| && UserRecordComplete(userRecords[j])
    requires l < |addressRecords| && AddressRecordComplete(addressRecords[l])
    requires userRecords[j]["uid"] == addressRecords[l]["uid"]
    ensures var r := Persist(db, userRecords, addressRecords, now, true);
      && r.users.Some? && userRecords[j]["uid"] in r.users.value
      && r.addresses.Some? && userRecords[j]["uid"] in r.addresses.value
  {
    var db1 := EnsureSchema(db, true);
    var db2 := InsertUsers(db1, userRecords, now, true);
    assert userRecords[j]["uid"] in db2.users.value;
  }

  /** Ensuring the schema a second time changes nothing. */
  lemma EnsureSchemaIdempotent(db: Db, up: bool)
    ensures EnsureSchema(EnsureSchema(db, up), up) == EnsureSchema(db, up)
  {
  }

  /**
   * One pass of the loop body. An empty batch stops before anything else; an uncaught
   * error in either extraction or in the cache write ends the iteration where it was
   * raised; otherwise the schema is ensured, every user is inserted and then every address.
   */
  function RunCycle(s: Stores, batch: seq<Value>, env: Env): (r: Step)
    ensures |batch| == 0 ==> r == Step(s, NoData)
    ensures r.status.Crashed? ==> r.stores.db == s.db
    ensures Extends(s.db, r.stores.db) && (Valid(s.db) ==> Valid(r.stores.db))
    ensures Cache.Shaped(s.cache) ==> Cache.Shaped(r.stores.cache)
  {
    if |batch| == 0 then Step(s, NoData)
    else
      match ExtractUsers(batch, env.hashPii)
      case Aborted => Step(s, Crashed)
      case Extracted(users) =>
        match ExtractAddresses(batch, env.show)
        case Aborted => Step(s, Crashed)
        case Extracted(addresses) =>
          var userRecords := UserRecords(users);
          var addressRecords := AddressRecords(addresses);
          var written := Cache.AddUsersToRedis(s.cache, userRecords, addressRecords, env.now, env.cacheUp);
          if written.raised then Step(Stores(written.store, s.db), Crashed)
          else
            var db := Persist(s.db, userRecords, addressRecords, env.now, env.dbUp);
            Step(Stores(written.store, db), Completed(|users|))
  }

  /** An uncaught error in either extraction leaves both stores exactly as they were. */
  lemma AbortingRecordLeavesStoresUnchanged(s: Stores, batch: seq<Value>, env: Env, i: nat)
    requires i < |batch|
    requires UserOf(batch[i], env.hashPii).Abort? || AddressOf(batch[i], env.show).Abort?
    ensures RunCycle(s, batch, env) == Step(s, Crashed)
  {
  }

  /**
   * With Redis down, the first cache write raises and the iteration ends before any
   * Postgres call: nothing reaches the durable store.
   */
  lemma CacheOutageSkipsDurableWrites(s: Stores, batch: seq<Value>, env: Env)
    requires !env.cacheUp
    requires ExtractUsers(batch, env.hashPii).Extracted? && ExtractAddresses(batch, env.show).Extracted?
    requires |ExtractUsers(batch, env.hashPii).items| > 0 && |ExtractAddresses(batch, env.show).items| > 0
    ensures RunCycle(s, batch, env) == Step(s, Crashed)
  {
  }

  /**
   * With both backends up and no record aborting either pass, the iteration completes,
   * and a record that yields both a user and an address with a non-null uid has both
   * rows in Postgres afterwards: users are inserted before addresses, so the foreign
   * key of the address is met.
   */
  lemma CompletedCycleStoresRecord(s: Stores, batch: seq<Value>, env: Env, i: nat)
    requires Valid(s.db) && env.cacheUp && env.dbUp
    requires i < |batch|
    requires UserOf(batch[i], env.hashPii).Keep? && AddressOf(batch[i], env.show).Keep?
    requires RawUid(batch[i]) != Null
    requires ExtractUsers(batch, env.hashPii).Extracted? && ExtractAddresses(batch, env.show).Extracted?
    ensures RunCycle(s, batch, env).status.Completed?
    ensures var db := RunCycle(s, batch, env).stores.db;
      && db.users.Some? && RawUid(batch[i]) in db.users.value
      && db.addresses.Some? && RawUid(batch[i]) in db.addresses.value
  {
    CompletedCycleRunsPersist(s, batch, env);
    var users := ExtractUsers(batch, env.hashPii).items;
    var addresses := ExtractAddresses(batch, env.show).items;
    var j, l := KeptRecordPositions(batch, env, i);
    PersistStoresMatchingPair(s.db, UserRecords(users), AddressRecords(addresses), env.now, j, l);
  }

  /** With Redis up and both passes clean, the iteration completes and leaves in Postgres what `Persist` makes of the extracted dicts. */
  lemma CompletedCycleRunsPersist(s: Stores, batch: seq<Value>, env: Env)
    requires |batch| > 0 && env.cacheUp
    requires ExtractUsers(batch, env.hashPii).Extracted? && ExtractAddresses(batch, env.show).Extracted?
    ensures RunCycle(s, batch, env).status.Completed?
    ensures RunCycle(s, batch, env).stores.db ==
      Persist(s.db, UserRecords(ExtractUsers(batch, env.hashPii).items),
              AddressRecords(ExtractAddresses(batch, env.show).items), env.now, env.dbUp)
  {
  }

  /** Where a record that yields both a user and an address sits in the two extracted dict lists. */
  lemma KeptRecordPositions(batch: seq<Value>, env: Env, i: nat) returns (j: nat, l: nat)
    requires i < |batch|
    requires UserOf(batch[i], env.hashPii).Keep? && AddressOf(batch[i], env.show).Keep?
    requires RawUid(batch[i]) != Null
    requires ExtractUsers(batch, env.hashPii).Extracted? && ExtractAddresses(batch, env.show).Extracted?
    ensures var userRecords := UserRecords(ExtractUsers(batch, env.hashPii).items);
      var addressRecords := AddressRecords(ExtractAddresses(batch, env.show).items);
      && j < |userRecords| && UserRecordComplete(userRecords[j])
      && l < |addressRecords| && AddressRecordComplete(addressRecords[l])
      && userRecords[j]["uid"] == RawUid(batch[i]) == addressRecords[l]["uid"]
  {
    var users := ExtractUsers(batch, env.hashPii).items;
    var addresses := ExtractAddresses(batch, env.show).items;
    var user := UserOf(batch[i], env.hashPii).value;
    var address := AddressOf(batch[i], env.show).value;
    assert user in users;
    assert address in addresses;
    j :| 0 <= j < |users| && users[j] == user;
    l :| 0 <= l < |addresses| && addresses[l] == address;
    assert UserRecords(users)[j] == user.AsRecord();
    assert AddressRecords(addresses)[l] == address.AsRecord();
  }

  /**
   * The cache pairs the two lists by position, not by uid: when a nameless record comes
   * first, the next record's user is cached with the nameless record's address.
   */
  lemma CacheZipsByPosition(s: Stores, r: Value, t: Value, env: Env)
    requires Cache.Shaped(s.cache) && env.cacheUp
    requires HasUid(r) && "name" !in r.fields && AddressOf(r, env.show).Keep?
    requires UserOf(t, env.hashPii).Keep? && AddressOf(t, env.show).Keep?
    ensures var c := RunCycle(s, [r, t], env).stores.cache;
      var u := UserOf(t, env.hashPii).value;
      && RawUid(t) in c
      && c[RawUid(t)].fields == Cache.Flatten(u.AsRecord(), AddressOf(r, env.show).value.AsRecord())
  {
    var u := UserOf(t, env.hashPii).value;
    var ar, at := AddressOf(r, env.show).value, AddressOf(t, env.show).value;
    NamelessFirstUsers(r, t, env);
    NamelessFirstAddresses(r, t, env);
    CycleWritesCache(s, [r, t], env);
    Cache.OnlyPairWritten(s.cache, UserRecords([u]), AddressRecords([ar, at]), env.now);
  }

  /** The user pass over a nameless record followed by a complete one keeps only the second. */
  lemma NamelessFirstUsers(r: Value, t: Value, env: Env)
    requires HasUid(r) && "name" !in r.fields
    requires UserOf(t, env.hashPii).Keep?
    ensures ExtractUsers([r, t], env.hashPii) == Extracted([UserOf(t, env.hashPii).value])
  {
    assert [r] + [t] == [r, t];
    ExtractAllAppend([r], [t], x => UserOf(x, env.hashPii));
  }

  /** The address pass over the same two records keeps both, in order. */
  lemma NamelessFirstAddresses(r: Value, t: Value, env: Env)
    requires AddressOf(r, env.show).Keep? && AddressOf(t, env.show).Keep?
    ensures ExtractAddresses([r, t], env.show) ==
      Extracted([AddressOf(r, env.show).value, AddressOf(t, env.show).value])
  {
    assert [r] + [t] == [r, t];
    ExtractAllAppend([r], [t], x => AddressOf(x, env.show));
  }

  /** When both passes succeed, the iteration leaves in Redis what the cache write makes of their dicts. */
  lemma CycleWritesCache(s: Stores, batch: seq<Value>, env: Env)
    requires |batch| > 0
    requires ExtractUsers(batch, env.hashPii).Extracted? && ExtractAddresses(batch, env.show).Extracted?
    ensures RunCycle(s, batch, env).stores.cache ==
      Cache.AddUsersToRedis(s.cache, UserRecords(ExtractUsers(batch, env.hashPii).items),
                            AddressRecords(ExtractAddresses(batch, env.show).items), env.now, env.cacheUp).store
  {
  }
}

/**
 * The read gateway (src/api.py:39-94): a point read that tries Redis first and falls
 * back to a join in Postgres, and a listing served by Postgres alone. Both take the
 * stores as values and return only a reply, so neither can change either store.
 */
module Gateway {
  import opened Common
  import opened Json
  import opened Normalize
  import opened Cache
  import opened Durable
  import opened Backends

  /** What `get_user` answers. */
  datatype Reply =
    | CacheHit(fields: Hash)             // the Redis hash, returned as is
    | Rows(rows: seq<seq<Value>>)        // `fetchall()` of the join
    | DbMessage                          // `{"message": str(e)}` for a Postgres error
    | Raised                             // the Redis error, propagated out of the handler

  /** The columns the fallback selects, in order: `users.uid`, then the other cache fields except `password`. */
  const JoinFields: seq<Field> :=
    [FirstName, LastName, Username, Email, PhoneNumber, SocialInsuranceNumber, DateOfBirth,
     City, StreetName, StreetAddress, ZipCode, State, Country]

  /** One row of the join, in the order of the SELECT list. */
  function JoinRow(u: User, a: Address): (row: seq<Value>)
    ensures |row| == 1 + |JoinFields| == 14
    ensures row[0] == u.uid && row[1..8] == [u.firstName, u.lastName, u.username, u.email, u.phoneNumber, u.socialInsuranceNumber, u.dateOfBirth]
  {
    [u.uid, u.firstName, u.lastName, u.username, u.email, u.phoneNumber,
     u.socialInsuranceNumber, u.dateOfBirth,
     a.city, a.streetName, a.streetAddress, a.zipCode, a.state, a.country]
  }

  /** `users JOIN users_address ON uid WHERE users.uid = id`: both rows or nothing. */
  function JoinRows(users: map<Value, UserRow>, addresses: map<Value, AddressRow>, id: Value): (rows: seq<seq<Value>>)
    ensures |rows| <= 1
    ensures |rows| == 1 <==> id in users && id in addresses
    ensures |rows| == 1 ==> rows[0] == JoinRow(users[id].user, addresses[id].address)
  {
    if id in users && id in addresses then [JoinRow(users[id].user, addresses[id].address)] else []
  }

  /** The `try` block of `get_user`: the join, or a message when Postgres fails (a missing table included). */
  function DurableLookup(db: Db, userId: string, dbUp: bool): (r: Reply)
    ensures r.DbMessage? <==> !dbUp || db.users.None? || db.addresses.None?
    ensures r.Rows? ==> r.rows == JoinRows(db.users.value, db.addresses.value, Str(userId))
    ensures Valid(db) && r.Rows? ==> forall row :: row in r.rows ==> row[0] == Str(userId)
  {
    if !dbUp || db.users.None? || db.addresses.None? then DbMessage
    else Rows(JoinRows(db.users.value, db.addresses.value, Str(userId)))
  }

  /**
   * The durable partner of the cache round trip: once a user dict and an address dict of a
   * new uid have both been inserted, the fallback lookup of that uid returns exactly the
   * row built from them.
   */
  lemma DurableRoundTrip(db: Db, ud: Record, uad: Record, now: int, userId: string)
    requires Valid(db) && db.users.Some? && db.addresses.Some?
    requires UserKeys <= ud.Keys && AddressKeys <= uad.Keys
    requires ud["uid"] == Str(userId) && uad["uid"] == Str(userId) && Str(userId) !in db.users.value
    ensures var db' := InsertAddress(InsertUser(db, ud, now, true).db, uad, now, true).db;
      DurableLookup(db', userId, true) == Rows([JoinRow(UserFromRecord(ud).value, AddressFromRecord(uad).value)])
  {
  }

  /** `get_user`: a non-empty Redis hash wins; an empty one falls through to Postgres without writing the cache. */
  function GetUser(s: Stores, userId: string, now: int, cacheUp: bool, dbUp: bool): (r: Reply)
    ensures r.Raised? <==> !cacheUp
    ensures r.CacheHit? ==> Live(s.cache, Str(userId), now) && r.fields == s.cache[Str(userId)].fields
  {
    match GetUserFromRedis(s.cache, Str(userId), now, cacheUp)
    case RedisError => Raised
    case Found(h) =>
      if |h| != 0 then CacheHit(h)
      else DurableLookup(s.db, userId, dbUp)
  }

  /** A live entry is answered from the cache unchanged, `password` included, whatever Postgres holds. */
  lemma CacheHitIsAuthoritative(s: Stores, userId: string, now: int, dbUp: bool)
    requires Shaped(s.cache) && Live(s.cache, Str(userId), now)
    ensures GetUser(s, userId, now, true, dbUp) == CacheHit(s.cache[Str(userId)].fields)
    ensures Password in GetUser(s, userId, now, true, dbUp).fields
  {
    assert Password in s.cache[Str(userId)].fields;
  }

  /** On a miss the answer is exactly the direct durable lookup. */
  lemma MissFallsBackToDurable(s: Stores, userId: string, now: int, dbUp: bool)
    requires Shaped(s.cache) && !Live(s.cache, Str(userId), now)
    ensures GetUser(s, userId, now, true, dbUp) == DurableLookup(s.db, userId, dbUp)
  {
  }

  /** What `list_users` answers: the uids, or a message for a Postgres error. */
  datatype Listing = Uids(uids: seq<Value>) | ListMessage

  /**
   * `list_users`: `SELECT uid FROM users ORDER BY ts DESC`. Every stored uid appears once,
   * newest first; rows with equal `ts` may come in any order.
   */
  method ListUsers(db: Db, dbUp: bool) returns (r: Listing)
    ensures r.ListMessage? <==> !dbUp || db.users.None?
    ensures r.Uids? ==> forall i, j :: 0 <= i < j < |r.uids| ==> r.uids[i] != r.uids[j]
    ensures r.Uids? ==> forall k :: k in r.uids <==> k in db.users.value
    ensures r.Uids? ==> forall i, j :: 0 <= i < j < |r.uids| ==>
      db.users.value[r.uids[i]].ts >= db.users.value[r.uids[j]].ts
  {
    if !dbUp || db.users.None? {
      return ListMessage;
    }
    var rows := db.users.value;
    var out: seq<Value> := [];
    var rest := rows.Keys;
    while rest != {}
      invariant rest <= rows.Keys
      invariant forall k :: k in out ==> k in rows && k !in rest
      invariant forall k :: k in rows ==> k in out || k in rest
      invariant forall i, j :: 0 <= i < j < |out| ==> out[i] != out[j]
      invariant forall i, j :: 0 <= i < j < |out| ==> rows[out[i]].ts >= rows[out[j]].ts
      invariant forall i, k :: 0 <= i < |out| && k in rest ==> rows[out[i]].ts >= rows[k].ts
      decreases rest
    {
      var newest := Newest(rows, rest);
      out := out + [newest];
      rest := rest - {newest};
    }
    return Uids(out);
  }

  /** A uid of `keys` whose row is at least as recent as every other row of `keys`. */
  method Newest(rows: map<Value, UserRow>, keys: set<Value>) returns (k: Value)
    requires keys != {} && keys <= rows.Keys
    ensures k in keys
    ensures forall k' :: k' in keys ==> rows[k'].ts <= rows[k].ts
  {
    k :| k in keys;
    var unseen := keys - {k};
    while unseen != {}
      invariant unseen <= keys && k in keys
      invariant forall k' :: k' in keys && k' !in unseen ==> rows[k'].ts <= rows[k].ts
      decreases unseen
    {
      var next :| next in unseen;
      if rows[next].ts > rows[k].ts {
        k := next;
      }
      unseen := unseen - {next};
    }
  }
}

/**
 * The Redis side (src/storage.py:30-83): one hash per user id, holding the user and
 * address fields side by side, with a fixed time-to-live.
 */
module Cache {
  import opened Common
  import opened Json

  /** Seconds an entry stays readable after its last write. */
  const Ttl: int := 120

  /** The fields of a cache entry: the user fields, then the address fields; `uid` is not one of them. */
  datatype Field =
    | Password | FirstName | LastName | Username | Email
    | PhoneNumber | SocialInsuranceNumber | DateOfBirth
    | City | StreetName | StreetAddress | ZipCode | State | Country
  {
    /** The field's name in the hash, which is also the key it is read under from the user or address dict. */
    function Name(): string
    {
      match this
      case Password => "password"
      case FirstName => "first_name"
      case LastName => "last_name"
      case Username => "username"
      case Email => "email"
      case PhoneNumber => "phone_number"
      case SocialInsuranceNumber => "social_insurance_number"
      case DateOfBirth => "date_of_birth"
      case City => "city"
      case StreetName => "street_name"
      case StreetAddress => "street_address"
      case ZipCode => "zip_code"
      case State => "state"
      case Country => "country"
    }

    /** Whether the field is copied from the user dict (otherwise from the address dict). */
    predicate FromUser()
    {
      Password? || FirstName? || LastName? || Username? || Email?
      || PhoneNumber? || SocialInsuranceNumber? || DateOfBirth?
    }
  }

  /** All fourteen fields. */
  const AllFields: set<Field> :=
    {Password, FirstName, LastName, Username, Email, PhoneNumber, SocialInsuranceNumber,
     DateOfBirth, City, StreetName, StreetAddress, ZipCode, State, Country}

  /** A Redis hash: field to value. */
  type Hash = map<Field, Value>

  /** The hash holds exactly the fourteen fields. */
  predicate Complete(h: Hash)
  {
    h.Keys == AllFields
  }

  /** A Redis hash and the instant after which Redis no longer returns it. */
  datatype Entry = Entry(fields: Hash, expiresAt: int)

  /** The Redis keyspace, keyed by the user id as handed to the client. */
  type Store = map<Value, Entry>

  /** Redis treats a key as gone once the clock is past its expiry. */
  predicate Live(c: Store, key: Value, now: int)
  {
    key in c && now <= c[key].expiresAt
  }

  /** The cache invariant: every entry holds exactly the fourteen flattened fields. */
  predicate Shaped(c: Store)
  {
    forall k :: k in c ==> Complete(c[k].fields)
  }

  /** The key a user dict is written under: `ud.get("uid")`. */
  function Key(ud: Record): Value
  {
    Lookup(ud, "uid", Null)
  }

  /**
   * The merged mapping `users_data | address_data` built for one user/address pair:
   * every field is taken from its dict under its own name, `"n/a"` when missing.
   */
  function Flatten(ud: Record, uad: Record): (h: Hash)
    ensures Complete(h)
  {
    map f | f in AllFields :: Cell(ud, uad, f)
  }

  /** `ud.get(name, "n/a")` for a user field, `uad.get(name, "n/a")` for an address field. */
  function Cell(ud: Record, uad: Record, f: Field): Value
  {
    Lookup(if f.FromUser() then ud else uad, f.Name(), NA)
  }

  /** Each field of the flattened pair is the dict's value under the field's name, `"n/a"` when missing. */
  lemma FlattenDefaultsMissingFields(ud: Record, uad: Record)
    ensures var h := Flatten(ud, uad);
      && (forall f :: f in h && f.FromUser() ==> Defaulted(ud, f.Name(), h[f]))
      && (forall f :: f in h && !f.FromUser() ==> Defaulted(uad, f.Name(), h[f]))
  {
  }

  /** One field of the flattened pair. */
  lemma FlattenAt(ud: Record, uad: Record, f: Field)
    ensures Flatten(ud, uad)[f] == Lookup(if f.FromUser() then ud else uad, f.Name(), NA)
  {
  }

  /** One `hset` + `expire` pair of commands: the key and the mapping written under it. */
  datatype Command = Command(key: Value, fields: Hash)

  /** The commands issued for `zip(user_data, user_address_data)`: pairs are taken positionally until either list ends. */
  function Commands(users: seq<Record>, addresses: seq<Record>): (cmds: seq<Command>)
    ensures |cmds| == Min(|users|, |addresses|)
    ensures forall i :: 0 <= i < |cmds| ==> cmds[i] == Command(Key(users[i]), Flatten(users[i], addresses[i]))
  {
    seq(Min(|users|, |addresses|), i requires 0 <= i < Min(|users|, |addresses|) =>
      Command(Key(users[i]), Flatten(users[i], addresses[i])))
  }

  /**
   * `hset(uid, mapping=...)` followed by `expire(uid, 120)`: the fields are merged into a
   * live hash (a dead one counts as absent) and the expiry is reset, even for an existing key.
   */
  function Apply(c: Store, cmd: Command, now: int): (c': Store)
    requires Complete(cmd.fields)
    ensures cmd.key in c' && c'[cmd.key].expiresAt == now + Ttl
    ensures forall k :: k != cmd.key ==> (k in c' <==> k in c) && (k in c ==> c'[k] == c[k])
    ensures Shaped(c) ==> Shaped(c') && c'[cmd.key].fields == cmd.fields
  {
    var fields := if Live(c, cmd.key, now) then c[cmd.key].fields + cmd.fields else cmd.fields;
    c[cmd.key := Entry(fields, now + Ttl)]
  }

  /** The commands of the loop, each applied after all those before it. */
  function ApplyAll(c: Store, cmds: seq<Command>, now: int): (c': Store)
    requires forall i :: 0 <= i < |cmds| ==> Complete(cmds[i].fields)
    ensures forall i :: 0 <= i < |cmds| ==> cmds[i].key in c' && c'[cmds[i].key].expiresAt == now + Ttl
    ensures Shaped(c) ==> Shaped(c')
    decreases |cmds|
  {
    if |cmds| == 0 then c
    else
      var init := cmds[..|cmds| - 1];
      assert forall i :: 0 <= i < |init| ==> init[i] == cmds[i];
      Apply(ApplyAll(c, init, now), cmds[|cmds| - 1], now)
  }

  /** A key no command names keeps its entry, or its absence, through the whole loop. */
  lemma {:induction false} ApplyAllLeavesOtherKeys(c: Store, cmds: seq<Command>, now: int, k: Value)
    requires forall i :: 0 <= i < |cmds| ==> Complete(cmds[i].fields)
    requires forall i :: 0 <= i < |cmds| ==> cmds[i].key != k
    ensures var c' := ApplyAll(c, cmds, now);
      (k in c' <==> k in c) && (k in c ==> c'[k] == c[k])
    decreases |cmds|
  {
    if |cmds| > 0 {
      var init := cmds[..|cmds| - 1];
      assert forall i :: 0 <= i < |init| ==> init[i] == cmds[i];
      ApplyAllLeavesOtherKeys(c, init, now, k);
    }
  }

  /** The outcome of `add_user_to_redis`: the keyspace afterwards and whether it raised. */
  datatype Written = Written(store: Store, raised: bool)

  /**
   * `add_user_to_redis`. A Redis failure surfaces on the first command and is not caught
   * here, so it reaches the caller; with nothing to write no command is sent at all.
   */
  function AddUsersToRedis(c: Store, users: seq<Record>, addresses: seq<Record>, now: int, up: bool): (r: Written)
    ensures r.raised <==> !up && Min(|users|, |addresses|) > 0
    ensures r.raised ==> r.store == c
  {
    if Min(|users|, |addresses|) == 0 then Written(c, false)
    else if !up then Written(c, true)
    else Written(ApplyAll(c, Commands(users, addresses), now), false)
  }

  /** The reply of `get_user_from_redis`: the stored hash (empty when absent), or the re-raised Redis error. */
  datatype Read = Found(fields: Hash) | RedisError

  /** `get_user_from_redis`: a read only, so the keyspace is an input and never an output. */
  function GetUserFromRedis(c: Store, key: Value, now: int, up: bool): (r: Read)
    ensures r.RedisError? <==> !up
    ensures r.Found? && Shaped(c) ==> (r.fields != map[] <==> Live(c, key, now))
    ensures r.Found? && r.fields != map[] ==> Live(c, key, now) && r.fields == c[key].fields
  {
    if !up then RedisError
    else if Live(c, key, now) then Found(c[key].fields)
    else Found(map[])
  }

  // ---------------------------------------------------------------------------
  // Properties of writes followed by reads
  // ---------------------------------------------------------------------------

  /** A write is read back exactly until the time-to-live runs out, and not after. */
  lemma CacheRoundTrip(c: Store, cmd: Command, now: int, t: int)
    requires Shaped(c) && Complete(cmd.fields)
    ensures var c' := Apply(c, cmd, now);
      && (now <= t <= now + Ttl ==> GetUserFromRedis(c', cmd.key, t, true) == Found(cmd.fields))
      && (t > now + Ttl ==> GetUserFromRedis(c', cmd.key, t, true) == Found(map[]))
  {
  }

  /** The last command under a key decides what that key holds afterwards, with a fresh expiry. */
  lemma {:induction false} LastWriteWins(c: Store, cmds: seq<Command>, now: int, i: nat)
    requires Shaped(c)
    requires forall j :: 0 <= j < |cmds| ==> Complete(cmds[j].fields)
    requires i < |cmds|
    requires forall j :: i < j < |cmds| ==> cmds[j].key != cmds[i].key
    ensures var c' := ApplyAll(c, cmds, now);
      cmds[i].key in c' && c'[cmds[i].key] == Entry(cmds[i].fields, now + Ttl)
    decreases |cmds|
  {
    var init := cmds[..|cmds| - 1];
    if i < |cmds| - 1 {
      assert init[i] == cmds[i];
      LastWriteWins(c, init, now, i);
    }
  }

  /** Only the first `min(len(users), len(addresses))` users reach the cache: a key no zipped pair names stays absent. */
  lemma OnlyZippedUsersCached(c: Store, users: seq<Record>, addresses: seq<Record>, now: int, k: Value)
    requires k !in c
    requires forall i :: 0 <= i < Min(|users|, |addresses|) ==> Key(users[i]) != k
    ensures k !in AddUsersToRedis(c, users, addresses, now, true).store
  {
    if Min(|users|, |addresses|) > 0 {
      ApplyAllLeavesOtherKeys(c, Commands(users, addresses), now, k);
    }
  }

  /** After the cache write, within the time-to-live, a user's key reads back its flattened pair (the last one, if repeated). */
  lemma ZippedPairReadBack(c: Store, users: seq<Record>, addresses: seq<Record>, now: int, t: int, i: nat)
    requires Shaped(c)
    requires i < Min(|users|, |addresses|)
    requires forall j :: i < j < Min(|users|, |addresses|) ==> Key(users[j]) != Key(users[i])
    requires now <= t <= now + Ttl
    ensures var c' := AddUsersToRedis(c, users, addresses, now, true).store;
      GetUserFromRedis(c', Key(users[i]), t, true) == Found(Flatten(users[i], addresses[i]))
  {
    LastWriteWins(c, Commands(users, addresses), now, i);
  }

  /** With a single user to pair, its key holds exactly its pair with the first address. */
  lemma OnlyPairWritten(c: Store, users: seq<Record>, addresses: seq<Record>, now: int)
    requires Shaped(c) && |users| == 1 && |addresses| >= 1
    ensures var c' := AddUsersToRedis(c, users, addresses, now, true).store;
      Key(users[0]) in c' && c'[Key(users[0])].fields == Flatten(users[0], addresses[0])
  {
    LastWriteWins(c, Commands(users, addresses), now, 0);
  }
}

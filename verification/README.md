# Ingestion and dual-store sync, modelled in Dafny

The system periodically fetches a batch of synthetic user records. It normalises each raw
record into a flat user dict and a flat address dict, and anonymises the social
insurance number through `hash_pii`. It writes each user/address pair to a Redis hash
with a 120-second time-to-live, then inserts users and addresses into two Postgres
tables. A small HTTP API answers "get user" cache-first, falling back to a join in
Postgres, and answers "list users" from Postgres alone.

The model has nine modules:

- `Common`: `Option` and `Min`.
- `Json`: decoded JSON values, plus the Python operations the normaliser applies to them.
  - These are `v[k]`, `v.get(k, d)`, `v[:n]`, truthiness and `str(v)`.
  - Each step yields an `Outcome`:
    - `Keep` holds a value;
    - `Skip` stands for the KeyError or TypeError that the per-record handler catches;
    - `Abort` stands for the AttributeError it does not catch, which ends the whole cycle.
- `Normalize`: `extract_user_data_for_storage` and `extract_address_data_for_storage`.
  - Each is a pass over the batch.
  - The failing steps are evaluated in Python's order, so the first failure decides between skipping a record and aborting the cycle.
- `Cache`: Redis as a map from key to `(hash, expiry)`.
  - It models `add_user_to_redis` as a positional zip of `hset`+`expire` commands.
  - It models `get_user_from_redis` as a pure read.
- `Durable`: Postgres as two tables, each of which may not exist yet. Each table is a map keyed by `uid`.
  - The DDL's primary keys (non-null and unique) and its foreign key are kept as the invariant `Valid`.
  - The create and insert calls swallow every error and report `True`.
  - The existence check `check_table_exists` reports `False` when the database fails.
- `Backends`: the pair of stores, Redis and Postgres, as one value.
- `Sync`: one iteration of the loop body (`src/main.py:90-118`) as a transition on both stores.
- `Gateway`: the `get_user` and `list_users` handlers of `src/api.py`. They take the stores as values and return only a reply, so they cannot change either store.
- `Agreement`: how the row the join builds relates to the cache entry built from the same user and address dicts.

Several things are inputs to each step:

- the clock `now`;
- the anonymiser `hashPii`;
- Python's `str` on numbers, lists and dicts (`show`);
- the fetched batch;
- whether each backend answers (`cacheUp`, `dbUp`).

## Model

| member | source | states |
|---|---|---|
| Normalize.UserOf | src/main.py:49-65 | A record yields a user exactly when `login.uuid` resolves, `name` is present, none of `name`/`id`/`dob` is a non-dict, and `dob.date` (default `"n/a"`) can be sliced. It aborts the cycle exactly when the uid and `name` resolve but one of `name`/`id`/`dob` is a non-dict. Otherwise it is skipped. The user's uid is the raw `login.uuid`. |
| Normalize.AddressOf | src/main.py:72-84 | A record is skipped exactly when `login.uuid` does not resolve. It aborts the cycle exactly when the uid resolves and `location` or `location.street` is a non-dict. The kept address carries the raw uid, and its street number and postcode are strings. |
| Normalize.UserFieldsDefaultOnlyWhenAbsent | src/main.py:51-56 | Password, username, first and last name, email and phone are the raw value when the key is present (null included), and `"n/a"` only when it is absent. |
| Normalize.SinIsTokenOfIdValue | src/main.py:57-59 | The stored SIN is `hash_pii` of `id.value` when that is truthy. Otherwise it is `hash_pii("N/A")`. |
| Normalize.RawIdOnlyThroughToken | src/main.py:57-59 | Two records that differ only in `id`, and whose identifiers hash alike, give the same outcome. The raw identifier never reaches the output. |
| Normalize.DateOfBirthTruncated | src/main.py:60 | The date of birth is the first `min(10, len)` characters of a string date (the first `min(10, len)` items of a list date), and `"n/a"` when `dob.date` is absent. |
| Normalize.AddressFieldsDefaultOnlyWhenAbsent | src/main.py:74-79 | City, state, country and street name default only when absent. Street number and postcode are `str` of the raw value, and `"n/a"` when absent. |
| Normalize.ExtractAll | src/main.py:45-85 | A pass aborts exactly when some record aborts. Otherwise the output is never longer than the batch. Every output item is the kept result of some record, and every kept result appears. |
| Normalize.ExtractUsers | src/main.py:45-66 | The user pass aborts exactly when some record's user extraction aborts. Otherwise every user comes from some record, and every record that yields a user contributes it. |
| Normalize.ExtractAddresses | src/main.py:68-85 | The address pass aborts exactly when some record's address extraction aborts. Otherwise every address comes from some record, and every record that yields an address contributes it. |
| Normalize.EveryUserIsZipped | src/main.py:97-100 | When neither pass aborts, there are at least as many addresses as users: a kept user has a `login.uuid`, and the address pass keeps every such record. So the cache write's positional zip reaches every user. |
| Normalize.ExtractAllAppend | src/main.py:46-62 | A pass over `a + b` is the pass over `a` followed by the pass over `b`, so output order follows input order. |
| Normalize.SkippedRecordIsInvisible | src/main.py:63-65 | Removing a skipped record from the batch leaves the pass's result unchanged. The rest of the batch is processed as before. |
| Normalize.ExtractedUsersCarryRawUids | src/main.py:50 | Every extracted user carries the raw `login.uuid` of some record of the batch. |
| Normalize.NamelessRecordYieldsOnlyAnAddress | src/main.py:97-98 | A record with a uid and no `name`, whose `location` and `location.street` are dicts or absent, yields an address but no user. The two lists are independent and need not line up. |
| Cache.Flatten | src/storage.py:33-54 | The cached hash of a pair has exactly the fourteen user and address fields, and no `uid` field. |
| Cache.FlattenDefaultsMissingFields | src/storage.py:35-51 | Each cached field is the user dict's (or the address dict's) value under that field's name, and `"n/a"` when it is missing. |
| Cache.Commands | src/storage.py:32-57 | Writes pair users and addresses by position. There are `min(len(users), len(addresses))` of them, and the i-th is keyed by the i-th user's `uid`. |
| Cache.Apply | src/storage.py:57-60 | The written key's expiry becomes now + 120, even for an existing key. No other key changes. On a well-shaped cache the entry holds exactly the written fields. |
| Cache.ApplyAll | src/storage.py:32-60 | After the loop every written key expires at now + 120. The fourteen-field shape of every entry is preserved. |
| Cache.ApplyAllLeavesOtherKeys | src/storage.py:32-60 | A key that no command names keeps its entry, or stays absent, through the whole loop. |
| Cache.AddUsersToRedis | src/storage.py:30-67 | The call raises exactly when Redis is down and there is at least one pair to write. When it raises, the cache is unchanged. |
| Cache.GetUserFromRedis | src/storage.py:70-83 | A Redis failure is re-raised. Otherwise a live key returns its whole hash, and a missing or expired key returns an empty map. The read is non-empty exactly when the key is live. |
| Cache.CacheRoundTrip | src/storage.py:57-79 | After a write, a read returns exactly the written fields until the TTL runs out, and an empty map after that. |
| Cache.LastWriteWins | src/storage.py:32-60 | The last command under a key decides that key's entry: its fields with a fresh expiry. |
| Cache.OnlyZippedUsersCached | src/storage.py:32 | A key that was absent before the write and that no zipped pair names stays absent. So a user beyond the shorter list, whose key was not cached before and is not reused by a zipped pair, is not cached. |
| Cache.ZippedPairReadBack | src/storage.py:30-79 | Within the TTL, the i-th user's key reads back the flattened i-th pair, unless a later pair reuses the key. |
| Durable.CheckTableExists | src/storage.py:147-166 | The catalogue answer is given when Postgres is up. The result is `False` whenever it is down. |
| Durable.CreateUserTable | src/storage.py:86-113 | Creates an empty `users` table when it is absent and Postgres is up. Otherwise it changes nothing. It always reports `True`. |
| Durable.CreateAddressTable | src/storage.py:116-144 | Creates an empty `users_address` table only when Postgres is up and `users` exists, because the foreign key names it. It always reports `True`. |
| Durable.UserFromRecord | src/storage.py:184-193 | The insert's columns can be read exactly when the dict holds every user column. |
| Durable.AddressFromRecord | src/storage.py:219-226 | The insert's columns can be read exactly when the dict holds every address column. |
| Durable.UserRecordRoundTrip | src/storage.py:185-193 | The insert reads back from a normalised user dict exactly the user it was built from. |
| Durable.AddressRecordRoundTrip | src/storage.py:220-226 | The insert reads back from a normalised address dict exactly the address it was built from. |
| Durable.InsertUser | src/storage.py:169-201 | The state changes exactly when Postgres is up, the table exists, all columns are present, and the uid is non-null and new. The change adds one row stamped `now`. Otherwise nothing changes. It always reports `True`, and keeps the table valid and append-only. |
| Durable.InsertAddress | src/storage.py:204-234 | As for users, and in addition the uid must already be in `users` (the foreign key). |
| Durable.CreateTablesIdempotent | src/storage.py:86-144 | Creating either table twice has the same effect as creating it once. |
| Durable.DuplicateUserInsertIsNoOp | src/storage.py:96 | Inserting the same user dict a second time, at any time, changes nothing. |
| Durable.InsertUsers | src/main.py:108-110 | Every user is attempted whatever happened before. Each complete record with a non-null uid ends up in the table. Every new row is stamped `now` and comes from the batch. The table stays valid and append-only. |
| Durable.InsertAddresses | src/main.py:112-114 | Every address is attempted. Each complete record whose uid is in `users` ends up in the table. New rows come from the batch and are stamped `now`. |
| Durable.FirstUserInsertWins | src/main.py:108-110 | Within one batch, the first complete record of a new uid is the row stored. Later ones are rejected by the primary key. |
| Sync.EnsureSchema | src/main.py:102-106 | When both tables are reported present, the schema is left alone. With Postgres up, both tables exist afterwards. Growth is append-only and the tables stay valid. |
| Sync.EnsureSchemaIdempotent | src/main.py:102-106 | Ensuring the schema a second time changes nothing. |
| Sync.Persist | src/main.py:102-114 | The durable half of an iteration only appends and keeps the key constraints. With Postgres up, both tables exist afterwards. |
| Sync.PersistStoresMatchingPair | src/main.py:108-114 | With Postgres up, a user dict and an address dict of the same non-null uid both end up stored. The foreign key is met because users go first. |
| Sync.RunCycle | src/main.py:90-118 | An empty batch leaves both stores unchanged. A crash leaves Postgres unchanged. Postgres only grows and stays valid. The fourteen-field cache shape is preserved. |
| Sync.AbortingRecordLeavesStoresUnchanged | src/main.py:117-118 | A record that aborts either extraction ends the iteration before any store is touched. |
| Sync.CacheOutageSkipsDurableWrites | src/main.py:100 | With Redis down and something to cache, the iteration ends at the cache write, and both stores are unchanged. |
| Sync.CompletedCycleStoresRecord | src/main.py:97-116 | With both backends up and no record aborting either pass, the iteration completes. A record that yields a user and an address with a non-null uid then has both rows in Postgres. |
| Sync.CacheZipsByPosition | src/main.py:97-100 | When a nameless record precedes another record, the second record's user is cached with the first record's address. Pairs are formed by position, not by uid. |
| Gateway.JoinRow | src/api.py:70-84 | A fallback row has fourteen columns: the user's uid first, then the user's profile fields in SELECT order. |
| Gateway.JoinRows | src/api.py:85-87 | The join has at most one row, and exactly one when both tables hold the uid. That row is built from the user row and the address row stored under the uid. |
| Gateway.DurableLookup | src/api.py:63-94 | A Postgres failure, a missing table included, yields a message rather than an exception. Otherwise the answer is the join of the two tables under the requested uid. On valid tables every returned row starts with that uid. |
| Gateway.DurableRoundTrip | src/api.py:70-92 | After a user dict and an address dict of a new uid are both inserted, the fallback lookup of that uid returns exactly the one row built from them. |
| Gateway.GetUser | src/api.py:56-94 | The handler raises exactly when Redis fails. A cache hit is a live entry returned unchanged. |
| Gateway.CacheHitIsAuthoritative | src/api.py:59-62 | A live entry is the answer, `password` included, whatever Postgres holds. |
| Gateway.MissFallsBackToDurable | src/api.py:61-92 | On a miss, the answer is exactly the direct durable lookup, and the cache is not repopulated. |
| Gateway.ListUsers | src/api.py:39-53 | The listing holds every stored uid exactly once, with `ts` non-increasing. A Postgres failure or a missing table yields a message. |
| Agreement.JoinRowMatchesCacheEntry | src/api.py:70-84 | For a user dict and an address dict of the same uid, the row the join builds from them is the uid followed by the cache entry's values, field for field, in the SELECT order. It has no `password` and no `ts`. |

## Where the code differs from its intended behaviour

The model follows the code in each case.

- **Cache write failures.** The intent is that they are logged and do not stop the durable writes.
  - `add_user_to_redis` does not catch Redis errors, so the error reaches the loop's top-level handler and the iteration ends before any Postgres call (`Sync.CacheOutageSkipsDurableWrites`).
- **Cache read failures.** The intent is that they fall back to Postgres.
  - `get_user` calls the cache outside its `try`, so the error propagates (`Gateway.GetUser`).
- **Pairing of users and addresses.** The intent is that the two lists line up by uid.
  - The two passes are independent, and the cache zips them by position (`Sync.CacheZipsByPosition`).
- **Malformed records.** The intent is that a malformed record never aborts the batch.
  - A present non-dict under `name`, `id`, `dob`, `location` or `location.street` raises an error the per-record handler does not catch, which ends the whole iteration (`Normalize.UserOf`, `Normalize.AddressOf`).
- **Empty uids.** The intent is that no output record has an empty `uid`.
  - The normaliser does not check this, so an empty-string or null `uuid` passes through.
  - Every extracted user is zipped (`Normalize.EveryUserIsZipped`), so a null uid reaches `hset` as a key. The Redis client refuses it, and that error ends the iteration before any Postgres call. The model does not carry this out; see `Cache.AddUsersToRedis` under "Left out".
- **Overwriting cache entries.** The intent is that a cache write overwrites.
  - `hset` merges into an existing hash. Every write carries all fourteen fields, so on a well-shaped cache the result is the same (`Cache.Apply`).
- **Truncating the date of birth.** `dob.date[:10]` on a list slices the list rather than raising, so a list date is kept (`Normalize.DateOfBirthTruncated`).

## Left out

- The HTTP fetch `get_user_data` (src/main.py:32-43) is network I/O. The fetched batch is an input.
- The `while True`/`time.sleep` driver is left out, and only one iteration is modelled. So is the logging in every function.
- `hash_pii` lives in a `salt` module that is not part of this model. It and Python's `str` on numbers, lists and dicts are uninterpreted function parameters.
- JSON floats are not modelled, so numbers are integers.
- FastAPI setup, CORS, the root endpoint, environment configuration and `simple_chalk` colouring are left out because they are plumbing.
- Concurrency between the API readers and the loop is left out, and each store call is atomic. In particular, the `exists`/`hgetall` pair in `get_user_from_redis` is one atomic read.
- Backend failures are one flag per store per iteration (or per request). A backend that fails part-way through a loop of inserts is not modelled.
- One `now` serves an iteration, both for the Redis TTL and for every `ts` column. The source reads the clock per insert.
- Cache.AddUsersToRedis: the Redis client's conversion of keys and values is not modelled. redis-py refuses `None`, booleans, lists and dicts, both as the hash key (the user's uid) and as hash values. That error is not the `ValueError` the function catches, so it would end the iteration, leaving the pairs written before it in the cache and skipping Postgres. The model writes any key and value, and it keys the cache by the uid value rather than by its string form.
- Sync.RunCycle: a cycle whose cache write meets a null, boolean, list or dict uid or field value completes in the model, although the source ends the iteration there.
- Sync.CompletedCycleStoresRecord: redis-py refuses a null, boolean, list or dict key or value at the `hset` (src/storage.py:57). That stops the write at that pair and skips Postgres, so the record's rows would not be stored. The model lets the write succeed.
- Sync.CacheZipsByPosition: under the same refusal at src/storage.py:57, the write stops at the first refused pair, and the shifted pair is cached only if it comes before that pair. The model writes every pair.
- Cache.ZippedPairReadBack: under the same refusal at src/storage.py:57, pairs after the first refused one are never written, and the iteration ends there, skipping Postgres. The model writes every pair.
- Durable.InsertUser: the Postgres adapter's conversion of values to `VARCHAR(255)` is not modelled. The 255-character limit and list or dict adaptation errors are absent. Only the primary-key, not-null and foreign-key rules of the DDL are.
- Durable.InsertAddress: the same conversion and length limits are left out as for `Durable.InsertUser`.
- Gateway.ListUsers: the reply is the list of uids rather than the list of one-element tuples `fetchall` returns. Rows with equal `ts` may come in any order, as SQL leaves them unordered.
- Gateway.GetUser: the path parameter is compared with stored keys as a JSON string. Keys of another JSON type are never found.

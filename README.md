# sl-go user store with a cache-aside read path, in Dafny

This project models the core of `main.go`: a REST service over a MongoDB
collection of users, with a Redis cache in front of single-user reads.

- `User.Validate` checks the four user fields with ozzo-validation rules.
- The count, create, update and delete handlers act on the collection and never touch the cache.
- `GET /users/:id` runs the `verifyCache` middleware first. A cached user is returned as `{"Cached": user}`.
- On a miss the handler parses the id with `primitive.ObjectIDFromHex` and reads the collection.
  It then caches the user for 30 seconds under the raw `:id` string and returns the bare user.

Files:

- `wrappers.dfy`: `Option`.
- `objectid.dfy` (module `ObjectIds`): `ObjectIDFromHex` as a partial parse (24 hex digits, either case).
  It also holds `ObjectID.Hex`, the lower-case rendering the driver uses when it decodes an ObjectID
  into the string field `User.ID`, and the round-trip and canonical-spelling lemmas.
- `user.dfy` (module `Users`): `Fields`, `User` and `Validate`, built from the three ozzo rules it uses.
- `cacheaside.dfy` (module `CacheAside`): the state is the collection, the cache and a logical clock.
  Each handler is a function from the old state to the new state and a `Response`.
  Failures of the external stores are boolean parameters (`getFails`, `findFails`, `setFails`, `fails`).
  The module also holds the invariant `Valid` and the one-request lemmas.
- `staleness.dfy` (module `Staleness`): runs of requests and clock ticks (`Run`).
  It proves that writes never invalidate, that a live entry is served stale, and that staleness is bounded by one TTL.
- `service.dfy` (module `Service`): class `UserService`, with fields `store`, `cache` and `now`.
  Its methods perform each handler step by step under `modifies this`.
  Each method's `ensures` ties the new state and the response to the `CacheAside` function.

Modelling choices that follow the code:

- The collection is `map<DocKey, Fields>`. A created document's `_id` is the driver's generated ObjectID
  when the body's `ID` is empty (`bson:"_id,omitempty"`), and the body's string otherwise.
  A string `_id` is counted, but the ObjectID filters of read, update and delete never find it.
  An already-present key is a duplicate-key insert failure.
- The cache is `map<string, Entry>`, keyed by the raw path parameter. Two spellings of one id
  (lower and upper case) are therefore separate entries.
- An entry is live while `now < expiry`, and a miss writes `expiry = now + 30`.
  Expired entries stay in the map but are never served.
- A user read from the collection has `ID == Hex(id)`, the lower-case spelling (main_test.go:41).
- Update is a full `$set` of the four fields. `ModifiedCount` is 0 when the fields are unchanged.
  An unmatched id reports `(0, 0)`, not an error. A non-empty body `ID` on a matched document is refused
  by the store, because `_id` is immutable.
- A failed `cache.Set` is modelled as leaving the cache unchanged.
  The handler returns that error instead of the user (main.go:161-164).

Behaviour a cache-aside store is often assumed to have, but which this code does not have (the model follows the code):

- A failed cache write is returned as the read's error, and the user is not sent.
- Update does not validate its body (`UpdateSkipsValidation`).
- Because reads go through the cache, a read right after a delete returns the cached user until
  the entry expires, not "not found" (`Service.Lifecycle`, `DeletedRecordStillServed`).

## Model

| member | source | states |
|---|---|---|
| `ObjectIds.DecodeHex` | main.go:143 | The hex decode succeeds exactly when every character is a hex digit, and yields half as many bytes |
| `ObjectIds.ParseObjectId` | main.go:143 | `ObjectIDFromHex` succeeds exactly on strings of 24 hex digits, in either case |
| `ObjectIds.EncodeHex` | main.go:70 | The rendering has two lower-case hex digits per byte |
| `ObjectIds.Hex` | main.go:70 | An id renders as 24 lower-case hex digits |
| `ObjectIds.ParseHexRoundTrip` | main.go:143-151 | Parsing the rendering of an id gives back that id |
| `ObjectIds.HexOfParsed` | main.go:143-151 | A parsed id renders as the lower-cased input, so the spelling is canonical |
| `ObjectIds.SameIdIffSameLowercase` | main.go:143 | Two parseable strings name the same id if and only if they agree up to case |
| `Users.Validate` | main.go:77-83 | Valid iff both names are non-empty, age >= 0, and gender is empty, "male", "female" or "others" |
| `Users.ValidationExamples` | main.go:238-247 | The start-up sample user passes; an empty first name, gender "unknown" or age -1 fail |
| `CacheAside.StoredUser` | main.go:143-153 | A lookup by the raw parameter finds a user exactly when it parses and its ObjectID key is stored; the user's ID is the lower-cased parameter |
| `CacheAside.Count` | main.go:106-114 | Counting changes nothing |
| `CacheAside.Create` | main.go:118-137 | Create never changes the cache or the clock and never removes a record; anything but a success leaves the state as it was |
| `CacheAside.VerifyCache` | main.go:85-100 | A failed cache get is a miss; a hit returns the user cached under the raw key |
| `CacheAside.ReadHandler` | main.go:140-168 | The store and clock never change; only a `Found` answer changes state, returning the stored user and caching it under the raw key until `now + 30` |
| `CacheAside.GetWithCache` | main.go:140 | A `Cached` answer comes from a live entry and changes nothing; a `Found` answer sets only `cache[raw]`; every other answer changes nothing |
| `CacheAside.Update` | main.go:171-194 | Update never changes the cache, the clock or the set of stored keys; anything but an `Updated` answer leaves the state as it was |
| `CacheAside.Delete` | main.go:197-214 | Delete never changes the cache or the clock and never adds a key; the reported count is exactly how many records disappeared |
| `CacheAside.Advance` | main.go:161 | Time passing changes neither the store nor the cache, and the clock only moves forward |
| `CacheAside.Next` | main.go:102-214 | No request moves the clock backwards, and only reads change the cache |
| `CacheAside.CreateContract` | main.go:118-137 | An invalid body is rejected with no insert; a valid body that fails to insert answers `InsertErr`; success adds exactly one previously absent key (the generated id for an empty ID, the body's ID string otherwise) with the body's fields; the cache never changes |
| `CacheAside.ReadHit` | main.go:85-98 | A live entry returns `Cached(user)` and leaves store, cache and clock unchanged |
| `CacheAside.ReadMissFound` | main.go:142-166 | A miss on a stored record returns the bare stored user and sets `cache[raw]` to it with expiry `now + 30`; nothing else changes |
| `CacheAside.ReadMissSetFails` | main.go:161-164 | If the cache write fails, the read returns that error instead of the user, with nothing changed |
| `CacheAside.ReadNotFound` | main.go:149-153 | A miss on an absent record, or a failed find, returns "Error finding user" and writes no entry |
| `CacheAside.InvalidIdRejected` | main.go:140-204 | In a valid state, an unparseable id makes read, update and delete return "Error parsing id" with nothing changed |
| `CacheAside.UpdateContract` | main.go:171-194 | Update replaces all four fields of the matched record and keeps its key; an unmatched id reports 0; a non-empty body ID on a matched record is refused with nothing changed; the cache is untouched |
| `CacheAside.UpdateSkipsValidation` | main.go:180-187 | Update stores fields that `Validate` would refuse |
| `CacheAside.DeleteContract` | main.go:197-214 | Delete removes the matched record and reports 1; an absent id reports 0 with the store unchanged; the cache is untouched |
| `CacheAside.WritesLeaveCache` | main.go:106-214 | Count, create, update, delete and clock ticks never change the cache |
| `CacheAside.ReadTouchesOnlyItsKey` | main.go:161 | A read changes at most the entry under its own raw key, and never the store |
| `CacheAside.SecondReadIsCached` | main.go:85-166 | Two successful reads in a row at one instant: the second is `Cached` with the same user and changes nothing |
| `CacheAside.CreateThenGet` | main.go:130-166 | A valid body with an empty ID, created under a fresh generated id, reads back with the same fields under the id's lower-case spelling when that key is not cached |
| `CacheAside.SpellingsCachedSeparately` | main.go:85-161 | Lower- and upper-case spellings parse to the same id, but caching one still leaves the other a miss |
| `CacheAside.DeletedRecordStillServed` | main.go:197-212 | After a record is deleted, its live entry is still served as `Cached` |
| `CacheAside.UpdatedRecordServedStale` | main.go:171-192 | After an update, the live entry still serves the pre-update user |
| `CacheAside.ExpiredReadConsultsStore` | main.go:85-166 | With no live entry, the read goes to the handler, and its result is determined by the store and the failure flags |
| `CacheAside.NextPreservesValid` | main.go:161 | Every step keeps the invariant: cached keys parse, a cached ID is the lower-cased key, and expiry is at most `now + 30` |
| `Staleness.RunPreservesValid` | main.go:102-214 | Every run of requests keeps the invariant |
| `Staleness.LiveEntryPersists` | main.go:171-214 | An entry stays unchanged through any creates, updates and deletes while the clock is before its expiry |
| `Staleness.StaleReadWhileLive` | main.go:85-98 | While the entry is live, reads return its cached user whatever the store has become |
| `Staleness.EntryOrigin` | main.go:161 | From an empty cache, every entry was written by an earlier read of the same raw key, from the store as it then was, to expire 30 after it |
| `Staleness.BoundedStaleness` | main.go:161 | From an empty cache, a cached response is what the store held for that id less than 30 seconds earlier |
| `Staleness.EntriesExpireWithinTtl` | main.go:161 | Once the clock advances by 30, no entry is live and every read consults the store |
| `Service.UserService.constructor` | main.go:255-261 | The model's start state: the given collection and clock, and an empty cache (an assumption, see Left out) |
| `Service.UserService.Count` | main.go:106-114 | Returns the number of records, unless the store fails |
| `Service.UserService.Create` | main.go:118-137 | New state and response are those of `CacheAside.Create`; cache and clock unchanged |
| `Service.UserService.VerifyCache` | main.go:85-100 | A hit exactly when the cache read succeeds and the entry under the raw key is live; then returns the cached user |
| `Service.UserService.ReadHandler` | main.go:140-168 | New state and response are those of `CacheAside.ReadHandler`; store and clock unchanged |
| `Service.UserService.GetWithCache` | main.go:140 | Middleware then handler; at most `cache[raw]` changes; result agrees with `CacheAside.GetWithCache` |
| `Service.UserService.Update` | main.go:171-194 | New state and response are those of `CacheAside.Update`; cache and clock unchanged |
| `Service.UserService.Delete` | main.go:197-214 | New state and response are those of `CacheAside.Delete`; cache and clock unchanged |
| `Service.UserService.Advance` | main.go:161 | Only the clock moves, by `dt` |
| `Service.Lifecycle` | main.go:118-214 | Create, read, delete, read, advance 30 s, read gives Created, Found, Deleted(1), Cached, then "Error finding user" |

## Left out

- Connection and start-up (`Connect`, the global `mg`, the Redis client, `main`, logging, `.env`/environment configuration): I/O plumbing.
- HTTP transport: Fiber routing, status codes, the `recover` middleware, the basic-auth route with its credentials, and `/healthcheck`. Responses are the `Response` datatype.
- Body parsing and JSON/BSON encoding: request bodies are already-parsed `User` values; cache payloads are stored `User` values.
  This also leaves out Create carrying on after a failed body parse (main.go:121-123).
- Corrupt cache entries (main.go:93-96): the cache holds `User` values, so decoding cannot fail. The source's outcome depends on how Fiber overwrites the response.
- The `panic` on a failed `json.Marshal` (main.go:156-159): marshalling this struct cannot fail.
- `Users.Validate`: returns a verdict, not ozzo's per-field error map. The error value Create returns goes to Fiber's error handler, which is transport.
- Ages are unbounded integers. The 64-bit range of Go's `int` is enforced by the JSON decoder, which is not modelled.
- Concurrency: requests are processed one at a time. On a real system concurrent misses may both write the cache.
- The cache is assumed to start empty and to be written only by this service. In the source, Redis is an external, persistent server (main.go:27-29), and `verifyCache` serves whatever it finds under a key, parseable or not (main.go:86-98). `Service.UserService.constructor` starts with an empty cache. The invariant `CacheAside.Valid` rests on this assumption, and so do `CacheAside.InvalidIdRejected` (its read clause) and `Staleness.EntryOrigin` and `Staleness.BoundedStaleness` (which start from an empty cache).
- `CacheAside.Create`: the ObjectID the driver generates is a free parameter. The driver's generator combines a timestamp, a per-process random value and a counter, which makes reuse practically impossible, but it is not modelled. So `CacheAside.CreateThenGet` assumes that the new id's key is not live in the cache.
- Store and cache internals: each external call's failure is a flag. A failed `cache.Set` is taken to have written nothing.
- Redis keeps a key up to and including its expiry instant, at millisecond precision. The model uses a clock in seconds, on which an entry is live while `now < expiry`. Redis eviction under memory pressure is not modelled.
- Update results: `UpsertedCount` and `UpsertedID` are always zero and nil because no upsert is requested, so the response carries only the matched and modified counts. Create responds with only the inserted id.

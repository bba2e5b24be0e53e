/**
 * The record store and the cache in front of single-record reads, as a pure
 * state machine: every route handler of `SetupRoutes` is a function from the
 * old state (and the outcome of its external calls) to the new state and the
 * response. The class in module Service runs the same steps imperatively and
 * is specified by these functions.
 */
module CacheAside {
  import opened Wrappers
  import opened ObjectIds
  import opened Users

  /** Cache entries are written with a 30-second time-to-live. */
  const Ttl: nat := 30

  /**
   * The `_id` of a stored document: an ObjectID generated by the driver, or the
   * string a Create body supplied in its `ID` field.
   */
  datatype DocKey = OidKey(oid: ObjectId) | StrKey(str: string)

  /** A cache entry: the serialized user and the clock value at which it expires. */
  datatype Entry = Entry(user: User, expiry: nat)

  /**
   * The collection `users`, the cache keyed by the raw `:id` path parameter, and
   * a logical clock in seconds.
   */
  datatype State = State(store: map<DocKey, Fields>, cache: map<string, Entry>, now: nat)

  /** What a handler sends back, in place of HTTP status and body. */
  datatype Response =
    | CountOk(count: nat)                  // {"count": n}
    | Created(insertedId: DocKey)          // 201, the InsertOneResult
    | Found(user: User)                    // the bare user, after a cache miss
    | Cached(user: User)                   // {"Cached": user}, from the cache
    | Updated(matched: nat, modified: nat) // the UpdateResult
    | Deleted(deleted: nat)                // the DeleteResult
    | InvalidUser                          // 400 "Invalid user data"
    | ParseIdErr                           // "Error parsing id"
    | FindErr                              // "Error finding user"
    | CacheSetErr                          // the error of cache.Set
    | CountErr                             // the error of CountDocuments
    | InsertErr                            // "Error inserting user"
    | UpdateErr                            // "Error updating user"
    | DeleteErr                            // "Error deleting user"

  datatype Outcome = Outcome(state: State, response: Response)

  /** The cache holds an unexpired entry under `raw`. */
  predicate Live(s: State, raw: string) {
    raw in s.cache && s.now < s.cache[raw].expiry
  }

  /** The user a store lookup by the raw parameter decodes, when there is one. */
  function StoredUser(store: map<DocKey, Fields>, raw: string): (r: Option<User>)
    ensures r.Some? <==> ParseObjectId(raw).Some? && OidKey(ParseObjectId(raw).value) in store
    ensures r.Some? ==> r.value.id == ToLower(raw)
  {
    match ParseObjectId(raw)
    case None => None
    case Some(id) =>
      if OidKey(id) in store then HexOfParsed(raw); Some(User(Hex(id), store[OidKey(id)])) else None
  }

  /** GET /users/count: `CountDocuments` with an empty filter. */
  function Count(s: State, fails: bool): (o: Outcome)
    ensures o.state == s
  {
    if fails then Outcome(s, CountErr) else Outcome(s, CountOk(|s.store|))
  }

  /**
   * POST /users: validate, then `InsertOne`. An empty ID is omitted, so the
   * document gets the driver's `generated` ObjectID; a non-empty one becomes a
   * string `_id`. A key already present is a duplicate-key failure.
   */
  function Create(s: State, body: User, generated: ObjectId, fails: bool): (o: Outcome)
    ensures o.state.cache == s.cache && o.state.now == s.now
    ensures s.store.Keys <= o.state.store.Keys
    ensures o.response.Created? || o.state == s
  {
    if !Validate(body) then Outcome(s, InvalidUser)
    else
      var key := if body.id == "" then OidKey(generated) else StrKey(body.id);
      if fails || key in s.store then Outcome(s, InsertErr)
      else Outcome(s.(store := s.store[key := body.fields]), Created(key))
  }

  /** The `verifyCache` middleware: a live entry, unless the cache read itself fails. */
  function VerifyCache(s: State, raw: string, getFails: bool): (r: Option<User>)
    ensures getFails ==> r.None?
    ensures r.Some? ==> raw in s.cache && r.value == s.cache[raw].user
  {
    if !getFails && Live(s, raw) then Some(s.cache[raw].user) else None
  }

  /**
   * The GET /users/:id handler proper: parse the id, `FindOne`, then cache the
   * user under the raw parameter for `Ttl` seconds.
   */
  function ReadHandler(s: State, raw: string, findFails: bool, setFails: bool): (o: Outcome)
    ensures o.state.store == s.store && o.state.now == s.now
    ensures !o.response.Found? ==> o.state == s
    ensures o.response.Found? ==>
      && StoredUser(s.store, raw) == Some(o.response.user)
      && o.state.cache == s.cache[raw := Entry(o.response.user, s.now + Ttl)]
  {
    match ParseObjectId(raw)
    case None => Outcome(s, ParseIdErr)
    case Some(id) =>
      if findFails || OidKey(id) !in s.store then Outcome(s, FindErr)
      else
        var user := User(Hex(id), s.store[OidKey(id)]);
        if setFails then Outcome(s, CacheSetErr)
        else Outcome(s.(cache := s.cache[raw := Entry(user, s.now + Ttl)]), Found(user))
  }

  /** GET /users/:id with `verifyCache` in front of the handler. */
  function GetWithCache(s: State, raw: string, getFails: bool, findFails: bool, setFails: bool): (o: Outcome)
    ensures o.state.store == s.store && o.state.now == s.now
    ensures o.response.Cached? ==> o.state == s && Live(s, raw)
    ensures o.response.Found? ==> o.state.cache == s.cache[raw := Entry(o.response.user, s.now + Ttl)]
    ensures !o.response.Found? ==> o.state == s
  {
    match VerifyCache(s, raw, getFails)
    case Some(user) => Outcome(s, Cached(user))
    case None => ReadHandler(s, raw, findFails, setFails)
  }

  /**
   * PUT /users/:id: `UpdateOne` with `$set` of the whole body. Nothing matched
   * is not an error. `$set` of a non-empty ID on a matched document would
   * change its immutable `_id`, which the store refuses.
   */
  function Update(s: State, raw: string, body: User, fails: bool): (o: Outcome)
    ensures o.state.cache == s.cache && o.state.now == s.now
    ensures o.state.store.Keys == s.store.Keys
    ensures !o.response.Updated? ==> o.state == s
  {
    match ParseObjectId(raw)
    case None => Outcome(s, ParseIdErr)
    case Some(id) =>
      var key := OidKey(id);
      if fails then Outcome(s, UpdateErr)
      else if key !in s.store then Outcome(s, Updated(0, 0))
      else if body.id != "" then Outcome(s, UpdateErr)
      else
        var modified := if s.store[key] == body.fields then 0 else 1;
        Outcome(s.(store := s.store[key := body.fields]), Updated(1, modified))
  }

  /** DELETE /users/:id: `DeleteOne`; deleting an absent record reports 0. */
  function Delete(s: State, raw: string, fails: bool): (o: Outcome)
    ensures o.state.cache == s.cache && o.state.now == s.now
    ensures o.state.store.Keys <= s.store.Keys
    ensures o.response.Deleted? ==> |o.state.store| + o.response.deleted == |s.store|
    ensures !o.response.Deleted? ==> o.state == s
  {
    match ParseObjectId(raw)
    case None => Outcome(s, ParseIdErr)
    case Some(id) =>
      var key := OidKey(id);
      if fails then Outcome(s, DeleteErr)
      else if key in s.store then Outcome(s.(store := s.store - {key}), Deleted(1))
      else Outcome(s, Deleted(0))
  }

  /** The passage of `dt` seconds. */
  function Advance(s: State, dt: nat): (t: State)
    ensures t.store == s.store && t.cache == s.cache && t.now >= s.now
  {
    s.(now := s.now + dt)
  }

  /** One request, with the outcome of its external calls, or a clock tick. */
  datatype Op =
    | CountOp(countFails: bool)
    | CreateOp(body: User, generated: ObjectId, insertFails: bool)
    | ReadOp(raw: string, getFails: bool, findFails: bool, setFails: bool)
    | UpdateOp(updRaw: string, updBody: User, updateFails: bool)
    | DeleteOp(delRaw: string, deleteFails: bool)
    | AdvanceOp(dt: nat)

  function Next(s: State, op: Op): (t: State)
    ensures t.now >= s.now
    ensures !op.ReadOp? ==> t.cache == s.cache
  {
    match op
    case CountOp(f) => Count(s, f).state
    case CreateOp(body, gen, f) => Create(s, body, gen, f).state
    case ReadOp(raw, g, f, st) => GetWithCache(s, raw, g, f, st).state
    case UpdateOp(raw, body, f) => Update(s, raw, body, f).state
    case DeleteOp(raw, f) => Delete(s, raw, f).state
    case AdvanceOp(dt) => Advance(s, dt)
  }

  /**
   * What every reachable state satisfies: each cache key is a parseable id whose
   * cached user carries the lower-cased key as its ID, and no entry outlives one
   * time-to-live from now.
   */
  predicate EntryOk(s: State, raw: string)
    requires raw in s.cache
  {
    && ParseObjectId(raw).Some?
    && s.cache[raw].user.id == ToLower(raw)
    && s.cache[raw].expiry <= s.now + Ttl
  }

  ghost predicate Valid(s: State) {
    forall raw :: raw in s.cache ==> EntryOk(s, raw)
  }

  // ---------------------------------------------------------------------------
  // One request at a time

  /**
   * Create: an invalid body is rejected before any insert; otherwise exactly one
   * previously absent key is added with the body's fields. The cache is untouched.
   */
  lemma CreateContract(s: State, body: User, generated: ObjectId, fails: bool)
    ensures var o := Create(s, body, generated, fails);
      && o.state.cache == s.cache && o.state.now == s.now
      && (!Validate(body) ==> o == Outcome(s, InvalidUser))
      && (o.response.Created? <==>
            Validate(body) && !fails
            && (if body.id == "" then OidKey(generated) else StrKey(body.id)) !in s.store)
      && (Validate(body) && !o.response.Created? ==> o.response == InsertErr)
      && (o.response.Created? ==>
            && o.response.insertedId == (if body.id == "" then OidKey(generated) else StrKey(body.id))
            && o.response.insertedId !in s.store
            && o.state.store == s.store[o.response.insertedId := body.fields]
            && |o.state.store| == |s.store| + 1)
      && (!o.response.Created? ==> o.state == s)
  {
  }

  /** A live entry short-circuits the read: its user is returned and nothing changes. */
  lemma ReadHit(s: State, raw: string, findFails: bool, setFails: bool)
    requires Live(s, raw)
    ensures GetWithCache(s, raw, false, findFails, setFails) == Outcome(s, Cached(s.cache[raw].user))
  {
  }

  /**
   * A miss on a stored record returns the bare stored user and caches it under
   * the raw parameter until `now + Ttl`; no other key and nothing else changes.
   */
  lemma ReadMissFound(s: State, raw: string, getFails: bool)
    requires getFails || !Live(s, raw)
    requires StoredUser(s.store, raw).Some?
    ensures var u := StoredUser(s.store, raw).value;
      GetWithCache(s, raw, getFails, false, false)
        == Outcome(s.(cache := s.cache[raw := Entry(u, s.now + Ttl)]), Found(u))
  {
  }

  /** A miss whose cache write fails reports that error instead of the user. */
  lemma ReadMissSetFails(s: State, raw: string, getFails: bool)
    requires getFails || !Live(s, raw)
    requires StoredUser(s.store, raw).Some?
    ensures GetWithCache(s, raw, getFails, false, true) == Outcome(s, CacheSetErr)
  {
  }

  /** A miss on a parseable id with no stored record (or a failed find) writes no entry. */
  lemma ReadNotFound(s: State, raw: string, getFails: bool, findFails: bool, setFails: bool)
    requires getFails || !Live(s, raw)
    requires ParseObjectId(raw).Some?
    requires findFails || StoredUser(s.store, raw).None?
    ensures GetWithCache(s, raw, getFails, findFails, setFails) == Outcome(s, FindErr)
  {
  }

  /**
   * An unparseable id is rejected by Read, Update and Delete with nothing
   * changed. For Read this needs the invariant: such a key is never cached.
   */
  lemma InvalidIdRejected(s: State, raw: string, body: User, g: bool, f: bool, st: bool, fails: bool)
    requires Valid(s)
    requires ParseObjectId(raw).None?
    ensures GetWithCache(s, raw, g, f, st) == Outcome(s, ParseIdErr)
    ensures Update(s, raw, body, fails) == Outcome(s, ParseIdErr)
    ensures Delete(s, raw, fails) == Outcome(s, ParseIdErr)
  {
    assert raw in s.cache ==> EntryOk(s, raw);
  }

  /**
   * Update replaces all four fields of a matched record and keeps its key;
   * Delete removes it. Neither touches the cache; unmatched ids report 0.
   */
  lemma UpdateContract(s: State, raw: string, body: User, fails: bool)
    requires ParseObjectId(raw).Some?
    ensures var o := Update(s, raw, body, fails);
      var key := OidKey(ParseObjectId(raw).value);
      && o.state.cache == s.cache && o.state.now == s.now
      && (fails ==> o == Outcome(s, UpdateErr))
      && (!fails && key !in s.store ==> o == Outcome(s, Updated(0, 0)))
      && (!fails && key in s.store && body.id != "" ==> o == Outcome(s, UpdateErr))
      && (!fails && key in s.store && body.id == "" ==>
            && o.state.store == s.store[key := body.fields]
            && o.state.store.Keys == s.store.Keys
            && o.response == Updated(1, if s.store[key] == body.fields then 0 else 1))
  {
  }

  /** Update never validates: a matched record can be given fields Create would refuse. */
  lemma UpdateSkipsValidation(s: State, raw: string, body: User)
    requires StoredUser(s.store, raw).Some?
    requires body.id == "" && !Validate(body)
    ensures var o := Update(s, raw, body, false);
      o.response.Updated? && StoredUser(o.state.store, raw) == Some(User(ToLower(raw), body.fields))
  {
    HexOfParsed(raw);
  }

  lemma DeleteContract(s: State, raw: string, fails: bool)
    requires ParseObjectId(raw).Some?
    ensures var o := Delete(s, raw, fails);
      var key := OidKey(ParseObjectId(raw).value);
      && o.state.cache == s.cache && o.state.now == s.now
      && (fails ==> o == Outcome(s, DeleteErr))
      && (!fails && key in s.store ==>
            o.state.store == s.store - {key} && |o.state.store| == |s.store| - 1
            && o.response == Deleted(1))
      && (!fails && key !in s.store ==> o == Outcome(s, Deleted(0)))
  {
  }

  /** Only a read writes the cache, and only the clock moves time. */
  lemma WritesLeaveCache(s: State, op: Op)
    requires !op.ReadOp?
    ensures Next(s, op).cache == s.cache
    ensures !op.AdvanceOp? ==> Next(s, op).now == s.now
  {
  }

  /** A read changes at most the entry under its own raw parameter. */
  lemma ReadTouchesOnlyItsKey(s: State, raw: string, g: bool, f: bool, st: bool, other: string)
    requires other != raw
    ensures var t := GetWithCache(s, raw, g, f, st).state;
      t.store == s.store && t.now == s.now
      && (other in t.cache <==> other in s.cache)
      && (other in s.cache ==> t.cache[other] == s.cache[other])
  {
  }

  /**
   * Two reads in a row at the same instant: the second comes from the cache,
   * returns the same user and changes nothing.
   */
  lemma SecondReadIsCached(s: State, raw: string, g: bool, f: bool, st: bool, f2: bool, st2: bool)
    requires GetWithCache(s, raw, g, f, st).response.Found? || GetWithCache(s, raw, g, f, st).response.Cached?
    ensures var first := GetWithCache(s, raw, g, f, st);
      GetWithCache(first.state, raw, false, f2, st2) == Outcome(first.state, Cached(first.response.user))
  {
  }

  /** A created record can be read back with its canonical spelling, when that key is not cached. */
  lemma CreateThenGet(s: State, body: User, generated: ObjectId)
    requires Validate(body) && body.id == "" && OidKey(generated) !in s.store
    requires !Live(s, Hex(generated))
    ensures var t := Create(s, body, generated, false).state;
      GetWithCache(t, Hex(generated), false, false, false).response == Found(User(Hex(generated), body.fields))
  {
    ParseHexRoundTrip(generated);
  }

  /**
   * The cache key is the raw parameter, not the id: after a lower-case read is
   * cached, an upper-case spelling of the same id still misses and reads the store.
   */
  lemma SpellingsCachedSeparately(s: State, lower: string, upper: string)
    requires lower != upper && ToLower(upper) == lower
    requires ParseObjectId(upper).Some? && !Live(s, upper)
    requires StoredUser(s.store, lower).Some?
    ensures ParseObjectId(lower) == ParseObjectId(upper)
    ensures var t := GetWithCache(s, lower, false, false, false).state;
      Live(t, lower) && !Live(t, upper)
      && GetWithCache(t, upper, false, false, false).response == Found(StoredUser(s.store, upper).value)
  {
    assert ParseObjectId(lower).Some?;
    assert ToLower(lower) == lower by {
      assert forall i :: 0 <= i < |lower| ==> ToLower(lower)[i] == lower[i];
    }
    SameIdIffSameLowercase(lower, upper);
  }

  /** A record deleted while its entry is live is still served from the cache. */
  lemma DeletedRecordStillServed(s: State, raw: string, f: bool, st: bool)
    requires Live(s, raw) && StoredUser(s.store, raw).Some?
    ensures var t := Delete(s, raw, false).state;
      StoredUser(t.store, raw).None?
      && GetWithCache(t, raw, false, f, st).response == Cached(s.cache[raw].user)
  {
  }

  /** A record updated while its entry is live is served with its pre-update user. */
  lemma UpdatedRecordServedStale(s: State, raw: string, body: User, f: bool, st: bool)
    requires Live(s, raw) && StoredUser(s.store, raw).Some? && body.id == ""
    ensures var t := Update(s, raw, body, false).state;
      StoredUser(t.store, raw).value.fields == body.fields
      && GetWithCache(t, raw, false, f, st).response == Cached(s.cache[raw].user)
  {
  }

  /** Once the entry has expired (or is absent), a read consults the store again. */
  lemma ExpiredReadConsultsStore(s: State, raw: string, findFails: bool, setFails: bool)
    requires !Live(s, raw)
    ensures GetWithCache(s, raw, false, findFails, setFails) == ReadHandler(s, raw, findFails, setFails)
    ensures var r := GetWithCache(s, raw, false, findFails, setFails).response;
      && (ParseObjectId(raw).None? ==> r == ParseIdErr)
      && (ParseObjectId(raw).Some? && (findFails || StoredUser(s.store, raw).None?) ==> r == FindErr)
      && (!findFails && StoredUser(s.store, raw).Some? ==>
            r == if setFails then CacheSetErr else Found(StoredUser(s.store, raw).value))
  {
  }

  /** Every step keeps the invariant. */
  lemma NextPreservesValid(s: State, op: Op)
    requires Valid(s)
    ensures Valid(Next(s, op))
  {
    var t := Next(s, op);
    forall raw | raw in t.cache
      ensures EntryOk(t, raw)
    {
      if raw in s.cache && t.cache[raw] == s.cache[raw] {
        assert EntryOk(s, raw);
      } else {
        HexOfParsed(raw);
      }
    }
  }
}

/**
 * The route handlers of `SetupRoutes` as they run: an object holding the
 * collection, the cache and the clock, whose methods update them step by step.
 * Each method is specified by the corresponding function of module CacheAside,
 * so every lemma proved there holds of the object's behaviour.
 */
module Service {
  import opened Wrappers
  import opened ObjectIds
  import opened Users
  import CacheAside

  class UserService {
    var store: map<CacheAside.DocKey, Fields>
    var cache: map<string, CacheAside.Entry>
    var now: nat

    function Snapshot(): (s: CacheAside.State)
      reads this
    {
      CacheAside.State(store, cache, now)
    }

    ghost predicate Valid()
      reads this
    {
      CacheAside.Valid(Snapshot())
    }

    /** The service starts on an existing collection with an empty cache. */
    constructor (records: map<CacheAside.DocKey, Fields>, start: nat)
      ensures Valid()
      ensures store == records && cache == map[] && now == start
    {
      store := records;
      cache := map[];
      now := start;
    }

    /** GET /users/count. */
    method Count(fails: bool) returns (r: CacheAside.Response)
      ensures r == CacheAside.Count(Snapshot(), fails).response
      ensures !fails ==> r == CacheAside.CountOk(|store|)
    {
      if fails {
        return CacheAside.CountErr;
      }
      r := CacheAside.CountOk(|store|);
    }

    /** POST /users: validation first, then the insert. */
    method Create(body: User, generated: ObjectId, fails: bool) returns (r: CacheAside.Response)
      requires Valid()
      modifies this
      ensures Valid()
      ensures CacheAside.Outcome(Snapshot(), r) == CacheAside.Create(old(Snapshot()), body, generated, fails)
      ensures cache == old(cache) && now == old(now)
    {
      CacheAside.NextPreservesValid(Snapshot(), CacheAside.CreateOp(body, generated, fails));
      if !Validate(body) {
        return CacheAside.InvalidUser;
      }
      var key := if body.id == "" then CacheAside.OidKey(generated) else CacheAside.StrKey(body.id);
      if fails || key in store {
        return CacheAside.InsertErr;
      }
      store := store[key := body.fields];
      r := CacheAside.Created(key);
    }

    /** The `verifyCache` middleware: the cached user, or None to pass the request on. */
    method VerifyCache(raw: string, getFails: bool) returns (hit: Option<User>)
      ensures hit == CacheAside.VerifyCache(Snapshot(), raw, getFails)
      ensures hit.Some? <==> !getFails && raw in cache && now < cache[raw].expiry
      ensures hit.Some? ==> hit.value == cache[raw].user
    {
      if getFails || raw !in cache {
        return None;
      }
      var entry := cache[raw];
      if now >= entry.expiry {
        return None;
      }
      hit := Some(entry.user);
    }

    /** The GET /users/:id handler after the middleware: parse, find, cache, respond. */
    method ReadHandler(raw: string, findFails: bool, setFails: bool) returns (r: CacheAside.Response)
      requires Valid()
      modifies this
      ensures Valid()
      ensures CacheAside.Outcome(Snapshot(), r) == CacheAside.ReadHandler(old(Snapshot()), raw, findFails, setFails)
      ensures store == old(store) && now == old(now)
    {
      CacheAside.NextPreservesValid(Snapshot(), CacheAside.ReadOp(raw, true, findFails, setFails));
      var parsed := ParseObjectId(raw);
      if parsed.None? {
        return CacheAside.ParseIdErr;
      }
      var key := CacheAside.OidKey(parsed.value);
      if findFails || key !in store {
        return CacheAside.FindErr;
      }
      var user := User(Hex(parsed.value), store[key]);
      if setFails {
        return CacheAside.CacheSetErr;
      }
      cache := cache[raw := CacheAside.Entry(user, now + CacheAside.Ttl)];
      r := CacheAside.Found(user);
    }

    /** GET /users/:id: `verifyCache`, and the handler only on a miss. */
    method GetWithCache(raw: string, getFails: bool, findFails: bool, setFails: bool)
      returns (r: CacheAside.Response)
      requires Valid()
      modifies this
      ensures Valid()
      ensures CacheAside.Outcome(Snapshot(), r)
        == CacheAside.GetWithCache(old(Snapshot()), raw, getFails, findFails, setFails)
      ensures store == old(store) && now == old(now)
      ensures forall k :: k in old(cache) && k != raw ==> k in cache && cache[k] == old(cache)[k]
      ensures cache.Keys <= old(cache).Keys + {raw}
    {
      var hit := VerifyCache(raw, getFails);
      if hit.Some? {
        return CacheAside.Cached(hit.value);
      }
      r := ReadHandler(raw, findFails, setFails);
    }

    /** PUT /users/:id: `$set` of the whole body on the matched record; no validation. */
    method Update(raw: string, body: User, fails: bool) returns (r: CacheAside.Response)
      requires Valid()
      modifies this
      ensures Valid()
      ensures CacheAside.Outcome(Snapshot(), r) == CacheAside.Update(old(Snapshot()), raw, body, fails)
      ensures cache == old(cache) && now == old(now)
    {
      CacheAside.NextPreservesValid(Snapshot(), CacheAside.UpdateOp(raw, body, fails));
      var parsed := ParseObjectId(raw);
      if parsed.None? {
        return CacheAside.ParseIdErr;
      }
      var key := CacheAside.OidKey(parsed.value);
      if fails {
        return CacheAside.UpdateErr;
      }
      if key !in store {
        return CacheAside.Updated(0, 0);
      }
      if body.id != "" {
        return CacheAside.UpdateErr;
      }
      var modified := if store[key] == body.fields then 0 else 1;
      store := store[key := body.fields];
      r := CacheAside.Updated(1, modified);
    }

    /** DELETE /users/:id. */
    method Delete(raw: string, fails: bool) returns (r: CacheAside.Response)
      requires Valid()
      modifies this
      ensures Valid()
      ensures CacheAside.Outcome(Snapshot(), r) == CacheAside.Delete(old(Snapshot()), raw, fails)
      ensures cache == old(cache) && now == old(now)
    {
      CacheAside.NextPreservesValid(Snapshot(), CacheAside.DeleteOp(raw, fails));
      var parsed := ParseObjectId(raw);
      if parsed.None? {
        return CacheAside.ParseIdErr;
      }
      var key := CacheAside.OidKey(parsed.value);
      if fails {
        return CacheAside.DeleteErr;
      }
      if key in store {
        store := store - {key};
        return CacheAside.Deleted(1);
      }
      r := CacheAside.Deleted(0);
    }

    /** The passage of time, which is what expires cache entries. */
    method Advance(dt: nat)
      requires Valid()
      modifies this
      ensures Valid()
      ensures Snapshot() == CacheAside.Advance(old(Snapshot()), dt)
    {
      CacheAside.NextPreservesValid(Snapshot(), CacheAside.AdvanceOp(dt));
      now := now + dt;
    }
  }

  /**
   * One record through the service with every external call succeeding: after
   * the delete, the read is still served from the cache; only once the clock
   * has moved one time-to-live on does the read find the record gone.
   */
  method Lifecycle(generated: ObjectId) returns (responses: seq<CacheAside.Response>)
    ensures var u := User(Hex(generated), Fields("sam", "chan", "male", 20));
      responses == [CacheAside.Created(CacheAside.OidKey(generated)), CacheAside.Found(u),
                    CacheAside.Deleted(1), CacheAside.Cached(u), CacheAside.FindErr]
  {
    ParseHexRoundTrip(generated);
    var sam := Fields("sam", "chan", "male", 20);
    var raw := Hex(generated);
    var svc := new UserService(map[], 0);
    var created := svc.Create(User("", sam), generated, false);
    var first := svc.GetWithCache(raw, false, false, false);
    var deleted := svc.Delete(raw, false);
    var stale := svc.GetWithCache(raw, false, false, false);
    svc.Advance(CacheAside.Ttl);
    var gone := svc.GetWithCache(raw, false, false, false);
    responses := [created, first, deleted, stale, gone];
  }
}

/**
 * Runs of the service: sequences of requests and clock ticks, and the
 * bounded-staleness contract of the cache over them.
 */
module Staleness {
  import opened Wrappers
  import opened ObjectIds
  import opened CacheAside

  /** The state after performing `ops` in order from `s`. */
  function Run(s: State, ops: seq<Op>): (t: State)
    ensures t.now >= s.now
    decreases |ops|
  {
    if ops == [] then s else Next(Run(s, ops[..|ops| - 1]), ops[|ops| - 1])
  }

  /** No read of `raw` in `ops` found the cache unreachable. */
  predicate CacheReadsSucceed(ops: seq<Op>, raw: string) {
    forall i :: 0 <= i < |ops| ==> !(ops[i].ReadOp? && ops[i].raw == raw && ops[i].getFails)
  }

  /** Every run keeps the invariant. */
  lemma {:induction false} RunPreservesValid(s: State, ops: seq<Op>)
    requires Valid(s)
    ensures Valid(Run(s, ops))
    decreases |ops|
  {
    if ops != [] {
      RunPreservesValid(s, ops[..|ops| - 1]);
      NextPreservesValid(Run(s, ops[..|ops| - 1]), ops[|ops| - 1]);
    }
  }

  /** The clock never runs backwards: every prefix of a run ends no later than the run. */
  lemma {:induction false} ClockMonotone(s: State, ops: seq<Op>, k: nat)
    requires k <= |ops|
    ensures Run(s, ops[..k]).now <= Run(s, ops).now
    decreases |ops|
  {
    if k < |ops| {
      var n := |ops| - 1;
      assert ops[..n][..k] == ops[..k];
      ClockMonotone(s, ops[..n], k);
    } else {
      assert ops[..k] == ops;
    }
  }

  /** One step keeps a live entry unless it is a read of that key that could not reach the cache. */
  lemma NextKeepsLiveEntry(s: State, op: Op, raw: string)
    requires Live(s, raw)
    requires !(op.ReadOp? && op.raw == raw && op.getFails)
    ensures raw in Next(s, op).cache && Next(s, op).cache[raw] == s.cache[raw]
  {
  }

  /**
   * Writes never invalidate: an entry stays exactly as it was, through any
   * creates, updates and deletes, for as long as the clock is before its expiry.
   */
  lemma {:induction false} LiveEntryPersists(s: State, ops: seq<Op>, raw: string)
    requires raw in s.cache
    requires Run(s, ops).now < s.cache[raw].expiry
    requires CacheReadsSucceed(ops, raw)
    ensures raw in Run(s, ops).cache && Run(s, ops).cache[raw] == s.cache[raw]
    decreases |ops|
  {
    if ops != [] {
      var n := |ops| - 1;
      var prev := Run(s, ops[..n]);
      assert prev.now <= Run(s, ops).now by {
        ClockMonotone(s, ops, n);
      }
      assert CacheReadsSucceed(ops[..n], raw) by {
        forall i | 0 <= i < n
          ensures !(ops[..n][i].ReadOp? && ops[..n][i].raw == raw && ops[..n][i].getFails)
        {
          assert ops[..n][i] == ops[i];
        }
      }
      LiveEntryPersists(s, ops[..n], raw);
      NextKeepsLiveEntry(prev, ops[n], raw);
    }
  }

  /**
   * Staleness: while an entry is live, reads of its key return the cached user,
   * whatever the store has since become (updated or deleted record alike).
   */
  lemma StaleReadWhileLive(s: State, ops: seq<Op>, raw: string, findFails: bool, setFails: bool)
    requires Live(s, raw)
    requires Run(s, ops).now < s.cache[raw].expiry
    requires CacheReadsSucceed(ops, raw)
    ensures var t := Run(s, ops);
      GetWithCache(t, raw, false, findFails, setFails) == Outcome(t, Cached(s.cache[raw].user))
  {
    LiveEntryPersists(s, ops, raw);
  }

  /**
   * Where a cache entry comes from: starting with an empty cache, every entry was
   * written by some earlier read, from the store as it then was, to expire one
   * time-to-live after that read.
   */
  lemma {:induction false} EntryOrigin(s0: State, ops: seq<Op>, raw: string)
    requires s0.cache == map[]
    requires raw in Run(s0, ops).cache
    ensures exists i ::
              && 0 <= i < |ops|
              && ops[i].ReadOp? && ops[i].raw == raw
              && StoredUser(Run(s0, ops[..i]).store, raw) == Some(Run(s0, ops).cache[raw].user)
              && Run(s0, ops).cache[raw].expiry == Run(s0, ops[..i]).now + Ttl
    decreases |ops|
  {
    var n := |ops| - 1;
    var prev := Run(s0, ops[..n]);
    var e := Run(s0, ops).cache[raw];
    if raw in prev.cache && prev.cache[raw] == e {
      EntryOrigin(s0, ops[..n], raw);
      var i :| 0 <= i < n
        && ops[..n][i].ReadOp? && ops[..n][i].raw == raw
        && StoredUser(Run(s0, ops[..n][..i]).store, raw) == Some(e.user)
        && e.expiry == Run(s0, ops[..n][..i]).now + Ttl;
      assert ops[..n][..i] == ops[..i];
      assert ops[..n][i] == ops[i];
    } else {
      ParseHexRoundTrip(ParseObjectId(raw).value);
      assert ops[n].ReadOp? && ops[n].raw == raw;
      assert StoredUser(prev.store, raw) == Some(e.user) && e.expiry == prev.now + Ttl;
    }
  }

  /**
   * Bounded staleness: starting with an empty cache, a user served from the cache
   * is what the store held for that id at some earlier point less than one
   * time-to-live ago.
   */
  lemma BoundedStaleness(s0: State, ops: seq<Op>, raw: string, findFails: bool, setFails: bool)
    requires s0.cache == map[]
    requires GetWithCache(Run(s0, ops), raw, false, findFails, setFails).response.Cached?
    ensures var u := GetWithCache(Run(s0, ops), raw, false, findFails, setFails).response.user;
      exists i ::
        && 0 <= i < |ops|
        && StoredUser(Run(s0, ops[..i]).store, raw) == Some(u)
        && Run(s0, ops).now < Run(s0, ops[..i]).now + Ttl
  {
    EntryOrigin(s0, ops, raw);
  }

  /**
   * No entry is stuck: in a valid state, once the clock has advanced by one
   * time-to-live every entry has expired, and each read of any key goes to the store.
   */
  lemma EntriesExpireWithinTtl(s: State, dt: nat, raw: string, findFails: bool, setFails: bool)
    requires Valid(s)
    requires dt >= Ttl
    ensures var t := Run(s, [AdvanceOp(dt)]);
      !Live(t, raw)
      && GetWithCache(t, raw, false, findFails, setFails) == ReadHandler(t, raw, findFails, setFails)
  {
    var t := Run(s, [AdvanceOp(dt)]);
    var ops := [AdvanceOp(dt)];
    assert ops[..0] == [] && ops[0] == AdvanceOp(dt);
    assert Run(s, ops[..0]) == s;
    assert t == Next(s, AdvanceOp(dt));
    assert raw in s.cache ==> EntryOk(s, raw);
  }
}

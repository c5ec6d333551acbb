/** The fixed-window limiter when requests for a key run one after another. */
module RateLimit {
  import opened Prelude
  import opened Redis

  type Slot = Option<Entry<int>>

  datatype Config = Config(limit: int, window: nat)

  function Max(a: int, b: int): int { if a < b then b else a }

  /** What one call of checkRateLimit makes of the key, and whether it admits the request. */
  function Check(c: Config, slot: Slot, now: nat): (Slot, bool) {
    if !Alive(slot, now) then (Some(Stored(1, c.window, now)), true)
    else if slot.value.value >= c.limit then (slot, false)
    else
      var next := Incremented(slot, now);
      (if next.value == 2 then Expired(Some(next), c.window, now) else Some(next), true)
  }

  class RedisClient {
    var store: map<string, Entry<int>>

    function Slot(key: string, now: nat): Slot
      reads this
    {
      Lookup(store, key, now)
    }

    method Exists(key: string, now: nat) returns (found: bool)
      ensures found == Slot(key, now).Some?
    {
      found := key in store && Alive(Some(store[key]), now);
    }

    method Get(key: string, now: nat) returns (value: Option<int>)
      ensures value == if Slot(key, now).Some? then Some(Slot(key, now).value.value) else None
    {
      value := if Lookup(store, key, now).Some? then Some(store[key].value) else None;
    }

    method Set(key: string, value: int, ttl: nat, now: nat)
      modifies this
      ensures store == old(store)[key := Stored(value, ttl, now)]
    {
      store := store[key := Stored(value, ttl, now)];
    }

    method Incr(key: string, now: nat) returns (value: int)
      modifies this
      ensures store == old(store)[key := Incremented(old(Slot(key, now)), now)]
      ensures value == store[key].value
    {
      var slot := Lookup(store, key, now);
      var next := Incremented(slot, now);
      store := store[key := next];
      value := next.value;
    }

    method Expire(key: string, ttl: nat, now: nat)
      modifies this
      ensures store == if old(Slot(key, now)).None? then old(store)
                       else if ttl == 0 then old(store) - {key}
                       else old(store)[key := Entry(old(store)[key].value, Some(now + ttl))]
    {
      if key in store && Alive(Some(store[key]), now) {
        store := if ttl == 0 then store - {key} else store[key := Entry(store[key].value, Some(now + ttl))];
      }
    }

    method Del(key: string)
      modifies this
      ensures store == old(store) - {key}
    {
      store := store - {key};
    }
  }

  /** checkRateLimit with succeeding commands and the clock read once. Other keys are left alone, and a
      denied request writes nothing. */
  method CheckRateLimit(c: Config, redis: RedisClient, key: string, now: nat) returns (allowed: bool)
    modifies redis
    ensures (redis.Slot(key, now), allowed) == Check(c, old(redis.Slot(key, now)), now)
    ensures forall k :: k != key ==> (k in redis.store <==> k in old(redis.store))
    ensures forall k :: k != key && k in redis.store ==> redis.store[k] == old(redis.store)[k]
    ensures !allowed ==> redis.store == old(redis.store)
    ensures var live := key in old(redis.store)
                        && (old(redis.store)[key].expiresAt.Some? ==> now < old(redis.store)[key].expiresAt.value);
            && (allowed <==> !live || old(redis.store)[key].value < c.limit)
            && (!live ==>
                  redis.store == old(redis.store)[key := Entry(1, if c.window == 0 then None else Some(now + c.window))])
            && (live && allowed ==>
                  var count, expiry := old(redis.store)[key].value + 1, old(redis.store)[key].expiresAt;
                  redis.store == if count != 2 then old(redis.store)[key := Entry(count, expiry)]
                                 else if c.window == 0 then old(redis.store) - {key}
                                 else old(redis.store)[key := Entry(2, Some(now + c.window))])
  {
    var exists' := redis.Exists(key, now);
    if !exists' {
      redis.Set(key, 1, c.window, now);
      return true;
    }
    var count := redis.Get(key, now);
    if count.value >= c.limit { return false; }
    var newCount := redis.Incr(key, now);
    if newCount == 2 {
      redis.Expire(key, c.window, now);
    }
    return true;
  }

  method ClearRateLimit(redis: RedisClient, key: string, now: nat)
    modifies redis
    ensures redis.Slot(key, now) == None
    ensures forall k :: k != key ==> (k in redis.store <==> k in old(redis.store))
    ensures forall k :: k != key && k in redis.store ==> redis.store[k] == old(redis.store)[k]
  {
    redis.Del(key);
  }

  // ---- a whole history of requests ----

  predicate Sorted(ts: seq<nat>) {
    forall i, j :: 0 <= i < j < |ts| ==> ts[i] <= ts[j]
  }

  function Last(ts: seq<nat>): nat
    requires ts != []
  {
    ts[|ts| - 1]
  }

  function Before(ts: seq<nat>): seq<nat>
    requires ts != []
  {
    ts[..|ts| - 1]
  }

  function SlotAfter(c: Config, ts: seq<nat>): Slot {
    if ts == [] then None else Check(c, SlotAfter(c, Before(ts)), Last(ts)).0
  }

  predicate LastAdmitted(c: Config, ts: seq<nat>)
    requires ts != []
  {
    Check(c, SlotAfter(c, Before(ts)), Last(ts)).1
  }

  /** The instant the current counting epoch began: the last request that found no key. */
  function EpochStart(c: Config, ts: seq<nat>): nat
    requires ts != []
  {
    if Before(ts) == [] || !Alive(SlotAfter(c, Before(ts)), Last(ts)) then Last(ts) else EpochStart(c, Before(ts))
  }

  /** Requests admitted in the half-open interval [a, a + window). */
  function AdmittedIn(c: Config, ts: seq<nat>, a: nat): nat {
    if ts == [] then 0
    else AdmittedIn(c, Before(ts), a) + if a <= Last(ts) < a + c.window && LastAdmitted(c, ts) then 1 else 0
  }

  /** The most requests any interval of one window's length admits. */
  function Bound(c: Config): int {
    Max(1, c.limit) + Max(0, c.limit - 2)
  }

  ghost predicate EpochOk(c: Config, ts: seq<nat>)
    requires ts != []
  {
    var slot := SlotAfter(c, ts);
    && slot.Some? && slot.value.expiresAt.Some?
    && 1 <= slot.value.value <= Max(1, c.limit)
    && EpochStart(c, ts) <= Last(ts)
    && EpochStart(c, ts) + c.window <= slot.value.expiresAt.value < EpochStart(c, ts) + 2 * c.window
    && (slot.value.value == 1 ==> slot.value.expiresAt.value == EpochStart(c, ts) + c.window)
  }

  lemma SortedBefore(ts: seq<nat>)
    requires Sorted(ts) && ts != []
    ensures Sorted(Before(ts)) && (Before(ts) != [] ==> Last(Before(ts)) <= Last(ts))
  {}

  /** Every counting epoch lasts at least one window and less than two, and a denied request leaves it as it is. */
  lemma {:induction false} EpochsLastOneToTwoWindows(c: Config, ts: seq<nat>)
    requires c.window > 0 && Sorted(ts) && ts != []
    ensures EpochOk(c, ts)
    ensures !LastAdmitted(c, ts) ==>
              && SlotAfter(c, ts) == SlotAfter(c, Before(ts))
              && Before(ts) != [] && EpochStart(c, ts) == EpochStart(c, Before(ts))
    decreases |ts|
  {
    SortedBefore(ts);
    if Before(ts) != [] { EpochsLastOneToTwoWindows(c, Before(ts)); }
  }

  /** What has been counted since `a`, by where the current epoch stands relative to `a`. An epoch that began before
      `a` and is still counting at its second request or later has spent two of its requests before `a`
      if it ends before `a + window`. */
  ghost predicate Tally(c: Config, ts: seq<nat>, a: nat)
    requires ts != [] && EpochOk(c, ts)
  {
    var e := SlotAfter(c, ts).value;
    var n := AdmittedIn(c, ts, a);
    if Last(ts) < a then n == 0
    else if EpochStart(c, ts) < a then
      n <= e.value && (e.expiresAt.value < a + c.window ==> n <= Max(0, e.value - 2))
    else n <= e.value + Max(0, c.limit - 2)
  }

  lemma {:induction false} Tallied(c: Config, ts: seq<nat>, a: nat)
    requires c.window > 0 && Sorted(ts) && ts != [] && Last(ts) < a + c.window
    ensures EpochOk(c, ts) && Tally(c, ts, a)
    decreases |ts|
  {
    EpochsLastOneToTwoWindows(c, ts);
    if Before(ts) == [] {
      assert AdmittedIn(c, Before(ts), a) == 0;
    } else {
      SortedBefore(ts);
      EpochsLastOneToTwoWindows(c, Before(ts));
      Tallied(c, Before(ts), a);
    }
  }

  lemma TallyBound(c: Config, ts: seq<nat>, a: nat)
    requires c.window > 0 && Sorted(ts) && ts != [] && Last(ts) < a + c.window
    ensures AdmittedIn(c, ts, a) <= Bound(c)
  {
    Tallied(c, ts, a);
  }

  /** No interval of one window's length ever admits more than Bound(c) requests. */
  lemma {:induction false} WindowBound(c: Config, ts: seq<nat>, a: nat)
    requires c.window > 0 && Sorted(ts)
    ensures AdmittedIn(c, ts, a) <= Bound(c) == if c.limit >= 2 then 2 * c.limit - 2 else 1
    decreases |ts|
  {
    if ts != [] {
      SortedBefore(ts);
      if Last(ts) < a + c.window {
        TallyBound(c, ts, a);
      } else {
        WindowBound(c, Before(ts), a);
      }
    }
  }

  // ---- the bound is reached ----

  function Repeat(t: nat, k: nat): seq<nat> {
    seq(k, _ => t)
  }

  /** Two requests, the rest of the limit just before the window ends, then the whole next limit. */
  function Burst(c: Config, k: nat, j: nat): seq<nat>
    requires c.window > 0
  {
    [0, 0] + Repeat(c.window - 1, k) + Repeat(c.window, j)
  }

  lemma {:induction false} BurstFills(c: Config, k: nat)
    requires c.window >= 2 && k + 2 <= c.limit
    ensures SlotAfter(c, Burst(c, k, 0)) == Some(Entry(k + 2, Some(c.window)))
    ensures AdmittedIn(c, Burst(c, k, 0), c.window - 1) == k
  {
    var ts := Burst(c, k, 0);
    if k == 0 {
      var one: seq<nat> := [0];
      assert ts == [0, 0] && Before(ts) == one && Before(one) == [];
      assert SlotAfter(c, one) == Some(Entry(1, Some(c.window)));
      assert AdmittedIn(c, one, c.window - 1) == 0;
    } else {
      BurstFills(c, k - 1);
      assert Before(ts) == Burst(c, k - 1, 0) && Last(ts) == c.window - 1;
    }
  }

  lemma {:induction false} BurstRefills(c: Config, j: int)
    requires c.window >= 2 && 2 <= c.limit && 1 <= j <= c.limit
    ensures SlotAfter(c, Burst(c, c.limit - 2, j)) == Some(Entry(j, Some(2 * c.window)))
    ensures AdmittedIn(c, Burst(c, c.limit - 2, j), c.window - 1) == c.limit - 2 + j
  {
    var ts := Burst(c, c.limit - 2, j);
    var before := Burst(c, c.limit - 2, j - 1);
    assert Before(ts) == before && Last(ts) == c.window;
    if j == 1 {
      BurstFills(c, c.limit - 2);
      assert SlotAfter(c, before) == Some(Entry(c.limit, Some(c.window)));
    } else {
      BurstRefills(c, j - 1);
      assert SlotAfter(c, before) == Some(Entry(j - 1, Some(2 * c.window)));
    }
  }

  /** For every limit some history admits exactly Bound(c) requests within one window's length. */
  lemma BoundIsReached(c: Config)
    requires c.window >= 2
    ensures exists ts, a :: Sorted(ts) && AdmittedIn(c, ts, a) == if c.limit >= 2 then 2 * c.limit - 2 else 1
  {
    if c.limit >= 2 {
      BurstRefills(c, c.limit);
      assert Sorted(Burst(c, c.limit - 2, c.limit));
    } else {
      assert Before([0]) == [];
      assert Sorted([0]) && AdmittedIn(c, [0], 0) == 1;
    }
  }
}

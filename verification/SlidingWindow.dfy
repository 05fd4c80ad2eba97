/**
 * The request rate limiter in its two implementations: a map of bounded queues with a
 * garbage collector (common/rate-limit.go) and a Redis list (middleware/rate-limit.go).
 * Both are proved against one specification over the complete request history.
 */
module SlidingWindow {
  import opened Basics

  /** At most `max` requests in `duration` seconds. */
  datatype Limit = Limit(max: nat, duration: int)

  /** Everything that happens to a limiter, with the instant in milliseconds. `Sweep` is a pass of
      the in-memory collector, `Lapse` the moment at which Redis looks at a key's time to live. */
  datatype Event =
    | Request(key: string, ms: int)
    | Sweep(ms: int)
    | Lapse(key: string, ms: int)

  type History = seq<Event>

  ghost predicate Monotone(h: History) {
    forall i, j :: 0 <= i < j < |h| ==> h[i].ms <= h[j].ms
  }

  /** The in-memory limiter stores whole seconds, the Redis one milliseconds. */
  datatype Precision = Seconds | Millis

  function Stamp(p: Precision, ms: int): int {
    match p case Seconds => ms / 1000 case Millis => ms
  }

  /** Age in whole seconds of the stamp `t`, as each implementation computes it. */
  function Age(p: Precision, now: int, t: int): int {
    match p case Seconds => now - t case Millis => (now - t) / 1000
  }

  // ---------------------------------------------------------------- specification

  /** How many of the stamps are younger than `duration`. */
  function Young(p: Precision, a: seq<int>, now: int, duration: int): nat {
    if a == [] then 0
    else Young(p, a[..|a| - 1], now, duration) + if Age(p, now, a[|a| - 1]) < duration then 1 else 0
  }

  /** A maximum of zero behaves like one: the first request creates the queue. */
  function Capacity(limit: Limit): nat {
    if limit.max == 0 then 1 else limit.max
  }

  predicate Allowed(p: Precision, limit: Limit, a: seq<int>, now: int) {
    Young(p, a, now, limit.duration) < Capacity(limit)
  }

  function Accept(p: Precision, limit: Limit, a: seq<int>, e: Event, key: string): seq<int> {
    if e.Request? && e.key == key && Allowed(p, limit, a, Stamp(p, e.ms)) then a + [Stamp(p, e.ms)] else a
  }

  /** The stamps of all accepted requests of `key`, oldest first. */
  function Accepted(p: Precision, cfg: string -> Limit, h: History, key: string): seq<int> {
    if h == [] then []
    else Accept(p, cfg(key), Accepted(p, cfg, h[..|h| - 1], key), h[|h| - 1], key)
  }

  /** What the specification answers to the last event of `h` (a request). */
  predicate SpecAnswer(p: Precision, cfg: string -> Limit, h: History)
    requires |h| > 0 && h[|h| - 1].Request?
  {
    var key := h[|h| - 1].key;
    Allowed(p, cfg(key), Accepted(p, cfg, h[..|h| - 1], key), Stamp(p, h[|h| - 1].ms))
  }

  // ---------------------------------------------------------------- in-memory limiter

  type Store = map<string, seq<int>>

  predicate MemAnswer(store: Store, key: string, limit: Limit, now: int) {
    key in store && store[key] != [] && |store[key]| >= limit.max ==> now - store[key][0] >= limit.duration
  }

  function MemRequest(store: Store, key: string, limit: Limit, now: int): Store {
    if key !in store || store[key] == [] then store[key := [now]]
    else if |store[key]| < limit.max then store[key := store[key] + [now]]
    else if now - store[key][0] >= limit.duration then store[key := store[key][1..] + [now]]
    else store
  }

  predicate Idle(queue: seq<int>, now: int, expiration: int) {
    queue == [] || now - queue[|queue| - 1] > expiration
  }

  function MemSweep(store: Store, now: int, expiration: int): Store {
    map key | key in store && !Idle(store[key], now, expiration) :: store[key]
  }

  function MemApply(cfg: string -> Limit, expiration: int, store: Store, e: Event): Store {
    match e
    case Request(key, ms) => MemRequest(store, key, cfg(key), ms / 1000)
    case Sweep(ms) => MemSweep(store, ms / 1000, expiration)
    case Lapse(_, _) => store
  }

  function MemRun(cfg: string -> Limit, expiration: int, h: History): Store {
    if h == [] then map[]
    else MemApply(cfg, expiration, MemRun(cfg, expiration, h[..|h| - 1]), h[|h| - 1])
  }

  predicate MemRunAnswer(cfg: string -> Limit, expiration: int, h: History)
    requires |h| > 0 && h[|h| - 1].Request?
  {
    var key := h[|h| - 1].key;
    MemAnswer(MemRun(cfg, expiration, h[..|h| - 1]), key, cfg(key), h[|h| - 1].ms / 1000)
  }

  class InMemoryRateLimiter {
    var store: Store
    const expiration: int

    constructor (expiration: int)
      ensures store == map[] && this.expiration == expiration
    {
      store := map[];
      this.expiration := expiration;
    }

    /** A queue is created with its first entry, so no stored queue is empty. */
    ghost predicate Valid()
      reads this
    {
      forall key :: key in store ==> store[key] != []
    }

    method ClearExpiredItems(now: int)
      requires Valid()
      modifies this
      ensures Valid()
      ensures store == MemSweep(old(store), now, expiration)
    {
      var todo := store.Keys;
      while todo != {}
        invariant todo <= old(store).Keys
        invariant forall key :: key in store <==>
                  key in old(store) && (key in todo || !Idle(old(store)[key], now, expiration))
        invariant forall key :: key in store ==> store[key] == old(store)[key]
        decreases |todo|
      {
        var key :| key in todo;
        todo := todo - {key};
        var queue := store[key];
        if |queue| == 0 || now - queue[|queue| - 1] > expiration {
          store := store - {key};
        }
      }
    }

    method Request(key: string, limit: Limit, now: int) returns (accepted: bool)
      requires Valid()
      modifies this
      ensures Valid()
      ensures accepted == MemAnswer(old(store), key, limit, now)
      ensures store == MemRequest(old(store), key, limit, now)
    {
      if key in store {
        var queue := store[key];
        if |queue| < limit.max {
          queue := queue + [now];
          store := store[key := queue];
          return true;
        }
        if now - queue[0] >= limit.duration {
          queue := queue[1..];
          queue := queue + [now];
          store := store[key := queue];
          return true;
        }
        return false;
      }
      store := store[key := [now]];
      return true;
    }
  }

  // ---------------------------------------------------------------- Redis limiter

  /** A Redis list (newest entry first) and the instant its time to live was last renewed. */
  datatype RedisKey = RedisKey(list: seq<int>, touched: int)
  type Redis = map<string, RedisKey>

  /** Pass on, status 429, or status 500. */
  datatype Reply = Pass | TooMany | ServerError

  function RedisList(db: Redis, key: string): seq<int> {
    if key in db then db[key].list else []
  }

  function RedisReply(db: Redis, key: string, limit: Limit, now: int): Reply {
    var list := RedisList(db, key);
    if |list| < limit.max then Pass
    else if list == [] then ServerError
    else if (now - list[|list| - 1]) / 1000 < limit.duration then TooMany
    else Pass
  }

  function RedisRequest(db: Redis, key: string, limit: Limit, now: int): Redis {
    var list := RedisList(db, key);
    if |list| < limit.max then db[key := RedisKey([now] + list, now)]
    else if list == [] then db
    else if (now - list[|list| - 1]) / 1000 < limit.duration then db[key := db[key].(touched := now)]
    else db[key := RedisKey(Trimmed([now] + list, limit.max), now)]
  }

  /** LTRIM 0 (max - 1); an end index of -1 means the whole list. */
  function Trimmed(list: seq<int>, max: nat): seq<int> {
    if max == 0 || |list| <= max then list else list[..max]
  }

  /** A key may only disappear once its time to live has run out. */
  function RedisLapse(db: Redis, key: string, now: int, expiration: int): Redis {
    if key in db && now - db[key].touched >= 1000 * expiration then db - {key} else db
  }

  function RedisApply(cfg: string -> Limit, expiration: int, db: Redis, e: Event): Redis {
    match e
    case Request(key, ms) => RedisRequest(db, key, cfg(key), ms)
    case Sweep(_) => db
    case Lapse(key, ms) => RedisLapse(db, key, ms, expiration)
  }

  function RedisRun(cfg: string -> Limit, expiration: int, h: History): Redis {
    if h == [] then map[]
    else RedisApply(cfg, expiration, RedisRun(cfg, expiration, h[..|h| - 1]), h[|h| - 1])
  }

  function RedisRunReply(cfg: string -> Limit, expiration: int, h: History): Reply
    requires |h| > 0 && h[|h| - 1].Request?
  {
    var key := h[|h| - 1].key;
    RedisReply(RedisRun(cfg, expiration, h[..|h| - 1]), key, cfg(key), h[|h| - 1].ms)
  }

  class RedisRateLimiter {
    var db: Redis

    /** An empty list does not exist in Redis. */
    ghost predicate Valid()
      reads this
    {
      forall key :: key in db ==> db[key].list != []
    }

    method LPush(key: string, value: int)
      modifies this
      ensures db == old(db)[key := RedisKey([value] + RedisList(old(db), key), if key in old(db) then old(db)[key].touched else value)]
    {
      if key in db {
        db := db[key := RedisKey([value] + db[key].list, db[key].touched)];
      } else {
        db := db[key := RedisKey([value], value)];
        assert [value] == [value] + RedisList(old(db), key);
      }
    }

    method Expire(key: string, now: int)
      modifies this
      ensures db == if key in old(db) then old(db)[key := old(db)[key].(touched := now)] else old(db)
    {
      if key in db {
        db := db[key := db[key].(touched := now)];
      }
    }

    method Request(key: string, limit: Limit, now: int) returns (reply: Reply)
      requires Valid()
      modifies this
      ensures Valid()
      ensures reply == RedisReply(old(db), key, limit, now)
      ensures db == RedisRequest(old(db), key, limit, now)
    {
      var list := RedisList(db, key);
      var listLength := |list|;
      if listLength < limit.max {
        LPush(key, now);
        Expire(key, now);
        return Pass;
      }
      if list == [] {
        return ServerError;
      }
      var oldTime := list[listLength - 1];
      if (now - oldTime) / 1000 < limit.duration {
        Expire(key, now);
        return TooMany;
      }
      LPush(key, now);
      db := db[key := db[key].(list := Trimmed(db[key].list, limit.max))];
      Expire(key, now);
      return Pass;
    }
  }

  // ---------------------------------------------------------------- the window argument

  ghost predicate Sorted(a: seq<int>) {
    forall i, j :: 0 <= i < j < |a| ==> a[i] <= a[j]
  }

  /** `q` (oldest first) is the tail of the accepted stamps `a`; whatever it has forgotten can
      no longer be young at `clock` or later, unless the queue is full. */
  ghost predicate Tracks(p: Precision, limit: Limit, q: seq<int>, a: seq<int>, clock: int) {
    && Sorted(a) && (forall i :: 0 <= i < |a| ==> a[i] <= clock)
    && |q| <= |a| && |q| <= Capacity(limit)
    && q == a[|a| - |q|..]
    && (|q| < Capacity(limit) ==> forall i :: 0 <= i < |a| - |q| ==> Age(p, clock, a[i]) >= limit.duration)
  }

  lemma NoneYoung(p: Precision, a: seq<int>, now: int, duration: int)
    requires forall i :: 0 <= i < |a| ==> Age(p, now, a[i]) >= duration
    ensures Young(p, a, now, duration) == 0
  {}

  /** In a sorted list, n entries are young exactly when the n-th from the end is. */
  lemma {:induction false} YoungFromTheEnd(p: Precision, a: seq<int>, now: int, duration: int, n: nat)
    requires Sorted(a) && n >= 1
    ensures Young(p, a, now, duration) >= n <==> |a| >= n && Age(p, now, a[|a| - n]) < duration
  {
    if a != [] {
      var init := a[..|a| - 1];
      if Age(p, now, a[|a| - 1]) >= duration {
        NoneYoung(p, a, now, duration);
      } else if n > 1 {
        YoungFromTheEnd(p, init, now, duration, n - 1);
      }
    }
  }

  lemma {:induction false} YoungAtMost(p: Precision, a: seq<int>, now: int, duration: int, dead: nat)
    requires dead <= |a| && forall i :: 0 <= i < dead ==> Age(p, now, a[i]) >= duration
    ensures Young(p, a, now, duration) <= |a| - dead
  {
    if |a| == dead {
      NoneYoung(p, a, now, duration);
    } else {
      YoungAtMost(p, a[..|a| - 1], now, duration, dead);
    }
  }

  lemma TracksLater(p: Precision, limit: Limit, q: seq<int>, a: seq<int>, clock: int, now: int)
    requires Tracks(p, limit, q, a, clock) && clock <= now
    ensures Tracks(p, limit, q, a, now)
  {}

  /** One request: looking only at the bounded queue gives the answer for the whole history. */
  lemma TracksRequest(p: Precision, limit: Limit, q: seq<int>, a: seq<int>, now: int)
    requires Tracks(p, limit, q, a, now)
    ensures Allowed(p, limit, a, now) <==> |q| < Capacity(limit) || Age(p, now, q[0]) >= limit.duration
    ensures |q| < Capacity(limit) ==> Tracks(p, limit, q + [now], a + [now], now)
    ensures |q| == Capacity(limit) && Age(p, now, q[0]) >= limit.duration ==> Tracks(p, limit, q[1..] + [now], a + [now], now)
  {
    if |q| < Capacity(limit) {
      YoungAtMost(p, a, now, limit.duration, |a| - |q|);
    } else {
      YoungFromTheEnd(p, a, now, limit.duration, Capacity(limit));
      assert q[0] == a[|a| - |q|];
    }
  }

  /** Dropping a queue whose newest entry is old enough loses nothing. */
  lemma TracksForget(p: Precision, limit: Limit, q: seq<int>, a: seq<int>, now: int)
    requires Tracks(p, limit, q, a, now)
    requires q != [] ==> Age(p, now, q[|q| - 1]) >= limit.duration
    ensures Tracks(p, limit, [], a, now)
  {
    forall i | 0 <= i < |a| ensures Age(p, now, a[i]) >= limit.duration {
      if q != [] {
        assert q[|q| - 1] == a[|a| - 1];
      }
    }
  }

  // ---------------------------------------------------------------- exactness

  function Queue(store: Store, key: string): seq<int> {
    if key in store then store[key] else []
  }

  function LastMs(h: History): int {
    if h == [] then 0 else h[|h| - 1].ms
  }

  lemma MemoryStep(cfg: string -> Limit, expiration: int, store: Store, a: seq<int>, e: Event, key: string)
    requires cfg(key).duration <= expiration + 1
    requires forall k :: k in store ==> store[k] != []
    requires Tracks(Seconds, cfg(key), Queue(store, key), a, e.ms / 1000)
    ensures var next := MemApply(cfg, expiration, store, e);
            && (forall k :: k in next ==> next[k] != [])
            && Tracks(Seconds, cfg(key), Queue(next, key), Accept(Seconds, cfg(key), a, e, key), e.ms / 1000)
  {
    var q, now := Queue(store, key), e.ms / 1000;
    match e
    case Request(_, _) =>
      TracksRequest(Seconds, cfg(key), q, a, now);
      assert q == [] ==> q + [now] == [now];
    case Sweep(_) =>
      if Idle(q, now, expiration) {
        TracksForget(Seconds, cfg(key), q, a, now);
      }
    case Lapse(_, _) =>
  }

  lemma {:induction false} MemoryTracks(cfg: string -> Limit, expiration: int, h: History, key: string)
    requires Monotone(h) && h != [] && cfg(key).duration <= expiration + 1
    ensures Tracks(Seconds, cfg(key), Queue(MemRun(cfg, expiration, h), key), Accepted(Seconds, cfg, h, key), LastMs(h) / 1000)
    ensures forall k :: k in MemRun(cfg, expiration, h) ==> MemRun(cfg, expiration, h)[k] != []
  {
    var init := h[..|h| - 1];
    var store, a := MemRun(cfg, expiration, init), Accepted(Seconds, cfg, init, key);
    if init != [] {
      MemoryTracks(cfg, expiration, init, key);
      TracksLater(Seconds, cfg(key), Queue(store, key), a, LastMs(init) / 1000, LastMs(h) / 1000);
    }
    MemoryStep(cfg, expiration, store, a, h[|h| - 1], key);
  }

  /** The in-memory limiter answers every request as the specification does. */
  lemma MemoryExact(cfg: string -> Limit, expiration: int, h: History)
    requires Monotone(h) && h != [] && h[|h| - 1].Request?
    requires cfg(h[|h| - 1].key).duration <= expiration + 1
    ensures MemRunAnswer(cfg, expiration, h) == SpecAnswer(Seconds, cfg, h)
  {
    var init, key, now := h[..|h| - 1], h[|h| - 1].key, h[|h| - 1].ms / 1000;
    var q, a := Queue(MemRun(cfg, expiration, init), key), Accepted(Seconds, cfg, init, key);
    if init != [] {
      MemoryTracks(cfg, expiration, init, key);
      TracksLater(Seconds, cfg(key), q, a, LastMs(init) / 1000, now);
    }
    TracksRequest(Seconds, cfg(key), q, a, now);
  }

  ghost predicate ExactFor(cfg: string -> Limit, expiration: int, key: string, h: History) {
    Monotone(h) && h != [] && h[|h| - 1].Request? && h[|h| - 1].key == key ==>
      MemRunAnswer(cfg, expiration, h) == SpecAnswer(Seconds, cfg, h)
  }

  function Burst(key: string, n: nat): History {
    if n == 0 then [] else Burst(key, n - 1) + [Request(key, 0)]
  }

  function Zeros(n: nat): seq<int> { seq(n, _ => 0) }

  lemma ZerosYoung(n: nat, duration: int)
    requires 0 < duration
    ensures Young(Seconds, Zeros(n), 0, duration) <= n
  {
    YoungAtMost(Seconds, Zeros(n), 0, duration, 0);
  }

  lemma {:induction false} BurstAtZero(key: string, n: nat)
    ensures |Burst(key, n)| == n && forall i :: 0 <= i < n ==> Burst(key, n)[i] == Request(key, 0)
  {
    if n > 0 { BurstAtZero(key, n - 1); }
  }

  lemma BurstInit(key: string, n: nat)
    requires n > 0
    ensures var h := Burst(key, n); h != [] && h[..|h| - 1] == Burst(key, n - 1) && h[|h| - 1] == Request(key, 0)
  {}

  /** A burst at instant zero that fits the capacity is accepted completely. */
  lemma {:induction false} BurstAccepted(cfg: string -> Limit, key: string, n: nat)
    requires 0 < cfg(key).duration && n <= Capacity(cfg(key))
    ensures Accepted(Seconds, cfg, Burst(key, n), key) == Zeros(n)
  {
    if n > 0 {
      BurstAccepted(cfg, key, n - 1);
      BurstInit(key, n);
      var zeros := Zeros(n - 1);
      ZerosYoung(n - 1, cfg(key).duration);
      assert Allowed(Seconds, cfg(key), zeros, 0);
      assert zeros + [0] == Zeros(n);
    }
  }

  lemma {:induction false} BurstStored(cfg: string -> Limit, expiration: int, key: string, n: nat)
    requires n <= Capacity(cfg(key))
    ensures MemRun(cfg, expiration, Burst(key, n)) == if n == 0 then map[] else map[key := Zeros(n)]
  {
    if n > 0 {
      BurstStored(cfg, expiration, key, n - 1);
      BurstInit(key, n);
      BurstRequest(cfg, key, n);
    }
  }

  lemma BurstRequest(cfg: string -> Limit, key: string, n: nat)
    requires 0 < n <= Capacity(cfg(key))
    ensures MemRequest(if n == 1 then map[] else map[key := Zeros(n - 1)], key, cfg(key), 0) == map[key := Zeros(n)]
  {
    assert n > 1 ==> Zeros(n - 1) + [0] == Zeros(n);
    assert n == 1 ==> Zeros(n) == [0];
  }

  function BurstThenSweep(key: string, n: nat, ms: int): History {
    Burst(key, n) + [Sweep(ms)]
  }

  /** The collector forgets the burst once its age exceeds the expiration. */
  lemma BurstForgotten(cfg: string -> Limit, expiration: nat, key: string, n: nat)
    requires 0 < cfg(key).duration && n <= Capacity(cfg(key))
    ensures MemRun(cfg, expiration, BurstThenSweep(key, n, 1000 * (expiration + 1))) == map[]
    ensures Accepted(Seconds, cfg, BurstThenSweep(key, n, 1000 * (expiration + 1)), key) == Zeros(n)
  {
    var late := 1000 * (expiration + 1);
    var h := BurstThenSweep(key, n, late);
    BurstAccepted(cfg, key, n);
    BurstStored(cfg, expiration, key, n);
    assert h[..|h| - 1] == Burst(key, n);
    assert late / 1000 == expiration + 1;
    assert Idle(Zeros(n), expiration + 1, expiration);
  }

  /** In a longer window the burst still counts. */
  lemma BurstStillCounts(limit: Limit, expiration: nat)
    requires limit.duration > expiration + 1
    ensures !Allowed(Seconds, limit, Zeros(Capacity(limit)), expiration + 1)
  {
    var n := Capacity(limit);
    var a := Zeros(n);
    assert Age(Seconds, expiration + 1, a[|a| - n]) < limit.duration;
    YoungFromTheEnd(Seconds, a, expiration + 1, limit.duration, n);
  }

  lemma BurstThenSweepMonotone(key: string, n: nat, late: nat)
    ensures Monotone(BurstThenSweep(key, n, late) + [Request(key, late)])
  {
    BurstAtZero(key, n);
  }

  /** A window longer than expiration + 1 lets the collector forget requests that still count. */
  lemma TooLongWindowFails(cfg: string -> Limit, expiration: nat, key: string) returns (h: History)
    requires cfg(key).duration > expiration + 1
    ensures !ExactFor(cfg, expiration, key, h)
  {
    var n, late := Capacity(cfg(key)), 1000 * (expiration + 1);
    var swept := BurstThenSweep(key, n, late);
    h := swept + [Request(key, late)];
    assert h[..|h| - 1] == swept;
    BurstForgotten(cfg, expiration, key, n);
    BurstStillCounts(cfg(key), expiration);
    BurstThenSweepMonotone(key, n, late);
    assert late / 1000 == expiration + 1;
  }

  /** The limiter meets its specification on every history if and only if the window is no
      longer than the expiration plus one second. */
  lemma MemoryExactIff(cfg: string -> Limit, expiration: nat, key: string)
    ensures (forall h: History :: ExactFor(cfg, expiration, key, h)) <==> cfg(key).duration <= expiration + 1
  {
    if cfg(key).duration <= expiration + 1 {
      forall h: History ensures ExactFor(cfg, expiration, key, h) {
        if Monotone(h) && h != [] && h[|h| - 1].Request? && h[|h| - 1].key == key {
          MemoryExact(cfg, expiration, h);
        }
      }
    } else {
      var h := TooLongWindowFails(cfg, expiration, key);
    }
  }

  /** The queue of a key never outgrows its limit, whatever the clock and the window. */
  lemma {:induction false} QueueBounded(cfg: string -> Limit, expiration: int, h: History, key: string)
    ensures |Queue(MemRun(cfg, expiration, h), key)| <= Capacity(cfg(key))
  {
    if h != [] {
      QueueBounded(cfg, expiration, h[..|h| - 1], key);
    }
  }

  // ---------------------------------------------------------------- Redis

  function Reversed(s: seq<int>): (r: seq<int>)
    ensures |r| == |s| && forall i :: 0 <= i < |s| ==> r[i] == s[|s| - 1 - i]
  {
    seq(|s|, i requires 0 <= i < |s| => s[|s| - 1 - i])
  }

  lemma ReversedPush(s: seq<int>, x: int, n: nat)
    ensures Reversed([x] + s) == Reversed(s) + [x]
    ensures n == |s| && n > 0 ==> Reversed(Trimmed([x] + s, n)) == Reversed(s)[1..] + [x]
  {}

  /** The Redis list of `key` tracks the accepted stamps, and its time to live was renewed at or
      after its newest entry. */
  ghost predicate RedisTracks(limit: Limit, db: Redis, key: string, a: seq<int>, clock: int) {
    && Tracks(Millis, limit, Reversed(RedisList(db, key)), a, clock)
    && (key in db ==> db[key].list != [] && db[key].list[0] <= db[key].touched <= clock)
  }

  /** Every answered request renews the key's time to live, refused ones too; only a lapse at or
      after its end removes the key. */
  lemma RedisLifetime(db: Redis, key: string, limit: Limit, now: int, expiration: int)
    ensures RedisReply(db, key, limit, now) != ServerError ==>
              key in RedisRequest(db, key, limit, now) && RedisRequest(db, key, limit, now)[key].touched == now
    ensures key in RedisLapse(db, key, now, expiration) <==> key in db && now < db[key].touched + 1000 * expiration
    ensures forall k :: k != key ==>
              (k in RedisRequest(db, key, limit, now) <==> k in db) && (k in RedisLapse(db, key, now, expiration) <==> k in db)
  {}

  lemma RedisRequestStep(limit: Limit, db: Redis, a: seq<int>, key: string, now: int)
    requires limit.max > 0 && RedisTracks(limit, db, key, a, now)
    ensures RedisTracks(limit, RedisRequest(db, key, limit, now), key,
                        if Allowed(Millis, limit, a, now) then a + [now] else a, now)
  {
    var list := RedisList(db, key);
    TracksRequest(Millis, limit, Reversed(list), a, now);
    ReversedPush(list, now, limit.max);
  }

  lemma RedisLapseStep(limit: Limit, db: Redis, a: seq<int>, key: string, now: int, expiration: int)
    requires limit.duration <= expiration && RedisTracks(limit, db, key, a, now)
    ensures RedisTracks(limit, RedisLapse(db, key, now, expiration), key, a, now)
  {
    if key in db && now - db[key].touched >= 1000 * expiration {
      var q := Reversed(RedisList(db, key));
      assert Age(Millis, now, q[|q| - 1]) >= expiration;
      TracksForget(Millis, limit, q, a, now);
      assert Reversed(RedisList(db - {key}, key)) == [];
    }
  }

  lemma RedisOtherKey(cfg: string -> Limit, expiration: int, db: Redis, e: Event, key: string)
    requires !e.Sweep? ==> e.key != key
    ensures RedisList(RedisApply(cfg, expiration, db, e), key) == RedisList(db, key)
    ensures key in RedisApply(cfg, expiration, db, e) <==> key in db
    ensures key in db ==> RedisApply(cfg, expiration, db, e)[key] == db[key]
  {}

  lemma RedisStep(cfg: string -> Limit, expiration: int, db: Redis, a: seq<int>, e: Event, key: string)
    requires cfg(key).duration <= expiration && cfg(key).max > 0
    requires RedisTracks(cfg(key), db, key, a, e.ms)
    ensures RedisTracks(cfg(key), RedisApply(cfg, expiration, db, e), key, Accept(Millis, cfg(key), a, e, key), e.ms)
  {
    if e.Sweep? || e.key != key {
      RedisOtherKey(cfg, expiration, db, e, key);
    } else if e.Request? {
      RedisRequestStep(cfg(key), db, a, key, e.ms);
    } else {
      RedisLapseStep(cfg(key), db, a, key, e.ms, expiration);
    }
  }

  lemma {:induction false} RedisAlwaysTracks(cfg: string -> Limit, expiration: int, h: History, key: string)
    requires Monotone(h) && h != [] && cfg(key).duration <= expiration && cfg(key).max > 0
    ensures RedisTracks(cfg(key), RedisRun(cfg, expiration, h), key, Accepted(Millis, cfg, h, key), LastMs(h))
  {
    var init := h[..|h| - 1];
    var db, a := RedisRun(cfg, expiration, init), Accepted(Millis, cfg, init, key);
    if init != [] {
      RedisAlwaysTracks(cfg, expiration, init, key);
      TracksLater(Millis, cfg(key), Reversed(RedisList(db, key)), a, LastMs(init), LastMs(h));
    }
    RedisStep(cfg, expiration, db, a, h[|h| - 1], key);
  }

  /** So does the Redis limiter, at millisecond precision. */
  lemma RedisExact(cfg: string -> Limit, expiration: int, h: History)
    requires Monotone(h) && h != [] && h[|h| - 1].Request?
    requires cfg(h[|h| - 1].key).duration <= expiration && cfg(h[|h| - 1].key).max > 0
    ensures RedisRunReply(cfg, expiration, h) == if SpecAnswer(Millis, cfg, h) then Pass else TooMany
  {
    var init, key, now := h[..|h| - 1], h[|h| - 1].key, h[|h| - 1].ms;
    var q, a := Reversed(RedisList(RedisRun(cfg, expiration, init), key)), Accepted(Millis, cfg, init, key);
    if init != [] {
      RedisAlwaysTracks(cfg, expiration, init, key);
      TracksLater(Millis, cfg(key), q, a, LastMs(init), now);
    }
    TracksRequest(Millis, cfg(key), q, a, now);
  }

  // ---------------------------------------------------------------- the two agree

  /** Position inside the second. The two implementations round differently: one subtracts
      rounded instants, the other rounds the difference. */
  function Phase(ms: int): int { ms % 1000 }

  lemma SameAge(now: int, t: int)
    ensures now / 1000 - t / 1000 == (now - t) / 1000 <==> Phase(now) >= Phase(t)
    ensures Phase(now) < Phase(t) ==> now / 1000 - t / 1000 == (now - t) / 1000 + 1
  {
    var d := (now / 1000 - t / 1000) * 1000 + (Phase(now) - Phase(t));
    assert now - t == d;
  }

  function WholeSeconds(a: seq<int>): (r: seq<int>)
    ensures |r| == |a| && forall i :: 0 <= i < |a| ==> r[i] == a[i] / 1000
  {
    seq(|a|, i requires 0 <= i < |a| => a[i] / 1000)
  }

  /** The stamp that decides is `duration` seconds old by the seconds shown on the clock, but not
      yet by the time that has passed. */
  predicate Rounded(limit: Limit, a: seq<int>, now: int) {
    && 0 < limit.max <= |a|
    && now / 1000 - a[|a| - limit.max] / 1000 == limit.duration
    && Phase(now) < Phase(a[|a| - limit.max])
  }

  lemma AgesDifferIff(now: int, t: int, duration: int)
    ensures Phase(now) < Phase(t) && now / 1000 - t / 1000 == duration <==>
            (now / 1000 - t / 1000 < duration) != ((now - t) / 1000 < duration)
    ensures now / 1000 - t / 1000 < duration ==> (now - t) / 1000 < duration
  {
    SameAge(now, t);
  }

  /** The stamp that decides. */
  lemma Decides(p: Precision, limit: Limit, a: seq<int>, now: int)
    requires Sorted(a) && limit.max > 0
    ensures Allowed(p, limit, a, now) <==> |a| < limit.max || Age(p, now, a[|a| - limit.max]) >= limit.duration
  {
    YoungFromTheEnd(p, a, now, limit.duration, limit.max);
  }

  /** On the same accepted requests the two decide differently in exactly that case: memory
      accepts and Redis refuses. */
  lemma DecisionsDifferIff(limit: Limit, a: seq<int>, now: int)
    requires Sorted(a) && limit.max > 0
    ensures Rounded(limit, a, now) <==>
            Allowed(Seconds, limit, WholeSeconds(a), now / 1000) != Allowed(Millis, limit, a, now)
    ensures Rounded(limit, a, now) ==> Allowed(Seconds, limit, WholeSeconds(a), now / 1000)
  {
    Decides(Seconds, limit, WholeSeconds(a), now / 1000);
    Decides(Millis, limit, a, now);
    if limit.max <= |a| {
      AgesDifferIff(now, a[|a| - limit.max], limit.duration);
    }
  }

  /** So they decide alike under every limit if and only if no accepted request came later within
      its second. */
  lemma DecisionsAgreeForAllLimitsIff(a: seq<int>, now: int)
    requires Sorted(a) && forall i :: 0 <= i < |a| ==> a[i] <= now
    ensures (forall max: nat, duration: int ::
               Allowed(Seconds, Limit(max, duration), WholeSeconds(a), now / 1000)
               == Allowed(Millis, Limit(max, duration), a, now))
            <==> forall i :: 0 <= i < |a| ==> Phase(a[i]) <= Phase(now)
  {
    if forall i :: 0 <= i < |a| ==> Phase(a[i]) <= Phase(now) {
      forall max: nat, duration: int
        ensures Allowed(Seconds, Limit(max, duration), WholeSeconds(a), now / 1000)
                == Allowed(Millis, Limit(max, duration), a, now)
      {
        var limit := Limit(Capacity(Limit(max, duration)), duration);
        DecisionsDifferIff(limit, a, now);
      }
    } else {
      var i :| 0 <= i < |a| && Phase(a[i]) > Phase(now);
      var limit := Limit(|a| - i, now / 1000 - a[i] / 1000);
      DecisionsDifferIff(limit, a, now);
    }
  }

  ghost predicate RequestAt(h: History, n: nat, key: string)
    requires n < |h|
  {
    h[n].Request? && h[n].key == key
  }

  /** Event n is a request of `key` that both answer alike. */
  ghost predicate AlikeAt(cfg: string -> Limit, expiration: int, h: History, n: nat, key: string)
    requires n < |h|
  {
    RequestAt(h, n, key) ==>
      RedisRunReply(cfg, expiration, h[..n + 1]) == if MemRunAnswer(cfg, expiration, h[..n + 1]) then Pass else TooMany
  }

  /** Event n is a request of `key` whose deciding stamp is rounded differently. */
  ghost predicate RoundedAt(cfg: string -> Limit, h: History, n: nat, key: string)
    requires n < |h|
  {
    RequestAt(h, n, key) && Rounded(cfg(key), Accepted(Millis, cfg, h[..n], key), h[n].ms)
  }

  ghost predicate AlwaysAlike(cfg: string -> Limit, expiration: int, h: History, key: string) {
    forall n :: 0 <= n < |h| ==> AlikeAt(cfg, expiration, h, n, key)
  }

  ghost predicate NeverRounded(cfg: string -> Limit, h: History, key: string) {
    forall n :: 0 <= n < |h| ==> !RoundedAt(cfg, h, n, key)
  }

  lemma {:induction false} AcceptedSorted(cfg: string -> Limit, h: History, key: string)
    requires Monotone(h)
    ensures var a := Accepted(Millis, cfg, h, key);
            Sorted(a) && (h != [] ==> forall i :: 0 <= i < |a| ==> a[i] <= LastMs(h))
  {
    if h != [] {
      var init := h[..|h| - 1];
      AcceptedSorted(cfg, init, key);
      if init != [] { assert init[|init| - 1].ms <= LastMs(h); }
      SortedMore(Accepted(Millis, cfg, init, key), LastMs(h));
    }
  }

  lemma SortedMore(a: seq<int>, x: int)
    requires Sorted(a) && forall i :: 0 <= i < |a| ==> a[i] <= x
    ensures Sorted(a + [x])
  {}

  lemma PrefixAlike(cfg: string -> Limit, expiration: int, h: History, n: nat, key: string)
    requires n < |h| - 1
    ensures AlikeAt(cfg, expiration, h, n, key) == AlikeAt(cfg, expiration, h[..|h| - 1], n, key)
    ensures RoundedAt(cfg, h, n, key) == RoundedAt(cfg, h[..|h| - 1], n, key)
  {
    assert h[..|h| - 1][..n] == h[..n] && h[..|h| - 1][..n + 1] == h[..n + 1];
  }

  lemma LastAlike(cfg: string -> Limit, expiration: int, h: History, key: string)
    requires h != []
    ensures AlwaysAlike(cfg, expiration, h, key) <==>
            AlwaysAlike(cfg, expiration, h[..|h| - 1], key) && AlikeAt(cfg, expiration, h, |h| - 1, key)
  {
    var init := h[..|h| - 1];
    if AlwaysAlike(cfg, expiration, h, key) {
      forall n | 0 <= n < |init| ensures AlikeAt(cfg, expiration, init, n, key) {
        PrefixAlike(cfg, expiration, h, n, key);
      }
    } else {
      var n :| 0 <= n < |h| && !AlikeAt(cfg, expiration, h, n, key);
      if n < |h| - 1 { PrefixAlike(cfg, expiration, h, n, key); }
    }
  }

  lemma LastRounded(cfg: string -> Limit, h: History, key: string)
    requires h != []
    ensures NeverRounded(cfg, h, key) <==> NeverRounded(cfg, h[..|h| - 1], key) && !RoundedAt(cfg, h, |h| - 1, key)
  {
    var init := h[..|h| - 1];
    if NeverRounded(cfg, h, key) {
      forall n | 0 <= n < |init| ensures !RoundedAt(cfg, init, n, key) {
        PrefixAlike(cfg, 0, h, n, key);
      }
    } else {
      var n :| 0 <= n < |h| && RoundedAt(cfg, h, n, key);
      if n < |h| - 1 { PrefixAlike(cfg, 0, h, n, key); }
    }
  }

  lemma WholeSecondsMore(a: seq<int>, x: int)
    ensures WholeSeconds(a + [x]) == WholeSeconds(a) + [x / 1000]
  {}

  /** As long as no request has been rounded, both have accepted the same ones. */
  lemma {:induction false} AcceptedAlike(cfg: string -> Limit, h: History, key: string)
    requires Monotone(h) && cfg(key).max > 0 && NeverRounded(cfg, h, key)
    ensures Accepted(Seconds, cfg, h, key) == WholeSeconds(Accepted(Millis, cfg, h, key))
  {
    if h != [] {
      var init, last := h[..|h| - 1], h[|h| - 1];
      var a := Accepted(Millis, cfg, init, key);
      LastRounded(cfg, h, key);
      AcceptedAlike(cfg, init, key);
      AcceptedSorted(cfg, init, key);
      assert !RoundedAt(cfg, h, |h| - 1, key);
      DecisionsDifferIff(cfg(key), a, last.ms);
      WholeSecondsMore(a, last.ms);
    }
  }

  lemma LastAlikeIff(cfg: string -> Limit, expiration: int, h: History, key: string)
    requires Monotone(h) && h != [] && cfg(key).duration <= expiration && cfg(key).max > 0
    requires NeverRounded(cfg, h[..|h| - 1], key)
    ensures AlikeAt(cfg, expiration, h, |h| - 1, key) <==> !RoundedAt(cfg, h, |h| - 1, key)
  {
    var init, last := h[..|h| - 1], h[|h| - 1];
    assert h[..|h|] == h;
    if RequestAt(h, |h| - 1, key) {
      MemoryExact(cfg, expiration, h);
      RedisExact(cfg, expiration, h);
      AcceptedAlike(cfg, init, key);
      AcceptedSorted(cfg, init, key);
      DecisionsDifferIff(cfg(key), Accepted(Millis, cfg, init, key), last.ms);
    }
  }

  /** Over a whole history, with any collector passes and lapses in between, the in-memory and the
      Redis limiter answer every request of a key alike if and only if no request finds the stamp
      that decides rounded differently. */
  lemma {:induction false} TwinsAgreeIff(cfg: string -> Limit, expiration: int, h: History, key: string)
    requires Monotone(h) && cfg(key).duration <= expiration && cfg(key).max > 0
    ensures AlwaysAlike(cfg, expiration, h, key) <==> NeverRounded(cfg, h, key)
  {
    if h != [] {
      TwinsAgreeIff(cfg, expiration, h[..|h| - 1], key);
      LastAlike(cfg, expiration, h, key);
      LastRounded(cfg, h, key);
      if NeverRounded(cfg, h[..|h| - 1], key) {
        LastAlikeIff(cfg, expiration, h, key);
      }
    }
  }

  /** The requests of the key never come earlier within their second than one before (for
      instance because all are made at whole seconds). */
  ghost predicate PhasesNeverDecrease(h: History, key: string) {
    forall i, j :: 0 <= i < j < |h| && RequestAt(h, i, key) && RequestAt(h, j, key) ==> Phase(h[i].ms) <= Phase(h[j].ms)
  }

  lemma {:induction false} AcceptedWereRequested(cfg: string -> Limit, h: History, key: string, x: int) returns (n: nat)
    requires x in Accepted(Millis, cfg, h, key)
    ensures n < |h| && RequestAt(h, n, key) && h[n].ms == x
  {
    var init := h[..|h| - 1];
    if x in Accepted(Millis, cfg, init, key) {
      n := AcceptedWereRequested(cfg, init, key, x);
    } else {
      n := |h| - 1;
    }
  }

  lemma LaterPhaseNotRounded(cfg: string -> Limit, h: History, n: nat, key: string)
    requires n < |h| && PhasesNeverDecrease(h, key) && cfg(key).max > 0
    ensures !RoundedAt(cfg, h, n, key)
  {
    var a := Accepted(Millis, cfg, h[..n], key);
    if RequestAt(h, n, key) && cfg(key).max <= |a| {
      var o := a[|a| - cfg(key).max];
      var m := AcceptedWereRequested(cfg, h[..n], key, o);
      assert h[..n][m] == h[m] && RequestAt(h, m, key);
      assert Phase(o) <= Phase(h[n].ms);
    }
  }

  /** For instance, they agree on every such history. */
  lemma TwinsAgree(cfg: string -> Limit, expiration: int, h: History, key: string)
    requires Monotone(h) && PhasesNeverDecrease(h, key)
    requires cfg(key).duration <= expiration && cfg(key).max > 0
    ensures AlwaysAlike(cfg, expiration, h, key)
  {
    forall n | 0 <= n < |h| ensures !RoundedAt(cfg, h, n, key) {
      LaterPhaseNotRounded(cfg, h, n, key);
    }
    TwinsAgreeIff(cfg, expiration, h, key);
  }

  /** Two requests are enough to set them apart: under a limit of one, whenever the second comes
      earlier within its second and exactly the window later by the clock. */
  lemma TwinsDiffer(cfg: string -> Limit, expiration: int, key: string, t: int, now: int)
    requires t <= now && Phase(now) < Phase(t)
    requires cfg(key) == Limit(1, now / 1000 - t / 1000) && cfg(key).duration <= expiration
    ensures var h := [Request(key, t), Request(key, now)];
            MemRunAnswer(cfg, expiration, h) && RedisRunReply(cfg, expiration, h) == TooMany
  {
    var h := [Request(key, t), Request(key, now)];
    assert h[..|h| - 1] == [Request(key, t)];
    FirstAccepted(cfg, key, t);
    assert WholeSeconds([t]) == [t / 1000];
    DecisionsDifferIff(cfg(key), [t], now);
    MemoryExact(cfg, expiration, h);
    RedisExact(cfg, expiration, h);
  }

  lemma FirstAccepted(cfg: string -> Limit, key: string, t: int)
    ensures Accepted(Millis, cfg, [Request(key, t)], key) == [t]
    ensures Accepted(Seconds, cfg, [Request(key, t)], key) == [t / 1000]
  {
    assert [Request(key, t)][..0] == [];
    assert [] + [t] == [t] && [] + [t / 1000] == [t / 1000];
  }
}

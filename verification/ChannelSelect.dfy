/**
 * Choosing a channel from the in-memory index (model/cache.go) and the retry loop that keeps
 * choosing until an upstream call succeeds (controller/relay.go).
 */
module ChannelSelect {
  import opened Basics
  import opened Channels
  import opened ChannelLimit

  // ---------------------------------------------------------------- one priority level

  function AtLevel(channels: seq<Channel>, priority: int, excluded: set<int>): (r: seq<Channel>)
    ensures forall c :: c in r <==> c in channels && c.Priority() == priority && c.id !in excluded
  {
    if channels == [] then []
    else
      var c := channels[|channels| - 1];
      AtLevel(channels[..|channels| - 1], priority, excluded)
      + if c.Priority() == priority && c.id !in excluded then [c] else []
  }

  function TotalWeight(channels: seq<Channel>): nat {
    if channels == [] then 0
    else TotalWeight(channels[..|channels| - 1]) + channels[|channels| - 1].Weight()
  }

  method FilterAndWeightChannels(channels: seq<Channel>, priority: int, excluded: set<int>)
    returns (level: seq<Channel>, totalWeight: nat)
    ensures level == AtLevel(channels, priority, excluded)
    ensures totalWeight == TotalWeight(level)
  {
    level, totalWeight := [], 0;
    for k := 0 to |channels|
      invariant level == AtLevel(channels[..k], priority, excluded)
      invariant totalWeight == TotalWeight(level)
    {
      assert channels[..k + 1][..k] == channels[..k];
      var ch := channels[k];
      if ch.Priority() == priority && ch.id !in excluded {
        assert (level + [ch])[..|level|] == level;
        level := level + [ch];
        totalWeight := totalWeight + ch.Weight();
      }
    }
    assert channels[..|channels|] == channels;
  }

  function Elems(channels: seq<Channel>): set<Channel> {
    set c | c in channels
  }

  /** The priorities below `priority`. */
  function Lower(pool: set<Channel>, priority: int): set<int> {
    set c | c in pool && c.Priority() < priority :: c.Priority()
  }

  method GetNextLowerPriority(channels: seq<Channel>, current: int) returns (next: Option<int>)
    ensures next.None? <==> Lower(Elems(channels), current) == {}
    ensures next.Some? ==> next.value in Lower(Elems(channels), current)
    ensures next.Some? ==> forall c :: c in channels && c.Priority() < current ==> c.Priority() <= next.value
  {
    var lowestFound, found := -1, false;
    for k := 0 to |channels|
      invariant found <==> exists j :: 0 <= j < k && channels[j].Priority() < current
      invariant found ==> exists j :: 0 <= j < k && channels[j].Priority() == lowestFound < current
      invariant found ==> forall j :: 0 <= j < k && channels[j].Priority() < current ==> channels[j].Priority() <= lowestFound
    {
      var ch := channels[k];
      if ch.Priority() < current && (!found || ch.Priority() > lowestFound) {
        lowestFound, found := ch.Priority(), true;
      }
    }
    next := if found then Some(lowestFound) else None;
    forall c | c in channels && c.Priority() < current
      ensures found && c.Priority() <= lowestFound
    {
      var j :| 0 <= j < |channels| && channels[j] == c;
    }
    if found {
      var j :| 0 <= j < |channels| && channels[j].Priority() == lowestFound;
      assert channels[j] in channels && channels[j].Priority() in Lower(Elems(channels), current);
    } else {
      assert Lower(Elems(channels), current) == {};
    }
  }

  // ---------------------------------------------------------------- weighted choice

  /** `draw` falls into the slice of entry k when the weights are laid end to end. */
  predicate InSlice(channels: seq<Channel>, draw: int, k: int) {
    0 <= k < |channels| && TotalWeight(channels[..k]) <= draw < TotalWeight(channels[..k + 1])
  }

  ghost predicate NoneLimited(pool: set<Channel>) {
    forall c :: c in pool ==> !c.Limited()
  }

  /** No status has changed. */
  ghost predicate Uncounted(before: map<Key, Limit>, after: map<Key, Limit>) {
    forall key :: StatusOf(after, key) == StatusOf(before, key)
  }

  /** Only the status of the chosen channel has changed: a limited channel was granted and is
      counted by the check and again by the update, any other by the update alone. */
  ghost predicate Counted(before: map<Key, Limit>, after: map<Key, Limit>, c: Channel, model: string, now: int) {
    var s := StatusOf(before, (c.id, model));
    && (c.Limited() ==> Grants(s, now))
    && StatusOf(after, (c.id, model)) == Updated(if c.Limited() then Checked(s, now) else s, now)
    && forall key :: key != (c.id, model) ==> StatusOf(after, key) == StatusOf(before, key)
  }

  method RandomSelection(limits: ChannelLimits, channels: seq<Channel>, model: string, now: int) returns (r: Option<Channel>)
    modifies limits
    ensures r.Some? ==> r.value in channels && !r.value.Limited()
    ensures r.None? <==> forall c :: c in channels ==> c.Limited()
    ensures if r.Some? then Counted(old(limits.table), limits.table, r.value, model, now) else Uncounted(old(limits.table), limits.table)
  {
    var free: seq<Channel> := [];
    for k := 0 to |channels|
      invariant forall c :: c in free ==> c in channels && !c.Limited()
      invariant forall j :: 0 <= j < k && !channels[j].Limited() ==> channels[j] in free
    {
      if !channels[k].Limited() {
        free := free + [channels[k]];
      }
    }
    if |free| == 0 {
      return None;
    }
    assert free[0] in channels;
    var index :| 0 <= index < |free|;
    limits.UpdateRateLimitStatus(free[index].id, model, now);
    return Some(free[index]);
  }

  /** `draw` is the value of rand.Intn(totalWeight). */
  method WeightedRandomSelection(limits: ChannelLimits, channels: seq<Channel>, totalWeight: nat, draw: int, model: string, now: int)
    returns (r: Option<Channel>)
    requires totalWeight == TotalWeight(channels) && (totalWeight > 0 ==> 0 <= draw < totalWeight)
    modifies limits
    ensures r.Some? ==> r.value in channels
    ensures NoneLimited(Elems(channels)) && channels != [] ==> r.Some?
    ensures NoneLimited(Elems(channels)) && totalWeight > 0 ==> exists k :: InSlice(channels, draw, k) && r == Some(channels[k])
    ensures r.Some? && totalWeight > 0 ==> exists k :: 0 <= k < |channels| && r.value == channels[k] && draw < TotalWeight(channels[..k + 1])
    ensures if r.Some? then Counted(old(limits.table), limits.table, r.value, model, now) else Uncounted(old(limits.table), limits.table)
  {
    if totalWeight == 0 {
      r := RandomSelection(limits, channels, model, now);
      assert channels != [] ==> channels[0] in channels;
      return;
    }
    var randomWeight := draw;
    for k := 0 to |channels|
      invariant randomWeight == draw - TotalWeight(channels[..k])
      invariant NoneLimited(Elems(channels)) ==> randomWeight >= 0
      invariant Uncounted(old(limits.table), limits.table)
    {
      var channel := channels[k];
      assert channels[..k + 1][..k] == channels[..k];
      randomWeight := randomWeight - channel.Weight();
      if randomWeight < 0 {
        if channel.Limited() {
          var ok := limits.CheckRateLimit(channel.id, model, now);
          if !ok {
            continue;
          }
        }
        limits.UpdateRateLimitStatus(channel.id, model, now);
        assert NoneLimited(Elems(channels)) ==> InSlice(channels, draw, k);
        return Some(channel);
      }
    }
    assert channels[..|channels|] == channels;
    return None;
  }

  /** The integers from `lo` up to, but not including, `hi`. */
  function Interval(lo: int, hi: int): (r: set<int>)
    ensures forall d :: d in r <==> lo <= d < hi
    ensures |r| == Max(0, hi - lo)
    decreases hi - lo
  {
    if lo >= hi then {} else Interval(lo, hi - 1) + {hi - 1}
  }

  /** The draws that belong to entry k. */
  function Draws(channels: seq<Channel>, k: int): set<int> {
    set draw | draw in Interval(0, TotalWeight(channels)) && InSlice(channels, draw, k)
  }

  lemma {:induction false} PrefixWeight(channels: seq<Channel>, j: nat, k: nat)
    requires j <= k <= |channels|
    ensures TotalWeight(channels[..j]) <= TotalWeight(channels[..k])
  {
    if j < k {
      PrefixWeight(channels, j, k - 1);
      assert channels[..k][..k - 1] == channels[..k - 1];
    }
  }

  /** Precisely Weight(c) of the totalWeight equally likely draws belong to entry c; entries of
      weight zero are never drawn. */
  lemma ExactlyProportional(channels: seq<Channel>, k: nat)
    requires k < |channels|
    ensures |Draws(channels, k)| == channels[k].Weight()
    ensures channels[k].Weight() == 0 <==> Draws(channels, k) == {}
  {
    var lo, hi := TotalWeight(channels[..k]), TotalWeight(channels[..k + 1]);
    assert channels[..k + 1][..k] == channels[..k];
    PrefixWeight(channels, k + 1, |channels|);
    assert channels[..|channels|] == channels;
    assert Draws(channels, k) == Interval(lo, hi);
  }

  /** Every draw belongs to exactly one entry. */
  lemma {:induction false} EveryDrawSelectsOne(channels: seq<Channel>, draw: int) returns (k: nat)
    requires 0 <= draw < TotalWeight(channels)
    ensures InSlice(channels, draw, k)
    ensures forall j :: InSlice(channels, draw, j) ==> j == k
  {
    var last := |channels| - 1;
    assert channels[..|channels|] == channels;
    if draw >= TotalWeight(channels[..last]) {
      k := last;
    } else {
      k := EveryDrawSelectsOne(channels[..last], draw);
      assert channels[..last][..k] == channels[..k] && channels[..last][..k + 1] == channels[..k + 1];
    }
    forall j | InSlice(channels, draw, j) ensures j == k {
      if j < k {
        PrefixWeight(channels, j + 1, k);
      } else if k < j {
        PrefixWeight(channels, k + 1, j);
      }
    }
  }

  // ---------------------------------------------------------------- the priority search

  /** The last retry starts one level lower. */
  predicate Second(ignoreFirstPriority: bool, i: int) {
    ignoreFirstPriority && i == 1
  }

  /** The level the search starts from: the highest priority, or on the last retry the second
      highest one. */
  ghost predicate StartLevel(pool: set<Channel>, second: bool, p: int) {
    if second then
      exists top :: Highest(pool, top) && p in Lower(pool, top)
                    && forall c :: c in pool && c.Priority() < top ==> c.Priority() <= p
    else
      Highest(pool, p)
  }

  ghost predicate Highest(pool: set<Channel>, p: int) {
    (exists c :: c in pool && c.Priority() == p) && forall c :: c in pool ==> c.Priority() <= p
  }

  /** `c` may be chosen: present, not excluded, and not above the starting level. */
  ghost predicate Eligible(pool: set<Channel>, excluded: set<int>, second: bool, c: Channel) {
    c in pool && c.id !in excluded && exists p :: StartLevel(pool, second, p) && c.Priority() <= p
  }

  method ResolveInitialPriority(channels: seq<Channel>, ignoreFirstPriority: bool, i: int) returns (p: Option<int>)
    requires ByPriority(channels) && channels != []
    ensures p.Some? ==> forall q :: StartLevel(Elems(channels), Second(ignoreFirstPriority, i), q) <==> q == p.value
    ensures p.None? ==> forall q :: !StartLevel(Elems(channels), Second(ignoreFirstPriority, i), q)
  {
    assert Highest(Elems(channels), channels[0].Priority()) by {
      assert channels[0] in channels;
    }
    assert forall q :: Highest(Elems(channels), q) ==> q == channels[0].Priority();
    if ignoreFirstPriority && i == 1 {
      p := GetNextLowerPriority(channels, channels[0].Priority());
      if p.Some? {
        assert StartLevel(Elems(channels), true, p.value);
      }
      return;
    }
    return Some(channels[0].Priority());
  }

  /** One priority level: filter it, draw, and try to select. */
  method TryLevel(limits: ChannelLimits, channels: seq<Channel>, excluded: set<int>, current: int, model: string, now: int)
    returns (r: Option<Channel>)
    modifies limits
    ensures r.Some? ==> r.value in channels && r.value.Priority() == current && r.value.id !in excluded
    ensures NoneLimited(Elems(channels)) && r.None? ==>
              forall c :: c in channels && c.Priority() == current ==> c.id in excluded
    ensures if r.Some? then Counted(old(limits.table), limits.table, r.value, model, now) else Uncounted(old(limits.table), limits.table)
  {
    var level, totalWeight := FilterAndWeightChannels(channels, current, excluded);
    assert NoneLimited(Elems(channels)) ==> NoneLimited(Elems(level));
    r := None;
    if |level| > 0 {
      var draw := 0;
      if totalWeight > 0 {
        draw :| 0 <= draw < totalWeight;
      }
      r := WeightedRandomSelection(limits, level, totalWeight, draw, model, now);
    }
    assert level == [] ==> forall c :: c in channels && c.Priority() == current && c.id !in excluded ==> c in level;
  }

  lemma CountedLater(before: map<Key, Limit>, mid: map<Key, Limit>, after: map<Key, Limit>, r: Option<Channel>, model: string, now: int)
    requires Uncounted(before, mid)
    requires if r.Some? then Counted(mid, after, r.value, model, now) else Uncounted(mid, after)
    ensures if r.Some? then Counted(before, after, r.value, model, now) else Uncounted(before, after)
  {}

  /** None stands for the errors of the original. */
  method SelectChannel(limits: ChannelLimits, channels: seq<Channel>, excluded: set<int>, ignoreFirstPriority: bool,
                       i: int, model: string, now: int)
    returns (r: Option<Channel>)
    requires ByPriority(channels)
    modifies limits
    ensures r.Some? ==> Eligible(Elems(channels), excluded, Second(ignoreFirstPriority, i), r.value)
    ensures NoneLimited(Elems(channels)) ==>
              (r.Some? <==> exists c :: Eligible(Elems(channels), excluded, Second(ignoreFirstPriority, i), c))
    ensures NoneLimited(Elems(channels)) && r.Some? ==>
              forall c :: Eligible(Elems(channels), excluded, Second(ignoreFirstPriority, i), c) ==> c.Priority() <= r.value.Priority()
    ensures if r.Some? then Counted(old(limits.table), limits.table, r.value, model, now) else Uncounted(old(limits.table), limits.table)
  {
    ghost var second := Second(ignoreFirstPriority, i);
    if |channels| == 0 {
      return None;
    }
    var start := ResolveInitialPriority(channels, ignoreFirstPriority, i);
    if start.None? {
      return None;
    }
    assert StartLevel(Elems(channels), second, start.value);
    assert forall c :: Eligible(Elems(channels), excluded, second, c) <==>
                       c in channels && c.id !in excluded && c.Priority() <= start.value;
    var current := start.value;
    while true
      invariant current <= start.value
      invariant NoneLimited(Elems(channels)) ==>
                  forall c :: c in channels && c.id !in excluded && c.Priority() <= start.value ==> c.Priority() <= current
      invariant Uncounted(old(limits.table), limits.table)
      decreases Lower(Elems(channels), current)
    {
      ghost var mid := limits.table;
      r := TryLevel(limits, channels, excluded, current, model, now);
      CountedLater(old(limits.table), mid, limits.table, r, model, now);
      if r.Some? {
        return;
      }
      var next := GetNextLowerPriority(channels, current);
      if next.None? {
        assert forall c :: c in channels && c.Priority() < current ==> c.Priority() in Lower(Elems(channels), current);
        return None;
      }
      assert next.value !in Lower(Elems(channels), next.value) && Lower(Elems(channels), next.value) <= Lower(Elems(channels), current);
      current := next.value;
    }
  }

  // ---------------------------------------------------------------- lookup in the index

  const GIZMO := "gpt-4-gizmo"

  function IndexedModel(model: string): (r: string)
    ensures r == model || r == "gpt-4-gizmo-*"
    ensures |model| >= 11 && model[..11] == "gpt-4-gizmo" ==> r == "gpt-4-gizmo-*"
    ensures !("gpt-4-gizmo" <= model) ==> r == model
  {
    if GIZMO <= model then GIZMO + "-*" else model
  }

  predicate ToolsOk(c: Channel, claudeOriginalRequest: bool) {
    c.isTools == Some(true) || (claudeOriginalRequest && c.claudeOriginal)
  }

  function FilterByTools(channels: seq<Channel>, claudeOriginalRequest: bool): (r: seq<Channel>)
    requires ByPriority(channels)
    ensures ByPriority(r)
    ensures forall c :: c in r <==> c in channels && (c.isTools == Some(true) || (claudeOriginalRequest && c.claudeOriginal))
  {
    if channels == [] then []
    else
      var c := channels[|channels| - 1];
      var rest := FilterByTools(channels[..|channels| - 1], claudeOriginalRequest);
      assert forall j :: 0 <= j < |rest| ==> rest[j] in rest;
      rest + if ToolsOk(c, claudeOriginalRequest) then [c] else []
  }

  datatype Query = Query(group: string, model: string, isTools: bool, claudeOriginalRequest: bool)

  /** The channels a query may use. */
  function Pool(index: Index, q: Query): set<Channel> {
    set c | c in Lookup(index, q.group, IndexedModel(q.model))
            && (q.isTools || q.claudeOriginalRequest ==> ToolsOk(c, q.claudeOriginalRequest))
  }

  function IdSet(ids: seq<int>): set<int> {
    set id | id in ids
  }

  /** sortChannels, then filterByTools. */
  method SearchOrder(all: seq<Channel>, q: Query) returns (channels: seq<Channel>)
    ensures ByPriority(channels)
    ensures forall c :: c in channels <==>
              c in all && (q.isTools || q.claudeOriginalRequest ==> ToolsOk(c, q.claudeOriginalRequest))
  {
    channels := SortByPriority(all);
    if q.isTools || q.claudeOriginalRequest {
      channels := FilterByTools(channels, q.claudeOriginalRequest);
    }
  }

  method CacheGetRandomSatisfiedChannel(limits: ChannelLimits, index: Index, q: Query, ignoreFirstPriority: bool,
                                        excludedIds: seq<int>, i: int, now: int)
    returns (r: Option<Channel>)
    modifies limits
    ensures var pool, second, excluded := Pool(index, q), Second(ignoreFirstPriority, i), IdSet(excludedIds);
            && (r.Some? ==> Eligible(pool, excluded, second, r.value))
            && (NoneLimited(pool) ==> (r.Some? <==> exists c :: Eligible(pool, excluded, second, c)))
            && (NoneLimited(pool) && r.Some? ==>
                  forall c :: Eligible(pool, excluded, second, c) ==> c.Priority() <= r.value.Priority())
    ensures if r.Some? then Counted(old(limits.table), limits.table, r.value, IndexedModel(q.model), now)
            else Uncounted(old(limits.table), limits.table)
  {
    var all := Lookup(index, q.group, IndexedModel(q.model));
    var channels := SearchOrder(all, q);
    assert Elems(channels) == Pool(index, q);
    if |all| == 0 {
      assert Pool(index, q) == {};
      return None;
    }
    r := SelectChannel(limits, channels, IdSet(excludedIds), ignoreFirstPriority, i, IndexedModel(q.model), now);
  }

  // ---------------------------------------------------------------- the retry loop

  /** Client errors of status 400 and successes are not tried again, nor is a request for a specific
      channel; everything else is. */
  lemma RetryByStatus(specificChannel: bool, status: int)
    ensures ShouldRetry(specificChannel, status) <==> !specificChannel && status != 400 && !(200 <= status < 300)
  {}

  predicate ShouldRetry(specificChannel: bool, status: int) {
    if specificChannel then false
    else if status == 429 then true
    else if status / 100 == 5 then true
    else if status == 400 then false
    else if status / 100 == 2 then false
    else true
  }

  /** Round k of the loop (counted from zero) has nothing to try. */
  ghost predicate NothingLeft(index: Index, q: Query, tried: seq<int>, k: nat, retryTimes: int) {
    var second := Second(k > 0, retryTimes - k);
    NoneLimited(Pool(index, q)) ==> forall c :: c in Pool(index, q) ==> !Eligible(Pool(index, q), IdSet(tried), second, c)
  }

  ghost predicate OneOf(index: Index, q: Query, id: int) {
    exists c :: c in Pool(index, q) && c.id == id
  }

  /** The channel of that id is one that the query may use. On the last retry, unless it is also
      the first, it lies below the highest priority; on the others, when none is limited, no
      untried channel has a higher priority. */
  ghost predicate WellChosen(index: Index, q: Query, tried: seq<int>, id: int, last: bool) {
    exists c :: c in Pool(index, q) && c.id == id
      && (if last then HasAbove(Pool(index, q), c) else NoneLimited(Pool(index, q)) ==> BestUntried(Pool(index, q), tried, c))
  }

  ghost predicate HasAbove(pool: set<Channel>, c: Channel) {
    exists d :: d in pool && d.Priority() > c.Priority()
  }

  ghost predicate BestUntried(pool: set<Channel>, tried: seq<int>, c: Channel) {
    forall d :: d in pool && d.id !in tried ==> d.Priority() <= c.Priority()
  }

  /** From the highest priority down, every channel is eligible. */
  lemma AllEligibleFromTheTop(pool: set<Channel>, excluded: set<int>, d: Channel, p: int)
    requires Highest(pool, p) && d in pool && d.id !in excluded
    ensures Eligible(pool, excluded, false, d)
  {
    assert StartLevel(pool, false, p) && d.Priority() <= p;
  }

  lemma EligibleIsWellChosen(index: Index, q: Query, tried: seq<int>, c: Channel, last: bool)
    requires Eligible(Pool(index, q), IdSet(tried), last, c)
    requires NoneLimited(Pool(index, q)) ==>
               forall d :: Eligible(Pool(index, q), IdSet(tried), last, d) ==> d.Priority() <= c.Priority()
    ensures WellChosen(index, q, tried, c.id, last)
  {
    var pool := Pool(index, q);
    var p :| StartLevel(pool, last, p) && c.Priority() <= p;
    if last {
      var top :| Highest(pool, top) && p in Lower(pool, top);
      var d :| d in pool && d.Priority() == top;
      assert HasAbove(pool, c);
    } else if NoneLimited(pool) {
      forall d | d in pool && d.id !in tried ensures d.Priority() <= c.Priority() {
        AllEligibleFromTheTop(pool, IdSet(tried), d, p);
      }
    }
  }

  /** One round of the loop: the argument `i` of the original is `times - round`. */
  method NextChannel(limits: ChannelLimits, index: Index, q: Query, failedIds: seq<int>, round: nat, times: int, now: int)
    returns (r: Option<int>)
    modifies limits
    ensures r.Some? ==> OneOf(index, q, r.value) && r.value !in failedIds
    ensures r.Some? ==> WellChosen(index, q, failedIds, r.value, round > 0 && round + 1 == times)
    ensures r.None? ==> NothingLeft(index, q, failedIds, round, times)
  {
    var channel := CacheGetRandomSatisfiedChannel(limits, index, q, times - round != times, failedIds, times - round, now);
    if channel.None? {
      assert Second(times - round != times, times - round) == Second(round > 0, times - round);
      return None;
    }
    EligibleIsWellChosen(index, q, failedIds, channel.value, Second(times - round != times, times - round));
    return Some(channel.value.id);
  }

  /** Attempt n, made by round n - 1. */
  ghost predicate Attempted(attempts: seq<int>, indexes: seq<Index>, q: Query, n: nat)
    requires 1 <= n < |attempts| <= 1 + |indexes|
  {
    OneOf(indexes[n - 1], q, attempts[n]) && WellChosen(indexes[n - 1], q, attempts[..n], attempts[n], n > 1 && n == |indexes|)
  }

  /** The channels tried so far: `first`, then one from the index of each round, no channel twice. */
  ghost predicate Trail(attempts: seq<int>, first: int, indexes: seq<Index>, q: Query) {
    && 1 <= |attempts| <= 1 + |indexes| && attempts[0] == first && Distinct(attempts)
    && forall n :: 1 <= n < |attempts| ==> Attempted(attempts, indexes, q, n)
  }

  lemma AttemptedStill(attempts: seq<int>, indexes: seq<Index>, q: Query, id: int, n: nat)
    requires 1 <= n < |attempts| <= |indexes| && Attempted(attempts, indexes, q, n)
    ensures Attempted(attempts + [id], indexes, q, n)
  {
    assert (attempts + [id])[..n] == attempts[..n];
  }

  lemma AttemptedLast(attempts: seq<int>, indexes: seq<Index>, q: Query, id: int)
    requires 1 <= |attempts| <= |indexes| && OneOf(indexes[|attempts| - 1], q, id)
    requires WellChosen(indexes[|attempts| - 1], q, attempts, id, |attempts| > 1 && |attempts| == |indexes|)
    ensures Attempted(attempts + [id], indexes, q, |attempts|)
  {
    assert (attempts + [id])[..|attempts|] == attempts;
  }

  lemma TrailGrows(attempts: seq<int>, first: int, indexes: seq<Index>, q: Query, id: int)
    requires Trail(attempts, first, indexes, q) && |attempts| <= |indexes|
    requires OneOf(indexes[|attempts| - 1], q, id) && id !in attempts
    requires WellChosen(indexes[|attempts| - 1], q, attempts, id, |attempts| > 1 && |attempts| == |indexes|)
    ensures Trail(attempts + [id], first, indexes, q)
  {
    var more := attempts + [id];
    forall n | 1 <= n < |more| ensures Attempted(more, indexes, q, n) {
      if n < |attempts| {
        AttemptedStill(attempts, indexes, q, id, n);
      } else {
        AttemptedLast(attempts, indexes, q, id);
      }
    }
  }

  /**
   * One client request. `upstream[n]` is what the n-th upstream call would answer (None is
   * success, otherwise the status), `indexes[k]` the index as round k of the retry loop sees it.
   */
  method Relay(limits: ChannelLimits, first: int, q: Query, specificChannel: bool, retryTimes: int,
               upstream: seq<Option<int>>, indexes: seq<Index>, now: int)
    returns (attempts: seq<int>, answer: Option<int>, skips: int)
    requires |upstream| == 1 + Max(0, retryTimes) && |indexes| == Max(0, retryTimes)
    modifies limits
    ensures 1 <= |attempts| <= 1 + Max(0, retryTimes) && Trail(attempts, first, indexes, q)
    ensures skips == 0
    ensures answer == upstream[|attempts| - 1]
    ensures forall n :: 0 <= n < |attempts| - 1 ==> upstream[n].Some?
    ensures |attempts| > 1 ==> ShouldRetry(specificChannel, upstream[0].value)
    ensures answer.Some? && ShouldRetry(specificChannel, upstream[0].value) && |attempts| < 1 + retryTimes ==>
              NothingLeft(indexes[|attempts| - 1], q, attempts, |attempts| - 1, retryTimes)
  {
    attempts, skips, answer := [first], 0, upstream[0];
    if answer.Some? && ShouldRetry(specificChannel, answer.value) && retryTimes > 0 {
      attempts, answer, skips := Retry(limits, first, q, retryTimes, upstream, indexes, now);
    }
  }

  method Retry(limits: ChannelLimits, first: int, q: Query, times: nat, upstream: seq<Option<int>>, indexes: seq<Index>, now: int)
    returns (attempts: seq<int>, answer: Option<int>, skips: int)
    requires |upstream| == 1 + times && |indexes| == times && upstream[0].Some?
    modifies limits
    ensures Trail(attempts, first, indexes, q) && skips == 0
    ensures answer == upstream[|attempts| - 1]
    ensures forall n :: 0 <= n < |attempts| - 1 ==> upstream[n].Some?
    ensures answer.Some? && |attempts| < 1 + times ==>
              NothingLeft(indexes[|attempts| - 1], q, attempts, |attempts| - 1, times)
  {
    attempts, skips, answer := [first], 0, upstream[0];
    var lastFailed := first;
    var i := times;
    while i > 0
      invariant skips == 0 && Trail(attempts, first, indexes, q) && |attempts| == 1 + times - i
      invariant lastFailed == attempts[|attempts| - 1] && answer == upstream[|attempts| - 1]
      invariant forall n :: 0 <= n < |attempts| ==> upstream[n].Some?
    {
      var id := NextChannel(limits, indexes[times - i], q, attempts, times - i, times, now);
      if id.None? {
        break;
      }
      if id.value == lastFailed {
        skips := skips + 1;
      } else {
        TrailGrows(attempts, first, indexes, q, id.value);
        attempts := attempts + [id.value];
        answer := upstream[|attempts| - 1];
        if answer.None? {
          break;
        }
        lastFailed := id.value;
      }
      i := i - 1;
    }
  }
}

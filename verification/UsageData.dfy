/**
 * Hourly usage statistics (model/usedata.go): events are summed in a cache under their text key
 * and flushed to the quota_data table, one row per user, type, channel, model and hour.
 */
module UsageData {
  import opened Basics
  import opened UsageKey

  datatype Sums = Sums(count: int, quota: int, promptTokens: int, completionTokens: int)

  datatype Column = Count | Quota | PromptTokens | CompletionTokens

  /** A row of the cache or the table; a logged event has the same shape, with count 1. */
  datatype Row = Row(key: Key, sums: Sums)

  function In(s: Sums, c: Column): int {
    match c
    case Count => s.count
    case Quota => s.quota
    case PromptTokens => s.promptTokens
    case CompletionTokens => s.completionTokens
  }

  function Plus(a: Sums, b: Sums): Sums {
    Sums(a.count + b.count, a.quota + b.quota, a.promptTokens + b.promptTokens, a.completionTokens + b.completionTokens)
  }

  /** One call of LogQuotaData, cut to the hour. */
  function Logged(userId: nat, username: string, logType: nat, channelId: nat, modelName: string,
                  promptTokens: int, completionTokens: int, quota: int, createdAt: nat): Row
  {
    Row(Key(userId, username, logType, channelId, modelName, createdAt - createdAt % 3600),
        Sums(1, quota, promptTokens, completionTokens))
  }

  /** The hour is the last full one, and every argument has its own column. */
  lemma LoggedIs(userId: nat, username: string, logType: nat, channelId: nat, modelName: string,
                 promptTokens: int, completionTokens: int, quota: int, createdAt: nat)
    ensures var e := Logged(userId, username, logType, channelId, modelName, promptTokens, completionTokens, quota, createdAt);
            && e.key.userId == userId && e.key.username == username && e.key.logType == logType
            && e.key.channelId == channelId && e.key.modelName == modelName
            && (exists n: nat {:trigger Hours(n)} :: e.key.hour == Hours(n)) && e.key.hour <= createdAt < e.key.hour + 3600
            && In(e.sums, Count) == 1 && In(e.sums, Quota) == quota
            && In(e.sums, PromptTokens) == promptTokens && In(e.sums, CompletionTokens) == completionTokens
  {
    assert createdAt - createdAt % 3600 == Hours(createdAt / 3600);
  }

  function Hours(n: nat): nat {
    3600 * n
  }

  function Share(row: Row, k: Key, c: Column): int {
    if row.key == k then In(row.sums, c) else 0
  }

  /** What rows add up to for a key. */
  function Total(rows: seq<Row>, k: Key, c: Column): int {
    if rows == [] then 0 else Total(rows[..|rows| - 1], k, c) + Share(rows[|rows| - 1], k, c)
  }

  lemma TotalAdded(rows: seq<Row>, row: Row, k: Key, c: Column)
    ensures Total(rows + [row], k, c) == Total(rows, k, c) + Share(row, k, c)
  {
    assert (rows + [row])[..|rows|] == rows;
  }

  lemma {:induction false} TotalUpdated(rows: seq<Row>, i: nat, row: Row, k: Key, c: Column)
    requires i < |rows|
    ensures Total(rows[i := row], k, c) == Total(rows, k, c) - Share(rows[i], k, c) + Share(row, k, c)
  {
    var next, init := rows[i := row], rows[..|rows| - 1];
    if i < |init| {
      TotalUpdated(init, i, row, k, c);
      assert next[..|next| - 1] == init[i := row];
    } else {
      assert next[..|next| - 1] == init;
    }
  }

  lemma {:induction false} TotalJoined(a: seq<Row>, b: seq<Row>, k: Key, c: Column)
    ensures Total(a + b, k, c) == Total(a, k, c) + Total(b, k, c)
  {
    if b == [] {
      assert a + b == a;
    } else {
      assert (a + b)[..|a + b| - 1] == a + b[..|b| - 1];
      TotalJoined(a, b[..|b| - 1], k, c);
    }
  }

  // ---------------------------------------------------------------- the cache

  type Cache = map<string, Row>

  function LogEntry(cache: Cache, e: Row): Cache {
    var text := Text(e.key);
    cache[text := if text in cache then Row(cache[text].key, Plus(cache[text].sums, e.sums)) else e]
  }

  /** The cache after these events, logged since the last flush. */
  function CacheOf(events: seq<Row>): Cache {
    if events == [] then map[] else LogEntry(CacheOf(events[..|events| - 1]), events[|events| - 1])
  }

  /** What the entries under these texts hold for a key. */
  function Held(cache: Cache, texts: set<string>, k: Key, c: Column): int
    requires texts <= cache.Keys
  {
    var text := Text(k);
    if text in texts then Share(cache[text], k, c) else 0
  }

  ghost predicate Faithful(cache: Cache) {
    forall text :: text in cache ==> Text(cache[text].key) == text
  }

  ghost predicate HasKey(events: seq<Row>, k: Key) {
    exists i :: 0 <= i < |events| && events[i].key == k
  }

  /** No two events have different keys with the same text. */
  ghost predicate NoClash(events: seq<Row>) {
    forall a, b :: HasKey(events, a) && HasKey(events, b) && Text(a) == Text(b) ==> a == b
  }

  ghost predicate EachCountsOne(events: seq<Row>) {
    forall e :: e in events ==> e.sums.count == 1
  }

  lemma HasKeySplit(events: seq<Row>, k: Key)
    requires events != []
    ensures HasKey(events, k) <==> HasKey(events[..|events| - 1], k) || events[|events| - 1].key == k
  {
    var init := events[..|events| - 1];
    if HasKey(init, k) {
      var i :| 0 <= i < |init| && init[i].key == k;
      assert events[i].key == k;
    }
    if HasKey(events, k) {
      var i :| 0 <= i < |events| && events[i].key == k;
      assert i < |init| ==> init[i].key == k;
    }
  }

  lemma {:induction false} CacheFaithful(events: seq<Row>)
    ensures Faithful(CacheOf(events))
  {
    if events != [] {
      CacheFaithful(events[..|events| - 1]);
    }
  }

  lemma {:induction false} LoggedIsCached(events: seq<Row>, k: Key)
    requires HasKey(events, k)
    ensures Text(k) in CacheOf(events)
  {
    HasKeySplit(events, k);
    if events[|events| - 1].key != k {
      LoggedIsCached(events[..|events| - 1], k);
    }
  }

  lemma {:induction false} CachedWasLogged(events: seq<Row>, text: string)
    requires text in CacheOf(events)
    ensures HasKey(events, CacheOf(events)[text].key)
  {
    var init := events[..|events| - 1];
    HasKeySplit(events, CacheOf(events)[text].key);
    if text in CacheOf(init) {
      CachedWasLogged(init, text);
    }
  }

  /** An event lands on its own key if the entry under its text is not another key's. */
  lemma HeldAfter(cache: Cache, e: Row, k: Key, c: Column)
    requires Text(e.key) in cache ==> cache[Text(e.key)].key == e.key
    requires Text(k) == Text(e.key) && Text(k) in cache && k != e.key ==> cache[Text(k)].key != k
    ensures Held(LogEntry(cache, e), LogEntry(cache, e).Keys, k, c) == Held(cache, cache.Keys, k, c) + Share(e, k, c)
  {}

  lemma NoClashInit(events: seq<Row>)
    requires events != [] && NoClash(events)
    ensures NoClash(events[..|events| - 1])
    ensures forall k :: HasKey(events[..|events| - 1], k) && Text(k) == Text(events[|events| - 1].key)
                        ==> k == events[|events| - 1].key
  {
    forall a ensures HasKey(events, a) <==> HasKey(events[..|events| - 1], a) || events[|events| - 1].key == a {
      HasKeySplit(events, a);
    }
  }

  /** As long as no two keys share a text, the cache holds for every key just what was logged. */
  lemma {:induction false} CacheExact(events: seq<Row>, k: Key, c: Column)
    requires NoClash(events)
    ensures Held(CacheOf(events), CacheOf(events).Keys, k, c) == Total(events, k, c)
  {
    if events != [] {
      var init, last := events[..|events| - 1], events[|events| - 1];
      NoClashInit(events);
      CacheExact(init, k, c);
      CacheFaithful(init);
      if Text(last.key) in CacheOf(init) { CachedWasLogged(init, Text(last.key)); }
      HeldAfter(CacheOf(init), last, k, c);
    }
  }

  lemma {:induction false} CountAtLeastOne(events: seq<Row>, k: Key)
    requires EachCountsOne(events)
    ensures Total(events, k, Count) >= 0
    ensures HasKey(events, k) ==> Total(events, k, Count) >= 1
  {
    if events != [] {
      var init, last := events[..|events| - 1], events[|events| - 1];
      CountAtLeastOne(init, k);
      if HasKey(events, k) && last.key != k {
        var i :| 0 <= i < |events| && events[i].key == k;
        assert init[i].key == k;
      }
    }
  }

  /** And only then: of two keys with one text, one gets the calls of the other. */
  lemma CacheExactIff(events: seq<Row>)
    requires EachCountsOne(events)
    ensures NoClash(events)
            <==> forall k, c :: Held(CacheOf(events), CacheOf(events).Keys, k, c) == Total(events, k, c)
  {
    var cache := CacheOf(events);
    if NoClash(events) {
      forall k, c ensures Held(cache, cache.Keys, k, c) == Total(events, k, c) {
        CacheExact(events, k, c);
      }
    } else {
      var a, b :| HasKey(events, a) && HasKey(events, b) && Text(a) == Text(b) && a != b;
      LoggedIsCached(events, a);
      var lost := if cache[Text(a)].key == a then b else a;
      CountAtLeastOne(events, lost);
      assert Held(cache, cache.Keys, lost, Count) == 0;
    }
  }

  /** The user id determines the name. */
  ghost predicate NamesFixed(events: seq<Row>) {
    forall a, b :: HasKey(events, a) && HasKey(events, b) && a.userId == b.userId ==> a.username == b.username
  }

  lemma FixedNamesDoNotClash(events: seq<Row>)
    requires NamesFixed(events)
    ensures NoClash(events)
  {
    forall a, b | HasKey(events, a) && HasKey(events, b) && Text(a) == Text(b) ensures a == b {
      TextInjective(a, b);
    }
  }

  lemma NamesFixedParts(a: seq<Row>, b: seq<Row>)
    requires NamesFixed(a + b)
    ensures NamesFixed(a) && NamesFixed(b)
  {
    forall k | HasKey(a, k) || HasKey(b, k) ensures HasKey(a + b, k) {
      if HasKey(a, k) {
        var i :| 0 <= i < |a| && a[i].key == k;
        assert (a + b)[i].key == k;
      } else {
        var i :| 0 <= i < |b| && b[i].key == k;
        assert (a + b)[|a| + i].key == k;
      }
    }
  }

  // ---------------------------------------------------------------- the table

  ghost predicate OneRowPerKey(table: seq<Row>) {
    forall i, j :: 0 <= i < j < |table| ==> table[i].key != table[j].key
  }

  /** A cached row reaches the table: added to the row of its key, or as a new row. */
  ghost predicate Saves(table: seq<Row>, row: Row, next: seq<Row>) {
    && OneRowPerKey(next)
    && forall k, c :: Total(next, k, c) == Total(table, k, c) + Share(row, k, c)
  }

  /** The table has gained from the start what the entries no longer waiting held. */
  ghost predicate Flushing(start: seq<Row>, cache: Cache, waiting: set<string>, table: seq<Row>)
    requires waiting <= cache.Keys
  {
    forall k, c :: Total(table, k, c) + Held(cache, waiting, k, c) == Total(start, k, c) + Held(cache, cache.Keys, k, c)
  }

  lemma FlushStep(start: seq<Row>, cache: Cache, waiting: set<string>, text: string, table: seq<Row>, next: seq<Row>)
    requires Faithful(cache) && waiting <= cache.Keys && text in waiting
    requires Flushing(start, cache, waiting, table) && Saves(table, cache[text], next)
    ensures Flushing(start, cache, waiting - {text}, next)
  {
    forall k, c
      ensures Total(next, k, c) + Held(cache, waiting - {text}, k, c) == Total(start, k, c) + Held(cache, cache.Keys, k, c)
    {
      assert Total(table, k, c) + Held(cache, waiting, k, c) == Total(start, k, c) + Held(cache, cache.Keys, k, c);
    }
  }

  /** For every key the table has gained what the events amount to. */
  ghost predicate Gained(start: seq<Row>, table: seq<Row>, events: seq<Row>) {
    forall k, c :: Total(table, k, c) == Total(start, k, c) + Total(events, k, c)
  }

  ghost predicate TableShows(table: seq<Row>, events: seq<Row>) {
    forall k, c :: Total(table, k, c) == Total(events, k, c)
  }

  lemma FlushedAll(start: seq<Row>, cache: Cache, table: seq<Row>, k: Key, c: Column)
    requires Flushing(start, cache, {}, table)
    ensures Total(table, k, c) == Total(start, k, c) + Held(cache, cache.Keys, k, c)
  {
    assert Total(table, k, c) + Held(cache, {}, k, c) == Total(start, k, c) + Held(cache, cache.Keys, k, c);
  }

  /** A finished flush: for every key the table has gained what was logged, iff no keys clash. */
  lemma FlushExactIff(start: seq<Row>, recent: seq<Row>, table: seq<Row>)
    requires EachCountsOne(recent) && Flushing(start, CacheOf(recent), {}, table)
    ensures NoClash(recent) <==> Gained(start, table, recent)
  {
    var cache := CacheOf(recent);
    CacheExactIff(recent);
    if NoClash(recent) {
      forall k, c ensures Total(table, k, c) == Total(start, k, c) + Total(recent, k, c) {
        FlushedAll(start, cache, table, k, c);
        assert Held(cache, cache.Keys, k, c) == Total(recent, k, c);
      }
    }
    if Gained(start, table, recent) {
      forall k, c ensures Held(cache, cache.Keys, k, c) == Total(recent, k, c) {
        FlushedAll(start, cache, table, k, c);
        assert Total(table, k, c) == Total(start, k, c) + Total(recent, k, c);
      }
    }
  }

  lemma GainsAddUp(start: seq<Row>, past: seq<Row>, recent: seq<Row>, table: seq<Row>)
    requires TableShows(start, past) && Gained(start, table, recent)
    ensures TableShows(table, past + recent)
  {
    forall k, c ensures Total(table, k, c) == Total(past + recent, k, c) {
      TotalJoined(past, recent, k, c);
      assert Total(start, k, c) == Total(past, k, c);
    }
  }

  lemma FixedNamesStayExact(start: seq<Row>, past: seq<Row>, recent: seq<Row>, table: seq<Row>)
    requires NamesFixed(past) ==> TableShows(start, past)
    requires NoClash(recent) ==> Gained(start, table, recent)
    ensures NamesFixed(past + recent) ==> TableShows(table, past + recent)
  {
    if NamesFixed(past + recent) {
      NamesFixedParts(past, recent);
      FixedNamesDoNotClash(recent);
      GainsAddUp(start, past, recent, table);
    }
  }

  class UsageStore {
    var cache: Cache
    var table: seq<Row>
    ghost var past: seq<Row>    // the events flushed so far
    ghost var recent: seq<Row>  // the events since

    ghost predicate Valid()
      reads this
    {
      && cache == CacheOf(recent) && EachCountsOne(recent)
      && OneRowPerKey(table)
      && (NamesFixed(past) ==> TableShows(table, past))
    }

    constructor ()
      ensures Valid() && past == recent == [] && cache == map[] && table == []
    {
      cache, table, past, recent := map[], [], [], [];
    }

    method LogQuotaDataCache(userId: nat, username: string, logType: nat, channelId: nat, modelName: string,
                             promptTokens: int, completionTokens: int, quota: int, createdAt: nat)
      modifies this`cache
      ensures cache == LogEntry(old(cache), Logged(userId, username, logType, channelId, modelName,
                                                   promptTokens, completionTokens, quota, createdAt))
    {
      var hour := createdAt - createdAt % 3600;
      var key := Key(userId, username, logType, channelId, modelName, hour);
      var text := Text(key);
      var quotaData;
      if text in cache {
        quotaData := cache[text];
        var s := quotaData.sums;
        quotaData := quotaData.(sums := Sums(s.count + 1, s.quota + quota, s.promptTokens + promptTokens, s.completionTokens + completionTokens));
      } else {
        quotaData := Row(key, Sums(1, quota, promptTokens, completionTokens));
      }
      cache := cache[text := quotaData];
    }

    method LogQuotaData(userId: nat, username: string, logType: nat, channelId: nat, modelName: string,
                        promptTokens: int, completionTokens: int, quota: int, createdAt: nat)
      requires Valid()
      modifies this`cache, this`recent
      ensures Valid()
      ensures recent == old(recent) + [Logged(userId, username, logType, channelId, modelName,
                                              promptTokens, completionTokens, quota, createdAt)]
    {
      ghost var e := Logged(userId, username, logType, channelId, modelName, promptTokens, completionTokens, quota, createdAt);
      LogQuotaDataCache(userId, username, logType, channelId, modelName, promptTokens, completionTokens, quota, createdAt);
      assert (recent + [e])[..|recent|] == recent;
      recent := recent + [e];
    }

    /** At any moment, flushed or not: while each id keeps one name, the table and the waiting entries
        together hold for every key exactly what was logged. */
    lemma TableAndCacheExact(k: Key, c: Column)
      requires Valid() && NamesFixed(past + recent)
      ensures Total(table, k, c) + Held(cache, cache.Keys, k, c) == Total(past + recent, k, c)
    {
      NamesFixedParts(past, recent);
      FixedNamesDoNotClash(recent);
      CacheExact(recent, k, c);
      TotalJoined(past, recent, k, c);
    }

    /** SELECT the row of the key, then save it with the sums added, or create it. */
    method SaveRow(row: Row)
      requires OneRowPerKey(table)
      modifies this`table
      ensures Saves(old(table), row, table)
    {
      var i := 0;
      while i < |table| && table[i].key != row.key
        invariant i <= |table|
        invariant forall j :: 0 <= j < i ==> table[j].key != row.key
      {
        i := i + 1;
      }
      if i < |table| {
        var sum := Row(row.key, Plus(table[i].sums, row.sums));
        forall k, c ensures Total(table[i := sum], k, c) == Total(table, k, c) + Share(row, k, c) {
          TotalUpdated(table, i, sum, k, c);
        }
        table := table[i := sum];
      } else {
        forall k, c ensures Total(table + [row], k, c) == Total(table, k, c) + Share(row, k, c) {
          TotalAdded(table, row, k, c);
        }
        table := table + [row];
      }
    }

    /** Save the cached rows, in any order. */
    method SaveRows()
      requires Faithful(cache) && OneRowPerKey(table)
      modifies this`table
      ensures OneRowPerKey(table) && Flushing(old(table), cache, {}, table)
    {
      var texts := cache.Keys;
      while texts != {}
        invariant texts <= cache.Keys && OneRowPerKey(table) && Flushing(old(table), cache, texts, table)
        decreases |texts|
      {
        var text := AnyOf(texts);
        ghost var before := table;
        SaveRow(cache[text]);
        FlushStep(old(table), cache, texts, text, before, table);
        texts := texts - {text};
      }
    }

    /** The flush adds to the table, for every key, exactly what was logged since the last one,
        iff no two of the logged keys share a text. */
    method SaveQuotaDataCache()
      requires Valid()
      modifies this
      ensures Valid() && past == old(past + recent) && recent == [] && cache == map[]
      ensures NoClash(old(recent)) <==> Gained(old(table), table, old(recent))
    {
      CacheFaithful(recent);
      SaveRows();
      FlushExactIff(old(table), recent, table);
      FixedNamesStayExact(old(table), past, recent, table);
      past, recent := past + recent, [];
      cache := map[];
    }
  }
}

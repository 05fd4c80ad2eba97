/** Upstream channels (model/channel.go) and the shape of the in-memory index. */
module Channels {
  import opened Basics

  // Channel states; 2 and 3 are the two disabled ones.
  const ENABLED := 1
  const MANUALLY_DISABLED := 2
  const AUTO_DISABLED := 3

  /** `groups` and `models` are the comma separated lists, already split. */
  datatype Channel = Channel(
    id: int,
    status: int,
    groups: seq<string>,
    models: seq<string>,
    priority: Option<int>,
    weight: Option<nat>,
    isTools: Option<bool>,
    claudeOriginal: bool,
    rateLimited: Option<bool>
  ) {
    function Priority(): int {
      match priority case Some(p) => p case None => 0
    }

    function Weight(): nat {
      match weight case Some(w) => w case None => 0
    }

    predicate Limited() {
      rateLimited == Some(true)
    }
  }

  type Index = map<string, map<string, seq<Channel>>>

  function Lookup(index: Index, group: string, model: string): seq<Channel> {
    if group in index && model in index[group] then index[group][model] else []
  }

  ghost predicate ByPriority(channels: seq<Channel>) {
    forall i, j :: 0 <= i < j < |channels| ==> channels[i].Priority() >= channels[j].Priority()
  }

  /** The order of the sort.SliceStable call: priority first, then weight, both descending. */
  predicate Before(a: Channel, b: Channel) {
    if a.Priority() == b.Priority() then a.Weight() > b.Weight() else a.Priority() > b.Priority()
  }

  /** Stable insertion of `c` into a sorted list. */
  function Insert(sorted: seq<Channel>, c: Channel): (r: seq<Channel>)
    requires ByPriority(sorted)
    ensures ByPriority(r)
    ensures forall x :: x in r <==> x in sorted || x == c
  {
    if sorted == [] || !Before(c, sorted[|sorted| - 1]) then
      sorted + [c]
    else
      var rest := Insert(sorted[..|sorted| - 1], c);
      assert forall j :: 0 <= j < |rest| ==> rest[j] in rest;
      assert sorted == sorted[..|sorted| - 1] + [sorted[|sorted| - 1]];
      rest + [sorted[|sorted| - 1]]
  }

  /** Any sort by descending priority will do for what is proved; this one is also stable. */
  function SortByPriority(channels: seq<Channel>): (r: seq<Channel>)
    ensures ByPriority(r)
    ensures forall x :: x in r <==> x in channels
  {
    if channels == [] then []
    else
      assert channels == channels[..|channels| - 1] + [channels[|channels| - 1]];
      Insert(SortByPriority(channels[..|channels| - 1]), channels[|channels| - 1])
  }

  lemma {:induction false} InsertKeepsAll(sorted: seq<Channel>, c: Channel)
    requires ByPriority(sorted)
    ensures multiset(Insert(sorted, c)) == multiset(sorted) + multiset{c}
  {
    if sorted != [] && Before(c, sorted[|sorted| - 1]) {
      InsertKeepsAll(sorted[..|sorted| - 1], c);
      assert sorted == sorted[..|sorted| - 1] + [sorted[|sorted| - 1]];
    }
  }

  lemma {:induction false} SortKeepsAll(channels: seq<Channel>)
    ensures multiset(SortByPriority(channels)) == multiset(channels)
  {
    if channels != [] {
      var init := channels[..|channels| - 1];
      var last := channels[|channels| - 1];
      SortKeepsAll(init);
      InsertKeepsAll(SortByPriority(init), last);
      SortOneMore(channels);
      assert multiset(channels) == multiset(init) + multiset{last} by {
        assert channels == init + [last];
      }
    }
  }

  lemma SortOneMore(channels: seq<Channel>)
    requires channels != []
    ensures SortByPriority(channels) == Insert(SortByPriority(channels[..|channels| - 1]), channels[|channels| - 1])
  {}
}

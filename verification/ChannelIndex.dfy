/**
 * The channel and ability tables (model/channel.go, model/ability.go) and the index that
 * InitChannelCache builds from them (model/cache.go).
 */
module ChannelIndex {
  import opened Basics
  import opened Channels

  /** Primary key of an ability row; the table maps it to the `enabled` column. */
  datatype Ability = Ability(group: string, model: string, channelId: int)
  type Abilities = map<Ability, bool>

  datatype Tables = Tables(channels: map<int, Channel>, abilities: Abilities)

  // ---------------------------------------------------------------- table operations

  /** The abilities of a channel: every listed group with every listed model. */
  function KeysOf(c: Channel): set<Ability> {
    set g, m | g in c.groups && m in c.models :: Ability(g, m, c.id)
  }

  /** The lists name nothing twice. (A split list is never empty.) */
  ghost predicate Listed(c: Channel) {
    c.groups != [] && c.models != [] && Distinct(c.groups) && Distinct(c.models)
  }

  /** The ability rows are created by one INSERT, which a repeated or existing primary key fails. */
  ghost predicate CanAdd(abilities: Abilities, c: Channel) {
    Listed(c) && KeysOf(c) !! abilities.Keys
  }

  ghost function WithAbilities(abilities: Abilities, c: Channel): Abilities {
    if CanAdd(abilities, c) then abilities + map a | a in KeysOf(c) :: c.status == ENABLED else abilities
  }

  function WithoutAbilities(abilities: Abilities, ids: set<int>): Abilities {
    map a | a in abilities && a.channelId !in ids :: abilities[a]
  }

  /** The fields of an update request; a zero value leaves the column as it is. */
  datatype Patch = Patch(status: int, groups: seq<string>, models: seq<string>, priority: Option<int>, weight: Option<nat>)

  function Merged(c: Channel, p: Patch): Channel {
    c.(status := if p.status == 0 then c.status else p.status,
       groups := if p.groups == [] then c.groups else p.groups,
       models := if p.models == [] then c.models else p.models,
       priority := if p.priority == None then c.priority else p.priority,
       weight := if p.weight == None then c.weight else p.weight)
  }

  /** The channel of the request itself, left as it came when no row was found. Splitting an
      empty list yields one empty name. */
  function Requested(id: int, p: Patch): Channel {
    Channel(id, p.status, if p.groups == [] then [""] else p.groups, if p.models == [] then [""] else p.models,
            p.priority, p.weight, None, false, None)
  }

  datatype Operation =
    | Insert(channel: Channel)
    | Update(id: int, patch: Patch)
    | Delete(ids: set<int>)
    | DeleteDisabled
    | SetStatus(id: int, status: int)

  predicate IsDisabled(c: Channel) {
    c.status == AUTO_DISABLED || c.status == MANUALLY_DISABLED
  }

  ghost function Apply(t: Tables, op: Operation): Tables {
    match op
    case Insert(c) => Tables(t.channels[c.id := c], WithAbilities(t.abilities, c))
    case Update(id, patch) =>
      if id in t.channels then
        var c := Merged(t.channels[id], patch);
        Tables(t.channels[id := c], WithAbilities(WithoutAbilities(t.abilities, {id}), c))
      else t.(abilities := WithAbilities(WithoutAbilities(t.abilities, {id}), Requested(id, patch)))
    case Delete(ids) => Tables(t.channels - ids, WithoutAbilities(t.abilities, ids))
    case DeleteDisabled => t.(channels := map id | id in t.channels && !IsDisabled(t.channels[id]) :: t.channels[id])
    case SetStatus(id, status) =>
      Tables(
        if id in t.channels then t.channels[id := t.channels[id].(status := status)] else t.channels,
        map a | a in t.abilities :: if a.channelId == id then status == ENABLED else t.abilities[a])
  }

  class Store {
    var channels: map<int, Channel>
    var abilities: Abilities

    ghost function Contents(): Tables
      reads this
    {
      Tables(channels, abilities)
    }

    constructor ()
      ensures Contents() == Tables(map[], map[])
    {
      channels, abilities := map[], map[];
    }

    /** The rows of one model, group by group. */
    method CollectGroups(c: Channel, model: string, rows: set<Ability>, before: set<string>)
      returns (all: set<Ability>, repeated: bool)
      requires model in before ==> forall g :: g in c.groups ==> Ability(g, model, c.id) in rows
      requires model !in before ==> forall a :: a in rows ==> a.model != model
      ensures all == rows + set g | g in c.groups :: Ability(g, model, c.id)
      ensures repeated <==> (model in before && c.groups != []) || !Distinct(c.groups)
    {
      all, repeated := rows, false;
      for j := 0 to |c.groups|
        invariant all == rows + set g | g in c.groups[..j] :: Ability(g, model, c.id)
        invariant repeated <==> (model in before && j > 0) || !Distinct(c.groups[..j])
      {
        var row := Ability(c.groups[j], model, c.id);
        DistinctPrefix(c.groups, j);
        assert c.groups[..j + 1] == c.groups[..j] + [c.groups[j]];
        assert row in all <==> model in before || c.groups[j] in c.groups[..j];
        repeated := repeated || row in all;
        all := all + {row};
      }
      assert c.groups[..|c.groups|] == c.groups;
    }

    /** Collects the rows model by model and inserts all of them or, if a primary key repeats or
        exists already, none. */
    method AddAbilities(c: Channel) returns (ok: bool)
      modifies this`abilities
      ensures ok <==> CanAdd(old(abilities), c)
      ensures abilities == WithAbilities(old(abilities), c)
    {
      var rows: set<Ability>, repeated := {}, false;
      for i := 0 to |c.models|
        invariant abilities == old(abilities)
        invariant rows == set g, m | g in c.groups && m in c.models[..i] :: Ability(g, m, c.id)
        invariant repeated <==> c.groups != [] && i > 0 && !(Distinct(c.models[..i]) && Distinct(c.groups))
      {
        var again: bool;
        DistinctPrefix(c.models, i);
        assert c.models[..i + 1] == c.models[..i] + [c.models[i]];
        rows, again := CollectGroups(c, c.models[i], rows, set m | m in c.models[..i]);
        repeated := repeated || again;
      }
      assert c.models[..|c.models|] == c.models;
      assert rows == KeysOf(c);
      assert rows == {} <==> c.groups == [] || c.models == [] by {
        if c.groups != [] && c.models != [] { assert Ability(c.groups[0], c.models[0], c.id) in rows; }
      }
      ok := rows != {} && !repeated && rows !! abilities.Keys;
      if ok {
        abilities := abilities + map a | a in rows :: c.status == ENABLED;
      }
    }

    method DeleteAbilities(id: int)
      modifies this`abilities
      ensures abilities == WithoutAbilities(old(abilities), {id})
    {
      abilities := map a | a in abilities && a.channelId != id :: abilities[a];
    }

    method InsertChannel(c: Channel) returns (ok: bool)
      modifies this
      ensures Contents() == Apply(old(Contents()), Insert(c))
      ensures ok <==> CanAdd(old(abilities), c)
    {
      channels := channels[c.id := c];
      ok := AddAbilities(c);
    }

    /** Without a row of that id only the abilities are replaced. */
    method UpdateChannel(id: int, patch: Patch) returns (ok: bool)
      requires forall k :: k in channels ==> channels[k].id == k
      modifies this
      ensures Contents() == Apply(old(Contents()), Update(id, patch))
    {
      var channel := Requested(id, patch);
      if id in channels {
        channel := Merged(channels[id], patch);
        channels := channels[id := channel];
      }
      DeleteAbilities(id);
      ok := AddAbilities(channel);
    }

    method BatchDeleteChannels(ids: set<int>)
      modifies this
      ensures Contents() == Apply(old(Contents()), Delete(ids))
    {
      channels := channels - ids;
      abilities := map a | a in abilities && a.channelId !in ids :: abilities[a];
    }

    /** The abilities of the deleted channels stay behind. */
    method DeleteDisabledChannel()
      modifies this
      ensures Contents() == Apply(old(Contents()), DeleteDisabled)
    {
      channels := map id | id in channels && !IsDisabled(channels[id]) :: channels[id];
    }

    method UpdateChannelStatusById(id: int, status: int)
      modifies this
      ensures Contents() == Apply(old(Contents()), SetStatus(id, status))
    {
      abilities := map a | a in abilities :: if a.channelId == id then status == ENABLED else abilities[a];
      if id in channels {
        channels := channels[id := channels[id].(status := status)];
      }
    }
  }

  // ---------------------------------------------------------------- the tables stay in step

  /** Every channel has exactly the abilities of its lists, enabled as it is; abilities left
      behind by deleted channels are disabled. */
  ghost predicate RowsExact(t: Tables) {
    && (forall id :: id in t.channels ==> t.channels[id].id == id)
    && (forall a :: a in t.abilities && a.channelId in t.channels ==> a in KeysOf(t.channels[a.channelId]))
    && (forall id, a :: id in t.channels && a in KeysOf(t.channels[id]) ==>
          a in t.abilities && t.abilities[a] == (t.channels[id].status == ENABLED))
    && (forall a :: a in t.abilities && a.channelId !in t.channels ==> !t.abilities[a])
  }

  /** And no list names anything twice. */
  ghost predicate Synced(t: Tables) {
    RowsExact(t) && forall id :: id in t.channels ==> Listed(t.channels[id])
  }

  ghost predicate Fresh(t: Tables, id: int) {
    id !in t.channels && forall a :: a in t.abilities ==> a.channelId != id
  }

  /** New ids come from the database; the lists name nothing twice; statuses are only set on
      channels that exist. */
  ghost predicate Legal(t: Tables, op: Operation) {
    match op
    case Insert(c) => Fresh(t, c.id) && Listed(c)
    case Update(id, patch) => id in t.channels && Listed(Merged(t.channels[id], patch))
    case SetStatus(id, _) => id in t.channels
    case _ => true
  }

  lemma AddedRows(abilities: Abilities, c: Channel)
    requires CanAdd(abilities, c)
    ensures forall a :: a in WithAbilities(abilities, c) <==> a in abilities || a in KeysOf(c)
    ensures forall a :: a in abilities ==> WithAbilities(abilities, c)[a] == abilities[a]
    ensures forall a :: a in KeysOf(c) ==> a.channelId == c.id && WithAbilities(abilities, c)[a] == (c.status == ENABLED)
  {}

  lemma InsertKeepsRows(t: Tables, c: Channel)
    requires RowsExact(t) && Fresh(t, c.id) && Listed(c)
    ensures RowsExact(Apply(t, Insert(c)))
  {
    assert CanAdd(t.abilities, c);
    AddedRows(t.abilities, c);
    var r := Apply(t, Insert(c));
    forall id, a | id in r.channels && a in KeysOf(r.channels[id])
      ensures a in r.abilities && r.abilities[a] == (r.channels[id].status == ENABLED)
    {
      if id != c.id { assert a in t.abilities; }
    }
    forall a | a in r.abilities && a.channelId in r.channels ensures a in KeysOf(r.channels[a.channelId]) {
      if a !in KeysOf(c) { assert a in t.abilities; }
    }
  }

  lemma InsertKeepsSynced(t: Tables, c: Channel)
    requires Synced(t) && Fresh(t, c.id) && Listed(c)
    ensures Synced(Apply(t, Insert(c)))
  {
    InsertKeepsRows(t, c);
  }

  lemma UpdateKeepsSynced(t: Tables, id: int, patch: Patch)
    requires Synced(t) && id in t.channels && Listed(Merged(t.channels[id], patch))
    ensures Synced(Apply(t, Update(id, patch)))
  {
    var deleted, c := Apply(t, Delete({id})), Merged(t.channels[id], patch);
    assert Synced(deleted);
    InsertKeepsSynced(deleted, c);
    assert Apply(deleted, Insert(c)) == Apply(t, Update(id, patch));
  }

  lemma StatusKeepsSynced(t: Tables, id: int, status: int)
    requires Synced(t) && id in t.channels
    ensures Synced(Apply(t, SetStatus(id, status)))
  {
    assert forall i, a :: i in t.channels && a in KeysOf(t.channels[i]) ==> a.channelId == i;
  }

  lemma StepKeepsSynced(t: Tables, op: Operation)
    requires Synced(t) && Legal(t, op)
    ensures Synced(Apply(t, op))
  {
    match op
    case Insert(c) => InsertKeepsSynced(t, c);
    case Update(id, patch) => UpdateKeepsSynced(t, id, patch);
    case SetStatus(id, status) => StatusKeepsSynced(t, id, status);
    case Delete(ids) =>
    case DeleteDisabled =>
  }

  ghost predicate LegalRun(t: Tables, ops: seq<Operation>)
    decreases |ops|
  {
    ops == [] || (Legal(t, ops[0]) && LegalRun(Apply(t, ops[0]), ops[1..]))
  }

  ghost function Run(t: Tables, ops: seq<Operation>): Tables
    decreases |ops|
  {
    if ops == [] then t else Run(Apply(t, ops[0]), ops[1..])
  }

  /** After any sequence of operations. */
  lemma {:induction false} AlwaysSynced(t: Tables, ops: seq<Operation>)
    requires Synced(t) && LegalRun(t, ops)
    ensures Synced(Run(t, ops))
    decreases |ops|
  {
    if ops != [] {
      StepKeepsSynced(t, ops[0]);
      AlwaysSynced(Apply(t, ops[0]), ops[1..]);
    }
  }

  /** A new channel whose lists repeat a name loses the whole INSERT and is left without any
      ability: exactly then the ability rows are no longer those of the channels. */
  lemma InsertKeepsRowsIff(t: Tables, c: Channel)
    requires RowsExact(t) && Fresh(t, c.id) && c.groups != [] && c.models != []
    ensures RowsExact(Apply(t, Insert(c))) <==> Listed(c)
    ensures !Listed(c) ==> forall a :: a in Apply(t, Insert(c)).abilities ==> a.channelId != c.id
  {
    if Listed(c) {
      InsertKeepsRows(t, c);
    } else {
      var r := Apply(t, Insert(c));
      assert r.abilities == t.abilities && r.channels[c.id] == c;
      assert Ability(c.groups[0], c.models[0], c.id) in KeysOf(c);
    }
  }

  /** An update of a channel that does not exist creates abilities for nobody, which is harmless
      unless they are enabled. */
  lemma UpdateOfMissingChannelIff(t: Tables, id: int, patch: Patch)
    requires Synced(t) && id !in t.channels
    ensures Synced(Apply(t, Update(id, patch))) <==> patch.status != ENABLED || !Listed(Requested(id, patch))
  {
    var without, c := t.(abilities := WithoutAbilities(t.abilities, {id})), Requested(id, patch);
    assert Synced(without);
    assert CanAdd(without.abilities, c) <==> Listed(c);
    AbilitiesOfNobody(without, c);
  }

  lemma AbilitiesOfNobody(t: Tables, c: Channel)
    requires Synced(t) && Fresh(t, c.id)
    ensures Synced(t.(abilities := WithAbilities(t.abilities, c))) <==> c.status != ENABLED || !CanAdd(t.abilities, c)
  {
    var r := t.(abilities := WithAbilities(t.abilities, c));
    if CanAdd(t.abilities, c) {
      var a := Ability(c.groups[0], c.models[0], c.id);
      assert a in KeysOf(c) && a in r.abilities && r.abilities[a] == (c.status == ENABLED);
    }
  }

  /** Setting the status of a channel that does not exist is harmless unless it enables abilities
      that a deleted channel left behind. */
  lemma StatusOfMissingChannelIff(t: Tables, id: int, status: int)
    requires Synced(t) && id !in t.channels
    ensures Synced(Apply(t, SetStatus(id, status))) <==> status != ENABLED || Fresh(t, id)
  {
    var r := Apply(t, SetStatus(id, status));
    if status == ENABLED && !Fresh(t, id) {
      var a :| a in t.abilities && a.channelId == id;
      assert r.abilities[a];
    }
  }

  // ---------------------------------------------------------------- building the index

  /** `c` is a stored channel with an enabled ability for the pair. */
  ghost predicate Serves(t: Tables, group: string, model: string, c: Channel) {
    && c.id in t.channels && t.channels[c.id] == c
    && Ability(group, model, c.id) in t.abilities && t.abilities[Ability(group, model, c.id)]
  }

  /** The groups that get a map before the channels are entered. */
  function AbilityGroups(t: Tables): set<string> {
    set a | a in t.abilities :: a.group
  }

  /** SELECT of the enabled channels, in any order. */
  method EnabledChannels(t: Tables) returns (cs: seq<Channel>)
    requires forall id :: id in t.channels ==> t.channels[id].id == id
    ensures forall c :: multiset(cs)[c] ==
                        if c.id in t.channels && t.channels[c.id] == c && c.status == ENABLED then 1 else 0
  {
    cs := [];
    var ids := t.channels.Keys;
    while ids != {}
      invariant ids <= t.channels.Keys
      invariant forall c :: multiset(cs)[c] ==
                            if c.id in t.channels && c.id !in ids && t.channels[c.id] == c && c.status == ENABLED then 1 else 0
      decreases |ids|
    {
      var id := AnyOf(ids);
      ids := ids - {id};
      if t.channels[id].status == ENABLED {
        cs := cs + [t.channels[id]];
      }
    }
  }

  /** The channels of `cs` that list the pair, in order. */
  function Listing(cs: seq<Channel>, group: string, model: string): seq<Channel> {
    if cs == [] then []
    else
      var c := cs[|cs| - 1];
      Listing(cs[..|cs| - 1], group, model) + if group in c.groups && model in c.models then [c] else []
  }

  lemma {:induction false} ListingCount(cs: seq<Channel>, group: string, model: string, c: Channel)
    ensures multiset(Listing(cs, group, model))[c] == if group in c.groups && model in c.models then multiset(cs)[c] else 0
  {
    if cs != [] {
      ListingCount(cs[..|cs| - 1], group, model, c);
      assert cs == cs[..|cs| - 1] + [cs[|cs| - 1]];
    }
  }

  /** `r` is `index` with `c` appended for every pair of one of `groups` with one of `models`. */
  ghost predicate Extends(r: Index, index: Index, c: Channel, groups: seq<string>, models: seq<string>) {
    && r.Keys == index.Keys
    && forall g, m :: Lookup(r, g, m) == Lookup(index, g, m) + if g in groups && m in models then [c] else []
  }

  method AddEntry(index: Index, group: string, model: string, c: Channel) returns (r: Index)
    requires group in index
    ensures Extends(r, index, c, [group], [model])
  {
    var models := index[group];
    if model !in models {
      models := models[model := []];
    }
    models := models[model := models[model] + [c]];
    r := index[group := models];
  }

  lemma ExtendsOneModel(r: Index, next: Index, index: Index, c: Channel, group: string, models: seq<string>, m: string)
    requires Extends(next, index, c, [group], models) && Extends(r, next, c, [group], [m]) && m !in models
    ensures Extends(r, index, c, [group], models + [m])
  {}

  method AddModels(index: Index, group: string, c: Channel) returns (r: Index)
    requires group in index
    ensures r.Keys == index.Keys
    ensures Distinct(c.models) ==> Extends(r, index, c, [group], c.models)
  {
    r := index;
    for j := 0 to |c.models|
      invariant r.Keys == index.Keys
      invariant Distinct(c.models) ==> Extends(r, index, c, [group], c.models[..j])
    {
      assert c.models[..j + 1] == c.models[..j] + [c.models[j]];
      ghost var before := r;
      r := AddEntry(r, group, c.models[j], c);
      if Distinct(c.models) {
        ExtendsOneModel(r, before, index, c, group, c.models[..j], c.models[j]);
      }
    }
    assert c.models[..|c.models|] == c.models;
  }

  lemma ExtendsOneMore(r: Index, next: Index, index: Index, c: Channel, groups: seq<string>, g: string, models: seq<string>)
    requires Extends(next, index, c, groups, models) && Extends(r, next, c, [g], models) && g !in groups
    ensures Extends(r, index, c, groups + [g], models)
  {}

  /** None: a write to the missing map of a group, which stops the original with a panic. */
  method AddChannel(index: Index, c: Channel) returns (r: Option<Index>)
    requires c.models != []
    ensures r.None? <==> exists g :: g in c.groups && g !in index
    ensures r.Some? ==> r.value.Keys == index.Keys
    ensures r.Some? && Listed(c) ==> Extends(r.value, index, c, c.groups, c.models)
  {
    var next := index;
    for j := 0 to |c.groups|
      invariant next.Keys == index.Keys
      invariant forall g :: g in c.groups[..j] ==> g in index
      invariant Listed(c) ==> Extends(next, index, c, c.groups[..j], c.models)
    {
      assert c.groups[..j + 1] == c.groups[..j] + [c.groups[j]];
      if c.groups[j] !in next {
        return None;
      }
      ghost var before := next;
      next := AddModels(next, c.groups[j], c);
      if Listed(c) {
        ExtendsOneMore(next, before, index, c, c.groups[..j], c.groups[j], c.models);
      }
    }
    assert c.groups[..|c.groups|] == c.groups;
    return Some(next);
  }

  function SortEach(index: Index): (r: Index)
    ensures forall g, m :: Lookup(r, g, m) == SortByPriority(Lookup(index, g, m))
  {
    map g | g in index :: map m | m in index[g] :: SortByPriority(index[g][m])
  }

  /** The enabled channels can be entered: the abilities mention all their groups. */
  ghost predicate GroupsKnown(t: Tables) {
    forall id, g :: id in t.channels && t.channels[id].status == ENABLED && g in t.channels[id].groups ==> g in AbilityGroups(t)
  }

  ghost predicate AllListed(t: Tables) {
    forall id :: id in t.channels ==> Listed(t.channels[id])
  }

  /** A stored, enabled channel that lists the pair. */
  ghost predicate Offers(t: Tables, group: string, model: string, c: Channel) {
    c.id in t.channels && t.channels[c.id] == c && c.status == ENABLED && group in c.groups && model in c.models
  }

  method EnterChannels(t: Tables, channels: seq<Channel>) returns (r: Option<Index>)
    requires forall c :: c in channels ==> c.models != []
    ensures r.None? <==> exists c, g :: c in channels && g in c.groups && g !in AbilityGroups(t)
    ensures r.Some? && (forall c :: c in channels ==> Listed(c)) ==>
              forall g, m :: Lookup(r.value, g, m) == Listing(channels, g, m)
  {
    var index: Index := map g | g in AbilityGroups(t) :: map[];
    for k := 0 to |channels|
      invariant index.Keys == AbilityGroups(t)
      invariant forall c, g :: c in channels[..k] && g in c.groups ==> g in AbilityGroups(t)
      invariant (forall c :: c in channels ==> Listed(c)) ==>
                  forall g, m :: Lookup(index, g, m) == Listing(channels[..k], g, m)
    {
      var c := channels[k];
      assert channels[..k + 1] == channels[..k] + [c];
      var next := AddChannel(index, c);
      if next.None? {
        return None;
      }
      index := next.value;
    }
    assert channels[..|channels|] == channels;
    return Some(index);
  }

  /** Whatever the tables hold: the build panics exactly when an enabled channel lists a group
      that no ability mentions, and otherwise enters the enabled channels by their own lists. */
  method InitChannelCache(t: Tables) returns (r: Option<Index>)
    requires forall id :: id in t.channels ==> t.channels[id].id == id && t.channels[id].models != []
    ensures r.Some? <==> GroupsKnown(t)
    ensures r.Some? && AllListed(t) ==> forall g, m :: ByPriority(Lookup(r.value, g, m))
    ensures r.Some? && AllListed(t) ==>
              forall g, m, c :: multiset(Lookup(r.value, g, m))[c] == if Offers(t, g, m, c) then 1 else 0
  {
    var channels := EnabledChannels(t);
    forall c | c in channels
      ensures c.id in t.channels && t.channels[c.id] == c && c.status == ENABLED
    {
      assert multiset(channels)[c] > 0;
    }
    forall id | id in t.channels && t.channels[id].status == ENABLED
      ensures t.channels[id] in channels
    {
      assert multiset(channels)[t.channels[id]] == 1;
    }
    var index := EnterChannels(t, channels);
    if index.None? {
      return None;
    }
    r := Some(SortEach(index.value));
    if AllListed(t) {
      forall g, m, c
        ensures multiset(Lookup(r.value, g, m))[c] == if Offers(t, g, m, c) then 1 else 0
      {
        SortKeepsAll(Listing(channels, g, m));
        ListingCount(channels, g, m, c);
      }
    }
  }

  /** From tables in step, the build does not panic, and the index holds for every pair exactly
      the channels with an enabled ability, each once, by descending priority. */
  method BuildIndex(t: Tables) returns (index: Index)
    requires Synced(t)
    ensures forall g, m, c :: multiset(Lookup(index, g, m))[c] == if Serves(t, g, m, c) then 1 else 0
    ensures forall g, m :: ByPriority(Lookup(index, g, m))
  {
    SyncedGroupsKnown(t);
    var r := InitChannelCache(t);
    index := r.value;
    forall g, m, c
      ensures multiset(Lookup(index, g, m))[c] == if Serves(t, g, m, c) then 1 else 0
    {
      SyncedServes(t, g, m, c);
    }
  }

  lemma SyncedServes(t: Tables, g: string, m: string, c: Channel)
    requires Synced(t)
    ensures Serves(t, g, m, c) <==> Offers(t, g, m, c)
  {
    if c.id in t.channels && t.channels[c.id] == c {
      assert g in c.groups && m in c.models <==> Ability(g, m, c.id) in KeysOf(c);
    }
  }

  lemma SyncedGroupsKnown(t: Tables)
    requires Synced(t)
    ensures GroupsKnown(t)
  {
    forall id, g | id in t.channels && g in t.channels[id].groups
      ensures g in AbilityGroups(t)
    {
      var c := t.channels[id];
      assert Listed(c) && Ability(g, c.models[0], id) in KeysOf(c);
      assert Ability(g, c.models[0], id) in t.abilities;
    }
  }

  /** What a repeated name does to the next build: it panics exactly if the new channel is enabled
      and one of its groups has no ability of any other channel. */
  lemma RepeatedNamePanicsIff(t: Tables, c: Channel)
    requires Synced(t) && Fresh(t, c.id) && !Listed(c)
    ensures GroupsKnown(Apply(t, Insert(c))) <==>
            c.status != ENABLED || forall g :: g in c.groups ==> g in AbilityGroups(t)
  {
    var r := Apply(t, Insert(c));
    SyncedGroupsKnown(t);
    assert r.abilities == t.abilities && r.channels[c.id] == c;
    assert AbilityGroups(r) == AbilityGroups(t);
    if GroupsKnown(r) && c.status == ENABLED {
      forall g | g in c.groups ensures g in AbilityGroups(t) {
        assert c.id in r.channels && g in r.channels[c.id].groups;
        assert g in AbilityGroups(r);
      }
    }
  }

  // ---------------------------------------------------------------- what each operation does

  /** All channels but these, and all abilities but theirs, are as before. */
  ghost predicate OthersKept(t: Tables, r: Tables, ids: set<int>) {
    && (forall k :: k !in ids ==> (k in r.channels <==> k in t.channels) && (k in t.channels ==> r.channels[k] == t.channels[k]))
    && (forall a :: a in t.abilities && a.channelId !in ids ==> a in r.abilities && r.abilities[a] == t.abilities[a])
    && (forall a :: a in r.abilities && a.channelId !in ids ==> a in t.abilities)
  }

  /** The channel has an ability for exactly its pairs, enabled or not. */
  ghost predicate HasRows(t: Tables, c: Channel, enabled: bool) {
    && (forall g, m :: Ability(g, m, c.id) in t.abilities <==> g in c.groups && m in c.models)
    && (forall a :: a in t.abilities && a.channelId == c.id ==> t.abilities[a] == enabled)
  }

  lemma InsertEffect(t: Tables, c: Channel)
    requires Fresh(t, c.id)
    ensures var r := Apply(t, Insert(c));
            && OthersKept(t, r, {c.id}) && c.id in r.channels && r.channels[c.id] == c
            && (if Listed(c) then HasRows(r, c, c.status == ENABLED) else r.abilities == t.abilities)
  {
    var r := Apply(t, Insert(c));
    if Listed(c) {
      assert CanAdd(t.abilities, c);
      forall g, m ensures Ability(g, m, c.id) in r.abilities <==> g in c.groups && m in c.models {
        assert Ability(g, m, c.id) in KeysOf(c) <==> g in c.groups && m in c.models;
      }
    }
  }

  /** A zero value in the request leaves a field as it is, any other replaces it. */
  ghost predicate Patched(c: Channel, r: Channel, p: Patch) {
    && r.id == c.id && r.isTools == c.isTools && r.claudeOriginal == c.claudeOriginal && r.rateLimited == c.rateLimited
    && (p.status == 0 ==> r.status == c.status) && (p.status != 0 ==> r.status == p.status)
    && (p.groups == [] ==> r.groups == c.groups) && (p.groups != [] ==> r.groups == p.groups)
    && (p.models == [] ==> r.models == c.models) && (p.models != [] ==> r.models == p.models)
    && (p.priority.None? ==> r.priority == c.priority) && (p.priority.Some? ==> r.priority == p.priority)
    && (p.weight.None? ==> r.weight == c.weight) && (p.weight.Some? ==> r.weight == p.weight)
  }

  lemma UpdateEffect(t: Tables, id: int, patch: Patch)
    requires RowsExact(t) && id in t.channels
    ensures var r := Apply(t, Update(id, patch));
            && OthersKept(t, r, {id}) && id in r.channels && Patched(t.channels[id], r.channels[id], patch)
            && (if Listed(r.channels[id]) then HasRows(r, r.channels[id], r.channels[id].status == ENABLED)
                else forall a :: a in r.abilities ==> a.channelId != id)
  {
    var r := Apply(t, Update(id, patch));
    var without, c := WithoutAbilities(t.abilities, {id}), Merged(t.channels[id], patch);
    assert CanAdd(without, c) <==> Listed(c);
    if Listed(c) {
      forall g, m ensures Ability(g, m, id) in r.abilities <==> g in c.groups && m in c.models {
        assert Ability(g, m, id) in KeysOf(c) <==> g in c.groups && m in c.models;
      }
    }
  }

  lemma DeleteEffect(t: Tables, ids: set<int>)
    ensures var r := Apply(t, Delete(ids));
            && OthersKept(t, r, ids)
            && (forall k :: k in ids ==> k !in r.channels) && (forall a :: a in r.abilities ==> a.channelId !in ids)
  {}

  lemma DeleteDisabledEffect(t: Tables)
    ensures var r := Apply(t, DeleteDisabled);
            && r.abilities == t.abilities
            && (forall k :: k in r.channels <==> k in t.channels && t.channels[k].status != 2 && t.channels[k].status != 3)
            && (forall k :: k in r.channels ==> r.channels[k] == t.channels[k])
  {}

  lemma SetStatusEffect(t: Tables, id: int, status: int)
    ensures var r := Apply(t, SetStatus(id, status));
            && OthersKept(t, r, {id}) && r.abilities.Keys == t.abilities.Keys
            && (forall a :: a in t.abilities && a.channelId == id ==> r.abilities[a] == (status == ENABLED))
            && (id in r.channels <==> id in t.channels)
            && (id in t.channels ==> r.channels[id].status == status
                                     && r.channels[id].(status := t.channels[id].status) == t.channels[id])
  {}

  /** Which channels serve a pair after each operation. */
  lemma InsertServes(t: Tables, c: Channel, g: string, m: string, x: Channel)
    requires Synced(t) && Fresh(t, c.id) && Listed(c)
    ensures Serves(Apply(t, Insert(c)), g, m, x) <==>
            if x.id == c.id then x == c && c.status == ENABLED && g in c.groups && m in c.models else Serves(t, g, m, x)
  {
    InsertKeepsSynced(t, c);
    SyncedServes(Apply(t, Insert(c)), g, m, x);
    SyncedServes(t, g, m, x);
  }

  lemma UpdateServes(t: Tables, id: int, patch: Patch, g: string, m: string, x: Channel)
    requires Synced(t) && Legal(t, Update(id, patch))
    ensures var r := Apply(t, Update(id, patch));
            && id in r.channels && Patched(t.channels[id], r.channels[id], patch)
            && (Serves(r, g, m, x) <==>
                if x.id == id then x == r.channels[id] && x.status == ENABLED && g in x.groups && m in x.models
                else Serves(t, g, m, x))
  {
    UpdateKeepsSynced(t, id, patch);
    UpdateEffect(t, id, patch);
    SyncedServes(Apply(t, Update(id, patch)), g, m, x);
    SyncedServes(t, g, m, x);
  }

  lemma DeleteServes(t: Tables, ids: set<int>, g: string, m: string, x: Channel)
    ensures Serves(Apply(t, Delete(ids)), g, m, x) <==> x.id !in ids && Serves(t, g, m, x)
  {}

  lemma DeleteDisabledServes(t: Tables, g: string, m: string, x: Channel)
    requires Synced(t)
    ensures Serves(Apply(t, DeleteDisabled), g, m, x) <==> Serves(t, g, m, x)
  {
    StepKeepsSynced(t, DeleteDisabled);
    SyncedServes(Apply(t, DeleteDisabled), g, m, x);
    SyncedServes(t, g, m, x);
  }

  lemma SetStatusServes(t: Tables, id: int, status: int, g: string, m: string, x: Channel)
    requires Synced(t) && id in t.channels
    ensures Serves(Apply(t, SetStatus(id, status)), g, m, x) <==>
            if x.id == id then x == t.channels[id].(status := status) && status == ENABLED && g in x.groups && m in x.models
            else Serves(t, g, m, x)
  {
    StatusKeepsSynced(t, id, status);
    SetStatusEffect(t, id, status);
    SyncedServes(Apply(t, SetStatus(id, status)), g, m, x);
    SyncedServes(t, g, m, x);
  }
}

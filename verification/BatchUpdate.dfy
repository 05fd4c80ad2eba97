/**
 * The batch updater (model/utils.go): deltas are accumulated in one map per kind and flushed by
 * a loop that takes each map under its lock and posts its entries to the database while new
 * deltas keep arriving. It is proved to refine the unconditional posting of every delta, and to
 * agree with direct mode exactly when that refuses nothing.
 */
module BatchUpdate {
  import opened Basics

  // The iota constants of model/utils.go.
  const USER_QUOTA: Kind := 0
  const TOKEN_QUOTA: Kind := 1
  const USED_QUOTA: Kind := 2
  const CHANNEL_USED_QUOTA: Kind := 3
  const REQUEST_COUNT: Kind := 4
  const KINDS: int := 5

  type Kind = k: int | 0 <= k < 5 witness 0

  datatype Column = UserQuota | TokenRemain | TokenUsed | UserUsed | ChannelUsed | UserRequests
  datatype Cell = Cell(column: Column, id: int)

  /** The counters of the existing rows. An UPDATE of a missing row changes nothing. */
  type Rows = map<Cell, int>

  function Bump(db: Rows, cell: Cell, delta: int): Rows {
    if cell in db then db[cell := db[cell] + delta] else db
  }

  /** One delta, posted unconditionally. */
  function Posted(db: Rows, kind: Kind, id: int, value: int): Rows {
    if kind == USER_QUOTA then Bump(db, Cell(UserQuota, id), value)
    else if kind == TOKEN_QUOTA then Bump(Bump(db, Cell(TokenRemain, id), value), Cell(TokenUsed, id), -value)
    else if kind == USED_QUOTA then Bump(db, Cell(UserUsed, id), value)
    else if kind == CHANNEL_USED_QUOTA then Bump(db, Cell(ChannelUsed, id), value)
    else Bump(db, Cell(UserRequests, id), value)
  }

  /** `stores` holds the deltas not yet taken by a flush; `snapshot` is the map of kind `taken`
      that the flush has taken and not yet posted completely. */
  datatype Batch = Batch(db: Rows, stores: seq<map<int, int>>, taken: Kind, snapshot: map<int, int>)

  ghost predicate WellFormed(s: Batch) {
    |s.stores| == KINDS
  }

  datatype Step = Add(kind: Kind, id: int, value: int) | Swap(kind: Kind) | Post(id: int)

  function Added(store: map<int, int>, id: int, value: int): map<int, int> {
    store[id := if id in store then store[id] + value else value]
  }

  ghost predicate Enabled(s: Batch, e: Step) {
    match e
    case Add(_, _, _) => true
    case Swap(_) => s.snapshot == map[]
    case Post(id) => id in s.snapshot
  }

  function Apply(s: Batch, e: Step): (r: Batch)
    requires WellFormed(s) && Enabled(s, e)
    ensures WellFormed(r)
  {
    match e
    case Add(kind, id, value) => s.(stores := s.stores[kind := Added(s.stores[kind], id, value)])
    case Swap(kind) => s.(taken := kind, snapshot := s.stores[kind], stores := s.stores[kind := map[]])
    case Post(id) => s.(db := Posted(s.db, s.taken, id, s.snapshot[id]), snapshot := s.snapshot - {id})
  }

  /** Any interleaving of recorded deltas with the sub-steps of flushes, entries posted in any order. */
  ghost predicate Possible(s: Batch, run: seq<Step>)
    requires WellFormed(s)
    decreases run, 0
  {
    run == [] || (Possible(s, run[..|run| - 1]) && Enabled(Run(s, run[..|run| - 1]), run[|run| - 1]))
  }

  ghost function Run(s: Batch, run: seq<Step>): (r: Batch)
    requires WellFormed(s) && Possible(s, run)
    ensures WellFormed(r)
    decreases run, 1
  {
    if run == [] then s else Apply(Run(s, run[..|run| - 1]), run[|run| - 1])
  }

  class BatchUpdater {
    var db: Rows
    var stores: seq<map<int, int>>
    ghost var taken: Kind
    ghost var snapshot: map<int, int>

    ghost function State(): Batch
      reads this
    {
      Batch(db, stores, taken, snapshot)
    }

    ghost predicate Valid()
      reads this
    {
      WellFormed(State())
    }

    constructor (db: Rows)
      ensures Valid() && State() == Batch(db, seq(KINDS, _ => map[]), 0, map[])
    {
      this.db := db;
      stores := seq(KINDS, _ => map[]);
      taken, snapshot := 0, map[];
    }

    method AddNewRecord(kind: Kind, id: int, value: int)
      requires Valid()
      modifies this`stores
      ensures Valid() && State() == Apply(old(State()), Add(kind, id, value))
    {
      if id !in stores[kind] {
        stores := stores[kind := stores[kind][id := value]];
      } else {
        stores := stores[kind := stores[kind][id := stores[kind][id] + value]];
      }
    }

    method Update(column: Column, id: int, delta: int)
      modifies this`db
      ensures db == Bump(old(db), Cell(column, id), delta)
    {
      if Cell(column, id) in db {
        db := db[Cell(column, id) := db[Cell(column, id)] + delta];
      }
    }

    /** Other requests record any number of deltas. */
    method Interfere(ghost start: Batch, ghost before: seq<Step>) returns (ghost run: seq<Step>)
      requires Valid() && WellFormed(start) && Possible(start, before) && State() == Run(start, before)
      modifies this`stores
      ensures Valid() && Possible(start, run) && State() == Run(start, run)
      ensures before <= run && forall i :: |before| <= i < |run| ==> run[i].Add?
    {
      run := before;
      var n :| 0 <= n;
      for i := 0 to n
        invariant Valid() && Possible(start, run) && State() == Run(start, run)
        invariant before <= run && forall i :: |before| <= i < |run| ==> run[i].Add?
      {
        var kind: Kind := *;
        var id: int, value: int := *, *;
        AddNewRecord(kind, id, value);
        assert (run + [Add(kind, id, value)])[..|run|] == run;
        run := run + [Add(kind, id, value)];
      }
    }

    /** The switch of batchUpdate. */
    method PostEntry(kind: Kind, id: int, value: int)
      modifies this`db
      ensures db == Posted(old(db), kind, id, value)
    {
      if
      case kind == USER_QUOTA => Update(UserQuota, id, value);
      case kind == TOKEN_QUOTA => Update(TokenRemain, id, value); Update(TokenUsed, id, -value);
      case kind == USED_QUOTA => Update(UserUsed, id, value);
      case kind == CHANNEL_USED_QUOTA => Update(ChannelUsed, id, value);
      case kind == REQUEST_COUNT => Update(UserRequests, id, value);
    }

    /** The part of a flush for one kind: take the map under the lock, then post its entries. */
    method FlushKind(kind: Kind, ghost start: Batch, ghost before: seq<Step>) returns (ghost run: seq<Step>)
      requires Valid() && snapshot == map[]
      requires WellFormed(start) && Possible(start, before) && State() == Run(start, before)
      modifies this
      ensures Valid() && snapshot == map[]
      ensures Possible(start, run) && State() == Run(start, run)
      ensures before <= run && Swap(kind) in run
    {
      var store := stores[kind];
      stores := stores[kind := map[]];
      taken, snapshot := kind, store;
      run := before + [Swap(kind)];
      assert run[..|run| - 1] == before;
      while |store| > 0
        invariant Valid() && snapshot == store && taken == kind
        invariant Possible(start, run) && State() == Run(start, run)
        invariant before <= run && Swap(kind) in run
        decreases |store|
      {
        run := Interfere(start, run);
        var key := AnyOf(store.Keys);
        PostEntry(kind, key, store[key]);
        store := store - {key};
        snapshot := store;
        assert (run + [Post(key)])[..|run|] == run;
        run := run + [Post(key)];
      }
      assert store == map[];
    }

    /** One flush is a run of the machine above that takes every kind once and leaves nothing
        taken but not posted. */
    method BatchUpdate() returns (ghost run: seq<Step>)
      requires Valid() && snapshot == map[]
      modifies this
      ensures Valid() && snapshot == map[]
      ensures Possible(old(State()), run) && State() == Run(old(State()), run)
      ensures forall k: Kind :: Swap(k) in run
    {
      ghost var start := State();
      run := [];
      for i := 0 to KINDS
        invariant Valid() && snapshot == map[]
        invariant Possible(start, run) && State() == Run(start, run)
        invariant forall k: Kind :: k < i ==> Swap(k) in run
      {
        run := Interfere(start, run);
        run := FlushKind(i, start, run);
      }
    }
  }

  // ---------------------------------------------------------------- refinement

  /** The kind whose deltas change a column. */
  function KindOf(column: Column): Kind {
    match column
    case UserQuota => USER_QUOTA
    case TokenRemain => TOKEN_QUOTA
    case TokenUsed => TOKEN_QUOTA
    case UserUsed => USED_QUOTA
    case ChannelUsed => CHANNEL_USED_QUOTA
    case UserRequests => REQUEST_COUNT
  }

  /** What a delta of that kind means for the column. */
  function Signed(column: Column, delta: int): int {
    if column == TokenUsed then -delta else delta
  }

  function At(m: map<int, int>, id: int): int {
    if id in m then m[id] else 0
  }

  /** Recorded but not yet in the database: waiting, or taken by a flush and not yet posted. */
  ghost function Owed(s: Batch, kind: Kind, id: int): int
    requires WellFormed(s)
  {
    At(s.stores[kind], id) + if s.taken == kind then At(s.snapshot, id) else 0
  }

  /** The database once everything recorded has been posted. */
  ghost function Settled(s: Batch): Rows
    requires WellFormed(s)
  {
    map cell | cell in s.db :: s.db[cell] + Signed(cell.column, Owed(s, KindOf(cell.column), cell.id))
  }

  /** One delta changes the cells of its kind and id, each by its signed amount. */
  lemma PostedValue(db: Rows, kind: Kind, id: int, value: int)
    ensures Posted(db, kind, id, value).Keys == db.Keys
    ensures forall cell :: cell in db ==>
              Posted(db, kind, id, value)[cell]
              == db[cell] + if KindOf(cell.column) == kind && cell.id == id then Signed(cell.column, value) else 0
  {}

  /** Which columns a delta of each kind reaches: what a token gains in remain it loses in used. */
  lemma PostedColumns(db: Rows, id: int, value: int, column: Column)
    requires Cell(column, id) in db
    ensures Posted(db, USER_QUOTA, id, value)[Cell(column, id)] - db[Cell(column, id)] == if column.UserQuota? then value else 0
    ensures Posted(db, TOKEN_QUOTA, id, value)[Cell(column, id)] - db[Cell(column, id)]
            == if column.TokenRemain? then value else if column.TokenUsed? then -value else 0
    ensures Posted(db, USED_QUOTA, id, value)[Cell(column, id)] - db[Cell(column, id)] == if column.UserUsed? then value else 0
    ensures Posted(db, CHANNEL_USED_QUOTA, id, value)[Cell(column, id)] - db[Cell(column, id)] == if column.ChannelUsed? then value else 0
    ensures Posted(db, REQUEST_COUNT, id, value)[Cell(column, id)] - db[Cell(column, id)] == if column.UserRequests? then value else 0
  {}

  lemma OwedAfterAdd(s: Batch, kind: Kind, id: int, value: int, k: Kind, i: int)
    requires WellFormed(s)
    ensures Owed(Apply(s, Add(kind, id, value)), k, i) == Owed(s, k, i) + if k == kind && i == id then value else 0
  {}

  lemma AddRefines(s: Batch, kind: Kind, id: int, value: int)
    requires WellFormed(s)
    ensures Settled(Apply(s, Add(kind, id, value))) == Posted(Settled(s), kind, id, value)
  {
    var r, before := Settled(Apply(s, Add(kind, id, value))), Settled(s);
    PostedValue(before, kind, id, value);
    forall cell | cell in s.db ensures r[cell] == Posted(before, kind, id, value)[cell] {
      OwedAfterAdd(s, kind, id, value, KindOf(cell.column), cell.id);
    }
    assert r.Keys == before.Keys == s.db.Keys;
  }

  lemma OwedAfterPost(s: Batch, id: int, k: Kind, i: int)
    requires WellFormed(s) && id in s.snapshot
    ensures Owed(Apply(s, Post(id)), k, i) == Owed(s, k, i) - if k == s.taken && i == id then s.snapshot[id] else 0
  {}

  lemma PostRefines(s: Batch, id: int)
    requires WellFormed(s) && id in s.snapshot
    ensures Settled(Apply(s, Post(id))) == Settled(s)
  {
    var r, before := Settled(Apply(s, Post(id))), Settled(s);
    PostedValue(s.db, s.taken, id, s.snapshot[id]);
    forall cell | cell in s.db ensures r[cell] == before[cell] {
      OwedAfterPost(s, id, KindOf(cell.column), cell.id);
    }
    assert r.Keys == before.Keys == s.db.Keys;
  }

  /** Recording a delta posts it to the settled database; every sub-step of a flush
      leaves the settled database as it is. */
  lemma StepRefines(s: Batch, e: Step)
    requires WellFormed(s) && Enabled(s, e)
    ensures Settled(Apply(s, e)) == if e.Add? then Posted(Settled(s), e.kind, e.id, e.value) else Settled(s)
  {
    match e
    case Add(kind, id, value) => AddRefines(s, kind, id, value);
    case Post(id) => PostRefines(s, id);
    case Swap(kind) =>
      assert forall k: Kind, i: int :: Owed(Apply(s, e), k, i) == Owed(s, k, i);
  }

  function Adds(run: seq<Step>): seq<Step> {
    if run == [] then []
    else Adds(run[..|run| - 1]) + if run[|run| - 1].Add? then [run[|run| - 1]] else []
  }

  /** Each recorded delta posted at once, and unconditionally. */
  function PostedInOrder(db: Rows, adds: seq<Step>): Rows {
    if adds == [] then db
    else
      var last := adds[|adds| - 1];
      var before := PostedInOrder(db, adds[..|adds| - 1]);
      if last.Add? then Posted(before, last.kind, last.id, last.value) else before
  }

  /** Batch mode refines unconditional posting, in every interleaving. */
  lemma {:induction false} BatchRefinesPosting(s: Batch, run: seq<Step>)
    requires WellFormed(s) && Possible(s, run)
    ensures Settled(Run(s, run)) == PostedInOrder(Settled(s), Adds(run))
  {
    if run != [] {
      var init, e := run[..|run| - 1], run[|run| - 1];
      BatchRefinesPosting(s, init);
      StepRefines(Run(s, init), e);
      if e.Add? {
        assert Adds(run) == Adds(init) + [e];
        assert Adds(run)[..|Adds(run)| - 1] == Adds(init) && Adds(run)[|Adds(run)| - 1] == e;
      } else {
        assert Adds(run) == Adds(init);
      }
    }
  }

  // ---------------------------------------------------------------- direct mode

  /** Direct mode refuses a decrease of a user's quota beyond the balance; a decrease of user or
      token is also refused when its optimistic lock is lost in both attempts. */
  predicate Refused(db: Rows, e: Step, lost: bool) {
    && e.Add? && e.value < 0
    && if e.kind == USER_QUOTA then Cell(UserQuota, e.id) in db && (lost || db[Cell(UserQuota, e.id)] < -e.value)
       else e.kind == TOKEN_QUOTA && lost && (Cell(TokenRemain, e.id) in db || Cell(TokenUsed, e.id) in db)
  }

  /** Direct mode; `lost` are the positions of the decreases that lose their lock. */
  function Direct(db: Rows, adds: seq<Step>, lost: set<nat>): Rows {
    if adds == [] then db
    else
      var last := adds[|adds| - 1];
      var before := Direct(db, adds[..|adds| - 1], lost);
      if last.Add? && !Refused(before, last, |adds| - 1 in lost) then Posted(before, last.kind, last.id, last.value) else before
  }

  /** The last decrease, or an earlier one, is refused. */
  predicate SomeRefused(db: Rows, adds: seq<Step>, lost: set<nat>) {
    adds != []
    && (SomeRefused(db, adds[..|adds| - 1], lost)
        || Refused(Direct(db, adds[..|adds| - 1], lost), adds[|adds| - 1], |adds| - 1 in lost))
  }

  /** What has been refused for one kind and id. */
  function RefusedTotal(db: Rows, adds: seq<Step>, lost: set<nat>, kind: Kind, id: int): nat {
    if adds == [] then 0
    else
      var init, e := adds[..|adds| - 1], adds[|adds| - 1];
      RefusedTotal(db, init, lost, kind, id)
      + if Refused(Direct(db, init, lost), e, |init| in lost) && e.kind == kind && e.id == id then -e.value else 0
  }

  lemma {:induction false} DirectGap(db: Rows, adds: seq<Step>, lost: set<nat>, cell: Cell)
    requires cell in db
    ensures Direct(db, adds, lost).Keys == PostedInOrder(db, adds).Keys == db.Keys
    ensures Direct(db, adds, lost)[cell]
            == PostedInOrder(db, adds)[cell] + Signed(cell.column, RefusedTotal(db, adds, lost, KindOf(cell.column), cell.id))
  {
    if adds != [] {
      var init, e := adds[..|adds| - 1], adds[|adds| - 1];
      DirectGap(db, init, lost, cell);
      if e.Add? {
        PostedValue(Direct(db, init, lost), e.kind, e.id, e.value);
        PostedValue(PostedInOrder(db, init), e.kind, e.id, e.value);
      }
    }
  }

  lemma {:induction false} SameRows(db: Rows, adds: seq<Step>, lost: set<nat>)
    ensures Direct(db, adds, lost).Keys == PostedInOrder(db, adds).Keys == db.Keys
  {
    if adds != [] {
      var e := adds[|adds| - 1];
      SameRows(db, adds[..|adds| - 1], lost);
      if e.Add? {
        PostedValue(Direct(db, adds[..|adds| - 1], lost), e.kind, e.id, e.value);
        PostedValue(PostedInOrder(db, adds[..|adds| - 1]), e.kind, e.id, e.value);
      }
    }
  }

  lemma {:induction false} RefusalShows(db: Rows, adds: seq<Step>, lost: set<nat>) returns (cell: Cell)
    requires SomeRefused(db, adds, lost)
    ensures cell in db && RefusedTotal(db, adds, lost, KindOf(cell.column), cell.id) > 0
  {
    var init, e := adds[..|adds| - 1], adds[|adds| - 1];
    if Refused(Direct(db, init, lost), e, |init| in lost) {
      SameRows(db, init, lost);
      cell := if e.kind == USER_QUOTA then Cell(UserQuota, e.id)
              else if Cell(TokenRemain, e.id) in db then Cell(TokenRemain, e.id) else Cell(TokenUsed, e.id);
    } else {
      cell := RefusalShows(db, init, lost);
    }
  }

  lemma {:induction false} NothingRefusedTotal(db: Rows, adds: seq<Step>, lost: set<nat>, kind: Kind, id: int)
    requires !SomeRefused(db, adds, lost)
    ensures RefusedTotal(db, adds, lost, kind, id) == 0
  {
    if adds != [] {
      NothingRefusedTotal(db, adds[..|adds| - 1], lost, kind, id);
    }
  }

  /** Direct mode never charges a user below zero. */
  lemma {:induction false} DirectNeverNegative(db: Rows, adds: seq<Step>, lost: set<nat>, id: int)
    requires Cell(UserQuota, id) in db && db[Cell(UserQuota, id)] >= 0
    ensures Cell(UserQuota, id) in Direct(db, adds, lost) && Direct(db, adds, lost)[Cell(UserQuota, id)] >= 0
  {
    if adds != [] {
      var init, e := adds[..|adds| - 1], adds[|adds| - 1];
      DirectNeverNegative(db, init, lost, id);
      if e.Add? { PostedValue(Direct(db, init, lost), e.kind, e.id, e.value); }
    }
  }

  /** And it refuses only what it has to: a decrease of an existing row that loses its lock, or of
      more than the user has. */
  lemma RefusedOnlyWhen(db: Rows, e: Step, lost: bool)
    requires e.Add?
    ensures Refused(db, e, lost) ==> e.value < 0 && (e.kind == 0 || e.kind == 1)
    ensures Refused(db, e, false) <==>
              e.kind == 0 && e.value < 0 && Cell(UserQuota, e.id) in db && db[Cell(UserQuota, e.id)] + e.value < 0
    ensures Refused(db, e, true) <==>
              e.value < 0 && ((e.kind == 0 && Cell(UserQuota, e.id) in db)
                              || (e.kind == 1 && (Cell(TokenRemain, e.id) in db || Cell(TokenUsed, e.id) in db)))
  {}

  /** Direct mode ends with the same rows as unconditional posting if and only if it refuses
      nothing: what is refused is never made up for later. */
  lemma DirectPostsAllIff(db: Rows, adds: seq<Step>, lost: set<nat>)
    ensures Direct(db, adds, lost) == PostedInOrder(db, adds) <==> !SomeRefused(db, adds, lost)
  {
    SameRows(db, adds, lost);
    if SomeRefused(db, adds, lost) {
      var cell := RefusalShows(db, adds, lost);
      DirectGap(db, adds, lost, cell);
    } else {
      forall cell | cell in db ensures Direct(db, adds, lost)[cell] == PostedInOrder(db, adds)[cell] {
        DirectGap(db, adds, lost, cell);
        NothingRefusedTotal(db, adds, lost, KindOf(cell.column), cell.id);
      }
    }
  }

  /** Batch mode and direct mode agree on the same deltas, in every interleaving, if and only if
      direct mode refuses none of them. */
  lemma BatchAgreesWithDirectIff(s: Batch, run: seq<Step>, lost: set<nat>)
    requires WellFormed(s) && Possible(s, run)
    ensures Settled(Run(s, run)) == Direct(Settled(s), Adds(run), lost) <==> !SomeRefused(Settled(s), Adds(run), lost)
  {
    BatchRefinesPosting(s, run);
    DirectPostsAllIff(Settled(s), Adds(run), lost);
  }

  /** Sum of the deltas recorded for one kind and id. */
  function Recorded(run: seq<Step>, kind: Kind, id: int): int {
    if run == [] then 0
    else
      var e := run[|run| - 1];
      Recorded(run[..|run| - 1], kind, id) + if e.Add? && e.kind == kind && e.id == id then e.value else 0
  }

  function Delta(e: Step, cell: Cell): int {
    if e.Add? && e.kind == KindOf(cell.column) && e.id == cell.id then e.value else 0
  }

  lemma SettledStep(s: Batch, e: Step, cell: Cell)
    requires WellFormed(s) && Enabled(s, e) && cell in s.db
    ensures cell in Apply(s, e).db
    ensures Settled(Apply(s, e))[cell] == Settled(s)[cell] + Signed(cell.column, Delta(e, cell))
  {
    StepRefines(s, e);
    if e.Add? { PostedValue(Settled(s), e.kind, e.id, e.value); }
    if e.Post? { PostedValue(s.db, s.taken, e.id, s.snapshot[e.id]); }
  }

  lemma {:induction false} SettledRun(s: Batch, run: seq<Step>, cell: Cell)
    requires WellFormed(s) && Possible(s, run) && cell in s.db
    ensures cell in Run(s, run).db
    ensures Settled(Run(s, run))[cell] == Settled(s)[cell] + Signed(cell.column, Recorded(run, KindOf(cell.column), cell.id))
  {
    if run != [] {
      SettledRun(s, run[..|run| - 1], cell);
      SettledStep(Run(s, run[..|run| - 1]), run[|run| - 1], cell);
    }
  }

  /** Database value + pending + taken = initial value + everything recorded since. */
  lemma NothingLostOrDoubled(s: Batch, run: seq<Step>, cell: Cell)
    requires WellFormed(s) && Possible(s, run) && cell in s.db
    ensures cell in Run(s, run).db
    ensures var kind, r := KindOf(cell.column), Run(s, run);
            r.db[cell] + Signed(cell.column, Owed(r, kind, cell.id))
            == s.db[cell] + Signed(cell.column, Owed(s, kind, cell.id) + Recorded(run, kind, cell.id))
  {
    SettledRun(s, run, cell);
    SettledAt(s, cell);
    SettledAt(Run(s, run), cell);
    SignedSum(cell.column, Owed(s, KindOf(cell.column), cell.id), Recorded(run, KindOf(cell.column), cell.id));
  }

  lemma SettledAt(s: Batch, cell: Cell)
    requires WellFormed(s) && cell in s.db
    ensures Settled(s)[cell] == s.db[cell] + Signed(cell.column, Owed(s, KindOf(cell.column), cell.id))
  {}

  lemma SignedSum(column: Column, a: int, b: int)
    ensures Signed(column, a + b) == Signed(column, a) + Signed(column, b)
  {}

  lemma {:induction false} StoreStaysEmpty(s: Batch, run: seq<Step>, kind: Kind)
    requires WellFormed(s) && Possible(s, run) && Adds(run) == []
    ensures s.stores[kind] == map[] || Swap(kind) in run ==> Run(s, run).stores[kind] == map[]
  {
    if run != [] {
      var init := run[..|run| - 1];
      StoreStaysEmpty(s, init, kind);
      assert run == init + [run[|run| - 1]];
    }
  }

  /** A flush during which nothing new is recorded leaves all of it posted in the database. */
  lemma QuietFlushSettles(s: Batch, run: seq<Step>)
    requires WellFormed(s) && Possible(s, run) && Adds(run) == []
    requires (forall k: Kind :: Swap(k) in run) && Run(s, run).snapshot == map[]
    ensures Run(s, run).db == Settled(s)
  {
    var r := Run(s, run);
    BatchRefinesPosting(s, run);
    forall k: Kind ensures r.stores[k] == map[] {
      StoreStaysEmpty(s, run, k);
    }
    assert Settled(r) == r.db;
  }
}

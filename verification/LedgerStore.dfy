/**
 * The ledger transactions as the code runs them: rows updated one by one, a retry loop around
 * the optimistic lock, and a drain loop (model/user.go, model/redemption.go).
 */
module LedgerStore {
  import opened Basics
  import opened Ledger
  import Runs = LedgerRuns

  datatype ChargeResult = Done | NegativeAmount | NotFound | Insufficient | TooManyRetries

  const MAX_RETRIES := 2

  /** `order` with `i` put in at position p. */
  function Inserted(order: seq<nat>, p: nat, i: nat): (r: seq<nat>)
    requires p <= |order|
    ensures |r| == |order| + 1
    ensures forall j :: 0 <= j < p ==> r[j] == order[j]
    ensures r[p] == i
    ensures forall j :: p < j < |r| ==> r[j] == order[j - 1]
  {
    order[..p] + [i] + order[p..]
  }

  lemma InsertedMembers(order: seq<nat>, p: nat, i: nat)
    requires p <= |order| && Distinct(order) && i !in order
    ensures forall j :: j in Inserted(order, p, i) <==> j in order || j == i
    ensures Distinct(Inserted(order, p, i))
  {
    assert order == order[..p] + order[p..];
  }

  lemma InsertedInOrder(records: seq<Recharge>, order: seq<nat>, p: nat, i: nat)
    requires p <= |order| && i < |records| && forall k :: 0 <= k < |order| ==> order[k] < |records|
    requires ByEndDate(records, order)
    requires forall k :: 0 <= k < p ==> records[order[k]].endDate <= records[i].endDate
    requires p < |order| ==> records[i].endDate <= records[order[p]].endDate
    ensures ByEndDate(records, Inserted(order, p, i))
  {
    assert forall k :: p <= k < |order| ==> records[i].endDate <= records[order[k]].endDate;
  }

  lemma CoveringMore(records: seq<Recharge>, i: nat, u: int, order: seq<nat>)
    requires i < |records| && Covering(records[..i], u, order) && ByEndDate(records[..i], order)
    ensures !(records[i].user == u && records[i].amount > 0) ==> Covering(records[..i + 1], u, order)
    ensures ByEndDate(records[..i + 1], order)
  {
    assert forall j :: 0 <= j < i ==> records[..i + 1][j] == records[..i][j];
  }

  lemma PlacedCovers(records: seq<Recharge>, i: nat, u: int, order: seq<nat>, p: nat)
    requires i < |records| && records[i].user == u && records[i].amount > 0 && p <= |order|
    requires Covering(records[..i], u, order)
    ensures Covering(records[..i + 1], u, Inserted(order, p, i))
  {
    var next, some := Inserted(order, p, i), records[..i + 1];
    InsertedMembers(order, p, i);
    forall k | 0 <= k < |next| ensures next[k] < |some| && some[next[k]].user == u && some[next[k]].amount > 0 {
      assert next[k] in next;
      if next[k] != i {
        var m :| 0 <= m < |order| && order[m] == next[k];
        assert some[next[k]] == records[..i][order[m]];
      }
    }
    forall j | 0 <= j < |some| && some[j].user == u && some[j].amount > 0 ensures j in next {
      if j < i { assert records[..i][j] == some[j]; }
    }
  }

  lemma {:induction false} AlongNonNegative(records: seq<Recharge>, order: seq<nat>)
    requires forall k :: 0 <= k < |order| ==> order[k] < |records| && records[order[k]].amount > 0
    ensures Along(records, order) >= 0
  {
    if order != [] {
      AlongNonNegative(records, order[1..]);
    }
  }

  lemma OneMoreTotal(records: seq<Recharge>, r: Recharge, u: int, now: int)
    ensures ExpiredTotal(records + [r], u, now)
            == ExpiredTotal(records, u, now) + if r.user == u && Expired(r, now) then r.amount else 0
  {
    assert (records + [r])[..|records|] == records;
  }

  lemma OneMoreExpiry(users: map<int, User>, records: seq<Recharge>, r: Recharge, now: int)
    ensures AfterExpiry(users, records + [r], now)
            == AddQuota(AfterExpiry(users, records, now), r.user, if Expired(r, now) then -r.amount else 0)
  {
    forall u ensures ExpiredTotal(records + [r], u, now)
                     == ExpiredTotal(records, u, now) + if r.user == u && Expired(r, now) then r.amount else 0
    {
      OneMoreTotal(records, r, u, now);
    }
  }

  lemma OneMoreLine(users: map<int, User>, records: seq<Recharge>, r: Recharge, now: int)
    ensures ExpiryLines(records + [r], users, now)
            == ExpiryLines(records, users, now) + if Expired(r, now) && r.user in users then [Expiry(r.user, r.amount)] else []
  {
    assert (records + [r])[..|records|] == records;
  }

  lemma OneMoreZeroed(records: seq<Recharge>, r: Recharge, now: int)
    ensures Zeroed(records + [r], now) == Zeroed(records, now) + [if Expired(r, now) then r.(amount := 0) else r]
  {}

  /** The books after the expiry of record i, and of it alone. */
  function OneExpired(b: Books, i: nat, now: int): Books
    requires i < |b.records|
  {
    var r := b.records[i];
    b.(users := AddQuota(b.users, r.user, if Expired(r, now) then -r.amount else 0),
       records := b.records[i := if Expired(r, now) then r.(amount := 0) else r],
       journal := b.journal + if Expired(r, now) && r.user in b.users then [Expiry(r.user, r.amount)] else [])
  }

  /** The first i records of `start` have been swept. */
  ghost predicate SweptTo(start: Books, b: Books, i: nat, now: int)
    requires i <= |start.records|
  {
    && b.codes == start.codes
    && b.records == Zeroed(start.records[..i], now) + start.records[i..]
    && b.users == AfterExpiry(start.users, start.records[..i], now)
    && b.journal == start.journal + ExpiryLines(start.records[..i], start.users, now)
  }

  lemma OneMoreSwept(start: Books, b: Books, i: nat, now: int)
    requires i < |start.records| && SweptTo(start, b, i, now)
    ensures i < |b.records| && SweptTo(start, OneExpired(b, i, now), i + 1, now)
  {
    var before, r := start.records[..i], start.records[i];
    assert start.records[..i + 1] == before + [r];
    assert b.records[i] == r;
    OneMoreExpiry(start.users, before, r, now);
    OneMoreLine(start.users, before, r, now);
    OneMoreZeroed(before, r, now);
  }

  lemma NothingSwept(start: Books, now: int)
    ensures SweptTo(start, start, 0, now)
  {
    assert start.records[..0] == [] && Zeroed([], now) + start.records[0..] == start.records;
  }

  lemma AllSwept(start: Books, b: Books, now: int)
    requires SweptTo(start, b, |start.records|, now)
    ensures AnyExpired(start.records, now) ==> b.(records := WithoutZero(b.records)) == Swept(start, now)
  {
    assert start.records[..|start.records|] == start.records && b.records == Zeroed(start.records, now);
  }

  /** The run goes on with a step. */
  lemma TakeStep(w: Runs.World, run: seq<Runs.Step>, mid: Runs.World, s: Runs.Step)
    returns (more: seq<Runs.Step>, next: Runs.World)
    requires Runs.Reaches(w, run, mid) && Runs.Legal(mid, s) && run != []
    ensures more == run + [s] && next == Runs.Apply(mid, s) && Runs.Reaches(w, more, next) && more != [] && more[0] == run[0]
  {
    Runs.Extend(w, run, mid, s);
    more, next := run + [s], Runs.Apply(mid, s);
  }

  lemma Arriving(w: Runs.World, u: int, amount: nat) returns (run: seq<Runs.Step>, next: Runs.World)
    ensures run == [Runs.Arrive(u, amount)] && Runs.Reaches(w, run, next) && next.books == w.books
    ensures |next.charges| == |w.charges| + 1 && next.charges[|w.charges|] == Runs.Charge(u, amount, Runs.Ready(0))
  {
    next := Runs.Apply(w, Runs.Arrive(u, amount));
    run := [Runs.Arrive(u, amount)];
    Runs.OneStep(w, Runs.Arrive(u, amount), next);
  }

  /** It goes on with the read of charge c. */
  lemma TakeRead(w: Runs.World, run: seq<Runs.Step>, mid: Runs.World, c: nat)
    returns (more: seq<Runs.Step>, next: Runs.World)
    requires Runs.Reaches(w, run, mid) && run != [] && c < |mid.charges| && mid.charges[c].phase.Ready?
    ensures Runs.Reaches(w, more, next) && more != [] && more[0] == run[0] && next.books == mid.books
    ensures |next.charges| == |mid.charges|
    ensures var charge, users := mid.charges[c], mid.books.users;
            next.charges[c] ==
            if charge.user !in users || users[charge.user].quota < charge.amount then charge.(phase := Runs.Finished(false))
            else charge.(phase := Runs.Held(charge.phase.tries, users[charge.user].quota, users[charge.user].version))
  {
    more, next := TakeStep(w, run, mid, Runs.Read(c));
  }

  /** It goes on with the write of charge c, which has left the books like this. */
  lemma TakeWrite(w: Runs.World, run: seq<Runs.Step>, mid: Runs.World, after: Books, c: nat, version: int, conflict: bool, committed: bool)
    returns (more: seq<Runs.Step>, next: Runs.World)
    requires Runs.Reaches(w, run, mid) && run != [] && c < |mid.charges| && mid.charges[c].phase.Held?
    requires var charge, b := mid.charges[c], mid.books;
             && (committed <==> charge.user in b.users && b.users[charge.user].version == charge.phase.version && !conflict)
             && (committed ==> version > b.users[charge.user].version)
             && (committed ==> exists order :: Fetched(b.records, charge.user, order)
                                               && after == Charged(b, charge.user, charge.amount, order, version, c))
             && (!committed ==> after == b)
    ensures Runs.Reaches(w, more, next) && more != [] && more[0] == run[0] && next.books == after
    ensures |next.charges| == |mid.charges|
    ensures var charge, tries := mid.charges[c], mid.charges[c].phase.tries + 1;
            next.charges[c] == charge.(phase := if committed then Runs.Finished(true)
                                                else if tries < 2 then Runs.Ready(tries) else Runs.Finished(false))
  {
    var order: seq<nat> := [];
    if committed {
      order :| Fetched(mid.books.records, mid.charges[c].user, order)
               && after == Charged(mid.books, mid.charges[c].user, mid.charges[c].amount, order, version, c);
    }
    more, next := TakeStep(w, run, mid, Runs.Write(c, order, version, conflict));
  }

  class Store {
    var users: map<int, User>
    var records: seq<Recharge>
    var codes: map<string, Code>
    ghost var journal: seq<Entry>
    ghost const opening: map<int, int>

    ghost function Books(): Books
      reads this
    {
      Ledger.Books(users, records, codes, journal)
    }

    /** The journal explains every user's quota. */
    ghost predicate Valid()
      reads this
    {
      Explained(Books(), opening)
    }

    constructor (users: map<int, User>, records: seq<Recharge>, codes: map<string, Code>)
      ensures Valid() && Books() == Ledger.Books(users, records, codes, [])
    {
      this.users, this.records, this.codes := users, records, codes;
      journal := [];
      opening := map u | u in users :: users[u].quota;
    }

    method IncreaseUserQuota(u: int, amount: int) returns (ok: bool)
      requires Valid()
      modifies this
      ensures Valid()
      ensures ok <==> amount >= 0
      ensures Books() == if ok then Credited(old(Books()), u, amount) else old(Books())
      ensures users == if ok && u in old(users) then old(users)[u := User(old(users)[u].quota + amount, old(users)[u].version)]
                       else old(users)
      ensures records == old(records) && codes == old(codes)
    {
      if amount < 0 {
        return false;
      }
      ghost var before := Books();
      if u in users {
        users := users[u := users[u].(quota := users[u].quota + amount)];
        journal := journal + [Credit(u, amount)];
      }
      assert Books() == Credited(before, u, amount);
      CreditedExplained(before, u, amount, opening);
      return true;
    }

    method IncreaseRechargeQuota(u: int, validity: Validity, amount: int, now: int) returns (ok: bool)
      requires Valid()
      modifies this
      ensures Valid()
      ensures ok <==> !validity.Unparsable?
      ensures Books() == if validity.Forever? || validity.Days? then Recorded(old(Books()), Recharge(u, amount, EndDate(validity, now)))
                         else old(Books())
      ensures users == old(users) && codes == old(codes) && journal == old(journal)
      ensures match validity
              case Forever => records == old(records) + [Recharge(u, amount, -1)]
              case Days(days) => records == old(records) + [Recharge(u, amount, now + 86400 * days)]
              case _ => records == old(records)
    {
      var endDate := 0;
      match validity {
        case Unset =>
        case Forever => endDate := -1;
        case Days(days) => endDate := now + days * 24 * 60 * 60;
        case Unparsable => return false;
      }
      if !validity.Unset? {
        records := records + [Recharge(u, amount, endDate)];
      }
      return true;
    }

    method Redeem(key: string, u: int, validity: Validity, now: int) returns (error: Option<RedeemError>, quota: nat)
      requires Valid()
      modifies this
      ensures Valid()
      ensures error == RedeemCheck(old(Books()), key, u, validity)
      ensures Books() == Redeemed(old(Books()), key, u, validity, now)
      ensures quota == if error.None? then old(codes)[key].quota else 0
      ensures error.None? <==>
              key != "" && u != 0 && key in old(codes) && old(codes)[key].enabled && !validity.Unparsable?
      ensures error == Some(NoCode) <==> key == ""
      ensures error == Some(NoUser) <==> key != "" && u == 0
      ensures error == Some(UnknownCode) <==> key != "" && u != 0 && key !in old(codes)
      ensures error == Some(UsedCode) <==> key != "" && u != 0 && key in old(codes) && !old(codes)[key].enabled
      ensures error.Some? ==> Books() == old(Books())
      ensures error.None? ==> codes == old(codes)[key := Code(quota, false)]
      ensures error.None? ==>
                users == if u in old(users) then old(users)[u := User(old(users)[u].quota + quota, old(users)[u].version)]
                         else old(users)
      ensures error.None? ==>
                match validity
                case Forever => records == old(records) + [Recharge(u, quota, -1)]
                case Days(days) => records == old(records) + [Recharge(u, quota, now + 86400 * days)]
                case _ => records == old(records)
    {
      if key == "" {
        return Some(NoCode), 0;
      }
      if u == 0 {
        return Some(NoUser), 0;
      }
      if key !in codes {
        return Some(UnknownCode), 0;
      }
      var code := codes[key];
      if !code.enabled {
        return Some(UsedCode), 0;
      }
      ghost var savedJournal := journal;
      var savedUsers := users;
      var credited := IncreaseUserQuota(u, code.quota);
      var recorded := IncreaseRechargeQuota(u, validity, code.quota, now);
      if !recorded {
        users, journal := savedUsers, savedJournal; // roll back
        return Some(BadValidity), 0;
      }
      codes := codes[key := code.(enabled := false)];
      return None, code.quota;
    }

    /** SELECT the user's positive records ORDER BY end_date. */
    method FetchRecords(u: int) returns (order: seq<nat>)
      ensures Fetched(records, u, order)
    {
      order := [];
      for i := 0 to |records|
        invariant Covering(records[..i], u, order) && ByEndDate(records[..i], order)
      {
        CoveringMore(records, i, u, order);
        if records[i].user == u && records[i].amount > 0 {
          order := PlaceByEndDate(order, i, u);
        }
      }
      assert records[..|records|] == records;
    }

    /** Insert record i behind those that do not end later. */
    method PlaceByEndDate(order: seq<nat>, i: nat, u: int) returns (next: seq<nat>)
      requires i < |records| && records[i].user == u && records[i].amount > 0
      requires Covering(records[..i], u, order) && ByEndDate(records[..i], order)
      ensures Covering(records[..i + 1], u, next) && ByEndDate(records[..i + 1], next)
    {
      var p := 0;
      while p < |order| && records[order[p]].endDate <= records[i].endDate
        invariant p <= |order|
        invariant forall k :: 0 <= k < p ==> records[order[k]].endDate <= records[i].endDate
      {
        p := p + 1;
      }
      next := Inserted(order, p, i);
      PlacedCovers(records, i, u, order, p);
      assert forall k :: 0 <= k < |order| ==> records[..i + 1][order[k]] == records[..i][order[k]];
      InsertedInOrder(records[..i + 1], order, p, i);
    }

    /** The loop that takes `amount` from the fetched records. */
    method DrainRecords(order: seq<nat>, amount: int) returns (remaining: int)
      requires forall k :: 0 <= k < |order| ==> order[k] < |records| && records[order[k]].amount > 0
      requires Distinct(order) && amount >= 0
      modifies this`records
      ensures records == Drained(old(records), order, amount)
      ensures remaining == Max(0, amount - Along(old(records), order))
    {
      AlongNonNegative(records, order);
      remaining := amount;
      for k := 0 to |order|
        invariant |records| == |old(records)| && remaining >= 0
        invariant forall m :: k <= m < |order| ==> records[order[m]] == old(records)[order[m]]
        invariant Drained(records, order[k..], remaining) == Drained(old(records), order, amount)
        invariant amount - remaining == Along(old(records), order) - Along(old(records), order[k..])
      {
        var i := order[k];
        var newAmount;
        ghost var rest := order[k..];
        assert rest[0] == i && rest[1..] == order[k + 1..];
        AlongNonNegative(old(records), order[k + 1..]);
        if records[i].amount <= remaining {
          newAmount := 0;
          remaining := remaining - records[i].amount;
        } else {
          newAmount := records[i].amount - remaining;
          remaining := 0;
        }
        records := records[i := records[i].(amount := newAmount)];
        if remaining == 0 {
          return;
        }
      }
    }

    /** Transactions of other requests and of the expiry job: any steps that are not those of
        charge c. */
    method Others(ghost w: Runs.World, ghost c: nat) returns (ghost steps: seq<Runs.Step>, ghost next: Runs.World)
      requires Valid() && w.books == Books() && c < |w.charges|
      modifies this
      ensures Valid() && next.books == Books()
      ensures Runs.Reaches(w, steps, next) && forall i :: 0 <= i < |steps| ==> !Runs.Owns(steps[i], c)
      ensures c < |next.charges| && next.charges[c] == w.charges[c]
      ensures old(journal) <= journal && DebitsOf(journal, c) == DebitsOf(old(journal), c)
    {
      steps, next := [], w;
    }

    method Interleave(ghost w: Runs.World, ghost run: seq<Runs.Step>, ghost mid: Runs.World, ghost c: nat)
      returns (ghost more: seq<Runs.Step>, ghost next: Runs.World)
      requires Valid() && mid.books == Books() && Runs.Reaches(w, run, mid) && run != [] && c < |mid.charges|
      modifies this
      ensures Valid() && next.books == Books() && Runs.Reaches(w, more, next) && more != [] && more[0] == run[0]
      ensures c < |next.charges| && next.charges[c] == mid.charges[c]
      ensures old(journal) <= journal && DebitsOf(journal, c) == DebitsOf(old(journal), c)
    {
      ghost var steps;
      steps, next := Others(mid, c);
      Runs.Join(w, run, mid, steps, next);
      more := run + steps;
    }

    /** One charge, as a run of the machine of LedgerRuns: it arrives, reads, and writes if the
        version is unchanged, at most twice, while the transactions of others come in between. So
        success means exactly one line with this amount, any error means none, and what holds of
        all runs holds of it. */
    method DecreaseUserQuota(u: int, amount: int, ghost w: Runs.World)
      returns (r: ChargeResult, ghost run: seq<Runs.Step>, ghost next: Runs.World)
      requires Valid() && w.books == Books() && DebitsOf(journal, |w.charges|) == []
      modifies this
      ensures Valid() && old(journal) <= journal && next.books == Books()
      ensures r.NegativeAmount? <==> amount < 0
      ensures r.NegativeAmount? ==> Books() == old(Books())
      ensures !r.NegativeAmount? ==>
                && Runs.Reaches(w, run, next) && run != [] && run[0] == Runs.Arrive(u, amount)
                && |w.charges| < |next.charges| && next.charges[|w.charges|] == Runs.Charge(u, amount, Runs.Finished(r.Done?))
      ensures DebitsOf(journal, |w.charges|) == if r.Done? then [Debit(u, amount, |w.charges|)] else []
    {
      run, next := [], w;
      if amount < 0 {
        return NegativeAmount, run, next;
      }
      ghost var c: nat := |w.charges|;
      run, next := Arriving(w, u, amount);
      var retries := 0;
      while retries < MAX_RETRIES
        invariant 0 <= retries && Valid() && old(journal) <= journal && DebitsOf(journal, c) == []
        invariant next.books == Books() && Runs.Reaches(w, run, next) && run != [] && run[0] == Runs.Arrive(u, amount)
        invariant c < |next.charges|
        invariant next.charges[c] == Runs.Charge(u, amount, if retries < 2 then Runs.Ready(retries) else Runs.Finished(false))
      {
        r, run, next := Attempt(u, amount, retries, w, run, next, c);
        if r != TooManyRetries {
          return;
        }
        retries := retries + 1;
      }
      return TooManyRetries, run, next;
    }

    /** One turn of the loop; TooManyRetries stands for a version mismatch. */
    method Attempt(u: int, amount: nat, ghost tries: nat, ghost w: Runs.World, ghost run: seq<Runs.Step>, ghost mid: Runs.World, ghost c: nat)
      returns (r: ChargeResult, ghost more: seq<Runs.Step>, ghost next: Runs.World)
      requires Valid() && mid.books == Books() && Runs.Reaches(w, run, mid) && run != []
      requires c < |mid.charges| && mid.charges[c] == Runs.Charge(u, amount, Runs.Ready(tries))
      requires DebitsOf(journal, c) == []
      modifies this
      ensures Valid() && next.books == Books() && Runs.Reaches(w, more, next) && more != [] && more[0] == run[0]
      ensures old(journal) <= journal && !r.NegativeAmount?
      ensures c < |next.charges|
      ensures next.charges[c] == Runs.Charge(u, amount,
                if r == TooManyRetries && tries + 1 < 2 then Runs.Ready(tries + 1) else Runs.Finished(r.Done?))
      ensures DebitsOf(journal, c) == if r.Done? then [Debit(u, amount, c)] else []
    {
      more, next := Interleave(w, run, mid, c);
      more, next := TakeRead(w, more, next, c);
      if u !in users {
        return NotFound, more, next;
      }
      var row := users[u];
      if row.quota < amount {
        return Insufficient, more, next;
      }
      more, next := Interleave(w, more, next, c);
      var committed;
      committed, more, next := WriteAttempt(u, row, amount, w, more, next, c);
      return if committed then Done else TooManyRetries, more, next;
    }

    method WriteAttempt(u: int, row: User, amount: nat, ghost w: Runs.World, ghost run: seq<Runs.Step>, ghost mid: Runs.World, ghost c: nat)
      returns (committed: bool, ghost more: seq<Runs.Step>, ghost next: Runs.World)
      requires Valid() && mid.books == Books() && Runs.Reaches(w, run, mid) && run != []
      requires c < |mid.charges| && mid.charges[c].user == u && mid.charges[c].amount == amount
      requires mid.charges[c].phase.Held? && mid.charges[c].phase.version == row.version
      modifies this
      ensures Valid() && next.books == Books() && Runs.Reaches(w, more, next) && more != [] && more[0] == run[0]
      ensures old(journal) <= journal
      ensures c < |next.charges|
      ensures next.charges[c] == Runs.Charge(u, amount,
                if committed then Runs.Finished(true)
                else if mid.charges[c].phase.tries + 1 < 2 then Runs.Ready(mid.charges[c].phase.tries + 1) else Runs.Finished(false))
      ensures DebitsOf(journal, c) == DebitsOf(old(journal), c) + if committed then [Debit(u, amount, c)] else []
    {
      var later :| 0 <= later;
      var version := (if u in users then users[u].version else 0) + 1 + later;
      var recordConflict: bool := *;
      committed := CompareAndCharge(u, row.version, amount, version, recordConflict, c);
      more, next := TakeWrite(w, run, mid, Books(), c, version, recordConflict, committed);
      assert DebitsOf(journal, c) + [] == DebitsOf(journal, c);
    }

    /** The write half of an attempt. `recordConflict`: a drained record's own version check fails,
        which rolls the whole transaction back. */
    method CompareAndCharge(u: int, seen: int, amount: int, version: int, recordConflict: bool, ghost charge: nat)
      returns (committed: bool)
      requires Valid() && amount >= 0
      modifies this
      ensures Valid()
      ensures committed <==> u in old(users) && old(users)[u].version == seen && !recordConflict
      ensures !committed ==> Books() == old(Books())
      ensures committed ==>
                exists order ::
                  Fetched(old(records), u, order) && Books() == Charged(old(Books()), u, amount, order, version, charge)
      ensures committed ==> users == old(users)[u := User(old(users)[u].quota - amount, version)] && codes == old(codes)
      ensures committed ==> DebitsOf(journal, charge) == DebitsOf(old(journal), charge) + [Debit(u, amount, charge)]
      ensures old(journal) <= journal
    {
      if u !in users || users[u].version != seen {
        return false;
      }
      var savedUsers, savedRecords := users, records;
      users := users[u := User(users[u].quota - amount, version)];
      var order := FetchRecords(u);
      var remaining := DrainRecords(order, amount);
      if recordConflict {
        users, records := savedUsers, savedRecords; // roll back
        return false;
      }
      assert (journal + [Debit(u, amount, charge)])[..|journal|] == journal;
      journal := journal + [Debit(u, amount, charge)];
      assert Books() == Charged(old(Books()), u, amount, order, version, charge);
      ChargedExplained(old(Books()), u, amount, order, version, charge, opening);
      return true;
    }

    /** One tick of UpdateUserQuotaData. */
    method ExpireRecharges(now: int)
      requires Valid()
      modifies this
      ensures Valid()
      ensures Books() == Swept(old(Books()), now)
    {
      var count := 0;
      for i := 0 to |records|
        invariant count > 0 <==> exists j :: 0 <= j < i && Expired(records[j], now)
        invariant count >= 0
      {
        if Expired(records[i], now) {
          count := count + 1;
        }
      }
      if count > 0 {
        SweepRecords(now);
      }
    }

    /** The transaction of a tick that has found expired records. */
    method SweepRecords(now: int)
      requires Valid() && AnyExpired(records, now)
      modifies this
      ensures Valid()
      ensures Books() == Swept(old(Books()), now)
    {
      ghost var start := Books();
      NothingSwept(start, now);
      for i := 0 to |records|
        invariant |records| == |start.records| && SweptTo(start, Books(), i, now)
      {
        OneMoreSwept(start, Books(), i, now);
        ExpireOne(i, now);
      }
      AllSwept(start, Books(), now);
      SweptExplained(start, now, opening);
      records := WithoutZero(records);
    }

    /** Takes one record, if it has expired, out of its user's quota. */
    method ExpireOne(i: nat, now: int)
      requires i < |records|
      modifies this
      ensures Books() == OneExpired(old(Books()), i, now)
    {
      var record := records[i];
      if Expired(record, now) {
        if record.user in users {
          users := users[record.user := users[record.user].(quota := users[record.user].quota - record.amount)];
          journal := journal + [Expiry(record.user, record.amount)];
        }
        records := records[i := record.(amount := 0)];
      } else {
        assert AddQuota(users, record.user, 0) == users;
      }
    }
  }
}

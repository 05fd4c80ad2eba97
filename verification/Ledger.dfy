/**
 * The quota ledger (model/user.go, model/redemption.go): user rows charged under an optimistic
 * lock, and recharge records drained by charges and swept by the hourly expiry. This module
 * holds the tables and the transactions; LedgerRuns interleaves them.
 */
module Ledger {
  import opened Basics

  datatype User = User(quota: int, version: int)

  /** Credit with an end date; -1 never expires. */
  datatype Recharge = Recharge(user: int, amount: int, endDate: int)

  datatype Code = Code(quota: nat, enabled: bool)

  /** One line for every change of a user's quota, in commit order. */
  datatype Entry =
    | Credit(user: int, amount: int)
    | Debit(user: int, amount: int, charge: nat)
    | Expiry(user: int, amount: int)

  datatype Books = Books(users: map<int, User>, records: seq<Recharge>, codes: map<string, Code>, journal: seq<Entry>)

  /** The net amount the journal books for a user. */
  function Booked(journal: seq<Entry>, u: int): int {
    if journal == [] then 0
    else
      Booked(journal[..|journal| - 1], u) +
      match journal[|journal| - 1]
      case Credit(v, amount) => (if u == v then amount else 0)
      case Debit(v, amount, _) => (if u == v then -amount else 0)
      case Expiry(v, amount) => (if u == v then -amount else 0)
  }

  /** The lines a charge has left in the journal. */
  function DebitsOf(journal: seq<Entry>, charge: nat): seq<Entry> {
    if journal == [] then []
    else
      var last := journal[|journal| - 1];
      DebitsOf(journal[..|journal| - 1], charge) + if last.Debit? && last.charge == charge then [last] else []
  }

  /** A user's credit over a list of records. */
  function Total(records: seq<Recharge>, u: int): int {
    if records == [] then 0
    else
      var last := records[|records| - 1];
      Total(records[..|records| - 1], u) + if last.user == u then last.amount else 0
  }

  ghost predicate NonNeg(records: seq<Recharge>) {
    forall i :: 0 <= i < |records| ==> records[i].amount >= 0
  }

  // ---------------------------------------------------------------- transactions

  function AddQuota(users: map<int, User>, u: int, delta: int): map<int, User> {
    if u in users then users[u := users[u].(quota := users[u].quota + delta)] else users
  }

  function Credited(b: Books, u: int, amount: int): Books {
    b.(users := AddQuota(b.users, u, amount),
       journal := if u in b.users then b.journal + [Credit(u, amount)] else b.journal)
  }

  /** The top-up ratio of an order or the redemption option, parsed. */
  datatype Validity = Unset | Forever | Days(days: int) | Unparsable

  function EndDate(validity: Validity, now: int): int {
    match validity case Days(days) => now + days * 24 * 60 * 60 case _ => -1
  }

  function Recorded(b: Books, r: Recharge): Books {
    b.(records := b.records + [r])
  }

  datatype RedeemError = NoCode | NoUser | UnknownCode | UsedCode | BadValidity

  function RedeemCheck(b: Books, key: string, u: int, validity: Validity): Option<RedeemError> {
    if key == "" then Some(NoCode)
    else if u == 0 then Some(NoUser)
    else if key !in b.codes then Some(UnknownCode)
    else if !b.codes[key].enabled then Some(UsedCode)
    else if validity.Unparsable? then Some(BadValidity)
    else None
  }

  /** One transaction: credit, record, and mark the code as used; or nothing. */
  function Redeemed(b: Books, key: string, u: int, validity: Validity, now: int): Books {
    if RedeemCheck(b, key, u, validity).Some? then b
    else
      var code := b.codes[key];
      var credited := Credited(b, u, code.quota);
      var recorded :=
        if validity.Unset? then credited else Recorded(credited, Recharge(u, code.quota, EndDate(validity, now)));
      recorded.(codes := b.codes[key := code.(enabled := false)])
  }

  /** The positive records of `u`, as indices into the table, in the order of the query. */
  ghost predicate Fetched(records: seq<Recharge>, u: int, order: seq<nat>) {
    Covering(records, u, order) && ByEndDate(records, order)
  }

  ghost predicate Covering(records: seq<Recharge>, u: int, order: seq<nat>) {
    && (forall k :: 0 <= k < |order| ==> order[k] < |records| && records[order[k]].user == u && records[order[k]].amount > 0)
    && Distinct(order)
    && (forall i :: 0 <= i < |records| && records[i].user == u && records[i].amount > 0 ==> i in order)
  }

  ghost predicate ByEndDate(records: seq<Recharge>, order: seq<nat>) {
    forall j, k :: 0 <= j < k < |order| && order[j] < |records| && order[k] < |records| ==>
      records[order[j]].endDate <= records[order[k]].endDate
  }

  /** Take `amount` from the records one after the other. */
  function Drained(records: seq<Recharge>, order: seq<nat>, amount: int): (r: seq<Recharge>)
    requires forall k :: 0 <= k < |order| ==> order[k] < |records|
    ensures |r| == |records|
    decreases |order|
  {
    if order == [] then records
    else
      var i := order[0];
      var have := records[i].amount;
      if have > amount then records[i := records[i].(amount := have - amount)]
      else
        var next := records[i := records[i].(amount := 0)];
        if amount == have then next else Drained(next, order[1..], amount - have)
  }

  /** The write half of a charge, once the version check has passed. */
  function Charged(b: Books, u: int, amount: int, order: seq<nat>, version: int, charge: nat): Books
    requires u in b.users && forall k :: 0 <= k < |order| ==> order[k] < |b.records|
  {
    b.(users := b.users[u := User(b.users[u].quota - amount, version)],
       records := Drained(b.records, order, amount),
       journal := b.journal + [Debit(u, amount, charge)])
  }

  predicate Expired(r: Recharge, now: int) {
    r.endDate <= now && r.endDate != -1 && r.amount > 0
  }

  predicate AnyExpired(records: seq<Recharge>, now: int) {
    exists i :: 0 <= i < |records| && Expired(records[i], now)
  }

  function ExpiredTotal(records: seq<Recharge>, u: int, now: int): int {
    if records == [] then 0
    else
      var last := records[|records| - 1];
      ExpiredTotal(records[..|records| - 1], u, now) + if last.user == u && Expired(last, now) then last.amount else 0
  }

  function Zeroed(records: seq<Recharge>, now: int): seq<Recharge> {
    seq(|records|, i requires 0 <= i < |records| => if Expired(records[i], now) then records[i].(amount := 0) else records[i])
  }

  function WithoutZero(records: seq<Recharge>): seq<Recharge> {
    if records == [] then []
    else
      var last := records[|records| - 1];
      WithoutZero(records[..|records| - 1]) + if last.amount == 0 then [] else [last]
  }

  function ExpiryLines(records: seq<Recharge>, users: map<int, User>, now: int): seq<Entry> {
    if records == [] then []
    else
      var last := records[|records| - 1];
      ExpiryLines(records[..|records| - 1], users, now)
      + if Expired(last, now) && last.user in users then [Expiry(last.user, last.amount)] else []
  }

  function AfterExpiry(users: map<int, User>, records: seq<Recharge>, now: int): map<int, User> {
    map u | u in users :: users[u].(quota := users[u].quota - ExpiredTotal(records, u, now))
  }

  /** One tick of the hourly job. Without expired records it does not even delete empty ones. */
  function Swept(b: Books, now: int): Books {
    if !AnyExpired(b.records, now) then b
    else
      b.(users := AfterExpiry(b.users, b.records, now),
         records := WithoutZero(Zeroed(b.records, now)),
         journal := b.journal + ExpiryLines(b.records, b.users, now))
  }

  // ---------------------------------------------------------------- the drain

  lemma {:induction false} TotalUpdate(records: seq<Recharge>, i: nat, amount: int, u: int)
    requires i < |records|
    ensures Total(records[i := records[i].(amount := amount)], u)
            == Total(records, u) + if records[i].user == u then amount - records[i].amount else 0
  {
    var next := records[i := records[i].(amount := amount)];
    var init := records[..|records| - 1];
    if i < |init| {
      TotalUpdate(init, i, amount, u);
      assert next[..|next| - 1] == init[i := init[i].(amount := amount)];
    } else {
      assert next[..|next| - 1] == init;
    }
  }

  lemma {:induction false} TotalBounds(records: seq<Recharge>, u: int)
    requires NonNeg(records)
    ensures Total(records, u) >= 0
    ensures forall i :: 0 <= i < |records| && records[i].user == u ==> records[i].amount <= Total(records, u)
    ensures (forall i :: 0 <= i < |records| && records[i].user == u ==> records[i].amount == 0) ==> Total(records, u) == 0
  {
    if records != [] {
      TotalBounds(records[..|records| - 1], u);
    }
  }

  function Used(records: seq<Recharge>, i: nat, left: int): seq<Recharge>
    requires i < |records|
  {
    records[i := records[i].(amount := left)]
  }

  lemma {:induction false} DrainStaysNonNeg(records: seq<Recharge>, order: seq<nat>, amount: int)
    requires NonNeg(records) && forall k :: 0 <= k < |order| ==> order[k] < |records|
    ensures NonNeg(Drained(records, order, amount))
    decreases |order|
  {
    if order != [] && records[order[0]].amount < amount {
      DrainStaysNonNeg(Used(records, order[0], 0), order[1..], amount - records[order[0]].amount);
    }
  }

  /** The first record covers the amount, or it is emptied and the rest follows. */
  lemma DrainFirst(records: seq<Recharge>, order: seq<nat>, amount: int)
    requires order != [] && forall k :: 0 <= k < |order| ==> order[k] < |records|
    ensures var have := records[order[0]].amount;
            Drained(records, order, amount) ==
            if have >= amount then Used(records, order[0], have - amount)
            else Drained(Used(records, order[0], 0), order[1..], amount - have)
  {}

  lemma {:induction false} DrainTakes(records: seq<Recharge>, order: seq<nat>, u: int, amount: int, v: int)
    requires NonNeg(records) && Covering(records, u, order) && amount >= 0
    ensures Total(Drained(records, order, amount), v)
            == Total(records, v) - if v == u then Min(amount, Total(records, u)) else 0
    decreases |order|
  {
    TotalBounds(records, u);
    if order != [] {
      var i, have := order[0], records[order[0]].amount;
      DrainFirst(records, order, amount);
      if have >= amount {
        TotalUpdate(records, i, have - amount, v);
      } else {
        TotalUpdate(records, i, 0, u);
        TotalUpdate(records, i, 0, v);
        CoveringRest(records, u, order);
        DrainTakes(Used(records, i, 0), order[1..], u, amount - have, v);
      }
    }
  }

  /** The drain takes exactly min(amount, total) from the user's records, nothing from others,
      and leaves no record negative. */
  lemma DrainTakesMin(records: seq<Recharge>, order: seq<nat>, u: int, amount: int)
    requires NonNeg(records) && Covering(records, u, order) && amount >= 0
    ensures var r := Drained(records, order, amount);
            && Total(r, u) == Total(records, u) - Min(amount, Total(records, u))
            && (forall v :: v != u ==> Total(r, v) == Total(records, v))
            && NonNeg(r)
  {
    DrainStaysNonNeg(records, order, amount);
    DrainTakes(records, order, u, amount, u);
    forall v | v != u ensures Total(Drained(records, order, amount), v) == Total(records, v) {
      DrainTakes(records, order, u, amount, v);
    }
  }

  /** The credit in the listed records. */
  function Along(records: seq<Recharge>, order: seq<nat>): int
    requires forall k :: 0 <= k < |order| ==> order[k] < |records|
  {
    if order == [] then 0 else records[order[0]].amount + Along(records, order[1..])
  }

  lemma {:induction false} AlongFrame(records: seq<Recharge>, order: seq<nat>, i: nat, r: Recharge)
    requires forall k :: 0 <= k < |order| ==> order[k] < |records| && order[k] != i
    requires i < |records|
    ensures Along(records[i := r], order) == Along(records, order)
  {
    if order != [] {
      AlongFrame(records, order[1..], i, r);
    }
  }

  /** What the query fetches is all of the user's credit. */
  lemma {:induction false} AlongIsTotal(records: seq<Recharge>, order: seq<nat>, u: int)
    requires NonNeg(records) && Covering(records, u, order)
    ensures Along(records, order) == Total(records, u)
    decreases |order|
  {
    TotalBounds(records, u);
    if order != [] {
      var i, rest := order[0], order[1..];
      var zero := records[i].(amount := 0);
      CoveringRest(records, u, order);
      AlongIsTotal(records[i := zero], rest, u);
      TotalUpdate(records, i, 0, u);
      assert forall k :: 0 <= k < |rest| ==> rest[k] == order[k + 1];
      AlongFrame(records, rest, i, zero);
    }
  }

  lemma CoveringRest(records: seq<Recharge>, u: int, order: seq<nat>)
    requires Covering(records, u, order) && order != []
    ensures Covering(records[order[0] := records[order[0]].(amount := 0)], u, order[1..])
  {
    var next, rest := records[order[0] := records[order[0]].(amount := 0)], order[1..];
    forall i | 0 <= i < |next| && next[i].user == u && next[i].amount > 0
      ensures i in rest
    {
      assert i in order && order == [order[0]] + rest;
    }
  }

  lemma {:induction false} DrainFrame(records: seq<Recharge>, order: seq<nat>, amount: int, i: nat)
    requires forall k :: 0 <= k < |order| ==> order[k] < |records|
    requires i < |records|
    ensures Drained(records, order, amount)[i].user == records[i].user
    ensures Drained(records, order, amount)[i].endDate == records[i].endDate
    ensures i !in order ==> Drained(records, order, amount)[i] == records[i]
    decreases |order|
  {
    if order != [] && records[order[0]].amount < amount {
      var have := records[order[0]].amount;
      DrainFrame(records[order[0] := records[order[0]].(amount := 0)], order[1..], amount - have, i);
    }
  }

  /** Greedy in the fetched order: whatever comes before a touched record is emptied, so at most
      one record is left partly used, and amounts only go down. */
  lemma {:induction false} DrainIsGreedy(records: seq<Recharge>, order: seq<nat>, amount: int, j: nat, k: nat)
    requires forall m :: 0 <= m < |order| ==> order[m] < |records| && records[order[m]].amount > 0
    requires Distinct(order) && j < k < |order| && amount >= 0
    ensures var r := Drained(records, order, amount);
            r[order[k]] != records[order[k]] ==> r[order[j]].amount == 0
    ensures 0 <= Drained(records, order, amount)[order[k]].amount <= records[order[k]].amount
    decreases |order|
  {
    var have := records[order[0]].amount;
    if have < amount {
      var next, rest := records[order[0] := records[order[0]].(amount := 0)], order[1..];
      assert forall m :: 0 <= m < |rest| ==> rest[m] == order[m + 1];
      if j == 0 {
        DrainFrame(next, rest, amount - have, order[0]);
        DrainAmounts(next, rest, amount - have, k - 1);
      } else {
        DrainIsGreedy(next, rest, amount - have, j - 1, k - 1);
      }
    }
  }

  lemma {:induction false} DrainAmounts(records: seq<Recharge>, order: seq<nat>, amount: int, k: nat)
    requires forall m :: 0 <= m < |order| ==> order[m] < |records| && records[order[m]].amount > 0
    requires Distinct(order) && k < |order| && amount >= 0
    ensures 0 <= Drained(records, order, amount)[order[k]].amount <= records[order[k]].amount
    decreases |order|
  {
    var have := records[order[0]].amount;
    if have < amount {
      var next, rest := records[order[0] := records[order[0]].(amount := 0)], order[1..];
      assert forall m :: 0 <= m < |rest| ==> rest[m] == order[m + 1];
      if k == 0 {
        DrainFrame(next, rest, amount - have, order[0]);
      } else {
        DrainAmounts(next, rest, amount - have, k - 1);
      }
    }
  }

  // ---------------------------------------------------------------- expiry

  lemma {:induction false} TotalWithoutZero(records: seq<Recharge>, u: int)
    ensures Total(WithoutZero(records), u) == Total(records, u)
  {
    if records != [] {
      var rest, last := WithoutZero(records[..|records| - 1]), records[|records| - 1];
      TotalWithoutZero(records[..|records| - 1], u);
      assert (rest + [last])[..|rest|] == rest && rest + [] == rest;
    }
  }

  lemma {:induction false} TotalZeroed(records: seq<Recharge>, u: int, now: int)
    ensures Total(Zeroed(records, now), u) == Total(records, u) - ExpiredTotal(records, u, now)
  {
    if records != [] {
      var init := records[..|records| - 1];
      TotalZeroed(init, u, now);
      assert Zeroed(records, now)[..|records| - 1] == Zeroed(init, now);
    }
  }

  lemma {:induction false} WithoutZeroMembers(records: seq<Recharge>)
    ensures forall r :: r in WithoutZero(records) <==> r in records && r.amount != 0
  {
    if records != [] {
      WithoutZeroMembers(records[..|records| - 1]);
      assert records == records[..|records| - 1] + [records[|records| - 1]];
    }
  }

  lemma {:induction false} ExpiredTotalZero(records: seq<Recharge>, u: int, now: int)
    requires !AnyExpired(records, now)
    ensures ExpiredTotal(records, u, now) == 0
  {
    if records != [] {
      var init := records[..|records| - 1];
      assert forall i :: 0 <= i < |init| ==> init[i] == records[i];
      ExpiredTotalZero(init, u, now);
    }
  }

  lemma SweptRecords(records: seq<Recharge>, now: int, u: int)
    requires NonNeg(records)
    ensures var r := WithoutZero(Zeroed(records, now));
            && Total(r, u) == Total(records, u) - ExpiredTotal(records, u, now)
            && (forall x :: x in r ==> !Expired(x, now) && x.amount > 0)
  {
    TotalWithoutZero(Zeroed(records, now), u);
    TotalZeroed(records, u, now);
    WithoutZeroMembers(Zeroed(records, now));
  }

  /** The job takes from each user what has expired, from quota and from records alike, and no
      expired record with a positive amount survives it. */
  lemma ExpiryIsExact(b: Books, now: int, u: int)
    requires NonNeg(b.records)
    ensures var r, gone := Swept(b, now), ExpiredTotal(b.records, u, now);
            && Total(r.records, u) == Total(b.records, u) - gone
            && (u in b.users ==> u in r.users && r.users[u] == b.users[u].(quota := b.users[u].quota - gone))
            && r.users.Keys == b.users.Keys
            && !AnyExpired(r.records, now)
            && NonNeg(r.records)
  {
    if AnyExpired(b.records, now) {
      SweptRecords(b.records, now, u);
      var r := WithoutZero(Zeroed(b.records, now));
      assert Swept(b, now).records == r && Swept(b, now).users == AfterExpiry(b.users, b.records, now);
      forall i | 0 <= i < |r| ensures !Expired(r[i], now) && r[i].amount > 0 {
        assert r[i] in r;
      }
    } else {
      ExpiredTotalZero(b.records, u, now);
    }
  }

  /** A user's credit that will expire at some time. */
  function Expirable(records: seq<Recharge>, u: int): int {
    if records == [] then 0
    else
      var last := records[|records| - 1];
      Expirable(records[..|records| - 1], u) + if last.user == u && last.endDate != -1 then last.amount else 0
  }

  lemma {:induction false} ExpiredOfExpirable(records: seq<Recharge>, u: int, now: int)
    requires NonNeg(records)
    ensures ExpiredTotal(records, u, now) <= Expirable(records, u)
    ensures (forall i :: 0 <= i < |records| ==> records[i].endDate <= now) ==> ExpiredTotal(records, u, now) == Expirable(records, u)
  {
    if records != [] {
      ExpiredOfExpirable(records[..|records| - 1], u, now);
    }
  }

  lemma {:induction false} LastEnd(records: seq<Recharge>) returns (now: int)
    ensures forall i :: 0 <= i < |records| ==> records[i].endDate <= now
  {
    now := 0;
    if records != [] {
      var before := LastEnd(records[..|records| - 1]);
      now := Max(before, records[|records| - 1].endDate);
    }
  }

  /** No tick of the job, whenever it comes, makes the quota negative if and only if the quota
      covers the credit that expires at all. */
  lemma ExpiryNeverNegativeIff(b: Books, u: int)
    requires NonNeg(b.records) && u in b.users
    ensures (forall now :: Swept(b, now).users[u].quota >= 0) <==> Expirable(b.records, u) <= b.users[u].quota
  {
    forall now
      ensures Swept(b, now).users[u].quota == b.users[u].quota - ExpiredTotal(b.records, u, now)
      ensures ExpiredTotal(b.records, u, now) <= Expirable(b.records, u)
    {
      ExpiryIsExact(b, now, u);
      ExpiredOfExpirable(b.records, u, now);
    }
    var last := LastEnd(b.records);
    ExpiredOfExpirable(b.records, u, last);
    assert Swept(b, last).users[u].quota == b.users[u].quota - Expirable(b.records, u);
  }

  /** Which records a tick leaves, by their end dates: those that never expire or end later, as
      they were; when something was due, the empty ones are deleted with it. */
  lemma SweepKeepsExactly(b: Books, now: int, r: Recharge)
    requires r.amount > 0
    ensures r in Swept(b, now).records <==> r in b.records && (r.endDate == -1 || r.endDate > now)
  {
    WithoutZeroMembers(Zeroed(b.records, now));
    if r in Zeroed(b.records, now) {
      var i :| 0 <= i < |b.records| && Zeroed(b.records, now)[i] == r;
      assert b.records[i] == r;
    }
    if r in b.records && !(r.endDate != -1 && r.endDate <= now) {
      var i :| 0 <= i < |b.records| && b.records[i] == r;
      assert Zeroed(b.records, now)[i] == r;
    }
    if r in b.records && r.endDate != -1 && r.endDate <= now {
      var i :| 0 <= i < |b.records| && b.records[i] == r;
      assert Expired(b.records[i], now);
    }
  }

  lemma {:induction false} ExpiryLinesBook(records: seq<Recharge>, users: map<int, User>, now: int, u: int)
    ensures u in users ==> Booked(ExpiryLines(records, users, now), u) == -ExpiredTotal(records, u, now)
    ensures forall c: nat :: DebitsOf(ExpiryLines(records, users, now), c) == []
  {
    if records != [] {
      var rest, last := ExpiryLines(records[..|records| - 1], users, now), records[|records| - 1];
      ExpiryLinesBook(records[..|records| - 1], users, now, u);
      var line := Expiry(last.user, last.amount);
      assert (rest + [line])[..|rest|] == rest && (rest + [line])[|rest|] == line;
      assert rest + [] == rest;
    }
  }

  lemma {:induction false} JournalConcat(a: seq<Entry>, b: seq<Entry>, u: int)
    ensures Booked(a + b, u) == Booked(a, u) + Booked(b, u)
    ensures forall c: nat :: DebitsOf(a + b, c) == DebitsOf(a, c) + DebitsOf(b, c)
  {
    if b == [] {
      assert a + b == a;
    } else {
      JournalConcat(a, b[..|b| - 1], u);
      assert (a + b)[..|a + b| - 1] == a + b[..|b| - 1];
    }
  }

  // ---------------------------------------------------------------- quota and journal

  /** Every user's quota is the opening quota plus what the journal books. */
  ghost predicate Explained(b: Books, opening: map<int, int>) {
    forall u :: u in b.users ==> u in opening && b.users[u].quota == opening[u] + Booked(b.journal, u)
  }

  lemma BookedMore(journal: seq<Entry>, e: Entry, u: int)
    ensures Booked(journal + [e], u) == Booked(journal, u) + if e.user == u then (if e.Credit? then e.amount else -e.amount) else 0
  {
    assert (journal + [e])[..|journal|] == journal;
  }

  lemma CreditedExplained(b: Books, u: int, amount: int, opening: map<int, int>)
    requires Explained(b, opening)
    ensures Explained(Credited(b, u, amount), opening)
  {
    var r := Credited(b, u, amount);
    forall v | v in r.users ensures v in opening && r.users[v].quota == opening[v] + Booked(r.journal, v) {
      BookedMore(b.journal, Credit(u, amount), v);
    }
  }

  lemma ChargedExplained(b: Books, u: int, amount: int, order: seq<nat>, version: int, charge: nat, opening: map<int, int>)
    requires Explained(b, opening) && u in b.users && forall k :: 0 <= k < |order| ==> order[k] < |b.records|
    ensures Explained(Charged(b, u, amount, order, version, charge), opening)
  {
    var r := Charged(b, u, amount, order, version, charge);
    forall v | v in r.users ensures v in opening && r.users[v].quota == opening[v] + Booked(r.journal, v) {
      BookedMore(b.journal, Debit(u, amount, charge), v);
    }
  }

  lemma SweptExplained(b: Books, now: int, opening: map<int, int>)
    requires Explained(b, opening)
    ensures Explained(Swept(b, now), opening)
  {
    var r := Swept(b, now);
    forall v | v in r.users ensures v in opening && r.users[v].quota == opening[v] + Booked(r.journal, v) {
      ExpiryLinesBook(b.records, b.users, now, v);
      JournalConcat(b.journal, ExpiryLines(b.records, b.users, now), v);
    }
  }
}

/**
 * Interleavings of the ledger transactions. A charge is split into its read and its
 * version-checked write, a top-up into the credit and the insertion of its recharge record
 * (controller/topup.go calls them one after the other); everything else is one step.
 */
module LedgerRuns {
  import opened Basics
  import opened Ledger

  /** Where a charge stands: about to read, holding what it has read, or finished. */
  datatype Phase = Ready(tries: nat) | Held(tries: nat, quota: int, version: int) | Finished(ok: bool)
  datatype Charge = Charge(user: int, amount: nat, phase: Phase)

  /** `gaps` are the records of top-ups that have been credited but not yet recorded. */
  datatype World = World(books: Books, charges: seq<Charge>, gaps: seq<Recharge>)

  datatype Step =
    | Arrive(user: int, amount: nat)
    | Read(c: nat)
    | Write(c: nat, order: seq<nat>, version: int, conflict: bool)
    | Refund(user: int, amount: nat)
    | TopUp(record: Recharge)
    | Record(k: nat)
    | Redeem(key: string, user: int, validity: Validity, now: int)
    | Expire(now: int)

  const MAX_TRIES := 2

  predicate Commits(w: World, s: Step)
    requires s.Write? && s.c < |w.charges| && w.charges[s.c].phase.Held?
  {
    var c := w.charges[s.c];
    c.user in w.books.users && w.books.users[c.user].version == c.phase.version && !s.conflict
  }

  /** Versions come from the clock: a new one is later than every earlier one. */
  ghost predicate Legal(w: World, s: Step) {
    match s
    case Read(c) => c < |w.charges| && w.charges[c].phase.Ready?
    case Write(c, order, version, _) =>
      && c < |w.charges| && w.charges[c].phase.Held?
      && (Commits(w, s) ==>
            && Fetched(w.books.records, w.charges[c].user, order)
            && version > w.books.users[w.charges[c].user].version)
    case TopUp(record) => record.amount >= 0
    case Record(k) => k < |w.gaps|
    case _ => true
  }

  function ReadPhase(w: World, c: Charge): Phase
    requires c.phase.Ready?
  {
    if c.user !in w.books.users || w.books.users[c.user].quota < c.amount then Finished(false)
    else Held(c.phase.tries, w.books.users[c.user].quota, w.books.users[c.user].version)
  }

  ghost function Apply(w: World, s: Step): World
    requires Legal(w, s)
  {
    match s
    case Arrive(u, amount) => w.(charges := w.charges + [Charge(u, amount, Ready(0))])
    case Read(c) => w.(charges := w.charges[c := w.charges[c].(phase := ReadPhase(w, w.charges[c]))])
    case Write(c, order, version, _) =>
      var charge := w.charges[c];
      if Commits(w, s) then
        w.(books := Charged(w.books, charge.user, charge.amount, order, version, c),
           charges := w.charges[c := charge.(phase := Finished(true))])
      else
        var tries := charge.phase.tries + 1;
        w.(charges := w.charges[c := charge.(phase := if tries < MAX_TRIES then Ready(tries) else Finished(false))])
    case Refund(u, amount) => w.(books := Credited(w.books, u, amount))
    case TopUp(record) => w.(books := Credited(w.books, record.user, record.amount), gaps := w.gaps + [record])
    case Record(k) => w.(books := Recorded(w.books, w.gaps[k]), gaps := w.gaps[..k] + w.gaps[k + 1..])
    case Redeem(key, u, validity, now) => w.(books := Redeemed(w.books, key, u, validity, now))
    case Expire(now) => w.(books := Swept(w.books, now))
  }

  ghost predicate LegalRun(w: World, run: seq<Step>)
    decreases |run|
  {
    run == [] || (Legal(w, run[0]) && LegalRun(Apply(w, run[0]), run[1..]))
  }

  ghost function After(w: World, run: seq<Step>): World
    requires LegalRun(w, run)
    decreases |run|
  {
    if run == [] then w else After(Apply(w, run[0]), run[1..])
  }

  // ---------------------------------------------------------------- every charge counts once or not at all

  /** The journal has one line for every successful charge, with its user and amount, and none
      for any other. */
  ghost predicate OncePerCharge(w: World) {
    forall k: nat :: DebitsOf(w.books.journal, k) == ExpectedDebits(w.charges, k)
  }

  /** The user's quota is the opening quota plus what the journal books. */
  ghost predicate Balanced(w: World, opening: map<int, int>) {
    Explained(w.books, opening)
  }

  lemma OneMoreLine(journal: seq<Entry>, e: Entry, c: nat)
    ensures DebitsOf(journal + [e], c) == DebitsOf(journal, c) + if e.Debit? && e.charge == c then [e] else []
  {
    assert (journal + [e])[..|journal|] == journal;
  }

  lemma SweepAddsNoDebit(b: Books, now: int, c: nat)
    ensures DebitsOf(Swept(b, now).journal, c) == DebitsOf(b.journal, c)
  {
    ExpiryLinesBook(b.records, b.users, now, 0);
    JournalConcat(b.journal, ExpiryLines(b.records, b.users, now), 0);
    assert DebitsOf(b.journal, c) + [] == DebitsOf(b.journal, c);
  }

  /** What the journal has to say of charge k. */
  function ExpectedDebits(charges: seq<Charge>, k: nat): seq<Entry> {
    if k < |charges| && charges[k].phase == Finished(true) then [Debit(charges[k].user, charges[k].amount, k)] else []
  }

  lemma CommittedJournal(w: World, s: Step)
    requires s.Write? && Legal(w, s) && Commits(w, s)
    ensures var c := w.charges[s.c];
            && Apply(w, s).books.journal == w.books.journal + [Debit(c.user, c.amount, s.c)]
            && Apply(w, s).charges == w.charges[s.c := c.(phase := Finished(true))]
  {}

  lemma OneMoreDebit(journal: seq<Entry>, charges: seq<Charge>, c: nat, done: Charge, k: nat)
    requires c < |charges| && charges[c].phase.Held? && done == charges[c].(phase := Finished(true))
    requires DebitsOf(journal, k) == ExpectedDebits(charges, k)
    ensures DebitsOf(journal + [Debit(done.user, done.amount, c)], k) == ExpectedDebits(charges[c := done], k)
  {
    OneMoreLine(journal, Debit(done.user, done.amount, c), k);
    if k == c {
      assert ExpectedDebits(charges, k) == [];
    } else {
      assert DebitsOf(journal, k) + [] == DebitsOf(journal, k);
    }
  }

  lemma WriteCounts(w: World, s: Step, k: nat)
    requires s.Write? && Legal(w, s) && Commits(w, s)
    requires DebitsOf(w.books.journal, k) == ExpectedDebits(w.charges, k)
    ensures DebitsOf(Apply(w, s).books.journal, k) == ExpectedDebits(Apply(w, s).charges, k)
  {
    CommittedJournal(w, s);
    OneMoreDebit(w.books.journal, w.charges, s.c, w.charges[s.c].(phase := Finished(true)), k);
  }

  lemma WriteCountsOnce(w: World, s: Step)
    requires s.Write? && Legal(w, s) && OncePerCharge(w)
    ensures OncePerCharge(Apply(w, s))
  {
    var next := Apply(w, s);
    forall k: nat ensures DebitsOf(next.books.journal, k) == ExpectedDebits(next.charges, k) {
      if Commits(w, s) {
        WriteCounts(w, s, k);
      }
    }
  }

  lemma OthersAddNoDebit(w: World, s: Step, c: nat)
    requires Legal(w, s) && !s.Write?
    ensures DebitsOf(Apply(w, s).books.journal, c) == DebitsOf(w.books.journal, c)
  {
    match s
    case Refund(u, amount) => OneMoreLine(w.books.journal, Credit(u, amount), c);
    case TopUp(record) => OneMoreLine(w.books.journal, Credit(record.user, record.amount), c);
    case Redeem(key, u, validity, now) =>
      if RedeemCheck(w.books, key, u, validity).None? { OneMoreLine(w.books.journal, Credit(u, w.books.codes[key].quota), c); }
    case Expire(now) => SweepAddsNoDebit(w.books, now, c);
    case _ =>
  }

  lemma StepCountsOnce(w: World, s: Step)
    requires Legal(w, s) && OncePerCharge(w)
    ensures OncePerCharge(Apply(w, s))
  {
    if s.Write? {
      WriteCountsOnce(w, s);
    } else {
      forall c: nat ensures DebitsOf(Apply(w, s).books.journal, c) == DebitsOf(w.books.journal, c) {
        OthersAddNoDebit(w, s, c);
      }
    }
  }

  lemma StepBalances(w: World, s: Step, opening: map<int, int>)
    requires Legal(w, s) && Balanced(w, opening)
    ensures Balanced(Apply(w, s), opening)
  {
    match s
    case Write(c, order, version, _) =>
      if Commits(w, s) { ChargedExplained(w.books, w.charges[c].user, w.charges[c].amount, order, version, c, opening); }
    case Refund(u, amount) => CreditedExplained(w.books, u, amount, opening);
    case TopUp(record) => CreditedExplained(w.books, record.user, record.amount, opening);
    case Redeem(key, u, validity, now) =>
      if RedeemCheck(w.books, key, u, validity).None? { CreditedExplained(w.books, u, w.books.codes[key].quota, opening); }
    case Expire(now) => SweptExplained(w.books, now, opening);
    case _ =>
  }

  /** No recharge record, inserted or still to be inserted, is negative. */
  ghost predicate Sound(w: World) {
    NonNeg(w.books.records) && NonNeg(w.gaps)
  }

  lemma StepSound(w: World, s: Step)
    requires Legal(w, s) && Sound(w)
    ensures Sound(Apply(w, s))
  {
    match s
    case Write(c, order, _, _) =>
      if Commits(w, s) { DrainTakesMin(w.books.records, order, w.charges[c].user, w.charges[c].amount); }
    case Expire(now) => ExpiryIsExact(w.books, now, 0);
    case _ =>
  }

  /** In every interleaving: a successful charge has subtracted its amount exactly once, a failed
      or unfinished one has subtracted nothing, and the quota is explained by the journal. */
  lemma {:induction false} ChargesAreExact(w: World, run: seq<Step>, opening: map<int, int>)
    requires LegalRun(w, run) && OncePerCharge(w) && Balanced(w, opening)
    ensures OncePerCharge(After(w, run)) && Balanced(After(w, run), opening)
    decreases |run|
  {
    if run != [] {
      StepCountsOnce(w, run[0]);
      StepBalances(w, run[0], opening);
      ChargesAreExact(Apply(w, run[0]), run[1..], opening);
    }
  }

  // ---------------------------------------------------------------- the steps of one charge

  ghost predicate Reaches(w: World, run: seq<Step>, next: World) {
    LegalRun(w, run) && After(w, run) == next
  }

  lemma OneStep(w: World, s: Step, next: World)
    requires Legal(w, s) && Apply(w, s) == next
    ensures Reaches(w, [s], next)
  {
    assert [s][1..] == [];
  }

  lemma {:induction false} Join(w: World, first: seq<Step>, mid: World, second: seq<Step>, next: World)
    requires Reaches(w, first, mid) && Reaches(mid, second, next)
    ensures Reaches(w, first + second, next)
    decreases |first|
  {
    if first == [] {
      assert first + second == second;
    } else {
      Join(Apply(w, first[0]), first[1..], mid, second, next);
      assert (first + second)[1..] == first[1..] + second;
    }
  }

  lemma Extend(w: World, run: seq<Step>, mid: World, s: Step)
    requires Reaches(w, run, mid) && Legal(mid, s)
    ensures Reaches(w, run + [s], Apply(mid, s))
  {
    OneStep(mid, s, Apply(mid, s));
    Join(w, run, mid, [s], Apply(mid, s));
  }

  /** The read or the write of charge c. */
  predicate Owns(s: Step, c: nat) {
    (s.Read? && s.c == c) || (s.Write? && s.c == c)
  }

  function WritesOf(run: seq<Step>, c: nat): nat {
    if run == [] then 0 else (if run[0].Write? && run[0].c == c then 1 else 0) + WritesOf(run[1..], c)
  }

  function TriesLeft(w: World, c: nat): int {
    if c >= |w.charges| then 2
    else match w.charges[c].phase case Ready(tries) => 2 - tries case Held(tries, _, _) => 2 - tries case Finished(_) => 0
  }

  ghost predicate TriesCounted(w: World, c: nat) {
    c < |w.charges| && !w.charges[c].phase.Finished? ==> w.charges[c].phase.tries < 2
  }

  /** A charge tries to write at most twice. */
  lemma {:induction false} AtMostTwoWrites(w: World, run: seq<Step>, c: nat)
    requires LegalRun(w, run) && TriesCounted(w, c)
    ensures WritesOf(run, c) <= TriesLeft(w, c) <= 2
    decreases |run|
  {
    if run != [] {
      TriesStep(w, run[0], c);
      AtMostTwoWrites(Apply(w, run[0]), run[1..], c);
    }
  }

  lemma TriesStep(w: World, s: Step, c: nat)
    requires Legal(w, s) && TriesCounted(w, c)
    ensures TriesCounted(Apply(w, s), c)
    ensures TriesLeft(Apply(w, s), c) + (if s.Write? && s.c == c then 1 else 0) <= TriesLeft(w, c)
  {}

  /** Left alone, a charge of an existing user succeeds if and only if the quota covers it. */
  lemma UndisturbedCharge(w: World, run: seq<Step>, c: nat)
    requires LegalRun(w, run) && c < |w.charges| && w.charges[c].phase.Ready?
    requires forall i :: 0 <= i < |run| ==> Owns(run[i], c) && (run[i].Write? ==> !run[i].conflict)
    requires c < |After(w, run).charges| && After(w, run).charges[c].phase.Finished?
    ensures var u, amount := w.charges[c].user, w.charges[c].amount;
            After(w, run).charges[c].phase.ok <==> u in w.books.users && amount <= w.books.users[u].quota
  {
    assert Owns(run[0], c);
    var w1, rest := Apply(w, run[0]), run[1..];
    assert forall i :: 0 <= i < |rest| ==> rest[i] == run[i + 1];
    if w1.charges[c].phase.Finished? {
      FinishedStays(w1, rest, c);
    } else {
      assert Owns(rest[0], c);
      FinishedStays(Apply(w1, rest[0]), rest[1..], c);
    }
  }

  /** So it is for a charge from its arrival on. */
  lemma UndisturbedArrival(w: World, run: seq<Step>, u: int, amount: nat)
    requires LegalRun(w, run) && run != [] && run[0] == Arrive(u, amount)
    requires forall i :: 0 < i < |run| ==> Owns(run[i], |w.charges|) && (run[i].Write? ==> !run[i].conflict)
    requires |w.charges| < |After(w, run).charges| && After(w, run).charges[|w.charges|].phase.Finished?
    ensures After(w, run).charges[|w.charges|].phase.ok <==> u in w.books.users && amount <= w.books.users[u].quota
  {
    var w1, rest := Apply(w, run[0]), run[1..];
    assert forall i :: 0 <= i < |rest| ==> rest[i] == run[i + 1];
    UndisturbedCharge(w1, rest, |w.charges|);
  }

  lemma {:induction false} FinishedStays(w: World, run: seq<Step>, c: nat)
    requires LegalRun(w, run) && c < |w.charges| && w.charges[c].phase.Finished?
    ensures c < |After(w, run).charges| && After(w, run).charges[c] == w.charges[c]
    decreases |run|
  {
    if run != [] {
      FinishedStays(Apply(w, run[0]), run[1..], c);
    }
  }

  // ---------------------------------------------------------------- what a held read is worth

  /** While the version is unchanged, what a charge of `u` has read is still available. */
  ghost predicate ReadsHold(w: World, u: int) {
    u in w.books.users ==>
      forall c :: 0 <= c < |w.charges| && w.charges[c].user == u && w.charges[c].phase.Held? ==>
        && w.charges[c].amount <= w.charges[c].phase.quota
        && w.charges[c].phase.version <= w.books.users[u].version
        && (w.charges[c].phase.version == w.books.users[u].version ==> w.charges[c].phase.quota <= w.books.users[u].quota)
  }

  ghost predicate NoneHeld(w: World, u: int) {
    forall c :: 0 <= c < |w.charges| && w.charges[c].user == u ==> !w.charges[c].phase.Held?
  }

  /** The expiry job does not change the version, so it is the one step that can spoil a read. */
  lemma StepKeepsReads(w: World, s: Step, u: int)
    requires Legal(w, s) && ReadsHold(w, u) && (s.Expire? ==> NoneHeld(w, u))
    ensures ReadsHold(Apply(w, s), u)
  {
    match s
    case _ =>
  }

  /** Without expiry, no interleaving of charges, refunds, top-ups and redemptions makes a quota
      negative. */
  lemma {:induction false} NeverNegative(w: World, run: seq<Step>, u: int)
    requires LegalRun(w, run) && ReadsHold(w, u)
    requires u in w.books.users && w.books.users[u].quota >= 0
    requires forall i :: 0 <= i < |run| ==> !run[i].Expire?
    ensures u in After(w, run).books.users && After(w, run).books.users[u].quota >= 0
    decreases |run|
  {
    if run != [] {
      StepKeepsReads(w, run[0], u);
      NeverNegative(Apply(w, run[0]), run[1..], u);
    }
  }

  /** The same for where a run has led. */
  lemma ReachedNeverNegative(w: World, run: seq<Step>, next: World, u: int)
    requires Reaches(w, run, next) && ReadsHold(w, u)
    requires u in w.books.users && w.books.users[u].quota >= 0
    requires forall i :: 0 <= i < |run| ==> !run[i].Expire?
    ensures u in next.books.users && next.books.users[u].quota >= 0
  {
    NeverNegative(w, run, u);
  }

  // ---------------------------------------------------------------- every code pays once

  predicate Enabled(b: Books, key: string) {
    key in b.codes && b.codes[key].enabled
  }

  /** The code that a step uses up, as the tables show. */
  ghost function UsedUp(w: World, s: Step): seq<string>
    requires Legal(w, s)
  {
    if s.Redeem? && Enabled(w.books, s.key) && !Enabled(Apply(w, s).books, s.key) then [s.key] else []
  }

  ghost function Used(w: World, run: seq<Step>): seq<string>
    requires LegalRun(w, run)
    decreases |run|
  {
    if run == [] then [] else UsedUp(w, run[0]) + Used(Apply(w, run[0]), run[1..])
  }

  /** What the redemptions have added to the user's quota, as the tables show. */
  ghost function RedeemedCredit(w: World, run: seq<Step>, u: int): int
    requires LegalRun(w, run) && u in w.books.users
    decreases |run|
  {
    if run == [] then 0
    else
      var next := Apply(w, run[0]);
      UsersStay(w, run[0]);
      (if run[0].Redeem? then next.books.users[u].quota - w.books.users[u].quota else 0) + RedeemedCredit(next, run[1..], u)
  }

  /** The codes that the user's own redemptions have used up. */
  ghost function UsedBy(w: World, run: seq<Step>, u: int): seq<string>
    requires LegalRun(w, run)
    decreases |run|
  {
    if run == [] then []
    else (if run[0].Redeem? && run[0].user == u then UsedUp(w, run[0]) else []) + UsedBy(Apply(w, run[0]), run[1..], u)
  }

  function Worth(codes: map<string, Code>, keys: seq<string>): int
    requires forall k :: k in keys ==> k in codes
  {
    if keys == [] then 0 else codes[keys[0]].quota + Worth(codes, keys[1..])
  }

  lemma UsersStay(w: World, s: Step)
    requires Legal(w, s)
    ensures Apply(w, s).books.users.Keys == w.books.users.Keys
  {}

  /** A step uses up no code, or exactly the enabled one that it redeems. */
  lemma CodesStep(w: World, s: Step)
    requires Legal(w, s)
    ensures var before, after, used := w.books.codes, Apply(w, s).books.codes, UsedUp(w, s);
            && after.Keys == before.Keys
            && (forall k :: k in before ==> after[k].quota == before[k].quota)
            && (forall k :: k in before ==> after[k].enabled == (before[k].enabled && k !in used))
            && (forall k :: k in used ==> Enabled(w.books, k)) && |used| <= 1
  {}

  lemma CreditStep(w: World, s: Step, u: int)
    requires Legal(w, s) && s.Redeem? && u in w.books.users
    ensures u in Apply(w, s).books.users && (forall k :: k in UsedUp(w, s) ==> k in w.books.codes)
    ensures Apply(w, s).books.users[u].quota - w.books.users[u].quota
            == if s.user == u then Worth(w.books.codes, UsedUp(w, s)) else 0
  {
    CodesStep(w, s);
  }

  lemma {:induction false} WorthJoin(codes: map<string, Code>, a: seq<string>, b: seq<string>)
    requires forall k :: k in a + b ==> k in codes
    ensures Worth(codes, a + b) == Worth(codes, a) + Worth(codes, b)
  {
    if a == [] {
      assert a + b == b;
    } else {
      assert (a + b)[1..] == a[1..] + b;
      WorthJoin(codes, a[1..], b);
    }
  }

  lemma {:induction false} WorthSame(codes: map<string, Code>, others: map<string, Code>, keys: seq<string>)
    requires forall k :: k in keys ==> k in codes && k in others && codes[k].quota == others[k].quota
    ensures Worth(codes, keys) == Worth(others, keys)
  {
    if keys != [] { WorthSame(codes, others, keys[1..]); }
  }

  /** Over a whole run: no code is used up twice, only enabled ones are, those and no others are
      disabled in the end, and no code comes back. */
  lemma {:induction false} CodesAreUsedOnce(w: World, run: seq<Step>)
    requires LegalRun(w, run)
    ensures Distinct(Used(w, run)) && forall k :: k in Used(w, run) ==> Enabled(w.books, k)
    ensures After(w, run).books.codes.Keys == w.books.codes.Keys
    ensures forall k :: k in w.books.codes ==>
              (After(w, run).books.codes[k].enabled <==> w.books.codes[k].enabled && k !in Used(w, run))
    ensures forall k :: k in w.books.codes ==> After(w, run).books.codes[k].quota == w.books.codes[k].quota
    decreases |run|
  {
    if run != [] {
      CodesStep(w, run[0]);
      CodesAreUsedOnce(Apply(w, run[0]), run[1..]);
      UsedOnceMore(w, run);
    }
  }

  lemma UsedOnceMore(w: World, run: seq<Step>)
    requires run != [] && LegalRun(w, run)
    requires Distinct(Used(Apply(w, run[0]), run[1..]))
    requires forall k :: k in Used(Apply(w, run[0]), run[1..]) ==> Enabled(Apply(w, run[0]).books, k)
    ensures Distinct(Used(w, run))
    ensures forall k :: k in Used(w, run) <==> k in UsedUp(w, run[0]) || k in Used(Apply(w, run[0]), run[1..])
  {
    CodesStep(w, run[0]);
    var first, rest := UsedUp(w, run[0]), Used(Apply(w, run[0]), run[1..]);
    assert forall i :: 0 <= i < |rest| ==> rest[i] in rest;
    assert forall i :: 0 <= i < |first| ==> first[i] in first && first[i] !in rest;
  }

  lemma {:induction false} UsedByWereEnabled(w: World, run: seq<Step>, u: int)
    requires LegalRun(w, run)
    ensures forall k :: k in UsedBy(w, run, u) ==> k in Used(w, run) && k in w.books.codes
    decreases |run|
  {
    if run != [] {
      CodesStep(w, run[0]);
      UsedByWereEnabled(Apply(w, run[0]), run[1..], u);
    }
  }

  /** One more step before a run: what its redemption adds is what its code is worth. */
  lemma CodesPayStep(w: World, run: seq<Step>, u: int)
    requires run != [] && LegalRun(w, run) && u in w.books.users
    requires forall k :: k in UsedBy(w, run, u) ==> k in w.books.codes
    requires (forall k :: k in UsedBy(Apply(w, run[0]), run[1..], u) ==> k in w.books.codes)
    requires u in Apply(w, run[0]).books.users
    requires RedeemedCredit(Apply(w, run[0]), run[1..], u) == Worth(w.books.codes, UsedBy(Apply(w, run[0]), run[1..], u))
    ensures RedeemedCredit(w, run, u) == Worth(w.books.codes, UsedBy(w, run, u))
  {
    var later := UsedBy(Apply(w, run[0]), run[1..], u);
    assert [] + later == later;
    if run[0].Redeem? {
      CreditStep(w, run[0], u);
      if run[0].user == u {
        WorthJoin(w.books.codes, UsedUp(w, run[0]), later);
      }
    }
  }

  /** And what a user has been credited for codes is what the codes that he has used up are worth. */
  lemma {:induction false} CodesPayOnce(w: World, run: seq<Step>, u: int)
    requires LegalRun(w, run) && u in w.books.users
    ensures (forall k :: k in UsedBy(w, run, u) ==> k in w.books.codes)
            && RedeemedCredit(w, run, u) == Worth(w.books.codes, UsedBy(w, run, u))
    decreases |run|
  {
    UsedByWereEnabled(w, run, u);
    if run != [] {
      var next, rest := Apply(w, run[0]), run[1..];
      UsersStay(w, run[0]);
      CodesStep(w, run[0]);
      CodesPayOnce(next, rest, u);
      UsedByWereEnabled(next, rest, u);
      WorthSame(next.books.codes, w.books.codes, UsedBy(next, rest, u));
      CodesPayStep(w, run, u);
    }
  }

  // ---------------------------------------------------------------- records never exceed the quota

  /** The user's credit, recorded or about to be, is covered by the quota. */
  ghost predicate Backed(w: World, u: int) {
    u in w.books.users ==> Total(w.books.records, u) + Total(w.gaps, u) <= w.books.users[u].quota
  }

  /** A committing charge of `u` leaves the credit that has no record yet untouched. */
  ghost predicate Covered(w: World, s: Step, u: int) {
    s.Write? && Legal(w, s) && Commits(w, s) && w.charges[s.c].user == u ==>
      w.charges[s.c].amount + Total(w.gaps, u) <= w.books.users[u].quota
  }

  lemma {:induction false} TotalRemove(records: seq<Recharge>, k: nat, u: int)
    requires k < |records|
    ensures Total(records[..k] + records[k + 1..], u) == Total(records, u) - if records[k].user == u then records[k].amount else 0
  {
    var r, init := records[..k] + records[k + 1..], records[..|records| - 1];
    if k == |records| - 1 {
      assert r == init;
    } else {
      TotalRemove(init, k, u);
      assert r[..|r| - 1] == init[..k] + init[k + 1..] && r[|r| - 1] == records[|records| - 1];
      assert init[k] == records[k];
    }
  }

  /** Exactly the uncovered writes break the relation between credit and quota. */
  lemma StepBackedIff(w: World, s: Step, u: int)
    requires Legal(w, s) && Sound(w) && Backed(w, u)
    ensures Backed(Apply(w, s), u) <==> Covered(w, s, u)
  {
    match s
    case Write(_, _, _, _) => WriteBackedIff(w, s, u);
    case Record(k) => TotalRemove(w.gaps, k, u);
    case Expire(now) => ExpiryIsExact(w.books, now, u);
    case _ =>
  }

  lemma WriteBackedIff(w: World, s: Step, u: int)
    requires s.Write? && Legal(w, s) && Sound(w) && Backed(w, u)
    ensures Backed(Apply(w, s), u) <==> Covered(w, s, u)
  {
    TotalBounds(w.books.records, u);
    if Commits(w, s) {
      DrainTakesMin(w.books.records, s.order, w.charges[s.c].user, w.charges[s.c].amount);
    }
  }

  ghost predicate BackedThroughout(w: World, run: seq<Step>, u: int)
    requires LegalRun(w, run)
    decreases |run|
  {
    Backed(w, u) && (run == [] || BackedThroughout(Apply(w, run[0]), run[1..], u))
  }

  ghost predicate CoveredThroughout(w: World, run: seq<Step>, u: int)
    requires LegalRun(w, run)
    decreases |run|
  {
    run == [] || (Covered(w, run[0], u) && CoveredThroughout(Apply(w, run[0]), run[1..], u))
  }

  /** Over a whole run the credit stays covered if and only if every committing charge finds, at
      its write, at least its amount beyond the credit not yet recorded. */
  lemma {:induction false} BackedIffCovered(w: World, run: seq<Step>, u: int)
    requires LegalRun(w, run) && Sound(w) && Backed(w, u)
    ensures BackedThroughout(w, run, u) <==> CoveredThroughout(w, run, u)
    decreases |run|
  {
    if run != [] {
      StepBackedIff(w, run[0], u);
      StepSound(w, run[0]);
      if Covered(w, run[0], u) {
        BackedIffCovered(Apply(w, run[0]), run[1..], u);
      } else {
        assert !BackedThroughout(Apply(w, run[0]), run[1..], u);
      }
    }
  }

  /** While credit is covered, neither a charge nor the unconditional subtraction of the expiry
      job can make the quota negative. */
  lemma BackedIsSafe(w: World, u: int, now: int)
    requires Sound(w) && Backed(w, u) && u in w.books.users
    ensures w.books.users[u].quota >= 0
    ensures u in Swept(w.books, now).users && Swept(w.books, now).users[u].quota >= 0
  {
    TotalBounds(w.books.records, u);
    TotalBounds(w.gaps, u);
    ExpiryIsExact(w.books, now, u);
    StepSound(w, Expire(now));
    TotalBounds(Swept(w.books, now).records, u);
    StepBackedIff(w, Expire(now), u);
  }

  /** Runs in which the two halves of a transaction are not torn apart for `u`: the expiry job
      finds none of its charges between read and write, and no charge of it commits between a
      top-up's credit and its record. */
  ghost predicate Orderly(w: World, run: seq<Step>, u: int)
    requires LegalRun(w, run)
    decreases |run|
  {
    run == [] ||
    (var s := run[0];
     && (s.Expire? ==> NoneHeld(w, u))
     && (s.Write? && w.charges[s.c].user == u ==> Total(w.gaps, u) == 0)
     && Orderly(Apply(w, s), run[1..], u))
  }

  /** Such runs keep the credit covered. */
  lemma {:induction false} OrderlyRunsStayBacked(w: World, run: seq<Step>, u: int)
    requires LegalRun(w, run) && Sound(w) && Backed(w, u) && ReadsHold(w, u) && Orderly(w, run, u)
    ensures BackedThroughout(w, run, u)
    decreases |run|
  {
    if run != [] {
      StepBackedIff(w, run[0], u);
      StepSound(w, run[0]);
      StepKeepsReads(w, run[0], u);
      OrderlyRunsStayBacked(Apply(w, run[0]), run[1..], u);
    }
  }

  // ---------------------------------------------------------------- the exact conditions

  /** The user's recharge records do not exceed the quota. */
  ghost predicate Within(w: World, u: int) {
    u in w.books.users ==> Total(w.books.records, u) <= w.books.users[u].quota
  }

  /** A committing charge of `u` finds its amount, and a new record of `u` finds room. */
  ghost predicate Fits(w: World, s: Step, u: int)
    requires Legal(w, s)
  {
    && (s.Write? && Commits(w, s) && w.charges[s.c].user == u ==> w.charges[s.c].amount <= w.books.users[u].quota)
    && (s.Record? && w.gaps[s.k].user == u && u in w.books.users ==>
          Total(w.books.records, u) + w.gaps[s.k].amount <= w.books.users[u].quota)
  }

  lemma RecordedTotal(b: Books, r: Recharge, u: int)
    ensures Total(Recorded(b, r).records, u) == Total(b.records, u) + if r.user == u then r.amount else 0
  {
    assert (b.records + [r])[..|b.records|] == b.records;
  }

  lemma WriteWithinIff(w: World, s: Step, u: int)
    requires s.Write? && Legal(w, s) && Sound(w) && Within(w, u)
    ensures Within(Apply(w, s), u) <==> Fits(w, s, u)
  {
    TotalBounds(w.books.records, u);
    if Commits(w, s) {
      DrainTakesMin(w.books.records, s.order, w.charges[s.c].user, w.charges[s.c].amount);
    }
  }

  /** Each step keeps the records within the quota if and only if it fits. */
  lemma StepWithinIff(w: World, s: Step, u: int)
    requires Legal(w, s) && Sound(w) && Within(w, u)
    ensures Within(Apply(w, s), u) <==> Fits(w, s, u)
  {
    match s
    case Write(_, _, _, _) => WriteWithinIff(w, s, u);
    case Record(k) => RecordedTotal(w.books, w.gaps[k], u);
    case Expire(now) => ExpiryIsExact(w.books, now, u);
    case _ =>
  }

  ghost predicate WithinThroughout(w: World, run: seq<Step>, u: int)
    requires LegalRun(w, run)
    decreases |run|
  {
    Within(w, u) && (run == [] || WithinThroughout(Apply(w, run[0]), run[1..], u))
  }

  ghost predicate FitsThroughout(w: World, run: seq<Step>, u: int)
    requires LegalRun(w, run)
    decreases |run|
  {
    run == [] || (Fits(w, run[0], u) && FitsThroughout(Apply(w, run[0]), run[1..], u))
  }

  /** Over a whole run the records never exceed the quota if and only if every committing charge
      finds its amount and every new record finds room. */
  lemma {:induction false} WithinIffFits(w: World, run: seq<Step>, u: int)
    requires LegalRun(w, run) && Sound(w) && Within(w, u)
    ensures WithinThroughout(w, run, u) <==> FitsThroughout(w, run, u)
    decreases |run|
  {
    if run != [] {
      StepWithinIff(w, run[0], u);
      StepSound(w, run[0]);
      if Fits(w, run[0], u) {
        WithinIffFits(Apply(w, run[0]), run[1..], u);
      } else {
        assert !WithinThroughout(Apply(w, run[0]), run[1..], u);
      }
    }
  }

  ghost predicate Solvent(w: World, u: int) {
    u in w.books.users ==> w.books.users[u].quota >= 0
  }

  /** A committing charge and a tick of the expiry job find what they take. */
  ghost predicate Pays(w: World, s: Step, u: int)
    requires Legal(w, s)
  {
    && (s.Write? && Commits(w, s) && w.charges[s.c].user == u ==> w.charges[s.c].amount <= w.books.users[u].quota)
    && (s.Expire? && u in w.books.users ==> ExpiredTotal(w.books.records, u, s.now) <= w.books.users[u].quota)
  }

  lemma StepSolventIff(w: World, s: Step, u: int)
    requires Legal(w, s) && Sound(w) && Solvent(w, u)
    ensures Solvent(Apply(w, s), u) <==> Pays(w, s, u)
  {
    if s.Expire? {
      ExpiryIsExact(w.books, s.now, u);
    }
  }

  ghost predicate SolventThroughout(w: World, run: seq<Step>, u: int)
    requires LegalRun(w, run)
    decreases |run|
  {
    Solvent(w, u) && (run == [] || SolventThroughout(Apply(w, run[0]), run[1..], u))
  }

  ghost predicate PaysThroughout(w: World, run: seq<Step>, u: int)
    requires LegalRun(w, run)
    decreases |run|
  {
    run == [] || (Pays(w, run[0], u) && PaysThroughout(Apply(w, run[0]), run[1..], u))
  }

  /** Over a whole run the quota is never negative if and only if every committing charge and
      every tick of the expiry job finds what it takes. */
  lemma {:induction false} SolventIffPays(w: World, run: seq<Step>, u: int)
    requires LegalRun(w, run) && Sound(w) && Solvent(w, u)
    ensures SolventThroughout(w, run, u) <==> PaysThroughout(w, run, u)
    decreases |run|
  {
    if run != [] {
      StepSolventIff(w, run[0], u);
      StepSound(w, run[0]);
      if Pays(w, run[0], u) {
        SolventIffPays(Apply(w, run[0]), run[1..], u);
      } else {
        assert !SolventThroughout(Apply(w, run[0]), run[1..], u);
      }
    }
  }

  /** Credit that is covered keeps both. */
  lemma {:induction false} BackedKeepsBoth(w: World, run: seq<Step>, u: int)
    requires LegalRun(w, run) && Sound(w) && BackedThroughout(w, run, u)
    ensures WithinThroughout(w, run, u) && SolventThroughout(w, run, u)
    decreases |run|
  {
    TotalBounds(w.books.records, u);
    TotalBounds(w.gaps, u);
    if run != [] {
      StepSound(w, run[0]);
      BackedKeepsBoth(Apply(w, run[0]), run[1..], u);
    }
  }

  // ---------------------------------------------------------------- both conditions are needed

  /** The worlds of the two races: one user, at most one record and one charge. */
  ghost predicate Looks(w: World, u: int, user: User, records: seq<Recharge>, charges: seq<Charge>, gaps: seq<Recharge>) {
    w.books.users == map[u := user] && w.books.records == records && w.charges == charges && w.gaps == gaps
  }

  /** A charge by the first user of a world without charges, up to its read. */
  lemma PlainRead(w: World, u: int, amount: nat, user: User, records: seq<Recharge>, gaps: seq<Recharge>)
    returns (run: seq<Step>, next: World)
    requires Looks(w, u, user, records, [], gaps) && amount <= user.quota
    ensures Reaches(w, run, next)
    ensures Looks(next, u, user, records, [Charge(u, amount, Held(0, user.quota, user.version))], gaps)
  {
    var ready, held := [Charge(u, amount, Ready(0))], [Charge(u, amount, Held(0, user.quota, user.version))];
    var mid := w.(charges := ready);
    assert w.charges + ready == ready;
    OneStep(w, Arrive(u, amount), mid);
    next := w.(charges := held);
    assert ready[0 := ready[0].(phase := Held(0, user.quota, user.version))] == held;
    OneStep(mid, Read(0), next);
    Join(w, [Arrive(u, amount)], mid, [Read(0)], next);
    run := [Arrive(u, amount)] + [Read(0)];
  }

  lemma ChargedPlain(b: Books, u: int, user: User, amount: int, version: int, charge: nat)
    requires b.users == map[u := user] && b.records == []
    ensures Charged(b, u, amount, [], version, charge).records == []
    ensures Charged(b, u, amount, [], version, charge).users == map[u := User(user.quota - amount, version)]
  {}

  lemma CommitLegal(w: World, s: Step, c: Charge, user: User)
    requires s == Write(0, [], user.version + 1, false) && c.phase.Held? && c.phase.version == user.version
    requires w.charges == [c] && w.books.records == [] && w.books.users == map[c.user := user]
    ensures Legal(w, s) && Commits(w, s)
  {
    assert w.charges[0] == c;
  }

  lemma CommitApplies(w: World, s: Step) returns (r: World)
    requires s.Write? && Legal(w, s) && Commits(w, s)
    ensures r == Apply(w, s) && r.gaps == w.gaps
    ensures var c := w.charges[s.c];
            && r.books == Charged(w.books, c.user, c.amount, s.order, s.version, s.c)
            && r.charges == w.charges[s.c := c.(phase := Finished(true))]
  {
    r := Apply(w, s);
  }

  lemma CommitLooks(w: World, r: World, c: Charge, user: User)
    requires Looks(w, c.user, user, [], [c], w.gaps)
    requires r.books == Charged(w.books, c.user, c.amount, [], user.version + 1, 0)
    requires r.charges == [c][0 := c.(phase := Finished(true))] && r.gaps == w.gaps
    ensures Looks(r, c.user, User(user.quota - c.amount, user.version + 1), [], [c.(phase := Finished(true))], w.gaps)
  {
    ChargedPlain(w.books, c.user, user, c.amount, user.version + 1, 0);
  }

  /** Its commit, when there are no recharge records. */
  lemma PlainCommit(w: World, u: int, amount: nat, seen: int, user: User, gaps: seq<Recharge>)
    returns (run: seq<Step>, next: World)
    requires Looks(w, u, user, [], [Charge(u, amount, Held(0, seen, user.version))], gaps)
    ensures Reaches(w, run, next)
    ensures Looks(next, u, User(user.quota - amount, user.version + 1), [], [Charge(u, amount, Finished(true))], gaps)
  {
    var s, c := Write(0, [], user.version + 1, false), Charge(u, amount, Held(0, seen, user.version));
    CommitLegal(w, s, c, user);
    next := CommitApplies(w, s);
    assert w.charges[0] == c;
    CommitLooks(w, next, c, user);
    OneStep(w, s, next);
    run := [s];
  }

  /** The expiry of a single record. */
  lemma PlainExpiry(w: World, r: Recharge, user: User, charges: seq<Charge>) returns (run: seq<Step>, next: World)
    requires Looks(w, r.user, user, [r], charges, []) && Expired(r, r.endDate)
    ensures Reaches(w, run, next)
    ensures Looks(next, r.user, user.(quota := user.quota - r.amount), [], charges, [])
  {
    var now, rs, zero := r.endDate, [r], [r.(amount := 0)];
    assert rs[0] == r && AnyExpired(rs, now) && rs[..|rs| - 1] == [] && zero[..|zero| - 1] == [];
    assert Zeroed(rs, now) == zero;
    assert WithoutZero(zero) == WithoutZero(zero[..|zero| - 1]) + [];
    assert ExpiredTotal(rs, r.user, now) == r.amount;
    assert AfterExpiry(w.books.users, rs, now) == map[r.user := user.(quota := user.quota - r.amount)];
    next := Apply(w, Expire(now));
    OneStep(w, Expire(now), next);
    run := [Expire(now)];
  }

  lemma PlainTopUp(w: World, r: Recharge, user: User) returns (run: seq<Step>, next: World)
    requires Looks(w, r.user, user, [], [], []) && r.amount >= 0
    ensures Reaches(w, run, next)
    ensures Looks(next, r.user, user.(quota := user.quota + r.amount), [], [], [r])
  {
    next := Apply(w, TopUp(r));
    assert next.books.users == map[r.user := user.(quota := user.quota + r.amount)];
    OneStep(w, TopUp(r), next);
    run := [TopUp(r)];
  }

  lemma PlainRecord(w: World, r: Recharge, user: User, charges: seq<Charge>) returns (run: seq<Step>, next: World)
    requires Looks(w, r.user, user, [], charges, [r])
    ensures Reaches(w, run, next)
    ensures Looks(next, r.user, user, [r], charges, [])
  {
    next := Apply(w, Record(0));
    OneStep(w, Record(0), next);
    run := [Record(0)];
  }

  /** Expiry between read and write: the version check passes and the quota becomes negative.
      The user's whole quota is one record, and the charge is for any part of it. */
  lemma StaleReadRace(w: World, r: Recharge, amount: nat) returns (run: seq<Step>, end: World)
    requires 0 < amount <= r.amount && r.endDate != -1
    requires Looks(w, r.user, User(r.amount, 0), [r], [], [])
    ensures Sound(w) && Backed(w, r.user) && ReadsHold(w, r.user)
    ensures Reaches(w, run, end) && Looks(end, r.user, User(-(amount as int), 1), [], [Charge(r.user, amount, Finished(true))], [])
  {
    assert [r][..0] == [];
    var u, user := r.user, User(r.amount, 0);
    var run1, w1 := PlainRead(w, u, amount, user, [r], []);
    var run2, w2 := PlainExpiry(w1, r, user, [Charge(u, amount, Held(0, r.amount, 0))]);
    var run3, w3 := PlainCommit(w2, u, amount, r.amount, User(0, 0), []);
    Join(w1, run2, w2, run3, w3);
    Join(w, run1, w1, run2 + run3, w3);
    run, end := run1 + (run2 + run3), w3;
  }

  /** A charge between a top-up's credit and its record: the record is inserted undrained, and
      its expiry makes the quota negative. */
  lemma TopUpGapRace(w: World, r: Recharge, amount: nat) returns (run: seq<Step>, end: World)
    requires 0 < amount <= r.amount && r.endDate != -1
    requires Looks(w, r.user, User(0, 0), [], [], [])
    ensures Sound(w) && Backed(w, r.user) && ReadsHold(w, r.user)
    ensures Reaches(w, run, end) && Looks(end, r.user, User(-(amount as int), 1), [], [Charge(r.user, amount, Finished(true))], [])
  {
    var u, done := r.user, [Charge(r.user, amount, Finished(true))];
    var run1, w1 := PlainTopUp(w, r, User(0, 0));
    var run2, w2 := PlainRead(w1, u, amount, User(r.amount, 0), [], [r]);
    var run3, w3 := PlainCommit(w2, u, amount, r.amount, User(r.amount, 0), [r]);
    var run4, w4 := PlainRecord(w3, r, User(r.amount - amount, 1), done);
    var run5, w5 := PlainExpiry(w4, r, User(r.amount - amount, 1), done);
    Join(w3, run4, w4, run5, w5);
    Join(w2, run3, w3, run4 + run5, w5);
    Join(w1, run2, w2, run3 + (run4 + run5), w5);
    Join(w, run1, w1, run2 + (run3 + (run4 + run5)), w5);
    run, end := run1 + (run2 + (run3 + (run4 + run5))), w5;
  }
}

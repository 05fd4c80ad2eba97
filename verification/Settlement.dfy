/**
 * Pre-charge, settlement and refund of requests (model/token.go, relay/controller/helper.go,
 * relay/util/billing.go), first as the code runs them for one request, then as interleaved
 * ledger calls of many requests, any of which may fail.
 */
module Settlement {
  import opened Basics

  datatype Token = Token(owner: int, remain: int, used: int, unlimited: bool)

  datatype Accounts = Accounts(users: map<int, int>, tokens: map<int, Token>)

  /** A successful DecreaseUserQuota; a negative amount stands for IncreaseUserQuota. */
  function TakeUser(a: Accounts, u: int, amount: int): Accounts {
    if u in a.users then a.(users := a.users[u := a.users[u] - amount]) else a
  }

  /** The same for a token. */
  function TakeToken(a: Accounts, t: int, amount: int): Accounts {
    if t in a.tokens then
      var token := a.tokens[t];
      a.(tokens := a.tokens[t := token.(remain := token.remain - amount, used := token.used + amount)])
    else a
  }

  // ---------------------------------------------------------------- one request

  /** Where a request stands. `pre` is what was pre-charged, `final` what it costs in the end. */
  datatype Phase =
    | Fresh
    | Rejected
    | Charging(pre: int)
    | TokenTaken(pre: int)
    | Stranded(pre: int)
    | Held(pre: int)
    | Settling(pre: int, final: int)
    | UserUnsettled(pre: int, final: int)
    | UserSettled(pre: int, final: int)
    | TokenUnsettled(pre: int, final: int)
    | Closed(final: int)

  /** The row, or what the ignored error of GetTokenById leaves of it. */
  function Found(tokens: map<int, Token>, t: int): Token {
    if t in tokens then tokens[t] else Token(0, 0, 0, false)
  }

  /** The decision of preConsumeQuota, from the cached user quota. */
  function Decide(userQuota: int, pre: int): Phase {
    if userQuota - pre < 0 then Rejected
    else if userQuota > 100 * pre then Held(0)
    else if pre > 0 then Charging(pre)
    else Held(pre)
  }

  predicate Limited(a: Accounts, t: int) {
    t in a.tokens && !a.tokens[t].unlimited
  }

  function Owner(a: Accounts, t: int): int {
    if t in a.tokens then a.tokens[t].owner else 0
  }

  /** A call on the token is made only if it has a limit. */
  function TakeIfLimited(a: Accounts, t: int, amount: int): Accounts {
    if Limited(a, t) then TakeToken(a, t, amount) else a
  }

  /** What a request has cost its user so far. */
  function UserCost(p: Phase): int {
    match p
    case Held(pre) => pre
    case Settling(pre, _) => pre
    case UserUnsettled(pre, _) => pre
    case UserSettled(_, final) => final
    case TokenUnsettled(_, final) => final
    case Closed(final) => final
    case _ => 0
  }

  /** What a request has cost its token so far, if the token has a limit. */
  function TokenCost(p: Phase): int {
    match p
    case TokenTaken(pre) => pre
    case Stranded(pre) => pre
    case Held(pre) => pre
    case Settling(pre, _) => pre
    case UserUnsettled(pre, _) => pre
    case UserSettled(pre, _) => pre
    case TokenUnsettled(pre, _) => pre
    case Closed(final) => final
    case _ => 0
  }

  /** The accounts after a request has moved from one phase to another. */
  function Moving(a: Accounts, t: int, from: Phase, to: Phase): Accounts {
    TakeUser(TakeIfLimited(a, t, TokenCost(to) - TokenCost(from)), Owner(a, t), UserCost(to) - UserCost(from))
  }

  lemma TakeNothing(a: Accounts, u: int, t: int)
    ensures TakeUser(a, u, 0) == a && TakeIfLimited(a, t, 0) == a
  {
    assert u in a.users ==> a.users[u := a.users[u]] == a.users;
    assert t in a.tokens ==> a.tokens[t := a.tokens[t]] == a.tokens;
  }

  const MAX_RETRIES := 2

  /** How the database answers the calls of a request: whether it carries out one on the user and a
      token increase, and whether each attempt of a token decrease is outrun. */
  datatype Calls = Calls(user: bool, token: bool, outrun: seq<bool>)

  /** A pre-charge that takes nothing. */
  predicate PreRefused(a: Accounts, t: int, quota: int, calls: Calls)
    requires |calls.outrun| == MAX_RETRIES
  {
    || quota < 0 || t !in a.tokens
    || (!a.tokens[t].unlimited && (a.tokens[t].remain < quota || (calls.outrun[0] && calls.outrun[1])))
    || (if a.tokens[t].owner in a.users then a.users[a.tokens[t].owner] else 0) < quota
  }

  /** The decision by cases: refused at once below the pre-charge; a positive pre-charge is waived
      exactly when a hundred of them leave something of the quota; in between it is charged. */
  lemma DecisionByCases(userQuota: int, pre: int)
    ensures Decide(userQuota, pre) == Rejected <==> userQuota < pre
    ensures pre > 0 ==> (Decide(userQuota, pre) == Held(0) <==> 100 * pre < userQuota)
    ensures pre > 0 ==> (Decide(userQuota, pre) == Charging(pre) <==> pre <= userQuota <= 100 * pre)
    ensures pre > 0 ==> Decide(100 * pre, pre) == Charging(pre) && Decide(100 * pre + 1, pre) == Held(0)
  {}

  class Gateway {
    var users: map<int, int>
    var tokens: map<int, Token>

    ghost function State(): Accounts
      reads this
    {
      Accounts(users, tokens)
    }

    /** Negative amounts are refused, and so is one beyond the quota. */
    method DecreaseUserQuota(u: int, amount: int, available: bool) returns (ok: bool)
      modifies this`users
      ensures ok <==> amount >= 0 && u in old(users) && old(users)[u] >= amount && available
      ensures State() == if ok then TakeUser(old(State()), u, amount) else old(State())
    {
      ok := amount >= 0 && u in users && users[u] >= amount && available;
      if ok {
        users := users[u := users[u] - amount];
      }
    }

    method IncreaseUserQuota(u: int, amount: int, available: bool) returns (ok: bool)
      modifies this`users
      ensures ok <==> amount >= 0 && available
      ensures State() == if ok then TakeUser(old(State()), u, -amount) else old(State())
    {
      ok := amount >= 0 && available;
      if ok && u in users {
        users := users[u := users[u] + amount];
      }
    }

    /** Each attempt can be outrun by another update that changes the version. */
    method DecreaseTokenQuota(t: int, amount: int, outrun: seq<bool>) returns (ok: bool)
      requires |outrun| == MAX_RETRIES
      modifies this`tokens
      ensures ok <==> amount >= 0 && t in old(tokens) && !(outrun[0] && outrun[1])
      ensures State() == if ok then TakeToken(old(State()), t, amount) else old(State())
    {
      if amount < 0 {
        return false;
      }
      for retries := 0 to MAX_RETRIES
        invariant State() == old(State()) && forall i :: 0 <= i < retries ==> outrun[i] && t in tokens
      {
        if t !in tokens {
          return false;
        }
        if !outrun[retries] {
          tokens := tokens[t := tokens[t].(remain := tokens[t].remain - amount, used := tokens[t].used + amount)];
          return true;
        }
      }
      return false;
    }

    method IncreaseTokenQuota(t: int, amount: int, available: bool) returns (ok: bool)
      modifies this`tokens
      ensures ok <==> amount >= 0 && available
      ensures State() == if ok then TakeToken(old(State()), t, -amount) else old(State())
    {
      ok := amount >= 0 && available;
      if ok && t in tokens {
        tokens := tokens[t := tokens[t].(remain := tokens[t].remain + amount, used := tokens[t].used - amount)];
      }
    }

    /** Token first, then user: the result tells how far it came. */
    method PreConsumeTokenQuota(t: int, quota: int, calls: Calls) returns (r: Phase)
      requires |calls.outrun| == MAX_RETRIES
      modifies this
      ensures r == if PreRefused(old(State()), t, quota, calls) then Rejected
                   else if old(tokens)[t].owner in old(users) && calls.user then Held(quota) else Stranded(quota)
      ensures State() == Moving(old(State()), t, Charging(quota), r)
    {
      TakeNothing(State(), Owner(State(), t), t);
      if quota < 0 || t !in tokens {
        return Rejected;
      }
      var token := tokens[t];
      if !token.unlimited && token.remain < quota {
        return Rejected;
      }
      var userQuota := if token.owner in users then users[token.owner] else 0;
      if userQuota < quota {
        return Rejected;
      }
      if !token.unlimited {
        var ok := DecreaseTokenQuota(t, quota, calls.outrun);
        if !ok {
          return Rejected;
        }
      }
      TakeNothing(State(), token.owner, t);
      var ok := DecreaseUserQuota(token.owner, quota, calls.user);
      return if ok then Held(quota) else Stranded(quota);
    }

    /** Refused below the pre-charge; trusted, with nothing taken, above a hundred times of it; in
        between charged. */
    method PreConsumeQuota(t: int, userQuota: int, pre: int, calls: Calls) returns (r: Phase)
      requires |calls.outrun| == MAX_RETRIES
      modifies this
      ensures userQuota < pre ==> r == Rejected && State() == old(State())
      ensures pre <= userQuota && 100 * pre < userQuota ==> r == Held(0) && State() == old(State())
      ensures pre <= userQuota <= 100 * pre && pre > 0 ==>
                r == if PreRefused(old(State()), t, pre, calls) then Rejected
                     else if old(tokens)[t].owner in old(users) && calls.user then Held(pre) else Stranded(pre)
      ensures pre <= userQuota <= 100 * pre && pre <= 0 ==> r == Held(pre)
      ensures if Decide(userQuota, pre).Charging? then r == Rejected || r == Stranded(pre) || r == Held(pre)
              else r == Decide(userQuota, pre)
      ensures State() == Moving(old(State()), t, Fresh, r)
    {
      TakeNothing(State(), Owner(State(), t), t);
      var preConsumed := pre;
      if userQuota - preConsumed < 0 {
        return Rejected;
      }
      if userQuota > 100 * preConsumed {
        preConsumed := 0;
      }
      if preConsumed > 0 {
        r := PreConsumeTokenQuota(t, preConsumed, calls);
        return;
      }
      return Held(preConsumed);
    }

    /** User first, then token; a positive amount is taken, any other is given back. */
    method PostConsumeTokenQuota(t: int, quota: int, calls: Calls) returns (userDone: bool, tokenDone: bool)
      requires |calls.outrun| == MAX_RETRIES
      modifies this
      ensures userDone <==> calls.user && (quota > 0 ==> var u := Found(old(tokens), t).owner; u in old(users) && old(users)[u] >= quota)
      ensures tokenDone <==>
                userDone && (Found(old(tokens), t).unlimited
                             || if quota > 0 then t in old(tokens) && !(calls.outrun[0] && calls.outrun[1]) else calls.token)
      ensures !userDone ==> State() == old(State())
      ensures userDone ==>
                var paid := TakeUser(old(State()), Found(old(tokens), t).owner, quota);
                State() == if tokenDone then TakeIfLimited(paid, t, quota) else paid
    {
      var token := Found(tokens, t);
      if quota > 0 {
        userDone := DecreaseUserQuota(token.owner, quota, calls.user);
      } else {
        userDone := IncreaseUserQuota(token.owner, -quota, calls.user);
      }
      if !userDone {
        return false, false;
      }
      tokenDone := true;
      if !token.unlimited {
        if quota > 0 {
          tokenDone := DecreaseTokenQuota(t, quota, calls.outrun);
        } else {
          tokenDone := IncreaseTokenQuota(t, -quota, calls.token);
        }
      }
    }

    /** The ledger part of postConsumeQuota: the request ends up costing `final`, or what the
        failed call leaves it at. */
    method PostConsumeQuota(t: int, pre: int, final: int, calls: Calls) returns (r: Phase)
      requires |calls.outrun| == MAX_RETRIES
      modifies this
      ensures r == Closed(final) || r == UserUnsettled(pre, final) || r == TokenUnsettled(pre, final)
      ensures r.UserUnsettled? <==>
                !calls.user || (final > pre && var u := Found(old(tokens), t).owner; !(u in old(users) && old(users)[u] >= final - pre))
      ensures r.Closed? <==>
                !r.UserUnsettled? && (Found(old(tokens), t).unlimited
                  || if final > pre then t in old(tokens) && !(calls.outrun[0] && calls.outrun[1]) else calls.token)
      ensures State() == Moving(old(State()), t, Held(pre), r)
    {
      TakeNothing(State(), Owner(State(), t), t);
      var userDone, tokenDone := PostConsumeTokenQuota(t, final - pre, calls);
      TakeNothing(State(), Owner(State(), t), t);
      return if !userDone then UserUnsettled(pre, final) else if !tokenDone then TokenUnsettled(pre, final) else Closed(final);
    }

    /** ReturnPreConsumedQuota: a request that fails upstream costs nothing. */
    method ReturnPreConsumedQuota(t: int, pre: int, calls: Calls) returns (r: Phase)
      requires |calls.outrun| == MAX_RETRIES
      modifies this
      ensures r == Closed(0) || r == UserUnsettled(pre, 0) || r == TokenUnsettled(pre, 0)
      ensures pre == 0 || (pre > 0 && calls.user && calls.token) ==> r == Closed(0)
      ensures State() == Moving(old(State()), t, Held(pre), r)
    {
      if pre != 0 {
        r := PostConsumeQuota(t, pre, 0, calls);
      } else {
        TakeNothing(State(), Owner(State(), t), t);
        r := Closed(0);
      }
    }
  }

  // ---------------------------------------------------------------- many requests

  datatype Request = Request(token: int, phase: Phase)
  datatype Grant = Grant(user: int, amount: int)

  datatype World = World(accounts: Accounts, requests: seq<Request>, grants: seq<Grant>)

  /** One ledger call, or a decision that makes none. `ok` is the outcome of the call. */
  datatype Step =
    | Arrive(token: int)
    | Estimate(r: nat, userQuota: int, pre: int)
    | PreToken(r: nat, ok: bool)
    | PreUser(r: nat, ok: bool)
    | Succeed(r: nat, final: int)
    | Fail(r: nat)
    | PostUser(r: nat, ok: bool)
    | PostToken(r: nat, ok: bool)
    | Credit(user: int, amount: int)

  ghost predicate Possible(w: World, s: Step) {
    match s
    case Arrive(t) => t in w.accounts.tokens && w.accounts.tokens[t].owner in w.accounts.users
    case Credit(u, _) => u in w.accounts.users
    case Estimate(r, _, _) => r < |w.requests| && w.requests[r].phase.Fresh?
    case PreToken(r, _) => r < |w.requests| && w.requests[r].phase.Charging?
    case PreUser(r, _) => r < |w.requests| && w.requests[r].phase.TokenTaken?
    case Succeed(r, _) => r < |w.requests| && w.requests[r].phase.Held?
    case Fail(r) => r < |w.requests| && w.requests[r].phase.Held?
    case PostUser(r, _) => r < |w.requests| && w.requests[r].phase.Settling?
    case PostToken(r, _) => r < |w.requests| && w.requests[r].phase.UserSettled?
  }

  function Moved(w: World, r: nat, phase: Phase): seq<Request>
    requires r < |w.requests|
  {
    w.requests[r := w.requests[r].(phase := phase)]
  }

  ghost function Apply(w: World, s: Step): World
    requires Possible(w, s)
  {
    match s
    case Arrive(t) => w.(requests := w.requests + [Request(t, Fresh)])
    case Credit(u, amount) => w.(accounts := TakeUser(w.accounts, u, -amount), grants := w.grants + [Grant(u, amount)])
    case Estimate(r, userQuota, pre) => w.(requests := Moved(w, r, Decide(userQuota, pre)))
    case PreToken(r, ok) =>
      var t, pre := w.requests[r].token, w.requests[r].phase.pre;
      if ok then World(TakeIfLimited(w.accounts, t, pre), Moved(w, r, TokenTaken(pre)), w.grants)
      else w.(requests := Moved(w, r, Rejected))
    case PreUser(r, ok) =>
      var t, pre := w.requests[r].token, w.requests[r].phase.pre;
      if ok then World(TakeUser(w.accounts, Owner(w.accounts, t), pre), Moved(w, r, Held(pre)), w.grants)
      else w.(requests := Moved(w, r, Stranded(pre)))
    case Succeed(r, final) => w.(requests := Moved(w, r, Settling(w.requests[r].phase.pre, final)))
    case Fail(r) =>
      // ReturnPreConsumedQuota does nothing when nothing was pre-charged.
      w.(requests := Moved(w, r, if w.requests[r].phase.pre != 0 then Settling(w.requests[r].phase.pre, 0) else Closed(0)))
    case PostUser(r, ok) =>
      var t, p := w.requests[r].token, w.requests[r].phase;
      if ok then World(TakeUser(w.accounts, Owner(w.accounts, t), p.final - p.pre), Moved(w, r, UserSettled(p.pre, p.final)), w.grants)
      else w.(requests := Moved(w, r, UserUnsettled(p.pre, p.final)))
    case PostToken(r, ok) =>
      var t, p := w.requests[r].token, w.requests[r].phase;
      if ok then World(TakeIfLimited(w.accounts, t, p.final - p.pre), Moved(w, r, Closed(p.final)), w.grants)
      else w.(requests := Moved(w, r, TokenUnsettled(p.pre, p.final)))
  }

  function UserCosts(requests: seq<Request>, a: Accounts, u: int): int {
    if requests == [] then 0
    else
      var last := requests[|requests| - 1];
      UserCosts(requests[..|requests| - 1], a, u) + if Owner(a, last.token) == u then UserCost(last.phase) else 0
  }

  function TokenCosts(requests: seq<Request>, t: int): int {
    if requests == [] then 0
    else
      var last := requests[|requests| - 1];
      TokenCosts(requests[..|requests| - 1], t) + if last.token == t then TokenCost(last.phase) else 0
  }

  function Granted(grants: seq<Grant>, u: int): int {
    if grants == [] then 0
    else
      var last := grants[|grants| - 1];
      Granted(grants[..|grants| - 1], u) + if last.user == u then last.amount else 0
  }

  /** Quota = opening + credits - costs; limited tokens likewise, and what a token has left and
      has used always adds up to the same. */
  ghost predicate Conserved(w: World, opening: Accounts) {
    && w.accounts.users.Keys == opening.users.Keys && w.accounts.tokens.Keys == opening.tokens.Keys
    && (forall t :: t in opening.tokens ==>
          && w.accounts.tokens[t].owner == opening.tokens[t].owner
          && w.accounts.tokens[t].unlimited == opening.tokens[t].unlimited
          && w.accounts.tokens[t].remain + w.accounts.tokens[t].used == opening.tokens[t].remain + opening.tokens[t].used
          && w.accounts.tokens[t].remain
             == opening.tokens[t].remain - if opening.tokens[t].unlimited then 0 else TokenCosts(w.requests, t))
    && (forall u :: u in opening.users ==>
          w.accounts.users[u] == opening.users[u] + Granted(w.grants, u) - UserCosts(w.requests, opening, u))
  }

  lemma {:induction false} CostsMove(requests: seq<Request>, a: Accounts, r: nat, phase: Phase, u: int, t: int)
    requires r < |requests|
    ensures var next := requests[r := requests[r].(phase := phase)];
            && UserCosts(next, a, u) == UserCosts(requests, a, u)
               + (if Owner(a, requests[r].token) == u then UserCost(phase) - UserCost(requests[r].phase) else 0)
            && TokenCosts(next, t) == TokenCosts(requests, t)
               + (if requests[r].token == t then TokenCost(phase) - TokenCost(requests[r].phase) else 0)
  {
    var next, init := requests[r := requests[r].(phase := phase)], requests[..|requests| - 1];
    if r < |init| {
      CostsMove(init, a, r, phase, u, t);
      assert next[..|next| - 1] == init[r := init[r].(phase := phase)];
    } else {
      assert next[..|next| - 1] == init;
    }
  }

  /** Requests belong to known tokens, and those to known users. */
  ghost predicate Known(w: World, opening: Accounts) {
    forall i :: 0 <= i < |w.requests| ==>
      w.requests[i].token in opening.tokens && opening.tokens[w.requests[i].token].owner in opening.users
  }

  /** Moving a request while taking from its token and its user what the move costs them. */
  lemma MoveConserves(w: World, next: World, opening: Accounts, r: nat, phase: Phase)
    requires Conserved(w, opening) && Known(w, opening) && r < |w.requests|
    requires next.requests == Moved(w, r, phase) && next.grants == w.grants
    requires next.accounts == Moving(w.accounts, w.requests[r].token, w.requests[r].phase, phase)
    ensures Conserved(next, opening) && Known(next, opening)
  {
    var t := w.requests[r].token;
    assert Owner(w.accounts, t) == Owner(opening, t);
    forall u | u in opening.users
      ensures next.accounts.users[u] == opening.users[u] + Granted(next.grants, u) - UserCosts(next.requests, opening, u)
    {
      CostsMove(w.requests, opening, r, phase, u, t);
    }
    forall x | x in opening.tokens
      ensures TokenCosts(next.requests, x) == TokenCosts(w.requests, x) + if t == x then TokenCost(phase) - TokenCost(w.requests[r].phase) else 0
    {
      CostsMove(w.requests, opening, r, phase, 0, x);
    }
  }

  predicate MovesRequest(s: Step) {
    !s.Arrive? && !s.Credit?
  }

  /** Every step takes from token and user exactly what it adds to the request's cost. */
  lemma StepTakesItsCost(w: World, s: Step)
    requires Possible(w, s) && MovesRequest(s)
    ensures var next, t, p := Apply(w, s), w.requests[s.r].token, w.requests[s.r].phase;
            && |next.requests| == |w.requests| && next.grants == w.grants
            && next.requests == Moved(w, s.r, next.requests[s.r].phase)
            && next.accounts == Moving(w.accounts, t, p, next.requests[s.r].phase)
  {
    var t := w.requests[s.r].token;
    TakeNothing(w.accounts, Owner(w.accounts, t), t);
    TakeNothing(Apply(w, s).accounts, Owner(w.accounts, t), t);
  }

  lemma StepConserves(w: World, s: Step, opening: Accounts)
    requires Possible(w, s) && Conserved(w, opening) && Known(w, opening)
    ensures Conserved(Apply(w, s), opening) && Known(Apply(w, s), opening)
  {
    if MovesRequest(s) {
      StepTakesItsCost(w, s);
      MoveConserves(w, Apply(w, s), opening, s.r, Apply(w, s).requests[s.r].phase);
    } else if s.Arrive? {
      assert (w.requests + [Request(s.token, Fresh)])[..|w.requests|] == w.requests;
    } else {
      assert (w.grants + [Grant(s.user, s.amount)])[..|w.grants|] == w.grants;
    }
  }

  ghost predicate PossibleRun(w: World, run: seq<Step>)
    decreases |run|
  {
    run == [] || (Possible(w, run[0]) && PossibleRun(Apply(w, run[0]), run[1..]))
  }

  ghost function After(w: World, run: seq<Step>): World
    requires PossibleRun(w, run)
    decreases |run|
  {
    if run == [] then w else After(Apply(w, run[0]), run[1..])
  }

  /** Every interleaving of the ledger calls of any number of requests, whichever of them fail,
      conserves quota. */
  lemma {:induction false} AlwaysConserved(w: World, run: seq<Step>, opening: Accounts)
    requires PossibleRun(w, run) && Conserved(w, opening) && Known(w, opening)
    ensures Conserved(After(w, run), opening) && Known(After(w, run), opening)
    decreases |run|
  {
    if run != [] {
      StepConserves(w, run[0], opening);
      AlwaysConserved(Apply(w, run[0]), run[1..], opening);
    }
  }

  /** Nothing is left to do for the request. */
  predicate AtRest(p: Phase) {
    p.Rejected? || p.Stranded? || p.UserUnsettled? || p.TokenUnsettled? || p.Closed?
  }

  /** A finished request has cost its user its final quota if settled, nothing if refunded or
      rejected. */
  function Bill(p: Phase): int {
    match p case Closed(final) => final case _ => 0
  }

  function Bills(requests: seq<Request>, a: Accounts, u: int): int {
    if requests == [] then 0
    else
      var last := requests[|requests| - 1];
      Bills(requests[..|requests| - 1], a, u) + if Owner(a, last.token) == u then Bill(last.phase) else 0
  }

  lemma {:induction false} CostsAreBills(requests: seq<Request>, a: Accounts, u: int)
    requires forall i :: 0 <= i < |requests| ==> requests[i].phase.Closed? || requests[i].phase.Rejected?
    ensures UserCosts(requests, a, u) == Bills(requests, a, u)
  {
    if requests != [] {
      CostsAreBills(requests[..|requests| - 1], a, u);
    }
  }

  /** When all requests have finished without a failed settlement call, the user's quota is the
      opening quota plus the credits minus the final charges. */
  lemma FinishedRunsPayTheBills(w: World, run: seq<Step>, opening: Accounts, u: int)
    requires w == World(opening, [], []) && PossibleRun(w, run) && u in opening.users
    requires forall i :: 0 <= i < |After(w, run).requests| ==>
               After(w, run).requests[i].phase.Closed? || After(w, run).requests[i].phase.Rejected?
    ensures var end := After(w, run);
            u in end.accounts.users &&
            end.accounts.users[u] == opening.users[u] + Granted(end.grants, u) - Bills(end.requests, opening, u)
  {
    AlwaysConserved(w, run, opening);
    CostsAreBills(After(w, run).requests, opening, u);
  }

  // ---------------------------------------------------------------- user against tokens

  /** What the requests have cost the tokens of a user. */
  function OwnerTokenCosts(requests: seq<Request>, a: Accounts, u: int): int {
    if requests == [] then 0
    else
      var last := requests[|requests| - 1];
      OwnerTokenCosts(requests[..|requests| - 1], a, u) + if Owner(a, last.token) == u then TokenCost(last.phase) else 0
  }

  /** The pre-charges that only the token has paid count against, the settlements that only the
      user has paid count for the difference. */
  function Gap(p: Phase): int {
    match p
    case Stranded(pre) => -pre
    case TokenUnsettled(pre, final) => final - pre
    case _ => 0
  }

  function Gaps(requests: seq<Request>, a: Accounts, u: int): int {
    if requests == [] then 0
    else
      var last := requests[|requests| - 1];
      Gaps(requests[..|requests| - 1], a, u) + if Owner(a, last.token) == u then Gap(last.phase) else 0
  }

  /** A finished request costs user and limited token the same, except after a pre-charge that took
      the token but not the user, and after a settlement that changed the user but not the token. */
  lemma CostGap(p: Phase)
    requires AtRest(p)
    ensures UserCost(p) - TokenCost(p) == Gap(p)
    ensures UserCost(p) == TokenCost(p) <==> !(p.Stranded? && p.pre != 0) && !(p.TokenUnsettled? && p.pre != p.final)
  {}

  lemma {:induction false} CostsDifferByGaps(requests: seq<Request>, a: Accounts, u: int)
    requires forall i :: 0 <= i < |requests| ==> AtRest(requests[i].phase)
    ensures UserCosts(requests, a, u) - OwnerTokenCosts(requests, a, u) == Gaps(requests, a, u)
  {
    if requests != [] {
      CostGap(requests[|requests| - 1].phase);
      CostsDifferByGaps(requests[..|requests| - 1], a, u);
    }
  }

  /** What has gone from the listed tokens. */
  function Spent(tokens: seq<int>, opening: Accounts, end: Accounts): int
    requires forall t :: t in tokens ==> t in opening.tokens && t in end.tokens
  {
    if tokens == [] then 0
    else
      var t := tokens[|tokens| - 1];
      Spent(tokens[..|tokens| - 1], opening, end) + opening.tokens[t].remain - end.tokens[t].remain
  }

  function ListedCosts(tokens: seq<int>, requests: seq<Request>): int {
    if tokens == [] then 0 else ListedCosts(tokens[..|tokens| - 1], requests) + TokenCosts(requests, tokens[|tokens| - 1])
  }

  /** One more request adds to exactly one of the listed tokens, or to none. */
  lemma {:induction false} OneMoreRequest(tokens: seq<int>, requests: seq<Request>, r: Request)
    requires Distinct(tokens)
    ensures ListedCosts(tokens, requests + [r])
            == ListedCosts(tokens, requests) + if r.token in tokens then TokenCost(r.phase) else 0
  {
    if tokens != [] {
      var init, t := tokens[..|tokens| - 1], tokens[|tokens| - 1];
      OneMoreRequest(init, requests, r);
      assert (requests + [r])[..|requests|] == requests;
      assert tokens == init + [t] && t !in init;
    }
  }

  lemma {:induction false} NoRequests(tokens: seq<int>)
    ensures ListedCosts(tokens, []) == 0
  {
    if tokens != [] { NoRequests(tokens[..|tokens| - 1]); }
  }

  lemma {:induction false} ListedAreOwned(tokens: seq<int>, requests: seq<Request>, a: Accounts, u: int)
    requires Distinct(tokens) && forall i :: 0 <= i < |requests| ==> (requests[i].token in tokens <==> Owner(a, requests[i].token) == u)
    ensures ListedCosts(tokens, requests) == OwnerTokenCosts(requests, a, u)
  {
    if requests == [] {
      NoRequests(tokens);
    } else {
      var init, r := requests[..|requests| - 1], requests[|requests| - 1];
      ListedAreOwned(tokens, init, a, u);
      OneMoreRequest(tokens, init, r);
      assert requests == init + [r];
    }
  }

  lemma {:induction false} SpentIsCost(tokens: seq<int>, w: World, opening: Accounts)
    requires Conserved(w, opening)
    requires forall t :: t in tokens ==> t in opening.tokens && !opening.tokens[t].unlimited
    ensures Spent(tokens, opening, w.accounts) == ListedCosts(tokens, w.requests)
  {
    if tokens != [] {
      var init, t := tokens[..|tokens| - 1], tokens[|tokens| - 1];
      assert t in tokens && forall x :: x in init ==> x in tokens;
      SpentIsCost(init, w, opening);
    }
  }

  /** Once all requests are at rest, a user with limited tokens has spent more than the tokens by
      exactly the settlements that reached only the user, less the pre-charges that reached only
      a token. */
  lemma UserAndTokensDiffer(w: World, run: seq<Step>, opening: Accounts, u: int, tokens: seq<int>)
    requires w == World(opening, [], []) && PossibleRun(w, run) && u in opening.users
    requires Distinct(tokens) && forall t :: t in tokens <==> t in opening.tokens && opening.tokens[t].owner == u
    requires forall t :: t in tokens ==> !opening.tokens[t].unlimited
    requires forall i :: 0 <= i < |After(w, run).requests| ==> AtRest(After(w, run).requests[i].phase)
    ensures var end := After(w, run);
            && u in end.accounts.users && (forall t :: t in tokens ==> t in end.accounts.tokens)
            && (opening.users[u] + Granted(end.grants, u) - end.accounts.users[u]) - Spent(tokens, opening, end.accounts)
               == Gaps(end.requests, opening, u)
  {
    var end := After(w, run);
    AlwaysConserved(w, run, opening);
    CostsDifferByGaps(end.requests, opening, u);
    SpentIsCost(tokens, end, opening);
    ListedAreOwned(tokens, end.requests, opening, u);
  }
}

/**
 * The per-channel, per-model request cap (model/ability.go): a fixed window that starts at a
 * check or an update and is counted by both. Concurrent requests interleave freely, so a
 * history is any sequence of checks and updates in the order in which they take the mutex.
 */
module ChannelLimit {
  import opened Basics

  /** Nanoseconds. */
  const MINUTE: int := 60_000_000_000

  const CAP: int := 5

  datatype Limit = Limit(count: int, reset: int)
  type Status = Option<Limit>

  datatype Event = Check(now: int) | Update(now: int)
  type History = seq<Event>

  predicate Grants(s: Status, now: int) {
    s.None? || now > s.value.reset || s.value.count < CAP
  }

  function Checked(s: Status, now: int): Status {
    if s.None? || now > s.value.reset then Some(Limit(1, now + MINUTE))
    else if s.value.count < CAP then Some(s.value.(count := s.value.count + 1))
    else s
  }

  function Updated(s: Status, now: int): Status {
    if s.None? then None
    else if now > s.value.reset then Some(Limit(1, now + MINUTE))
    else Some(s.value.(count := s.value.count + 1))
  }

  type Key = (int, string)

  function StatusOf(table: map<Key, Limit>, key: Key): Status {
    if key in table then Some(table[key]) else None
  }

  class ChannelLimits {
    var table: map<Key, Limit>

    constructor ()
      ensures table == map[]
    {
      table := map[];
    }

    method CheckRateLimit(channelId: int, model: string, now: int) returns (ok: bool)
      modifies this
      ensures ok == Grants(StatusOf(old(table), (channelId, model)), now)
      ensures StatusOf(table, (channelId, model)) == Checked(StatusOf(old(table), (channelId, model)), now)
      ensures forall key :: key != (channelId, model) ==> StatusOf(table, key) == StatusOf(old(table), key)
    {
      var key := (channelId, model);
      if key !in table {
        table := table[key := Limit(1, now + MINUTE)];
        return true;
      }
      var rl := table[key];
      if now > rl.reset {
        table := table[key := Limit(1, now + MINUTE)];
        return true;
      } else if rl.count < CAP {
        table := table[key := rl.(count := rl.count + 1)];
        return true;
      }
      return false;
    }

    method UpdateRateLimitStatus(channelId: int, model: string, now: int)
      modifies this
      ensures StatusOf(table, (channelId, model)) == Updated(StatusOf(old(table), (channelId, model)), now)
      ensures forall key :: key != (channelId, model) ==> StatusOf(table, key) == StatusOf(old(table), key)
    {
      var key := (channelId, model);
      if key !in table {
        return;
      }
      var rl := table[key];
      if now > rl.reset {
        rl := Limit(1, now + MINUTE);
      } else {
        rl := rl.(count := rl.count + 1);
      }
      table := table[key := rl];
    }
  }

  // ---------------------------------------------------------------- histories of one key

  function After(h: History): Status {
    if h == [] then None
    else
      var s := After(h[..|h| - 1]);
      match h[|h| - 1] case Check(now) => Checked(s, now) case Update(now) => Updated(s, now)
  }

  /** The last event of `h` is a check that lets its request through. */
  predicate LastGranted(h: History)
    requires h != []
  {
    h[|h| - 1].Check? && Grants(After(h[..|h| - 1]), h[|h| - 1].now)
  }

  /** The last event of `h` starts a window. */
  predicate LastResets(h: History)
    requires h != []
  {
    var s, e := After(h[..|h| - 1]), h[|h| - 1];
    if s.None? then e.Check? else e.now > s.value.reset
  }

  /** Number of windows started so far. */
  function Windows(h: History): nat {
    if h == [] then 0 else Windows(h[..|h| - 1]) + if LastResets(h) then 1 else 0
  }

  /** Requests let through while the n-th window was the current one. */
  function GrantsInWindow(h: History, n: nat): nat {
    if h == [] then 0
    else GrantsInWindow(h[..|h| - 1], n) + if LastGranted(h) && Windows(h) == n then 1 else 0
  }

  /** Requests let through at an instant in [from, from + MINUTE]. */
  function GrantsWithin(h: History, from: int): nat {
    if h == [] then 0
    else GrantsWithin(h[..|h| - 1], from) + if LastGranted(h) && from <= h[|h| - 1].now <= from + MINUTE then 1 else 0
  }

  ghost predicate Monotone(h: History) {
    forall i, j :: 0 <= i < j < |h| ==> h[i].now <= h[j].now
  }

  /** Every granted check is followed by its update before the next check of the key. */
  ghost predicate UpdatesPrompt(h: History) {
    forall i :: 0 < i < |h| && LastGranted(h[..i]) ==> h[i].Update?
  }

  // ---------------------------------------------------------------- at most five per window

  lemma {:induction false} WindowTally(h: History, n: nat)
    ensures After(h).None? <==> Windows(h) == 0
    ensures After(h).Some? ==> After(h).value.count >= 1
    ensures GrantsInWindow(h, n) <= CAP
    ensures n > Windows(h) || n == 0 ==> GrantsInWindow(h, n) == 0
    ensures n == Windows(h) && n > 0 ==> GrantsInWindow(h, n) <= After(h).value.count
  {
    if h != [] {
      WindowTally(h[..|h| - 1], n);
      WindowTally(h[..|h| - 1], 0);
    }
  }

  /** However the requests interleave and whatever their clocks say. */
  lemma AtMostFivePerWindow(h: History, n: nat)
    ensures GrantsInWindow(h, n) <= 5
  {
    WindowTally(h, n);
  }

  lemma {:induction false} WindowIsCurrent(h: History, i: nat)
    requires i < |h| && LastResets(h[..i + 1])
    ensures After(h).Some? && After(h).value.reset >= h[i].now + MINUTE
  {
    if i + 1 < |h| {
      assert h[..|h| - 1][..i + 1] == h[..i + 1];
      WindowIsCurrent(h[..|h| - 1], i);
    } else {
      assert h[..i + 1] == h;
    }
  }

  /** Two window starts are more than a minute apart, even when the requests' clock readings are
      out of order. */
  lemma ResetsApart(h: History, i: nat, j: nat)
    requires i < j < |h| && LastResets(h[..i + 1]) && LastResets(h[..j + 1])
    ensures h[j].now - h[i].now > 60_000_000_000
  {
    assert h[..j + 1][..j] == h[..j];
    assert h[..j][..i + 1] == h[..i + 1];
    WindowIsCurrent(h[..j], i);
  }

  // ---------------------------------------------------------------- any sixty seconds

  /** Start of the current window. */
  function Started(s: Status): int
    requires s.Some?
  {
    s.value.reset - MINUTE
  }

  lemma {:induction false} MinuteTally(h: History, from: int)
    requires Monotone(h) && h != []
    ensures var s, now, n := After(h), h[|h| - 1].now, GrantsWithin(h, from);
            && (s.None? ==> n == 0)
            && (s.Some? ==> s.value.count >= 1 && Started(s) <= now)
            && (now < from ==> n == 0)
            && n <= 9
            && (s.Some? && now <= from + MINUTE && Started(s) < from ==> n <= Min(s.value.count, CAP) - 1)
            && (s.Some? && now <= from + MINUTE && Started(s) >= from ==> n <= 4 + Min(s.value.count, CAP))
  {
    var init := h[..|h| - 1];
    if init != [] {
      MinuteTally(init, from);
      assert init[|init| - 1].now <= h[|h| - 1].now;
    } else {
      assert GrantsWithin(init, from) == 0;
    }
  }

  /** With a monotone clock, no closed interval of a minute sees more than nine requests. */
  lemma AtMostNinePerMinute(h: History, from: int)
    requires Monotone(h)
    ensures GrantsWithin(h, from) <= 9
  {
    if h != [] {
      MinuteTally(h, from);
    }
  }

  function Repeat(e: Event, n: nat): History {
    if n == 0 then [] else Repeat(e, n - 1) + [e]
  }

  lemma {:induction false} RepeatedChecks(h: History, now: int, n: nat, from: int)
    requires After(h).Some? && now <= After(h).value.reset && After(h).value.count + n <= CAP
    requires from <= now <= from + MINUTE
    ensures After(h + Repeat(Check(now), n)) == Some(After(h).value.(count := After(h).value.count + n))
    ensures GrantsWithin(h + Repeat(Check(now), n), from) == GrantsWithin(h, from) + n
    ensures forall i :: 0 <= i < |Repeat(Check(now), n)| ==> Repeat(Check(now), n)[i] == Check(now)
  {
    var next := h + Repeat(Check(now), n);
    if n == 0 {
      assert next == h;
    } else {
      RepeatedChecks(h, now, n - 1, from);
      assert next[..|next| - 1] == h + Repeat(Check(now), n - 1);
    }
  }

  lemma OneMore(h: History, e: Event)
    ensures (h + [e])[..|h + [e]| - 1] == h && (h + [e])[|h + [e]| - 1] == e
  {}

  ghost predicate UpTo(h: History, now: int) {
    Monotone(h) && forall i :: 0 <= i < |h| ==> h[i].now <= now
  }

  /** One more check, spelled out. */
  lemma CheckAppended(h: History, now: int, from: int)
    requires UpTo(h, now)
    ensures After(h + [Check(now)]) == Checked(After(h), now)
    ensures GrantsWithin(h + [Check(now)], from)
            == GrantsWithin(h, from) + if Grants(After(h), now) && from <= now <= from + MINUTE then 1 else 0
    ensures UpTo(h + [Check(now)], now)
  {
    OneMore(h, Check(now));
  }

  /** A fresh window, then as many further checks as the cap allows. */
  lemma FillWindow(h: History, start: int, now: int) returns (full: History)
    requires UpTo(h, start) && (After(h).Some? ==> start > After(h).value.reset)
    requires start <= now <= start + MINUTE
    ensures After(full) == Some(Limit(CAP, start + MINUTE)) && UpTo(full, now)
    ensures forall from :: from <= now <= from + MINUTE ==>
              GrantsWithin(full, from) == GrantsWithin(h, from) + (if from <= start <= from + MINUTE then CAP else CAP - 1)
  {
    var begun := h + [Check(start)];
    full := begun + Repeat(Check(now), CAP - 1);
    CheckAppended(h, start, start);
    RepeatUpTo(begun, now, CAP - 1);
    forall from | from <= now <= from + MINUTE
      ensures GrantsWithin(full, from) == GrantsWithin(h, from) + (if from <= start <= from + MINUTE then CAP else CAP - 1)
    {
      CheckAppended(h, start, from);
      RepeatedChecks(begun, now, CAP - 1, from);
    }
    RepeatedChecks(begun, now, CAP - 1, now);
  }

  lemma {:induction false} RepeatUpTo(h: History, now: int, n: nat)
    requires UpTo(h, now)
    ensures UpTo(h + Repeat(Check(now), n), now)
  {
    if n == 0 {
      assert h + Repeat(Check(now), n) == h;
    } else {
      RepeatUpTo(h, now, n - 1);
      assert h + Repeat(Check(now), n) == (h + Repeat(Check(now), n - 1)) + [Check(now)];
    }
  }

  /** Nine is attained: one window filled at its second instant, the next at its first. */
  lemma NineIsAttained() returns (h: History)
    ensures Monotone(h) && GrantsWithin(h, 1) == 9
  {
    var five := FillWindow([], 0, 1);
    h := FillWindow(five, MINUTE + 1, MINUTE + 1);
  }

  // ---------------------------------------------------------------- three when updates are prompt

  /** A grant is counted by its check and again by its update. */
  lemma {:induction false} DoubleCounting(h: History)
    requires UpdatesPrompt(h)
    ensures GrantsInWindow(h, Windows(h)) <= 3
    ensures var g := 2 * GrantsInWindow(h, Windows(h));
            After(h).Some? ==> After(h).value.count >= if h != [] && LastGranted(h) then g - 1 else g
  {
    if h != [] {
      var init := h[..|h| - 1];
      assert forall i :: 0 < i < |init| ==> init[..i] == h[..i];
      DoubleCounting(init);
      WindowTally(init, Windows(h));
      WindowTally(h, Windows(h));
      assert init == h[..|init|];
    }
  }

  lemma {:induction false} AtMostThreeWhenPrompt(h: History, n: nat)
    requires UpdatesPrompt(h)
    ensures GrantsInWindow(h, n) <= 3
  {
    if h != [] {
      var init := h[..|h| - 1];
      assert forall i :: 0 < i < |init| ==> init[..i] == h[..i];
      AtMostThreeWhenPrompt(init, n);
      if n == Windows(h) {
        DoubleCounting(h);
      }
    }
  }
}

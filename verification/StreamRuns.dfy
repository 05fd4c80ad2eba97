/**
 * The producer and the consumer of the streaming relay as two processes that meet on unbuffered
 * channels (StreamHandler in relay/channel/openai/main.go), under every schedule.
 */
module StreamRuns {
  import opened Basics
  import opened StreamRelay

  /** Where the producer is: before line i, blocked on sending, or past the loop. */
  datatype Phase =
    | Reading(i: nat)
    | Sending(line: string, next: nat)
    | Closing(message: string)
    | Finishing
    | Stopping
    | Returned

  datatype Consumer = Waiting | Rendering(data: string) | Stopped(gone: bool)

  /** sent is the history of what has passed the data channel. */
  datatype State = State(phase: Phase, consumer: Consumer, sent: seq<string>, rendered: seq<string>,
                         responseText: string, toolCount: nat)

  datatype Action = Work | Handover | Render | StopSignal | Disconnect

  function Initial(): State {
    State(Reading(0), Waiting, [], [], "", 0)
  }

  function Offer(p: Phase): Option<string> {
    match p
    case Sending(line, _) => Some(line)
    case Closing(message) => Some(message)
    case Finishing => Some(DONE)
    case _ => None
  }

  function AfterOffer(p: Phase): Phase
    requires Offer(p).Some?
  {
    match p
    case Sending(_, next) => Reading(next)
    case Closing(_) => Finishing
    case Finishing => Stopping
  }

  predicate Enabled(s: State, a: Action) {
    match a
    case Work => s.phase.Reading?
    case Handover => Offer(s.phase).Some? && s.consumer.Waiting?
    case Render => s.consumer.Rendering?
    case StopSignal => s.phase.Stopping? && s.consumer.Waiting?
    case Disconnect => s.consumer.Waiting?
  }

  function TrimSuffix(m: string): string {
    if m != "" && m[|m| - 1] == '\r' then m[..|m| - 1] else m
  }

  /** What the consumer renders for a message. */
  function Tidy(m: string): string {
    TrimSuffix(if DONE <= m then m[..12] else m)
  }

  function Tidied(ms: seq<string>): seq<string> {
    if ms == [] then [] else Tidied(ms[..|ms| - 1]) + [Tidy(ms[|ms| - 1])]
  }

  function Next(c: Config, lines: seq<string>, s: State, a: Action): State
    requires Enabled(s, a)
  {
    match a
    case Work =>
      var i := s.phase.i;
      if i >= |lines| then s.(phase := Closing(""))
      else (
        var t := s.(responseText := s.responseText + Said(Choices(c, lines[i])),
                    toolCount := Max(s.toolCount, ToolsIn(Choices(c, lines[i]))));
        match Judge(c, lines[i])
        case Ignore => s.(phase := Reading(i + 1))
        case Finish => s.(phase := Closing(""))
        case Forward(_) => t.(phase := Sending(lines[i], i + 1))
        case Stop(_) => t.(phase := Closing(ClosingFor(c, lines[i]))))
    case Handover =>
      var m := Offer(s.phase).value;
      s.(phase := AfterOffer(s.phase), consumer := Rendering(m), sent := s.sent + [m])
    case Render => s.(consumer := Waiting, rendered := s.rendered + [Tidy(s.consumer.data)])
    case StopSignal => s.(phase := Returned, consumer := Stopped(false))
    case Disconnect => s.(consumer := Stopped(true))
  }

  predicate Legal(c: Config, lines: seq<string>, actions: seq<Action>)
    decreases |actions|, 0
  {
    actions == []
    || (Legal(c, lines, actions[..|actions| - 1]) && Enabled(Run(c, lines, actions[..|actions| - 1]), actions[|actions| - 1]))
  }

  function Run(c: Config, lines: seq<string>, actions: seq<Action>): State
    requires Legal(c, lines, actions)
    decreases |actions|, 1
  {
    if actions == [] then Initial()
    else Next(c, lines, Run(c, lines, actions[..|actions| - 1]), actions[|actions| - 1])
  }

  // ---------------------------------------------------------------- the invariant

  /** The lines before i are dealt with. */
  ghost predicate UpTo(c: Config, lines: seq<string>, i: nat, sent: seq<string>, responseText: string, toolCount: nat) {
    && i <= EndAt(c, lines)
    && sent == Forwarded(c, lines[..i])
    && responseText == Spoken(c, lines[..i]) && toolCount == ToolCount(c, lines[..i])
  }

  /** The text is complete, and only these messages are still to be sent. */
  ghost predicate Ended(c: Config, lines: seq<string>, s: State, pending: seq<string>) {
    && s.sent + pending == Expected(c, lines)
    && s.responseText == Spoken(c, Consumed(c, lines)) && s.toolCount == ToolCount(c, Consumed(c, lines))
  }

  ghost predicate ProducerOn(c: Config, lines: seq<string>, s: State) {
    match s.phase
    case Reading(i) => UpTo(c, lines, i, s.sent, s.responseText, s.toolCount)
    case Sending(line, i) => UpTo(c, lines, i, s.sent + [line], s.responseText, s.toolCount)
    case Closing(m) => Ended(c, lines, s, [m, DONE])
    case Finishing => Ended(c, lines, s, [DONE])
    case _ => Ended(c, lines, s, [])
  }

  ghost predicate ConsumerOn(s: State) {
    match s.consumer
    case Rendering(m) => !s.phase.Returned? && s.sent != [] && s.sent[|s.sent| - 1] == m && s.rendered == Tidied(s.sent[..|s.sent| - 1])
    case Waiting => s.rendered == Tidied(s.sent) && !s.phase.Returned?
    case Stopped(gone) => s.rendered == Tidied(s.sent) && (gone || s.phase.Returned?)
  }

  lemma WorkKeeps(c: Config, lines: seq<string>, s: State)
    requires s.phase.Reading? && ProducerOn(c, lines, s) && ConsumerOn(s)
    ensures ProducerOn(c, lines, Next(c, lines, s, Work)) && ConsumerOn(Next(c, lines, s, Work))
  {
    var i := s.phase.i;
    if i < |lines| {
      Advance(c, lines, i);
      if Ends(c, lines[i]) {
        ConsumedAt(c, lines, i);
        EndsSaying(c, lines, i, s);
      }
    } else {
      ConsumedAt(c, lines, i);
    }
  }

  lemma EndsSaying(c: Config, lines: seq<string>, i: nat, s: State)
    requires i < |lines| && Ends(c, lines[i]) && UpTo(c, lines, i, s.sent, s.responseText, s.toolCount)
    ensures i == EndAt(c, lines)
    ensures Judge(c, lines[i]).Finish? ==> s.responseText + Said(Choices(c, lines[i])) == s.responseText
  {
    assert s.responseText + "" == s.responseText;
  }

  lemma HandoverKeeps(c: Config, lines: seq<string>, s: State)
    requires Enabled(s, Handover) && ProducerOn(c, lines, s) && ConsumerOn(s)
    ensures ProducerOn(c, lines, Next(c, lines, s, Handover)) && ConsumerOn(Next(c, lines, s, Handover))
  {
    var m := Offer(s.phase).value;
    assert (s.sent + [m])[..|s.sent|] == s.sent;
    assert s.phase.Sending? ==> m == s.phase.line;
    assert s.phase.Closing? ==> m == s.phase.message && (s.sent + [m]) + [DONE] == s.sent + [m, DONE];
    assert (s.sent + [m]) + [DONE] == s.sent + [m, DONE];
    assert (s.sent + [m]) + [] == s.sent + [m];
  }

  lemma RenderKeeps(c: Config, lines: seq<string>, s: State)
    requires Enabled(s, Render) && ProducerOn(c, lines, s) && ConsumerOn(s)
    ensures ProducerOn(c, lines, Next(c, lines, s, Render)) && ConsumerOn(Next(c, lines, s, Render))
  {
    assert s.sent == s.sent[..|s.sent| - 1] + [s.consumer.data];
  }

  lemma StepKeeps(c: Config, lines: seq<string>, s: State, a: Action)
    requires Enabled(s, a) && ProducerOn(c, lines, s) && ConsumerOn(s)
    ensures ProducerOn(c, lines, Next(c, lines, s, a)) && ConsumerOn(Next(c, lines, s, a))
  {
    match a
    case Work => WorkKeeps(c, lines, s);
    case Handover => HandoverKeeps(c, lines, s);
    case Render => RenderKeeps(c, lines, s);
    case _ =>
  }

  lemma {:induction false} AlwaysOn(c: Config, lines: seq<string>, actions: seq<Action>)
    requires Legal(c, lines, actions)
    ensures ProducerOn(c, lines, Run(c, lines, actions)) && ConsumerOn(Run(c, lines, actions))
  {
    if actions != [] {
      var before := actions[..|actions| - 1];
      AlwaysOn(c, lines, before);
      StepKeeps(c, lines, Run(c, lines, before), actions[|actions| - 1]);
    }
  }

  // ---------------------------------------------------------------- the theorems

  lemma {:induction false} TidiedGrows(a: seq<string>, b: seq<string>)
    requires a <= b
    ensures Tidied(a) <= Tidied(b)
  {
    if |a| < |b| {
      TidiedGrows(a, b[..|b| - 1]);
    } else {
      assert a == b;
    }
  }

  lemma SentIsPrefix(c: Config, lines: seq<string>, s: State)
    requires ProducerOn(c, lines, s)
    ensures s.sent <= Expected(c, lines)
  {
    match s.phase
    case Reading(i) => ForwardedGrows(c, lines, i, EndAt(c, lines));
    case Sending(_, i) => ForwardedGrows(c, lines, i, EndAt(c, lines));
    case _ =>
  }

  /** The event for a message: a [DONE] for one that starts with it, and else the message, less one
      carriage return at its end. */
  ghost predicate Shows(event: string, m: string) {
    if |m| >= 12 && m[..12] == "data: [DONE]" then event == "data: [DONE]"
    else if m != "" && m[|m| - 1] == '\r' then event + "\r" == m
    else event == m
  }

  lemma TidyShows(m: string)
    ensures Shows(Tidy(m), m)
  {
    if DONE <= m {
      assert m[..12] == DONE;
    } else {
      assert |m| >= 12 ==> m[..12] != DONE;
    }
  }

  /** The events are those of the first messages, one each and in order. */
  ghost predicate ShownSoFar(events: seq<string>, ms: seq<string>) {
    |events| <= |ms| && forall i :: 0 <= i < |events| ==> Shows(events[i], ms[i])
  }

  lemma {:induction false} TidiedAt(ms: seq<string>, i: nat)
    requires i < |ms|
    ensures |Tidied(ms)| == |ms| && Tidied(ms)[i] == Tidy(ms[i])
  {
    if i < |ms| - 1 {
      TidiedAt(ms[..|ms| - 1], i);
    } else if i > 0 {
      TidiedAt(ms[..|ms| - 1], i - 1);
    }
  }

  lemma TidiedShows(ms: seq<string>, events: seq<string>)
    requires events <= Tidied(ms)
    ensures ShownSoFar(events, ms) && |Tidied(ms)| == |ms|
  {
    if ms != [] { TidiedAt(ms, 0); }
    forall i | 0 <= i < |events| ensures Shows(events[i], ms[i]) {
      TidiedAt(ms, i);
      TidyShows(ms[i]);
    }
  }

  /** However the two are scheduled, and even if the client goes away, what it has been shown is
      a prefix of what it should get. */
  lemma ClientSeesAPrefix(c: Config, lines: seq<string>, actions: seq<Action>)
    requires Legal(c, lines, actions)
    ensures Run(c, lines, actions).rendered <= Tidied(Expected(c, lines))
    ensures ShownSoFar(Run(c, lines, actions).rendered, Expected(c, lines))
  {
    var s := Run(c, lines, actions);
    AlwaysOn(c, lines, actions);
    SentIsPrefix(c, lines, s);
    TidiedGrows(s.sent, Expected(c, lines));
    if s.consumer.Rendering? {
      TidiedGrows(s.sent[..|s.sent| - 1], Expected(c, lines));
    }
    TidiedShows(Expected(c, lines), s.rendered);
  }

  /** The handler returns to its caller on the stop signal; the client has then been shown
      everything, and text and tool count cover the lines up to the stop line. */
  lemma StoppedMeansComplete(c: Config, lines: seq<string>, actions: seq<Action>)
    requires Legal(c, lines, actions) && Run(c, lines, actions).consumer == Stopped(false)
    ensures var s := Run(c, lines, actions);
            && s.rendered == Tidied(Expected(c, lines))
            && |s.rendered| == |Expected(c, lines)| && ShownSoFar(s.rendered, Expected(c, lines))
            && s.responseText == Spoken(c, Consumed(c, lines))
            && s.toolCount == ToolCount(c, Consumed(c, lines))
  {
    AlwaysOn(c, lines, actions);
    var s := Run(c, lines, actions);
    assert s.sent + [] == s.sent;
    TidiedShows(Expected(c, lines), s.rendered);
  }

  /** Unless the client goes away the two never block each other before the stop signal. */
  lemma NeverStuck(c: Config, lines: seq<string>, actions: seq<Action>)
    requires Legal(c, lines, actions) && !Run(c, lines, actions).consumer.Stopped?
    ensures exists a :: a != Disconnect && Enabled(Run(c, lines, actions), a)
  {
    var s := Run(c, lines, actions);
    AlwaysOn(c, lines, actions);
    if s.phase.Reading? {
      assert Enabled(s, Work);
    } else if s.consumer.Rendering? {
      assert Enabled(s, Render);
    } else if s.phase.Stopping? {
      assert Enabled(s, StopSignal);
    } else {
      assert Enabled(s, Handover);
    }
  }

  function Left(lines: seq<string>, s: State): int {
    (match s.consumer
     case Waiting => 1
     case Rendering(_) => 2
     case Stopped(_) => 0)
    + (match s.phase
       case Reading(i) => 3 * (|lines| - i) + 8
       case Sending(_, i) => 3 * (|lines| - i) + 10
       case Closing(_) => 6
       case Finishing => 4
       case Stopping => 2
       case Returned => 0)
  }

  lemma StepUsesUp(c: Config, lines: seq<string>, s: State, a: Action)
    requires Enabled(s, a) && ProducerOn(c, lines, s)
    ensures Left(lines, Next(c, lines, s, a)) < Left(lines, s)
  {}

  lemma {:induction false} StepsLeft(c: Config, lines: seq<string>, actions: seq<Action>)
    requires Legal(c, lines, actions)
    ensures 0 <= Left(lines, Run(c, lines, actions)) <= 3 * |lines| + 9 - |actions|
  {
    AlwaysOn(c, lines, actions);
    if actions != [] {
      var before := actions[..|actions| - 1];
      StepsLeft(c, lines, before);
      AlwaysOn(c, lines, before);
      StepUsesUp(c, lines, Run(c, lines, before), actions[|actions| - 1]);
    }
  }

  /** So every run is finite, and one that cannot go on without a disconnect has shown the
      client everything. */
  lemma EveryFullRunIsComplete(c: Config, lines: seq<string>, actions: seq<Action>)
    requires Legal(c, lines, actions) && Disconnect !in actions
    requires forall a :: Enabled(Run(c, lines, actions), a) ==> a == Disconnect
    ensures |actions| <= 3 * |lines| + 9
    ensures var s := Run(c, lines, actions);
            && s.rendered == Tidied(Expected(c, lines))
            && |s.rendered| == |Expected(c, lines)| && ShownSoFar(s.rendered, Expected(c, lines))
            && s.responseText == Spoken(c, Consumed(c, lines))
            && s.toolCount == ToolCount(c, Consumed(c, lines))
  {
    StepsLeft(c, lines, actions);
    if !Run(c, lines, actions).consumer.Stopped? {
      NeverStuck(c, lines, actions);
    }
    NotGone(c, lines, actions);
    StoppedMeansComplete(c, lines, actions);
  }

  lemma {:induction false} NotGone(c: Config, lines: seq<string>, actions: seq<Action>)
    requires Legal(c, lines, actions) && Disconnect !in actions
    ensures Run(c, lines, actions).consumer != Stopped(true)
  {
    if actions != [] {
      NotGone(c, lines, actions[..|actions| - 1]);
    }
  }

  // ---------------------------------------------------------------- exactly one [DONE]

  /** "[DONE]" and whatever follows it is not JSON. */
  ghost predicate RejectsDone(parse: Parser) {
    forall rest: string :: parse("[DONE]" + rest) == None
  }

  lemma NotForwarded(c: Config, line: string)
    requires c.mode != Other && RejectsDone(c.parse) && DONE <= line
    ensures Judge(c, line).Ignore? || Judge(c, line).Finish?
  {
    assert DATA <= line;
    assert line[6..] == "[DONE]" + line[12..];
  }

  lemma {:induction false} ForwardedHasNoDone(c: Config, lines: seq<string>)
    requires c.mode != Other && RejectsDone(c.parse)
    ensures forall i :: 0 <= i < |Forwarded(c, lines)| ==> !(DONE <= Forwarded(c, lines)[i])
  {
    if lines != [] {
      ForwardedHasNoDone(c, lines[..|lines| - 1]);
      if DONE <= lines[|lines| - 1] {
        NotForwarded(c, lines[|lines| - 1]);
      }
    }
  }

  /** For chats and completions the last event, and no other, is a [DONE]. */
  lemma ExactlyOneDone(c: Config, lines: seq<string>, i: nat)
    requires c.mode != Other && RejectsDone(c.parse)
    requires c.fixed.Some? ==> !(DONE <= c.fixed.value)
    requires i < |Tidied(Expected(c, lines))|
    ensures DONE <= Tidied(Expected(c, lines))[i] <==> i == |Tidied(Expected(c, lines))| - 1
    ensures i == |Tidied(Expected(c, lines))| - 1 ==> Tidied(Expected(c, lines))[i] == DONE
  {
    var ms, n := Expected(c, lines), EndAt(c, lines);
    TidiedAt(ms, 0);
    TidiedAt(ms, i);
    ForwardedHasNoDone(c, lines[..n]);
    if n < |lines| && DONE <= lines[n] {
      NotForwarded(c, lines[n]);
    }
    assert i < |ms| - 1 ==> !(DONE <= ms[i]);
  }

  /** A [DONE] that is forwarded because something follows it on its line. */
  ghost predicate RepeatsDone(c: Config, lines: seq<string>) {
    exists i :: 0 <= i < EndAt(c, lines) && DONE <= lines[i]
  }

  lemma {:induction false} ForwardedIff(c: Config, lines: seq<string>, m: string)
    ensures m in Forwarded(c, lines) <==> exists i :: 0 <= i < |lines| && lines[i] == m && Judge(c, lines[i]).Forward?
  {
    if lines != [] {
      var init := lines[..|lines| - 1];
      ForwardedIff(c, init, m);
      assert forall i :: 0 <= i < |init| ==> init[i] == lines[i];
    }
  }

  lemma OtherNeverStops(c: Config, line: string)
    requires c.mode == Other && DONE <= line && line != DONE
    ensures Judge(c, line).Forward?
  {}

  lemma TidyDone(m: string)
    ensures DONE <= Tidy(m) <==> DONE <= m
  {}

  /** In the other modes a [DONE] comes before the last event if and only if some line before the
      end starts with it and goes on, for instance with a carriage return. */
  lemma OtherModesRepeatDoneIff(c: Config, lines: seq<string>)
    requires c.mode == Other
    ensures (exists i :: 0 <= i < |Tidied(Expected(c, lines))| - 1 && DONE <= Tidied(Expected(c, lines))[i])
            <==> RepeatsDone(c, lines)
  {
    var ms, n := Expected(c, lines), EndAt(c, lines);
    var kept := Forwarded(c, lines[..n]);
    TidiedAt(ms, 0);
    assert forall i :: 0 <= i < |ms| - 1 ==> ms[i] == if i < |kept| then kept[i] else "";
    if RepeatsDone(c, lines) {
      var k :| 0 <= k < n && DONE <= lines[k];
      OtherNeverStops(c, lines[k]);
      assert lines[..n][k] == lines[k];
      ForwardedIff(c, lines[..n], lines[k]);
      var i :| 0 <= i < |kept| && kept[i] == lines[k];
      TidiedAt(ms, i);
      TidyDone(ms[i]);
    }
    forall i | 0 <= i < |ms| - 1 && DONE <= Tidied(ms)[i] ensures RepeatsDone(c, lines) {
      TidiedAt(ms, i);
      TidyDone(ms[i]);
      ForwardedIff(c, lines[..n], ms[i]);
      var k :| 0 <= k < n && lines[..n][k] == ms[i];
      assert lines[k] == ms[i];
    }
  }
}

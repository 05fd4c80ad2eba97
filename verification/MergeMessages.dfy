/**
 * The merge pass of convertMessagesLegacy (relay/channel/anthropic/main.go): consecutive plain
 * texts of one role become one message.
 */
module MergeMessages {
  import opened Basics

  /** A message's content: a plain text, a list of parts, raw bytes, or nothing. */
  datatype Content = Text(text: string) | Parts(parts: seq<string>) | Bytes(raw: string) | Null

  datatype Message = Message(role: string, content: Content)

  // ---------------------------------------------------------------- strings

  /** strings.Trim(s, "\"") */
  function Trim(s: string): string {
    if s == "" then s
    else if s[0] == '"' then Trim(s[1..])
    else if s[|s| - 1] == '"' then Trim(s[..|s| - 1])
    else s
  }

  function Unquoted(s: string): string {
    if s == "" then ""
    else Unquoted(s[..|s| - 1]) + if s[|s| - 1] == '"' then "" else [s[|s| - 1]]
  }

  lemma {:induction false} UnquotedJoin(a: string, b: string)
    ensures Unquoted(a + b) == Unquoted(a) + Unquoted(b)
  {
    if b == "" {
      assert a + b == a;
    } else {
      assert (a + b)[..|a + b| - 1] == a + b[..|b| - 1];
      UnquotedJoin(a, b[..|b| - 1]);
    }
  }

  lemma UnquotedFront(s: string)
    requires s != "" && s[0] == '"'
    ensures Unquoted(s) == Unquoted(s[1..])
  {
    assert s == [s[0]] + s[1..];
    UnquotedJoin([s[0]], s[1..]);
    assert Unquoted([s[0]]) == "";
  }

  lemma {:induction false} TrimKeeps(s: string)
    ensures Unquoted(Trim(s)) == Unquoted(s)
  {
    if s != "" && s[0] == '"' {
      UnquotedFront(s);
      TrimKeeps(s[1..]);
    } else if s != "" && s[|s| - 1] == '"' {
      TrimKeeps(s[..|s| - 1]);
    }
  }

  /** Trimming cuts off all quotes at both ends, and nothing else. */
  lemma {:induction false} TrimCuts(s: string) returns (n: nat, m: nat)
    ensures n <= m <= |s| && Trim(s) == s[n..m]
    ensures (forall i :: 0 <= i < n || m <= i < |s| ==> s[i] == '"')
    ensures n < m ==> s[n] != '"' && s[m - 1] != '"'
  {
    n, m := 0, |s|;
    if s != "" && s[0] == '"' {
      n, m := TrimCuts(s[1..]);
      assert s[1..][n..m] == s[n + 1..m + 1];
      n, m := n + 1, m + 1;
    } else if s != "" && s[|s| - 1] == '"' {
      n, m := TrimCuts(s[..|s| - 1]);
      assert s[..|s| - 1][n..m] == s[n..m];
    }
  }

  // ---------------------------------------------------------------- grouping

  /** Later system messages and messages without a role count as the user's. */
  function RoleAt(messages: seq<Message>, i: nat): string
    requires i < |messages|
  {
    var role := messages[i].role;
    if role == "" || (role == "system" && i != 0) then "user" else role
  }

  function Normalised(messages: seq<Message>): seq<Message> {
    seq(|messages|, i requires 0 <= i < |messages| => Message(RoleAt(messages, i), messages[i].content))
  }

  /** Only the first message can be the system's; who has no role, or is another system message,
      is the user; every other role, and every content, stays. */
  lemma RolesSettled(messages: seq<Message>, i: nat)
    requires i < |messages|
    ensures |Normalised(messages)| == |messages|
    ensures var m, r := Normalised(messages)[i], messages[i];
            && m.content == r.content && m.role != ""
            && (m.role == "system" <==> i == 0 && r.role == "system")
            && (r.role == "" || (r.role == "system" && i > 0) ==> m.role == "user")
            && (r.role != "" && r.role != "system" ==> m.role == r.role)
  {}

  predicate Joins(a: Message, b: Message) {
    a.role == b.role && a.content.Text? && b.content.Text?
  }

  type Group = g: seq<Message> | g != [] witness [Message("", Null)]

  /** Maximal runs of plain texts of one role; every other message is a group of its own. */
  function Groups(ms: seq<Message>): (gs: seq<Group>)
    ensures ms != [] ==> gs != []
  {
    if ms == [] then []
    else
      var gs, m := Groups(ms[..|ms| - 1]), ms[|ms| - 1];
      if gs != [] && Joins(Last(gs[|gs| - 1]), m) then gs[..|gs| - 1] + [gs[|gs| - 1] + [m]] else gs + [[m]]
  }

  function Last(g: Group): Message {
    g[|g| - 1]
  }

  function Flat(gs: seq<Group>): seq<Message> {
    if gs == [] then [] else Flat(gs[..|gs| - 1]) + gs[|gs| - 1]
  }

  /** The i-th message of the group continues the one before it. */
  predicate Continues(g: seq<Message>, i: nat)
    requires 0 < i < |g|
  {
    Joins(g[i - 1], g[i])
  }

  ghost predicate OneVoice(g: seq<Message>) {
    forall i :: 0 < i < |g| ==> Continues(g, i)
  }

  lemma OneVoiceMore(g: Group, m: Message)
    ensures OneVoice(g + [m]) <==> OneVoice(g) && Joins(Last(g), m)
  {
    var more := g + [m];
    assert forall i :: 0 < i < |g| ==> Continues(more, i) == Continues(g, i);
    assert Continues(more, |g|) == Joins(Last(g), m);
  }

  predicate Apart(gs: seq<Group>, j: nat)
    requires 0 < j < |gs|
  {
    !Joins(Last(gs[j - 1]), gs[j][0])
  }

  /** The groups divide the messages in order, and could not be larger. */
  ghost predicate Divides(gs: seq<Group>, ms: seq<Message>) {
    && Flat(gs) == ms
    && (forall j :: 0 <= j < |gs| ==> OneVoice(gs[j]))
    && (forall j :: 0 < j < |gs| ==> Apart(gs, j))
  }

  lemma CancelEnd(a: seq<Message>, b: seq<Message>, g: seq<Message>)
    ensures a + g == b + g <==> a == b
  {
    if a + g == b + g {
      assert |a| == |b|;
      assert a == (a + g)[..|a|] && b == (b + g)[..|b|];
    }
  }

  lemma FlatMore(head: seq<Group>, g: Group)
    ensures Flat(head + [g]) == Flat(head) + g
  {
    assert (head + [g])[..|head|] == head;
  }

  /** The last group may be looked at alone. */
  lemma DividesMore(head: seq<Group>, a: seq<Message>, g: Group)
    ensures Divides(head + [g], a + g)
            <==> Divides(head, a) && OneVoice(g) && (head != [] ==> !Joins(Last(head[|head| - 1]), g[0]))
  {
    var gs := head + [g];
    FlatMore(head, g);
    CancelEnd(Flat(head), a, g);
    assert forall j :: 0 < j < |head| ==> Apart(gs, j) == Apart(head, j);
    if head != [] { assert Apart(gs, |head|) == !Joins(Last(head[|head| - 1]), g[0]); }
    assert forall j :: 0 <= j < |head| ==> gs[j] == head[j];
    assert gs[|head|] == g;
  }

  lemma DividesJoin(head: seq<Group>, a: seq<Message>, g: Group, m: Message)
    ensures Divides(head + [g + [m]], a + (g + [m])) <==> Divides(head + [g], a + g) && Joins(Last(g), m)
  {
    OneVoiceMore(g, m);
    DividesMore(head, a, g);
    DividesMore(head, a, g + [m]);
    assert (g + [m])[0] == g[0];
  }

  lemma {:induction false} GroupsDivide(ms: seq<Message>)
    ensures Divides(Groups(ms), ms)
  {
    if ms != [] {
      var init, m := ms[..|ms| - 1], ms[|ms| - 1];
      var gs := Groups(init);
      assert ms == init + [m];
      GroupsDivide(init);
      if gs != [] && Joins(Last(gs[|gs| - 1]), m) {
        var head, g := gs[..|gs| - 1], gs[|gs| - 1];
        var a := Flat(head);
        assert gs == head + [g] && init == a + g;
        assert ms == a + (g + [m]);
        DividesJoin(head, a, g, m);
      } else {
        DividesMore(gs, init, [m]);
      }
    }
  }

  lemma GroupsJoin(ms: seq<Message>, head: seq<Group>, g: Group, m: Message)
    requires Groups(ms) == head + [g] && Joins(Last(g), m)
    ensures Groups(ms + [m]) == head + [g + [m]]
  {
    var gs := head + [g];
    assert (ms + [m])[..|ms|] == ms;
    assert gs[|gs| - 1] == g && gs[..|gs| - 1] == head;
  }

  lemma GroupsAlone(ms: seq<Message>, m: Message)
    requires Groups(ms) != [] ==> !Joins(Last(Groups(ms)[|Groups(ms)| - 1]), m)
    ensures Groups(ms + [m]) == Groups(ms) + [[m]]
  {
    assert (ms + [m])[..|ms|] == ms;
  }

  lemma Ending(gs: seq<Group>, ms: seq<Message>) returns (head: seq<Group>, a: seq<Message>, before: seq<Message>, m: Message)
    requires Flat(gs) == ms && gs != []
    ensures gs == head + [before + [m]] && ms == (a + before) + [m] && ms == a + (before + [m])
  {
    var g := gs[|gs| - 1];
    head, before, m := gs[..|gs| - 1], g[..|g| - 1], Last(g);
    a := Flat(head);
    assert g == before + [m];
    assert gs == head + [g];
  }

  /** And that is the only way to do so. */
  lemma {:induction false} DivisionIsUnique(gs: seq<Group>, ms: seq<Message>)
    requires Divides(gs, ms)
    ensures gs == Groups(ms)
    decreases |ms|
  {
    if gs != [] {
      var head, a, before, m := Ending(gs, ms);
      if before == [] {
        assert before + [m] == [m] && a + before == a;
        DividesMore(head, a, [m]);
        DivisionIsUnique(head, a);
        GroupsAlone(a, m);
      } else {
        DividesJoin(head, a, before, m);
        DivisionIsUnique(head + [before], a + before);
        GroupsJoin(a + before, head, before, m);
      }
    }
  }

  // ---------------------------------------------------------------- merging

  function TextOf(m: Message): string {
    if m.content.Text? then m.content.text else ""
  }

  function Merged(g: Group): string {
    if |g| == 1 then TextOf(g[0]) else Trim(Merged(g[..|g| - 1]) + " " + TextOf(Last(g)))
  }

  /** The message a group becomes. */
  function Collapse(g: Group): Message {
    Message(g[0].role,
            match g[0].content
            case Text(_) => Text(Merged(g))
            case Null => Bytes("\"...\"")
            case other => other)
  }

  function Collapsed(gs: seq<Group>): seq<Message> {
    if gs == [] then [] else Collapsed(gs[..|gs| - 1]) + [Collapse(gs[|gs| - 1])]
  }

  lemma {:induction false} CollapsedAt(gs: seq<Group>, j: nat)
    requires j < |gs|
    ensures |Collapsed(gs)| == |gs| && Collapsed(gs)[j] == Collapse(gs[j])
  {
    if j < |gs| - 1 {
      CollapsedAt(gs[..|gs| - 1], j);
    } else if j > 0 {
      CollapsedAt(gs[..|gs| - 1], j - 1);
    }
  }

  /** The texts without their quotes, one space between them. */
  function Spaced(g: Group): string {
    if |g| == 1 then Unquoted(TextOf(g[0])) else Spaced(g[..|g| - 1]) + " " + Unquoted(TextOf(Last(g)))
  }

  /** Apart from quote characters a merged text is its sources' texts joined by single spaces. */
  lemma {:induction false} MergedMeans(g: Group)
    ensures Unquoted(Merged(g)) == Spaced(g)
  {
    if |g| > 1 {
      var a, b := Merged(g[..|g| - 1]), TextOf(Last(g));
      MergedMeans(g[..|g| - 1]);
      TrimKeeps(a + " " + b);
      UnquotedJoin(a + " ", b);
      UnquotedJoin(a, " ");
      assert Unquoted(" ") == " ";
    }
  }

  /** Of the text before and the next one, a space between them, only quotes at the ends are cut. */
  lemma MergedCuts(g: Group, whole: string) returns (n: nat, m: nat)
    requires |g| > 1 && whole == Merged(g[..|g| - 1]) + " " + TextOf(Last(g))
    ensures n <= m <= |whole| && Merged(g) == whole[n..m]
    ensures (forall i :: 0 <= i < n || m <= i < |whole| ==> whole[i] == '"')
    ensures n < m ==> whole[n] != '"' && whole[m - 1] != '"'
  {
    n, m := TrimCuts(whole);
  }

  lemma {:induction false} OneVoiceAt(g: Group, k: nat)
    requires OneVoice(g) && k < |g|
    ensures g[k].role == g[0].role && (g[k].content.Text? <==> g[0].content.Text?)
    ensures k > 0 ==> g[0].content.Text?
  {
    if k > 0 {
      OneVoiceAt(g, k - 1);
      assert Continues(g, k);
    }
  }

  /** The formatted messages. */
  function Format(ms: seq<Message>): seq<Message> {
    Collapsed(Groups(ms))
  }

  /** The pass leaves no two neighbours that it should have merged. */
  lemma NothingLeftToMerge(ms: seq<Message>, j: nat)
    requires 0 < j < |Format(ms)|
    ensures var a, b := Format(ms)[j - 1], Format(ms)[j];
            !(a.role == b.role && a.content.Text? && b.content.Text?)
  {
    var gs := Groups(ms);
    CollapsedAt(gs, 0);
    CollapsedAt(gs, j - 1);
    CollapsedAt(gs, j);
    GroupsDivide(ms);
    OneVoiceAt(gs[j - 1], |gs[j - 1]| - 1);
    assert Apart(gs, j);
  }

  /** The message stands for the group: the group's role; its texts, joined; or its one other
      message, as it was unless it had no content. */
  ghost predicate StandsFor(m: Message, g: Group) {
    && (forall k :: 0 <= k < |g| ==> g[k].role == m.role)
    && (m.content.Text? <==> forall k :: 0 <= k < |g| ==> g[k].content.Text?)
    && (m.content.Text? ==> Unquoted(m.content.text) == Spaced(g) && (|g| == 1 ==> m == g[0]))
    && (!m.content.Text? ==> |g| == 1 && m.content == if g[0].content.Null? then Bytes("\"...\"") else g[0].content)
  }

  lemma EachGroupKept(ms: seq<Message>, j: nat)
    requires j < |Groups(ms)|
    ensures |Format(ms)| == |Groups(ms)| && StandsFor(Format(ms)[j], Groups(ms)[j])
  {
    var gs := Groups(ms);
    var g := gs[j];
    CollapsedAt(gs, j);
    GroupsDivide(ms);
    MergedMeans(g);
    forall k | 0 <= k < |g|
      ensures g[k].role == g[0].role && (g[k].content.Text? <==> g[0].content.Text?) && (k > 0 ==> g[0].content.Text?)
    {
      OneVoiceAt(g, k);
    }
    if |g| > 1 { assert g[1].role == g[0].role; }
  }

  /** One turn of the loop on the messages formatted so far. */
  function AddOne(out: seq<Message>, m: Message): seq<Message> {
    if out != [] && Joins(out[|out| - 1], m) then
      out[..|out| - 1] + [Message(m.role, Text(Trim(TextOf(out[|out| - 1]) + " " + TextOf(m))))]
    else
      out + [if m.content.Null? then Message(m.role, Bytes("\"...\"")) else m]
  }

  lemma CollapsedMore(head: seq<Group>, g: Group)
    ensures Collapsed(head + [g]) == Collapsed(head) + [Collapse(g)]
  {
    assert (head + [g])[..|head|] == head;
  }

  lemma CollapseMore(g: Group, m: Message)
    requires OneVoice(g) && Joins(Last(g), m)
    ensures Joins(Collapse(g), m)
    ensures Collapse(g + [m]) == Message(m.role, Text(Trim(TextOf(Collapse(g)) + " " + TextOf(m))))
  {
    OneVoiceAt(g, |g| - 1);
    assert (g + [m])[..|g|] == g;
  }

  lemma AddOneLast(before: seq<Message>, one: Message, m: Message)
    requires Joins(one, m)
    ensures AddOne(before + [one], m) == before + [Message(m.role, Text(Trim(TextOf(one) + " " + TextOf(m))))]
  {
    assert (before + [one])[..|before|] == before;
  }

  lemma StepJoined(ms: seq<Message>, head: seq<Group>, g: Group, m: Message)
    requires Groups(ms) == head + [g] && OneVoice(g) && Joins(Last(g), m)
    ensures Format(ms + [m]) == AddOne(Format(ms), m)
  {
    GroupsJoin(ms, head, g, m);
    CollapsedMore(head, g);
    CollapsedMore(head, g + [m]);
    CollapseMore(g, m);
    AddOneLast(Collapsed(head), Collapse(g), m);
  }

  lemma StepAlone(ms: seq<Message>, m: Message)
    requires Format(ms) != [] ==> !Joins(Format(ms)[|Format(ms)| - 1], m)
    requires Groups(ms) != [] ==> !Joins(Last(Groups(ms)[|Groups(ms)| - 1]), m)
    ensures Format(ms + [m]) == AddOne(Format(ms), m)
  {
    GroupsAlone(ms, m);
    CollapsedMore(Groups(ms), [m]);
  }

  lemma CollapseLast(g: Group, m: Message)
    requires OneVoice(g)
    ensures Joins(Collapse(g), m) <==> Joins(Last(g), m)
  {
    OneVoiceAt(g, |g| - 1);
  }

  lemma MergeStep(ms: seq<Message>, m: Message)
    ensures Format(ms + [m]) == AddOne(Format(ms), m)
  {
    var gs := Groups(ms);
    if gs == [] {
      StepAlone(ms, m);
    } else {
      var head, g := gs[..|gs| - 1], gs[|gs| - 1];
      GroupsDivide(ms);
      assert gs == head + [g];
      if Joins(Last(g), m) {
        StepJoined(ms, head, g, m);
      } else {
        CollapsedAt(gs, |gs| - 1);
        CollapseLast(g, m);
        StepAlone(ms, m);
      }
    }
  }

  /** What the loop does with a message whose role is settled. */
  method Append(formatted: seq<Message>, lastMessage: Option<Message>, message: Message)
    returns (formatMessages: seq<Message>, last: Option<Message>)
    requires lastMessage == LastMessage(formatted)
    ensures formatMessages == AddOne(formatted, message) && last == LastMessage(formatMessages)
  {
    formatMessages := formatted;
    var fmtMessage := message;
    if lastMessage.Some? && lastMessage.value.role == message.role
       && lastMessage.value.content.Text? && message.content.Text?
    {
      var content := Trim(lastMessage.value.content.text + " " + message.content.text);
      fmtMessage := fmtMessage.(content := Text(content));
      formatMessages := formatMessages[..|formatMessages| - 1];
    }
    if fmtMessage.content.Null? {
      fmtMessage := fmtMessage.(content := Bytes("\"...\""));
    }
    formatMessages := formatMessages + [fmtMessage];
    last := Some(fmtMessage);
  }

  function LastMessage(ms: seq<Message>): Option<Message> {
    if ms == [] then None else Some(ms[|ms| - 1])
  }

  /** The pass itself. */
  method Merge(messages: seq<Message>) returns (formatMessages: seq<Message>)
    ensures formatMessages == Format(Normalised(messages))
  {
    formatMessages := [];
    var lastMessage: Option<Message> := None;
    ghost var all := Normalised(messages);
    for i := 0 to |messages|
      invariant formatMessages == Format(all[..i]) && lastMessage == LastMessage(formatMessages)
    {
      var message := messages[i];
      if message.role == "system" {
        if i != 0 {
          message := message.(role := "user");
        }
      }
      if message.role == "" {
        message := message.(role := "user");
      }
      assert all[..i + 1] == all[..i] + [message];
      MergeStep(all[..i], message);
      formatMessages, lastMessage := Append(formatMessages, lastMessage, message);
    }
    assert all[..|messages|] == all;
  }
}

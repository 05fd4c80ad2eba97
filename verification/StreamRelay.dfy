/**
 * The streaming relay (StreamHandler in relay/channel/openai/main.go): a producer goroutine reads
 * the upstream lines and hands messages over an unbuffered channel to the consumer, which renders
 * them to the client.
 */
module StreamRelay {
  import opened Basics

  const DATA := "data: "
  const DONE := "data: [DONE]"

  datatype Mode = ChatCompletions | Completions | Other

  datatype Tool = Tool(name: string, arguments: string)

  /** A choice of a parsed chunk; a completion's choices have no tools. */
  datatype Choice = Choice(content: string, tools: seq<Tool>, stop: bool)

  /** What JSON decoding makes of the text after "data: ". */
  type Parser = string -> Option<seq<Choice>>

  /** The handler's parameters; fixed is the message generated when there is fixed content. */
  datatype Config = Config(mode: Mode, parse: Parser, fixed: Option<string>)

  // ---------------------------------------------------------------- what a line says

  function ToolText(tools: seq<Tool>): string {
    if tools == [] then "" else ToolText(tools[..|tools| - 1]) + tools[|tools| - 1].name + tools[|tools| - 1].arguments
  }

  function Said(choices: seq<Choice>): string {
    if choices == [] then ""
    else Said(choices[..|choices| - 1]) + choices[|choices| - 1].content + ToolText(choices[|choices| - 1].tools)
  }

  function ToolsIn(choices: seq<Choice>): nat {
    if choices == [] then 0
    else Max(ToolsIn(choices[..|choices| - 1]), |choices[|choices| - 1].tools|)
  }

  predicate Stops(choices: seq<Choice>) {
    exists i :: 0 <= i < |choices| && choices[i].stop
  }

  datatype Verdict = Ignore | Finish | Forward(choices: seq<Choice>) | Stop(choices: seq<Choice>)

  function Judge(c: Config, line: string): Verdict {
    if |line| < 6 then Ignore
    else if line == DONE then Finish
    else if DATA <= line && c.mode != Other then
      match c.parse(line[6..])
      case None => Ignore
      case Some(choices) => if Stops(choices) then Stop(choices) else Forward(choices)
    else Forward([])
  }

  function Choices(c: Config, line: string): seq<Choice> {
    match Judge(c, line)
    case Forward(choices) => choices
    case Stop(choices) => choices
    case _ => []
  }

  // ---------------------------------------------------------------- what the client should get

  predicate Ends(c: Config, line: string) {
    Judge(c, line).Finish? || Judge(c, line).Stop?
  }

  /** The first line that ends the stream, or the number of lines. */
  function EndAt(c: Config, lines: seq<string>): (n: nat)
    ensures n <= |lines| && (n < |lines| ==> Ends(c, lines[n]))
    ensures forall i :: 0 <= i < n ==> !Ends(c, lines[i])
  {
    if lines == [] || Ends(c, lines[0]) then 0 else 1 + EndAt(c, lines[1..])
  }

  function Forwarded(c: Config, lines: seq<string>): seq<string> {
    if lines == [] then []
    else
      Forwarded(c, lines[..|lines| - 1])
      + if Judge(c, lines[|lines| - 1]).Forward? then [lines[|lines| - 1]] else []
  }

  /** In place of a stop line the fixed message goes out, if there is one. */
  function ClosingFor(c: Config, stopLine: string): string {
    if c.fixed.Some? then c.fixed.value else stopLine
  }

  function ClosingOf(c: Config, lines: seq<string>): string {
    var n := EndAt(c, lines);
    if n < |lines| && Judge(c, lines[n]).Stop? then ClosingFor(c, lines[n]) else ""
  }

  /** Everything sent to the client: the forwardable lines before the end in order, one closing
      message, one [DONE]. */
  function Expected(c: Config, lines: seq<string>): seq<string> {
    Forwarded(c, lines[..EndAt(c, lines)]) + [ClosingOf(c, lines), DONE]
  }

  function Spoken(c: Config, lines: seq<string>): string {
    if lines == [] then "" else Spoken(c, lines[..|lines| - 1]) + Said(Choices(c, lines[|lines| - 1]))
  }

  function ToolCount(c: Config, lines: seq<string>): nat {
    if lines == [] then 0 else Max(ToolCount(c, lines[..|lines| - 1]), ToolsIn(Choices(c, lines[|lines| - 1])))
  }

  /** The lines up to and including the one that ends the stream. */
  function Consumed(c: Config, lines: seq<string>): seq<string> {
    lines[..Min(EndAt(c, lines) + 1, |lines|)]
  }

  // ---------------------------------------------------------------- what these say

  /** Texts of chunks in a row add up, and those of one choice are its content followed by the
      names and arguments of its tools; of the tool counts the largest remains. */
  lemma {:induction false} SaidJoin(a: seq<Choice>, b: seq<Choice>)
    ensures Said(a + b) == Said(a) + Said(b)
  {
    if b == [] {
      assert a + b == a;
    } else {
      var init, last := b[..|b| - 1], b[|b| - 1];
      assert (a + b)[..|a + b| - 1] == a + init;
      SaidJoin(a, init);
      Associate(Said(a), Said(init), last.content, ToolText(last.tools));
    }
  }

  lemma {:induction false} ToolsInJoin(a: seq<Choice>, b: seq<Choice>)
    ensures ToolsIn(a + b) == Max(ToolsIn(a), ToolsIn(b))
  {
    if b == [] {
      assert a + b == a;
    } else {
      assert (a + b)[..|a + b| - 1] == a + b[..|b| - 1];
      ToolsInJoin(a, b[..|b| - 1]);
    }
  }

  lemma SaidOne(content: string, stop: bool, name: string, arguments: string)
    ensures Said([Choice(content, [], stop)]) == content && ToolsIn([Choice(content, [], stop)]) == 0
    ensures Said([Choice(content, [Tool(name, arguments)], stop)]) == content + name + arguments
    ensures ToolsIn([Choice(content, [Tool(name, arguments)], stop)]) == 1
  {
    var c, t := Choice(content, [], stop), Tool(name, arguments);
    assert [c][..0] == [] && [t][..0] == [];
    assert "" + content + "" == content && "" + name + arguments == name + arguments;
    assert ToolText([t]) == name + arguments;
    var d := Choice(content, [t], stop);
    assert [d][..0] == [];
    assert "" + content + (name + arguments) == content + name + arguments;
  }

  lemma {:induction false} ToolTextJoin(a: seq<Tool>, b: seq<Tool>)
    ensures ToolText(a + b) == ToolText(a) + ToolText(b)
  {
    if b == [] {
      assert a + b == a;
    } else {
      assert (a + b)[..|a + b| - 1] == a + b[..|b| - 1];
      ToolTextJoin(a, b[..|b| - 1]);
    }
  }

  lemma SpokenMore(c: Config, lines: seq<string>, line: string)
    ensures Spoken(c, lines + [line]) == Spoken(c, lines) + Said(Choices(c, line))
  {
    assert (lines + [line])[..|lines|] == lines;
  }

  lemma Regroup(a: string, b: string, x: string)
    ensures (a + b) + x == a + (b + x)
  {}

  /** Lines in a row say what they say one after the other. */
  lemma {:induction false} SpokenJoin(c: Config, a: seq<string>, b: seq<string>)
    ensures Spoken(c, a + b) == Spoken(c, a) + Spoken(c, b)
  {
    if b == [] {
      assert a + b == a;
    } else {
      var init, last := b[..|b| - 1], b[|b| - 1];
      assert b == init + [last] && a + b == (a + init) + [last];
      SpokenMore(c, a + init, last);
      SpokenMore(c, init, last);
      SpokenJoin(c, a, init);
      Regroup(Spoken(c, a), Spoken(c, init), Said(Choices(c, last)));
    }
  }

  lemma SpokenOne(c: Config, line: string)
    ensures Spoken(c, [line]) == Said(Choices(c, line)) && ToolCount(c, [line]) == ToolsIn(Choices(c, line))
  {
    assert [line][..0] == [];
    assert "" + Said(Choices(c, line)) == Said(Choices(c, line));
  }

  /** Is the line a chunk that is decoded? */
  predicate IsChunk(c: Config, line: string) {
    |line| >= 6 && line[..6] == "data: " && line != "data: [DONE]" && c.mode != Other
  }

  /** Which lines end the stream, are held back as stop lines, and are passed on: short lines and
      chunks that do not decode are dropped, everything else that does not end it is passed on. */
  lemma LineVerdict(c: Config, line: string)
    ensures Judge(c, line).Finish? <==> line == "data: [DONE]"
    ensures Judge(c, line).Stop? <==>
            IsChunk(c, line) && c.parse(line[6..]).Some? && exists ch :: ch in c.parse(line[6..]).value && ch.stop
    ensures Judge(c, line).Forward? <==>
            && |line| >= 6 && line != "data: [DONE]"
            && (IsChunk(c, line) ==>
                  c.parse(line[6..]).Some? && forall ch :: ch in c.parse(line[6..]).value ==> !ch.stop)
    ensures Choices(c, line) == if IsChunk(c, line) && c.parse(line[6..]).Some? then c.parse(line[6..]).value else []
  {
    assert |line| >= 6 ==> (DATA <= line <==> line[..6] == "data: ");
    if IsChunk(c, line) && c.parse(line[6..]).Some? {
      var choices := c.parse(line[6..]).value;
      if Stops(choices) {
        var i :| 0 <= i < |choices| && choices[i].stop;
        assert choices[i] in choices;
      }
    }
  }

  /** The forwarded lines are the passed-on ones, each at its place in the order. */
  lemma {:induction false} ForwardedInOrder(c: Config, lines: seq<string>) returns (at: seq<nat>)
    ensures |at| == |Forwarded(c, lines)|
    ensures forall k :: 0 <= k < |at| ==> at[k] < |lines| && lines[at[k]] == Forwarded(c, lines)[k]
    ensures forall j, k :: 0 <= j < k < |at| ==> at[j] < at[k]
    ensures forall i :: 0 <= i < |lines| ==> (i in at <==> Judge(c, lines[i]).Forward?)
  {
    at := [];
    if lines != [] {
      var init := lines[..|lines| - 1];
      at := ForwardedInOrder(c, init);
      assert forall i :: 0 <= i < |init| ==> init[i] == lines[i];
      if Judge(c, lines[|init|]).Forward? {
        at := at + [|init|];
      }
    }
  }

  /** The closing message: after a stop line the fixed message or, without one, that line; nothing
      in it if the stream ended otherwise. */
  lemma ClosingIs(c: Config, lines: seq<string>)
    ensures var n := EndAt(c, lines);
            ClosingOf(c, lines) ==
            if n == |lines| || lines[n] == "data: [DONE]" then ""
            else if c.fixed.Some? then c.fixed.value
            else lines[n]
  {
    var n := EndAt(c, lines);
    if n < |lines| { LineVerdict(c, lines[n]); }
  }

  lemma {:induction false} ForwardedGrows(c: Config, lines: seq<string>, i: nat, n: nat)
    requires i <= n <= |lines|
    ensures Forwarded(c, lines[..i]) <= Forwarded(c, lines[..n])
  {
    if i < n {
      ForwardedGrows(c, lines, i, n - 1);
      assert lines[..n][..n - 1] == lines[..n - 1];
    }
  }

  /** One more line. */
  lemma Advance(c: Config, lines: seq<string>, i: nat)
    requires i < |lines|
    ensures Forwarded(c, lines[..i + 1]) == Forwarded(c, lines[..i]) + if Judge(c, lines[i]).Forward? then [lines[i]] else []
    ensures Spoken(c, lines[..i + 1]) == Spoken(c, lines[..i]) + Said(Choices(c, lines[i]))
    ensures ToolCount(c, lines[..i + 1]) == Max(ToolCount(c, lines[..i]), ToolsIn(Choices(c, lines[i])))
  {
    assert lines[..i + 1][..i] == lines[..i];
  }

  // ---------------------------------------------------------------- the producer

  /** The text and the tools of one chunk, added choice by choice. */
  method AddChoices(choices: seq<Choice>, text: string, tools: nat)
    returns (responseText: string, toolCount: nat, stop: bool)
    ensures responseText == text + Said(choices)
    ensures toolCount == Max(tools, ToolsIn(choices))
    ensures stop <==> Stops(choices)
  {
    responseText, toolCount, stop := text, tools, false;
    assert text + "" == text;
    for i := 0 to |choices|
      invariant responseText == text + Said(choices[..i]) && toolCount == Max(tools, ToolsIn(choices[..i]))
      invariant stop <==> exists j :: 0 <= j < i && choices[j].stop
    {
      var choice := choices[i];
      assert choices[..i + 1][..i] == choices[..i];
      ghost var said := Said(choices[..i]);
      if |choice.tools| > toolCount {
        toolCount := |choice.tools|;
      }
      responseText := AddTools(responseText + choice.content, choice.tools);
      Associate(text, said, choice.content, ToolText(choice.tools));
      if choice.stop {
        stop := true;
      }
    }
    assert choices[..|choices|] == choices;
  }

  method AddTools(text: string, tools: seq<Tool>) returns (responseText: string)
    ensures responseText == text + ToolText(tools)
  {
    responseText := text;
    assert text + "" == text;
    for j := 0 to |tools|
      invariant responseText == text + ToolText(tools[..j])
    {
      assert tools[..j + 1][..j] == tools[..j];
      Associate(text, ToolText(tools[..j]), tools[j].name, tools[j].arguments);
      responseText := responseText + tools[j].name;
      responseText := responseText + tools[j].arguments;
    }
    assert tools[..|tools|] == tools;
  }

  lemma Associate(a: string, b: string, x: string, y: string)
    ensures ((a + b) + x) + y == a + ((b + x) + y)
  {}

  /** One line of the producer's loop, up to the point where it is dropped, ends the loop or
      is sent. */
  method TakeLine(c: Config, data: string, text: string, tools: nat)
    returns (send: bool, over: bool, needInject: bool, responseText: string, toolCount: nat)
    ensures send == Judge(c, data).Forward? && over == Ends(c, data) && needInject == Judge(c, data).Stop?
    ensures responseText == text + Said(Choices(c, data)) && toolCount == Max(tools, ToolsIn(Choices(c, data)))
  {
    send, over, needInject, responseText, toolCount := false, false, false, text, tools;
    assert text + "" == text;
    if |data| < 6 {
      return;
    }
    if data == DONE {
      over := true;
      return;
    }
    if DATA <= data && c.mode != Other {
      var chunk := c.parse(data[6..]);
      if chunk.None? {
        return;
      }
      responseText, toolCount, needInject := AddChoices(chunk.value, responseText, toolCount);
      over := needInject;
    }
    send := !needInject;
  }

  lemma ConsumedAt(c: Config, lines: seq<string>, i: nat)
    requires i <= |lines| && i == EndAt(c, lines)
    ensures Consumed(c, lines) == if i < |lines| then lines[..i + 1] else lines[..i]
  {}

  /** The producer goroutine run to its end: what it sends, and the text and tools it has seen. */
  method Produce(c: Config, lines: seq<string>) returns (sent: seq<string>, responseText: string, toolCount: nat)
    ensures sent == Expected(c, lines)
    ensures responseText == Spoken(c, Consumed(c, lines)) && toolCount == ToolCount(c, Consumed(c, lines))
  {
    sent, responseText, toolCount := [], "", 0;
    var stopMessage, needInject := "", false;
    var i := 0;
    while i < |lines|
      invariant i <= EndAt(c, lines)
      invariant sent == Forwarded(c, lines[..i])
      invariant responseText == Spoken(c, lines[..i]) && toolCount == ToolCount(c, lines[..i])
      invariant stopMessage == "" && !needInject
    {
      Advance(c, lines, i);
      var send, over;
      send, over, needInject, responseText, toolCount := TakeLine(c, lines[i], responseText, toolCount);
      if over {
        if needInject {
          stopMessage := lines[i];
        }
        break;
      }
      if send {
        sent := sent + [lines[i]];
      }
      i := i + 1;
    }
    ConsumedAt(c, lines, i);
    var closing := if needInject && c.fixed.Some? then c.fixed.value else stopMessage;
    assert closing == ClosingOf(c, lines);
    sent := sent + [closing];
    sent := sent + [DONE];
  }
}

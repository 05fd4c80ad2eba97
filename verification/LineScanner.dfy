/**
 * The line scanner behind StreamHandler (relay/channel/openai/main.go): bufio.Scanner with its
 * buffer limit, driven by the handler's split function. A byte is a char here.
 */
module LineScanner {
  import opened Basics

  /** The first newline, or the length when there is none. */
  function NewlineAt(data: string): (i: nat)
    ensures i <= |data|
    ensures i < |data| ==> data[i] == '\n'
    ensures forall j :: 0 <= j < i ==> data[j] != '\n'
  {
    if data == "" || data[0] == '\n' then 0 else 1 + NewlineAt(data[1..])
  }

  lemma NewlineUnique(data: string, i: nat)
    requires i <= |data| && (i < |data| ==> data[i] == '\n')
    requires forall j :: 0 <= j < i ==> data[j] != '\n'
    ensures NewlineAt(data) == i
  {}

  /** The split function: how far to advance, and the token if there is one: the text before the
      newline, or at the end all that is left. */
  function Split(data: string, atEOF: bool): (r: (nat, Option<string>))
    ensures r.0 <= |data| && (r.1.None? ==> r.0 == 0)
    ensures r.1.None? <==> (if atEOF then data == "" else '\n' !in data)
    ensures r.1.Some? ==>
              && '\n' !in r.1.value && r.0 > 0
              && (data[..r.0] == r.1.value + "\n" || (atEOF && r.0 == |data| && data == r.1.value))
  {
    if atEOF && data == "" then (0, None)
    else
      var i := NewlineAt(data);
      if i < |data| then (i + 1, Some(data[..i]))
      else if atEOF then (|data|, Some(data))
      else (0, None)
  }

  /** The lines of a body. A line whose newline is not among the first `limit` bytes ends the
      scan silently; a last line of exactly `limit` bytes passes only when the end of the body
      is reported together with its last bytes. */
  function Lines(body: string, limit: nat, together: bool): seq<string> {
    if body == "" then []
    else
      var i := NewlineAt(body);
      if i < |body| then
        if i < limit then [body[..i]] + Lines(body[i + 1..], limit, together) else []
      else if |body| < limit || (|body| == limit && together) then [body]
      else []
  }

  /** No line goes beyond a newline. */
  lemma {:induction false} NoNewlineInside(body: string, limit: nat, together: bool)
    ensures forall line :: line in Lines(body, limit, together) ==> '\n' !in line
  {
    var i := NewlineAt(body);
    if body != "" && i < |body| && i < limit {
      NoNewlineInside(body[i + 1..], limit, together);
    }
  }

  function Unsplit(lines: seq<string>): string {
    if lines == [] then "" else lines[0] + "\n" + Unsplit(lines[1..])
  }

  /** Somewhere in the body, `limit` bytes in a row hold no newline. If the end comes together with
      the last bytes, those at the very end do not matter. */
  ghost predicate HasLongRun(body: string, limit: nat, together: bool) {
    exists i :: 0 <= i <= |body| - limit && LongRunAt(body, i, limit) && (together ==> i < |body| - limit)
  }

  predicate LongRunAt(body: string, i: nat, limit: nat)
    requires i + limit <= |body|
  {
    forall j :: i <= j < i + limit ==> body[j] != '\n'
  }

  /** The lines are those of the body, but for a newline missing at its end. */
  predicate Whole(body: string, lines: seq<string>) {
    Unsplit(lines) == body || Unsplit(lines) == body + "\n"
  }

  lemma LongRunShift(body: string, rest: string, n: nat, i: nat, limit: nat)
    requires n <= |body| && rest == body[n..] && i + limit <= |rest|
    ensures LongRunAt(rest, i, limit) <==> LongRunAt(body, n + i, limit)
  {
    assert forall j :: 0 <= j < |rest| ==> rest[j] == body[n + j];
    assert forall j :: n <= j < |body| ==> body[j] == rest[j - n];
  }

  lemma LongRunAfter(body: string, rest: string, limit: nat, together: bool)
    requires NewlineAt(body) < |body| && NewlineAt(body) < limit && rest == body[NewlineAt(body) + 1..]
    ensures HasLongRun(body, limit, together) <==> HasLongRun(rest, limit, together)
  {
    var n := NewlineAt(body) + 1;
    if HasLongRun(body, limit, together) {
      var i :| 0 <= i <= |body| - limit && LongRunAt(body, i, limit) && (together ==> i < |body| - limit);
      assert body[n - 1] == '\n' && i >= n;
      LongRunShift(body, rest, n, i - n, limit);
    }
    if HasLongRun(rest, limit, together) {
      var i :| 0 <= i <= |rest| - limit && LongRunAt(rest, i, limit) && (together ==> i < |rest| - limit);
      LongRunShift(body, rest, n, i, limit);
    }
  }

  lemma LongRunAtFront(body: string, limit: nat, together: bool)
    requires limit > 0 && NewlineAt(body) >= limit && (together ==> |body| > limit)
    ensures HasLongRun(body, limit, together)
  {
    assert LongRunAt(body, 0, limit);
  }

  lemma Cancel(head: string, a: string, b: string)
    ensures head + a == head + b <==> a == b
  {
    if head + a == head + b {
      assert a == (head + a)[|head|..] && b == (head + b)[|head|..];
    }
  }

  lemma WholeCons(body: string, head: string, line: string, rest: string, more: seq<string>)
    requires head == line + "\n" && body == head + rest
    ensures Whole(body, [line] + more) <==> Whole(rest, more)
  {
    UnsplitCons(line, more);
    var tail := Unsplit(more);
    Cancel(head, tail, rest);
    Cancel(head, tail, rest + "\n");
    Associate(head, rest, "\n");
  }

  lemma CutLine(body: string, line: string, rest: string)
    requires NewlineAt(body) < |body| && line == body[..NewlineAt(body)] && rest == body[NewlineAt(body) + 1..]
    ensures body == (line + "\n") + rest
  {
    var i := NewlineAt(body);
    Cut(body, i);
    assert [body[i]] == "\n";
  }

  lemma WholeStep(body: string, line: string, rest: string, more: seq<string>)
    requires NewlineAt(body) < |body| && line == body[..NewlineAt(body)] && rest == body[NewlineAt(body) + 1..]
    ensures Whole(body, [line] + more) <==> Whole(rest, more)
  {
    CutLine(body, line, rest);
    WholeCons(body, line + "\n", line, rest, more);
  }

  lemma Associate(a: string, b: string, c: string)
    ensures (a + b) + c == a + (b + c)
  {}

  lemma UnsplitCons(line: string, more: seq<string>)
    ensures Unsplit([line] + more) == line + "\n" + Unsplit(more)
  {
    assert ([line] + more)[1..] == more;
  }

  lemma WholeLast(body: string)
    ensures Whole(body, [body]) && Whole("", [])
  {
    assert Unsplit([body]) == body + "\n" + Unsplit([]);
  }

  lemma NothingWhole(body: string)
    requires body != ""
    ensures !Whole(body, [])
  {}

  lemma ShortHasNoRun(body: string, limit: nat, together: bool)
    requires |body| < limit || (together && |body| == limit)
    ensures !HasLongRun(body, limit, together)
  {}

  /** The lines make up the whole body iff there is no such stretch. */
  lemma {:induction false} NothingLostIff(body: string, limit: nat, together: bool)
    requires limit > 0
    ensures Whole(body, Lines(body, limit, together)) <==> !HasLongRun(body, limit, together)
  {
    var i := NewlineAt(body);
    if body == "" {
      WholeLast("");
    } else if i < |body| && i < limit {
      var line, rest := body[..i], body[i + 1..];
      NothingLostIff(rest, limit, together);
      LongRunAfter(body, rest, limit, together);
      WholeStep(body, line, rest, Lines(rest, limit, together));
    } else if i >= limit && (together ==> |body| > limit) {
      LongRunAtFront(body, limit, together);
      NothingWhole(body);
    } else {
      ShortHasNoRun(body, limit, together);
      WholeLast(body);
    }
  }

  lemma LinesStep(buffer: string, unread: string, limit: nat, together: bool)
    requires NewlineAt(buffer) < |buffer| <= limit
    ensures var i := NewlineAt(buffer);
            Lines(buffer + unread, limit, together) == [buffer[..i]] + Lines(buffer[i + 1..] + unread, limit, together)
  {
    var i, all := NewlineAt(buffer), buffer + unread;
    NewlineUnique(all, i);
    assert all[..i] == buffer[..i] && all[i + 1..] == buffer[i + 1..] + unread;
  }

  lemma TooLongStops(buffer: string, unread: string, limit: nat)
    requires NewlineAt(buffer) == |buffer| == limit
    ensures Lines(buffer + unread, limit, false) == []
  {
    var all := buffer + unread;
    assert forall j :: 0 <= j < limit ==> all[j] == buffer[j];
    if NewlineAt(all) < limit { assert false; }
  }

  /** The lines so far and those of the rest make up the lines of the body, however the body's
      end will be reported (or, once known, as it was). */
  ghost predicate Owed(body: string, limit: nat, lines: seq<string>, rest: string, eof: bool, together: bool) {
    forall t :: (eof ==> t == together) ==> lines + Lines(rest, limit, t) == Lines(body, limit, t)
  }

  lemma EmitAt(limit: nat, lines: seq<string>, buffer: string, unread: string, eof: bool, t: bool)
    requires |buffer| <= limit && (eof ==> unread == "") && (eof && |buffer| == limit ==> t)
    requires Split(buffer, eof).1.Some?
    ensures var r := Split(buffer, eof);
            lines + Lines(buffer + unread, limit, t) == lines + [r.1.value] + Lines(buffer[r.0..] + unread, limit, t)
  {
    var r := Split(buffer, eof);
    if NewlineAt(buffer) < |buffer| {
      LinesStep(buffer, unread, limit, t);
    } else {
      assert buffer + unread == buffer && buffer[r.0..] + unread == "";
    }
    var more := Lines(buffer[r.0..] + unread, limit, t);
    assert lines + ([r.1.value] + more) == lines + [r.1.value] + more;
  }

  lemma Emit(body: string, limit: nat, lines: seq<string>, buffer: string, unread: string, eof: bool, together: bool)
    requires Owed(body, limit, lines, buffer + unread, eof, together)
    requires |buffer| <= limit && (eof ==> unread == "") && (eof && |buffer| == limit ==> together)
    requires Split(buffer, eof).1.Some?
    ensures var r := Split(buffer, eof);
            Owed(body, limit, lines + [r.1.value], buffer[r.0..] + unread, eof, together)
  {
    forall t | eof ==> t == together
      ensures var r := Split(buffer, eof);
              lines + [r.1.value] + Lines(buffer[r.0..] + unread, limit, t) == Lines(body, limit, t)
    {
      EmitAt(limit, lines, buffer, unread, eof, t);
    }
  }

  lemma Complete(body: string, limit: nat, lines: seq<string>, buffer: string, unread: string, eof: bool, together: bool)
    requires Owed(body, limit, lines, buffer + unread, eof, together) && (!eof ==> !together)
    requires if eof then buffer + unread == "" else NewlineAt(buffer) == |buffer| == limit
    ensures lines == Lines(body, limit, together)
  {
    if !eof {
      TooLongStops(buffer, unread, limit);
    }
    assert lines + [] == lines;
  }

  /** One read: some of the unread bytes, and perhaps the news that these were the last. */
  method Read(buffer: string, unread: string, limit: nat) returns (buffer': string, unread': string, eof: bool, together: bool)
    requires |buffer| < limit
    ensures buffer' + unread' == buffer + unread && |buffer'| <= limit && |unread'| <= |unread|
    ensures eof ==> unread' == ""
    ensures together ==> eof
    ensures eof && |buffer'| == limit ==> together
    ensures !eof ==> |unread'| < |unread|
  {
    if unread == "" {
      return buffer, unread, true, false;
    }
    var n: nat :| 1 <= n <= |unread| && n <= limit - |buffer|;
    buffer', unread' := buffer + unread[..n], unread[n..];
    eof := *;
    eof := eof && unread' == "";
    together := eof;
  }

  /** Scan until it returns false, the body arriving in any pieces. */
  method Scan(body: string, limit: nat) returns (lines: seq<string>, together: bool)
    requires limit > 0
    ensures lines == Lines(body, limit, together)
    ensures Whole(body, lines) <==> !HasLongRun(body, limit, together)
  {
    var unread, buffer, eof := body, "", false;
    lines, together := [], false;
    assert buffer + unread == body;
    while true
      invariant |buffer| <= limit && (eof ==> unread == "") && (!eof ==> !together)
      invariant eof && |buffer| == limit ==> together
      invariant Owed(body, limit, lines, buffer + unread, eof, together)
      decreases |buffer + unread|, |unread|, !eof
    {
      if buffer != "" || eof {
        var (advance, token) := Split(buffer, eof);
        if token.Some? {
          Emit(body, limit, lines, buffer, unread, eof, together);
          lines := lines + [token.value];
          buffer := buffer[advance..];
          continue;
        }
      }
      if eof || |buffer| == limit {
        Complete(body, limit, lines, buffer, unread, eof, together);
        NothingLostIff(body, limit, together);
        return;
      }
      buffer, unread, eof, together := Read(buffer, unread, limit);
    }
  }
}

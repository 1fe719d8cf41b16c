/** The loops of the PAM module, over the buffers they fill in place. */
module PamModule {
  import opened Wrappers
  import opened Numbers
  import opened Json
  import opened PamSocket

  lemma {:induction false} CStringAt(s: string, i: nat)
    requires i < |s| && NUL !in s[..i]
    ensures s[i] == NUL ==> CString(s) == s[..i]
    ensures s[i] != NUL ==> i < |CString(s)|
  {
    if i > 0 {
      assert s[0] in s[..i];
      assert s[1..][..i - 1] == s[1..i];
      assert forall c :: c in s[1..i] ==> c in s[..i];
      CStringAt(s[1..], i - 1);
    }
  }

  /** The escaped form of the first `n` characters, as the loop builds it. */
  function EscapedTo(s: string, n: nat): string
    requires n <= |s|
  {
    if n == 0 then "" else EscapedTo(s, n - 1) + EscapeUnit(Pam, s[n - 1])
  }

  lemma {:induction false} EscapedToPrefix(s: string, n: nat)
    requires n <= |s|
    ensures EscapedTo(s, n) == Escape(Pam, s[..n])
  {
    if n > 0 {
      EscapedToPrefix(s, n - 1);
      assert s[..n] == s[..n - 1] + [s[n - 1]];
      EscapeAppend(Pam, s[..n - 1], [s[n - 1]]);
      assert Escape(Pam, [s[n - 1]]) == EscapeUnit(Pam, s[n - 1]) + Escape(Pam, []);
    }
  }

  lemma EscapedToBound(s: string, n: nat)
    requires n <= |s|
    ensures |EscapedTo(s, n)| <= |Escape(Pam, s)|
    ensures n == |s| ==> EscapedTo(s, n) == Escape(Pam, s)
  {
    EscapedToPrefix(s, n);
    assert s == s[..n] + s[n..];
    EscapeAppend(Pam, s[..n], s[n..]);
    assert n == |s| ==> s[..n] == s;
  }

  lemma EscapeUnitOf(c: char)
    ensures EscapeUnit(Pam, c) == if c == QUOTE || c == BACKSLASH then [BACKSLASH, c] else if c < ' ' then "" else [c]
  {
  }

  /** A cursor up to the terminator reads the text, and stops exactly at its end. */
  lemma CursorReads(s: string, i: nat)
    requires NUL in s && i <= |CString(s)|
    ensures i < |s| && (s[i] == NUL <==> i == |CString(s)|)
    ensures s[i] != NUL ==> CString(s)[i] == s[i]
  {
    TextEnds(s);
  }

  lemma TextFits(s: string)
    requires NUL in s
    ensures |CString(s)| < |s|
  {
    TextEnds(s);
  }

  /** `json_escape`: succeeds exactly when the escaped text and its NUL fit in `size`, and never
      writes at or past `size`. */
  method JsonEscape(input: array<char>, output: array<char>, size: nat) returns (code: int)
    requires input != output && NUL in input[..]
    requires size <= output.Length
    modifies output
    ensures code == if |Escape(Pam, CString(input[..]))| < size then 0 else -1
    ensures code == 0 ==> CString(output[..]) == Escape(Pam, CString(input[..]))
    ensures output[size..] == old(output[size..])
  {
    ghost var source := input[..];
    ghost var text := CString(source);
    ghost var start, contents := output[..], output[..];
    var used := 0;
    var cursor := 0;
    TextFits(source);
    while input[cursor] != NUL
      invariant cursor <= |text| < input.Length && input[..] == source && output[..] == contents
      invariant used <= |contents| && contents[..used] == EscapedTo(text, cursor)
      invariant used == 0 || used < size
      invariant contents[size..] == start[size..]
      decreases |text| - cursor
    {
      var c := input[cursor];
      assert c == source[cursor];
      ReadOn(source, text, cursor, c);
      if c == QUOTE || c == BACKSLASH {
        if used + 2 >= size {
          return -1;
        }
        TwoWritten(contents, used, BACKSLASH, c, size);
        contents := contents[used := BACKSLASH][used + 1 := c];
        output[used] := BACKSLASH;
        output[used + 1] := c;
        used := used + 2;
      } else if c < ' ' {
      } else {
        if used + 1 >= size {
          return -1;
        }
        OneWritten(contents, used, c, size);
        contents := contents[used := c];
        output[used] := c;
        used := used + 1;
      }
      cursor := cursor + 1;
    }
    assert source[cursor] == NUL;
    CursorReads(source, cursor);
    EscapedToBound(text, cursor);
    if used >= size {
      return -1;
    }
    EscapedEnds(contents[used := NUL], used, text);
    output[used] := NUL;
    assert output[..] == contents[used := NUL];
    return 0;
  }

  lemma OneWritten(s: string, n: nat, c: char, size: nat)
    requires n < size <= |s|
    ensures var t := s[n := c]; t[..n + 1] == s[..n] + [c] && t[size..] == s[size..]
  {
  }

  lemma TwoWritten(s: string, n: nat, b: char, c: char, size: nat)
    requires n + 1 < size <= |s|
    ensures var t := s[n := b][n + 1 := c]; t[..n + 2] == s[..n] + [b, c] && t[size..] == s[size..]
  {
  }

  lemma ReadOn(source: string, text: string, cursor: nat, c: char)
    requires NUL in source && text == CString(source) && cursor <= |text| && cursor < |source|
        && c == source[cursor] != NUL
    ensures cursor < |text|
    ensures EscapedTo(text, cursor + 1)
         == EscapedTo(text, cursor)
            + if c == QUOTE || c == BACKSLASH then [BACKSLASH, c] else if c < ' ' then "" else [c]
    ensures |EscapedTo(text, cursor + 1)| <= |Escape(Pam, text)|
  {
    CursorReads(source, cursor);
    EscapedToBound(text, cursor + 1);
    EscapeUnitOf(c);
  }

  lemma EscapedEnds(s: string, n: nat, text: string)
    requires n < |s| && s[n] == NUL && s[..n] == Escape(Pam, text)
    ensures CString(s) == Escape(Pam, text)
  {
    EscapedHasNoNul(text);
    CStringAt(s, n);
  }

  lemma {:induction false} TextEnds(s: string)
    requires NUL in s
    ensures |CString(s)| < |s| && s[|CString(s)|] == NUL && NUL !in CString(s)
    ensures forall i :: 0 <= i < |CString(s)| ==> s[i] != NUL
  {
    if s[0] != NUL {
      TextEnds(s[1..]);
      assert forall i :: 0 < i < |CString(s)| ==> s[i] == s[1..][i - 1];
    }
  }

  lemma EscapedHasNoNul(s: string)
    ensures NUL !in Escape(Pam, s)
  {
    EscapeControlFree(Pam, s);
  }

  /** What one `read` of a single byte returns; a list of them is a whole conversation, and a
      list that has run out reads as the end of the stream. */
  datatype ReadEvent = Got(c: char) | Interrupted | ReadFailed | EndOfStream

  /** The line a reader with `room` bytes left gets, or nothing when `read` fails first. */
  function Received(events: seq<ReadEvent>, room: nat): Option<string> {
    if room == 0 || events == [] || events[0] == EndOfStream || events[0] == Got('\n') then Some("")
    else if events[0] == ReadFailed then None
    else if events[0] == Interrupted then Received(events[1..], room)
    else
      match Received(events[1..], room - 1)
      case None => None
      case Some(s) => Some([events[0].c] + s)
  }

  function Bytes(text: string): seq<ReadEvent> {
    if text == "" then [] else [Got(text[0])] + Bytes(text[1..])
  }

  /** A text is a line if a newline or the end of the stream comes after it, and nothing if the read
      after it fails. */
  lemma {:induction false} LineEnds(text: string, end: ReadEvent, rest: seq<ReadEvent>, room: nat)
    requires '\n' !in text && |text| < room && (end == Got('\n') || end == EndOfStream || end == ReadFailed)
    ensures Received(Bytes(text) + ([end] + rest), room) == if end == ReadFailed then None else Some(text)
    decreases |text|
  {
    var events := Bytes(text) + ([end] + rest);
    if text == "" {
      assert events == [end] + rest;
    } else {
      assert events[1..] == Bytes(text[1..]) + ([end] + rest) && events[0] == Got(text[0]);
      LineEnds(text[1..], end, rest, room - 1);
      assert text == [text[0]] + text[1..];
    }
  }

  /** `read_line`: returns the number of bytes kept, or -1. */
  method ReadLine(events: seq<ReadEvent>, buffer: array<char>, size: nat) returns (n: int)
    requires 0 < size <= buffer.Length
    modifies buffer
    ensures n == match Received(events, size - 1) case None => -1 case Some(s) => |s|
    ensures n >= 0 ==> n < size && buffer[..n] == Received(events, size - 1).value && buffer[n] == NUL
    ensures buffer[size..] == old(buffer[size..])
  {
    var used := 0;
    var next := 0;
    assert events[0..] == events && forall s: string :: buffer[..0] + s == s;
    while used + 1 < size
      invariant used < size && next <= |events|
      invariant Received(events, size - 1)
             == match Received(events[next..], size - 1 - used)
                case None => None
                case Some(s) => Some(buffer[..used] + s)
      invariant buffer[size..] == old(buffer[size..])
      decreases |events| - next
    {
      if next == |events| || events[next] == EndOfStream {
        break;
      }
      var event := events[next];
      next := next + 1;
      assert events[next - 1..][1..] == events[next..];
      if event == ReadFailed {
        return -1;
      }
      if event == Interrupted {
        continue;
      }
      if event.c == '\n' {
        break;
      }
      ghost var kept := buffer[..used];
      buffer[used] := event.c;
      used := used + 1;
      assert buffer[..used] == kept + [event.c];
      assert forall s: string :: kept + ([event.c] + s) == kept + [event.c] + s;
    }
    assert Received(events, size - 1) == Some(buffer[..used]) by {
      assert buffer[..used] + "" == buffer[..used];
    }
    buffer[used] := NUL;
    return used;
  }

  /** What one `write` returns: how many of the offered bytes went out, or an error. A list that
      has run out reads as the send timeout. */
  datatype WriteEvent = Wrote(count: nat) | WriteInterrupted | WriteFailed

  /** How much of `length` bytes goes out before an error. */
  function Written(events: seq<WriteEvent>, length: nat): (n: nat)
    ensures n <= length
  {
    if length == 0 || events == [] || events[0] == WriteFailed then 0
    else if events[0] == WriteInterrupted then Written(events[1..], length)
    else var n := Min(events[0].count, length); n + Written(events[1..], length - n)
  }

  /** The bytes that the other end has room for before the first write that fails. */
  function Accepted(events: seq<WriteEvent>): nat {
    if events == [] || events[0].WriteFailed? then 0
    else (if events[0].Wrote? then events[0].count else 0) + Accepted(events[1..])
  }

  /** However the writes are cut up and interrupted, what goes out is all that is accepted, up to
      the end of the data. */
  lemma {:induction false} WrittenIsAccepted(events: seq<WriteEvent>, length: nat)
    ensures Written(events, length) == Min(Accepted(events), length)
  {
    if length > 0 && events != [] && !events[0].WriteFailed? {
      WrittenIsAccepted(events[1..], if events[0].Wrote? then length - Min(events[0].count, length) else length);
    }
  }

  lemma {:induction false} AcceptedAdds(before: seq<WriteEvent>, after: seq<WriteEvent>)
    requires WriteFailed !in before
    ensures Accepted(before + after) == Accepted(before) + Accepted(after)
  {
    if before == [] {
      assert before + after == after;
    } else {
      assert (before + after)[1..] == before[1..] + after && WriteFailed !in before[1..];
      AcceptedAdds(before[1..], after);
    }
  }

  /** A write that takes everything is enough, whatever interrupts it and whatever comes later; and
      nothing counts after a failure. */
  lemma OneWriteIsEnough(interruptions: nat, count: nat, later: seq<WriteEvent>)
    ensures var waits := seq(interruptions, i => WriteInterrupted);
      && Accepted(waits + ([Wrote(count)] + later)) == count + Accepted(later)
      && Accepted(waits + ([WriteFailed] + later)) == 0
    decreases interruptions
  {
    var waits := seq(interruptions, i => WriteInterrupted);
    assert ([Wrote(count)] + later)[1..] == later;
    AcceptedAdds(waits, [Wrote(count)] + later);
    AcceptedAdds(waits, [WriteFailed] + later);
    InterruptionsTakeNothing(waits);
  }

  lemma {:induction false} InterruptionsTakeNothing(waits: seq<WriteEvent>)
    requires forall i :: 0 <= i < |waits| ==> waits[i] == WriteInterrupted
    ensures Accepted(waits) == 0
  {
    if waits != [] {
      InterruptionsTakeNothing(waits[1..]);
    }
  }

  /** `write_all`: `sent` is what the other end receives, always in order and without gaps. */
  method WriteAll(events: seq<WriteEvent>, data: string) returns (code: int, sent: string)
    ensures sent == data[..Min(Accepted(events), |data|)]
    ensures code == if Accepted(events) >= |data| then 0 else -1
  {
    WrittenIsAccepted(events, |data|);
    var written := 0;
    var next := 0;
    sent := "";
    while written < |data|
      invariant 0 <= written <= |data| && next <= |events|
      invariant sent == data[..written]
      invariant Written(events, |data|) == written + Written(events[next..], |data| - written)
      decreases |events| - next
    {
      if next == |events| || events[next] == WriteFailed {
        return -1, sent;
      }
      var event := events[next];
      next := next + 1;
      assert events[next - 1..][1..] == events[next..];
      if event == WriteInterrupted {
        continue;
      }
      var n := Min(event.count, |data| - written);
      sent := sent + data[written..written + n];
      written := written + n;
    }
    return 0, sent;
  }

  // ---- The whole module ------------------------------------------------------------------

  /** What is left of the reply line when the module reads it through its buffer. */
  function Cut(line: string): string {
    line[..Min(|line|, REPLY_MAX - 1)]
  }

  /** A reply that arrives whole, with interruptions at will: the bytes of `line` and a newline. */
  predicate Carries(events: seq<ReadEvent>, line: string) {
    if line == "" then
      events != [] && (events[0] == Got('\n') || (events[0] == Interrupted && Carries(events[1..], line)))
    else
      && events != []
      && (if events[0] == Interrupted then Carries(events[1..], line)
          else events[0] == Got(line[0]) && Carries(events[1..], line[1..]))
  }

  /** The plainest such arrival. */
  function Arriving(line: string): seq<ReadEvent> {
    if line == "" then [Got('\n')] else [Got(line[0])] + Arriving(line[1..])
  }

  lemma {:induction false} LineArrives(line: string)
    ensures Carries(Arriving(line), line)
  {
    if line != "" {
      LineArrives(line[1..]);
      assert Arriving(line)[1..] == Arriving(line[1..]);
    }
  }

  lemma {:induction false} ReceivedWhole(events: seq<ReadEvent>, line: string, room: nat)
    requires Carries(events, line) && ControlFree(line)
    ensures Received(events, room) == Some(line[..Min(|line|, room)])
  {
    if room > 0 {
      if events[0] == Interrupted {
        ReceivedWhole(events[1..], line, room);
      } else if line != "" {
        ReceivedWhole(events[1..], line[1..], room - 1);
        assert line[..Min(|line|, room)] == [line[0]] + line[1..][..Min(|line| - 1, room - 1)];
      }
    }
  }

  lemma {:induction false} CStringWhole(s: string)
    requires ControlFree(s)
    ensures CString(s) == s
  {
    if s != "" {
      CStringWhole(s[1..]);
    }
  }

  lemma ShortLineApproves(line: string)
    requires ControlFree(line) && |line| < REPLY_MAX && OccursAt(OK_TRUE, line, 1)
    ensures VerdictOn(Cut(line)) == Success
  {
    assert Cut(line) == line;
    CStringWhole(line);
  }

  lemma ApprovalVerdict(ms: seq<(string, Scalar)>)
    requires ms == ReplyMembers(Approved)
    ensures VerdictOn(Cut(PrintObject(Serde, COMPACT, ms))) == Success
  {
    PrintControlFree(Serde, ms);
    ApprovalText(ms);
    ShortLineApproves(PrintObject(Serde, COMPACT, ms));
  }

  lemma DenialVerdict(reason: string)
    ensures VerdictOn(Cut(Reply(Denied(reason)))) == Unavailable
  {
    var line := Reply(Denied(reason));
    PrintControlFree(Serde, ReplyMembers(Denied(reason)));
    CStringWhole(Cut(line));
    DenialNeverApproves(reason, |Cut(line)|);
  }

  /** The substring test is exact: on the daemon's reply, cut or not, the module succeeds if and
      only if the daemon approved. */
  lemma VerdictIsExact(events: seq<ReadEvent>, o: Outcome)
    ensures Carries(events, Reply(o)) ==> Received(events, REPLY_MAX - 1) == Some(Cut(Reply(o)))
    ensures VerdictOn(Cut(Reply(o))) == Success <==> o == Approved
  {
    PrintControlFree(Serde, ReplyMembers(o));
    if Carries(events, Reply(o)) {
      ReceivedWhole(events, Reply(o), REPLY_MAX - 1);
    }
    match o
    case Approved => ApprovalVerdict(ReplyMembers(o));
    case Denied(reason) => DenialVerdict(reason);
  }

  /** A reply that may be cut off: some bytes of `line`, in order, until the socket closes, fails or
      falls silent, or all of them and a newline. */
  predicate Begins(events: seq<ReadEvent>, line: string) {
    || events == [] || events[0] == EndOfStream || events[0] == ReadFailed
    || (events[0] == Interrupted && Begins(events[1..], line))
    || (if line == "" then events[0] == Got('\n') else events[0] == Got(line[0]) && Begins(events[1..], line[1..]))
  }

  /** A reply that arrives whole is one of these. */
  lemma {:induction false} WholeBegins(events: seq<ReadEvent>, line: string)
    requires Carries(events, line)
    ensures Begins(events, line)
  {
    if events[0] == Interrupted {
      WholeBegins(events[1..], line);
    } else if line != "" {
      WholeBegins(events[1..], line[1..]);
    }
  }

  /** Then the module has a prefix of the line, or nothing after a failure. */
  lemma {:induction false} ReceivedBegins(events: seq<ReadEvent>, line: string, room: nat)
    requires Begins(events, line) && ControlFree(line)
    ensures var received := Received(events, room);
      received.Some? ==> |received.value| <= |line| && received.value == line[..|received.value|]
  {
    if room > 0 && events != [] {
      if events[0] == Interrupted {
        ReceivedBegins(events[1..], line, room);
      } else if line != "" && events[0] == Got(line[0]) {
        ReceivedBegins(events[1..], line[1..], room - 1);
      }
    }
  }

  /** The approving text is in the first ten characters of an approval, and in no shorter part. */
  const ENOUGH := 10

  lemma PartOfApproval(ms: seq<(string, Scalar)>, n: nat)
    requires ms == ReplyMembers(Approved) && n <= |PrintObject(Serde, COMPACT, ms)|
    ensures VerdictOn(PrintObject(Serde, COMPACT, ms)[..n]) == Success <==> n >= ENOUGH
  {
    var line := PrintObject(Serde, COMPACT, ms);
    PrintControlFree(Serde, ms);
    CStringWhole(line[..n]);
    ApprovalText(ms);
    if n >= ENOUGH {
      assert OccursAt(OK_TRUE, line[..n], 1);
    } else {
      assert line[0] == '{' && OK_TRUE[0] == QUOTE && |OK_TRUE| == 9;
      assert forall i | 0 <= i <= n :: !OccursAt(OK_TRUE, line[..n], i);
    }
  }

  lemma PartOfDenial(reason: string, n: nat)
    requires n <= |Reply(Denied(reason))|
    ensures VerdictOn(Reply(Denied(reason))[..n]) == Unavailable
  {
    var line := Reply(Denied(reason));
    PrintControlFree(Serde, ReplyMembers(Denied(reason)));
    CStringWhole(line[..n]);
    DenialNeverApproves(reason, n);
  }

  /** On a reply that may be cut off anywhere the module succeeds if and only if the daemon approved
      and the approving text came through. */
  lemma CutOffVerdict(events: seq<ReadEvent>, o: Outcome)
    requires Begins(events, Reply(o))
    ensures var received := Received(events, REPLY_MAX - 1);
      received.Some? ==> (VerdictOn(received.value) == Success <==> o == Approved && |received.value| >= ENOUGH)
  {
    PrintControlFree(Serde, ReplyMembers(o));
    ReceivedBegins(events, Reply(o), REPLY_MAX - 1);
    var received := Received(events, REPLY_MAX - 1);
    if received.Some? {
      match o
      case Approved => PartOfApproval(ReplyMembers(o), |received.value|);
      case Denied(reason) => PartOfDenial(reason, |received.value|);
    }
  }

  /** The module's verdict on what it reads. */
  predicate Succeeds(incoming: seq<ReadEvent>) {
    var received := Received(incoming, REPLY_MAX - 1);
    received.Some? && VerdictOn(received.value) == Success
  }

  /** The whole request goes out, and the line that comes back passes the test. */
  predicate LogsIn(user: string, service: string, connected: bool, outgoing: seq<WriteEvent>,
                   incoming: seq<ReadEvent>) {
    Fits(user, service) && connected && Accepted(outgoing) >= |RequestLine(user, service)| && Succeeds(incoming)
  }

  /** So every user is let in whose request is taken, in whatever pieces, and whose approval arrives;
      a single write that takes it all is enough, after any number of interruptions. */
  lemma ApprovalLogsIn(user: string, service: string, outgoing: seq<WriteEvent>, incoming: seq<ReadEvent>,
                       interruptions: nat, later: seq<WriteEvent>)
    requires Fits(user, service) && Carries(incoming, Reply(Approved))
    ensures Accepted(outgoing) >= |RequestLine(user, service)| ==> LogsIn(user, service, true, outgoing, incoming)
    ensures var waits := seq(interruptions, i => WriteInterrupted);
      LogsIn(user, service, true, waits + ([Wrote(|RequestLine(user, service)|)] + later), incoming)
  {
    VerdictIsExact(incoming, Approved);
    OneWriteIsEnough(interruptions, |RequestLine(user, service)|, later);
  }

  function Part(s: string, n: nat): string {
    s[..Min(n, |s|)]
  }

  /** `pam_sm_authenticate`, from the two PAM items to the verdict. */
  method Authenticate(user: array<char>, service: array<char>, connected: bool,
                      outgoing: seq<WriteEvent>, incoming: seq<ReadEvent>)
    returns (verdict: Verdict, sent: string)
    requires NUL in user[..] && NUL in service[..]
    ensures var u, s := CString(user[..]), CString(service[..]);
      && sent == (if Fits(u, s) && connected then Part(RequestLine(u, s), Accepted(outgoing)) else "")
      && (verdict == Success <==> LogsIn(u, s, connected, outgoing, incoming))
  {
    ghost var u, s := CString(user[..]), CString(service[..]);
    var safeUser := new char[BUFFER];
    var safeService := new char[BUFFER];
    var code := JsonEscape(user, safeUser, BUFFER);
    if code != 0 {
      return Unavailable, "";
    }
    code := JsonEscape(service, safeService, BUFFER);
    if code != 0 || !connected {
      return Unavailable, "";
    }
    var request := Assemble(CString(safeUser[..]), CString(safeService[..]));
    assert request == RequestLine(u, s);
    RequestIsOneLine(u, s);
    if |request| >= REQUEST_MAX {
      return Unavailable, "";
    }
    code, sent := WriteAll(outgoing, request);
    if code != 0 {
      return Unavailable, sent;
    }
    var reply := new char[REPLY_MAX];
    var n := ReadLine(incoming, reply, REPLY_MAX);
    if n <= 0 {
      return Unavailable, sent;
    }
    TextOfBuffer(reply[..], n);
    verdict := if Contains(CString(reply[..]), OK_TRUE) then Success else Unavailable;
  }

  lemma {:induction false} TextOfBuffer(s: string, n: nat)
    requires n < |s| && s[n] == NUL
    ensures CString(s) == CString(s[..n])
  {
    if n > 0 && s[0] != NUL {
      TextOfBuffer(s[1..], n - 1);
      assert s[1..][..n - 1] == s[..n][1..];
    }
  }
}

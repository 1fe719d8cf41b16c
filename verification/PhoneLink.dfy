/** The phone's outbox: lines wait while the link is down, and a line whose write fails goes back
    to the end of the queue. */
module PhoneLink {
  datatype LinkState = Connecting | Connected | Waiting

  /** The queue with its history: every line sent, every line written without an error, in order,
      and whether any write has failed. */
  datatype Link = Link(outbox: seq<string>, sent: seq<string>, written: seq<string>, failed: bool)

  const EMPTY := Link([], [], [], false)

  /** A line is queued, or the head of the queue is taken and written; a write finds nothing to do
      when the queue is empty. */
  datatype Event = Send(line: string) | Write(ok: bool)

  function Apply(k: Link, e: Event): Link {
    match e
    case Send(line) => k.(outbox := k.outbox + [line], sent := k.sent + [line])
    case Write(ok) =>
      if k.outbox == [] then k
      else if ok then k.(outbox := k.outbox[1..], written := k.written + [k.outbox[0]])
      else k.(outbox := k.outbox[1..] + [k.outbox[0]], failed := true)
  }

  function Run(k: Link, events: seq<Event>): Link
    decreases |events|
  {
    if events == [] then k else Run(Apply(k, events[0]), events[1..])
  }

  /** Nothing is lost and nothing is made up; and without failures nothing overtakes. */
  ghost predicate Conserved(k: Link) {
    && multiset(k.sent) == multiset(k.outbox) + multiset(k.written)
    && (!k.failed ==> k.sent == k.written + k.outbox)
  }

  lemma WriteConserves(k: Link, head: string, tail: seq<string>, ok: bool)
    requires Conserved(k) && k.outbox == [head] + tail
    ensures Conserved(Apply(k, Write(ok)))
  {
    assert multiset(k.outbox) == multiset{head} + multiset(tail);
    if ok {
      assert k.written + k.outbox == (k.written + [head]) + tail;
    }
  }

  lemma EventConserves(k: Link, e: Event)
    requires Conserved(k)
    ensures Conserved(Apply(k, e))
  {
    if e.Write? && k.outbox != [] {
      assert k.outbox == [k.outbox[0]] + k.outbox[1..];
      WriteConserves(k, k.outbox[0], k.outbox[1..], e.ok);
    }
  }

  /** Across any sequence of sends, writes, failures and reconnects. */
  lemma {:induction false} RunConserves(k: Link, events: seq<Event>)
    requires Conserved(k)
    ensures Conserved(Run(k, events))
    decreases |events|
  {
    if events != [] {
      EventConserves(k, events[0]);
      RunConserves(Apply(k, events[0]), events[1..]);
    }
  }

  /** However many writes have failed before, as many successful ones as there are lines waiting
      empty the queue, and then every line ever sent has been written exactly once. */
  lemma {:induction false} QueueDrains(k: Link, events: seq<Event>)
    requires Conserved(k) && |events| == |k.outbox| && forall i :: 0 <= i < |events| ==> events[i] == Write(true)
    ensures Run(k, events).outbox == [] && Run(k, events).written == k.written + k.outbox
    ensures multiset(Run(k, events).written) == multiset(k.sent) && Run(k, events).sent == k.sent
    decreases |events|
  {
    if events != [] {
      var u := Apply(k, events[0]);
      EventConserves(k, events[0]);
      QueueDrains(u, events[1..]);
      assert u.written + u.outbox == k.written + k.outbox;
    } else {
      assert k.written + k.outbox == k.written;
    }
  }

  // ---- Order ---------------------------------------------------------------------------------

  /** The lines have left, and wait, in the order they were sent. */
  predicate InOrder(k: Link) {
    k.sent == k.written + k.outbox
  }

  predicate AllAlike(s: seq<string>) {
    forall i, j :: 0 <= i < j < |s| ==> s[i] == s[j]
  }

  /** A write fails while two different lines wait. */
  predicate Shuffles(k: Link, e: Event) {
    e == Write(false) && !AllAlike(k.outbox)
  }

  lemma {:induction false} AllLikeTheFirst(s: seq<string>, i: nat)
    requires s != [] && s[1..] + [s[0]] == s && i < |s|
    ensures s[i] == s[0]
  {
    if i > 0 {
      AllLikeTheFirst(s, i - 1);
      assert s[i - 1] == (s[1..] + [s[0]])[i - 1];
    }
  }

  lemma RotationKeeps(s: seq<string>)
    requires s != []
    ensures s[1..] + [s[0]] == s <==> AllAlike(s)
  {
    if s[1..] + [s[0]] == s {
      forall i | 0 <= i < |s| ensures s[i] == s[0] {
        AllLikeTheFirst(s, i);
      }
    }
  }

  lemma SameHead(a: seq<string>, b: seq<string>, c: seq<string>)
    ensures a + b == a + c <==> b == c
  {
    assert (a + b)[|a|..] == b && (a + c)[|a|..] == c;
  }

  lemma EventKeepsOrder(k: Link, e: Event)
    requires InOrder(k)
    ensures InOrder(Apply(k, e)) <==> !Shuffles(k, e)
  {
    match e
    case Send(line) => assert k.written + k.outbox + [line] == k.written + (k.outbox + [line]);
    case Write(ok) =>
      if k.outbox != [] {
        assert k.written + k.outbox == k.written + [k.outbox[0]] + k.outbox[1..];
        if !ok {
          RotationKeeps(k.outbox);
          SameHead(k.written, k.outbox, k.outbox[1..] + [k.outbox[0]]);
        }
      }
  }

  /** The queue after the first `n` events. */
  function At(k: Link, events: seq<Event>, n: nat): Link
    requires n <= |events|
  {
    Run(k, events[..n])
  }

  lemma OneMore(k: Link, events: seq<Event>, n: nat)
    requires n < |events|
    ensures At(k, events, n + 1) == Apply(At(k, events, n), events[n])
  {
    assert events[..n + 1] == events[..n] + [events[n]];
    RunConcat(k, events[..n], [events[n]]);
    assert [events[n]][1..] == [];
  }

  lemma {:induction false} OrderUpTo(k: Link, events: seq<Event>, n: nat)
    requires InOrder(k) && n <= |events|
    requires forall i :: 0 <= i < n ==> !Shuffles(At(k, events, i), events[i])
    ensures InOrder(At(k, events, n))
  {
    if n == 0 {
      assert events[..0] == [];
    } else {
      OrderUpTo(k, events, n - 1);
      OneMore(k, events, n - 1);
      EventKeepsOrder(At(k, events, n - 1), events[n - 1]);
    }
  }

  /** The lines are in order at every moment of a run that starts in order if and only if no write
      fails while two different lines wait. */
  lemma OrderExactly(k: Link, events: seq<Event>)
    requires InOrder(k)
    ensures (forall n :: 0 <= n <= |events| ==> InOrder(At(k, events, n)))
      <==> (forall n :: 0 <= n < |events| ==> !Shuffles(At(k, events, n), events[n]))
  {
    if forall n :: 0 <= n < |events| ==> !Shuffles(At(k, events, n), events[n]) {
      forall n | 0 <= n <= |events| ensures InOrder(At(k, events, n)) {
        OrderUpTo(k, events, n);
      }
    }
    if forall n :: 0 <= n <= |events| ==> InOrder(At(k, events, n)) {
      forall n | 0 <= n < |events| ensures !Shuffles(At(k, events, n), events[n]) {
        OneMore(k, events, n);
        EventKeepsOrder(At(k, events, n), events[n]);
      }
    }
  }

  /** A line overtaken: the first of two goes to the end when its write fails. */
  lemma FailedWriteOvertakes(a: string, b: string)
    ensures var k := Run(EMPTY, [Send(a), Send(b), Write(false), Write(true)]);
      k.sent == [a, b] && k.written == [b] && k.outbox == [a]
  {
    var k2 := Link([a, b], [a, b], [], false);
    var k3 := Link([b, a], [a, b], [], true);
    assert Apply(Apply(EMPTY, Send(a)), Send(b)) == k2;
    assert Apply(k2, Write(false)) == k3;
    assert Apply(k3, Write(true)) == Link([a], [a, b], [b], true);
    assert Run(k2, [Write(false), Write(true)]) == Run(k3, [Write(true)]);
    assert [Send(a), Send(b), Write(false), Write(true)] == [Send(a), Send(b)] + [Write(false), Write(true)];
    RunConcat(EMPTY, [Send(a), Send(b)], [Write(false), Write(true)]);
    assert Run(EMPTY, [Send(a), Send(b)]) == Run(Apply(EMPTY, Send(a)), [Send(b)]);
  }

  lemma {:induction false} RunConcat(k: Link, a: seq<Event>, b: seq<Event>)
    ensures Run(k, a + b) == Run(Run(k, a), b)
    decreases |a|
  {
    if a == [] {
      assert a + b == b;
    } else {
      assert (a + b)[1..] == a[1..] + b;
      RunConcat(Apply(k, a[0]), a[1..], b);
    }
  }

  /** One session and the wait after it: whether it connects, the lines sent meanwhile and the
      chances to write, each with how the write would go. */
  datatype Session = Session(connected: bool, events: seq<Event>)

  /** What the events of a session do: nothing is written before a connection, after a failed write,
      or while nothing waits. */
  function Pumped(k: Link, alive: bool, events: seq<Event>): Link
    decreases |events|
  {
    if events == [] then k
    else
      match events[0]
      case Send(line) => Pumped(Apply(k, Send(line)), alive, events[1..])
      case Write(ok) =>
        if alive && k.outbox != [] then Pumped(Apply(k, Write(ok)), ok, events[1..])
        else Pumped(k, alive, events[1..])
  }

  /** Sessions one after another. */
  function AfterSessions(k: Link, sessions: seq<Session>): Link
    decreases |sessions|
  {
    if sessions == [] then k
    else AfterSessions(Pumped(k, sessions[0].connected, sessions[0].events), sessions[1..])
  }

  lemma {:induction false} PumpedConserves(k: Link, alive: bool, events: seq<Event>)
    requires Conserved(k)
    ensures Conserved(Pumped(k, alive, events))
    decreases |events|
  {
    if events != [] {
      EventConserves(k, events[0]);
      match events[0]
      case Send(line) => PumpedConserves(Apply(k, Send(line)), alive, events[1..]);
      case Write(ok) =>
        if alive && k.outbox != [] {
          PumpedConserves(Apply(k, Write(ok)), ok, events[1..]);
        } else {
          PumpedConserves(k, alive, events[1..]);
        }
    }
  }

  lemma {:induction false} SessionsConserve(k: Link, sessions: seq<Session>)
    requires Conserved(k)
    ensures Conserved(AfterSessions(k, sessions))
    decreases |sessions|
  {
    if sessions != [] {
      PumpedConserves(k, sessions[0].connected, sessions[0].events);
      SessionsConserve(Pumped(k, sessions[0].connected, sessions[0].events), sessions[1..]);
    }
  }

  lemma {:induction false} OneSessionMore(k: Link, sessions: seq<Session>, last: Session)
    ensures AfterSessions(k, sessions + [last]) == Pumped(AfterSessions(k, sessions), last.connected, last.events)
    decreases |sessions|
  {
    if sessions == [] {
      assert [] + [last] == [last] && [last][1..] == [];
    } else {
      assert (sessions + [last])[1..] == sessions[1..] + [last];
      OneSessionMore(Pumped(k, sessions[0].connected, sessions[0].events), sessions[1..], last);
    }
  }

  // ---- What a session writes -----------------------------------------------------------------

  /** The lines sent in the course of some events. */
  function Lines(events: seq<Event>): seq<string> {
    if events == [] then [] else (if events[0].Send? then [events[0].line] else []) + Lines(events[1..])
  }

  /** How many chances to write they hold. */
  function WritesIn(events: seq<Event>): nat {
    if events == [] then 0 else (if events[0].Write? then 1 else 0) + WritesIn(events[1..])
  }

  predicate NoFailure(events: seq<Event>) {
    forall i :: 0 <= i < |events| ==> events[i] != Write(false)
  }

  function Writes(n: nat): seq<Event> {
    seq(n, i => Write(true))
  }

  /** These lines have been sent, and wait. */
  function Queued(k: Link, lines: seq<string>): Link {
    k.(outbox := k.outbox + lines, sent := k.sent + lines)
  }

  lemma QueuedAfterSend(k: Link, line: string, lines: seq<string>)
    ensures Queued(Apply(k, Send(line)), lines) == Queued(k, [line] + lines)
  {
    assert k.outbox + [line] + lines == k.outbox + ([line] + lines);
    assert k.sent + [line] + lines == k.sent + ([line] + lines);
  }

  lemma NothingQueued(k: Link)
    ensures Queued(k, []) == k
  {
    assert k.outbox + [] == k.outbox && k.sent + [] == k.sent;
  }

  /** Without a connection, or once a write has failed, lines only queue. */
  lemma {:induction false} DeadWritesNothing(k: Link, events: seq<Event>)
    ensures Pumped(k, false, events) == Queued(k, Lines(events))
    decreases |events|
  {
    if events == [] {
      NothingQueued(k);
    } else if events[0].Send? {
      DeadWritesNothing(Apply(k, events[0]), events[1..]);
      QueuedAfterSend(k, events[0].line, Lines(events[1..]));
    } else {
      DeadWritesNothing(k, events[1..]);
      assert Lines(events) == [] + Lines(events[1..]);
    }
  }

  /** What `u` has come to from `k`, these lines sent in between and `n` more written, in order. */
  predicate Advances(k: Link, u: Link, lines: seq<string>, n: nat) {
    && n <= |k.outbox + lines|
    && u.written == k.written + (k.outbox + lines)[..n] && u.outbox == (k.outbox + lines)[n..]
    && u.sent == k.sent + lines && u.failed == k.failed
  }

  lemma AdvanceBySend(k: Link, line: string, u: Link, lines: seq<string>, n: nat)
    requires Advances(Apply(k, Send(line)), u, lines, n)
    ensures Advances(k, u, [line] + lines, n)
  {
    assert k.outbox + [line] + lines == k.outbox + ([line] + lines);
    assert k.sent + [line] + lines == k.sent + ([line] + lines);
  }

  lemma AdvanceByWrite(k: Link, u: Link, lines: seq<string>, n: nat)
    requires k.outbox != [] && Advances(Apply(k, Write(true)), u, lines, n)
    ensures Advances(k, u, lines, n + 1)
  {
    var all := k.outbox + lines;
    assert k.outbox[1..] + lines == all[1..];
    assert all[1..][..n] == all[1..n + 1] && all[1..][n..] == all[n + 1..];
    assert [k.outbox[0]] + all[1..n + 1] == all[..n + 1];
    assert k.written + [k.outbox[0]] + all[1..n + 1] == k.written + all[..n + 1];
  }

  /** While no write fails a connected session writes lines from the head of the queue, in order, and
      as long as lines wait it misses no chance. */
  lemma {:induction false} AliveWritesInOrder(k: Link, events: seq<Event>) returns (n: nat)
    requires NoFailure(events)
    ensures Advances(k, Pumped(k, true, events), Lines(events), n)
    ensures WritesIn(events) <= |k.outbox| ==> n == WritesIn(events)
    decreases |events|
  {
    if events == [] {
      n := 0;
      assert k.written + [] == k.written && k.outbox + [] == k.outbox && k.sent + [] == k.sent;
    } else {
      assert NoFailure(events[1..]);
      if events[0].Send? {
        n := AliveWritesInOrder(Apply(k, events[0]), events[1..]);
        AdvanceBySend(k, events[0].line, Pumped(k, true, events), Lines(events[1..]), n);
      } else {
        assert events[0] == Write(true) && Lines(events) == Lines(events[1..]);
        if k.outbox == [] {
          n := AliveWritesInOrder(k, events[1..]);
        } else {
          n := AliveWritesInOrder(Apply(k, Write(true)), events[1..]);
          AdvanceByWrite(k, Pumped(k, true, events), Lines(events), n);
          n := n + 1;
        }
      }
    }
  }

  lemma {:induction false} PumpedAppend(k: Link, a: seq<Event>, b: seq<Event>)
    requires NoFailure(a)
    ensures Pumped(k, true, a + b) == Pumped(Pumped(k, true, a), true, b)
    decreases |a|
  {
    if a == [] {
      assert a + b == b;
    } else {
      assert (a + b)[1..] == a[1..] + b && (a + b)[0] == a[0];
      if a[0].Send? {
        PumpedAppend(Apply(k, a[0]), a[1..], b);
      } else if k.outbox == [] {
        PumpedAppend(k, a[1..], b);
      } else {
        PumpedAppend(Apply(k, Write(true)), a[1..], b);
      }
    }
  }

  /** Successful writes alone: as many lines as there are, from the head. */
  lemma {:induction false} WritesTake(k: Link, n: nat)
    ensures Advances(k, Pumped(k, true, Writes(n)), [], if n < |k.outbox| then n else |k.outbox|)
    decreases n
  {
    assert k.outbox + [] == k.outbox && k.sent + [] == k.sent && k.written + [] == k.written;
    if n > 0 {
      assert Writes(n)[1..] == Writes(n - 1);
      if k.outbox == [] {
        WritesTake(k, n - 1);
      } else {
        var u := Apply(k, Write(true));
        WritesTake(u, n - 1);
        AdvanceByWrite(k, Pumped(k, true, Writes(n)), [], if n - 1 < |u.outbox| then n - 1 else |u.outbox|);
      }
    }
  }

  /** A connected session whose last writes succeed and are enough for all that waits empties the
      outbox: whatever was sent before has been written, in order, and nothing else. */
  lemma SessionDrains(k: Link, sessions: seq<Session>, events: seq<Event>, n: nat)
    requires NoFailure(events)
    requires |AfterSessions(k, sessions).outbox| + |Lines(events)| <= n
    ensures var before := AfterSessions(k, sessions);
      var after := AfterSessions(k, sessions + [Session(true, events + Writes(n))]);
      && after.outbox == [] && after.written == before.written + before.outbox + Lines(events)
      && after.sent == before.sent + Lines(events)
  {
    var before := AfterSessions(k, sessions);
    OneSessionMore(k, sessions, Session(true, events + Writes(n)));
    PumpedAppend(before, events, Writes(n));
    var m := AliveWritesInOrder(before, events);
    var middle := Pumped(before, true, events);
    WritesTake(middle, n);
    AdvanceTwice(before, middle, Pumped(middle, true, Writes(n)), Lines(events), m);
  }

  /** Some writes and then all the rest. */
  lemma AdvanceTwice(k: Link, middle: Link, u: Link, lines: seq<string>, m: nat)
    requires Advances(k, middle, lines, m) && Advances(middle, u, [], |middle.outbox|)
    ensures u.outbox == [] && u.written == k.written + k.outbox + lines && u.sent == k.sent + lines
  {
    var all := k.outbox + lines;
    assert middle.outbox + [] == middle.outbox && middle.sent + [] == middle.sent;
    assert middle.outbox[..|middle.outbox|] == middle.outbox && middle.outbox[|middle.outbox|..] == [];
    assert all[..m] + all[m..] == all;
    assert k.written + all[..m] + all[m..] == k.written + (all[..m] + all[m..]);
    assert k.written + k.outbox + lines == k.written + all;
  }

  /** At the first write that fails a session has written one line for each chance before, and it
      writes nothing more: the line that failed goes behind all that wait, and what is sent later
      behind it. */
  lemma SessionStopsAtFailure(k: Link, sessions: seq<Session>, events: seq<Event>, rest: seq<Event>)
    requires NoFailure(events) && WritesIn(events) < |AfterSessions(k, sessions).outbox|
    ensures var before := AfterSessions(k, sessions); var n := WritesIn(events);
      var after := AfterSessions(k, sessions + [Session(true, events + ([Write(false)] + rest))]);
      && after.written == before.written + before.outbox[..n]
      && after.outbox == before.outbox[n + 1..] + Lines(events) + [before.outbox[n]] + Lines(rest)
  {
    var before := AfterSessions(k, sessions);
    var later := [Write(false)] + rest;
    OneSessionMore(k, sessions, Session(true, events + later));
    PumpedAppend(before, events, later);
    var n := AliveWritesInOrder(before, events);
    var middle := Pumped(before, true, events);
    assert later[1..] == rest;
    DeadWritesNothing(Apply(middle, Write(false)), rest);
    FailsAfter(before, middle, Lines(events), n, Lines(rest));
  }

  /** The line at the head when a write fails, and then more lines. */
  lemma FailsAfter(k: Link, middle: Link, lines: seq<string>, n: nat, more: seq<string>)
    requires Advances(k, middle, lines, n) && n < |k.outbox|
    ensures var u := Queued(Apply(middle, Write(false)), more);
      && u.written == k.written + k.outbox[..n]
      && u.outbox == k.outbox[n + 1..] + lines + [k.outbox[n]] + more
  {
    HeadOfTheRest(k.outbox, lines, n);
  }

  lemma HeadOfTheRest(waiting: seq<string>, lines: seq<string>, n: nat)
    requires n < |waiting|
    ensures var all := waiting + lines;
      && all[..n] == waiting[..n] && all[n..] != [] && all[n..][0] == waiting[n]
      && all[n..][1..] == waiting[n + 1..] + lines
  {
  }

  /** A session that never connects writes nothing. */
  lemma UnconnectedWritesNothing(k: Link, sessions: seq<Session>, events: seq<Event>)
    ensures var before := AfterSessions(k, sessions);
      AfterSessions(k, sessions + [Session(false, events)]) == Queued(before, Lines(events))
  {
    OneSessionMore(k, sessions, Session(false, events));
    DeadWritesNothing(AfterSessions(k, sessions), events);
  }

  class DesktopLink {
    var outbox: seq<string>
    var state: LinkState
    ghost var sent: seq<string>
    ghost var written: seq<string>
    ghost var failed: bool

    ghost function View(): Link
      reads this
    {
      Link(outbox, sent, written, failed)
    }

    constructor ()
      ensures View() == EMPTY && state == Connecting
    {
      outbox, state, sent, written, failed := [], Connecting, [], [], false;
    }

    method SendLine(line: string)
      modifies this`outbox, this`sent
      ensures View() == Apply(old(View()), Send(line))
    {
      outbox := outbox + [line];
      sent := sent + [line];
    }

    /** `pump`: writes until a write fails or, as far as `events` go, the session ends; `next` is
        how many of them have passed. */
    method Pump(events: seq<Event>) returns (next: nat)
      modifies this`outbox, this`sent, this`written, this`failed
      ensures next <= |events|
      ensures Pumped(old(View()), true, events) == Pumped(View(), false, events[next..])
    {
      next := 0;
      assert events[0..] == events;
      while next < |events|
        invariant next <= |events|
        invariant Pumped(old(View()), true, events) == Pumped(View(), true, events[next..])
      {
        assert events[next..][1..] == events[next + 1..];
        match events[next] {
          case Send(line) => SendLine(line);
          case Write(ok) =>
            if outbox != [] {
              var line := outbox[0];
              outbox := outbox[1..];
              if !ok {
                outbox := outbox + [line];
                failed := true;
                return next + 1;
              }
              written := written + [line];
            }
        }
        next := next + 1;
      }
    }

    /** Without a connection, lines only queue. */
    method Idle(events: seq<Event>)
      modifies this`outbox, this`sent
      ensures View() == Pumped(old(View()), false, events)
    {
      var next := 0;
      assert events[0..] == events;
      while next < |events|
        invariant 0 <= next <= |events|
        invariant Pumped(old(View()), false, events) == Pumped(View(), false, events[next..])
      {
        assert events[next..][1..] == events[next + 1..];
        if events[next].Send? {
          SendLine(events[next].line);
        }
        next := next + 1;
      }
    }

    /** `run`: one session after another; each connects or not, writes, and waits. */
    method RunSessions(sessions: seq<Session>)
      modifies this
      ensures View() == AfterSessions(old(View()), sessions)
      ensures Conserved(old(View())) ==> Conserved(View())
      ensures sessions != [] ==> state == Waiting
    {
      var i := 0;
      assert sessions[0..] == sessions;
      while i < |sessions|
        invariant 0 <= i <= |sessions|
        invariant AfterSessions(old(View()), sessions) == AfterSessions(View(), sessions[i..])
        invariant i > 0 ==> state == Waiting
      {
        assert sessions[i..][1..] == sessions[i + 1..];
        state := Connecting;
        var next := 0;
        if sessions[i].connected {
          state := Connected;
          next := Pump(sessions[i].events);
        }
        state := Waiting;
        assert sessions[i].events[0..] == sessions[i].events;
        Idle(sessions[i].events[next..]);
        i := i + 1;
      }
      if Conserved(old(View())) {
        SessionsConserve(old(View()), sessions);
      }
    }
  }
}

/** Pairing windows: at most one is open, it expires lazily, and its token is good for one use.
    Times are nanoseconds of a monotonic clock. */
module Pairing {
  import opened Wrappers
  import opened Bytes

  const SECOND: nat := 1_000_000_000
  const WINDOW: nat := 120 * SECOND

  datatype Session = Session(token: seq<byte>, name: string, startedAt: nat)

  /** `Instant::elapsed` saturates at zero. */
  function Elapsed(s: Session, now: nat): nat {
    if now < s.startedAt then 0 else now - s.startedAt
  }

  predicate Expired(s: Session, now: nat) {
    Elapsed(s, now) >= WINDOW
  }

  function Expire(current: Option<Session>, now: nat): Option<Session> {
    if current.Some? && Expired(current.value, now) then None else current
  }

  // ---- Histories -------------------------------------------------------------------------

  /** What happens to the windows; `usable` says that the phone's key loads and is stored, which
      is looked at only after the token. */
  datatype Action =
    | Begin(token: seq<byte>, name: string)
    | Cancel
    | Poll
    | Take(offered: seq<byte>, usable: bool)

  datatype Event = Event(action: Action, at: nat)

  datatype Outcome = Quiet | Left(seconds: nat) | Taken(session: Session) | Refused

  predicate Matching(current: Option<Session>, token: seq<byte>, now: nat) {
    Expire(current, now).Some? && Expire(current, now).value.token == token
  }

  /** The open window after an event, and what the caller is told. */
  function Step(current: Option<Session>, e: Event): (Option<Session>, Outcome) {
    match e.action
    case Begin(token, name) => (Some(Session(token, name, e.at)), Quiet)
    case Cancel => (None, Quiet)
    case Poll =>
      var c := Expire(current, e.at);
      (c, Left(if c.None? then 0 else (WINDOW - Elapsed(c.value, e.at)) / SECOND))
    case Take(offered, _) =>
      var c := Expire(current, e.at);
      if Matching(current, offered, e.at) then (None, Taken(c.value)) else (c, Refused)
  }

  /** The state and the outcomes after the first `n` events. */
  function Current(h: seq<Event>, n: nat): Option<Session>
    requires n <= |h|
  {
    if n == 0 then None else Step(Current(h, n - 1), h[n - 1]).0
  }

  function OutcomeAt(h: seq<Event>, n: nat): Outcome
    requires n < |h|
  {
    Step(Current(h, n), h[n]).1
  }

  predicate Monotonic(h: seq<Event>) {
    forall i, j :: 0 <= i <= j < |h| ==> h[i].at <= h[j].at
  }

  // ---- The eager specification -----------------------------------------------------------

  /** Event `i` opened a window that none of the later events before `n` has closed. */
  predicate OpenSince(h: seq<Event>, i: nat, n: nat)
    requires n <= |h|
  {
    && i < n && h[i].action.Begin?
    && forall j :: i < j < n ==> !h[j].action.Begin? && !h[j].action.Cancel? && !OutcomeAt(h, j).Taken?
  }

  /** The window opened at `i` is still open and not 120 seconds old when event `n` happens. */
  predicate LiveAt(h: seq<Event>, i: nat, n: nat)
    requires n < |h|
  {
    OpenSince(h, i, n) && h[n].at < h[i].at + WINDOW
  }

  function SessionOf(e: Event): Session
    requires e.action.Begin?
  {
    Session(e.action.token, e.action.name, e.at)
  }

  /** What is kept between events: the open window, unless its time has already run out. */
  ghost predicate Refines(h: seq<Event>, n: nat)
    requires n <= |h|
  {
    && (forall i: nat :: OpenSince(h, i, n) ==>
          Current(h, n) == Some(SessionOf(h[i])) || (Current(h, n) == None && h[n - 1].at >= h[i].at + WINDOW))
    && (Current(h, n).Some? ==> exists i: nat :: OpenSince(h, i, n))
  }

  lemma StepKeepsOpen(h: seq<Event>, i: nat, n: nat)
    requires Monotonic(h) && 0 < n <= |h| && Refines(h, n - 1) && OpenSince(h, i, n)
    ensures Current(h, n) == Some(SessionOf(h[i])) || (Current(h, n) == None && h[n - 1].at >= h[i].at + WINDOW)
  {
    if i < n - 1 {
      assert OpenSince(h, i, n - 1);
    }
  }

  /** What stays open was open before, and nothing has just closed it. */
  lemma StayedOpen(current: Option<Session>, e: Event)
    requires Step(current, e).0.Some? && !e.action.Begin?
    ensures current.Some? && !e.action.Cancel? && !Step(current, e).1.Taken?
  {
  }

  lemma OpenSinceExtends(h: seq<Event>, i: nat, n: nat)
    requires 0 < n <= |h| && OpenSince(h, i, n - 1)
    requires !h[n - 1].action.Begin? && !h[n - 1].action.Cancel? && !OutcomeAt(h, n - 1).Taken?
    ensures OpenSince(h, i, n)
  {
  }

  lemma StepHasOpen(h: seq<Event>, n: nat)
    requires 0 < n <= |h| && Refines(h, n - 1) && Current(h, n).Some?
    ensures exists i: nat :: OpenSince(h, i, n)
  {
    if h[n - 1].action.Begin? {
      assert OpenSince(h, n - 1, n);
    } else {
      StayedOpen(Current(h, n - 1), h[n - 1]);
      var i: nat :| OpenSince(h, i, n - 1);
      OpenSinceExtends(h, i, n);
    }
  }

  lemma {:induction false} LazyRefinesEager(h: seq<Event>, n: nat)
    requires Monotonic(h) && n <= |h|
    ensures Refines(h, n)
  {
    if n > 0 {
      LazyRefinesEager(h, n - 1);
      forall i: nat | OpenSince(h, i, n)
        ensures Current(h, n) == Some(SessionOf(h[i])) || (Current(h, n) == None && h[n - 1].at >= h[i].at + WINDOW)
      {
        StepKeepsOpen(h, i, n);
      }
      if Current(h, n).Some? {
        StepHasOpen(h, n);
      }
    }
  }

  /** A token is accepted exactly when the last window opened has neither been cancelled nor
      used, carries that token and is less than 120 seconds old; and the session handed over is
      that window's, however often the time left was asked for in between. */
  lemma TakeIsExact(h: seq<Event>, n: nat)
    requires Monotonic(h) && n < |h| && h[n].action.Take?
    ensures OutcomeAt(h, n).Taken? <==> exists i: nat :: LiveAt(h, i, n) && h[i].action.token == h[n].action.offered
    ensures forall i: nat :: LiveAt(h, i, n) && OutcomeAt(h, n).Taken? ==> OutcomeAt(h, n) == Taken(SessionOf(h[i]))
  {
    LazyRefinesEager(h, n);
    if OutcomeAt(h, n).Taken? {
      var i: nat :| OpenSince(h, i, n);
      assert LiveAt(h, i, n);
    }
    forall i: nat | LiveAt(h, i, n) ensures Current(h, n) == Some(SessionOf(h[i])) {
      assert OpenSince(h, i, n);
    }
  }

  /** The seconds left are those of the live window, rounded down, and 0 without one. */
  lemma PollIsExact(h: seq<Event>, n: nat)
    requires Monotonic(h) && n < |h| && h[n].action.Poll?
    ensures forall i: nat :: LiveAt(h, i, n) ==> OutcomeAt(h, n) == Left((h[i].at + WINDOW - h[n].at) / SECOND)
    ensures (forall i: nat :: !LiveAt(h, i, n)) ==> OutcomeAt(h, n) == Left(0)
  {
    LazyRefinesEager(h, n);
    forall i: nat | LiveAt(h, i, n) ensures OutcomeAt(h, n) == Left((h[i].at + WINDOW - h[n].at) / SECOND) {
      assert OpenSince(h, i, n);
    }
    if forall i: nat :: !LiveAt(h, i, n) {
      if Current(h, n).Some? {
        var i: nat :| OpenSince(h, i, n);
        assert !LiveAt(h, i, n);
      }
    }
  }

  lemma TakenWasLive(h: seq<Event>, n: nat)
    requires Monotonic(h) && n < |h| && OutcomeAt(h, n).Taken?
    ensures h[n].action.Take? && exists i: nat :: LiveAt(h, i, n) && h[i].action.token == h[n].action.offered
  {
    TakeIsExact(h, n);
  }

  /** A window pairs at most one device: two tokens accepted were offered to two windows, each with
      the token it was opened with, and the second was opened after the first was used. */
  lemma WindowUsedOnce(h: seq<Event>, n: nat, m: nat)
    requires Monotonic(h) && n < m < |h| && OutcomeAt(h, n).Taken? && OutcomeAt(h, m).Taken?
    ensures h[n].action.Take? && h[m].action.Take?
    ensures exists i: nat, j: nat ::
      && i < n < j < m && LiveAt(h, i, n) && LiveAt(h, j, m)
      && h[i].action.token == h[n].action.offered && h[j].action.token == h[m].action.offered
    ensures forall i: nat, j: nat :: LiveAt(h, i, n) && LiveAt(h, j, m) ==> i < n < j
  {
    TakenWasLive(h, n);
    TakenWasLive(h, m);
    var i: nat :| LiveAt(h, i, n) && h[i].action.token == h[n].action.offered;
    var j: nat :| LiveAt(h, j, m) && h[j].action.token == h[m].action.offered;
    assert i < n < j < m;
  }

  function Begins(h: seq<Event>, n: nat): nat
    requires n <= |h|
  {
    if n == 0 then 0 else Begins(h, n - 1) + if h[n - 1].action.Begin? then 1 else 0
  }

  /** Devices recorded: the token was accepted and the phone's key was usable. */
  function Paired(h: seq<Event>, n: nat): nat
    requires n <= |h|
  {
    if n == 0 then 0
    else Paired(h, n - 1) + if OutcomeAt(h, n - 1).Taken? && h[n - 1].action.usable then 1 else 0
  }

  /** Over any run, at any clock, devices paired never outnumber windows opened, and an open
      window accounts for one more. */
  lemma {:induction false} PairingsBounded(h: seq<Event>, n: nat)
    requires n <= |h|
    ensures Paired(h, n) + (if Current(h, n).Some? then 1 else 0) <= Begins(h, n)
  {
    if n > 0 {
      PairingsBounded(h, n - 1);
    }
  }
}

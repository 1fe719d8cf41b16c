/** The daemon's pairing window as the object it is, and the pairing request that consumes it. */
module PairingWindow {
  import opened Wrappers
  import opened Bytes
  import opened Pairing
  import Base64

  datatype PairingError = TokenNotBase64 | NoWindow | UnusableKey

  class Pairings {
    var current: Option<Session>

    constructor ()
      ensures current == None
    {
      current := None;
    }

    /** Opens a window in place of any other; `token` is drawn from the random source. */
    method Begin(token: seq<byte>, name: string, now: nat)
      modifies this
      ensures current == Step(old(current), Event(Action.Begin(token, name), now)).0
    {
      current := Some(Session(token, name, now));
    }

    method Cancel()
      modifies this
      ensures forall now :: current == Step(old(current), Event(Action.Cancel, now)).0
    {
      current := None;
    }

    method ExpireIfDue(now: nat)
      modifies this
      ensures current == Expire(old(current), now)
    {
      if current.Some? && Expired(current.value, now) {
        current := None;
      }
    }

    method SecondsLeft(now: nat) returns (n: nat)
      modifies this
      ensures (current, Left(n)) == Step(old(current), Event(Poll, now))
    {
      ExpireIfDue(now);
      if current.None? {
        return 0;
      }
      var elapsed := Elapsed(current.value, now);
      n := (if elapsed < WINDOW then WINDOW - elapsed else 0) / SECOND;
    }

    method TakeMatching(token: seq<byte>, now: nat) returns (r: Option<Session>)
      modifies this
      ensures forall usable ::
        (current, if r.Some? then Taken(r.value) else Refused) == Step(old(current), Event(Take(token, usable), now))
    {
      ExpireIfDue(now);
      if current.Some? && current.value.token == token {
        r := current;
        current := None;
      } else {
        r := None;
      }
    }

    /** `complete_pairing` up to the record: the window is gone before the key is looked at. */
    method CompletePairing(token: string, usable: bool, now: nat) returns (r: Result<Session, PairingError>)
      modifies this
      ensures match Base64.Decode(Base64.UrlSafe, Base64.Rust, token)
        case None => r == Err(TokenNotBase64) && current == old(current)
        case Some(bytes) =>
          var (next, outcome) := Step(old(current), Event(Take(bytes, usable), now));
          && current == next
          && r == if !outcome.Taken? then Err(NoWindow) else if usable then Ok(outcome.session) else Err(UnusableKey)
    {
      var bytes := Base64.Decode(Base64.UrlSafe, Base64.Rust, token);
      if bytes.None? {
        return Err(TokenNotBase64);
      }
      var session := TakeMatching(bytes.value, now);
      if session.None? {
        return Err(NoWindow);
      }
      return if usable then Ok(session.value) else Err(UnusableKey);
    }
  }

  /** Method by method, a history of calls leads to the state the events do. */
  method Replay(h: seq<Event>) returns (p: Pairings)
    ensures fresh(p) && p.current == Current(h, |h|)
  {
    p := new Pairings();
    var n := 0;
    while n < |h|
      invariant 0 <= n <= |h| && fresh(p)
      invariant p.current == Current(h, n)
    {
      match h[n].action {
        case Begin(token, name) => p.Begin(token, name, h[n].at);
        case Cancel => p.Cancel();
        case Poll => var _ := p.SecondsLeft(h[n].at);
        case Take(offered, usable) => var _ := p.TakeMatching(offered, h[n].at);
      }
      n := n + 1;
    }
  }
}

/** From the PAM prompt to the phone's screen and back: what a success of the PAM module means. */
module EndToEnd {
  import opened Wrappers
  import opened Numbers
  import opened Bytes
  import Json
  import Protocol
  import PamSocket
  import PamModule
  import Routing
  import Deliveries

  /** The verification `handle_pam` runs for a PAM user and service, with the id, the challenge and
      the host name it is given. */
  function RequestFor(user: string, service: string, id: nat, challenge: seq<byte>, host: string)
    : Option<Protocol.Request>
  {
    match PamSocket.ReadOperation(PamSocket.RequestLine(user, service))
    case Some(Verify(who, action, detail)) => Some(Protocol.Request(id, challenge, who, host, action, detail))
    case _ => None
  }

  predicate StartedFor(r: Protocol.Request, user: string, service: string) {
    RequestFor(user, service, r.id, r.challenge, r.host) == Some(r)
  }

  /** `handle_pam`: approved only on success; any failure is a denial with its own words. */
  function OutcomeOf(v: Routing.Verdict, reason: string): PamSocket.Outcome {
    if v.Approved? then PamSocket.Approved else PamSocket.Denied(reason)
  }

  /** What the phone shows for a line, with control characters gone. */
  predicate Shows(line: string, user: string, service: string) {
    match Protocol.ParseDesktopMessage(line)
    case Some(Verify(raw, _, shownUser, _, shownAction, shownDetail)) =>
      && raw == line
      && shownUser == Json.Kept(Json.Pam, user) && shownAction == Json.Kept(Json.Pam, service)
      && shownDetail == "authorising " + Json.Kept(Json.Pam, service)
    case _ => false
  }

  /** Every PAM request becomes a verification, and the phone shows that request. */
  lemma PhoneShowsPamRequest(user: string, service: string, id: nat, challenge: seq<byte>, host: string)
    ensures var r := RequestFor(user, service, id, challenge, host);
      r.Some? && StartedFor(r.value, user, service) && Shows(Protocol.ToLine(r.value), user, service)
  {
    PamSocket.RequestReadBack(user, service);
    Protocol.PhoneReadsRequest(RequestFor(user, service, id, challenge, host).value);
  }

  /** The approving text got through before the reply was cut off, if it was. */
  predicate GotThrough(incoming: seq<PamModule.ReadEvent>) {
    var received := PamModule.Received(incoming, PamSocket.REPLY_MAX - 1);
    received.Some? && |received.value| >= PamModule.ENOUGH
  }

  lemma VerdictArrives(incoming: seq<PamModule.ReadEvent>, o: PamSocket.Outcome)
    ensures PamModule.Carries(incoming, PamSocket.Reply(o)) ==>
      (PamModule.Succeeds(incoming) <==> o == PamSocket.Approved)
    ensures PamModule.Begins(incoming, PamSocket.Reply(o)) ==>
      (PamModule.Succeeds(incoming) <==> o == PamSocket.Approved && GotThrough(incoming))
  {
    PamModule.VerdictIsExact(incoming, o);
    if PamModule.Begins(incoming, PamSocket.Reply(o)) {
      PamModule.CutOffVerdict(incoming, o);
    }
  }

  /** In every interleaving, whatever arrives from whichever connection: on the reply to a finished
      verification, whole or cut off anywhere, the PAM module reports success if and only if the
      daemon approved and the approving text got through; and then a phone holding the key loaded at
      the start has signed a line that showed this very user and service. */
  lemma SuccessMeansSigned(s: Routing.State, t: Routing.Ticket, user: string, service: string, reason: string,
                           incoming: seq<PamModule.ReadEvent>)
    requires Routing.Reachable(s) && t < |s.tasks| && s.tasks[t].phase.Done? && s.tasks[t].purpose.Check?
    ensures PamModule.Carries(incoming, PamSocket.Reply(OutcomeOf(s.tasks[t].phase.verdict, reason))) ==>
      (PamModule.Succeeds(incoming) <==> Routing.IsApproved(s, t))
    ensures PamModule.Begins(incoming, PamSocket.Reply(OutcomeOf(s.tasks[t].phase.verdict, reason))) ==>
      (PamModule.Succeeds(incoming) <==> Routing.IsApproved(s, t) && GotThrough(incoming))
    ensures StartedFor(s.tasks[t].purpose.request, user, service) && Routing.IsApproved(s, t) ==>
      var check := s.tasks[t].purpose; var line := Protocol.ToLine(check.request);
      Shows(line, user, service) && Routing.Verifies(s.signed, check.key, line, s.tasks[t].phase.verdict.signature)
  {
    VerdictArrives(incoming, OutcomeOf(s.tasks[t].phase.verdict, reason));
    var r := s.tasks[t].purpose.request;
    PhoneShowsPamRequest(user, service, r.id, r.challenge, r.host);
    if Routing.IsApproved(s, t) {
      Routing.ApprovalIsSigned(s, t);
    }
  }

  /** And for every user and service, with any id, there is a run that ends in that success. */
  lemma SuccessIsPossible(user: string, service: string, key: string, id: nat, challenge: seq<byte>, host: string,
                          signature: seq<byte>)
    returns (s: Routing.State, t: Routing.Ticket, incoming: seq<PamModule.ReadEvent>)
    requires id < U64_LIMIT
    ensures Routing.Reachable(s) && Routing.IsApproved(s, t) && s.tasks[t].purpose.Check?
    ensures s.tasks[t].purpose.key == key && s.tasks[t].purpose.request.id == id
    ensures StartedFor(s.tasks[t].purpose.request, user, service)
    ensures PamModule.Carries(incoming, PamSocket.Reply(OutcomeOf(s.tasks[t].phase.verdict, "")))
    ensures PamModule.Succeeds(incoming)
  {
    PhoneShowsPamRequest(user, service, id, challenge, host);
    s, t := Deliveries.ApprovalIsPossible(key, RequestFor(user, service, id, challenge, host).value, signature);
    incoming := PamModule.Arriving(PamSocket.Reply(PamSocket.Approved));
    PamModule.LineArrives(PamSocket.Reply(PamSocket.Approved));
    VerdictArrives(incoming, PamSocket.Approved);
  }
}

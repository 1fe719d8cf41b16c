/** A browser's requests through the daemon: what the exchange of one of its tasks with the phone
    means to the browser, whatever else the daemon is doing at the time. */
module Relay {
  import opened Wrappers
  import opened Numbers
  import opened Bytes
  import opened Json
  import opened WebAuthn
  import opened WebAuthnFlow
  import opened Registration
  import opened BrowserExchange
  import opened Routing
  import Base64
  import Cbor
  import Protocol
  import Provenance
  import Deliveries

  /** `handle_pam` when the operation has failed. */
  function RefusalMembers(why: string): seq<(string, Scalar)> {
    [("error", Scalar.Text(why)), ("ok", Flag(false))]
  }

  lemma RefusalHeard(why: string, name: string)
    ensures HelperField(Line(RefusalMembers(why)) + "\n", name) == None
  {
    var ms := RefusalMembers(why);
    assert |ms[0].0| == 5 && |ms[1].0| == 2;
    LineParses(ms, "\n");
    assert ms[1].0 == "ok";
  }

  // ---- Signing in --------------------------------------------------------------------------

  /** The daemon's reply to the helper when the task it ran for a sign-in has ended so. */
  function SignReply(v: Verdict, why: string): string {
    match (if v.Received? then SignedLine(v.value) else None)
    case Some(line) => line + "\n"
    case None => Line(RefusalMembers(why)) + "\n"
  }

  /** The text of a signature in what the phone sent. */
  function SignatureText(v: Verdict): Option<string> {
    if v.Received? then AsText(v.value, "sig") else None
  }

  function SignatureIn(v: Verdict): Option<seq<byte>> {
    match SignatureText(v) case Some(text) => Base64.Decode(Base64.Standard, Base64.Rust, text) case None => None
  }

  lemma SignatureHeard(v: Verdict, why: string)
    ensures HelperField(SignReply(v, why), "sig") == SignatureText(v)
  {
    match SignatureText(v)
    case Some(text) => HelperReadsSignature(text);
    case None => RefusalHeard(why, "sig");
  }

  /** The daemon ran a task for this request, and this is how the task ended. */
  predicate SignedThrough(r: GetAssertion, sha: seq<byte> -> seq<byte>, v: Verdict, why: string,
                          phone: (string, string, string) -> Option<string>)
    requires r.allowed != []
  {
    phone(Units(r.rpId), Base64.Encode(Base64.UrlSafe, r.allowed[0]), Payload(r, sha))
      == HelperField(SignReply(v, why), "sig")
  }

  /** The body of the reply, if there is one. */
  function AssertionBody(r: GetAssertion, sha: seq<byte> -> seq<byte>, v: Verdict): Option<seq<byte>>
    requires r.allowed != []
  {
    match SignatureIn(v)
    case None => None
    case Some(signature) => Serialised(GetAssertionReply(r.allowed[0], AssertionData(r, sha), signature))
  }

  lemma AssertsThrough(body: seq<byte>, r: GetAssertion, sha: seq<byte> -> seq<byte>, v: Verdict, why: string,
                       phone: (string, string, string) -> Option<string>)
    requires r.allowed != []
    ensures ParseGetAssertion(body) == Some(r) && SignedThrough(r, sha, v, why, phone) ==>
      AssertCredential(body, sha, phone) == AssertionBody(r, sha, v)
  {
    SignatureHeard(v, why);
  }

  lemma BodyRead(r: GetAssertion, sha: seq<byte> -> seq<byte>, v: Verdict)
    requires r.allowed != []
    ensures var body := AssertionBody(r, sha, v);
      && (body.Some? <==> SignatureIn(v).Some? && AssertionFits(r, sha, SignatureIn(v).value))
      && (body.Some? ==>
            ReadGetAssertion(body.value) == Some((r.allowed[0], AssertionData(r, sha), SignatureIn(v).value)))
  {
    match SignatureIn(v)
    case None =>
    case Some(signature) =>
      var reply := GetAssertionReply(r.allowed[0], AssertionData(r, sha), signature);
      if Cbor.Encodable(reply) {
        ReplyFits(r.allowed[0], AssertionData(r, sha), signature);
      }
      if AssertionFits(r, sha, signature) {
        GetAssertionRead(r.allowed[0], AssertionData(r, sha), signature);
      }
  }

  /** What the browser is to read: its own credential and data, with the signature. */
  function AssertionOf(r: GetAssertion, sha: seq<byte> -> seq<byte>, signature: Option<seq<byte>>)
    : Option<(seq<byte>, seq<byte>, seq<byte>)>
    requires r.allowed != []
  {
    match signature case Some(s) => Some((r.allowed[0], AssertionData(r, sha), s)) case None => None
  }

  /** The browser reads an assertion if and only if the task was answered with a signature; and then
      it is that signature, over the credential and the authenticator data of its own request. */
  lemma AssertionExactly(body: seq<byte>, r: GetAssertion, sha: seq<byte> -> seq<byte>, v: Verdict, why: string,
                         phone: (string, string, string) -> Option<string>)
    requires r.allowed != []
    requires SignatureIn(v).Some? ==> AssertionFits(r, sha, SignatureIn(v).value)
    ensures ParseGetAssertion(body) == Some(r) && SignedThrough(r, sha, v, why, phone) ==>
      Assertion(GetAssertionReplyTo(body, sha, phone)) == AssertionOf(r, sha, SignatureIn(v))
  {
    if ParseGetAssertion(body) == Some(r) && SignedThrough(r, sha, v, why, phone) {
      AssertsThrough(body, r, sha, v, why, phone);
      BodyRead(r, sha, v);
      AssertionTaken(AssertionBody(r, sha, v));
    }
  }

  /** The line answers this id, with no denial, and its text decodes to this signature. */
  predicate SaysSignature(line: string, id: nat, signature: seq<byte>) {
    var reading := Protocol.ReadReply(line);
    && reading.id == Some(id) && AsText(reading.value, "denied") == None
    && AsText(reading.value, "sig").Some?
    && Base64.Decode(Base64.Standard, Base64.Rust, AsText(reading.value, "sig").value) == Some(signature)
  }

  lemma ReceivedWasSaid(steps: seq<Step>, lines: set<string>, s: State, t: Ticket) returns (line: string)
    requires Exec(INITIAL, steps) == Some(s) && Provenance.AllFrom(steps, lines)
    requires t < |s.tasks| && s.tasks[t].phase.Done?
    requires s.tasks[t].phase.verdict.Received?
    ensures line in lines
    ensures var reading := Protocol.ReadReply(line);
      && reading.id == Some(s.tasks[t].id) && reading.value == s.tasks[t].phase.verdict.value
      && AsText(reading.value, "denied") == None
  {
    Provenance.VerdictIsOwn(steps, lines, s, t);
    Provenance.AnswerIsOwn(steps, lines, s, t);
    line :| line in lines && Protocol.ReadReply(line).id == Some(s.tasks[t].id)
            && Protocol.ReadReply(line).value == s.tasks[t].phase.verdict.value;
  }

  /** In every run, whatever arrives from whichever connection: an assertion that the browser reads
      holds a signature that came in a line with the id of this request's own task, next to the
      credential the browser named and the authenticator data made for its site. */
  lemma AssertionIsPhones(steps: seq<Step>, lines: set<string>, s: State, t: Ticket, body: seq<byte>, r: GetAssertion,
                          sha: seq<byte> -> seq<byte>, why: string,
                          phone: (string, string, string) -> Option<string>)
    requires Exec(INITIAL, steps) == Some(s) && Provenance.AllFrom(steps, lines)
    requires t < |s.tasks| && s.tasks[t].phase.Done? && r.allowed != []
    ensures ParseGetAssertion(body) == Some(r) && SignedThrough(r, sha, s.tasks[t].phase.verdict, why, phone) ==>
      var a := Assertion(GetAssertionReplyTo(body, sha, phone));
      a.Some? ==>
        && a.value.0 == r.allowed[0] && a.value.1 == AssertionData(r, sha)
        && exists line | line in lines :: SaysSignature(line, s.tasks[t].id, a.value.2)
  {
    var v := s.tasks[t].phase.verdict;
    if ParseGetAssertion(body) == Some(r) && SignedThrough(r, sha, v, why, phone) {
      AssertsThrough(body, r, sha, v, why, phone);
      BodyRead(r, sha, v);
      AssertionTaken(AssertionBody(r, sha, v));
      if SignatureIn(v).Some? {
        var line := ReceivedWasSaid(steps, lines, s, t);
        assert SaysSignature(line, s.tasks[t].id, SignatureIn(v).value);
      }
    }
  }

  lemma SignedIsNoDenial(line: string, id: nat, signature: seq<byte>)
    requires Protocol.ParseResponse(line) == Some(Protocol.Response(id, Protocol.Signed(signature)))
    ensures Protocol.ReadReply(line).id == Some(id) && AsText(Protocol.ReadReply(line).value, "denied") == None
  {
  }

  /** A signature from the phone completes the task of a sign-in, with its text as given. */
  lemma SignatureCompletes(s: State, t: Ticket, c: Connection, signature: seq<byte>)
    requires Normal(s) && Has(s, t, Waiting) && s.tasks[t].purpose.Ask? && Deliveries.Awaits(s, t) && c !in s.readers
    ensures var line := Protocol.ApprovalLine(s.tasks[t].id, signature);
      var u := Exec(s, [LookUpJson(c, Protocol.ReadReply(line)), HandOver(c)]);
      && !Protocol.IsPairRequest(line) && u.Some? && Enabled(u.value, Conclude(t))
      && var phase := Apply(u.value, Conclude(t)).tasks[t].phase;
         phase.Done? && SignatureIn(phase.verdict) == Some(signature)
  {
    var id := s.tasks[t].id;
    Deliveries.AskerIsFound(s, t);
    Protocol.DaemonReadsApproval(id, signature);
    SignedIsNoDenial(Protocol.ApprovalLine(id, signature), id, signature);
    Deliveries.JsonDeliverySteps(s, t, c, Protocol.ReadReply(Protocol.ApprovalLine(id, signature)));
    Base64.DecodeEncode(Base64.Standard, Base64.Rust, signature);
  }

  /** So a sign-in whose task waits is answered once the phone has signed: the browser reads that
      very signature. */
  lemma SignInCompletes(s: State, t: Ticket, c: Connection, signature: seq<byte>, body: seq<byte>, r: GetAssertion,
                        sha: seq<byte> -> seq<byte>, why: string, phone: (string, string, string) -> Option<string>)
    requires Normal(s) && Has(s, t, Waiting) && s.tasks[t].purpose.Ask? && Deliveries.Awaits(s, t) && c !in s.readers
    requires r.allowed != [] && AssertionFits(r, sha, signature)
    ensures var line := Protocol.ApprovalLine(s.tasks[t].id, signature);
      var u := Exec(s, [LookUpJson(c, Protocol.ReadReply(line)), HandOver(c)]);
      && !Protocol.IsPairRequest(line) && u.Some? && Enabled(u.value, Conclude(t))
      && var phase := Apply(u.value, Conclude(t)).tasks[t].phase;
         && phase.Done?
         && (ParseGetAssertion(body) == Some(r) && SignedThrough(r, sha, phase.verdict, why, phone) ==>
               Assertion(GetAssertionReplyTo(body, sha, phone))
               == Some((r.allowed[0], AssertionData(r, sha), signature)))
  {
    SignatureCompletes(s, t, c, signature);
    var reading := Protocol.ReadReply(Protocol.ApprovalLine(s.tasks[t].id, signature));
    var u := Exec(s, [LookUpJson(c, reading), HandOver(c)]).value;
    var v := Apply(u, Conclude(t)).tasks[t].phase.verdict;
    AssertionExactly(body, r, sha, v, why, phone);
  }

  // ---- Registering -------------------------------------------------------------------------

  /** The same for a registration. */
  function CreateReply(v: Verdict, point: string -> Option<(seq<byte>, seq<byte>)>, why: string): string {
    match (if v.Received? then CreatedLine(v.value, point) else None)
    case Some(line) => line + "\n"
    case None => Line(RefusalMembers(why)) + "\n"
  }

  /** The id and the usable key in what the phone sent. */
  function CredentialIn(v: Verdict, point: string -> Option<(seq<byte>, seq<byte>)>): Option<(string, string)> {
    if !v.Received? then None
    else
      match (AsText(v.value, "credId"), AsText(v.value, "publicKeyPem"))
      case (Some(credId), Some(pem)) => if point(pem).Some? then Some((credId, pem)) else None
      case _ => None
  }

  lemma CredentialHeard(v: Verdict, point: string -> Option<(seq<byte>, seq<byte>)>, why: string)
    ensures HelperCredential(CreateReply(v, point, why)) == CredentialIn(v, point)
  {
    match CredentialIn(v, point)
    case Some((credId, pem)) => HelperReadsCredential(credId, pem);
    case None => RefusalHeard(why, "credId");
  }

  predicate CreatedThrough(r: MakeCredential, v: Verdict, point: string -> Option<(seq<byte>, seq<byte>)>, why: string,
                           phone: (string, string) -> Option<(string, string)>) {
    phone(Units(r.rpId), Units(r.userName)) == HelperCredential(CreateReply(v, point, why))
  }

  /** The line answers this id, with no denial, and holds this credential's id and its key. */
  predicate SaysCredential(line: string, id: nat, c: Credential, point: string -> Option<(seq<byte>, seq<byte>)>) {
    var reading := Protocol.ReadReply(line);
    && reading.id == Some(id) && AsText(reading.value, "denied") == None
    && AsText(reading.value, "credId") == Some(Base64.Encode(Base64.UrlSafe, c.id))
    && AsText(reading.value, "publicKeyPem").Some?
    && point(AsText(reading.value, "publicKeyPem").value) == Some((c.x, c.y))
  }

  lemma SameAlias(a: string, b: string)
    requires Alias(a) == Alias(b)
    ensures a == b
  {
    var prefix := |"kpasskey.cred."|;
    assert a == Alias(a)[prefix..] && b == Alias(b)[prefix..];
  }

  /** In every run likewise: a credential that the browser reads is the one whose id and key came in
      a line with the id of this request's own task, under the hash of the browser's site. */
  lemma RegistrationIsPhones(steps: seq<Step>, lines: set<string>, s: State, t: Ticket, body: seq<byte>,
                             r: MakeCredential, sha: seq<byte> -> seq<byte>,
                             point: string -> Option<(seq<byte>, seq<byte>)>, why: string,
                             phone: (string, string) -> Option<(string, string)>)
    requires Exec(INITIAL, steps) == Some(s) && Provenance.AllFrom(steps, lines)
    requires t < |s.tasks| && s.tasks[t].phase.Done? && |sha(r.rpId)| == 32
    ensures ParseMakeCredential(body) == Some(r) && CreatedThrough(r, s.tasks[t].phase.verdict, point, why, phone) ==>
      var d := Registered(MakeCredentialReplyTo(body, sha, phone, point));
      d.Some? ==>
        && d.value.rpIdHash == sha(r.rpId) && d.value.flags == 0x45 && d.value.credential.Some?
        && exists line | line in lines ::
             SaysCredential(line, s.tasks[t].id, d.value.credential.value, point)
  {
    var v := s.tasks[t].phase.verdict;
    CredentialHeard(v, point, why);
    RegisteredTaken(CreateFrom(body, sha, phone, point));
    var d := Registered(MakeCredentialReplyTo(body, sha, phone, point));
    if d.Some? && ParseMakeCredential(body) == Some(r) && CreatedThrough(r, v, point, why, phone) {
      var (credId, pem) := CredentialIn(v, point).value;
      var (x, y) := point(pem).value;
      CreateFromAnswer(body, r, sha, phone, point, credId, pem, x, y);
      CredentialRoundTrip(r.rpId, sha, credId, x, y);
      SameAlias(Base64.Encode(Base64.UrlSafe, d.value.credential.value.id), credId);
      var line := ReceivedWasSaid(steps, lines, s, t);
      assert SaysCredential(line, s.tasks[t].id, d.value.credential.value, point);
    }
  }

  /** And a registration whose task waits is answered once the phone has made a credential. */
  lemma RegistrationCompletes(s: State, t: Ticket, c: Connection, raw: seq<byte>, pem: string, x: seq<byte>,
                              y: seq<byte>, body: seq<byte>, r: MakeCredential, sha: seq<byte> -> seq<byte>,
                              point: string -> Option<(seq<byte>, seq<byte>)>, why: string,
                              phone: (string, string) -> Option<(string, string)>)
    requires Normal(s) && Has(s, t, Waiting) && s.tasks[t].purpose.Ask? && Deliveries.Awaits(s, t) && c !in s.readers
    requires |sha(r.rpId)| == 32
    requires |raw| < 0x1_0000 && |x| == 32 && |y| == 32 && point(pem) == Some((x, y))
    ensures var line := Protocol.CredentialLine(s.tasks[t].id, Base64.Encode(Base64.UrlSafe, raw), pem);
      var u := Exec(s, [LookUpJson(c, Protocol.ReadReply(line)), HandOver(c)]);
      && !Protocol.IsPairRequest(line) && u.Some? && Enabled(u.value, Conclude(t))
      && var phase := Apply(u.value, Conclude(t)).tasks[t].phase;
         && phase.Done?
         && (ParseMakeCredential(body) == Some(r) && CreatedThrough(r, phase.verdict, point, why, phone) ==>
               Registered(MakeCredentialReplyTo(body, sha, phone, point))
               == Some(AuthData(sha(r.rpId), 0x45, 0, Some(Credential(AAGUID, raw, x, y)), None)))
  {
    var credId := Base64.Encode(Base64.UrlSafe, raw);
    Deliveries.CredentialCompletes(s, t, c, credId, pem);
    var reading := Protocol.ReadReply(Protocol.CredentialLine(s.tasks[t].id, credId, pem));
    var u := Exec(s, [LookUpJson(c, reading), HandOver(c)]).value;
    var v := Apply(u, Conclude(t)).tasks[t].phase.verdict;
    if ParseMakeCredential(body) == Some(r) && CreatedThrough(r, v, point, why, phone) {
      CredentialHeard(v, point, why);
      CreateFromAnswer(body, r, sha, phone, point, credId, pem, x, y);
      CreatedRead(r.rpId, sha, raw, x, y);
      SuccessRegistered(CreateFrom(body, sha, phone, point),
                        AuthData(sha(r.rpId), 0x45, 0, Some(Credential(AAGUID, raw, x, y)), None));
    }
  }
}

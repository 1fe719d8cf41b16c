/** A WebAuthn credential on its way: browser, helper, daemon, phone and back. */
module WebAuthnFlow {
  import opened Wrappers
  import opened Numbers
  import opened Bytes
  import opened Json
  import opened WebAuthn
  import Base64
  import Cbor
  import Protocol
  import PamSocket

  /** CBOR text and JSON text have the same UTF-8 bytes. */
  function Units(utf8: seq<byte>): string {
    seq(|utf8|, i requires 0 <= i < |utf8| => utf8[i] as char)
  }

  // ---- The lines (fidolink.rs, server.rs), in the order of `serde_json`'s sorted map -------

  function HelperAssert(rpId: string, credId: string, payload: string): seq<(string, Scalar)> {
    [("credId", Scalar.Text(credId)), ("op", Scalar.Text("webauthn.assert")),
     ("payload", Scalar.Text(payload)), ("rpId", Scalar.Text(rpId))]
  }

  function PhoneAssert(id: nat, rpId: string, credId: string, payload: string): seq<(string, Scalar)> {
    [("credId", Scalar.Text(credId)), ("id", Number(id)), ("payload", Scalar.Text(payload)),
     ("rpId", Scalar.Text(rpId)),
     ("type", Scalar.Text("webauthn.assert")), ("v", Number(1))]
  }

  function DaemonSigned(sig: string): seq<(string, Scalar)> {
    [("ok", Flag(true)), ("sig", Scalar.Text(sig))]
  }

  function Line(ms: seq<(string, Scalar)>): string
    requires ms != []
  {
    PrintObject(Serde, COMPACT, ms)
  }

  /** `fidolink::request` and `field`: a reply counts only with `ok` true. */
  function HelperField(line: string, name: string): Option<string> {
    match ParseObject(line)
    case None => None
    case Some(o) => if AsFlag(o, "ok") == Some(true) then AsText(o, name) else None
  }

  lemma LineParses(ms: seq<(string, Scalar)>, space: string)
    requires ms != [] && AllSpace(space)
    requires forall i :: 0 <= i < |ms| ==> ControlFree(ms[i].0)
    requires forall i, j :: 0 <= i < j < |ms| ==> ms[i].0 != ms[j].0
    ensures ParseObject(Line(ms) + space) == Some(Collect(Serde, ms, map[]))
    ensures var o := Collect(Serde, ms, map[]);
      && (forall i :: 0 <= i < |ms| ==> ms[i].0 in o && o[ms[i].0] == ms[i].1)
      && (forall key :: (forall i :: 0 <= i < |ms| ==> ms[i].0 != key) ==> key !in o)
  {
    ParsePrinted(Serde, COMPACT, ms, space);
    DistinctFields(Serde, ms);
    forall key | forall i :: 0 <= i < |ms| ==> ms[i].0 != key ensures key !in Collect(Serde, ms, map[]) {
      CollectKeeps(Serde, ms, map[], key);
    }
  }

  lemma HelperAssertKeys(ms: seq<(string, Scalar)>, rpId: string, credId: string, payload: string)
    requires ms == HelperAssert(rpId, credId, payload)
    ensures forall i, j :: 0 <= i < j < |ms| ==> ms[i].0 != ms[j].0
    ensures forall i :: 0 <= i < |ms| ==> ControlFree(ms[i].0)
  {
    assert |ms[0].0| == 6 && |ms[1].0| == 2 && |ms[2].0| == 7 && |ms[3].0| == 4;
  }

  lemma OperationIsAssert(o: Object)
    requires "op" in o && o["op"] == Scalar.Text("webauthn.assert")
    requires "rpId" in o && o["rpId"].Text? && "credId" in o && o["credId"].Text? && "payload" in o
        && o["payload"].Text?
    ensures PamSocket.OperationOf(o) == PamSocket.Assert(o["rpId"].text, o["credId"].text, o["payload"].text)
  {
    assert |"webauthn.makecred"| == 17 && |"webauthn.assert"| == 15;
  }

  /** The daemon understands the helper. */
  lemma DaemonReadsAssert(rpId: string, credId: string, payload: string)
    ensures PamSocket.ReadOperation(Line(HelperAssert(rpId, credId, payload)) + "\n")
         == Some(PamSocket.Assert(rpId, credId, payload))
  {
    var ms := HelperAssert(rpId, credId, payload);
    HelperAssertKeys(ms, rpId, credId, payload);
    LineParses(ms, "\n");
    var o := Collect(Serde, ms, map[]);
    assert ms[0].0 == "credId" && ms[1].0 == "op" && ms[2].0 == "payload" && ms[3].0 == "rpId";
    OperationIsAssert(o);
  }

  lemma PhoneAssertKeys(ms: seq<(string, Scalar)>, id: nat, rpId: string, credId: string, payload: string)
    requires ms == PhoneAssert(id, rpId, credId, payload)
    ensures forall i, j :: 0 <= i < j < |ms| ==> ms[i].0 != ms[j].0
    ensures forall i :: 0 <= i < |ms| ==> ControlFree(ms[i].0) && ms[i].0 != "t"
  {
    assert |ms[0].0| == 6 && |ms[1].0| == 2 && |ms[2].0| == 7 && |ms[3].0| == 4 && |ms[4].0| == 4 && |ms[5].0| == 1;
    assert ms[3].0[0] == 'r' && ms[4].0[0] == 't' && ms[5].0[0] == 'v';
    assert forall i, j :: 0 <= i < j < |ms| ==> |ms[i].0| != |ms[j].0| || ms[i].0[0] != ms[j].0[0];
  }

  lemma MessageIsAssert(raw: string, o: Object)
    requires "t" !in o && "type" in o && o["type"] == Scalar.Text("webauthn.assert")
    requires "id" in o && o["id"].Number? && o["id"].number <= Protocol.LONG_MAX
    requires "rpId" in o && o["rpId"].Text? && "credId" in o && o["credId"].Text? && "payload" in o
        && o["payload"].Text?
    ensures Protocol.ReadDesktopMessage(raw, o)
         == Some(Protocol.WebAuthnAssert(o["id"].number, o["rpId"].text, o["credId"].text, o["payload"].text))
  {
    assert |"webauthn.makecred"| == 17 && |"webauthn.assert"| == 15 && |"pair.result"| == 11;
  }

  /** The phone understands the daemon. */
  lemma PhoneReadsAssert(id: nat, rpId: string, credId: string, payload: string)
    requires id <= Protocol.LONG_MAX
    ensures Protocol.ParseDesktopMessage(Line(PhoneAssert(id, rpId, credId, payload)))
         == Some(Protocol.WebAuthnAssert(id, rpId, credId, payload))
  {
    var ms := PhoneAssert(id, rpId, credId, payload);
    PhoneAssertKeys(ms, id, rpId, credId, payload);
    LineParses(ms, "");
    assert Line(ms) + "" == Line(ms);
    var o := Collect(Serde, ms, map[]);
    assert ms[0].0 == "credId" && ms[1].0 == "id" && ms[2].0 == "payload" && ms[3].0 == "rpId" && ms[4].0 == "type";
    MessageIsAssert(Line(ms), o);
  }

  /** The helper gets back the text of the signature the phone sent. */
  lemma HelperReadsSignature(sig: string)
    ensures HelperField(Line(DaemonSigned(sig)) + "\n", "sig") == Some(sig)
  {
    var ms := DaemonSigned(sig);
    assert |ms[0].0| == 2 && |ms[1].0| == 3;
    LineParses(ms, "\n");
    assert ms[0].0 == "ok" && ms[1].0 == "sig";
  }

  function DaemonCreated(credId: string, pem: string): seq<(string, Scalar)> {
    [("credId", Scalar.Text(credId)), ("ok", Flag(true)), ("publicKeyPem", Scalar.Text(pem))]
  }

  /** A new credential's two texts reach the helper as the daemon read them. */
  lemma HelperReadsCredential(credId: string, pem: string)
    ensures HelperField(Line(DaemonCreated(credId, pem)) + "\n", "credId") == Some(credId)
    ensures HelperField(Line(DaemonCreated(credId, pem)) + "\n", "publicKeyPem") == Some(pem)
  {
    var ms := DaemonCreated(credId, pem);
    assert |ms[0].0| == 6 && |ms[1].0| == 2 && |ms[2].0| == 12;
    LineParses(ms, "\n");
    assert ms[0].0 == "credId" && ms[1].0 == "ok" && ms[2].0 == "publicKeyPem";
  }

  // ---- The helper's two operations (uhid.rs) -----------------------------------------------

  function Serialised(reply: Cbor.Value): Option<seq<byte>> {
    if Cbor.Encodable(reply) then Some(Cbor.Encode(reply)) else None
  }

  /** `assert_credential`: the first credential the site names is asked for; `sha` is the digest,
      and `phone` what the daemon answers to (rp id, credential id, payload). */
  function AssertCredential(
    body: seq<byte>, sha: seq<byte> -> seq<byte>, phone: (string, string, string) -> Option<string>): Option<seq<byte>>
  {
    match ParseGetAssertion(body)
    case None => None
    case Some(r) =>
      if r.allowed == [] then None
      else
        match phone(Units(r.rpId), Base64.Encode(Base64.UrlSafe, r.allowed[0]), Payload(r, sha))
        case None => None
        case Some(text) =>
          match Base64.Decode(Base64.Standard, Base64.Rust, text)
          case None => None
          case Some(signature) =>
            Serialised(GetAssertionReply(r.allowed[0], AssertionData(r, sha), signature))
  }

  /** CBOR has heads for their lengths. */
  predicate AssertionFits(r: GetAssertion, sha: seq<byte> -> seq<byte>, signature: seq<byte>)
    requires r.allowed != []
  {
    |r.allowed[0]| < U64_LIMIT && |AssertionData(r, sha)| < U64_LIMIT && |signature| < U64_LIMIT
  }

  function AssertionData(r: GetAssertion, sha: seq<byte> -> seq<byte>): seq<byte> {
    AuthenticatorData(sha(r.rpId), PRESENT + VERIFIED, 0, [])
  }

  function Payload(r: GetAssertion, sha: seq<byte> -> seq<byte>): string {
    Base64.Encode(Base64.Standard, AssertionData(r, sha) + r.clientDataHash)
  }

  /** The bytes the phone signs when it is shown a message. */
  function SignedBytes(m: Protocol.DesktopMessage): Option<seq<byte>>
    requires m.WebAuthnAssert?
  {
    Base64.Decode(Base64.Standard, Base64.Java, m.payload)
  }

  /** The keystore entry the phone signs with. */
  function Alias(credId: string): string {
    "kpasskey.cred." + credId
  }

  /** What the daemon tells the phone when the helper asks. */
  function Relayed(id: nat, line: string): Option<Protocol.DesktopMessage> {
    match PamSocket.ReadOperation(line)
    case Some(Assert(rpId, credId, payload)) =>
      Protocol.ParseDesktopMessage(Line(PhoneAssert(id, rpId, credId, payload)))
    case _ => None
  }

  lemma RelayedWhole(id: nat, rpId: string, credId: string, payload: string)
    requires id <= Protocol.LONG_MAX
    ensures Relayed(id, Line(HelperAssert(rpId, credId, payload)) + "\n")
         == Some(Protocol.WebAuthnAssert(id, rpId, credId, payload))
  {
    DaemonReadsAssert(rpId, credId, payload);
    PhoneReadsAssert(id, rpId, credId, payload);
  }

  /** The phone is asked for the site and the credential the browser named, and signs the
      authenticator data the browser will get followed by the request's client data hash. */
  lemma PhoneSignsWhatIsReturned(r: GetAssertion, sha: seq<byte> -> seq<byte>, id: nat)
    requires r.allowed != [] && id <= Protocol.LONG_MAX
    ensures var line := Line(HelperAssert(Units(r.rpId), Base64.Encode(Base64.UrlSafe, r.allowed[0]),
        Payload(r, sha))) + "\n";
      var m := Relayed(id, line);
      && m.Some? && m.value.WebAuthnAssert?
      && m.value.id == id && m.value.rpId == Units(r.rpId)
      && m.value.credentialId == Base64.Encode(Base64.UrlSafe, r.allowed[0])
      && SignedBytes(m.value) == Some(AssertionData(r, sha) + r.clientDataHash)
  {
    RelayedWhole(id, Units(r.rpId), Base64.Encode(Base64.UrlSafe, r.allowed[0]), Payload(r, sha));
    Base64.DecodeEncode(Base64.Standard, Base64.Java, AssertionData(r, sha) + r.clientDataHash);
  }

  /** `webauthn_assert`: what the helper is told when the phone's object holds a signature. */
  function SignedLine(value: Object): Option<string> {
    match AsText(value, "sig") case Some(text) => Some(Line(DaemonSigned(text))) case None => None
  }

  /** What the helper hears when the phone has signed: the approval line, read by the daemon and
      passed on. */
  function PassedOn(id: nat, signature: seq<byte>): Option<string> {
    match SignedLine(Protocol.ReadReply(Protocol.ApprovalLine(id, signature)).value)
    case None => None
    case Some(line) => HelperField(line + "\n", "sig")
  }

  /** The phone has signed, and the daemon has passed that on for this very request. */
  predicate PhoneSigns(r: GetAssertion, sha: seq<byte> -> seq<byte>, id: nat, signature: seq<byte>,
                       phone: (string, string, string) -> Option<string>)
    requires r.allowed != []
  {
    phone(Units(r.rpId), Base64.Encode(Base64.UrlSafe, r.allowed[0]), Payload(r, sha)) == PassedOn(id, signature)
  }

  lemma SignedAnswer(body: seq<byte>, r: GetAssertion, sha: seq<byte> -> seq<byte>, signature: seq<byte>,
                     phone: (string, string, string) -> Option<string>)
    requires r.allowed != []
    ensures var text := phone(Units(r.rpId), Base64.Encode(Base64.UrlSafe, r.allowed[0]), Payload(r, sha));
      ParseGetAssertion(body) == Some(r) && text == Some(Base64.Encode(Base64.Standard, signature)) ==>
        AssertCredential(body, sha, phone)
        == Serialised(GetAssertionReply(r.allowed[0], AssertionData(r, sha), signature))
  {
    Base64.DecodeEncode(Base64.Standard, Base64.Rust, signature);
  }

  /** A browser's request is answered, whatever else it holds and for whatever signature the phone
      makes, with the credential it named, the authenticator data that was signed, and that signature. */
  lemma AssertionAnswered(
    entries: seq<Cbor.Entry>, rest: seq<byte>, r: GetAssertion, sha: seq<byte> -> seq<byte>, id: nat,
    signature: seq<byte>, phone: (string, string, string) -> Option<string>)
    requires Cbor.Encodable(Cbor.Map(entries)) && AsksToSignIn(entries, r) && r.allowed != []
    requires |AssertionData(r, sha)| < U64_LIMIT && |signature| < U64_LIMIT
    ensures PhoneSigns(r, sha, id, signature, phone) ==>
      var answer := AssertCredential(Cbor.Encode(Cbor.Map(entries)) + rest, sha, phone);
      answer.Some? && ReadGetAssertion(answer.value) == Some((r.allowed[0], AssertionData(r, sha), signature))
  {
    GetAssertionUnderstood(entries, rest, r);
    AllowedFit(entries);
    SignaturePassedOn(id, signature);
    SignedAnswer(Cbor.Encode(Cbor.Map(entries)) + rest, r, sha, signature, phone);
    GetAssertionRead(r.allowed[0], AssertionData(r, sha), signature);
  }

  lemma SignaturePassedOn(id: nat, signature: seq<byte>)
    ensures PassedOn(id, signature) == Some(Base64.Encode(Base64.Standard, signature))
  {
    Protocol.DaemonReadsApproval(id, signature);
    HelperReadsSignature(Base64.Encode(Base64.Standard, signature));
  }

  /** `create_credential` from the phone's answer on: the id as text and the key's coordinates. */
  function CreateCredential(rpId: seq<byte>, sha: seq<byte> -> seq<byte>, credId: string, x: seq<byte>, y: seq<byte>)
    : Option<seq<byte>>
  {
    match (Base64.Decode(Base64.UrlSafe, Base64.Rust, credId), CoseKey(x, y))
    case (Some(id), Some(cose)) =>
      (match AttestedCredentialData(id, cose)
       case None => None
       case Some(attested) =>
         Serialised(MakeCredentialMap(AuthenticatorData(sha(rpId), PRESENT + VERIFIED + ATTESTED, 0, attested))))
    case _ => None
  }

  /** Whatever id the phone made is the one the site stores, and asking for what the site stored
      leads back to the same keystore entry. */
  lemma CredentialRoundTrip(rpId: seq<byte>, sha: seq<byte> -> seq<byte>, credId: string, x: seq<byte>, y: seq<byte>)
    requires |sha(rpId)| == 32
    requires CreateCredential(rpId, sha, credId, x, y).Some?
    ensures var authData := ReadMakeCredential(CreateCredential(rpId, sha, credId, x, y).value);
      && authData.Some? && ReadAuthData(authData.value).Some?
      && var read := ReadAuthData(authData.value).value;
         && read.rpIdHash == sha(rpId) && read.flags == 0x45 && read.signCount == 0 && read.extensions == None
         && read.credential.Some? && read.credential.value.x == x && read.credential.value.y == y
         && Alias(Base64.Encode(Base64.UrlSafe, read.credential.value.id)) == Alias(credId)
  {
    var id := Base64.Decode(Base64.UrlSafe, Base64.Rust, credId).value;
    var attested := AttestedCredentialData(id, CoseKey(x, y).value).value;
    CoseKeyShape(x, y);
    HeaderRead(sha(rpId), PRESENT + VERIFIED + ATTESTED, 0, attested);
    MakeCredentialRead(AuthenticatorData(sha(rpId), PRESENT + VERIFIED + ATTESTED, 0, attested));
    AuthDataRead(sha(rpId), PRESENT + VERIFIED + ATTESTED, 0, id, x, y);
    Base64.EncodeDecode(Base64.UrlSafe, credId);
  }

  /** And the ids the phone makes, of any length a record can hold, are accepted. */
  lemma PhoneCredentialAccepted(rpId: seq<byte>, sha: seq<byte> -> seq<byte>, raw: seq<byte>, x: seq<byte>,
      y: seq<byte>)
    requires |sha(rpId)| == 32 && |raw| < 0x1_0000 && |x| == 32 && |y| == 32
    ensures CreateCredential(rpId, sha, Base64.Encode(Base64.UrlSafe, raw), x, y).Some?
  {
    Base64.DecodeEncode(Base64.UrlSafe, Base64.Rust, raw);
    CoseKeyShape(x, y);
    var attested := AttestedCredentialData(raw, CoseKey(x, y).value).value;
    HeaderRead(sha(rpId), PRESENT + VERIFIED + ATTESTED, 0, attested);
    MakeCredentialRead(AuthenticatorData(sha(rpId), PRESENT + VERIFIED + ATTESTED, 0, attested));
  }
}

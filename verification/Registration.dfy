/** A new credential on its way: the browser's registration request to the phone, and the id and
    the key the phone made back to the browser. */
module Registration {
  import opened Wrappers
  import opened Numbers
  import opened Bytes
  import opened Json
  import opened WebAuthn
  import opened WebAuthnFlow
  import Base64
  import Cbor
  import Protocol
  import PamSocket

  // ---- The lines (fidolink.rs, server.rs) --------------------------------------------------

  function HelperCreate(rpId: string, userName: string): seq<(string, Scalar)> {
    [("op", Scalar.Text("webauthn.makecred")), ("rpId", Scalar.Text(rpId)), ("userName", Scalar.Text(userName))]
  }

  function PhoneCreate(id: nat, rpId: string, userName: string): seq<(string, Scalar)> {
    [("id", Number(id)), ("rpId", Scalar.Text(rpId)), ("type", Scalar.Text("webauthn.makecred")),
     ("userName", Scalar.Text(userName)), ("v", Number(1))]
  }

  lemma HelperCreateKeys(ms: seq<(string, Scalar)>, rpId: string, userName: string)
    requires ms == HelperCreate(rpId, userName)
    ensures forall i, j :: 0 <= i < j < |ms| ==> ms[i].0 != ms[j].0
    ensures forall i :: 0 <= i < |ms| ==> ControlFree(ms[i].0)
  {
    assert |ms[0].0| == 2 && |ms[1].0| == 4 && |ms[2].0| == 8;
  }

  lemma OperationIsCreate(o: Object)
    requires "op" in o && o["op"] == Scalar.Text("webauthn.makecred")
    requires "rpId" in o && o["rpId"].Text? && "userName" in o && o["userName"].Text?
    ensures PamSocket.OperationOf(o) == PamSocket.MakeCredential(o["rpId"].text, o["userName"].text)
  {
  }

  lemma DaemonReadsCreate(rpId: string, userName: string)
    ensures PamSocket.ReadOperation(Line(HelperCreate(rpId, userName)) + "\n")
         == Some(PamSocket.MakeCredential(rpId, userName))
  {
    var ms := HelperCreate(rpId, userName);
    HelperCreateKeys(ms, rpId, userName);
    LineParses(ms, "\n");
    assert ms[0].0 == "op" && ms[1].0 == "rpId" && ms[2].0 == "userName";
    OperationIsCreate(Collect(Serde, ms, map[]));
  }

  lemma PhoneCreateKeys(ms: seq<(string, Scalar)>, id: nat, rpId: string, userName: string)
    requires ms == PhoneCreate(id, rpId, userName)
    ensures forall i, j :: 0 <= i < j < |ms| ==> ms[i].0 != ms[j].0
    ensures forall i :: 0 <= i < |ms| ==> ControlFree(ms[i].0) && ms[i].0 != "t"
  {
    assert |ms[0].0| == 2 && |ms[1].0| == 4 && |ms[2].0| == 4 && |ms[3].0| == 8 && |ms[4].0| == 1;
    assert ms[1].0[0] == 'r' && ms[2].0[0] == 't' && ms[4].0[0] == 'v';
    assert forall i, j :: 0 <= i < j < |ms| ==> |ms[i].0| != |ms[j].0| || ms[i].0[0] != ms[j].0[0];
  }

  lemma MessageIsCreate(raw: string, o: Object)
    requires "t" !in o && "type" in o && o["type"] == Scalar.Text("webauthn.makecred")
    requires "id" in o && o["id"].Number? && o["id"].number <= Protocol.LONG_MAX
    requires "rpId" in o && o["rpId"].Text? && "userName" in o && o["userName"].Text?
    ensures Protocol.ReadDesktopMessage(raw, o)
         == Some(Protocol.WebAuthnCreate(o["id"].number, o["rpId"].text, o["userName"].text))
  {
    assert |"pair.result"| == 11;
  }

  lemma PhoneReadsCreate(id: nat, rpId: string, userName: string)
    requires id <= Protocol.LONG_MAX
    ensures Protocol.ParseDesktopMessage(Line(PhoneCreate(id, rpId, userName)))
         == Some(Protocol.WebAuthnCreate(id, rpId, userName))
  {
    var ms := PhoneCreate(id, rpId, userName);
    PhoneCreateKeys(ms, id, rpId, userName);
    LineParses(ms, "");
    assert Line(ms) + "" == Line(ms);
    assert ms[0].0 == "id" && ms[1].0 == "rpId" && ms[2].0 == "type" && ms[3].0 == "userName";
    MessageIsCreate(Line(ms), Collect(Serde, ms, map[]));
  }

  /** What the daemon tells the phone when the helper asks for a credential. */
  function RelayedCreate(id: nat, line: string): Option<Protocol.DesktopMessage> {
    match PamSocket.ReadOperation(line)
    case Some(MakeCredential(rpId, userName)) => Protocol.ParseDesktopMessage(Line(PhoneCreate(id, rpId, userName)))
    case _ => None
  }

  /** The phone asks its user about the very site and name the helper was given. */
  lemma PhoneShowsRegistration(id: nat, rpId: string, userName: string)
    requires id <= Protocol.LONG_MAX
    ensures RelayedCreate(id, Line(HelperCreate(rpId, userName)) + "\n")
        == Some(Protocol.WebAuthnCreate(id, rpId, userName))
  {
    DaemonReadsCreate(rpId, userName);
    PhoneReadsCreate(id, rpId, userName);
  }

  // ---- The whole registration --------------------------------------------------------------

  /** `webauthn_make_credential`: what the helper is told when the phone's object holds an id and a
      key that the daemon can use. */
  function CreatedLine(value: Object, point: string -> Option<(seq<byte>, seq<byte>)>): Option<string> {
    match (AsText(value, "credId"), AsText(value, "publicKeyPem"))
    case (Some(credId), Some(pem)) => if point(pem).Some? then Some(Line(DaemonCreated(credId, pem))) else None
    case _ => None
  }

  /** The helper's two fields of a reply. */
  function HelperCredential(line: string): Option<(string, string)> {
    match (HelperField(line, "credId"), HelperField(line, "publicKeyPem"))
    case (Some(credId), Some(pem)) => Some((credId, pem))
    case _ => None
  }

  /** The id and the key the phone made, as the daemon reads its line and the helper the daemon's. */
  function PassedBack(id: nat, credId: string, pem: string, point: string -> Option<(seq<byte>, seq<byte>)>)
    : Option<(string, string)>
  {
    match CreatedLine(Protocol.ReadReply(Protocol.CredentialLine(id, credId, pem)).value, point)
    case None => None
    case Some(line) => HelperCredential(line + "\n")
  }

  /** `create_credential`; `phone` is what the daemon answers to (rp id, user name) and `point`
      reads the coordinates out of a PEM text. */
  function CreateFrom(
    body: seq<byte>, sha: seq<byte> -> seq<byte>, phone: (string, string) -> Option<(string, string)>,
    point: string -> Option<(seq<byte>, seq<byte>)>): Option<seq<byte>>
  {
    match ParseMakeCredential(body)
    case None => None
    case Some(r) =>
      match phone(Units(r.rpId), Units(r.userName))
      case None => None
      case Some((credId, pem)) =>
        match point(pem)
        case None => None
        case Some((x, y)) => CreateCredential(r.rpId, sha, credId, x, y)
  }

  lemma PassedBackWhole(id: nat, credId: string, pem: string, point: string -> Option<(seq<byte>, seq<byte>)>)
    ensures PassedBack(id, credId, pem, point) == if point(pem).Some? then Some((credId, pem)) else None
  {
    Protocol.DaemonReadsCredential(id, credId, pem);
    HelperReadsCredential(credId, pem);
  }

  lemma CreateFromAnswer(
    body: seq<byte>, r: MakeCredential, sha: seq<byte> -> seq<byte>,
    phone: (string, string) -> Option<(string, string)>,
    point: string -> Option<(seq<byte>, seq<byte>)>, credId: string, pem: string, x: seq<byte>, y: seq<byte>)
    requires ParseMakeCredential(body) == Some(r) && phone(Units(r.rpId), Units(r.userName)) == Some((credId, pem))
    requires point(pem) == Some((x, y))
    ensures CreateFrom(body, sha, phone, point) == CreateCredential(r.rpId, sha, credId, x, y)
  {
  }

  /** The phone has made a credential, and the daemon has passed it back for this site and user. */
  predicate PhoneCreates(
    rpId: seq<byte>, userName: seq<byte>, phone: (string, string) -> Option<(string, string)>,
    point: string -> Option<(seq<byte>, seq<byte>)>, id: nat, raw: seq<byte>, pem: string, x: seq<byte>, y: seq<byte>)
  {
    && phone(Units(rpId), Units(userName)) == PassedBack(id, Base64.Encode(Base64.UrlSafe, raw), pem, point)
    && point(pem) == Some((x, y))
  }

  /** A browser's registration is answered, whatever else it holds, with the id and the key that the
      phone made, under the hash of the site that asked. */
  lemma RegistrationAnswered(
    entries: seq<Cbor.Entry>, rest: seq<byte>, rpId: seq<byte>, userName: seq<byte>,
    sha: seq<byte> -> seq<byte>, phone: (string, string) -> Option<(string, string)>,
    point: string -> Option<(seq<byte>, seq<byte>)>, id: nat, raw: seq<byte>, pem: string, x: seq<byte>, y: seq<byte>)
    requires Cbor.Encodable(Cbor.Map(entries)) && AsksToRegister(entries, rpId, userName)
    requires |sha(rpId)| == 32 && |raw| < 0x1_0000 && |x| == 32 && |y| == 32
    requires PhoneCreates(rpId, userName, phone, point, id, raw, pem, x, y)
    ensures var answer := CreateFrom(Cbor.Encode(Cbor.Map(entries)) + rest, sha, phone, point);
      && answer.Some? && ReadMakeCredential(answer.value).Some?
      && ReadAuthData(ReadMakeCredential(answer.value).value)
         == Some(AuthData(sha(rpId), 0x45, 0, Some(Credential(AAGUID, raw, x, y)), None))
  {
    var credId := Base64.Encode(Base64.UrlSafe, raw);
    MakeCredentialUnderstood(entries, rest, rpId, userName);
    PassedBackWhole(id, credId, pem, point);
    CreateFromAnswer(Cbor.Encode(Cbor.Map(entries)) + rest, MakeCredential(rpId, userName), sha, phone, point,
                     credId, pem, x, y);
    CreatedRead(rpId, sha, raw, x, y);
  }

  /** The authenticator data of a new credential. */
  function CreatedData(rpIdHash: seq<byte>, raw: seq<byte>, x: seq<byte>, y: seq<byte>): seq<byte>
    requires |rpIdHash| == 32 && |raw| < 0x1_0000 && |x| == 32 && |y| == 32
  {
    AuthenticatorData(rpIdHash, 0x45, 0, AttestedCredentialData(raw, CoseKey(x, y).value).value)
  }

  lemma CreatedWith(rpId: seq<byte>, sha: seq<byte> -> seq<byte>, credId: string, x: seq<byte>, y: seq<byte>,
      id: seq<byte>, cose: seq<byte>, attested: seq<byte>)
    requires Base64.Decode(Base64.UrlSafe, Base64.Rust, credId) == Some(id)
    requires CoseKey(x, y) == Some(cose) && AttestedCredentialData(id, cose) == Some(attested)
    ensures CreateCredential(rpId, sha, credId, x, y)
         == Serialised(MakeCredentialMap(AuthenticatorData(sha(rpId), 0x45, 0, attested)))
  {
    assert PRESENT + VERIFIED + ATTESTED == 0x45;
  }

  lemma CreatedAs(rpId: seq<byte>, sha: seq<byte> -> seq<byte>, raw: seq<byte>, x: seq<byte>, y: seq<byte>)
    requires |sha(rpId)| == 32 && |raw| < 0x1_0000 && |x| == 32 && |y| == 32
    ensures CreateCredential(rpId, sha, Base64.Encode(Base64.UrlSafe, raw), x, y)
         == Serialised(MakeCredentialMap(CreatedData(sha(rpId), raw, x, y)))
  {
    var cose := CoseKey(x, y).value;
    Base64.DecodeEncode(Base64.UrlSafe, Base64.Rust, raw);
    CreatedWith(rpId, sha, Base64.Encode(Base64.UrlSafe, raw), x, y, raw, cose,
                AttestedCredentialData(raw, cose).value);
  }

  lemma CreatedFits(rpIdHash: seq<byte>, raw: seq<byte>, x: seq<byte>, y: seq<byte>)
    requires |rpIdHash| == 32 && |raw| < 0x1_0000 && |x| == 32 && |y| == 32
    ensures |CreatedData(rpIdHash, raw, x, y)| == 132 + |raw|
  {
    CoseKeyShape(x, y);
    HeaderRead(rpIdHash, 0x45, 0, AttestedCredentialData(raw, CoseKey(x, y).value).value);
  }

  lemma CreatedDataRead(rpIdHash: seq<byte>, raw: seq<byte>, x: seq<byte>, y: seq<byte>)
    requires |rpIdHash| == 32 && |raw| < 0x1_0000 && |x| == 32 && |y| == 32
    ensures ReadAuthData(CreatedData(rpIdHash, raw, x, y))
         == Some(AuthData(rpIdHash, 0x45, 0, Some(Credential(AAGUID, raw, x, y)), None))
  {
    AuthDataRead(rpIdHash, 0x45, 0, raw, x, y);
  }

  lemma CreatedRead(rpId: seq<byte>, sha: seq<byte> -> seq<byte>, raw: seq<byte>, x: seq<byte>, y: seq<byte>)
    requires |sha(rpId)| == 32 && |raw| < 0x1_0000 && |x| == 32 && |y| == 32
    ensures var answer := CreateCredential(rpId, sha, Base64.Encode(Base64.UrlSafe, raw), x, y);
      && answer.Some? && ReadMakeCredential(answer.value).Some?
      && ReadAuthData(ReadMakeCredential(answer.value).value)
         == Some(AuthData(sha(rpId), 0x45, 0, Some(Credential(AAGUID, raw, x, y)), None))
  {
    CreatedFits(sha(rpId), raw, x, y);
    MakeCredentialRead(CreatedData(sha(rpId), raw, x, y));
    CreatedDataRead(sha(rpId), raw, x, y);
    CreatedAs(rpId, sha, raw, x, y);
  }
}

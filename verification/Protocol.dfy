/** The line protocol between the daemon and the phone: the request the phone signs, the replies,
    and the newline framing that carries them. */
module Protocol {
  import opened Wrappers
  import opened Numbers
  import opened Bytes
  import opened Json
  import Base64

  // ---- The daemon's end (protocol.rs) ---------------------------------------------------

  datatype Request = Request(
    id: nat, challenge: seq<byte>, user: string, host: string, action: string, detail: string)

  /** `serde_json` keeps object keys in a sorted map, so that is the order on the wire. */
  function RequestMembers(r: Request): seq<(string, Scalar)> {
    [("action", Text(r.action)),
     ("challenge", Text(Base64.Encode(Base64.Standard, r.challenge))),
     ("detail", Text(r.detail)),
     ("host", Text(r.host)),
     ("id", Number(r.id)),
     ("type", Text("verify.request")),
     ("user", Text(r.user)),
     ("v", Number(1))]
  }

  function ToLine(r: Request): string {
    PrintObject(Serde, COMPACT, RequestMembers(r))
  }

  datatype Answer = Signed(signature: seq<byte>) | Refused(reason: string)

  datatype Response = Response(id: nat, answer: Answer)

  function ParseResponse(line: string): Option<Response> {
    match ParseObject(line)
    case None => None
    case Some(o) => ReadResponse(o)
  }

  function ReadResponse(o: Object): Option<Response> {
    match AsU64(o, "id")
    case None => None
    case Some(id) =>
      match AsText(o, "denied")
      case Some(reason) => Some(Response(id, Refused(reason)))
      case None =>
        match AsText(o, "sig")
        case None => None
        case Some(sig) =>
          match Base64.Decode(Base64.Standard, Base64.Rust, sig)
          case None => None
          case Some(signature) => Some(Response(id, Signed(signature)))
  }

  /** What `deliver` learns from a line: the id for the first map, the object itself, and the
      answer for the second map. */
  datatype Reading = Reading(id: Option<nat>, value: Object, response: Option<Response>)

  /** The answer is for the id that was read. */
  predicate Coherent(r: Reading) {
    r.response.Some? ==> r.id == Some(r.response.value.id)
  }

  function ReadReply(line: string): (r: Reading)
    ensures Coherent(r)
  {
    match ParseObject(line)
    case None => Reading(None, map[], None)
    case Some(o) => Reading(AsU64(o, "id"), o, ReadResponse(o))
  }

  /** Pairing requests never reach `deliver`. */
  predicate IsPairRequest(line: string) {
    match ParseObject(line)
    case None => false
    case Some(o) => AsText(o, "t") == Some("pair.request")
  }

  // ---- The phone's end (Protocol.kt) ----------------------------------------------------

  datatype DesktopMessage =
    | Verify(raw: string, id: int, user: string, host: string, action: string, detail: string)
    | PairResult(ok: bool, deviceId: string, reason: string)
    | WebAuthnCreate(id: int, rpId: string, userName: string)
    | WebAuthnAssert(id: int, rpId: string, credentialId: string, payload: string)

  const LONG_MAX: nat := 0x7fff_ffff_ffff_ffff

  /** `optString` prints the numbers and booleans it meets. */
  function OptString(o: Object, key: string): string {
    if key !in o then ""
    else match o[key]
      case Text(s) => s
      case Number(n) => Decimal(n)
      case Flag(b) => if b then "true" else "false"
  }

  /** A number beyond a Kotlin `Long` is parsed as a double, and `longValue` saturates. Texts are
      not read as numbers here. */
  function OptLong(o: Object, key: string, fallback: int): int {
    if key in o && o[key].Number? then (if o[key].number <= LONG_MAX then o[key].number else LONG_MAX)
    else fallback
  }

  function ReadVerify(raw: string, o: Object): Option<DesktopMessage> {
    var id := OptLong(o, "id", -1);
    if id < 0 then None
    else Some(Verify(raw, id, OptString(o, "user"), OptString(o, "host"), OptString(o, "action"),
      OptString(o, "detail")))
  }

  function ReadDesktopMessage(raw: string, o: Object): Option<DesktopMessage> {
    if OptString(o, "t") == "pair.result" then
      Some(PairResult(AsFlag(o, "ok") == Some(true), OptString(o, "id"), OptString(o, "reason")))
    else
      var kind := OptString(o, "type");
      if kind == "webauthn.makecred" then
        Some(WebAuthnCreate(OptLong(o, "id", -1), OptString(o, "rpId"), OptString(o, "userName")))
      else if kind == "webauthn.assert" then
        Some(WebAuthnAssert(OptLong(o, "id", -1), OptString(o, "rpId"), OptString(o, "credId"),
          OptString(o, "payload")))
      else if kind == "verify.request" then ReadVerify(raw, o)
      else None
  }

  function ParseDesktopMessage(line: string): Option<DesktopMessage> {
    match ParseObject(line)
    case None => None
    case Some(o) => ReadDesktopMessage(line, o)
  }

  function ApprovalMembers(id: nat, signature: seq<byte>): seq<(string, Scalar)> {
    [("id", Number(id)), ("sig", Text(Base64.Encode(Base64.Standard, signature)))]
  }

  function ApprovalLine(id: nat, signature: seq<byte>): string {
    PrintObject(Phone, COMPACT, ApprovalMembers(id, signature))
  }

  function DenialMembers(id: nat, reason: string): seq<(string, Scalar)> {
    [("id", Number(id)), ("denied", Text(reason))]
  }

  function DenialLine(id: nat, reason: string): string {
    PrintObject(Phone, COMPACT, DenialMembers(id, reason))
  }

  /** A new credential's id and public key. */
  function CredentialMembers(id: nat, credId: string, pem: string): seq<(string, Scalar)> {
    [("id", Number(id)), ("credId", Text(credId)), ("publicKeyPem", Text(pem))]
  }

  function CredentialLine(id: nat, credId: string, pem: string): string {
    PrintObject(Phone, COMPACT, CredentialMembers(id, credId, pem))
  }

  // ---- Framing: `readLine` on the phone --------------------------------------------------

  /** The lines of a stream that has ended; `partial` is the text of the line being read, and
      `afterReturn` says that a carriage return has just ended one. */
  function Lines(stream: string, partial: string, afterReturn: bool): seq<string> {
    if stream == "" then (if partial == "" then [] else [partial])
    else if stream[0] == '\n' && afterReturn then Lines(stream[1..], "", false)
    else if stream[0] == '\n' then [partial] + Lines(stream[1..], "", false)
    else if stream[0] == '\r' then [partial] + Lines(stream[1..], "", true)
    else Lines(stream[1..], partial + [stream[0]], false)
  }

  /** What `send_line` puts on the wire for each line in turn. */
  function Wire(lines: seq<string>): string {
    if lines == [] then "" else lines[0] + "\n" + Wire(lines[1..])
  }

  lemma {:induction false} LinesSkip(line: string, rest: string, partial: string)
    requires ControlFree(line)
    ensures Lines(line + ("\n" + rest), partial, false) == [partial + line] + Lines(rest, "", false)
    decreases |line|
  {
    var s := line + ("\n" + rest);
    if line == "" {
      assert s[1..] == rest && partial + line == partial;
    } else {
      SplitHead(line, "\n" + rest);
      LinesSkip(line[1..], rest, partial + [line[0]]);
      assert partial + [line[0]] + line[1..] == partial + line;
    }
  }

  /** Lines without control characters arrive whole, in order and byte for byte. */
  lemma {:induction false} FramingDelivers(lines: seq<string>)
    requires forall i :: 0 <= i < |lines| ==> ControlFree(lines[i])
    ensures Lines(Wire(lines), "", false) == lines
  {
    if lines != [] {
      LinesSkip(lines[0], Wire(lines[1..]), "");
      assert Wire(lines) == lines[0] + ("\n" + Wire(lines[1..]));
      FramingDelivers(lines[1..]);
      assert "" + lines[0] == lines[0];
    }
  }

  // ---- The request line ------------------------------------------------------------------

  lemma ToLineControlFree(r: Request)
    ensures ControlFree(ToLine(r))
  {
    PrintControlFree(Serde, RequestMembers(r));
  }

  lemma ParseRequest(r: Request)
    ensures ParseObject(ToLine(r)) == Some(Collect(Serde, RequestMembers(r), map[]))
  {
    ParsePrinted(Serde, COMPACT, RequestMembers(r), "");
    assert ToLine(r) + "" == ToLine(r);
  }

  lemma RequestKeysDiffer(r: Request, ms: seq<(string, Scalar)>)
    requires ms == RequestMembers(r)
    ensures forall i, j :: 0 <= i < j < 8 ==> ms[i].0 != ms[j].0
    ensures forall i :: 0 <= i < 8 ==> ms[i].0 != "t" && ControlFree(ms[i].0)
  {
    assert |ms[0].0| == 6 && |ms[1].0| == 9 && |ms[2].0| == 6 && |ms[3].0| == 4;
    assert |ms[4].0| == 2 && |ms[5].0| == 4 && |ms[6].0| == 4 && |ms[7].0| == 1 && |"t"| == 1;
    assert ms[0].0[0] == 'a' && ms[2].0[0] == 'd' && ms[3].0[0] == 'h' && ms[5].0[0] == 't' && ms[6].0[0] == 'u'
      && ms[7].0[0] == 'v';
    assert forall i, j :: 0 <= i < j < 8 ==> |ms[i].0| != |ms[j].0| || ms[i].0[0] != ms[j].0[0];
  }

  lemma RequestObject(r: Request, ms: seq<(string, Scalar)>)
    requires ms == RequestMembers(r)
    ensures var o := Collect(Serde, ms, map[]);
      "t" !in o && forall i :: 0 <= i < 8 ==> ms[i].0 in o && o[ms[i].0] == ms[i].1
  {
    RequestKeysDiffer(r, ms);
    DistinctFields(Serde, ms);
    CollectKeeps(Serde, ms, map[], "t");
  }

  lemma RequestShownFields(r: Request, ms: seq<(string, Scalar)>, o: Object)
    requires ms == RequestMembers(r) && forall i :: 0 <= i < 8 ==> ms[i].0 in o && o[ms[i].0] == ms[i].1
    ensures "action" in o && o["action"] == Text(r.action)
    ensures "detail" in o && o["detail"] == Text(r.detail)
    ensures "host" in o && o["host"] == Text(r.host)
    ensures "user" in o && o["user"] == Text(r.user)
  {
    assert ms[0].0 == "action" && ms[2].0 == "detail" && ms[3].0 == "host" && ms[6].0 == "user";
  }

  lemma RequestOtherFields(r: Request, ms: seq<(string, Scalar)>, o: Object)
    requires ms == RequestMembers(r) && forall i :: 0 <= i < 8 ==> ms[i].0 in o && o[ms[i].0] == ms[i].1
    ensures "challenge" in o && o["challenge"] == Text(Base64.Encode(Base64.Standard, r.challenge))
    ensures "id" in o && o["id"] == Number(r.id)
    ensures "type" in o && o["type"] == Text("verify.request")
  {
    assert ms[1].0 == "challenge" && ms[4].0 == "id" && ms[5].0 == "type";
  }

  lemma RequestFields(r: Request)
    ensures var o := Collect(Serde, RequestMembers(r), map[]);
      && "t" !in o
      && "action" in o && o["action"] == Text(r.action)
      && "challenge" in o && o["challenge"] == Text(Base64.Encode(Base64.Standard, r.challenge))
      && "detail" in o && o["detail"] == Text(r.detail)
      && "host" in o && o["host"] == Text(r.host)
      && "id" in o && o["id"] == Number(r.id)
      && "type" in o && o["type"] == Text("verify.request")
      && "user" in o && o["user"] == Text(r.user)
  {
    var ms := RequestMembers(r);
    RequestObject(r, ms);
    RequestShownFields(r, ms, Collect(Serde, ms, map[]));
    RequestOtherFields(r, ms, Collect(Serde, ms, map[]));
  }

  lemma ReadDesktopVerify(raw: string, o: Object)
    requires "t" !in o && "type" in o && o["type"] == Text("verify.request")
    ensures ReadDesktopMessage(raw, o) == ReadVerify(raw, o)
  {
    assert |"webauthn.makecred"| == 17 && |"webauthn.assert"| == 15 && |"verify.request"| == 14;
    assert |"pair.result"| == 11;
  }

  /** The phone shows exactly what the daemon put in the line, signs that very line, and answers
      under the same id if and only if the id fits a Kotlin `Long`. */
  lemma PhoneReadsRequest(r: Request)
    ensures var m := ParseDesktopMessage(ToLine(r));
      && m.Some? && m.value.Verify?
      && m.value.raw == ToLine(r)
      && m.value.user == r.user && m.value.host == r.host
      && m.value.action == r.action && m.value.detail == r.detail
      && (m.value.id == r.id <==> r.id < 0x8000_0000_0000_0000)
  {
    var o := Collect(Serde, RequestMembers(r), map[]);
    ParseRequest(r);
    RequestFields(r);
    ReadDesktopVerify(ToLine(r), o);
    assert ParseDesktopMessage(ToLine(r)) == ReadVerify(ToLine(r), o);
  }

  /** The signed bytes determine the whole request, and so everything the user is shown. */
  lemma LineDeterminesRequest(a: Request, b: Request)
    requires ToLine(a) == ToLine(b)
    ensures a == b
  {
    ParseRequest(a);
    ParseRequest(b);
    RequestFields(a);
    RequestFields(b);
    Base64.DecodeEncode(Base64.Standard, Base64.Rust, a.challenge);
    Base64.DecodeEncode(Base64.Standard, Base64.Rust, b.challenge);
  }

  /** Any number of requests sent back to back reach the phone whole and in order. */
  lemma RequestsDelivered(requests: seq<Request>, lines: seq<string>)
    requires |lines| == |requests| && forall i :: 0 <= i < |lines| ==> lines[i] == ToLine(requests[i])
    ensures Lines(Wire(lines), "", false) == lines
  {
    forall i | 0 <= i < |lines| ensures ControlFree(lines[i]) {
      ToLineControlFree(requests[i]);
    }
    FramingDelivers(lines);
  }

  // ---- The replies -----------------------------------------------------------------------

  lemma ParseReply(ms: seq<(string, Scalar)>)
    requires |ms| == 2 && ms[0].0 == "id" && ms[1].0 in {"sig", "denied"} && ms[1].1.Text?
    ensures ParseObject(PrintObject(Phone, COMPACT, ms))
        == Some(map["id" := KeptScalar(Phone, ms[0].1), ms[1].0 := ms[1].1])
  {
    ParsePrinted(Phone, COMPACT, ms, "");
    assert PrintObject(Phone, COMPACT, ms) + "" == PrintObject(Phone, COMPACT, ms);
    KeptAll(Phone, ms[0].0);
    KeptAll(Phone, ms[1].0);
    KeptAll(Phone, ms[1].1.text);
    assert ms[1..] == [ms[1]];
    assert Collect(Phone, ms[1..], map["id" := KeptScalar(Phone, ms[0].1)])
        == map["id" := KeptScalar(Phone, ms[0].1), ms[1].0 := ms[1].1];
  }

  /** The daemon decodes an approval to the signature the phone made, `/` and `+` included. */
  lemma DaemonReadsApproval(id: nat, signature: seq<byte>)
    ensures ParseResponse(ApprovalLine(id, signature))
         == if id < U64_LIMIT then Some(Response(id, Signed(signature))) else None
    ensures !IsPairRequest(ApprovalLine(id, signature))
    ensures AsText(ReadReply(ApprovalLine(id, signature)).value, "sig")
        == Some(Base64.Encode(Base64.Standard, signature))
  {
    var ms := ApprovalMembers(id, signature);
    ParseReply(ms);
    Base64.DecodeEncode(Base64.Standard, Base64.Rust, signature);
    assert "sig"[0] == 's' && "denied"[0] == 'd' && "id"[0] == 'i';
  }

  lemma DaemonReadsDenial(id: nat, reason: string)
    ensures ParseResponse(DenialLine(id, reason))
         == if id < U64_LIMIT then Some(Response(id, Refused(reason))) else None
    ensures !IsPairRequest(DenialLine(id, reason))
  {
    ParseReply(DenialMembers(id, reason));
    assert "denied"[0] == 'd' && "id"[0] == 'i' && "t"[0] == 't';
  }

  lemma CredentialObject(ms: seq<(string, Scalar)>, id: nat, credId: string, pem: string)
    requires ms == CredentialMembers(id, credId, pem)
    ensures var o := Collect(Phone, ms, map[]);
      && "id" in o && o["id"] == Number(id) && "credId" in o && o["credId"] == Text(credId)
      && "publicKeyPem" in o && o["publicKeyPem"] == Text(pem) && "denied" !in o && "sig" !in o && "t" !in o
  {
    assert |ms[0].0| == 2 && |ms[1].0| == 6 && |ms[2].0| == 12;
    assert ms[0].0 == "id" && ms[1].0 == "credId" && ms[2].0 == "publicKeyPem";
    DistinctFields(Phone, ms);
    assert |"denied"| == 6 && "denied"[0] == 'd' && |"sig"| == 3 && |"t"| == 1;
    CollectKeeps(Phone, ms, map[], "t");
    CollectKeeps(Phone, ms, map[], "denied");
    CollectKeeps(Phone, ms, map[], "sig");
  }

  /** A new credential reaches the waiter of its id with both texts as the phone gave them. */
  lemma DaemonReadsCredential(id: nat, credId: string, pem: string)
    ensures var reading := ReadReply(CredentialLine(id, credId, pem));
      && reading.id == (if id < U64_LIMIT then Some(id) else None) && reading.response == None
      && AsText(reading.value, "credId") == Some(credId) && AsText(reading.value, "publicKeyPem") == Some(pem)
      && AsText(reading.value, "denied") == None
    ensures !IsPairRequest(CredentialLine(id, credId, pem))
  {
    var ms := CredentialMembers(id, credId, pem);
    ParsePrinted(Phone, COMPACT, ms, "");
    assert CredentialLine(id, credId, pem) + "" == CredentialLine(id, credId, pem);
    CredentialObject(ms, id, credId, pem);
  }

  // ---- Pairing ---------------------------------------------------------------------------

  /** `pairRequestLine`: what the phone tells of itself. */
  function PairRequestMembers(token: string, pem: string, name: string, model: string, level: string, boot: string)
    : seq<(string, Scalar)>
  {
    [("t", Text("pair.request")), ("token", Text(token)), ("publicKeyPem", Text(pem)), ("name", Text(name)),
     ("model", Text(model)), ("securityLevel", Text(level)), ("verifiedBoot", Text(boot))]
  }

  lemma PairRequestKeys(ms: seq<(string, Scalar)>, token: string, pem: string, name: string, model: string,
                        level: string, boot: string)
    requires ms == PairRequestMembers(token, pem, name, model, level, boot)
    ensures forall i :: 0 <= i < |ms| ==> ControlFree(ms[i].0)
    ensures forall i, j :: 0 <= i < j < |ms| ==> ms[i].0 != ms[j].0
  {
    assert |ms[0].0| == 1 && |ms[1].0| == 5 && |ms[2].0| == 12 && |ms[3].0| == 4 && |ms[4].0| == 5;
    assert |ms[5].0| == 13 && |ms[6].0| == 12;
    assert ms[1].0[0] == 't' && ms[4].0[0] == 'm' && ms[2].0[0] == 'p' && ms[6].0[0] == 'v';
    assert forall i, j :: 0 <= i < j < |ms| ==> |ms[i].0| != |ms[j].0| || ms[i].0[0] != ms[j].0[0];
  }

  lemma FieldsRead(e: Escaper, ms: seq<(string, Scalar)>)
    requires e != Pam && ms != []
    requires forall i :: 0 <= i < |ms| ==> ControlFree(ms[i].0)
    requires forall i, j :: 0 <= i < j < |ms| ==> ms[i].0 != ms[j].0
    ensures var o := ParseObject(PrintObject(e, COMPACT, ms));
      && o.Some? && (forall i :: 0 <= i < |ms| ==> ms[i].0 in o.value && o.value[ms[i].0] == ms[i].1)
      && (forall key :: (forall i :: 0 <= i < |ms| ==> ms[i].0 != key) ==> key !in o.value)
  {
    ParsePrinted(e, COMPACT, ms, "");
    assert PrintObject(e, COMPACT, ms) + "" == PrintObject(e, COMPACT, ms);
    DistinctFields(e, ms);
    forall key | forall i :: 0 <= i < |ms| ==> ms[i].0 != key ensures key !in Collect(e, ms, map[]) {
      CollectKeeps(e, ms, map[], key);
    }
  }

  lemma PairRequestObject(o: Object, ms: seq<(string, Scalar)>, token: string, pem: string, name: string, model: string,
                      level: string, boot: string)
    requires ms == PairRequestMembers(token, pem, name, model, level, boot)
    requires forall i :: 0 <= i < |ms| ==> ms[i].0 in o && o[ms[i].0] == ms[i].1
    ensures AsText(o, "t") == Some("pair.request") && AsText(o, "token") == Some(token)
    ensures AsText(o, "publicKeyPem") == Some(pem) && AsText(o, "name") == Some(name)
    ensures AsText(o, "model") == Some(model)
    ensures AsText(o, "securityLevel") == Some(level) && AsText(o, "verifiedBoot") == Some(boot)
  {
    assert ms[0].0 == "t" && ms[1].0 == "token" && ms[2].0 == "publicKeyPem" && ms[3].0 == "name";
    assert ms[4].0 == "model" && ms[5].0 == "securityLevel" && ms[6].0 == "verifiedBoot";
  }

  /** The daemon takes the phone's request for one, and reads what the phone put in. */
  lemma PairRequestRead(ms: seq<(string, Scalar)>, token: string, pem: string, name: string, model: string,
                        level: string, boot: string)
    requires ms == PairRequestMembers(token, pem, name, model, level, boot)
    ensures var line := PrintObject(Phone, COMPACT, ms);
      && IsPairRequest(line) && ParseObject(line).Some?
      && var o := ParseObject(line).value;
         && AsText(o, "token") == Some(token) && AsText(o, "publicKeyPem") == Some(pem)
         && AsText(o, "name") == Some(name) && AsText(o, "model") == Some(model)
         && AsText(o, "securityLevel") == Some(level) && AsText(o, "verifiedBoot") == Some(boot)
  {
    PairRequestKeys(ms, token, pem, name, model, level, boot);
    FieldsRead(Phone, ms);
    PairRequestObject(ParseObject(PrintObject(Phone, COMPACT, ms)).value, ms, token, pem, name, model, level, boot);
  }

  /** The daemon's answer, with its members in the order of `serde_json`'s sorted map. */
  function PairedMembers(id: string): seq<(string, Scalar)> {
    [("id", Text(id)), ("ok", Flag(true)), ("t", Text("pair.result"))]
  }

  function RejectedMembers(reason: string): seq<(string, Scalar)> {
    [("ok", Flag(false)), ("reason", Text(reason)), ("t", Text("pair.result"))]
  }

  lemma ResultMessage(raw: string, o: Object)
    requires "t" in o && o["t"] == Text("pair.result") && "ok" in o && o["ok"].Flag?
    ensures ReadDesktopMessage(raw, o) == Some(PairResult(o["ok"].flag, OptString(o, "id"), OptString(o, "reason")))
  {
  }

  /** The phone learns the id under which it has been recorded. */
  lemma PairedRead(ms: seq<(string, Scalar)>, id: string)
    requires ms == PairedMembers(id)
    ensures ParseDesktopMessage(PrintObject(Serde, COMPACT, ms)) == Some(PairResult(true, id, ""))
  {
    assert |ms[0].0| == 2 && |ms[1].0| == 2 && |ms[2].0| == 1 && ms[0].0[0] == 'i' && ms[1].0[0] == 'o';
    FieldsRead(Serde, ms);
    assert ms[0].0 == "id" && ms[1].0 == "ok" && ms[2].0 == "t" && |"reason"| == 6;
    ResultMessage(PrintObject(Serde, COMPACT, ms), ParseObject(PrintObject(Serde, COMPACT, ms)).value);
  }

  /** And why it has not been. */
  lemma RejectedRead(ms: seq<(string, Scalar)>, reason: string)
    requires ms == RejectedMembers(reason)
    ensures ParseDesktopMessage(PrintObject(Serde, COMPACT, ms)) == Some(PairResult(false, "", reason))
  {
    assert |ms[0].0| == 2 && |ms[1].0| == 6 && |ms[2].0| == 1 && ms[0].0[0] == 'o';
    FieldsRead(Serde, ms);
    assert ms[0].0 == "ok" && ms[1].0 == "reason" && ms[2].0 == "t" && |"id"| == 2 && "id"[0] == 'i';
    ResultMessage(PrintObject(Serde, COMPACT, ms), ParseObject(PrintObject(Serde, COMPACT, ms)).value);
  }
}

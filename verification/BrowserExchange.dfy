/** A whole sign-in and a whole registration over CTAPHID: the browser's request in, keep-alives and
    the answer out. */
module BrowserExchange {
  import opened Wrappers
  import opened Numbers
  import opened Bytes
  import opened CtapHid
  import opened WebAuthn
  import opened WebAuthnFlow
  import opened Registration
  import Base64
  import Cbor
  import Uhid

  const CTAP2_OK: byte := 0x00
  const OPERATION_DENIED: byte := 0x27
  const NO_CREDENTIALS: byte := 0x2e

  /** `ctap_reply`: a status byte ahead of the body, or the failure alone. */
  function CtapReply(body: Option<seq<byte>>, failure: byte): seq<byte> {
    match body case Some(b) => [CTAP2_OK] + b case None => [failure]
  }

  /** `get_assertion`, which runs on a thread of its own. */
  function GetAssertionReplyTo(
    body: seq<byte>, sha: seq<byte> -> seq<byte>, phone: (string, string, string) -> Option<string>): seq<byte>
  {
    CtapReply(AssertCredential(body, sha, phone), NO_CREDENTIALS)
  }

  /** A host's reading of a CTAP2 reply. */
  function ReadCtapReply(s: seq<byte>): Option<seq<byte>> {
    if s != [] && s[0] == CTAP2_OK then Some(s[1..]) else None
  }

  lemma SuccessRead(body: seq<byte>, failure: byte)
    ensures ReadCtapReply(CtapReply(Some(body), failure)) == Some(body)
    ensures failure != CTAP2_OK ==> ReadCtapReply(CtapReply(None, failure)) == None
  {
    assert ([CTAP2_OK] + body)[1..] == body;
  }

  lemma NothingAfter(s: seq<byte>)
    ensures s + [] == s
  {
  }

  predicate LastIs(ms: seq<Option<Message>>, m: Message) {
    ms != [] && ms[|ms| - 1] == Some(m) && forall i :: 0 <= i < |ms| - 1 ==> ms[i] != Some(m)
  }

  /** The browser's packets make the helper wait for the phone, with the request whole. */
  lemma RequestReaches(helper: Option<Assembly>, channel: u32, command: byte, request: seq<byte>, next: u32,
      info: seq<byte>)
    requires command == Uhid.MAKE_CREDENTIAL || command == Uhid.GET_ASSERTION
    requires |request| < MAX_MESSAGE && |info| < 0x1_0000
    ensures var m := Message(channel, CBOR, [command] + request);
      && LastIs(Dispatches(helper, Packets(channel, CBOR, m.payload)), m)
      && Uhid.Dispatch(next, m, info) == (next, Some(Uhid.Waiting(command, request)))
  {
    FrameRoundTrip(helper, Message(channel, CBOR, [command] + request));
    assert ([command] + request)[1..] == request;
  }

  lemma ReplyReaches(host: Option<Assembly>, channel: u32, ticks: nat, reply: seq<byte>)
    requires |reply| <= MAX_MESSAGE
    ensures LastIs(Dispatches(host, KeepAlives(channel, ticks) + Packets(channel, CBOR, reply)),
        Message(channel, CBOR, reply))
  {
    KeepAlivesRead(host, channel, ticks);
    ReplyAfterKeepAlives(host, ticks, Message(channel, CBOR, reply));
  }

  /** What the browser takes from a reply. */
  function Assertion(reply: seq<byte>): Option<(seq<byte>, seq<byte>, seq<byte>)> {
    match ReadCtapReply(reply) case Some(body) => ReadGetAssertion(body) case None => None
  }

  lemma AssertionTaken(body: Option<seq<byte>>)
    ensures Assertion(CtapReply(body, NO_CREDENTIALS))
         == match body case Some(b) => ReadGetAssertion(b) case None => None
  {
    match body
    case Some(b) => SuccessRead(b, NO_CREDENTIALS);
    case None => SuccessRead([], NO_CREDENTIALS);
  }

  /** What the phone is asked for gives a signature. */
  predicate Granted(r: GetAssertion, sha: seq<byte> -> seq<byte>, phone: (string, string, string) -> Option<string>,
                    signature: seq<byte>)
    requires r.allowed != []
  {
    var text := phone(Units(r.rpId), Base64.Encode(Base64.UrlSafe, r.allowed[0]), Payload(r, sha));
    && text.Some? && Base64.Decode(Base64.Standard, Base64.Rust, text.value) == Some(signature)
    && AssertionFits(r, sha, signature)
  }

  lemma GrantedAnswer(body: seq<byte>, r: GetAssertion, sha: seq<byte> -> seq<byte>,
                      phone: (string, string, string) -> Option<string>, signature: seq<byte>)
    requires r.allowed != []
    ensures ParseGetAssertion(body) == Some(r) && Granted(r, sha, phone, signature) ==>
      Assertion(GetAssertionReplyTo(body, sha, phone)) == Some((r.allowed[0], AssertionData(r, sha), signature))
  {
    if ParseGetAssertion(body) == Some(r) && Granted(r, sha, phone, signature) {
      GetAssertionRead(r.allowed[0], AssertionData(r, sha), signature);
      AssertionTaken(AssertCredential(body, sha, phone));
    }
  }

  lemma AnswerGranted(body: seq<byte>, sha: seq<byte> -> seq<byte>, phone: (string, string, string) -> Option<string>)
    returns (signature: seq<byte>)
    ensures AssertCredential(body, sha, phone).Some? ==>
      && ParseGetAssertion(body).Some? && ParseGetAssertion(body).value.allowed != []
      && Granted(ParseGetAssertion(body).value, sha, phone, signature)
  {
    signature := [];
    if AssertCredential(body, sha, phone).Some? {
      var r := ParseGetAssertion(body).value;
      var text := phone(Units(r.rpId), Base64.Encode(Base64.UrlSafe, r.allowed[0]), Payload(r, sha));
      signature := Base64.Decode(Base64.Standard, Base64.Rust, text.value).value;
      ReplyFits(r.allowed[0], AssertionData(r, sha), signature);
    }
  }

  /** Whatever a request holds, a browser is given an assertion if and only if it named a credential
      and the phone gave a signature for it, and then it is that signature; in every other case the
      reply is the one byte that says there are no credentials. */
  lemma AssertionOnlyIfGranted(body: seq<byte>, sha: seq<byte> -> seq<byte>,
                               phone: (string, string, string) -> Option<string>)
    ensures var r := ParseGetAssertion(body); var reply := GetAssertionReplyTo(body, sha, phone);
      if r.Some? && r.value.allowed != [] && exists signature :: Granted(r.value, sha, phone, signature) then
        exists signature :: Granted(r.value, sha, phone, signature)
          && Assertion(reply) == Some((r.value.allowed[0], AssertionData(r.value, sha), signature))
      else reply == [NO_CREDENTIALS] && Assertion(reply) == None
  {
    var r := ParseGetAssertion(body);
    if r.Some? && r.value.allowed != [] && exists signature :: Granted(r.value, sha, phone, signature) {
      var signature :| Granted(r.value, sha, phone, signature);
      GrantedAnswer(body, r.value, sha, phone, signature);
    } else {
      var signature := AnswerGranted(body, sha, phone);
      assert AssertCredential(body, sha, phone) == None;
      AssertionTaken(None);
    }
  }

  lemma AssertionRead(
    entries: seq<Cbor.Entry>, r: GetAssertion, sha: seq<byte> -> seq<byte>, id: nat, signature: seq<byte>,
    phone: (string, string, string) -> Option<string>)
    requires Cbor.Encodable(Cbor.Map(entries)) && AsksToSignIn(entries, r) && r.allowed != []
    requires |AssertionData(r, sha)| < U64_LIMIT && |signature| < U64_LIMIT
    ensures PhoneSigns(r, sha, id, signature, phone) ==>
      Assertion(GetAssertionReplyTo(Cbor.Encode(Cbor.Map(entries)), sha, phone))
      == Some((r.allowed[0], AssertionData(r, sha), signature))
  {
    AssertionAnswered(entries, [], r, sha, id, signature, phone);
    var request := Cbor.Encode(Cbor.Map(entries));
    NothingAfter(request);
    if PhoneSigns(r, sha, id, signature, phone) {
      SuccessRead(AssertCredential(request, sha, phone).value, NO_CREDENTIALS);
    }
  }

  /** Whatever else the request holds, however long the user takes, whatever either side was
      assembling before: the browser ends up with the credential it named, the authenticator data the
      phone signed, and the signature; provided that framing can carry the request and the reply. */
  lemma SignInAnswered(
    helper: Option<Assembly>, host: Option<Assembly>, channel: u32, ticks: nat, next: u32, info: seq<byte>,
    entries: seq<Cbor.Entry>, r: GetAssertion, sha: seq<byte> -> seq<byte>, id: nat, signature: seq<byte>,
    phone: (string, string, string) -> Option<string>)
    requires Cbor.Encodable(Cbor.Map(entries)) && AsksToSignIn(entries, r) && r.allowed != []
    requires |AssertionData(r, sha)| < U64_LIMIT && |signature| < U64_LIMIT && |info| < 0x1_0000
    ensures var request := Cbor.Encode(Cbor.Map(entries));
      |request| < MAX_MESSAGE ==>
        var asked := Message(channel, CBOR, [Uhid.GET_ASSERTION] + request);
        && LastIs(Dispatches(helper, Packets(channel, CBOR, asked.payload)), asked)
        && Uhid.Dispatch(next, asked, info) == (next, Some(Uhid.Waiting(Uhid.GET_ASSERTION, request)))
    ensures var reply := GetAssertionReplyTo(Cbor.Encode(Cbor.Map(entries)), sha, phone);
      && (PhoneSigns(r, sha, id, signature, phone) ==>
            Assertion(reply) == Some((r.allowed[0], AssertionData(r, sha), signature)))
      && (|reply| <= MAX_MESSAGE ==>
            LastIs(Dispatches(host, KeepAlives(channel, ticks) + Packets(channel, CBOR, reply)),
              Message(channel, CBOR, reply)))
  {
    AssertionRead(entries, r, sha, id, signature, phone);
    var request := Cbor.Encode(Cbor.Map(entries));
    if |request| < MAX_MESSAGE {
      RequestReaches(helper, channel, Uhid.GET_ASSERTION, request, next, info);
    }
    var reply := GetAssertionReplyTo(request, sha, phone);
    if |reply| <= MAX_MESSAGE {
      ReplyReaches(host, channel, ticks, reply);
    }
  }

  // ---- Registration ------------------------------------------------------------------------

  /** `make_credential`. */
  function MakeCredentialReplyTo(
    body: seq<byte>, sha: seq<byte> -> seq<byte>, phone: (string, string) -> Option<(string, string)>,
    point: string -> Option<(seq<byte>, seq<byte>)>): seq<byte>
  {
    CtapReply(CreateFrom(body, sha, phone, point), OPERATION_DENIED)
  }

  /** What the browser takes from a reply. */
  function Registered(reply: seq<byte>): Option<AuthData> {
    match ReadCtapReply(reply)
    case None => None
    case Some(body) =>
      match ReadMakeCredential(body)
      case None => None
      case Some(authData) => ReadAuthData(authData)
  }

  lemma SuccessRegistered(answer: Option<seq<byte>>, authData: AuthData)
    requires answer.Some? && ReadMakeCredential(answer.value).Some?
    requires ReadAuthData(ReadMakeCredential(answer.value).value) == Some(authData)
    ensures Registered(CtapReply(answer, OPERATION_DENIED)) == Some(authData)
  {
    SuccessRead(answer.value, OPERATION_DENIED);
  }

  lemma RegistrationRead(
    entries: seq<Cbor.Entry>, rpId: seq<byte>, userName: seq<byte>,
    sha: seq<byte> -> seq<byte>, phone: (string, string) -> Option<(string, string)>,
    point: string -> Option<(seq<byte>, seq<byte>)>, id: nat, raw: seq<byte>, pem: string, x: seq<byte>, y: seq<byte>)
    requires Cbor.Encodable(Cbor.Map(entries)) && AsksToRegister(entries, rpId, userName)
    requires |sha(rpId)| == 32 && |raw| < 0x1_0000 && |x| == 32 && |y| == 32
    requires PhoneCreates(rpId, userName, phone, point, id, raw, pem, x, y)
    ensures Registered(MakeCredentialReplyTo(Cbor.Encode(Cbor.Map(entries)), sha, phone, point))
         == Some(AuthData(sha(rpId), 0x45, 0, Some(Credential(AAGUID, raw, x, y)), None))
  {
    RegistrationAnswered(entries, [], rpId, userName, sha, phone, point, id, raw, pem, x, y);
    var request := Cbor.Encode(Cbor.Map(entries));
    NothingAfter(request);
    SuccessRegistered(CreateFrom(request, sha, phone, point),
                      AuthData(sha(rpId), 0x45, 0, Some(Credential(AAGUID, raw, x, y)), None));
  }

  /** Likewise: the browser ends up with the id and the key the phone made, under the hash of its own
      site; provided that framing can carry the request and the reply. */
  lemma RegistrationServed(
    helper: Option<Assembly>, host: Option<Assembly>, channel: u32, ticks: nat, next: u32, info: seq<byte>,
    entries: seq<Cbor.Entry>, rpId: seq<byte>, userName: seq<byte>,
    sha: seq<byte> -> seq<byte>, phone: (string, string) -> Option<(string, string)>,
    point: string -> Option<(seq<byte>, seq<byte>)>, id: nat, raw: seq<byte>, pem: string, x: seq<byte>, y: seq<byte>)
    requires Cbor.Encodable(Cbor.Map(entries)) && AsksToRegister(entries, rpId, userName)
    requires |sha(rpId)| == 32 && |raw| < 0x1_0000 && |x| == 32 && |y| == 32 && |info| < 0x1_0000
    ensures var request := Cbor.Encode(Cbor.Map(entries));
      |request| < MAX_MESSAGE ==>
        var asked := Message(channel, CBOR, [Uhid.MAKE_CREDENTIAL] + request);
        && LastIs(Dispatches(helper, Packets(channel, CBOR, asked.payload)), asked)
        && Uhid.Dispatch(next, asked, info) == (next, Some(Uhid.Waiting(Uhid.MAKE_CREDENTIAL, request)))
    ensures var reply := MakeCredentialReplyTo(Cbor.Encode(Cbor.Map(entries)), sha, phone, point);
      && (PhoneCreates(rpId, userName, phone, point, id, raw, pem, x, y) ==>
            Registered(reply) == Some(AuthData(sha(rpId), 0x45, 0, Some(Credential(AAGUID, raw, x, y)), None)))
      && (|reply| <= MAX_MESSAGE ==>
            LastIs(Dispatches(host, KeepAlives(channel, ticks) + Packets(channel, CBOR, reply)),
              Message(channel, CBOR, reply)))
  {
    if PhoneCreates(rpId, userName, phone, point, id, raw, pem, x, y) {
      RegistrationRead(entries, rpId, userName, sha, phone, point, id, raw, pem, x, y);
    }
    var request := Cbor.Encode(Cbor.Map(entries));
    if |request| < MAX_MESSAGE {
      RequestReaches(helper, channel, Uhid.MAKE_CREDENTIAL, request, next, info);
    }
    var reply := MakeCredentialReplyTo(request, sha, phone, point);
    if |reply| <= MAX_MESSAGE {
      ReplyReaches(host, channel, ticks, reply);
    }
  }

  lemma RegisteredTaken(body: Option<seq<byte>>)
    ensures Registered(CtapReply(body, OPERATION_DENIED)).Some? ==>
      && body.Some? && ReadMakeCredential(body.value).Some?
      && ReadAuthData(ReadMakeCredential(body.value).value) == Registered(CtapReply(body, OPERATION_DENIED))
  {
    match body
    case Some(b) => SuccessRead(b, OPERATION_DENIED);
    case None => SuccessRead([], OPERATION_DENIED);
  }

  /** The phone has made a credential whose id and key can be passed on. */
  predicate Made(r: MakeCredential, phone: (string, string) -> Option<(string, string)>,
                 point: string -> Option<(seq<byte>, seq<byte>)>, c: Credential)
  {
    var answer := phone(Units(r.rpId), Units(r.userName));
    && answer.Some? && Base64.Decode(Base64.UrlSafe, Base64.Rust, answer.value.0) == Some(c.id)
    && point(answer.value.1) == Some((c.x, c.y))
    && |c.id| < 0x1_0000 && |c.x| == 32 && |c.y| == 32 && c.aaguid == AAGUID
  }

  lemma MadeAnswer(body: seq<byte>, r: MakeCredential, sha: seq<byte> -> seq<byte>,
                   phone: (string, string) -> Option<(string, string)>,
                   point: string -> Option<(seq<byte>, seq<byte>)>, c: Credential)
    requires |sha(r.rpId)| == 32
    ensures ParseMakeCredential(body) == Some(r) && Made(r, phone, point, c) ==>
      Registered(MakeCredentialReplyTo(body, sha, phone, point))
      == Some(AuthData(sha(r.rpId), 0x45, 0, Some(c), None))
  {
    if ParseMakeCredential(body) == Some(r) && Made(r, phone, point, c) {
      var (credId, pem) := phone(Units(r.rpId), Units(r.userName)).value;
      Base64.EncodeDecode(Base64.UrlSafe, credId);
      CreateFromAnswer(body, r, sha, phone, point, credId, pem, c.x, c.y);
      CreatedRead(r.rpId, sha, c.id, c.x, c.y);
      SuccessRegistered(CreateFrom(body, sha, phone, point), AuthData(sha(r.rpId), 0x45, 0, Some(c), None));
    }
  }

  lemma AnswerMade(body: seq<byte>, sha: seq<byte> -> seq<byte>, phone: (string, string) -> Option<(string, string)>,
                   point: string -> Option<(seq<byte>, seq<byte>)>)
    returns (c: Credential)
    ensures CreateFrom(body, sha, phone, point).Some? ==>
      ParseMakeCredential(body).Some? && Made(ParseMakeCredential(body).value, phone, point, c)
  {
    c := Credential(AAGUID, [], [], []);
    if CreateFrom(body, sha, phone, point).Some? {
      var r := ParseMakeCredential(body).value;
      var (credId, pem) := phone(Units(r.rpId), Units(r.userName)).value;
      var (x, y) := point(pem).value;
      c := Credential(AAGUID, Base64.Decode(Base64.UrlSafe, Base64.Rust, credId).value, x, y);
    }
  }

  /** Likewise a browser is given a credential if and only if its request was read and the phone made
      one; in every other case the reply is the one byte that says the operation was denied. */
  lemma RegisteredOnlyIfMade(body: seq<byte>, sha: seq<byte> -> seq<byte>,
                             phone: (string, string) -> Option<(string, string)>,
                             point: string -> Option<(seq<byte>, seq<byte>)>)
    requires forall s :: |sha(s)| == 32
    ensures var r := ParseMakeCredential(body); var reply := MakeCredentialReplyTo(body, sha, phone, point);
      if r.Some? && exists c :: Made(r.value, phone, point, c) then
        exists c :: Made(r.value, phone, point, c)
          && Registered(reply) == Some(AuthData(sha(r.value.rpId), 0x45, 0, Some(c), None))
      else reply == [OPERATION_DENIED] && Registered(reply) == None
  {
    var r := ParseMakeCredential(body);
    if r.Some? && exists c :: Made(r.value, phone, point, c) {
      var c :| Made(r.value, phone, point, c);
      MadeAnswer(body, r.value, sha, phone, point, c);
    } else {
      var c := AnswerMade(body, sha, phone, point);
      assert CreateFrom(body, sha, phone, point) == None;
      SuccessRead([], OPERATION_DENIED);
    }
  }
}

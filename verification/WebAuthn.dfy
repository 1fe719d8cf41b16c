/** The WebAuthn side of the helper: what it reads in a browser's CTAP2 request and what it
    answers, set against a reader of authenticator data after sections 6.1 and 6.5.1 of WebAuthn
    Level 2. */
module WebAuthn {
  import opened Wrappers
  import opened Numbers
  import opened Bytes
  import opened Cbor

  const AAGUID: seq<byte> :=
    [0x6f, 0x1d, 0x2b, 0x1a, 0x9c, 0x4e, 0x4f, 0x57, 0xa1, 0xd3, 0x7b, 0x8e, 0x2c, 0x05, 0xf9, 0xa4]

  const PRESENT: byte := 0x01
  const VERIFIED: byte := 0x04
  const ATTESTED: byte := 0x40
  const EXTENDED: byte := 0x80

  // The CBOR texts of the protocol.
  const ID: seq<byte> := [0x69, 0x64]
  const TYPE: seq<byte> := [0x74, 0x79, 0x70, 0x65]
  const PUBLIC_KEY: seq<byte> := [0x70, 0x75, 0x62, 0x6c, 0x69, 0x63, 0x2d, 0x6b, 0x65, 0x79]
  const NONE: seq<byte> := [0x6e, 0x6f, 0x6e, 0x65]
  const NAME: seq<byte> := [0x6e, 0x61, 0x6d, 0x65]
  const USER: seq<byte> := [0x75, 0x73, 0x65, 0x72]
  const UV: seq<byte> := [0x75, 0x76]
  const ALG: seq<byte> := [0x61, 0x6c, 0x67]
  const DISPLAY_NAME: seq<byte> := [0x64, 0x69, 0x73, 0x70, 0x6c, 0x61, 0x79, 0x4e, 0x61, 0x6d, 0x65]

  // ---- Requests --------------------------------------------------------------------------

  /** The first entry with an integer key. */
  function EntryAt(entries: seq<Entry>, key: int): Option<Value> {
    if entries == [] then None
    else if entries[0].key == Integer(key) then Some(entries[0].value)
    else EntryAt(entries[1..], key)
  }

  function TextEntry(entries: seq<Entry>, key: seq<byte>): Option<Value> {
    if entries == [] then None
    else if entries[0].key == Text(key) then Some(entries[0].value)
    else TextEntry(entries[1..], key)
  }

  function Field(v: Value, key: seq<byte>): Option<Value> {
    if v.Map? then TextEntry(v.entries, key) else None
  }

  function TopLevelMap(payload: seq<byte>): Option<seq<Entry>> {
    match Decode(payload)
    case Some((Map(entries), _)) => Some(entries)
    case _ => None
  }

  datatype MakeCredential = MakeCredential(rpId: seq<byte>, userName: seq<byte>)

  datatype GetAssertion = GetAssertion(clientDataHash: seq<byte>, rpId: seq<byte>, allowed: seq<seq<byte>>)

  /** The name under a user's entry, or the fallback. */
  function UserNameIn(entries: seq<Entry>): seq<byte> {
    var user := match EntryAt(entries, 3) case Some(u) => Field(u, NAME) case None => None;
    match user case Some(Text(name)) => name case _ => USER
  }

  function ParseMakeCredential(payload: seq<byte>): Option<MakeCredential> {
    match TopLevelMap(payload)
    case None => None
    case Some(entries) =>
      match EntryAt(entries, 2)
      case None => None
      case Some(rp) =>
        match Field(rp, ID)
        case Some(Text(rpId)) => Some(MakeCredential(rpId, UserNameIn(entries)))
        case _ => None
  }

  /** The credential ids of a list of descriptors, without those that have none. */
  function CredentialIds(items: seq<Value>): seq<seq<byte>> {
    if items == [] then []
    else
      (match Field(items[0], ID) case Some(Blob(id)) => [id] case _ => []) + CredentialIds(items[1..])
  }

  function AllowedIn(entries: seq<Entry>): seq<seq<byte>> {
    match EntryAt(entries, 3) case Some(Array(items)) => CredentialIds(items) case _ => []
  }

  function ParseGetAssertion(payload: seq<byte>): Option<GetAssertion> {
    match TopLevelMap(payload)
    case None => None
    case Some(entries) =>
      match (EntryAt(entries, 1), EntryAt(entries, 2))
      case (Some(Text(rpId)), Some(Blob(hash))) => Some(GetAssertion(hash, rpId, AllowedIn(entries)))
      case _ => None
  }

  /** A registration without a name is for `user`. */
  lemma FallbackName(entries: seq<Entry>)
    requires EntryAt(entries, 3).None? || Field(EntryAt(entries, 3).value, NAME).None?
    ensures UserNameIn(entries) == [0x75, 0x73, 0x65, 0x72]
  {
  }

  /** A descriptor without an id is passed over, and the others count. */
  lemma {:induction false} IdsCollected(before: seq<Value>, item: Value, after: seq<Value>)
    ensures CredentialIds(before + ([item] + after))
         == CredentialIds(before)
            + (match Field(item, ID) case Some(Blob(id)) => [id] case _ => []) + CredentialIds(after)
  {
    if before == [] {
      assert before + ([item] + after) == [item] + after && ([item] + after)[1..] == after;
    } else {
      assert (before + ([item] + after))[1..] == before[1..] + ([item] + after);
      IdsCollected(before[1..], item, after);
    }
  }

  // ---- What a browser asks for -----------------------------------------------------------

  /** The entries ask to register with this site under this name, whatever else they hold. */
  predicate AsksToRegister(entries: seq<Entry>, rpId: seq<byte>, userName: seq<byte>) {
    && EntryAt(entries, 2).Some? && Field(EntryAt(entries, 2).value, ID) == Some(Text(rpId))
    && userName == UserNameIn(entries)
  }

  /** The entries ask to sign in there with one of these credentials, whatever else they hold. */
  predicate AsksToSignIn(entries: seq<Entry>, r: GetAssertion) {
    && EntryAt(entries, 1) == Some(Text(r.rpId)) && EntryAt(entries, 2) == Some(Blob(r.clientDataHash))
    && r.allowed == AllowedIn(entries)
  }

  /** A registration request is read as what it asks for, and any other map as none. */
  lemma MakeCredentialUnderstood(entries: seq<Entry>, rest: seq<byte>, rpId: seq<byte>, userName: seq<byte>)
    requires Encodable(Map(entries))
    ensures ParseMakeCredential(Encode(Map(entries)) + rest) == Some(MakeCredential(rpId, userName))
      <==> AsksToRegister(entries, rpId, userName)
  {
    DecodeEncode(Map(entries), rest);
  }

  /** So is a sign-in request. */
  lemma GetAssertionUnderstood(entries: seq<Entry>, rest: seq<byte>, r: GetAssertion)
    requires Encodable(Map(entries))
    ensures ParseGetAssertion(Encode(Map(entries)) + rest) == Some(r) <==> AsksToSignIn(entries, r)
  {
    DecodeEncode(Map(entries), rest);
  }

  lemma {:induction false} EntryAtEncodable(entries: seq<Entry>, key: int)
    requires forall i :: 0 <= i < |entries| ==> Encodable(entries[i].value)
    ensures EntryAt(entries, key).Some? ==> Encodable(EntryAt(entries, key).value)
  {
    if entries != [] {
      EntryAtEncodable(entries[1..], key);
    }
  }

  lemma {:induction false} TextEntryEncodable(entries: seq<Entry>, key: seq<byte>)
    requires forall i :: 0 <= i < |entries| ==> Encodable(entries[i].value)
    ensures TextEntry(entries, key).Some? ==> Encodable(TextEntry(entries, key).value)
  {
    if entries != [] {
      TextEntryEncodable(entries[1..], key);
    }
  }

  lemma {:induction false} CredentialIdsFit(items: seq<Value>)
    requires forall i :: 0 <= i < |items| ==> Encodable(items[i])
    ensures forall id :: id in CredentialIds(items) ==> |id| < U64_LIMIT
  {
    if items != [] {
      if items[0].Map? { TextEntryEncodable(items[0].entries, ID); }
      CredentialIdsFit(items[1..]);
    }
  }

  /** What fits in a request fits in its answer. */
  lemma AllowedFit(entries: seq<Entry>)
    requires Encodable(Map(entries))
    ensures forall id :: id in AllowedIn(entries) ==> |id| < U64_LIMIT
  {
    EntryAtEncodable(entries, 3);
    match EntryAt(entries, 3)
    case Some(Array(items)) => CredentialIdsFit(items);
    case _ =>
  }

  // ---- Requests as browsers send them ----------------------------------------------------

  lemma EntryAtCons(e: Entry, es: seq<Entry>, key: int)
    ensures EntryAt([e] + es, key) == if e.key == Integer(key) then Some(e.value) else EntryAt(es, key)
  {
    assert ([e] + es)[1..] == es;
  }

  /** How a browser names a credential (section 6.2 of CTAP 2.0, keys in canonical order). */
  function Descriptor(id: seq<byte>): Value {
    Map([Entry(Text(ID), Blob(id)), Entry(Text(TYPE), Text(PUBLIC_KEY))])
  }

  function Descriptors(ids: seq<seq<byte>>): (vs: seq<Value>)
    ensures |vs| == |ids|
  {
    if ids == [] then [] else [Descriptor(ids[0])] + Descriptors(ids[1..])
  }

  lemma {:induction false} DescriptorsRead(ids: seq<seq<byte>>)
    ensures CredentialIds(Descriptors(ids)) == ids
    ensures (forall i :: 0 <= i < |ids| ==> |ids[i]| < U64_LIMIT) ==>
      forall i :: 0 <= i < |ids| ==> Encodable(Descriptors(ids)[i])
  {
    if ids != [] {
      DescriptorsRead(ids[1..]);
      assert Field(Descriptor(ids[0]), ID) == Some(Blob(ids[0]));
      if |ids[0]| < U64_LIMIT { LeavesEncodable(Descriptor(ids[0]).entries); }
    }
  }

  /** Options that ask for the user to be verified. */
  const OPTIONS := Map([Entry(Text(UV), Bool(true))])

  /** A sign-in request: site, hash, allowed credentials and options. */
  function SignInRequest(r: GetAssertion): seq<Entry> {
    [Entry(Integer(1), Text(r.rpId))]
    + ([Entry(Integer(2), Blob(r.clientDataHash))]
       + ([Entry(Integer(3), Array(Descriptors(r.allowed)))] + [Entry(Integer(5), OPTIONS)]))
  }

  predicate Sendable(r: GetAssertion) {
    && |r.rpId| < U64_LIMIT && |r.clientDataHash| < U64_LIMIT && |r.allowed| < U64_LIMIT
    && forall i :: 0 <= i < |r.allowed| ==> |r.allowed[i]| < U64_LIMIT
  }

  lemma SignInRequestAsks(r: GetAssertion)
    requires Sendable(r)
    ensures Encodable(Map(SignInRequest(r))) && AsksToSignIn(SignInRequest(r), r)
  {
    var e1, e2 := Entry(Integer(1), Text(r.rpId)), Entry(Integer(2), Blob(r.clientDataHash));
    var e3, e5 := Entry(Integer(3), Array(Descriptors(r.allowed))), Entry(Integer(5), OPTIONS);
    DescriptorsRead(r.allowed);
    LeavesEncodable(OPTIONS.entries);
    OneEncodable(e5);
    ConsEncodable(e3, [e5]);
    LeafEncodable(e2.value);
    ConsEncodable(e2, [e3] + [e5]);
    LeafEncodable(e1.value);
    ConsEncodable(e1, [e2] + ([e3] + [e5]));
    EntryAtCons(e1, [e2] + ([e3] + [e5]), 1);
    EntryAtCons(e1, [e2] + ([e3] + [e5]), 2);
    EntryAtCons(e1, [e2] + ([e3] + [e5]), 3);
    EntryAtCons(e2, [e3] + [e5], 2);
    EntryAtCons(e2, [e3] + [e5], 3);
    EntryAtCons(e3, [e5], 3);
  }

  lemma OneEncodable(e: Entry)
    requires Leaf(e.key) && Encodable(e.value)
    ensures Encodable(Map([e]))
  {
    LeavesEncodable([]);
    ConsEncodable(e, []);
    assert [e] + [] == [e];
  }

  /** The one algorithm the helper offers. */
  const PARAMS := Array([Map([Entry(Text(ALG), Integer(-7)), Entry(Text(TYPE), Text(PUBLIC_KEY))])])

  /** A registration request: hash, site and user with their names, algorithms and options. */
  function RegistrationRequest(
    hash: seq<byte>, rpId: seq<byte>, rpName: seq<byte>, userId: seq<byte>, userName: seq<byte>, display: seq<byte>)
    : seq<Entry>
  {
    [Entry(Integer(1), Blob(hash))]
    + ([Entry(Integer(2), RpOf(rpId, rpName))]
       + ([Entry(Integer(3), UserOf(userId, userName, display))]
          + ([Entry(Integer(4), PARAMS)] + [Entry(Integer(7), OPTIONS)])))
  }

  function RpOf(rpId: seq<byte>, rpName: seq<byte>): Value {
    Map([Entry(Text(ID), Text(rpId)), Entry(Text(NAME), Text(rpName))])
  }

  function UserOf(userId: seq<byte>, userName: seq<byte>, display: seq<byte>): Value {
    Map([Entry(Text(ID), Blob(userId)), Entry(Text(NAME), Text(userName)), Entry(Text(DISPLAY_NAME), Text(display))])
  }

  lemma PartsRead(rpId: seq<byte>, rpName: seq<byte>, userId: seq<byte>, userName: seq<byte>, display: seq<byte>)
    requires |rpId| < U64_LIMIT && |rpName| < U64_LIMIT
    requires |userId| < U64_LIMIT && |userName| < U64_LIMIT && |display| < U64_LIMIT
    ensures Encodable(RpOf(rpId, rpName)) && Field(RpOf(rpId, rpName), ID) == Some(Text(rpId))
    ensures Encodable(UserOf(userId, userName, display))
    ensures Field(UserOf(userId, userName, display), NAME) == Some(Text(userName))
  {
    LeavesEncodable(RpOf(rpId, rpName).entries);
    var es := UserOf(userId, userName, display).entries;
    LeavesEncodable(es);
    assert |ID| == 2 && |NAME| == 4;
    assert es[1..][0] == es[1];
    assert TextEntry(es[1..], NAME) == Some(Text(userName));
  }

  lemma ParamsEncodable()
    ensures Encodable(PARAMS)
  {
    LeavesEncodable(PARAMS.items[0].entries);
  }

  lemma RegistrationRequestAsks(
    hash: seq<byte>, rpId: seq<byte>, rpName: seq<byte>, userId: seq<byte>, userName: seq<byte>, display: seq<byte>)
    requires |hash| < U64_LIMIT && |rpId| < U64_LIMIT && |rpName| < U64_LIMIT
    requires |userId| < U64_LIMIT && |userName| < U64_LIMIT && |display| < U64_LIMIT
    ensures var entries := RegistrationRequest(hash, rpId, rpName, userId, userName, display);
      Encodable(Map(entries)) && AsksToRegister(entries, rpId, userName)
  {
    var e1, e2 := Entry(Integer(1), Blob(hash)), Entry(Integer(2), RpOf(rpId, rpName));
    var e3 := Entry(Integer(3), UserOf(userId, userName, display));
    var e4, e7 := Entry(Integer(4), PARAMS), Entry(Integer(7), OPTIONS);
    PartsRead(rpId, rpName, userId, userName, display);
    ParamsEncodable();
    LeavesEncodable(OPTIONS.entries);
    OneEncodable(e7);
    ConsEncodable(e4, [e7]);
    ConsEncodable(e3, [e4] + [e7]);
    ConsEncodable(e2, [e3] + ([e4] + [e7]));
    LeafEncodable(e1.value);
    ConsEncodable(e1, [e2] + ([e3] + ([e4] + [e7])));
    EntryAtCons(e1, [e2] + ([e3] + ([e4] + [e7])), 2);
    EntryAtCons(e1, [e2] + ([e3] + ([e4] + [e7])), 3);
    EntryAtCons(e2, [e3] + ([e4] + [e7]), 2);
    EntryAtCons(e2, [e3] + ([e4] + [e7]), 3);
    EntryAtCons(e3, [e4] + [e7], 3);
  }

  lemma ThreeEntries(es: seq<Entry>)
    requires |es| == 3 && es[0].key == Integer(1) && es[1].key == Integer(2) && es[2].key == Integer(3)
    ensures EntryAt(es, 1) == Some(es[0].value) && EntryAt(es, 2) == Some(es[1].value)
        && EntryAt(es, 3) == Some(es[2].value)
  {
    assert es[1..][1..] == es[2..];
    assert EntryAt(es[1..], 2) == Some(es[1].value);
    assert EntryAt(es[2..], 3) == Some(es[2].value);
    assert EntryAt(es[1..], 3) == EntryAt(es[2..], 3);
  }

  // ---- Authenticator data ----------------------------------------------------------------

  function CoseMap(x: seq<byte>, y: seq<byte>): Value {
    Map([
      Entry(Integer(1), Integer(2)),
      Entry(Integer(3), Integer(-7)),
      Entry(Integer(-1), Integer(1)),
      Entry(Integer(-2), Blob(x)),
      Entry(Integer(-3), Blob(y))])
  }

  lemma CoseEncodable(x: seq<byte>, y: seq<byte>)
    requires |x| == 32 && |y| == 32
    ensures Encodable(CoseMap(x, y))
  {
    LeavesEncodable(CoseMap(x, y).entries);
  }

  function CoseKey(x: seq<byte>, y: seq<byte>): Option<seq<byte>> {
    if |x| != 32 || |y| != 32 then None else CoseEncodable(x, y); Some(Encode(CoseMap(x, y)))
  }

  function AttestedCredentialData(id: seq<byte>, cose: seq<byte>): Option<seq<byte>> {
    if |id| >= 0x1_0000 then None else Some(AAGUID + Be16(|id|) + id + cose)
  }

  function AuthenticatorData(rpIdHash: seq<byte>, flags: byte, signCount: u32, attested: seq<byte>): seq<byte> {
    rpIdHash + [flags] + Be32(signCount) + attested
  }

  datatype Credential = Credential(aaguid: seq<byte>, id: seq<byte>, x: seq<byte>, y: seq<byte>)

  datatype AuthData = AuthData(
    rpIdHash: seq<byte>, flags: byte, signCount: u32, credential: Option<Credential>, extensions: Option<seq<Entry>>)

  /** A credential, and what follows it. */
  function ReadCredential(s: seq<byte>): Option<(Credential, seq<byte>)> {
    if |s| < 18 then None
    else
      var n := FromBe16(s[16..18]);
      if |s| < 18 + n then None
      else
        match Decode(s[18 + n..])
        case Some((Map(entries), rest)) =>
          (match (EntryAt(entries, -2), EntryAt(entries, -3))
           case (Some(Blob(x)), Some(Blob(y))) => Some((Credential(s[..16], s[18..18 + n], x, y), rest))
           case _ => None)
        case _ => None
  }

  /** Extensions are there exactly if the top flag says so, and nothing follows them. */
  function ReadExtensions(flags: byte, rest: seq<byte>): Option<Option<seq<Entry>>> {
    if flags < EXTENDED then (if rest == [] then Some(None) else None)
    else
      match Decode(rest)
      case Some((Map(entries), after)) => (if after == [] then Some(Some(entries)) else None)
      case _ => None
  }

  /** A relying party's reader. */
  function ReadAuthData(s: seq<byte>): Option<AuthData> {
    if |s| < 37 then None
    else
      var hash, flags, count := s[..32], s[32], FromBe32(s[33..37]);
      if flags % EXTENDED < ATTESTED then
        match ReadExtensions(flags, s[37..])
        case None => None
        case Some(extensions) => Some(AuthData(hash, flags, count, None, extensions))
      else
        match ReadCredential(s[37..])
        case None => None
        case Some((c, rest)) =>
          match ReadExtensions(flags, rest)
          case None => None
          case Some(extensions) => Some(AuthData(hash, flags, count, Some(c), extensions))
  }

  lemma CoseKeyRead(x: seq<byte>, y: seq<byte>)
    requires |x| == 32 && |y| == 32
    ensures Encodable(CoseMap(x, y)) && Decode(Encode(CoseMap(x, y))) == Some((CoseMap(x, y), []))
    ensures EntryAt(CoseMap(x, y).entries, -2) == Some(Blob(x)) && EntryAt(CoseMap(x, y).entries, -3) == Some(Blob(y))
  {
    var m := CoseMap(x, y);
    CoseEncodable(x, y);
    DecodeEncode(m, []);
    assert Encode(m) + [] == Encode(m);
    var es := m.entries;
    assert es[1..][1..] == es[2..] && es[2..][1..] == es[3..] && es[3..][1..] == es[4..];
    assert EntryAt(es[3..], -2) == Some(Blob(x)) && EntryAt(es[4..], -3) == Some(Blob(y));
    assert EntryAt(es[2..], -2) == EntryAt(es[3..], -2) && EntryAt(es[1..], -2) == EntryAt(es[2..], -2);
    assert EntryAt(es[3..], -3) == EntryAt(es[4..], -3) && EntryAt(es[2..], -3) == EntryAt(es[3..], -3);
    assert EntryAt(es[1..], -3) == EntryAt(es[2..], -3);
  }

  lemma CredentialRead(id: seq<byte>, x: seq<byte>, y: seq<byte>)
    requires |id| < 0x1_0000 && |x| == 32 && |y| == 32
    ensures ReadCredential(AttestedCredentialData(id, CoseKey(x, y).value).value)
        == Some((Credential(AAGUID, id, x, y), []))
  {
    var cose := CoseKey(x, y).value;
    var s := AAGUID + Be16(|id|) + id + cose;
    var n := |id|;
    assert s[..16] == AAGUID && s[16..18] == Be16(n) && s[18..18 + n] == id && s[18 + n..] == cose;
    Be16RoundTrip(n);
    CoseKeyRead(x, y);
  }

  lemma HeaderRead(rpIdHash: seq<byte>, flags: byte, signCount: u32, attested: seq<byte>)
    requires |rpIdHash| == 32
    ensures var s := AuthenticatorData(rpIdHash, flags, signCount, attested);
      |s| == 37 + |attested| && s[..32] == rpIdHash && s[32] == flags && FromBe32(s[33..37]) == signCount
        && s[37..] == attested
  {
    var s := AuthenticatorData(rpIdHash, flags, signCount, attested);
    assert s[33..37] == Be32(signCount);
    Be32RoundTrip(signCount);
  }

  /** The attested part that goes with the flags. */
  function AttestedFor(flags: byte, id: seq<byte>, x: seq<byte>, y: seq<byte>): seq<byte>
    requires |id| < 0x1_0000 && |x| == 32 && |y| == 32
  {
    if flags % EXTENDED < ATTESTED then [] else AttestedCredentialData(id, CoseKey(x, y).value).value
  }

  /** Authenticator data is uniquely decodable, with and without a credential, if and only if its
      flags do not promise extensions, of which the helper writes none. */
  lemma AuthDataRead(rpIdHash: seq<byte>, flags: byte, signCount: u32, id: seq<byte>, x: seq<byte>, y: seq<byte>)
    requires |rpIdHash| == 32 && |id| < 0x1_0000 && |x| == 32 && |y| == 32
    ensures ReadAuthData(AuthenticatorData(rpIdHash, flags, signCount, AttestedFor(flags, id, x, y)))
         == if flags >= EXTENDED then None
            else
              var credential := if flags < ATTESTED then None else Some(Credential(AAGUID, id, x, y));
              Some(AuthData(rpIdHash, flags, signCount, credential, None))
  {
    HeaderRead(rpIdHash, flags, signCount, AttestedFor(flags, id, x, y));
    CredentialRead(id, x, y);
    assert Decode([]) == None;
  }

  /** The two builders extend a buffer; what they write is the layout above. */
  method BuildAuthenticatorData(rpIdHash: seq<byte>, flags: byte, signCount: u32, attested: Option<seq<byte>>)
    returns (data: seq<byte>)
    ensures data == AuthenticatorData(rpIdHash, flags, signCount, if attested.Some? then attested.value else [])
  {
    data := [];
    data := data + rpIdHash;
    data := data + [flags];
    data := data + Be32(signCount);
    if attested.Some? {
      data := data + attested.value;
    }
  }

  method BuildAttestedCredentialData(id: seq<byte>, cose: seq<byte>) returns (data: Option<seq<byte>>)
    ensures data == AttestedCredentialData(id, cose)
  {
    if |id| >= 0x1_0000 {
      return None;
    }
    var buffer := AAGUID;
    buffer := buffer + Be16(|id|);
    buffer := buffer + id;
    buffer := buffer + cose;
    return Some(buffer);
  }

  // ---- Canonical order (section 6 of CTAP 2.0) -------------------------------------------

  predicate LexBefore(a: seq<byte>, b: seq<byte>) {
    b != [] && (a == [] || a[0] < b[0] || (a[0] == b[0] && LexBefore(a[1..], b[1..])))
  }

  /** Lower major type first, then the shorter key, then byte order. */
  predicate CanonicalBefore(a: seq<byte>, b: seq<byte>)
    requires a != [] && b != []
  {
    || a[0] / 32 < b[0] / 32
    || (a[0] / 32 == b[0] / 32 && (|a| < |b| || (|a| == |b| && LexBefore(a, b))))
  }

  predicate Canonical(entries: seq<Entry>)
    requires forall i :: 0 <= i < |entries| ==> Encodable(entries[i].key)
  {
    forall i, j :: 0 <= i < j < |entries| ==> CanonicalBefore(EncodeKey(entries[i]), EncodeKey(entries[j]))
  }

  function EncodeKey(e: Entry): (s: seq<byte>)
    requires Encodable(e.key)
    ensures s != []
  {
    EncodeNotEmpty(e.key);
    Encode(e.key)
  }

  lemma EncodeNotEmpty(v: Value)
    requires Encodable(v)
    ensures Encode(v) != []
  {
  }

  lemma EncodeCons(e: Entry, es: seq<Entry>)
    requires Encodable(e.key) && Encodable(e.value)
    requires forall i :: 0 <= i < |es| ==> Encodable(es[i].key) && Encodable(es[i].value)
    ensures EncodeEntries([e] + es) == Encode(e.key) + Encode(e.value) + EncodeEntries(es)
  {
    assert ([e] + es)[1..] == es;
  }

  /** An ES256 key always takes 77 bytes, and its keys are in canonical order. */
  lemma CoseKeyShape(x: seq<byte>, y: seq<byte>)
    requires |x| == 32 && |y| == 32
    ensures |CoseKey(x, y).value| == 77
    ensures Canonical(CoseMap(x, y).entries)
  {
    CoseLength(x, y, CoseMap(x, y).entries);
  }

  predicate AllEncodable(es: seq<Entry>) {
    forall i :: 0 <= i < |es| ==> Encodable(es[i].key) && Encodable(es[i].value)
  }

  lemma {:induction false} EncodedLength(es: seq<Entry>, n: nat)
    requires AllEncodable(es) && n <= |es|
    ensures |EncodeEntries(es)| == LengthOf(es, n) + |EncodeEntries(es[n..])|
  {
    if n == 0 {
      assert es[0..] == es;
    } else {
      EncodedLength(es, n - 1);
      assert es[n - 1..] == [es[n - 1]] + es[n..];
      EncodeCons(es[n - 1], es[n..]);
    }
  }

  function LengthOf(es: seq<Entry>, n: nat): nat
    requires AllEncodable(es) && n <= |es|
  {
    if n == 0 then 0 else LengthOf(es, n - 1) + |Encode(es[n - 1].key)| + |Encode(es[n - 1].value)|
  }

  /** Small numbers take one byte, and a coordinate its 32 and a head of two. */
  lemma CoseParts(n: int, coordinate: seq<byte>)
    requires -8 <= n < 8 && |coordinate| == 32
    ensures Encodable(Integer(n)) && |Encode(Integer(n))| == 1
    ensures Encodable(Blob(coordinate)) && |Encode(Blob(coordinate))| == 34
  {
  }

  lemma NextLength(es: seq<Entry>, n: nat, part: nat)
    requires AllEncodable(es) && n < |es| && |Encode(es[n].key)| + |Encode(es[n].value)| == part
    ensures LengthOf(es, n + 1) == LengthOf(es, n) + part
  {
  }

  lemma CoseLength(x: seq<byte>, y: seq<byte>, es: seq<Entry>)
    requires |x| == 32 && |y| == 32 && es == CoseMap(x, y).entries
    ensures AllEncodable(es) && |EncodeEntries(es)| == 76
  {
    CoseEncodable(x, y);
    forall n | -8 <= n < 8 ensures |Encode(Integer(n))| == 1 {
      CoseParts(n, x);
    }
    CoseParts(0, x);
    CoseParts(0, y);
    NextLength(es, 0, 2);
    NextLength(es, 1, 2);
    NextLength(es, 2, 2);
    NextLength(es, 3, 35);
    NextLength(es, 4, 35);
    EncodedLength(es, 5);
  }

  // ---- Responses -------------------------------------------------------------------------

  function MakeCredentialMap(authData: seq<byte>): Value {
    Map([Entry(Integer(1), Text(NONE)), Entry(Integer(2), Blob(authData)), Entry(Integer(3), Map([]))])
  }

  /** The order in which the helper writes a descriptor. */
  function ResponseDescriptor(id: seq<byte>): Value {
    Map([Entry(Text(TYPE), Text(PUBLIC_KEY)), Entry(Text(ID), Blob(id))])
  }

  function GetAssertionReply(id: seq<byte>, authData: seq<byte>, signature: seq<byte>): Value {
    Map([Entry(Integer(1), ResponseDescriptor(id)), Entry(Integer(2), Blob(authData)),
      Entry(Integer(3), Blob(signature))])
  }

  /** What a browser takes from a registration: the authenticator data. */
  function ReadMakeCredential(s: seq<byte>): Option<seq<byte>> {
    match TopLevelMap(s)
    case None => None
    case Some(entries) => (match EntryAt(entries, 2) case Some(Blob(authData)) => Some(authData) case _ => None)
  }

  /** What a browser takes from an assertion: credential id, authenticator data and signature. */
  function ReadGetAssertion(s: seq<byte>): Option<(seq<byte>, seq<byte>, seq<byte>)> {
    match TopLevelMap(s)
    case None => None
    case Some(entries) =>
      match (EntryAt(entries, 1), EntryAt(entries, 2), EntryAt(entries, 3))
      case (Some(descriptor), Some(Blob(authData)), Some(Blob(signature))) =>
        (match Field(descriptor, ID) case Some(Blob(id)) => Some((id, authData, signature)) case _ => None)
      case _ => None
  }

  lemma MakeCredentialRead(authData: seq<byte>)
    requires |authData| < U64_LIMIT
    ensures Encodable(MakeCredentialMap(authData))
        && ReadMakeCredential(Encode(MakeCredentialMap(authData))) == Some(authData)
  {
    var m := MakeCredentialMap(authData);
    var es := m.entries;
    LeafEncodable(es[0].value);
    LeafEncodable(es[1].value);
    LeavesEncodable([]);
    ThreeEncodable(es);
    DecodeEncode(m, []);
    assert Encode(m) + [] == Encode(m);
    ThreeEntries(m.entries);
  }

  lemma GetAssertionRead(id: seq<byte>, authData: seq<byte>, signature: seq<byte>)
    requires |id| < U64_LIMIT && |authData| < U64_LIMIT && |signature| < U64_LIMIT
    ensures Encodable(GetAssertionReply(id, authData, signature))
    ensures ReadGetAssertion(Encode(GetAssertionReply(id, authData, signature))) == Some((id, authData, signature))
  {
    var m := GetAssertionReply(id, authData, signature);
    var es := m.entries;
    DescriptorShape(id);
    LeafEncodable(es[1].value);
    LeafEncodable(es[2].value);
    ThreeEncodable(es);
    DecodeEncode(m, []);
    assert Encode(m) + [] == Encode(m);
    ThreeEntries(m.entries);
  }

  lemma ReplyFits(id: seq<byte>, authData: seq<byte>, signature: seq<byte>)
    requires Encodable(GetAssertionReply(id, authData, signature))
    ensures |id| < U64_LIMIT && |authData| < U64_LIMIT && |signature| < U64_LIMIT
  {
    var es := GetAssertionReply(id, authData, signature).entries;
    assert Encodable(es[0].value) && Encodable(es[1].value) && Encodable(es[2].value);
    var descriptor := ResponseDescriptor(id).entries;
    assert Encodable(descriptor[1].value);
  }

  lemma DescriptorShape(id: seq<byte>)
    requires |id| < U64_LIMIT
    ensures Encodable(ResponseDescriptor(id)) && Field(ResponseDescriptor(id), ID) == Some(Blob(id))
  {
    var es := ResponseDescriptor(id).entries;
    LeavesEncodable(es);
    assert |TYPE| == 4 && |ID| == 2;
    assert es[1..] == [es[1]];
    assert TextEntry(es[1..], ID) == Some(Blob(id));
  }

  /** The helper's descriptor is not in canonical order, while a browser's is. */
  lemma DescriptorNotCanonical(id: seq<byte>)
    requires |id| < U64_LIMIT
    ensures Encodable(Text(TYPE)) && Encodable(Text(ID))
    ensures !Canonical(ResponseDescriptor(id).entries) && Canonical(Descriptor(id).entries)
  {
    var es := ResponseDescriptor(id).entries;
    assert |EncodeKey(es[0])| == 5 && |EncodeKey(es[1])| == 3;
    assert EncodeKey(es[0])[0] / 32 == 3 && EncodeKey(es[1])[0] / 32 == 3;
    var ds := Descriptor(id).entries;
    assert |EncodeKey(ds[0])| == 3 && |EncodeKey(ds[1])| == 5;
    assert EncodeKey(ds[0])[0] / 32 == 3 && EncodeKey(ds[1])[0] / 32 == 3;
  }
}

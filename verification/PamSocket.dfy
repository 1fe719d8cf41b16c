/** The PAM module in C and the daemon's side of its socket. */
module PamSocket {
  import opened Wrappers
  import opened Json

  const NUL: char := '\0'

  /** The text of a NUL-terminated buffer. */
  function CString(s: string): (r: string)
    ensures r <= s
  {
    if s == "" || s[0] == NUL then "" else [s[0]] + CString(s[1..])
  }

  // ---- The request -----------------------------------------------------------------------

  const BUFFER := 256
  const REQUEST_MAX := 1024
  const REPLY_MAX := 1024

  /** The line assembled by `snprintf` from the two escaped texts. */
  function Assemble(user: string, service: string): string {
    "{\"user\":\"" + user + "\",\"action\":\"" + service + "\",\"detail\":\"authorising " + service + "\"}\n"
  }

  function RequestLine(user: string, service: string): string {
    Assemble(Escape(Pam, user), Escape(Pam, service))
  }

  /** Both texts fit the module's buffers once escaped. */
  predicate Fits(user: string, service: string) {
    |Escape(Pam, user)| < BUFFER && |Escape(Pam, service)| < BUFFER
  }

  /** What `handle_pam` makes of a line. */
  datatype Operation =
    | Verify(user: string, action: string, detail: string)
    | MakeCredential(rpId: string, userName: string)
    | Assert(rpId: string, credentialId: string, payload: string)
    | UnknownOperation(name: string)

  function OperationOf(o: Object): Operation {
    var op := TextOr(o, "op", "verify");
    if op == "webauthn.makecred" then MakeCredential(TextOr(o, "rpId", ""), TextOr(o, "userName", "user"))
    else if op == "webauthn.assert" then
      Assert(TextOr(o, "rpId", ""), TextOr(o, "credId", ""), TextOr(o, "payload", ""))
    else if Heads("webauthn.", op) then UnknownOperation(op)
    else Verify(TextOr(o, "user", "unknown"), TextOr(o, "action", "unknown"), TextOr(o, "detail", ""))
  }

  function ReadOperation(line: string): Option<Operation> {
    match ParseObject(line)
    case None => None
    case Some(o) => Some(OperationOf(o))
  }

  /** A line asks for a verification if and only if its operation does not begin with `webauthn.`;
      of those that do only two are known. */
  lemma OperationExactly(o: Object)
    ensures var op := TextOr(o, "op", "verify");
      && (OperationOf(o).Verify? <==> !Heads("webauthn.", op))
      && (OperationOf(o) == UnknownOperation(op) <==>
            Heads("webauthn.", op) && op != "webauthn.makecred" && op != "webauthn.assert")
  {
    assert Heads("webauthn.", "webauthn.makecred") && Heads("webauthn.", "webauthn.assert");
  }

  lemma {:induction false} EscapeAppend(e: Escaper, a: string, b: string)
    ensures Escape(e, a + b) == Escape(e, a) + Escape(e, b)
  {
    if a == "" {
      assert a + b == b;
    } else {
      SplitHead(a, b);
      EscapeAppend(e, a[1..], b);
    }
  }

  lemma {:induction false} KeptAppend(e: Escaper, a: string, b: string)
    ensures Kept(e, a + b) == Kept(e, a) + Kept(e, b)
  {
    if a == "" {
      assert a + b == b;
    } else {
      SplitHead(a, b);
      KeptAppend(e, a[1..], b);
    }
  }

  predicate Plain(s: string) {
    forall i :: 0 <= i < |s| ==> !IsControl(s[i]) && s[i] != QUOTE && s[i] != BACKSLASH && s[i] != '/'
  }

  lemma {:induction false} EscapePlain(e: Escaper, s: string)
    requires Plain(s)
    ensures Escape(e, s) == s && Kept(e, s) == s
  {
    if s != "" {
      EscapePlain(e, s[1..]);
    }
  }

  function RequestMembers(user: string, service: string): seq<(string, Scalar)> {
    [("user", Text(user)), ("action", Text(service)), ("detail", Text("authorising " + service))]
  }

  /** How the pieces of the format string fall into members. */
  lemma FormatPieces()
    ensures "{" + ("\"" + "user" + "\":\"") == "{\"user\":\""
    ensures "\"" + "," + ("\"" + "action" + "\":\"") == "\",\"action\":\""
    ensures "\"" + "," + ("\"" + "detail" + "\":\"") + "authorising " == "\",\"detail\":\"authorising "
    ensures "\"" + "}" + "\n" == "\"}\n"
  {
  }

  lemma PlainMember(key: string, value: string)
    requires Plain(key)
    ensures PrintMember(Pam, COMPACT, (key, Text(value))) == ("\"" + key + "\":\"") + Escape(Pam, value) + "\""
  {
    EscapePlain(Pam, key);
  }

  lemma ThreeMembers(ms: seq<(string, Scalar)>)
    requires |ms| == 3
    ensures PrintObject(Pam, COMPACT, ms)
         == "{" + (PrintMember(Pam, COMPACT, ms[0]) + ","
               + (PrintMember(Pam, COMPACT, ms[1]) + "," + (PrintMember(Pam, COMPACT, ms[2]) + "}")))
  {
    assert ms[1..][1..] == ms[2..];
    assert PrintMembers(Pam, COMPACT, ms[2..]) == PrintMember(Pam, COMPACT, ms[2]) + "}";
    assert PrintMembers(Pam, COMPACT, ms[1..])
        == PrintMember(Pam, COMPACT, ms[1]) + "," + PrintMembers(Pam, COMPACT, ms[2..]);
  }

  lemma Glue(open: string, k1: string, u: string, q: string, comma: string, k2: string, s: string,
             k3: string, a: string, close: string, end: string, f1: string, f2: string, f3: string, f4: string)
    requires f1 == open + k1 && f2 == q + comma + k2 && f3 == q + comma + k3 + a && f4 == q + close + end
    ensures open + ((k1 + u + q) + comma + ((k2 + s + q) + comma + ((k3 + (a + s) + q) + close))) + end
         == f1 + u + f2 + s + f3 + s + f4
  {
  }

  lemma EscapeAfterPlain(prefix: string, s: string)
    requires Plain(prefix)
    ensures Escape(Pam, prefix + s) == prefix + Escape(Pam, s)
    ensures Kept(Pam, prefix + s) == prefix + Kept(Pam, s)
  {
    EscapePlain(Pam, prefix);
    EscapeAppend(Pam, prefix, s);
    KeptAppend(Pam, prefix, s);
  }

  lemma PrefixedMember(key: string, prefix: string, value: string)
    requires Plain(key) && Plain(prefix)
    ensures PrintMember(Pam, COMPACT, (key, Text(prefix + value)))
         == ("\"" + key + "\":\"") + (prefix + Escape(Pam, value)) + "\""
  {
    EscapeAfterPlain(prefix, value);
    PlainMember(key, prefix + value);
  }

  lemma PlainKeys()
    ensures Plain("user") && Plain("action") && Plain("detail")
  {
  }

  lemma PlainPrefix()
    ensures Plain("authorising ")
  {
  }

  lemma MembersPrinted(user: string, service: string, ms: seq<(string, Scalar)>)
    requires ms == RequestMembers(user, service)
    ensures PrintMember(Pam, COMPACT, ms[0]) == ("\"" + "user" + "\":\"") + Escape(Pam, user) + "\""
    ensures PrintMember(Pam, COMPACT, ms[1]) == ("\"" + "action" + "\":\"") + Escape(Pam, service) + "\""
    ensures PrintMember(Pam, COMPACT, ms[2])
         == ("\"" + "detail" + "\":\"") + ("authorising " + Escape(Pam, service)) + "\""
  {
    PlainKeys();
    PlainPrefix();
    PlainMember("user", user);
    PlainMember("action", service);
    PrefixedMember("detail", "authorising ", service);
  }

  /** The format string writes the same text as a JSON printer would. */
  lemma RequestLineIsPrinted(user: string, service: string, ms: seq<(string, Scalar)>)
    requires ms == RequestMembers(user, service)
    ensures RequestLine(user, service) == PrintObject(Pam, COMPACT, ms) + "\n"
  {
    FormatPieces();
    ThreeMembers(ms);
    MembersPrinted(user, service, ms);
    Glue("{", "\"" + "user" + "\":\"", Escape(Pam, user), "\"", ",", "\"" + "action" + "\":\"",
         Escape(Pam, service), "\"" + "detail" + "\":\"", "authorising ", "}", "\n",
         "{\"user\":\"", "\",\"action\":\"", "\",\"detail\":\"authorising ", "\"}\n");
  }

  /** The three members keep their own keys and lose the control characters of their values. */
  lemma ThreeFields(ms: seq<(string, Scalar)>)
    requires |ms| == 3 && forall i :: 0 <= i < 3 ==> ControlFree(ms[i].0)
    requires ms[0].0 != ms[1].0 && ms[0].0 != ms[2].0 && ms[1].0 != ms[2].0
    ensures var o := Collect(Pam, ms, map[]);
      && o.Keys == {ms[0].0, ms[1].0, ms[2].0}
      && forall i :: 0 <= i < 3 ==> o[ms[i].0] == KeptScalar(Pam, ms[i].1)
  {
    CollectKeys(Pam, ms, map[]);
    var keys := set j | 0 <= j < |ms| :: ms[j].0;
    assert ms[0].0 in keys && ms[1].0 in keys && ms[2].0 in keys;
    var o := Collect(Pam, ms, map[]);
    forall i | 0 <= i < 3 ensures ms[i].0 in o && o[ms[i].0] == KeptScalar(Pam, ms[i].1) {
      CollectFinds(Pam, ms, map[], i);
    }
  }

  lemma RequestKeysDiffer()
    ensures "user" != "action" && "user" != "detail" && "action" != "detail"
  {
    assert |"user"| == 4 && |"action"| == 6 && |"detail"| == 6;
    assert "action"[0] == 'a' && "detail"[0] == 'd';
  }

  lemma OperationIsVerify(o: Object, user: string, action: string, detail: string)
    requires o == map["user" := Text(user), "action" := Text(action), "detail" := Text(detail)]
    ensures OperationOf(o) == Verify(user, action, detail)
  {
    RequestKeysDiffer();
    assert |"op"| == 2;
    assert "op" !in o;
    assert |"verify"| == 6 && |"webauthn.makecred"| == 17 && |"webauthn.assert"| == 15 && |"webauthn."| == 9;
  }

  lemma ThreeFieldObject(o: Object, k1: string, k2: string, k3: string, v1: Scalar, v2: Scalar, v3: Scalar)
    requires o.Keys == {k1, k2, k3} && k1 != k2 && k1 != k3 && k2 != k3
    requires o[k1] == v1 && o[k2] == v2 && o[k3] == v3
    ensures o == map[k1 := v1, k2 := v2, k3 := v3]
  {
  }

  lemma RequestOperation(ms: seq<(string, Scalar)>)
    requires |ms| == 3 && ms[0].0 == "user" && ms[1].0 == "action" && ms[2].0 == "detail"
    requires ms[0].1.Text? && ms[1].1.Text? && ms[2].1.Text?
    ensures Collect(Pam, ms, map[]).Keys == {"user", "action", "detail"}
    ensures OperationOf(Collect(Pam, ms, map[]))
         == Verify(Kept(Pam, ms[0].1.text), Kept(Pam, ms[1].1.text), Kept(Pam, ms[2].1.text))
  {
    PlainKeys();
    RequestKeysDiffer();
    ThreeFields(ms);
    var user, action, detail := Kept(Pam, ms[0].1.text), Kept(Pam, ms[1].1.text), Kept(Pam, ms[2].1.text);
    ThreeFieldObject(Collect(Pam, ms, map[]), ms[0].0, ms[1].0, ms[2].0, Text(user), Text(action), Text(detail));
    OperationIsVerify(Collect(Pam, ms, map[]), user, action, detail);
  }

  /** Whatever user and service the module accepts, the daemon reads back exactly those two,
      without their control characters, and always as a verification. */
  lemma RequestReadBack(user: string, service: string)
    ensures ReadOperation(RequestLine(user, service))
         == Some(Verify(Kept(Pam, user), Kept(Pam, service), "authorising " + Kept(Pam, service)))
    ensures ParseObject(RequestLine(user, service)).value.Keys == {"user", "action", "detail"}
  {
    var ms := RequestMembers(user, service);
    RequestParsed(user, service, ms);
    RequestOperation(ms);
    PlainPrefix();
    EscapeAfterPlain("authorising ", service);
  }

  lemma RequestParsed(user: string, service: string, ms: seq<(string, Scalar)>)
    requires ms == RequestMembers(user, service)
    ensures ParseObject(RequestLine(user, service)) == Some(Collect(Pam, ms, map[]))
  {
    RequestLineIsPrinted(user, service, ms);
    ParsePrinted(Pam, COMPACT, ms, "\n");
  }

  /** The line always fits `snprintf`'s buffer and is one line. */
  lemma RequestIsOneLine(user: string, service: string)
    requires Fits(user, service)
    ensures var line := RequestLine(user, service);
      && |line| <= 813 < REQUEST_MAX
      && line[|line| - 1] == '\n' && ControlFree(line[..|line| - 1])
  {
    var ms := RequestMembers(user, service);
    RequestLineIsPrinted(user, service, ms);
    PrintControlFree(Pam, ms);
    var line := RequestLine(user, service);
    assert line[..|line| - 1] == PrintObject(Pam, COMPACT, ms);
  }

  // ---- The verdict -----------------------------------------------------------------------

  datatype Outcome = Approved | Denied(reason: string)

  function ReplyMembers(o: Outcome): seq<(string, Scalar)> {
    match o
    case Approved => [("ok", Flag(true)), ("reason", Text("success"))]
    case Denied(reason) => [("ok", Flag(false)), ("reason", Text(reason))]
  }

  /** The line `handle_pam` answers with, before its newline. */
  function Reply(o: Outcome): string {
    PrintObject(Serde, COMPACT, ReplyMembers(o))
  }

  predicate OccursAt(part: string, s: string, i: nat) {
    i + |part| <= |s| && s[i..i + |part|] == part
  }

  predicate Contains(s: string, part: string) {
    exists i | 0 <= i <= |s| :: OccursAt(part, s, i)
  }

  const OK_TRUE := "\"ok\":true"

  datatype Verdict = Success | Unavailable

  /** `strstr` over what `read_line` left in the buffer. */
  function VerdictOn(received: string): Verdict {
    if received != "" && Contains(CString(received), OK_TRUE) then Success else Unavailable
  }

  lemma PlainKey(key: string)
    requires Plain(key)
    ensures Quoted(Serde, key) == "\"" + key + "\""
  {
    EscapePlain(Serde, key);
  }

  lemma TwoMembers(ms: seq<(string, Scalar)>)
    requires |ms| == 2
    ensures PrintObject(Serde, COMPACT, ms)
         == "{" + (PrintMember(Serde, COMPACT, ms[0]) + "," + (PrintMember(Serde, COMPACT, ms[1]) + "}"))
  {
    assert PrintMembers(Serde, COMPACT, ms[1..]) == PrintMember(Serde, COMPACT, ms[1]) + "}";
  }

  const DENIAL_HEAD := "{\"ok\":false,\"reason\":\""

  lemma DenialPieces()
    ensures "{" + ("\"" + "ok" + "\"" + ":" + "false") + "," + ("\"" + "reason" + "\"" + ":" + "\"") == DENIAL_HEAD
  {
  }

  lemma DenialGlue(a: string, b: string, c: string, d: string, e: string, f: string, q: string, z: string)
    ensures a + (b + c + (d + (e + f + q) + z)) == (a + b + c + (d + e)) + f + (q + z)
  {
  }

  lemma ReplyMember(key: string, value: Scalar)
    requires Plain(key)
    ensures PrintMember(Serde, COMPACT, (key, value)) == "\"" + key + "\"" + ":" + PrintScalar(Serde, value)
  {
    PlainKey(key);
  }

  lemma PlainReplyWords()
    ensures Plain("ok") && Plain("reason") && Plain("success")
  {
  }

  lemma DenialMembers(reason: string, ms: seq<(string, Scalar)>)
    requires ms == ReplyMembers(Denied(reason))
    ensures PrintMember(Serde, COMPACT, ms[0]) == "\"" + "ok" + "\"" + ":" + "false"
    ensures PrintMember(Serde, COMPACT, ms[1]) == "\"" + "reason" + "\"" + ":" + ("\"" + Escape(Serde, reason) + "\"")
  {
    PlainReplyWords();
    ReplyMember("ok", Flag(false));
    ReplyMember("reason", Text(reason));
  }

  lemma DenialText(reason: string, ms: seq<(string, Scalar)>)
    requires ms == ReplyMembers(Denied(reason))
    ensures PrintObject(Serde, COMPACT, ms) == DENIAL_HEAD + Escape(Serde, reason) + ("\"" + "}")
  {
    TwoMembers(ms);
    DenialMembers(reason, ms);
    DenialPieces();
    DenialGlue("{", "\"" + "ok" + "\"" + ":" + "false", ",", "\"" + "reason" + "\"" + ":", "\"",
               Escape(Serde, reason), "\"", "}");
  }

  lemma ApprovalMembers(ms: seq<(string, Scalar)>)
    requires ms == ReplyMembers(Approved)
    ensures PrintMember(Serde, COMPACT, ms[0]) == "\"" + "ok" + "\"" + ":" + "true"
    ensures PrintMember(Serde, COMPACT, ms[1]) == "\"" + "reason" + "\"" + ":" + ("\"" + "success" + "\"")
  {
    PlainReplyWords();
    ReplyMember("ok", Flag(true));
    ReplyMember("reason", Text("success"));
    PlainKey("success");
  }

  lemma ApprovalText(ms: seq<(string, Scalar)>)
    requires ms == ReplyMembers(Approved)
    ensures OccursAt(OK_TRUE, PrintObject(Serde, COMPACT, ms), 1) && |PrintObject(Serde, COMPACT, ms)| == 30
  {
    var a, b := PrintMember(Serde, COMPACT, ms[0]), PrintMember(Serde, COMPACT, ms[1]);
    TwoMembers(ms);
    ApprovalMembers(ms);
    ApprovalPieces();
    FirstOccurs("{", a, ",", b, "}");
  }

  lemma ApprovalPieces()
    ensures "\"" + "ok" + "\"" + ":" + "true" == OK_TRUE
    ensures |"\"" + "reason" + "\"" + ":" + ("\"" + "success" + "\"")| == 18
  {
  }

  lemma FirstOccurs(open: string, a: string, comma: string, b: string, close: string)
    requires |open| == 1 && |comma| == 1 && |close| == 1
    ensures var s := open + (a + comma + (b + close)); OccursAt(a, s, 1) && |s| == |a| + |b| + 3
  {
  }

  /** Inside an escaped text every quote follows a backslash. */
  lemma {:induction false} QuoteIsEscaped(s: string, j: nat)
    requires j < |Escape(Serde, s)| && Escape(Serde, s)[j] == QUOTE
    ensures j > 0 && Escape(Serde, s)[j - 1] == BACKSLASH
  {
    var head := EscapeUnit(Serde, s[0]);
    if j >= |head| {
      QuoteIsEscaped(s[1..], j - |head|);
    }
  }

  /** Where the quotes of a denial are: in its fixed head, escaped in the reason, or closing it. */
  lemma QuotesOfDenial(reason: string, s: string, j: nat)
    requires s == DENIAL_HEAD + Escape(Serde, reason) + ("\"" + "}")
    requires j < |s| && s[j] == QUOTE
    ensures j < 4 || j == 4 || (j < |DENIAL_HEAD| && s[j - 1] != 'k') || s[j - 1] == BACKSLASH || j == |s| - 2
  {
    var n := |DENIAL_HEAD|;
    assert s[|s| - 1] == '}';
    if j < n {
      assert s[j] == DENIAL_HEAD[j];
      assert j > 0 ==> s[j - 1] == DENIAL_HEAD[j - 1];
    } else if j < n + |Escape(Serde, reason)| {
      assert Escape(Serde, reason)[j - n] == QUOTE;
      QuoteIsEscaped(reason, j - n);
      assert s[j - 1] == Escape(Serde, reason)[j - n - 1];
    }
  }

  predicate PatternAt(s: string, i: nat) {
    && i + 9 <= |s|
    && s[i] == QUOTE && s[i + 1] == 'o' && s[i + 2] == 'k' && s[i + 3] == QUOTE && s[i + 4] == ':' && s[i + 5] == 't'
  }

  lemma PatternUnits(s: string, i: nat)
    requires OccursAt(OK_TRUE, s, i)
    ensures PatternAt(s, i)
  {
    forall k | 0 <= k < 9 ensures s[i + k] == OK_TRUE[k] {
      assert s[i..i + 9][k] == s[i + k];
    }
  }

  lemma DenialUnits(reason: string, s: string)
    requires s == DENIAL_HEAD + Escape(Serde, reason) + ("\"" + "}")
    ensures |s| >= 24 && s[0] == '{' && s[1] == QUOTE && s[4] == QUOTE && s[5] == ':' && s[6] == 'f'
    ensures s[|s| - 1] == '}' && s[2] == 'o' && s[3] == 'k'
  {
    assert forall k :: 0 <= k < |DENIAL_HEAD| ==> s[k] == DENIAL_HEAD[k];
  }

  lemma NoPatternInDenial(reason: string, s: string, i: nat)
    requires s == DENIAL_HEAD + Escape(Serde, reason) + ("\"" + "}")
    ensures !PatternAt(s, i)
  {
    DenialUnits(reason, s);
    if i + 3 < |s| && s[i + 3] == QUOTE {
      QuotesOfDenial(reason, s, i + 3);
    }
  }

  /** No denial, however long its reason and wherever it is cut, holds the approving pattern. */
  lemma DenialNeverApproves(reason: string, n: nat)
    requires n <= |Reply(Denied(reason))|
    ensures !Contains(Reply(Denied(reason))[..n], OK_TRUE)
  {
    var s := Reply(Denied(reason));
    DenialText(reason, ReplyMembers(Denied(reason)));
    if i :| 0 <= i <= n && OccursAt(OK_TRUE, s[..n], i) {
      PatternUnits(s[..n], i);
      NoPatternInDenial(reason, s, i);
      assert false;
    }
  }
}

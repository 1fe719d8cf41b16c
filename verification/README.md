# K Passkey: approvals, framing and records, verified

A Dafny 4.11 model of the part of K Passkey that decides: a desktop daemon, a PAM module, a
virtual FIDO authenticator and a phone that approves with its fingerprint sensor. Everything a
prompt passes through is modelled, from the C buffers of the PAM module to the bytes that the
phone signs and the reply that a browser decodes; the main results say what an approval, a reply,
a pairing or a stored record means, for every input and every interleaving.

`dafny verify dfyconfig.toml` checks the whole project.

## How it is laid out

- **Routing of replies.** `Routing.dfy` is the daemon's protocol as a state machine: every atomic
  section between two awaits is a step, tasks and readers interleave freely, and replies come late,
  twice, garbled and from any connection. Signatures are idealised as a history of what the phones
  have signed. `DaemonState.dfy` is the object itself: each method is one section and is proved to
  do exactly one step. `Deliveries.dfy` says exactly when a reply takes a waiter, and whose, and
  follows the runs in which an answer arrives; `Provenance.dfy` traces every answer back to the line
  that gave it. A step of delivery takes what a line is read as, whatever that may be, so the results
  over runs also cover readings that no line has.
- **The line protocol.** `Json.dfy`, `Base64.dfy` and `Text.dfy` hold the parts of RFC 8259 and RFC
  4648 in use; `Protocol.dfy` sets the two ends of the phone's protocol against each other, newline
  framing included.
- **The PAM module.** `PamModule.dfy` has the C loops over their buffers, `PamSocket.dfy` what the daemon
  makes of the request line and why the substring test for the verdict is exact. `EndToEnd.dfy`
  joins them with the routing.
- **CTAPHID and WebAuthn.** `CtapHid.dfy` and `Uhid.dfy` are framing and reassembly (section 8.1.4 of
  CTAP 2.0), `HelperRun.dfy` the helper's whole run; `Cbor.dfy` and `WebAuthn.dfy` the requests, the
  replies and authenticator data (sections 6.1 and 6.5.1 of WebAuthn Level 2); `WebAuthnFlow.dfy`,
  `Registration.dfy` and `BrowserExchange.dfy` follow a credential from the browser to the phone and
  back, and `Relay.dfy` joins that with the routing.
- **Pairing.** `Pairing.dfy` sets lazy expiry against a history of what happened; `PairingWindow.dfy`
  is the object; `PairingUri.dfy` the QR code and the six digits; `Fingerprint.dfy` the fingerprint.
- **Records and lines that must not be lost.** `Records.dfy` and `DeviceStore.dfy` are the
  device directory with every point where a save can be cut short; `PhoneLink.dfy` is the phone's
  outbox. `Bytes.dfy`, `Numbers.dfy` and `Wrappers.dfy` hold what they share.

## What was found

- The phone reads an id as a signed 64-bit number, so it answers under the id it was asked with
  exactly when the id is below 2^63 (`Protocol.PhoneReadsRequest`).
- The daemon puts its host name into the QR code unescaped; the phone shows that name exactly when
  it is not empty and holds no `&`, `#`, `+` or `%` (`PairingUri.HostSurvives`).
- A one-packet INIT whose nonce is shorter than 8 bytes ends the helper's run, and with it any message
  still arriving. A message among others is dispatched exactly when no such packet comes before its
  last one (`HelperRun.DeliveredExactly`, `HelperRun.ShortInitEndsRun`).
- A delivery looks into the two maps at two moments. A reply for an id that nobody waits for yet is
  not lost if its request begins to wait in between: it takes that request's waiter
  (`Deliveries.EarlyReplyExactly`, `Deliveries.EarlyReplyTakesWaiter`). It can deny that request but
  never approve it unsigned (`Routing.ApprovalIsSigned`). Replies for requests already served are
  ignored in every interleaving (`Deliveries.LateReplyIgnored`).
- Authenticator data whose flags promise extensions would not be readable; the helper sets no such flag
  (`WebAuthn.AuthDataRead`).
- The comment on `path_for` says that ids which are not hexadecimal are rejected. The code drops
  their other characters instead, so two such ids can share a record; ids made by `key_id` cannot
  (`Records.OwnNameExactly`, `Records.UnsafeIdsCollide`, `Records.SafeIdsApart`). The model follows
  the code.
- The channels granted are distinct and not reserved exactly while fewer than 2^32 - 2 have been
  granted (`Uhid.ChannelsUsable`, `HelperRun.ReplyChannelsUsable`).
- A message survives framing and reassembly if and only if it has at most 7609 bytes, though `frame`
  accepts 65535 (`CtapHid.SurvivesExactly`). Of 7610 zero bytes the last packet is read as an empty
  message of command 0 (`CtapHid.TooLongFails`).
- The descriptor in an assertion reply is not in CTAP2 canonical order
  (`WebAuthn.DescriptorNotCanonical`).
- A line whose write failed goes to the end of the phone's outbox, where another one may overtake it
  (`PhoneLink.FailedWriteOvertakes`). The lines stay in order at every moment of a run if and only if
  no write fails while two different lines wait (`PhoneLink.OrderExactly`).

## Model

| member | source | states |
|---|---|---|
| Routing.StepKeepsInv | daemon/crates/kpk-spike/src/server.rs:189-284 | Whatever step comes next, every waiter in either map is the one sender of an unanswered task of the matching kind, no two readers hold the same task, and an approved task has the answer and the signature to show for it; no bound on the ids drawn. |
| Routing.RunKeepsInv | daemon/crates/kpk-spike/src/server.rs:189-284 | The same over any run from any state that satisfies it. |
| Routing.RunKeepsTask | daemon/crates/kpk-spike/src/server.rs:189-251 | A waiter is resolved at most once and a verdict is final: over any run a task keeps the key and the line it started with, the one answer it was given and its verdict. |
| Routing.ApprovalIsSigned | daemon/crates/kpk-spike/src/server.rs:218-251 | In every reachable state an approval rests on a signature over that request's own line under the key loaded at its start. |
| Routing.SignatureApprovesOne | daemon/crates/kpk-spike/src/server.rs:218-251 | No signature approves two requests, unless the 64-bit counter went all the way round between them. |
| Routing.ApprovalsHaveOwnLines | daemon/crates/kpk-spike/src/protocol.rs:37-51 | Approvals inject into the lines the phones have signed: two of them rest on two different lines, with the same exception. |
| Routing.ApprovalsAreCounted | daemon/crates/kpk-spike/src/server.rs:218-251 | So approvals never outnumber the distinct lines the phones have signed. |
| Routing.StepKeepsWaiters | daemon/crates/kpk-spike/src/server.rs:189-284 | While ids are unique, each step keeps every listening task's sender alive and every mapped task unfinished and unanswered. |
| Routing.RunKeepsWaiters | daemon/crates/kpk-spike/src/server.rs:189-284 | The same over any run that draws at most 2^64 ids. |
| Routing.MapsBelongToTasks | daemon/crates/kpk-spike/src/server.rs:189-284 | The two maps never share a key; each key has been drawn and belongs to exactly one unfinished task of the matching kind; a finished task (approved, denied, timed out, send failed) has its id in neither. |
| Routing.NeverAbandoned | daemon/crates/kpk-spike/src/server.rs:236-241 | No waiter is dropped unused, so the "abandoned" branches cannot be reached. |
| Routing.OutboundIsNewest | daemon/crates/kpk-spike/src/server.rs:63-69 | Over every run from the start, requests go to the connection that was adopted last, which is read off the steps alone, and to none before the first. |
| Routing.SentToNewest | daemon/crates/kpk-spike/src/server.rs:179-185 | A request that waits to be written can be written if and only if a phone has connected, and then to the newest connection. |
| Provenance.AnswerIsOwn | daemon/crates/kpk-spike/src/server.rs:187-216 | In every run whose deliveries were read from some lines, whatever answer a request has been given was said by one of those lines with that request's own id. |
| Provenance.VerdictIsOwn | daemon/crates/kpk-spike/src/server.rs:246-283 | So a request is denied, or a credential request granted, only by a line with its own id: the denial is that line's reason, the grant that line's whole object, and an approval's signature is that line's. |
| Deliveries.LookUpTakes | daemon/crates/kpk-spike/src/server.rs:209-212 | The second look-up of a delivery changes nothing but its reader exactly when no verification waits under its reply's id. |
| Deliveries.DeliveryTakesExactly | daemon/crates/kpk-spike/src/server.rs:189-216 | Whatever others do between its two look-ups, a delivery takes a verification's waiter if and only if its line has a 64-bit id and a denial or a signature that decodes, no credential request waited under that id at the first look-up, and a verification does at the second; otherwise it changes nothing but its own reader. |
| Deliveries.DeliveryTakesOwner | daemon/crates/kpk-spike/src/server.rs:209-215 | The waiter it then takes belongs to the one verification with the line's own id, and what is carried to it is the line's own answer. |
| Deliveries.GarbledReplyTakesNothing | daemon/crates/kpk-spike/src/protocol.rs:60-86 | A reply with neither a denial nor a decodable signature never takes a verification's waiter, in any interleaving. |
| Deliveries.SpentExactly | daemon/crates/kpk-spike/src/server.rs:218-284 | Whose waiter is gone: every finished request's, and a listening one's exactly when its answer has come or is on its way. |
| Deliveries.LateReplyIgnored | daemon/crates/kpk-spike/src/server.rs:187-216 | A reply to a request whose waiter is gone changes nothing but its own reader at either look-up, whatever others do in between. |
| Deliveries.RunKeepsGivenUp | daemon/crates/kpk-spike/src/server.rs:229-245 | Once a request has given up, no run makes any reply its answer. |
| Deliveries.EarlyReplyExactly | daemon/crates/kpk-spike/src/server.rs:189-216 | A reply that comes before its request takes nothing at the first look-up, and at the second exactly if a request with its id has begun to wait in between. |
| Deliveries.EarlyReplyTakesWaiter | daemon/crates/kpk-spike/src/server.rs:189-216 | The run in which it does: a denial of the first id, sent before any request, is carried to the first verification. |
| Deliveries.HeldReplyIsAnswer | daemon/crates/kpk-spike/src/server.rs:214-250 | And from there on that denial is the verification's answer, although its request is written only afterwards. |
| Deliveries.GivingUpEnds | daemon/crates/kpk-spike/src/server.rs:229-245 | A write that fails, or an answer that does not come in time, ends the request as failed for that reason; its waiter leaves its map and nothing else changes. |
| Deliveries.ConcludesExactly | daemon/crates/kpk-spike/src/server.rs:236-250 | An answered verification is approved if and only if the answer is a signature over its own line under its own key; denials, received objects and bad signatures exactly otherwise. |
| Deliveries.ApprovalCompletes | daemon/crates/kpk-spike/src/server.rs:189-251 | Liveness of the good case: the phone's approval line, on any connection, leads a waiting verification to the verdict approved. |
| Deliveries.CredentialCompletes | daemon/crates/kpk-spike/src/server.rs:254-284 | Likewise a new credential on any connection completes the request for it, with both texts as the phone gave them. |
| Deliveries.ApprovalIsPossible | daemon/crates/kpk-spike/src/server.rs:218-251 | Every request with a 64-bit id can be approved in some run from the start, so the results above are not empty. |
| DaemonState.Daemon.constructor | daemon/crates/kpk-spike/src/server.rs:41-51 | A new daemon is in the protocol's initial state. |
| DaemonState.Daemon.FetchId | daemon/crates/kpk-spike/src/server.rs:222-222 | The id handed out is the counter before an addition that wraps at 2^64. |
| DaemonState.Daemon.StartVerification | daemon/crates/kpk-spike/src/server.rs:218-224 | Exactly the protocol's step that draws an id and fixes key and line; the invariant is kept. |
| DaemonState.Daemon.StartAsk | daemon/crates/kpk-spike/src/server.rs:254-258 | Exactly the step that draws an id for a credential request, from the same counter. |
| DaemonState.Daemon.LoseChallenge | daemon/crates/kpk-spike/src/server.rs:222-223 | When the random source fails, the id is spent and the verification ends with no waiter inserted. |
| DaemonState.Daemon.InsertWaiter | daemon/crates/kpk-spike/src/server.rs:226-227 | Exactly the insertion of the waiter into the map of its kind. |
| DaemonState.Daemon.SendLine | daemon/crates/kpk-spike/src/server.rs:179-185 | Succeeds only with a phone connected and a write that succeeds, and otherwise leads to the removal of the waiter. |
| DaemonState.Daemon.GiveUp | daemon/crates/kpk-spike/src/server.rs:242-245 | Exactly the timeout, which may race an answer just deposited. |
| DaemonState.Daemon.RemoveWaiter | daemon/crates/kpk-spike/src/server.rs:229-245 | Exactly the removal of that id, and no other, from the map of its kind. |
| DaemonState.Daemon.Conclude | daemon/crates/kpk-spike/src/server.rs:236-250 | The verdict on the answer received, judged against the key and line of the start. |
| DaemonState.Daemon.LookUpJson | daemon/crates/kpk-spike/src/server.rs:189-199 | The first half of the delivery takes a credential request's waiter for the id, or goes on. |
| DaemonState.Daemon.LookUp | daemon/crates/kpk-spike/src/server.rs:201-212 | The second half takes a verification's waiter only for a reply that parses. |
| DaemonState.Daemon.HandOver | daemon/crates/kpk-spike/src/server.rs:214-215 | The answer reaches the run it is for if that run still listens, and is lost otherwise. |
| DaemonState.Daemon.AdoptPhone | daemon/crates/kpk-spike/src/server.rs:63-69 | The new connection is the one written to, whether or not there was one before, and every waiter is left alone. |
| Json.UnescapeEscape | pam/tests/pam_kpk_spike.c:57-79 | Every escaper of the project (the C one, serde_json's, org.json's) is undone by the reader, which gets back the text, less the control characters that the C one drops. |
| Json.ParsePrinted | daemon/crates/kpk-spike/src/protocol.rs:39-51 | Printing an object and reading it back gives its members, whatever the escaper and the white space. |
| Json.NullChangesNothing | daemon/crates/kpk-spike/src/server.rs:189-192 | A member that is null, under any key, changes nothing in what is read. |
| Json.PrintControlFree | daemon/crates/kpk-spike/src/protocol.rs:39-51 | A printed object holds no control character, whatever its texts hold. |
| Base64.DecodeEncode | daemon/crates/kpk-spike/src/uhid.rs:250-258 | Either engine (Rust, Java) reads back what either end encoded, in both alphabets and at every length. |
| Base64.EncodeDecode | daemon/crates/kpk-spike/src/uhid.rs:197-200 | A text that the Rust engine accepts is the encoding of the bytes it stands for. |
| Protocol.ToLineControlFree | daemon/crates/kpk-spike/src/protocol.rs:37-51 | The request line holds no control byte, so no newline, whatever user, host, action and detail are. |
| Protocol.FramingDelivers | daemon/crates/kpk-spike/src/server.rs:179-185 | Newline framing delivers such lines whole, in order and byte for byte. |
| Protocol.RequestsDelivered | android/app/src/main/kotlin/org/kpasskey/net/DesktopLink.kt:84-93 | Any number of requests sent back to back reach the phone's reader as the lines the daemon made. |
| Protocol.PhoneReadsRequest | android/app/src/main/kotlin/org/kpasskey/net/Protocol.kt:91-133 | The phone shows exactly the user, host, action and detail the daemon put in and keeps the line itself for signing; it answers under the same id if and only if the id is below 2^63. |
| Protocol.LineDeterminesRequest | daemon/crates/kpk-spike/src/protocol.rs:37-51 | The signed bytes determine the whole request, challenge included. |
| Protocol.DaemonReadsApproval | daemon/crates/kpk-spike/src/protocol.rs:60-86 | An approval line of the phone is read as its id and its very signature exactly for ids of 64 bits, and never as a pairing request. |
| Protocol.DaemonReadsDenial | daemon/crates/kpk-spike/src/protocol.rs:60-86 | A denial is read as its id and its reason, whatever the reason holds. |
| Protocol.DaemonReadsCredential | android/app/src/main/kotlin/org/kpasskey/net/Protocol.kt:145-150 | A new credential reaches the waiter of its id with both texts as given, and can never be taken for an approval or a denial. |
| PamSocket.RequestLineIsPrinted | pam/tests/pam_kpk_spike.c:168-170 | The C format string writes the text a JSON printer would for the members user, action and detail. |
| PamSocket.RequestReadBack | daemon/crates/kpk-spike/src/server.rs:365-408 | Whatever user and service the module sends, the daemon reads back exactly the three keys with those values less their control characters, and always as a verification. |
| PamSocket.OperationExactly | daemon/crates/kpk-spike/src/server.rs:365-402 | A line asks for a verification if and only if its operation does not begin with `webauthn.`, and is refused exactly when it does and is neither of the two that are known. |
| PamSocket.RequestIsOneLine | pam/tests/pam_kpk_spike.c:167-174 | The line is at most 813 bytes, so it always fits its buffer, and its only newline is at its end. |
| PamSocket.DenialNeverApproves | pam/tests/pam_kpk_spike.c:194-202 | No denial, whatever its reason and wherever it is cut, contains the text the module takes for an approval. |
| PamSocket.ApprovalText | daemon/crates/kpk-spike/src/server.rs:411-415 | The approval reply contains that text, in 30 characters. |
| PamModule.JsonEscape | pam/tests/pam_kpk_spike.c:57-79 | Succeeds if and only if the escaped text and its terminator fit in `size`; then the buffer holds that text; nothing at or past `size` is ever written. |
| PamModule.ReadLine | pam/tests/pam_kpk_spike.c:120-139 | Keeps the bytes up to a newline, the end of the stream or the buffer's room, through any interruptions; fails exactly when a read fails first; always terminates the text inside the buffer. |
| PamModule.LineEnds | pam/tests/pam_kpk_spike.c:120-139 | A text that fits is read as the line if a newline or the end of the stream follows it, and not at all if the next read fails. |
| PamModule.WriteAll | pam/tests/pam_kpk_spike.c:105-118 | What goes out is as much of the data, from its beginning, as the other end accepts before the first write that fails, through short writes and interruptions; success exactly if that is all of it. |
| PamModule.WrittenIsAccepted | pam/tests/pam_kpk_spike.c:105-118 | Writing what is left after each short write sends exactly the sum of the counts accepted, up to the end of the data. |
| PamModule.OneWriteIsEnough | pam/tests/pam_kpk_spike.c:105-118 | Interruptions take nothing, a successful write takes its count, and nothing counts after a failure. |
| PamModule.VerdictIsExact | pam/tests/pam_kpk_spike.c:194-202 | On the daemon's reply, cut at the buffer or not, the module succeeds if and only if the daemon approved. |
| PamModule.CutOffVerdict | pam/tests/pam_kpk_spike.c:120-139 | On a reply cut off anywhere by a socket that closes, fails or falls silent, the module succeeds if and only if the daemon approved and the first ten characters came through. |
| PamModule.Authenticate | pam/tests/pam_kpk_spike.c:141-203 | Nothing goes out unless both texts fit and the daemon is there; success exactly when the whole request was accepted and a line came back that passes the test. |
| PamModule.ApprovalLogsIn | pam/tests/pam_kpk_spike.c:141-203 | A user whose texts fit is let in whenever the request is accepted, in whatever pieces and after whatever interruptions, and an approval arrives. |
| EndToEnd.PhoneShowsPamRequest | android/app/src/main/kotlin/org/kpasskey/net/Protocol.kt:119-133 | Every PAM request becomes a verification, and the phone shows that user and that service. |
| EndToEnd.SuccessMeansSigned | daemon/crates/kpk-spike/src/server.rs:410-427 | In every interleaving, on a reply that arrives whole or is cut off anywhere, the PAM module reports success if and only if the daemon approved (and the approving text got through); and then a phone holding the key loaded at the start has signed a line that showed this very user and service. |
| EndToEnd.SuccessIsPossible | pam/tests/pam_kpk_spike.c:141-203 | For every user and service, id, key and signature there is a run of the daemon and a reply on which the module reports that success. |
| CtapHid.MessageDelivered | daemon/crates/kpk-spike/src/uhid.rs:384-430 | Reassembly: through any interleaving with continuations of other channels and complete one-packet messages, a message of at most 7609 bytes is complete once, whole, on the last of its packets, and the others come out as if alone. What a failing dispatch does to the run is `HelperRun.DeliveredExactly`. |
| CtapHid.FrameRoundTrip | daemon/crates/kpk-spike/src/uhid.rs:264-291 | Up to 7609 bytes framing and reassembly undo each other from any assembly in progress; a one-packet message leaves that assembly in place. |
| CtapHid.SurvivesExactly | daemon/crates/kpk-spike/src/uhid.rs:264-291 | From any assembly in progress, a message is dispatched whole, once, on the last of its packets if and only if it has at most 7609 bytes. |
| CtapHid.TooLongFails | daemon/crates/kpk-spike/src/uhid.rs:384-430 | The input that shows it: of 7610 zero bytes the last packet is read as an empty message of command 0. |
| CtapHid.FrameShape | daemon/crates/kpk-spike/src/uhid.rs:264-291 | The number of packets; their data regions concatenate to the payload and zeros; the continuation markers can be told from first packets if and only if the payload has at most 7609 bytes. |
| CtapHid.ReplyAfterKeepAlives | daemon/crates/kpk-spike/src/uhid.rs:302-321 | Any number of keep-alive frames before a reply leaves the host with exactly that reply. |
| CtapHid.ReportKeepsAssembly | daemon/crates/kpk-spike/src/uhid.rs:384-430 | Whatever arrives, a stored assembly is unfinished and well sized, a continuation of its channel strictly shrinks what is missing, and it is dispatched exactly when nothing is. |
| CtapHid.RunKeepsAssembly | daemon/crates/kpk-spike/src/uhid.rs:384-430 | The same at every report of any run, which dispatches exactly what the states it goes through do. |
| Uhid.Put | daemon/crates/kpk-spike/src/uhid.rs:85-94 | Writes exactly the given bytes at the offset, or nothing if they do not fit. |
| Uhid.BuildPacket | daemon/crates/kpk-spike/src/uhid.rs:269-274 | A packet is its header and chunk followed by zeros, in 64 bytes. |
| Uhid.Frame | daemon/crates/kpk-spike/src/uhid.rs:265-291 | The splitter loop produces the packets whose reassembly is proved above, and refuses exactly what a 16-bit length cannot describe. |
| Uhid.Helper.constructor | daemon/crates/kpk-spike/src/uhid.rs:336-337 | The helper starts with nothing assembled and the channel counter at 1. |
| Uhid.Helper.DispatchMessage | daemon/crates/kpk-spike/src/uhid.rs:432-497 | The counter and the outcome of each command, with the one error there is, a nonce that is too short. |
| Uhid.Helper.HandleReport | daemon/crates/kpk-spike/src/uhid.rs:384-430 | The handler's two pieces of state and its result follow reassembly and dispatch together, errors included, for reports of any length. |
| Uhid.Helper.ServeOutput | daemon/crates/kpk-spike/src/uhid.rs:355-377 | One event: report number stripped, handled, and its answer written, or the first of the errors. |
| Uhid.Helper.Serve | daemon/crates/kpk-spike/src/uhid.rs:336-381 | The event loop as a whole: what goes out is all, or as much as the device takes, of what the reports, the phone's answers and the counter call for; how the run ends; and that any host which puts the packets together hears exactly the messages it is due, or their beginning if the device stops taking packets (for replies that framing can carry). |
| Uhid.RunHeard | daemon/crates/kpk-spike/src/uhid.rs:432-497 | Any host that puts together what a run sends hears, in order, its own pings, its nonces with the channels given, the fixed information, errors for unknown commands, and for each approved request keep-alives and then the phone's answer as one CBOR message; no more and no less, up to the first error, as long as no reply is longer than framing can carry. |
| Uhid.ServedHeard | daemon/crates/kpk-spike/src/uhid.rs:293-321 | The same of whatever packets get out, and that a write fails only at the device's limit. |
| Uhid.WritePackets | daemon/crates/kpk-spike/src/uhid.rs:293-300 | The packets go out in order, all of them or up to the write that fails. |
| Uhid.AwaitPhone | daemon/crates/kpk-spike/src/uhid.rs:302-321 | One keep-alive per tick, then the phone's answer; an error exactly when there is none or a write fails. |
| Uhid.AnswerHost | daemon/crates/kpk-spike/src/uhid.rs:370-374 | All the host is sent for one approved request, or as much of it as the device takes; and each of the three errors. |
| Uhid.WriteOutcome | daemon/crates/kpk-spike/src/uhid.rs:370-374 | The two branches that write: a ready reply, or keep-alives and then the phone's answer; what gets out is a prefix, and each error has its exact condition. |
| HelperRun.ReactionsFollow | daemon/crates/kpk-spike/src/uhid.rs:338-430 | A run of the helper answers the messages completed, in order, up to the first whose dispatch fails. |
| HelperRun.DeliveredExactly | daemon/crates/kpk-spike/src/uhid.rs:384-457 | Among continuations of other channels and complete one-packet messages, a message of at most 7609 bytes is handed to dispatch whole, once, on its last packet if and only if none of those messages is an INIT with a nonce of less than 8 bytes. |
| HelperRun.ShortInitEndsRun | daemon/crates/kpk-spike/src/uhid.rs:439-440 | The packet that does it: an INIT with an empty nonce after the first packet of a long message; the run ends and the message is never dispatched. |
| HelperRun.ShortReportEndsRun | daemon/crates/kpk-spike/src/uhid.rs:384-388 | A report of less than 5 bytes ends the run, and nothing after it is looked at. |
| HelperRun.ServedExactly | daemon/crates/kpk-spike/src/uhid.rs:355-377 | The same from the device's events, whichever of them carry a report number. |
| HelperRun.ServedAlone | daemon/crates/kpk-spike/src/uhid.rs:355-377 | A message alone on the wire is always dispatched, once and whole, with or without report numbers. |
| HelperRun.AnsweredAlone | daemon/crates/kpk-spike/src/uhid.rs:355-377 | From the wire back to the wire: for a message alone a host hears exactly the reply it is due, or keep-alives and the phone's answer, from any state of either side. |
| HelperRun.EndsWellExactly | daemon/crates/kpk-spike/src/uhid.rs:355-377 | A run ends without an error if and only if no report is too short, every message completed can be dispatched, and the phone answers whatever it is asked at a length that fits. |
| Uhid.ReportNumberIgnored | daemon/crates/kpk-spike/src/uhid.rs:355-366 | Both layouts of an event give the handler the same packet. |
| Uhid.GrantedInOrder | daemon/crates/kpk-spike/src/uhid.rs:439-447 | Over any run of messages, the channels granted count up from the counter, modulo 2^32. |
| Uhid.ChannelsUsable | daemon/crates/kpk-spike/src/uhid.rs:439-447 | From the start, the channels granted are pairwise distinct and never 0 or the broadcast channel if and only if fewer than 2^32 - 2 have been granted. |
| HelperRun.ReplyChannelsUsable | daemon/crates/kpk-spike/src/uhid.rs:439-447 | Over any run of reports from the start, the channels in the replies to INITs on the broadcast channel are pairwise distinct and never reserved if and only if fewer than 2^32 - 2 have been given. |
| Uhid.InitAnswered | daemon/crates/kpk-spike/src/uhid.rs:439-457 | The host finds its own nonce in the reply to an INIT and the channel to use: the one just granted on the broadcast channel, its own on any other. |
| Uhid.PingEchoed | daemon/crates/kpk-spike/src/uhid.rs:458-461 | A ping of any length that can be assembled is sent back packet by packet; the host reads it back whole if and only if it has at most 7609 bytes. |
| Cbor.DecodeEncode | daemon/crates/kpk-spike/src/webauthn.rs:155-168 | Reading undoes writing for every value, at any depth and whatever follows. |
| WebAuthn.MakeCredentialUnderstood | daemon/crates/kpk-spike/src/webauthn.rs:34-46 | Any encodable map, whatever other entries and fields it holds and whatever follows it, is read as a registration for this site and user name if and only if its entries say so. |
| WebAuthn.GetAssertionUnderstood | daemon/crates/kpk-spike/src/webauthn.rs:48-70 | Any encodable map is read as a sign-in with this site, hash and list of credentials, in order, if and only if its entries say so. |
| WebAuthn.FallbackName | daemon/crates/kpk-spike/src/webauthn.rs:39-46 | A registration without a name is for `user`. |
| WebAuthn.IdsCollected | daemon/crates/kpk-spike/src/webauthn.rs:55-66 | The ids of a list of descriptors are collected in order, without those that have none. |
| WebAuthn.RegistrationRequestAsks | daemon/crates/kpk-spike/src/webauthn.rs:34-46 | The map a browser sends, with key parameters, names and options, is encodable and asks for its own site and user name. |
| WebAuthn.SignInRequestAsks | daemon/crates/kpk-spike/src/webauthn.rs:48-70 | Likewise a sign-in with any number of credentials and options. |
| WebAuthn.AuthDataRead | daemon/crates/kpk-spike/src/webauthn.rs:73-99 | For every flag byte: a reader after WebAuthn Level 2 recovers every field, with and without a credential, if and only if the flags do not promise extensions. |
| WebAuthn.CoseKeyShape | daemon/crates/kpk-spike/src/webauthn.rs:105-117 | A key is always 77 bytes and its map is in CTAP2 canonical order. |
| WebAuthn.MakeCredentialRead | daemon/crates/kpk-spike/src/webauthn.rs:121-129 | A browser finds the authenticator data in a registration reply. |
| WebAuthn.GetAssertionRead | daemon/crates/kpk-spike/src/webauthn.rs:132-153 | A browser finds the credential, the authenticator data and the signature in an assertion reply. |
| WebAuthn.DescriptorNotCanonical | daemon/crates/kpk-spike/src/webauthn.rs:137-146 | The reply's descriptor is not in canonical order, for any id, while a browser's is. |
| WebAuthn.BuildAuthenticatorData | daemon/crates/kpk-spike/src/webauthn.rs:73-87 | The buffer built step by step is the layout whose unique decoding is proved above. |
| WebAuthn.BuildAttestedCredentialData | daemon/crates/kpk-spike/src/webauthn.rs:91-99 | Likewise, and refused exactly for ids of 65536 bytes or more. |
| WebAuthnFlow.DaemonReadsAssert | daemon/crates/kpk-spike/src/fidolink.rs:41-49 | The daemon takes the helper's line for an assertion with the same site, credential and payload. |
| WebAuthnFlow.PhoneReadsAssert | daemon/crates/kpk-spike/src/server.rs:333-341 | The phone takes the daemon's line for an assertion with the same id, site, credential and payload. |
| WebAuthnFlow.HelperReadsSignature | daemon/crates/kpk-spike/src/fidolink.rs:51-90 | The helper gets the signature's text as the daemon read it. |
| WebAuthnFlow.HelperReadsCredential | daemon/crates/kpk-spike/src/fidolink.rs:24-34 | Likewise for a new credential's two texts. |
| WebAuthnFlow.PhoneSignsWhatIsReturned | daemon/crates/kpk-spike/src/uhid.rs:241-258 | The phone is asked for the site and credential the browser named, and the bytes it signs are the authenticator data returned to the browser followed by the request's client data hash. |
| WebAuthnFlow.AssertionAnswered | daemon/crates/kpk-spike/src/uhid.rs:226-262 | For whatever else the browser's request holds and whatever signature the phone makes, the request is answered with the credential it named first, the data that was signed and that signature. |
| BrowserExchange.AssertionOnlyIfGranted | daemon/crates/kpk-spike/src/uhid.rs:222-262 | Whatever bytes a request holds: a browser is given an assertion if and only if a credential was named and the phone gave a signature for it, and then it is that one; in every other case the reply is the one byte 0x2e. |
| BrowserExchange.RegisteredOnlyIfMade | daemon/crates/kpk-spike/src/uhid.rs:186-220 | Likewise a credential if and only if the request was read and the phone made one that can be passed on; in every other case the one byte 0x27. |
| WebAuthnFlow.CredentialRoundTrip | android/app/src/main/kotlin/org/kpasskey/crypto/AuthKeyStore.kt:127-158 | Whatever id text is accepted, the id the site stores is re-encoded on assertion to the same keystore alias, beside the hash, flags, count and coordinates. |
| WebAuthnFlow.PhoneCredentialAccepted | android/app/src/main/kotlin/org/kpasskey/crypto/AuthKeyStore.kt:127-129 | Every id the phone makes, at any length a record can hold, is accepted. |
| Registration.PhoneShowsRegistration | daemon/crates/kpk-spike/src/server.rs:287-302 | The phone asks its user about the very site and name the helper was given. |
| Registration.RegistrationAnswered | daemon/crates/kpk-spike/src/uhid.rs:190-220 | From the browser's request, whatever else it holds, to its reading of the reply: the id and key the phone made, under the hash of the site that asked. |
| BrowserExchange.SignInAnswered | daemon/crates/kpk-spike/src/uhid.rs:222-262 | A whole sign-in over CTAPHID, for any request that asks for one: packets in, any number of keep-alives, packets out; the browser ends with its credential, the data signed and the signature, whatever either side was assembling. |
| BrowserExchange.RegistrationServed | daemon/crates/kpk-spike/src/uhid.rs:170-220 | A whole registration likewise, whatever else the request holds: the browser ends with the id and the key the phone made, under the hash of its own site. |
| Relay.AssertionExactly | daemon/crates/kpk-spike/src/server.rs:319-350 | With the daemon's task in between: the browser reads an assertion if and only if the task was answered with a signature that decodes, and then it is that signature next to its own credential and authenticator data. |
| Relay.AssertionIsPhones | daemon/crates/kpk-spike/src/server.rs:319-350 | In every run of the daemon, an assertion that the browser reads holds a signature that came in a line with the id of this request's own task, and no denial. |
| Relay.SignInCompletes | daemon/crates/kpk-spike/src/server.rs:253-350 | Whenever a sign-in's task waits, the phone's signature on any connection leads to the browser reading that very signature. |
| Relay.RegistrationIsPhones | daemon/crates/kpk-spike/src/server.rs:286-317 | In every run of the daemon, a credential that the browser reads is the one whose id and usable key came in a line with the id of this request's own task, under the hash of the browser's site. |
| Relay.RegistrationCompletes | daemon/crates/kpk-spike/src/server.rs:253-317 | Whenever a registration's task waits, the phone's new credential on any connection leads to the browser reading it. |
| Pairing.LazyRefinesEager | daemon/crates/kpk-spike/src/pairing.rs:51-109 | At every moment of any history with a monotonic clock, lazy expiry holds the one window that is open, or nothing once its time has run out. |
| Pairing.TakeIsExact | daemon/crates/kpk-spike/src/pairing.rs:96-109 | A token is accepted if and only if the last of begin, cancel and successful take was a begin with that token less than 120 seconds ago, whatever polls came between; and that window's session is handed over. |
| Pairing.PollIsExact | daemon/crates/kpk-spike/src/pairing.rs:87-94 | The seconds left are those of the live window rounded down, 0 in its last second, and 0 without one. |
| Pairing.WindowUsedOnce | daemon/crates/kpk-spike/src/pairing.rs:95-103 | Two tokens accepted were offered to two windows, each live and opened with that token, the second opened after the first was used. |
| Pairing.PairingsBounded | daemon/crates/kpk-spike/src/server.rs:132-166 | Over any run, at any clock, devices paired plus an open window never outnumber the windows opened. |
| Protocol.PairRequestRead | android/app/src/main/kotlin/org/kpasskey/net/Protocol.kt:152-167 | The phone's pairing request is taken for one, never for an answer, and its six texts are read as the phone put them. |
| Protocol.PairedRead | daemon/crates/kpk-spike/src/server.rs:171-175 | The phone reads the daemon's answer as success, with the id of its record. |
| Protocol.RejectedRead | daemon/crates/kpk-spike/src/server.rs:106-112 | Or as failure, with the reason. |
| PairingWindow.Pairings.constructor | daemon/crates/kpk-spike/src/pairing.rs:42-44 | No window is open at the start. |
| PairingWindow.Pairings.Begin | daemon/crates/kpk-spike/src/pairing.rs:51-81 | The history's begin step: any other window is replaced. |
| PairingWindow.Pairings.Cancel | daemon/crates/kpk-spike/src/pairing.rs:83-85 | The history's cancel step. |
| PairingWindow.Pairings.ExpireIfDue | daemon/crates/kpk-spike/src/pairing.rs:105-109 | The window goes exactly when its 120 seconds are over. |
| PairingWindow.Pairings.SecondsLeft | daemon/crates/kpk-spike/src/pairing.rs:87-93 | The history's poll step and its outcome. |
| PairingWindow.Pairings.TakeMatching | daemon/crates/kpk-spike/src/pairing.rs:96-103 | The history's take step and its outcome. |
| PairingWindow.Pairings.CompletePairing | daemon/crates/kpk-spike/src/server.rs:119-143 | Each failure in its order, and that the window is spent before the phone's key is looked at. |
| PairingWindow.Replay | daemon/crates/kpk-spike/src/pairing.rs:51-109 | Any history of calls leaves the object in the state the history has. |
| PairingUri.HornerBound | daemon/crates/kpk-spike/src/pairing.rs:112-118 | The fold over four bytes is at most 7849920. |
| PairingUri.ShortCode | daemon/crates/kpk-spike/src/pairing.rs:112-118 | The wrapping fold never wraps. |
| PairingUri.CodesAgree | android/app/src/main/kotlin/org/kpasskey/pair/PairingUri.kt:48-58 | Both screens show the same six digits for any token. |
| PairingUri.CodeOf | daemon/crates/kpk-spike/src/pairing.rs:112-118 | They are the first four bytes read in base 31, modulo a million, with leading zeros. |
| PairingUri.UriRoundTrip | android/app/src/main/kotlin/org/kpasskey/pair/PairingUri.kt:20-46 | Scanning the daemon's code recovers host, token bytes, address and port and shows the daemon's digits; it is refused only for a short token or a missing address. |
| PairingUri.HostSurvives | daemon/crates/kpk-spike/src/pairing.rs:57-71 | The phone shows the daemon's very host name if and only if the name is not empty and holds no `&`, `#`, `+` or `%` (and there is an address and a token of four bytes), however the platform decodes escapes. |
| Fingerprint.FingerprintsAgree | android/app/src/main/kotlin/org/kpasskey/crypto/AuthKeyStore.kt:108-114 | Desktop and phone show the same fingerprint of a digest, though one groups bytes and the other digits. |
| Fingerprint.FingerprintOf | daemon/crates/kpk-spike/src/link.rs:44-61 | It is the first six bytes, two a group. |
| Fingerprint.HexReadsBack | daemon/crates/kpk-spike/src/link.rs:44-61 | Each byte is read back from its two digits, the high one first. |
| Records.RecordRoundTrip | daemon/crates/kpk-spike/src/store.rs:24-60 | Every record the daemon writes is read back field by field. |
| Records.NamesOf | daemon/crates/kpk-spike/src/store.rs:115-129 | A record's file is one that `list` reads, and its temporary file is one that `list` skips. |
| Records.NameStaysInside | daemon/crates/kpk-spike/src/store.rs:144-151 | No id names anything outside the directory. |
| Records.OwnNameExactly | daemon/crates/kpk-spike/src/store.rs:144-151 | A record is kept under its own id if and only if the id has only letters, digits and dashes. |
| Records.UnsafeIdsCollide | daemon/crates/kpk-spike/src/store.rs:144-151 | Two different ids that share a record. |
| Records.SafeIdsApart | daemon/crates/kpk-spike/src/store.rs:144-151 | Two safe ids share a record if and only if they are equal. |
| Records.HexIsSafe | daemon/crates/kpk-spike/src/link.rs:36-61 | Ids made from a key digest are safe and of the digest's length. |
| Records.HexReadsBack | daemon/crates/kpk-spike/src/link.rs:55-61 | Each byte of a digest is read back from its two digits, the high one first. |
| Records.HexInjective | daemon/crates/kpk-spike/src/link.rs:55-61 | Different digests make different ids. |
| DeviceStore.SortSorts | daemon/crates/kpk-spike/src/store.rs:106-106 | The list is put in order of pairing and is a permutation of what was read. |
| DeviceStore.ListRefines | daemon/crates/kpk-spike/src/store.rs:85-108 | Whatever order the directory is read in, the list shows exactly the devices of the map, each once, the one paired longest ago first. |
| DeviceStore.ActiveDeviceIsOldest | daemon/crates/kpk-spike/src/server.rs:55-61 | The active device exists exactly when one is paired, and none was paired earlier. |
| DeviceStore.SaveIsAtomic | daemon/crates/kpk-spike/src/store.rs:115-129 | At every point between file-system steps, and with any part of the temporary file written, the store shows the old map or the new one. |
| DeviceStore.RecordInPlace | daemon/crates/kpk-spike/src/store.rs:115-129 | Saving an id again replaces its device and touches no other. |
| DeviceStore.RemoveRefines | daemon/crates/kpk-spike/src/store.rs:135-142 | Removing takes away the one device with that id, and nothing else. |
| DeviceStore.ListShowsHistory | daemon/crates/kpk-spike/src/store.rs:64-151 | From an empty directory, over any history of saves, saves cut short and removals, the list shows exactly the devices saved and not removed since, as last saved, the one paired longest ago first. |
| DeviceStore.Store.List | daemon/crates/kpk-spike/src/store.rs:85-108 | The loop collects what the refinement above is about, skipping files that cannot be read and texts that are no record. |
| DeviceStore.Store.ActiveDevice | daemon/crates/kpk-spike/src/server.rs:53-61 | None only without a device that can be read; otherwise one of those, paired no later than any. |
| DeviceStore.Store.Save | daemon/crates/kpk-spike/src/store.rs:110-129 | Stopping at any fault makes exactly that step of a history, which leaves the old map or the new one; success leaves the new map. |
| DeviceStore.Store.Remove | daemon/crates/kpk-spike/src/store.rs:135-142 | The map loses exactly that id, and the answer says whether it had it. |
| PhoneLink.RunConserves | android/app/src/main/kotlin/org/kpasskey/net/DesktopLink.kt:42-109 | Over any sequence of sends, writes, failures and reconnects, the lines sent are, with multiplicity, those waiting and those written; without a failure they leave in order. |
| PhoneLink.OrderExactly | android/app/src/main/kotlin/org/kpasskey/net/DesktopLink.kt:99-109 | Over any run that starts in order, the lines written and then those waiting are the lines sent, in order and at every moment, if and only if no write fails while two different lines wait. |
| PhoneLink.FailedWriteOvertakes | android/app/src/main/kotlin/org/kpasskey/net/DesktopLink.kt:99-109 | The run that shows it: of two lines the second is written first. |
| PhoneLink.QueueDrains | android/app/src/main/kotlin/org/kpasskey/net/DesktopLink.kt:99-109 | However many writes failed before, as many good ones as lines waiting empty the outbox, and then every line ever sent has been written once. |
| PhoneLink.DesktopLink.constructor | android/app/src/main/kotlin/org/kpasskey/net/DesktopLink.kt:42-42 | The outbox starts empty. |
| PhoneLink.DesktopLink.SendLine | android/app/src/main/kotlin/org/kpasskey/net/DesktopLink.kt:44-46 | One line more at the end of the outbox, connected or not. |
| PhoneLink.DesktopLink.Pump | android/app/src/main/kotlin/org/kpasskey/net/DesktopLink.kt:99-109 | Writes from the head until one fails or the session ends, while lines keep coming; a line whose write failed is put back at the end. |
| PhoneLink.DesktopLink.Idle | android/app/src/main/kotlin/org/kpasskey/net/DesktopLink.kt:36-46 | Without a connection, lines only queue. |
| PhoneLink.DesktopLink.RunSessions | android/app/src/main/kotlin/org/kpasskey/net/DesktopLink.kt:49-97 | Any number of sessions, some of which never connect, with lines sent at any moment, leave the outbox and the history in the state that the results on sessions below are about; no line is lost. |
| PhoneLink.AliveWritesInOrder | android/app/src/main/kotlin/org/kpasskey/net/DesktopLink.kt:99-109 | While no write fails a connected session writes lines from the head of the outbox, in order, and as long as lines wait it misses no chance. |
| PhoneLink.SessionDrains | android/app/src/main/kotlin/org/kpasskey/net/DesktopLink.kt:83-109 | A connected session whose last writes succeed and are enough for all that waits empties the outbox; everything has then been written, in order. |
| PhoneLink.SessionStopsAtFailure | android/app/src/main/kotlin/org/kpasskey/net/DesktopLink.kt:99-109 | At the first write that fails a session has written one line for each chance before, and writes nothing more; that line goes behind all that wait. |
| PhoneLink.UnconnectedWritesNothing | android/app/src/main/kotlin/org/kpasskey/net/DesktopLink.kt:49-81 | A session that never connects only queues. |

## Left out

- D-Bus, systemd units, BLE advertising, the settings module and QML: plumbing and user interface.
- Android activities, notifications, biometric prompts and the camera: platform calls; the phone's user is a step that signs or denies the line shown.
- The phone's single request slot and its timers: the check and the clearing are not atomic there, and what could be said of them is easy.
- ECDSA, SHA-256, PEM and SPKI parsing, the random source and the keystore: a signature is valid when the history says that a phone with that key made it for that line, and belongs to one line; digests and coordinates are parameters.
- The reader and accept loops and socket set-up: each line that a reader yields is an argument of the delivery; white space that the Rust code trims from a line is skipped by the parser or is no part of the argument.
- JSON: members that are null, arrays, objects or numbers other than natural ones are read over and count as missing; serde_json's limit on nesting and on the size of numbers, how org.json turns such members into texts, its leniency towards malformed text and towards texts where numbers or booleans are expected, and UTF-8 validation (every unit from 0x80 on is copied as it is) are not modelled.
- CBOR of indefinite length, tags, floats, undefined and the unassigned simple values.
- Lines lost by TCP after a write that succeeded, cancellation of a coroutine in the middle of a receive, and the order in which file contents reach a disk: the code promises nothing there.
- The `uhid` creation event, the reply to authenticatorGetInfo (a parameter here), argument parsing, the self-test and the PAM stub: constants or finite cases.
- The continuation sequence number: the reassembler never looks at it, so nothing is said about packets lost or swapped within a message.
- A verification for which no device is paired, or whose stored key does not load, ends before an id is drawn and is not a step of the protocol.
- Failure replies of the WebAuthn operations carry the words of the error, which are not modelled; only that they are read as failures.
- HelperRun.DeliveredExactly: is about runs in which every answer gets out; a device write that fails, or a phone that gives no answer, also ends the run, as `Uhid.Helper.Serve` says.
- Routing.MapsBelongToTasks: says nothing once the 64-bit counter has handed out an id twice, for then two requests can share a key; the results on approvals hold beyond that.
- PairingUri.UriRoundTrip: host and address are free of `&`, `#`, `+` and `%`, since the code does not escape them (`PairingUri.HostSurvives` has the exact condition for the host); user information, ports and an optional sign of the port number are outside the URI reader modelled.
- PairingWindow.Pairings.CompletePairing: stops where the record is written; saving is `DeviceStore.Store.Save`.
- DeviceStore.SaveIsAtomic: covers directories built by save and remove with safe ids, as `key_id` makes them; the rename is atomic and other writers are not modelled.
- BrowserExchange.SignInAnswered: says that packets deliver a request or a reply only within the 7609 bytes that framing can carry.

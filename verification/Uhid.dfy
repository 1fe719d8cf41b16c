/** The helper behind `/dev/uhid`: the splitter loop, the report handler with its two pieces of
    state, and the wait for the phone. */
module Uhid {
  import opened Wrappers
  import opened Numbers
  import opened Bytes
  import opened CtapHid

  const MAKE_CREDENTIAL: byte := 0x01
  const GET_ASSERTION: byte := 0x02
  const GET_INFO: byte := 0x04
  const INVALID_COMMAND: byte := 0x01

  /** A response that is ready, or a request a person has to approve. */
  datatype Outcome = Ready(packets: seq<Packet>) | Waiting(command: byte, body: seq<byte>)

  function Reply(channel: u32, command: byte, payload: seq<byte>): Outcome
    requires |payload| < 0x1_0000
  {
    Ready(Packets(channel, command, payload))
  }

  function InitBody(nonce: seq<byte>, granted: u32): seq<byte> {
    nonce + Be32(granted) + [2, 1, 0, 0, 0x04]
  }

  /** `dispatch`: the next channel counter, and the outcome unless the message is an INIT with a
      nonce shorter than 8 bytes. `info` is the fixed reply to authenticatorGetInfo. */
  function Dispatch(next: u32, m: Message, info: seq<byte>): (u32, Option<Outcome>)
    requires |m.payload| < 0x1_0000 && |info| < 0x1_0000
  {
    if m.command == INIT then
      if |m.payload| < 8 then (next, None)
      else
        var counter := if m.channel == BROADCAST then (next + 1) % 0x1_0000_0000 else next;
        var granted := if m.channel == BROADCAST then counter else m.channel;
        (counter, Some(Reply(m.channel, INIT, InitBody(m.payload[..8], granted))))
    else if m.command == PING then (next, Some(Reply(m.channel, PING, m.payload)))
    else if m.command == CBOR then
      var command := if m.payload == [] then 0 else m.payload[0];
      if command == GET_INFO then (next, Some(Reply(m.channel, CBOR, info)))
      else if command == MAKE_CREDENTIAL || command == GET_ASSERTION then
        (next, Some(Waiting(command, m.payload[1..])))
      else (next, Some(Reply(m.channel, CBOR, [INVALID_COMMAND])))
    else (next, Some(Reply(m.channel, ERROR, [INVALID_COMMAND])))
  }

  // ---- The splitter ----------------------------------------------------------------------

  method Put(buffer: array<byte>, offset: nat, bytes: seq<byte>) returns (ok: bool)
    modifies buffer
    ensures ok <==> offset + |bytes| <= buffer.Length
    ensures buffer[..] == if ok then old(buffer[..offset]) + bytes + old(buffer[offset + |bytes|..])
        else old(buffer[..])
  {
    if offset + |bytes| > buffer.Length {
      return false;
    }
    forall i | 0 <= i < |bytes| {
      buffer[offset + i] := bytes[i];
    }
    return true;
  }

  /** One packet: a header and a chunk put into 64 zero bytes. */
  method BuildPacket(header: seq<byte>, chunk: seq<byte>) returns (packet: Packet)
    requires |header| + |chunk| <= REPORT_SIZE
    ensures packet == Pad(header + chunk)
  {
    var buffer := new byte[REPORT_SIZE](_ => 0);
    assert buffer[..] == Zeros(REPORT_SIZE);
    var ok := Put(buffer, 0, header);
    assert buffer[..] == header + Zeros(REPORT_SIZE - |header|);
    ok := Put(buffer, |header|, chunk);
    packet := buffer[..];
  }

  /** `frame`: refuses a payload a 16-bit length cannot describe, and splits any other. */
  method Frame(channel: u32, command: byte, payload: seq<byte>) returns (r: Option<seq<Packet>>)
    ensures r == if |payload| < 0x1_0000 then Some(Packets(channel, command, payload)) else None
  {
    if |payload| >= 0x1_0000 {
      return None;
    }
    var firstChunk := Min(|payload|, FIRST_DATA);
    var packet := BuildPacket(Be32(channel) + [SetTopBit(command)] + Be16(|payload|), payload[..firstChunk]);
    var packets := [packet];
    var offset := firstChunk;
    var sequence: byte := 0;
    while offset < |payload|
      invariant offset <= |payload|
      invariant Packets(channel, command, payload) == packets + Continuations(channel, sequence, payload[offset..])
    {
      var chunk := Min(|payload| - offset, NEXT_DATA);
      assert payload[offset..][..chunk] == payload[offset..offset + chunk];
      assert payload[offset..][chunk..] == payload[offset + chunk..];
      packet := BuildPacket(Be32(channel) + [sequence], payload[offset..offset + chunk]);
      packets := packets + [packet];
      offset := offset + chunk;
      sequence := (sequence + 1) % 0x100;
    }
    assert payload[offset..] == [];
    assert Packets(channel, command, payload) == packets;
    return Some(packets);
  }

  // ---- The report handler ----------------------------------------------------------------

  datatype Failure = ShortReport | ShortNonce | PhoneGone | TooLong | WriteFailed

  /** What one report comes to: an error because it is too short, nothing yet, a message with its
      outcome, or a message whose dispatch fails. */
  datatype Reaction = TooShort | Nothing | Answered(message: Message, outcome: Outcome) | Failed(message: Message)

  function React(a: Option<Assembly>, next: u32, r: seq<byte>, info: seq<byte>): (u32, Reaction)
    requires AssemblyOk(a) && |info| < 0x1_0000
  {
    ReportKeepsAssembly(a, r);
    match Receive(a, r)
    case Short => (next, TooShort)
    case Quiet(_) => (next, Nothing)
    case Complete(_, m) =>
      var (after, outcome) := Dispatch(next, m, info);
      (after, match outcome case None => Failed(m) case Some(o) => Answered(m, o))
  }

  lemma ReactionOf(a: Option<Assembly>, next: u32, r: seq<byte>, info: seq<byte>)
    requires AssemblyOk(a) && |info| < 0x1_0000
    ensures var (after, x) := React(a, next, r, info);
      match Receive(a, r)
      case Short => Next(a, r) == a && after == next && ResultOf(x) == Err(ShortReport)
      case Quiet(b) => Next(a, r) == b && after == next && ResultOf(x) == Ok(None)
      case Complete(b, m) =>
        && Next(a, r) == b && |m.payload| < 0x1_0000 && after == Dispatch(next, m, info).0
        && ResultOf(x) == match Dispatch(next, m, info).1 case None => Err(ShortNonce) case Some(o) => Ok(Some(o))
  {
    ReportKeepsAssembly(a, r);
  }

  predicate Stops(x: Reaction) {
    x.TooShort? || x.Failed?
  }

  /** The reactions to a run of reports, which ends with the first error. */
  function Reactions(a: Option<Assembly>, next: u32, rs: seq<seq<byte>>, info: seq<byte>): seq<Reaction>
    requires AssemblyOk(a) && |info| < 0x1_0000
    decreases |rs|
  {
    if rs == [] then []
    else
      var (after, x) := React(a, next, rs[0], info);
      ReportKeepsAssembly(a, rs[0]);
      [x] + if Stops(x) then [] else Reactions(Next(a, rs[0]), after, rs[1..], info)
  }

  /** How the handler hands a reaction to its caller. */
  function ResultOf(x: Reaction): Result<Option<Outcome>, Failure> {
    match x
    case TooShort => Err(ShortReport)
    case Nothing => Ok(None)
    case Answered(_, outcome) => Ok(Some(outcome))
    case Failed(_) => Err(ShortNonce)
  }

  // ---- The events of the device --------------------------------------------------------------

  const DATA_MAX := 4096

  /** What the helper's channel to its worker yields; a list that has run out is a worker that
      ended without an answer. */
  datatype PhoneEvent = Tick | Answer(body: seq<byte>)

  /** What the helper reads: a report in a buffer of 4096 bytes, the end, or news it ignores. With a
      report goes what the phone will do if it is asked. */
  datatype Event = Output(data: seq<byte>, size: u16, phone: seq<PhoneEvent>) | Stop | Other

  predicate Readable(events: seq<Event>) {
    forall i :: 0 <= i < |events| && events[i].Output? ==> |events[i].data| == DATA_MAX
  }

  /** The report in the data of an output event: longer than 64 bytes means that the host has put
      a report number in front. */
  function StripReportNumber(data: seq<byte>, size: nat): seq<byte>
    requires |data| > REPORT_SIZE
  {
    if size > REPORT_SIZE then data[1..1 + Min(size - 1, REPORT_SIZE)] else data[..size]
  }

  function Reports(events: seq<Event>): seq<seq<byte>>
    requires Readable(events)
  {
    if events == [] || events[0].Stop? then []
    else (if events[0].Output? then [StripReportNumber(events[0].data, events[0].size)] else []) + Reports(events[1..])
  }

  function Phones(events: seq<Event>): seq<seq<PhoneEvent>> {
    if events == [] || events[0].Stop? then []
    else (if events[0].Output? then [events[0].phone] else []) + Phones(events[1..])
  }

  // ---- What the host is sent -----------------------------------------------------------------

  function Ticks(events: seq<PhoneEvent>): (n: nat)
    ensures n <= |events| && (n < |events| ==> events[n].Answer?)
  {
    if events == [] || events[0].Answer? then 0 else 1 + Ticks(events[1..])
  }

  /** All that one approved request sends the host. */
  function ToHost(channel: u32, events: seq<PhoneEvent>): seq<Packet> {
    var n := Ticks(events);
    KeepAlives(channel, n)
    + if n < |events| && |events[n].body| < 0x1_0000 then Packets(channel, CBOR, events[n].body) else []
  }

  function PhoneFailure(events: seq<PhoneEvent>): Option<Failure> {
    if Ticks(events) == |events| then Some(PhoneGone)
    else if |events[Ticks(events)].body| >= 0x1_0000 then Some(TooLong)
    else None
  }

  /** What one outcome sends the host. */
  function Sent(channel: u32, o: Outcome, phone: seq<PhoneEvent>): (seq<Packet>, Option<Failure>) {
    match o
    case Ready(packets) => (packets, None)
    case Waiting(_, _) => (ToHost(channel, phone), PhoneFailure(phone))
  }

  /** What one reaction sends the host, and the error that ends the run, if any. */
  function Turn(x: Reaction, phone: seq<PhoneEvent>): (seq<Packet>, Option<Failure>) {
    match x
    case TooShort => ([], Some(ShortReport))
    case Failed(_) => ([], Some(ShortNonce))
    case Nothing => ([], None)
    case Answered(m, o) => Sent(m.channel, o, phone)
  }

  /** Everything a run sends the host, up to the error that ends it, if any; `phones` says what the
      phone does at each report. */
  function Replies(xs: seq<Reaction>, phones: seq<seq<PhoneEvent>>): (seq<Packet>, Option<Failure>)
    decreases |xs|
  {
    if xs == [] || phones == [] then ([], None)
    else
      var (sent, failed) := Turn(xs[0], phones[0]);
      if failed.Some? then (sent, failed)
      else var (later, failure) := Replies(xs[1..], phones[1..]); (sent + later, failure)
  }

  function Conversation(a: Option<Assembly>, next: u32, events: seq<Event>, info: seq<byte>)
    : (seq<Packet>, Option<Failure>)
    requires AssemblyOk(a) && |info| < 0x1_0000 && Readable(events)
  {
    Replies(Reactions(a, next, Reports(events), info), Phones(events))
  }

  // ---- What the host hears -------------------------------------------------------------------

  /** A CBOR message that a person has to approve. */
  predicate Asks(m: Message) {
    m.command == CBOR && m.payload != [] && m.payload[0] in {MAKE_CREDENTIAL, GET_ASSERTION}
  }

  /** While the phone is waited for the host hears that a person is needed, and then the answer. */
  function PhoneHeard(channel: u32, phone: seq<PhoneEvent>): seq<Message> {
    if phone == [] then []
    else
      match phone[0]
      case Tick => [Message(channel, KEEPALIVE, [UP_NEEDED])] + PhoneHeard(channel, phone[1..])
      case Answer(body) => if |body| < 0x1_0000 then [Message(channel, CBOR, body)] else []
  }

  /** An answer that can be framed comes. */
  predicate AnswerComes(phone: seq<PhoneEvent>) {
    phone != [] && match phone[0] case Tick => AnswerComes(phone[1..]) case Answer(body) => |body| < 0x1_0000
  }

  function CounterAfter(next: u32, m: Message): u32 {
    if Grants(m) then (next + 1) % 0x1_0000_0000 else next
  }

  /** What a host is due to hear about one message: its nonce and its channel, its own ping, the
      fixed information, the phone's answer, or an error. */
  function Due(next: u32, m: Message, phone: seq<PhoneEvent>, info: seq<byte>): seq<Message> {
    if m.command == INIT && |m.payload| < 8 then []
    else if m.command == INIT then
      [Message(m.channel, INIT, m.payload[..8]
               + Be32(if m.channel == BROADCAST then CounterAfter(next, m) else m.channel) + [2, 1, 0, 0, 4])]
    else if m.command == PING then [m]
    else if Asks(m) then PhoneHeard(m.channel, phone)
    else if m.command == CBOR && m.payload != [] && m.payload[0] == GET_INFO then [Message(m.channel, CBOR, info)]
    else if m.command == CBOR then [Message(m.channel, CBOR, [INVALID_COMMAND])]
    else [Message(m.channel, ERROR, [INVALID_COMMAND])]
  }

  /** The run goes on after this message. */
  predicate GoesOnAfter(m: Message, phone: seq<PhoneEvent>) {
    (m.command == INIT ==> |m.payload| >= 8) && (Asks(m) ==> AnswerComes(phone))
  }

  /** And about a whole run of reports, up to the first error. */
  function AllDue(a: Option<Assembly>, next: u32, rs: seq<seq<byte>>, phones: seq<seq<PhoneEvent>>, info: seq<byte>)
    : seq<Message>
    decreases |rs|
  {
    if rs == [] || phones == [] || Receive(a, rs[0]).Short? then []
    else
      match Dispatched(a, rs[0])
      case None => AllDue(Next(a, rs[0]), next, rs[1..], phones[1..], info)
      case Some(m) =>
        Due(next, m, phones[0], info)
        + if GoesOnAfter(m, phones[0]) then AllDue(Next(a, rs[0]), CounterAfter(next, m), rs[1..], phones[1..], info)
          else []
  }

  /** What framing can carry. */
  predicate PhoneFits(phone: seq<PhoneEvent>) {
    forall i :: 0 <= i < |phone| && phone[i].Answer? ==>
      |phone[i].body| <= MAX_MESSAGE || |phone[i].body| >= 0x1_0000
  }

  predicate AllFit(a: Option<Assembly>, rs: seq<seq<byte>>, phones: seq<seq<PhoneEvent>>)
    requires |rs| <= |phones|
  {
    forall i :: 0 <= i < |rs| ==>
      PhoneFits(phones[i]) && PingFits(Dispatches(a, rs)[i])
  }

  predicate PingFits(m: Option<Message>) {
    m.Some? && m.value.command == PING ==> |m.value.payload| <= MAX_MESSAGE
  }

  lemma ToHostBegins(channel: u32, phone: seq<PhoneEvent>)
    requires phone != []
    ensures match phone[0]
      case Tick =>
        && ToHost(channel, phone) == Packets(channel, KEEPALIVE, [UP_NEEDED]) + ToHost(channel, phone[1..])
        && (PhoneFailure(phone) == None <==> PhoneFailure(phone[1..]) == None)
      case Answer(body) =>
        && ToHost(channel, phone) == (if |body| < 0x1_0000 then Packets(channel, CBOR, body) else [])
        && (PhoneFailure(phone) == None <==> |body| < 0x1_0000)
  {
    if phone[0].Tick? {
      var n := Ticks(phone[1..]);
      assert Ticks(phone) == n + 1 && (n < |phone[1..]| ==> phone[n + 1] == phone[1..][n]);
    } else {
      assert KeepAlives(channel, 0) == [];
    }
  }

  lemma KeepAliveHeard(host: Option<Assembly>, channel: u32, rest: seq<Packet>) returns (h: Option<Assembly>)
    ensures Hears(host, Packets(channel, KEEPALIVE, [UP_NEEDED]) + rest)
         == [Message(channel, KEEPALIVE, [UP_NEEDED])] + Hears(h, rest)
  {
    var first := Packets(channel, KEEPALIVE, [UP_NEEDED]);
    h := After(host, first);
    ReplyHeard(host, Message(channel, KEEPALIVE, [UP_NEEDED]));
    HearsAppend(host, first, rest);
  }

  lemma AnswerHeard(host: Option<Assembly>, channel: u32, body: seq<byte>)
    requires |body| <= MAX_MESSAGE || |body| >= 0x1_0000
    ensures Hears(host, if |body| < 0x1_0000 then Packets(channel, CBOR, body) else [])
         == if |body| < 0x1_0000 then [Message(channel, CBOR, body)] else []
  {
    if |body| < 0x1_0000 {
      ReplyHeard(host, Message(channel, CBOR, body));
    }
  }

  lemma {:induction false} ToHostHeard(host: Option<Assembly>, channel: u32, phone: seq<PhoneEvent>)
    requires PhoneFits(phone)
    ensures Hears(host, ToHost(channel, phone)) == PhoneHeard(channel, phone)
    ensures PhoneFailure(phone) == None <==> AnswerComes(phone)
    decreases |phone|
  {
    if phone != [] {
      ToHostBegins(channel, phone);
      match phone[0]
      case Tick =>
        var h := KeepAliveHeard(host, channel, ToHost(channel, phone[1..]));
        ToHostHeard(h, channel, phone[1..]);
      case Answer(body) =>
        AnswerHeard(host, channel, body);
    }
  }

  lemma TurnHeard(host: Option<Assembly>, next: u32, m: Message, phone: seq<PhoneEvent>, info: seq<byte>)
    requires |m.payload| < 0x1_0000 && |info| <= MAX_MESSAGE && PhoneFits(phone)
    requires m.command == PING ==> |m.payload| <= MAX_MESSAGE
    ensures var (after, o) := Dispatch(next, m, info);
      && after == CounterAfter(next, m)
      && (o.Some? ==>
            && Hears(host, Sent(m.channel, o.value, phone).0) == Due(next, m, phone, info)
            && (Sent(m.channel, o.value, phone).1.None? <==> GoesOnAfter(m, phone)))
      && (o.None? ==> Due(next, m, phone, info) == [] && !GoesOnAfter(m, phone))
  {
    var (after, o) := Dispatch(next, m, info);
    ToHostHeard(host, m.channel, phone);
    if o.Some? && !Asks(m) {
      var due := Due(next, m, phone, info)[0];
      assert o.value == Reply(m.channel, due.command, due.payload);
      ReplyHeard(host, due);
    }
  }

  /** The same for the reaction to one report. */
  lemma FirstHeard(host: Option<Assembly>, a: Option<Assembly>, next: u32, r: seq<byte>, phone: seq<PhoneEvent>,
                   info: seq<byte>)
    requires AssemblyOk(a) && |info| <= MAX_MESSAGE && PhoneFits(phone) && PingFits(Dispatched(a, r))
    ensures var (after, x) := React(a, next, r, info); var turn := Turn(x, phone);
      if Receive(a, r).Short? then turn.0 == [] && turn.1.Some?
      else
        match Dispatched(a, r)
        case None => turn == ([], None) && after == next
        case Some(m) =>
          && Hears(host, turn.0) == Due(next, m, phone, info)
          && (turn.1.None? <==> GoesOnAfter(m, phone)) && after == CounterAfter(next, m)
  {
    ReportKeepsAssembly(a, r);
    if Dispatched(a, r).Some? {
      TurnHeard(host, next, Dispatched(a, r).value, phone, info);
    }
  }

  lemma FitLater(a: Option<Assembly>, rs: seq<seq<byte>>, phones: seq<seq<PhoneEvent>>)
    requires rs != [] && |rs| <= |phones| && AllFit(a, rs, phones)
    ensures PhoneFits(phones[0]) && PingFits(Dispatched(a, rs[0]))
    ensures AllFit(Next(a, rs[0]), rs[1..], phones[1..])
  {
    var later := Dispatches(Next(a, rs[0]), rs[1..]);
    assert Dispatches(a, rs)[0] == Dispatched(a, rs[0]);
    forall i | 0 <= i < |later| ensures PhoneFits(phones[1..][i]) && PingFits(later[i]) {
      assert later[i] == Dispatches(a, rs)[i + 1] && phones[1..][i] == phones[i + 1];
    }
  }

  /** A host that puts together what a run sends it hears what it is due, no more and no less. */
  lemma {:induction false} RunHeard(host: Option<Assembly>, a: Option<Assembly>, next: u32, rs: seq<seq<byte>>,
                                    phones: seq<seq<PhoneEvent>>, info: seq<byte>)
    requires AssemblyOk(a) && |info| <= MAX_MESSAGE && |rs| <= |phones| && AllFit(a, rs, phones)
    ensures Hears(host, Replies(Reactions(a, next, rs, info), phones).0) == AllDue(a, next, rs, phones, info)
    decreases |rs|
  {
    if rs != [] {
      var (after, x) := React(a, next, rs[0], info);
      ReportKeepsAssembly(a, rs[0]);
      var later := Reactions(Next(a, rs[0]), after, rs[1..], info);
      var sent := Turn(x, phones[0]).0;
      FitLater(a, rs, phones);
      FirstHeard(host, a, next, rs[0], phones[0], info);
      assert rs == [rs[0]] + rs[1..] && phones == [phones[0]] + phones[1..];
      FirstReaction(a, next, rs[0], rs[1..], info);
      FirstReply(x, Stops(x), Reactions(a, next, rs, info), later, phones[0], phones[1..]);
      RunHeard(After(host, sent), Next(a, rs[0]), after, rs[1..], phones[1..], info);
      HearsAppend(host, sent, Replies(later, phones[1..]).0);
      NothingSent(host, sent, Replies(later, phones[1..]).0);
    }
  }

  lemma NothingSent(host: Option<Assembly>, sent: seq<Packet>, rest: seq<Packet>)
    ensures sent == [] ==> Hears(host, sent) == [] && After(host, sent) == host && sent + rest == rest
    ensures Hears(host, sent) + [] == Hears(host, sent)
  {
  }

  lemma HearsPrefix(host: Option<Assembly>, ps: seq<Packet>, n: nat)
    requires n <= |ps|
    ensures Hears(host, ps[..n]) <= Hears(host, ps)
  {
    assert ps == ps[..n] + ps[n..];
    HearsAppend(host, ps[..n], ps[n..]);
  }

  lemma {:induction false} NoReplyFailsToWrite(xs: seq<Reaction>, phones: seq<seq<PhoneEvent>>)
    ensures Replies(xs, phones).1 != Some(WriteFailed)
    decreases |xs|
  {
    if xs != [] && phones != [] {
      NoReplyFailsToWrite(xs[1..], phones[1..]);
    }
  }

  lemma {:induction false} PhonesMatch(events: seq<Event>)
    requires Readable(events)
    ensures |Phones(events)| == |Reports(events)|
  {
    if events != [] && !events[0].Stop? {
      PhonesMatch(events[1..]);
    }
  }

  /** Any host hears what it is due, or the beginning of it if the device stops taking packets. */
  ghost predicate HostHears(due: seq<Message>, room: nat, r: Result<(), Failure>, written: seq<Packet>) {
    && (forall host :: Hears(host, written) <= due)
    && (r != Err(WriteFailed) ==> forall host :: Hears(host, written) == due)
    && (r == Err(WriteFailed) ==> |written| == room)
  }

  /** Everything that these events bring fits. */
  predicate EventsFit(a: Option<Assembly>, events: seq<Event>)
    requires Readable(events)
  {
    |Reports(events)| <= |Phones(events)| && AllFit(a, Reports(events), Phones(events))
  }

  lemma ServedHeard(a: Option<Assembly>, next: u32, events: seq<Event>, info: seq<byte>, room: nat,
                    r: Result<(), Failure>, written: seq<Packet>)
    requires AssemblyOk(a) && |info| <= MAX_MESSAGE && Readable(events) && EventsFit(a, events)
    requires GetsOut(Conversation(a, next, events, info), room, r, written)
    ensures HostHears(AllDue(a, next, Reports(events), Phones(events), info), room, r, written)
  {
    var talk := Conversation(a, next, events, info);
    NoReplyFailsToWrite(Reactions(a, next, Reports(events), info), Phones(events));
    forall host: Option<Assembly>
      ensures Hears(host, talk.0) == AllDue(a, next, Reports(events), Phones(events), info)
      ensures Hears(host, written) <= Hears(host, talk.0)
    {
      RunHeard(host, a, next, Reports(events), Phones(events), info);
      HearsPrefix(host, talk.0, Min(|talk.0|, room));
    }
    assert talk.0[..|talk.0|] == talk.0;
  }

  class Helper {
    var assembly: Option<Assembly>
    var nextChannel: u32
    const info: seq<byte>

    ghost predicate Valid()
      reads this
    {
      AssemblyOk(assembly) && |info| < 0x1_0000
    }

    constructor (info: seq<byte>)
      requires |info| < 0x1_0000
      ensures Valid() && assembly == None && nextChannel == 1 && this.info == info
    {
      this.info := info;
      assembly := None;
      nextChannel := 1;
    }

    method DispatchMessage(m: Message) returns (r: Result<Outcome, Failure>)
      requires Valid() && |m.payload| < 0x1_0000
      modifies this`nextChannel
      ensures nextChannel == Dispatch(old(nextChannel), m, info).0
      ensures r == match Dispatch(old(nextChannel), m, info).1 case None => Err(ShortNonce) case Some(o) => Ok(o)
    {
      var packets: Option<seq<Packet>>;
      if m.command == INIT {
        if |m.payload| < 8 {
          return Err(ShortNonce);
        }
        var granted := m.channel;
        if m.channel == BROADCAST {
          nextChannel := (nextChannel + 1) % 0x1_0000_0000;
          granted := nextChannel;
        }
        packets := Frame(m.channel, INIT, InitBody(m.payload[..8], granted));
      } else if m.command == PING {
        packets := Frame(m.channel, PING, m.payload);
      } else if m.command == CBOR {
        var command := if m.payload == [] then 0 else m.payload[0];
        if command == GET_INFO {
          packets := Frame(m.channel, CBOR, info);
        } else if command == MAKE_CREDENTIAL || command == GET_ASSERTION {
          return Ok(Waiting(command, m.payload[1..]));
        } else {
          packets := Frame(m.channel, CBOR, [INVALID_COMMAND]);
        }
      } else {
        packets := Frame(m.channel, ERROR, [INVALID_COMMAND]);
      }
      return Ok(Ready(packets.value));
    }

    /** `handle_report`. */
    method HandleReport(report: seq<byte>) returns (r: Result<Option<Outcome>, Failure>)
      requires Valid()
      modifies this
      ensures Valid() && assembly == Next(old(assembly), report)
      ensures nextChannel == React(old(assembly), old(nextChannel), report, info).0
      ensures r == ResultOf(React(old(assembly), old(nextChannel), report, info).1)
    {
      ReportKeepsAssembly(assembly, report);
      ReactionOf(assembly, nextChannel, report, info);
      ghost var reception := Receive(assembly, report);
      if |report| < 5 {
        return Err(ShortReport);
      }
      var channel := FromBe32(report[..4]);
      var marker := report[4];
      var message: Message;
      if marker >= 0x80 {
        if |report| < 7 {
          return Err(ShortReport);
        }
        var expected := FromBe16(report[5..7]);
        var available := Min(expected, FIRST_DATA);
        if |report| < 7 + available {
          return Err(ShortReport);
        }
        var payload := report[7..7 + available];
        if |payload| < expected {
          assembly := Some(Assembly(channel, marker - 0x80, expected, payload));
          return Ok(None);
        }
        message := Message(channel, marker - 0x80, payload);
      } else {
        if assembly.None? || assembly.value.channel != channel {
          return Ok(None);
        }
        var state := assembly.value;
        var available := Min(state.expected - |state.payload|, NEXT_DATA);
        if |report| < 5 + available {
          return Err(ShortReport);
        }
        state := state.(payload := state.payload + report[5..5 + available]);
        if |state.payload| < state.expected {
          assembly := Some(state);
          return Ok(None);
        }
        assembly := None;
        message := Message(state.channel, state.command, state.payload);
      }
      assert reception == Complete(assembly, message);
      var outcome := DispatchMessage(message);
      match outcome
      case Ok(o) => return Ok(Some(o));
      case Err(e) => return Err(e);
    }

    /** One output event in `run`. */
    method ServeOutput(data: seq<byte>, size: u16, phone: seq<PhoneEvent>, room: nat)
      returns (r: Result<(), Failure>, written: seq<Packet>)
      requires Valid() && |data| == DATA_MAX
      modifies this
      ensures Valid() && assembly == Next(old(assembly), StripReportNumber(data, size))
      ensures var (after, x) := React(old(assembly), old(nextChannel), StripReportNumber(data, size), info);
        nextChannel == after && GetsOut(Turn(x, phone), room, r, written)
    {
      var report := StripReportNumber(data, size);
      AnsweredChannel(assembly, nextChannel, report, info);
      var outcome := HandleReport(report);
      if outcome.Err? {
        return Err(outcome.error), [];
      }
      if outcome.value.None? {
        return Ok(()), [];
      }
      r, written := WriteOutcome(FromBe32(report[..4]), outcome.value.value, phone, room);
    }

    /** `run`: one event after another until the device stops, a report ends it with an error, the
        phone gives no answer, or the device takes no more than `room` packets. */
    method Serve(events: seq<Event>, room: nat) returns (r: Result<(), Failure>, written: seq<Packet>)
      requires Valid() && Readable(events)
      modifies this
      ensures Valid()
      ensures GetsOut(Conversation(old(assembly), old(nextChannel), events, info), room, r, written)
      ensures |info| <= MAX_MESSAGE && EventsFit(old(assembly), events) ==>
        HostHears(AllDue(old(assembly), old(nextChannel), Reports(events), Phones(events), info), room, r, written)
    {
      var i := 0;
      ghost var talk := Conversation(assembly, nextChannel, events, info);
      written, r := [], Ok(());
      assert events[0..] == events && [] + talk.0 == talk.0;
      while r.Ok? && i < |events| && !events[i].Stop?
        invariant 0 <= i <= |events| && Valid()
        invariant if r.Err? then GetsOut(talk, room, r, written)
          else |written| <= room && talk == Before(written, Conversation(assembly, nextChannel, events[i..], info))
        decreases |events| - i
      {
        OneTurn(assembly, nextChannel, events, i, written, info, room);
        if events[i].Output? {
          var sent;
          r, sent := ServeOutput(events[i].data, events[i].size, events[i].phone, room - |written|);
          written := written + sent;
        }
        i := i + 1;
      }
      if r.Ok? {
        NothingLeft(assembly, nextChannel, events, i, info, written, room);
        assert r.value == ();
      }
      if |info| <= MAX_MESSAGE && EventsFit(old(assembly), events) {
        ServedHeard(old(assembly), old(nextChannel), events, info, room, r, written);
      }
    }
  }

  /** What gets out of all that would be sent, to a device that takes `room` packets, and how the run
      ends: with a failed write if that is not all of it. */
  predicate GetsOut(talk: (seq<Packet>, Option<Failure>), room: nat, r: Result<(), Failure>, written: seq<Packet>) {
    && written == talk.0[..Min(|talk.0|, room)]
    && r == if |talk.0| > room then Err(WriteFailed) else if talk.1.Some? then Err(talk.1.value) else Ok(())
  }

  function Before(sent: seq<Packet>, talk: (seq<Packet>, Option<Failure>)): (seq<Packet>, Option<Failure>) {
    (sent + talk.0, talk.1)
  }

  lemma AnsweredChannel(a: Option<Assembly>, next: u32, r: seq<byte>, info: seq<byte>)
    requires AssemblyOk(a) && |info| < 0x1_0000
    ensures var x := React(a, next, r, info).1;
      x.Answered? ==> |r| >= 5 && x.message.channel == FromBe32(r[..4])
  {
  }

  /** The two branches of `run` that write. */
  method WriteOutcome(channel: u32, o: Outcome, phone: seq<PhoneEvent>, room: nat)
    returns (r: Result<(), Failure>, written: seq<Packet>)
    ensures GetsOut(Sent(channel, o, phone), room, r, written)
  {
    if o.Ready? {
      var ok;
      ok, written := WritePackets(o.packets, room);
      return if ok then Ok(()) else Err(WriteFailed), written;
    }
    r, written := AnswerHost(channel, phone, room);
  }

  /** Whatever gets out of a turn after `written`: an error ends the conversation, and otherwise the
      rest follows. */
  ghost predicate Takes(written: seq<Packet>, turn: (seq<Packet>, Option<Failure>), room: nat,
                        talk: (seq<Packet>, Option<Failure>), rest: (seq<Packet>, Option<Failure>))
    requires |written| <= room
  {
    forall r, sent | GetsOut(turn, room - |written|, r, sent) ::
      if r.Err? then GetsOut(talk, room, r, written + sent)
      else |written + sent| <= room && talk == Before(written + sent, rest)
  }

  /** One event of a conversation, as the loop takes it. */
  lemma OneTurn(a: Option<Assembly>, next: u32, events: seq<Event>, i: nat, written: seq<Packet>, info: seq<byte>,
                room: nat)
    requires AssemblyOk(a) && |info| < 0x1_0000 && Readable(events) && i < |events| && |written| <= room
    ensures var talk := Before(written, Conversation(a, next, events[i..], info));
      match events[i]
      case Stop => true
      case Other => talk == Before(written, Conversation(a, next, events[i + 1..], info))
      case Output(data, size, phone) =>
        var report := StripReportNumber(data, size);
        var (after, x) := React(a, next, report, info);
        && AssemblyOk(Next(a, report))
        && Takes(written, Turn(x, phone), room, talk, Conversation(Next(a, report), after, events[i + 1..], info))
  {
    ReportsFrom(events, i);
    WholeSent(written);
    if events[i].Output? {
      var report := StripReportNumber(events[i].data, events[i].size);
      var (after, x) := React(a, next, report, info);
      FirstReaction(a, next, report, Reports(events[i + 1..]), info);
      FirstReply(x, Stops(x), Reactions(a, next, Reports(events[i..]), info),
                 Reactions(Next(a, report), after, Reports(events[i + 1..]), info),
                 events[i].phone, Phones(events[i + 1..]));
      TurnTaken(written, Turn(x, events[i].phone), room, Conversation(a, next, events[i..], info),
                Conversation(Next(a, report), after, events[i + 1..], info));
    }
  }

  lemma WholeSent(written: seq<Packet>)
    ensures written + [] == written == written[..|written|]
  {
  }

  lemma NothingLeft(a: Option<Assembly>, next: u32, events: seq<Event>, i: nat, info: seq<byte>,
                    written: seq<Packet>, room: nat)
    requires AssemblyOk(a) && |info| < 0x1_0000 && |written| <= room && Readable(events)
    requires i <= |events| && (i < |events| ==> events[i].Stop?)
    ensures GetsOut(Before(written, Conversation(a, next, events[i..], info)), room, Ok(()), written)
  {
    WholeSent(written);
  }

  lemma FirstReply(x: Reaction, stops: bool, xs: seq<Reaction>, later: seq<Reaction>, phone: seq<PhoneEvent>,
                   phones: seq<seq<PhoneEvent>>)
    requires stops == Stops(x) && xs == [x] + if stops then [] else later
    ensures Replies(xs, [phone] + phones) == Follows(Turn(x, phone), Replies(later, phones))
  {
    assert ([phone] + phones)[1..] == phones;
    if Turn(x, phone).1.None? {
      assert xs[1..] == later;
    }
  }

  /** One turn and then the rest, unless the turn ends the run. */
  function Follows(turn: (seq<Packet>, Option<Failure>), rest: (seq<Packet>, Option<Failure>))
    : (seq<Packet>, Option<Failure>)
  {
    if turn.1.Some? then turn else Before(turn.0, rest)
  }

  lemma TurnTaken(written: seq<Packet>, turn: (seq<Packet>, Option<Failure>), room: nat,
                  talk: (seq<Packet>, Option<Failure>), rest: (seq<Packet>, Option<Failure>))
    requires |written| <= room && talk == Follows(turn, rest)
    ensures Takes(written, turn, room, Before(written, talk), rest)
  {
    var all := Before(written, talk).0;
    var left := room - |written|;
    if |turn.0| > left {
      assert talk.0[..left] == turn.0[..left];
      assert all[..room] == written + turn.0[..left];
    } else {
      assert turn.0[..|turn.0|] == turn.0;
      if turn.1.Some? {
        assert all[..|all|] == all;
      } else {
        assert written + (turn.0 + rest.0) == written + turn.0 + rest.0;
      }
    }
  }

  lemma ReportsFrom(events: seq<Event>, i: nat)
    requires Readable(events) && i < |events|
    ensures match events[i]
      case Stop => Reports(events[i..]) == [] && Phones(events[i..]) == []
      case Other => Reports(events[i..]) == Reports(events[i + 1..]) && Phones(events[i..]) == Phones(events[i + 1..])
      case Output(data, size, phone) =>
        && Reports(events[i..]) == [StripReportNumber(data, size)] + Reports(events[i + 1..])
        && Phones(events[i..]) == [phone] + Phones(events[i + 1..])
  {
    assert events[i..][1..] == events[i + 1..];
  }

  lemma FirstReaction(a: Option<Assembly>, next: u32, r: seq<byte>, rs: seq<seq<byte>>, info: seq<byte>)
    requires AssemblyOk(a) && |info| < 0x1_0000
    ensures AssemblyOk(Next(a, r))
    ensures var (after, x) := React(a, next, r, info);
      Reactions(a, next, [r] + rs, info) == [x] + if Stops(x) then [] else Reactions(Next(a, r), after, rs, info)
  {
    ReportKeepsAssembly(a, r);
    assert ([r] + rs)[1..] == rs;
  }

  // ---- The wait for the phone --------------------------------------------------------------

  /** `write_packets`, on a device that takes `room` packets and then fails. */
  method WritePackets(packets: seq<Packet>, room: nat) returns (ok: bool, written: seq<Packet>)
    ensures written == packets[..Min(|packets|, room)] && (ok <==> |packets| <= room)
  {
    written := [];
    while |written| < |packets|
      invariant |written| <= |packets| && |written| <= room && written == packets[..|written|]
      decreases |packets| - |written|
    {
      if |written| == room {
        return false, written;
      }
      written := written + [packets[|written|]];
    }
    return true, written;
  }

  /** `await_phone`: one keep-alive per tick, then the answer. */
  method AwaitPhone(channel: u32, events: seq<PhoneEvent>, room: nat)
    returns (r: Result<seq<byte>, Failure>, written: seq<Packet>)
    ensures written == KeepAlives(channel, Min(Ticks(events), room))
    ensures r == if Ticks(events) > room then Err(WriteFailed)
                 else if Ticks(events) == |events| then Err(PhoneGone)
                 else Ok(events[Ticks(events)].body)
  {
    var next := 0;
    written := [];
    while next < |events| && events[next].Tick?
      invariant 0 <= next <= |events| && next <= room
      invariant Ticks(events) == next + Ticks(events[next..])
      invariant written == KeepAlives(channel, next)
    {
      assert events[next..][1..] == events[next + 1..];
      var packets := Frame(channel, KEEPALIVE, [UP_NEEDED]);
      OneMoreKeepAlive(channel, next, packets.value);
      var ok, sent := WritePackets(packets.value, room - next);
      written := written + sent;
      if !ok {
        return Err(WriteFailed), written;
      }
      next := next + 1;
    }
    if next == |events| {
      return Err(PhoneGone), written;
    }
    return Ok(events[next].body), written;
  }

  lemma OneMoreKeepAlive(channel: u32, n: nat, packets: seq<Packet>)
    requires packets == Packets(channel, KEEPALIVE, [UP_NEEDED])
    ensures |packets| == 1 && packets[..1] == packets && packets[..0] == []
    ensures KeepAlives(channel, n) + packets == KeepAlives(channel, n + 1)
    ensures |KeepAlives(channel, n)| == n && KeepAlives(channel, n) + [] == KeepAlives(channel, n)
  {
    OneKeepAlive(channel);
    KeepAlivesAppend(channel, n);
    KeepAlivesTake(channel, n, n);
  }

  lemma OneKeepAlive(channel: u32)
    ensures |Packets(channel, KEEPALIVE, [UP_NEEDED])| == 1
  {
  }

  /** The waiting branch of `run`: the host is sent all of it, or as much as the device takes. */
  method AnswerHost(channel: u32, events: seq<PhoneEvent>, room: nat)
    returns (r: Result<(), Failure>, written: seq<Packet>)
    ensures written == ToHost(channel, events)[..Min(|ToHost(channel, events)|, room)]
    ensures r == if |ToHost(channel, events)| > room then Err(WriteFailed)
                 else match PhoneFailure(events) case Some(failure) => Err(failure) case None => Ok(())
  {
    KeepAlivesTake(channel, Ticks(events), Min(Ticks(events), room));
    var answer;
    answer, written := AwaitPhone(channel, events, room);
    if answer.Err? {
      return Err(answer.error), written;
    }
    var packets := Frame(channel, CBOR, answer.value);
    if packets.None? {
      return Err(TooLong), written;
    }
    var ok, sent := WritePackets(packets.value, room - |written|);
    return if ok then Ok(()) else Err(WriteFailed), written + sent;
  }

  lemma {:induction false} KeepAlivesTake(channel: u32, n: nat, k: nat)
    requires k <= n
    ensures |KeepAlives(channel, n)| == n && KeepAlives(channel, n)[..k] == KeepAlives(channel, k)
  {
    OneKeepAlive(channel);
    if n > 0 {
      KeepAlivesTake(channel, n - 1, if k > 0 then k - 1 else 0);
    }
  }

  // ---- The report number -------------------------------------------------------------------

  /** Either way the handler is given the same packet. */
  lemma ReportNumberIgnored(p: Packet, number: byte, rest: seq<byte>)
    requires rest != []
    ensures StripReportNumber(p + rest, REPORT_SIZE) == p
    ensures StripReportNumber([number] + p + rest, REPORT_SIZE + 1) == p
  {
  }

  // ---- The channels granted ----------------------------------------------------------------

  predicate Grants(m: Message) {
    m.command == INIT && m.channel == BROADCAST && |m.payload| >= 8
  }

  /** The counter after a run of messages, and the channels it hands out on the way. */
  function Granted(next: u32, ms: seq<Message>): seq<u32>
    requires forall i :: 0 <= i < |ms| ==> |ms[i].payload| < 0x1_0000
    decreases |ms|
  {
    if ms == [] then []
    else
      var later := Dispatch(next, ms[0], []).0;
      (if Grants(ms[0]) then [later] else []) + Granted(later, ms[1..])
  }

  lemma {:induction false} GrantedInOrder(next: u32, ms: seq<Message>, i: nat)
    requires forall i :: 0 <= i < |ms| ==> |ms[i].payload| < 0x1_0000
    requires i < |Granted(next, ms)|
    ensures Granted(next, ms)[i] == (next + 1 + i) % 0x1_0000_0000
    decreases |ms|
  {
    CounterStep(next, ms[0], []);
    if !Grants(ms[0]) {
      GrantedInOrder(next, ms[1..], i);
    } else if i > 0 {
      GrantedInOrder((next + 1) % 0x1_0000_0000, ms[1..], i - 1);
      CounterWraps(next, i);
    }
  }

  lemma CounterStep(next: u32, m: Message, info: seq<byte>)
    requires |m.payload| < 0x1_0000 && |info| < 0x1_0000
    ensures Dispatch(next, m, info).0 == if Grants(m) then (next + 1) % 0x1_0000_0000 else next
  {
  }

  lemma CounterWraps(next: u32, i: nat)
    requires i > 0
    ensures ((next + 1) % 0x1_0000_0000 + 1 + (i - 1)) % 0x1_0000_0000 == (next + 1 + i) % 0x1_0000_0000
  {
  }

  predicate Usable(channels: seq<u32>) {
    && (forall i :: 0 <= i < |channels| ==> channels[i] != 0 && channels[i] != BROADCAST)
    && (forall i, j :: 0 <= i < j < |channels| ==> channels[i] != channels[j])
  }

  /** Over any run from the start, the channels granted are distinct and none is reserved exactly
      as long as fewer than 2^32 - 2 have been granted. */
  lemma ChannelsUsable(ms: seq<Message>)
    requires forall i :: 0 <= i < |ms| ==> |ms[i].payload| < 0x1_0000
    ensures Usable(Granted(1, ms)) <==> |Granted(1, ms)| < 0xffff_fffe
  {
    var channels := Granted(1, ms);
    forall i | 0 <= i < |channels| ensures channels[i] == (2 + i) % 0x1_0000_0000 {
      GrantedInOrder(1, ms, i);
    }
    CountedUsable(channels);
  }

  lemma CountedUsable(channels: seq<u32>)
    requires forall i :: 0 <= i < |channels| ==> channels[i] == (2 + i) % 0x1_0000_0000
    ensures Usable(channels) <==> |channels| < 0xffff_fffe
  {
    if |channels| >= 0xffff_fffe {
      assert channels[0xffff_fffd] == BROADCAST;
    }
  }

  /** A ping of any length the helper can have assembled is sent back and leaves the counter alone;
      the host reads it back whole if and only if it has at most 7609 bytes. */
  lemma PingEchoed(next: u32, m: Message, info: seq<byte>, host: Option<Assembly>)
    requires m.command == PING && |m.payload| < 0x1_0000 && |info| < 0x1_0000 && AssemblyOk(host)
    ensures Dispatch(next, m, info) == (next, Some(Ready(Packets(m.channel, PING, m.payload))))
    ensures Survives(host, m) <==> |m.payload| <= MAX_MESSAGE
  {
    SurvivesExactly(host, m);
  }

  /** The host finds its own nonce in the reply to an INIT, and the channel it is to use: the one
      just granted on the broadcast channel, its own on any other. */
  lemma InitAnswered(next: u32, m: Message, info: seq<byte>, host: Option<Assembly>)
    requires m.command == INIT && 8 <= |m.payload| < 0x1_0000 && |info| < 0x1_0000
    ensures var (after, outcome) := Dispatch(next, m, info);
      && outcome.Some? && outcome.value.Ready? && outcome.value.packets != []
      && var ps := outcome.value.packets; var last := Dispatches(host, ps)[|ps| - 1];
         && last.Some? && last.value.channel == m.channel && last.value.command == INIT && |last.value.payload| == 17
         && last.value.payload[..8] == m.payload[..8]
         && FromBe32(last.value.payload[8..12]) == if m.channel == BROADCAST then after else m.channel
  {
    var after := Dispatch(next, m, info).0;
    var granted := if m.channel == BROADCAST then after else m.channel;
    var body := InitBody(m.payload[..8], granted);
    FrameRoundTrip(host, Message(m.channel, INIT, body));
    assert body[..8] == m.payload[..8] && body[8..12] == Be32(granted);
    Be32RoundTrip(granted);
  }
}

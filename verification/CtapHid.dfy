/** CTAPHID framing and reassembly (section 8.1.4 of CTAP 2.0) as values: what the packets of a
    message are, and what the helper makes of each report it is given. */
module CtapHid {
  import opened Wrappers
  import opened Numbers
  import opened Bytes

  const REPORT_SIZE := 64
  const FIRST_DATA := 57
  const NEXT_DATA := 59
  const MAX_MESSAGE := 7609

  const PING: byte := 0x01
  const INIT: byte := 0x06
  const CBOR: byte := 0x10
  const KEEPALIVE: byte := 0x3b
  const ERROR: byte := 0x3f
  const BROADCAST: u32 := 0xffff_ffff

  type Packet = p: seq<byte> | |p| == REPORT_SIZE witness Zeros(REPORT_SIZE)

  // ---- Framing ---------------------------------------------------------------------------

  function Pad(s: seq<byte>): (p: Packet)
    requires |s| <= REPORT_SIZE
    ensures p[..|s|] == s
  {
    s + Zeros(REPORT_SIZE - |s|)
  }

  /** `command | 0x80`. */
  function SetTopBit(b: byte): byte {
    if b < 0x80 then b + 0x80 else b
  }

  function FirstPacket(channel: u32, command: byte, payload: seq<byte>): Packet
    requires |payload| < 0x1_0000
  {
    Pad(Be32(channel) + [SetTopBit(command)] + Be16(|payload|) + payload[..Min(|payload|, FIRST_DATA)])
  }

  function NextPacket(channel: u32, sequence: byte, data: seq<byte>): Packet {
    Pad(Be32(channel) + [sequence] + data[..Min(|data|, NEXT_DATA)])
  }

  function Continuations(channel: u32, sequence: byte, data: seq<byte>): seq<Packet>
    decreases |data|
  {
    if data == [] then []
    else
      [NextPacket(channel, sequence, data)]
      + Continuations(channel, (sequence + 1) % 0x100, data[Min(|data|, NEXT_DATA)..])
  }

  function Packets(channel: u32, command: byte, payload: seq<byte>): (ps: seq<Packet>)
    requires |payload| < 0x1_0000
    ensures ps != []
  {
    [FirstPacket(channel, command, payload)]
    + Continuations(channel, 0, payload[Min(|payload|, FIRST_DATA)..])
  }

  // ---- Reassembly ------------------------------------------------------------------------

  datatype Assembly = Assembly(channel: u32, command: byte, expected: nat, payload: seq<byte>)

  datatype Message = Message(channel: u32, command: byte, payload: seq<byte>)

  /** What one report does: too short to read, a change of the assembly at most, or a message. */
  datatype Reception =
    | Short
    | Quiet(assembly: Option<Assembly>)
    | Complete(assembly: Option<Assembly>, message: Message)

  function ReceiveFirst(a: Option<Assembly>, channel: u32, r: seq<byte>): Reception
    requires |r| >= 5 && r[4] >= 0x80
  {
    if |r| < 7 then Short
    else
      var expected := FromBe16(r[5..7]);
      var available := Min(expected, FIRST_DATA);
      if |r| < 7 + available then Short
      else if available < expected then Quiet(Some(Assembly(channel, r[4] - 0x80, expected, r[7..7 + available])))
      else Complete(a, Message(channel, r[4] - 0x80, r[7..7 + available]))
  }

  function ReceiveNext(a: Option<Assembly>, channel: u32, r: seq<byte>): Reception
    requires |r| >= 5
  {
    if a.None? || a.value.channel != channel then Quiet(a)
    else
      var remaining := if a.value.expected < |a.value.payload| then 0 else a.value.expected - |a.value.payload|;
      var available := Min(remaining, NEXT_DATA);
      if |r| < 5 + available then Short
      else
        var payload := a.value.payload + r[5..5 + available];
        if |payload| < a.value.expected then Quiet(Some(a.value.(payload := payload)))
        else Complete(None, Message(a.value.channel, a.value.command, payload))
  }

  function Receive(a: Option<Assembly>, r: seq<byte>): Reception {
    if |r| < 5 then Short
    else if r[4] >= 0x80 then ReceiveFirst(a, FromBe32(r[..4]), r)
    else ReceiveNext(a, FromBe32(r[..4]), r)
  }

  function Next(a: Option<Assembly>, r: seq<byte>): Option<Assembly> {
    match Receive(a, r)
    case Short => a
    case Quiet(b) => b
    case Complete(b, _) => b
  }

  function Dispatched(a: Option<Assembly>, r: seq<byte>): Option<Message> {
    match Receive(a, r)
    case Complete(_, m) => Some(m)
    case _ => None
  }

  /** The assembly after a run of reports, and the message each report completed. */
  function After(a: Option<Assembly>, rs: seq<seq<byte>>): Option<Assembly>
    decreases |rs|
  {
    if rs == [] then a else After(Next(a, rs[0]), rs[1..])
  }

  function Dispatches(a: Option<Assembly>, rs: seq<seq<byte>>): (ms: seq<Option<Message>>)
    ensures |ms| == |rs|
    decreases |rs|
  {
    if rs == [] then [] else [Dispatched(a, rs[0])] + Dispatches(Next(a, rs[0]), rs[1..])
  }

  // ---- One packet ------------------------------------------------------------------------

  lemma FirstPacketFields(channel: u32, command: byte, payload: seq<byte>)
    requires |payload| < 0x1_0000 && command < 0x80
    ensures var p := FirstPacket(channel, command, payload); var n := Min(|payload|, FIRST_DATA);
      FromBe32(p[..4]) == channel && p[4] == command + 0x80 && FromBe16(p[5..7]) == |payload|
        && p[7..7 + n] == payload[..n]
  {
    var n := Min(|payload|, FIRST_DATA);
    var head := Be32(channel) + [SetTopBit(command)] + Be16(|payload|) + payload[..n];
    var p := FirstPacket(channel, command, payload);
    assert p[..7 + n] == head;
    assert p[..4] == head[..4] == Be32(channel) && p[4] == head[4] && p[5..7] == head[5..7] == Be16(|payload|);
    assert p[7..7 + n] == head[7..7 + n] == payload[..n];
    Be32RoundTrip(channel);
    Be16RoundTrip(|payload|);
  }

  lemma NextPacketFields(channel: u32, sequence: byte, data: seq<byte>)
    ensures var p := NextPacket(channel, sequence, data); var n := Min(|data|, NEXT_DATA);
      FromBe32(p[..4]) == channel && p[4] == sequence && p[5..5 + n] == data[..n]
  {
    var n := Min(|data|, NEXT_DATA);
    var head := Be32(channel) + [sequence] + data[..n];
    var p := NextPacket(channel, sequence, data);
    assert p[..5 + n] == head;
    assert p[..4] == head[..4] == Be32(channel) && p[4] == head[4];
    assert p[5..5 + n] == head[5..5 + n] == data[..n];
    Be32RoundTrip(channel);
  }

  lemma ReceiveFirstPacket(a: Option<Assembly>, channel: u32, command: byte, payload: seq<byte>)
    requires |payload| < 0x1_0000 && command < 0x80
    ensures Receive(a, FirstPacket(channel, command, payload))
         == if |payload| <= FIRST_DATA then Complete(a, Message(channel, command, payload))
            else Quiet(Some(Assembly(channel, command, |payload|, payload[..FIRST_DATA])))
  {
    FirstPacketFields(channel, command, payload);
    if |payload| <= FIRST_DATA {
      assert payload[..|payload|] == payload;
    }
  }

  lemma ReceiveNextPacket(a: Assembly, sequence: byte, data: seq<byte>)
    requires sequence < 0x80 && data != [] && |a.payload| + |data| == a.expected
    ensures Receive(Some(a), NextPacket(a.channel, sequence, data))
         == if |data| <= NEXT_DATA then Complete(None, Message(a.channel, a.command, a.payload + data))
            else Quiet(Some(a.(payload := a.payload + data[..NEXT_DATA])))
  {
    NextPacketFields(a.channel, sequence, data);
    if |data| <= NEXT_DATA {
      assert data[..|data|] == data;
    }
  }

  // ---- Interleaving ----------------------------------------------------------------------

  /** What may arrive between the packets of a message on `channel`: continuations of other
      channels, and complete one-packet messages of any channel. */
  predicate Foreign(channel: u32, r: seq<byte>) {
    && |r| == REPORT_SIZE
    && (r[4] < 0x80 ==> FromBe32(r[..4]) != channel)
    && (r[4] >= 0x80 ==> FromBe16(r[5..7]) <= FIRST_DATA)
  }

  /** The message a report is by itself, whatever is being assembled. */
  function Alone(r: seq<byte>): Option<Message> {
    Dispatched(None, r)
  }

  /** The reports marked as the message's own, in order. */
  function Select(rs: seq<seq<byte>>, own: seq<bool>): seq<seq<byte>>
    requires |rs| == |own|
  {
    if rs == [] then [] else (if own[0] then [rs[0]] else []) + Select(rs[1..], own[1..])
  }

  predicate Interleaved(channel: u32, rs: seq<seq<byte>>, own: seq<bool>, packets: seq<seq<byte>>) {
    && |rs| == |own| > 0 && own[|own| - 1]
    && Select(rs, own) == packets
    && forall i :: 0 <= i < |rs| && !own[i] ==> Foreign(channel, rs[i])
  }

  /** The message on the last of its own packets, nothing on the others, and every foreign report
      by itself. */
  predicate OnlyLast(rs: seq<seq<byte>>, own: seq<bool>, m: Message, ms: seq<Option<Message>>) {
    && |rs| == |own| == |ms|
    && forall i :: 0 <= i < |rs| ==>
         ms[i] == if !own[i] then Alone(rs[i]) else if i == |rs| - 1 then Some(m) else None
  }

  lemma ForeignKeepsAssembly(a: Assembly, r: seq<byte>)
    requires Foreign(a.channel, r)
    ensures Next(Some(a), r) == Some(a) && Dispatched(Some(a), r) == Alone(r)
  {
  }

  lemma OnlyLastCons(r: seq<byte>, mine: bool, rs: seq<seq<byte>>, own: seq<bool>, m: Message, ms: seq<Option<Message>>)
    requires rs != [] && OnlyLast(rs, own, m, ms)
    ensures OnlyLast([r] + rs, [mine] + own, m, [if mine then None else Alone(r)] + ms)
  {
  }

  lemma {:induction false} SelectNone(rs: seq<seq<byte>>, own: seq<bool>, i: nat)
    requires |rs| == |own| && Select(rs, own) == [] && i < |own|
    ensures !own[i]
  {
    if i > 0 {
      SelectNone(rs[1..], own[1..], i - 1);
    }
  }

  lemma ForeignHead(channel: u32, rs: seq<seq<byte>>, own: seq<bool>, packets: seq<seq<byte>>)
    requires Interleaved(channel, rs, own, packets) && !own[0]
    ensures Interleaved(channel, rs[1..], own[1..], packets) && Foreign(channel, rs[0])
  {
  }

  lemma OwnHead(channel: u32, rs: seq<seq<byte>>, own: seq<bool>, p: seq<byte>, packets: seq<seq<byte>>)
    requires Interleaved(channel, rs, own, [p] + packets) && own[0]
    ensures rs[0] == p
    ensures if packets == [] then |rs| == 1 else Interleaved(channel, rs[1..], own[1..], packets)
  {
    var tail := Select(rs[1..], own[1..]);
    assert [rs[0]] + tail == [p] + packets;
    assert ([rs[0]] + tail)[0] == ([p] + packets)[0];
    assert tail == ([rs[0]] + tail)[1..] == ([p] + packets)[1..] == packets;
    if |rs| == 1 {
      assert Select(rs[1..], own[1..]) == [];
    } else if packets == [] {
      SelectNone(rs[1..], own[1..], |rs| - 2);
    }
  }

  lemma LastDelivered(a: Assembly, sequence: byte, data: seq<byte>, rs: seq<seq<byte>>, own: seq<bool>)
    requires data != [] && |a.payload| + |data| == a.expected && |data| <= NEXT_DATA && sequence < 0x80
    requires Interleaved(a.channel, rs, own, Continuations(a.channel, sequence, data)) && own[0]
    ensures OnlyLast(rs, own, Message(a.channel, a.command, a.payload + data), Dispatches(Some(a), rs))
    ensures After(Some(a), rs) == None
  {
    assert data[|data|..] == [];
    OwnHead(a.channel, rs, own, NextPacket(a.channel, sequence, data),
            Continuations(a.channel, (sequence + 1) % 0x100, []));
    ReceiveNextPacket(a, sequence, data);
  }

  lemma {:induction false} TailDelivered(a: Assembly, sequence: byte, data: seq<byte>, rs: seq<seq<byte>>,
      own: seq<bool>)
    requires data != [] && |a.payload| + |data| == a.expected
    requires |data| <= NEXT_DATA * (0x80 - sequence)
    requires Interleaved(a.channel, rs, own, Continuations(a.channel, sequence, data))
    ensures OnlyLast(rs, own, Message(a.channel, a.command, a.payload + data), Dispatches(Some(a), rs))
    ensures After(Some(a), rs) == None
    decreases |rs|
  {
    var m := Message(a.channel, a.command, a.payload + data);
    assert rs == [rs[0]] + rs[1..] && own == [own[0]] + own[1..];
    if !own[0] {
      ForeignHead(a.channel, rs, own, Continuations(a.channel, sequence, data));
      ForeignKeepsAssembly(a, rs[0]);
      TailDelivered(a, sequence, data, rs[1..], own[1..]);
      OnlyLastCons(rs[0], false, rs[1..], own[1..], m, Dispatches(Some(a), rs[1..]));
    } else if |data| > NEXT_DATA {
      var later := data[NEXT_DATA..];
      var b := a.(payload := a.payload + data[..NEXT_DATA]);
      OwnHead(a.channel, rs, own, NextPacket(a.channel, sequence, data),
              Continuations(a.channel, (sequence + 1) % 0x100, later));
      ReceiveNextPacket(a, sequence, data);
      assert a.payload + data == b.payload + later;
      TailDelivered(b, sequence + 1, later, rs[1..], own[1..]);
      OnlyLastCons(rs[0], true, rs[1..], own[1..], m, Dispatches(Some(b), rs[1..]));
    } else {
      LastDelivered(a, sequence, data, rs, own);
    }
  }

  /** A message of at most 7609 bytes survives any interleaving with foreign reports: it is
      dispatched once, whole, on the last of its packets, and changes no foreign dispatch. */
  lemma MessageDelivered(before: Option<Assembly>, m: Message, rs: seq<seq<byte>>, own: seq<bool>)
    requires m.command < 0x80 && |m.payload| <= MAX_MESSAGE
    requires Interleaved(m.channel, rs, own, Packets(m.channel, m.command, m.payload)) && own[0]
    ensures OnlyLast(rs, own, m, Dispatches(before, rs))
    ensures After(before, rs) == if |m.payload| <= FIRST_DATA then before else None
  {
    var later := m.payload[Min(|m.payload|, FIRST_DATA)..];
    var packets := Continuations(m.channel, 0, later);
    OwnHead(m.channel, rs, own, FirstPacket(m.channel, m.command, m.payload), packets);
    ReceiveFirstPacket(before, m.channel, m.command, m.payload);
    assert rs == [rs[0]] + rs[1..] && own == [own[0]] + own[1..];
    if |m.payload| > FIRST_DATA {
      var a := Assembly(m.channel, m.command, |m.payload|, m.payload[..FIRST_DATA]);
      assert a.payload + later == m.payload;
      TailDelivered(a, 0, later, rs[1..], own[1..]);
      OnlyLastCons(rs[0], true, rs[1..], own[1..], m, Dispatches(Some(a), rs[1..]));
    }
  }

  lemma {:induction false} SelectAll(rs: seq<seq<byte>>, own: seq<bool>)
    requires |rs| == |own| && forall i :: 0 <= i < |own| ==> own[i]
    ensures Select(rs, own) == rs
  {
    if rs != [] {
      SelectAll(rs[1..], own[1..]);
    }
  }

  /** Framing and reassembly undo each other, from any assembly in progress. */
  lemma FrameRoundTrip(before: Option<Assembly>, m: Message)
    requires m.command < 0x80 && |m.payload| <= MAX_MESSAGE
    ensures var ps := Packets(m.channel, m.command, m.payload); var ms := Dispatches(before, ps);
      && (forall i :: 0 <= i < |ps| ==> ms[i] == if i == |ps| - 1 then Some(m) else None)
      && After(before, ps) == if |m.payload| <= FIRST_DATA then before else None
  {
    var ps := Packets(m.channel, m.command, m.payload);
    var own := seq(|ps|, i => true);
    SelectAll(ps, own);
    MessageDelivered(before, m, ps, own);
  }

  // ---- The shape of the packets ----------------------------------------------------------

  /** The data regions after the headers, in order. */
  function Body(ps: seq<Packet>): seq<byte> {
    if ps == [] then [] else ps[0][5..] + Body(ps[1..])
  }

  function Data(ps: seq<Packet>): seq<byte>
    requires ps != []
  {
    ps[0][7..] + Body(ps[1..])
  }

  lemma NextPacketData(channel: u32, sequence: byte, data: seq<byte>)
    ensures var n := Min(|data|, NEXT_DATA);
      NextPacket(channel, sequence, data)[5..] == data[..n] + Zeros(NEXT_DATA - n)
  {
    var n := Min(|data|, NEXT_DATA);
    var head := Be32(channel) + [sequence] + data[..n];
    assert head[5..] == data[..n];
    assert NextPacket(channel, sequence, data) == head + Zeros(REPORT_SIZE - |head|);
  }

  lemma {:induction false} ContinuationsCount(channel: u32, sequence: byte, data: seq<byte>)
    ensures |Continuations(channel, sequence, data)| == (|data| + 58) / 59
    decreases |data|
  {
    if data != [] {
      ContinuationsCount(channel, (sequence + 1) % 0x100, data[Min(|data|, NEXT_DATA)..]);
    }
  }

  lemma {:induction false} ContinuationMarker(channel: u32, sequence: byte, data: seq<byte>, i: nat)
    requires i < |Continuations(channel, sequence, data)|
    ensures Continuations(channel, sequence, data)[i][4] == (sequence + i) % 0x100
    decreases i
  {
    if i == 0 {
      NextPacketFields(channel, sequence, data);
    } else {
      var later := data[Min(|data|, NEXT_DATA)..];
      ContinuationMarker(channel, (sequence + 1) % 0x100, later, i - 1);
      MarkerWraps(sequence, i);
    }
  }

  lemma MarkerWraps(sequence: byte, i: nat)
    requires i > 0
    ensures ((sequence + 1) % 0x100 + (i - 1)) % 0x100 == (sequence + i) % 0x100
  {
  }

  lemma {:induction false} ContinuationsBody(channel: u32, sequence: byte, data: seq<byte>)
    ensures var body := Body(Continuations(channel, sequence, data));
      |body| >= |data| && body == data + Zeros(|body| - |data|)
    decreases |data|
  {
    if data != [] {
      var n := Min(|data|, NEXT_DATA);
      var later := Continuations(channel, (sequence + 1) % 0x100, data[n..]);
      NextPacketData(channel, sequence, data);
      ContinuationsBody(channel, (sequence + 1) % 0x100, data[n..]);
      BodyCons(NextPacket(channel, sequence, data), later);
      PaddedJoin(data, n, NEXT_DATA - n, Body(later));
    }
  }

  lemma BodyCons(p: Packet, ps: seq<Packet>)
    ensures Body([p] + ps) == p[5..] + Body(ps)
  {
    assert ([p] + ps)[1..] == ps;
  }

  /** A chunk and what follows it; only a last chunk is padded. */
  lemma PaddedJoin(data: seq<byte>, n: nat, padding: nat, later: seq<byte>)
    requires n <= |data| && (padding > 0 ==> n == |data| && later == [])
    requires |later| >= |data| - n && later == data[n..] + Zeros(|later| - (|data| - n))
    ensures var body := data[..n] + Zeros(padding) + later;
      |body| >= |data| && body == data + Zeros(|body| - |data|)
  {
    assert data == data[..n] + data[n..];
  }

  function CeilingDiv(n: nat, d: nat): nat
    requires d > 0
  {
    (n + d - 1) / d
  }

  lemma FrameMarkers(channel: u32, command: byte, payload: seq<byte>)
    requires |payload| < 0x1_0000
    ensures var ps := Packets(channel, command, payload);
      && |ps| == 1 + CeilingDiv(if |payload| < FIRST_DATA then 0 else |payload| - FIRST_DATA, NEXT_DATA)
      && forall i :: 1 <= i < |ps| ==> ps[i][4] == (i - 1) % 0x100
  {
    var later := payload[Min(|payload|, FIRST_DATA)..];
    var ps := Packets(channel, command, payload);
    ContinuationsCount(channel, 0, later);
    forall i | 1 <= i < |ps| ensures ps[i][4] == (i - 1) % 0x100 {
      ContinuationMarker(channel, 0, later, i - 1);
    }
  }

  lemma FrameData(channel: u32, command: byte, payload: seq<byte>)
    requires |payload| < 0x1_0000
    ensures var data := Data(Packets(channel, command, payload));
      |data| >= |payload| && data == payload + Zeros(|data| - |payload|)
  {
    var n := Min(|payload|, FIRST_DATA);
    var later := payload[n..];
    assert Packets(channel, command, payload)[1..] == Continuations(channel, 0, later);
    ContinuationsBody(channel, 0, later);
    FirstPacketData(channel, command, payload);
    assert payload == payload[..n] + later;
  }

  /** The number of packets, that their data regions hold the payload and zeros, and that the
      continuation markers can be told from first packets exactly up to 7609 bytes. */
  lemma FrameShape(channel: u32, command: byte, payload: seq<byte>)
    requires |payload| < 0x1_0000
    ensures var ps := Packets(channel, command, payload); var n := |payload|;
      && |ps| == 1 + CeilingDiv(if n < FIRST_DATA then 0 else n - FIRST_DATA, NEXT_DATA)
      && |Data(ps)| >= n && Data(ps) == payload + Zeros(|Data(ps)| - n)
      && ((forall i :: 1 <= i < |ps| ==> ps[i][4] < 0x80) <==> n <= MAX_MESSAGE)
  {
    FrameMarkers(channel, command, payload);
    FrameData(channel, command, payload);
    if |payload| > MAX_MESSAGE {
      assert Packets(channel, command, payload)[129][4] == 0x80;
    }
  }

  lemma FirstPacketData(channel: u32, command: byte, payload: seq<byte>)
    requires |payload| < 0x1_0000
    ensures var n := Min(|payload|, FIRST_DATA);
      FirstPacket(channel, command, payload)[7..] == payload[..n] + Zeros(FIRST_DATA - n)
  {
    var n := Min(|payload|, FIRST_DATA);
    var head := Be32(channel) + [SetTopBit(command)] + Be16(|payload|) + payload[..n];
    assert head[7..] == payload[..n];
    assert FirstPacket(channel, command, payload) == head + Zeros(REPORT_SIZE - |head|);
  }

  // ---- Keep-alive frames -----------------------------------------------------------------

  lemma {:induction false} DispatchesAppend(a: Option<Assembly>, rs: seq<seq<byte>>, ts: seq<seq<byte>>)
    ensures Dispatches(a, rs + ts) == Dispatches(a, rs) + Dispatches(After(a, rs), ts)
    decreases |rs|
  {
    if rs == [] {
      assert rs + ts == ts;
    } else {
      assert (rs + ts)[1..] == rs[1..] + ts;
      DispatchesAppend(Next(a, rs[0]), rs[1..], ts);
    }
  }

  const UP_NEEDED: byte := 0x02

  function KeepAlives(channel: u32, n: nat): seq<Packet> {
    if n == 0 then [] else Packets(channel, KEEPALIVE, [UP_NEEDED]) + KeepAlives(channel, n - 1)
  }

  lemma {:induction false} KeepAlivesAppend(channel: u32, n: nat)
    ensures KeepAlives(channel, n) + Packets(channel, KEEPALIVE, [UP_NEEDED]) == KeepAlives(channel, n + 1)
  {
    var ps := Packets(channel, KEEPALIVE, [UP_NEEDED]);
    if n == 0 {
      assert [] + ps == ps + [];
    } else {
      KeepAlivesAppend(channel, n - 1);
      assert ps + KeepAlives(channel, n - 1) + ps == ps + (KeepAlives(channel, n - 1) + ps);
    }
  }

  lemma {:induction false} KeepAlivesRead(a: Option<Assembly>, channel: u32, n: nat)
    ensures var ps := KeepAlives(channel, n);
      && |ps| == n && After(a, ps) == a
      && forall i :: 0 <= i < n ==> Dispatches(a, ps)[i] == Some(Message(channel, KEEPALIVE, [UP_NEEDED]))
  {
    if n > 0 {
      var first := FirstPacket(channel, KEEPALIVE, [UP_NEEDED]);
      ReceiveFirstPacket(a, channel, KEEPALIVE, [UP_NEEDED]);
      assert KeepAlives(channel, n) == [first] + KeepAlives(channel, n - 1);
      KeepAlivesRead(a, channel, n - 1);
    }
  }

  /** However long the phone takes, the host reads keep-alives and then exactly the reply. */
  lemma ReplyAfterKeepAlives(a: Option<Assembly>, n: nat, m: Message)
    requires m.command < 0x80 && |m.payload| <= MAX_MESSAGE
    ensures var ps := KeepAlives(m.channel, n) + Packets(m.channel, m.command, m.payload);
      forall i :: 0 <= i < |ps| ==>
        Dispatches(a, ps)[i] == if i < n then Some(Message(m.channel, KEEPALIVE, [UP_NEEDED]))
                                else if i == |ps| - 1 then Some(m) else None
  {
    KeepAlivesRead(a, m.channel, n);
    FrameRoundTrip(a, m);
    DispatchesAppend(a, KeepAlives(m.channel, n), Packets(m.channel, m.command, m.payload));
  }

  // ---- What a host hears -------------------------------------------------------------------

  /** The messages that a host puts together out of packets, in order. */
  function Hears(host: Option<Assembly>, ps: seq<seq<byte>>): seq<Message>
    decreases |ps|
  {
    if ps == [] then []
    else
      (match Dispatched(host, ps[0]) case Some(m) => [m] case None => []) + Hears(Next(host, ps[0]), ps[1..])
  }

  lemma {:induction false} HearsAppend(host: Option<Assembly>, ps: seq<seq<byte>>, qs: seq<seq<byte>>)
    ensures Hears(host, ps + qs) == Hears(host, ps) + Hears(After(host, ps), qs)
    decreases |ps|
  {
    if ps == [] {
      assert ps + qs == qs;
    } else {
      assert (ps + qs)[1..] == ps[1..] + qs;
      HearsAppend(Next(host, ps[0]), ps[1..], qs);
    }
  }

  lemma {:induction false} HearsOnlyLast(host: Option<Assembly>, ps: seq<seq<byte>>, m: Message)
    requires ps != []
    requires forall i :: 0 <= i < |ps| ==> Dispatches(host, ps)[i] == if i == |ps| - 1 then Some(m) else None
    ensures Hears(host, ps) == [m]
    decreases |ps|
  {
    var later := Dispatches(Next(host, ps[0]), ps[1..]);
    assert forall i :: 0 <= i < |later| ==> later[i] == Dispatches(host, ps)[i + 1];
    if |ps| == 1 {
      assert ps[1..] == [];
      assert Dispatched(host, ps[0]) == Dispatches(host, ps)[0];
    } else {
      assert Dispatched(host, ps[0]) == Dispatches(host, ps)[0];
      HearsOnlyLast(Next(host, ps[0]), ps[1..], m);
    }
  }

  /** A reply of at most 7609 bytes is heard, whole and once, by any host. */
  lemma ReplyHeard(host: Option<Assembly>, m: Message)
    requires m.command < 0x80 && |m.payload| <= MAX_MESSAGE
    ensures Hears(host, Packets(m.channel, m.command, m.payload)) == [m]
  {
    FrameRoundTrip(host, m);
    HearsOnlyLast(host, Packets(m.channel, m.command, m.payload), m);
  }

  // ---- Every run -------------------------------------------------------------------------

  predicate AssemblyOk(a: Option<Assembly>) {
    a.Some? ==> FIRST_DATA <= |a.value.payload| < a.value.expected < 0x1_0000
  }

  function Remaining(a: Option<Assembly>): nat
    requires AssemblyOk(a)
  {
    if a.None? then 0 else a.value.expected - |a.value.payload|
  }

  /** Whatever arrives, a stored assembly is unfinished and well sized, a continuation of its
      channel brings it closer to the end, and a finished message has a framable length. */
  lemma ReportKeepsAssembly(a: Option<Assembly>, r: seq<byte>)
    requires AssemblyOk(a)
    ensures AssemblyOk(Next(a, r))
    ensures Dispatched(a, r).Some? ==> |Dispatched(a, r).value.payload| < 0x1_0000
    ensures a.Some? && |r| == REPORT_SIZE && r[4] < 0x80 && FromBe32(r[..4]) == a.value.channel ==>
      Remaining(Next(a, r)) < Remaining(a) && (Dispatched(a, r).Some? <==> Next(a, r) == None)
  {
  }

  /** What one report does to a well-formed assembly. */
  predicate Progresses(a: Option<Assembly>, r: seq<byte>) {
    && AssemblyOk(a) && AssemblyOk(Next(a, r))
    && (Dispatched(a, r).Some? ==> |Dispatched(a, r).value.payload| < 0x1_0000)
    && (a.Some? && |r| == REPORT_SIZE && r[4] < 0x80 && FromBe32(r[..4]) == a.value.channel ==>
          Remaining(Next(a, r)) < Remaining(a) && (Dispatched(a, r).Some? <==> Next(a, r) == None))
  }

  lemma AfterFirst(a: Option<Assembly>, rs: seq<seq<byte>>, i: nat)
    requires 0 < i <= |rs|
    ensures After(a, rs[..i]) == After(Next(a, rs[0]), rs[1..][..i - 1])
  {
    assert rs[..i][1..] == rs[1..][..i - 1];
  }

  /** The same at every report of any run, whose dispatches are those of the states it goes through. */
  lemma {:induction false} RunKeepsAssembly(a: Option<Assembly>, rs: seq<seq<byte>>)
    requires AssemblyOk(a)
    ensures forall i :: 0 <= i < |rs| ==>
      Progresses(After(a, rs[..i]), rs[i]) && Dispatches(a, rs)[i] == Dispatched(After(a, rs[..i]), rs[i])
    ensures AssemblyOk(After(a, rs))
    decreases |rs|
  {
    if rs != [] {
      ReportKeepsAssembly(a, rs[0]);
      RunKeepsAssembly(Next(a, rs[0]), rs[1..]);
      forall i | 0 <= i < |rs|
        ensures Progresses(After(a, rs[..i]), rs[i]) && Dispatches(a, rs)[i] == Dispatched(After(a, rs[..i]), rs[i])
      {
        if i > 0 {
          AfterFirst(a, rs, i);
          assert rs[1..][i - 1] == rs[i];
        }
      }
    }
  }

  // ---- How long a message can be -----------------------------------------------------------

  function Size(a: Option<Assembly>): nat {
    match a case None => 0 case Some(b) => |b.payload|
  }

  /** A report adds at most 59 bytes to what is assembled, and a first packet starts with at most 57. */
  lemma ReportGrows(a: Option<Assembly>, r: seq<byte>)
    ensures Size(Next(a, r)) <= Size(a) + NEXT_DATA
    ensures Dispatched(a, r).Some? ==> |Dispatched(a, r).value.payload| <= Size(a) + NEXT_DATA
    ensures |r| == REPORT_SIZE && r[4] >= 0x80 ==>
      if Dispatched(a, r).Some? then |Dispatched(a, r).value.payload| <= FIRST_DATA else Size(Next(a, r)) <= FIRST_DATA
  {
  }

  lemma AfterOne(a: Option<Assembly>, rs: seq<seq<byte>>, i: nat)
    requires i < |rs|
    ensures After(a, rs[..i + 1]) == Next(After(a, rs[..i]), rs[i])
    decreases i
  {
    if i == 0 {
      assert rs[..1] == [rs[0]] && rs[..0] == [];
      assert After(a, [rs[0]]) == After(Next(a, rs[0]), [rs[0]][1..]);
    } else {
      AfterFirst(a, rs, i + 1);
      AfterFirst(a, rs, i);
      AfterOne(Next(a, rs[0]), rs[1..], i - 1);
    }
  }

  lemma {:induction false} RunGrows(a: Option<Assembly>, rs: seq<seq<byte>>, k: nat, i: nat)
    requires k <= i <= |rs|
    ensures Size(After(a, rs[..i])) <= Size(After(a, rs[..k])) + NEXT_DATA * (i - k)
    decreases i
  {
    if k < i {
      RunGrows(a, rs, k, i - 1);
      AfterOne(a, rs, i - 1);
      ReportGrows(After(a, rs[..i - 1]), rs[i - 1]);
    }
  }

  /** The packets of a message, fed from some state, dispatch it on the last of them and nothing else. */
  predicate Survives(before: Option<Assembly>, m: Message)
    requires |m.payload| < 0x1_0000
  {
    var ms := Dispatches(before, Packets(m.channel, m.command, m.payload));
    forall i :: 0 <= i < |ms| ==> ms[i] == if i == |ms| - 1 then Some(m) else None
  }

  /** The packet whose marker reads as a first packet's. */
  const OVERFLOW := 129

  lemma OverflowPacket(m: Message)
    requires MAX_MESSAGE < |m.payload| < 0x1_0000
    ensures var ps := Packets(m.channel, m.command, m.payload);
      && OVERFLOW < |ps| && ps[OVERFLOW][4] == 0x80 && |m.payload| > FIRST_DATA + NEXT_DATA * (|ps| - 2)
  {
    FrameMarkers(m.channel, m.command, m.payload);
  }

  /** What is dispatched from the overflowing packet on is shorter than the message. */
  lemma OverflowShortens(before: Option<Assembly>, ps: seq<seq<byte>>, i: nat)
    requires AssemblyOk(before) && OVERFLOW <= i < |ps| && |ps[OVERFLOW]| == REPORT_SIZE && ps[OVERFLOW][4] >= 0x80
    requires i == OVERFLOW || Dispatches(before, ps)[OVERFLOW] == None
    ensures var d := Dispatches(before, ps)[i];
      d.Some? ==> |d.value.payload| <= FIRST_DATA + NEXT_DATA * (i - OVERFLOW)
  {
    RunKeepsAssembly(before, ps);
    var a := After(before, ps[..OVERFLOW]);
    ReportGrows(a, ps[OVERFLOW]);
    if i > OVERFLOW {
      AfterOne(before, ps, OVERFLOW);
      RunGrows(before, ps, OVERFLOW + 1, i);
      ReportGrows(After(before, ps[..i]), ps[i]);
    }
  }

  /** A message survives framing if and only if it has at most 7609 bytes. */
  lemma SurvivesExactly(before: Option<Assembly>, m: Message)
    requires AssemblyOk(before) && m.command < 0x80 && |m.payload| < 0x1_0000
    ensures Survives(before, m) <==> |m.payload| <= MAX_MESSAGE
  {
    var ps := Packets(m.channel, m.command, m.payload);
    var ms := Dispatches(before, ps);
    if |m.payload| <= MAX_MESSAGE {
      FrameRoundTrip(before, m);
      assert Survives(before, m);
    } else {
      OverflowPacket(m);
      if ms[OVERFLOW] == None || |ps| - 1 == OVERFLOW {
        OverflowShortens(before, ps, |ps| - 1);
        assert ms[|ms| - 1] != Some(m);
      } else {
        assert OVERFLOW < |ms| - 1 && ms[OVERFLOW] != None;
      }
      assert !Survives(before, m);
    }
  }

  /** At 7610 zero bytes, the last packet is read as an empty message of command 0. */
  lemma TooLongFails(before: Option<Assembly>, m: Message)
    requires AssemblyOk(before) && m.command < 0x80 && m.payload == Zeros(MAX_MESSAGE + 1)
    ensures var ms := Dispatches(before, Packets(m.channel, m.command, m.payload));
      |ms| == 130 && ms[129] == Some(Message(m.channel, 0, []))
  {
    var ps := Packets(m.channel, m.command, m.payload);
    FrameMarkers(m.channel, m.command, m.payload);
    RunKeepsAssembly(before, ps);
    LastOfZeros(m);
  }

  lemma {:induction false} ContinuationOfZeros(channel: u32, sequence: byte, n: nat, i: nat)
    requires i < |Continuations(channel, sequence, Zeros(n))|
    ensures Continuations(channel, sequence, Zeros(n))[i] == Be32(channel) + [(sequence + i) % 0x100] + Zeros(NEXT_DATA)
    decreases i
  {
    var data := Zeros(n);
    var k := Min(n, NEXT_DATA);
    if i == 0 {
      assert data[..k] + Zeros(NEXT_DATA - k) == Zeros(NEXT_DATA);
      assert NextPacket(channel, sequence, data) == Be32(channel) + [sequence] + (data[..k] + Zeros(NEXT_DATA - k));
    } else {
      assert data[k..] == Zeros(n - k);
      ContinuationOfZeros(channel, (sequence + 1) % 0x100, n - k, i - 1);
      MarkerWraps(sequence, i);
    }
  }

  lemma LastOfZeros(m: Message)
    requires m.payload == Zeros(MAX_MESSAGE + 1)
    ensures var ps := Packets(m.channel, m.command, m.payload);
      |ps| == 130 && forall a :: Receive(a, ps[129]) == Complete(a, Message(m.channel, 0, []))
  {
    var later := m.payload[FIRST_DATA..];
    assert later == Zeros(MAX_MESSAGE + 1 - FIRST_DATA);
    FrameMarkers(m.channel, m.command, m.payload);
    ContinuationOfZeros(m.channel, 0, |later|, 128);
    var p := Packets(m.channel, m.command, m.payload)[129];
    assert p == Be32(m.channel) + [0x80] + Zeros(NEXT_DATA);
    assert p[..4] == Be32(m.channel) && p[4] == 0x80 && p[5..7] == [0, 0] && p[7..7] == [];
    Be32RoundTrip(m.channel);
  }
}

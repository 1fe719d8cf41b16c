/** What a whole run of the helper makes of a message whose packets arrive among others: the
    reassembly and the dispatch together, up to the error that ends the run. */
module HelperRun {
  import opened Wrappers
  import opened Bytes
  import opened CtapHid
  import opened Uhid

  // ---- Reactions and dispatches ------------------------------------------------------------

  /** A dispatch of this message succeeds. */
  predicate Dispatchable(m: Message) {
    m.command == INIT ==> |m.payload| >= 8
  }

  /** The outcome is what dispatch makes of the message, at some value of the channel counter. */
  ghost predicate OutcomeOf(o: Outcome, m: Message, info: seq<byte>)
    requires |m.payload| < 0x1_0000 && |info| < 0x1_0000
  {
    exists next: u32 :: Dispatch(next, m, info).1 == Some(o)
  }

  /** The reaction to a report that completes `m`, or to one that completes nothing. */
  ghost predicate Reacts(x: Reaction, m: Option<Message>, info: seq<byte>)
    requires |info| < 0x1_0000
  {
    match m
    case None => x == Nothing
    case Some(message) =>
      && |message.payload| < 0x1_0000
      && if Dispatchable(message) then x.Answered? && x.message == message && OutcomeOf(x.outcome, message, info)
         else x == Failed(message)
  }

  predicate AllWhole(rs: seq<seq<byte>>) {
    forall i :: 0 <= i < |rs| ==> |rs[i]| == REPORT_SIZE
  }

  lemma ReactsToDispatched(a: Option<Assembly>, next: u32, r: seq<byte>, info: seq<byte>)
    requires AssemblyOk(a) && |info| < 0x1_0000 && |r| == REPORT_SIZE
    ensures Reacts(React(a, next, r, info).1, Dispatched(a, r), info)
    ensures Stops(React(a, next, r, info).1) <==> Dispatched(a, r).Some? && !Dispatchable(Dispatched(a, r).value)
  {
    ReportKeepsAssembly(a, r);
    var x := React(a, next, r, info).1;
    if x.Answered? {
      assert Dispatch(next, x.message, info).1 == Some(x.outcome);
    }
  }

  predicate Fails(m: Option<Message>) {
    m.Some? && !Dispatchable(m.value)
  }

  /** The reactions are those to the messages completed, up to the first that cannot be dispatched. */
  ghost predicate Follows(xs: seq<Reaction>, ms: seq<Option<Message>>, info: seq<byte>)
    requires |info| < 0x1_0000
  {
    && |xs| <= |ms|
    && (forall i :: 0 <= i < |xs| ==> Reacts(xs[i], ms[i], info))
    && (forall i :: 0 <= i < |xs| - 1 ==> !Fails(ms[i]))
    && (|xs| < |ms| ==> xs != [] && Fails(ms[|xs| - 1]))
  }

  lemma FollowsCons(x: Reaction, xs: seq<Reaction>, m: Option<Message>, ms: seq<Option<Message>>, info: seq<byte>)
    requires |info| < 0x1_0000 && Reacts(x, m, info) && !Fails(m) && Follows(xs, ms, info)
    ensures Follows([x] + xs, [m] + ms, info)
  {
  }

  lemma {:induction false} ReactionsFollow(a: Option<Assembly>, next: u32, rs: seq<seq<byte>>, info: seq<byte>)
    requires AssemblyOk(a) && |info| < 0x1_0000 && AllWhole(rs)
    ensures Follows(Reactions(a, next, rs, info), Dispatches(a, rs), info)
    decreases |rs|
  {
    if rs != [] {
      var (after, x) := React(a, next, rs[0], info);
      ReactsToDispatched(a, next, rs[0], info);
      ReportKeepsAssembly(a, rs[0]);
      assert AllWhole(rs[1..]);
      ReactionsFollow(Next(a, rs[0]), after, rs[1..], info);
      if !Stops(x) {
        FollowsCons(x, Reactions(Next(a, rs[0]), after, rs[1..], info),
                    Dispatched(a, rs[0]), Dispatches(Next(a, rs[0]), rs[1..]), info);
      }
    }
  }

  // ---- A message among others --------------------------------------------------------------

  /** A one-packet INIT with a nonce of less than 8 bytes, as it stands on the wire. */
  predicate ShortInit(r: seq<byte>) {
    |r| == REPORT_SIZE && r[4] == 0x80 + INIT && FromBe16(r[5..7]) < 8
  }

  lemma ShortInitFails(channel: u32, r: seq<byte>)
    requires Foreign(channel, r)
    ensures Fails(Alone(r)) <==> ShortInit(r)
  {
  }

  lemma {:induction false} OwnAreSelected(rs: seq<seq<byte>>, own: seq<bool>, i: nat)
    requires |rs| == |own| && i < |rs| && own[i]
    ensures rs[i] in Select(rs, own)
  {
    if i > 0 {
      OwnAreSelected(rs[1..], own[1..], i - 1);
    }
  }

  lemma InterleavedWhole(channel: u32, rs: seq<seq<byte>>, own: seq<bool>, packets: seq<Packet>)
    requires Interleaved(channel, rs, own, packets)
    ensures AllWhole(rs)
  {
    forall i | 0 <= i < |rs| ensures |rs[i]| == REPORT_SIZE {
      if own[i] {
        OwnAreSelected(rs, own, i);
      }
    }
  }

  /** Every report gets its reaction: nothing for the message's own packets but the last, the
      message itself there, and each foreign report as if it came alone. */
  ghost predicate ReactsThroughout(xs: seq<Reaction>, rs: seq<seq<byte>>, own: seq<bool>, m: Message, info: seq<byte>)
    requires |info| < 0x1_0000
  {
    && |xs| == |rs| == |own|
    && forall i :: 0 <= i < |rs| ==>
         Reacts(xs[i], if !own[i] then Alone(rs[i]) else if i == |rs| - 1 then Some(m) else None, info)
  }

  predicate NoShortInit(rs: seq<seq<byte>>, own: seq<bool>)
    requires |rs| == |own|
  {
    forall i :: 0 <= i < |rs| && !own[i] ==> !ShortInit(rs[i])
  }

  lemma FollowsToTheEnd(xs: seq<Reaction>, ms: seq<Option<Message>>, info: seq<byte>)
    requires |info| < 0x1_0000 && ms != [] && Follows(xs, ms, info)
    ensures |xs| == |ms| <==> forall i :: 0 <= i < |ms| - 1 ==> !Fails(ms[i])
  {
  }

  /** A message of at most 7609 bytes, interleaved with continuations of other channels and complete
      one-packet messages, is handed to dispatch whole, once, on the last of its packets if and only
      if none of those messages is an INIT with a nonce of less than 8 bytes. */
  lemma DeliveredExactly(a: Option<Assembly>, next: u32, m: Message, rs: seq<seq<byte>>, own: seq<bool>,
      info: seq<byte>)
    requires AssemblyOk(a) && |info| < 0x1_0000 && m.command < 0x80 && |m.payload| <= MAX_MESSAGE
    requires Interleaved(m.channel, rs, own, Packets(m.channel, m.command, m.payload)) && own[0]
    ensures ReactsThroughout(Reactions(a, next, rs, info), rs, own, m, info) <==> NoShortInit(rs, own)
    ensures !NoShortInit(rs, own) ==> |Reactions(a, next, rs, info)| < |rs|
  {
    var xs := Reactions(a, next, rs, info);
    var ms := Dispatches(a, rs);
    InterleavedWhole(m.channel, rs, own, Packets(m.channel, m.command, m.payload));
    ReactionsFollow(a, next, rs, info);
    MessageDelivered(a, m, rs, own);
    FollowsToTheEnd(xs, ms, info);
    forall i | 0 <= i < |rs| - 1 ensures Fails(ms[i]) <==> !own[i] && ShortInit(rs[i]) {
      if !own[i] {
        ShortInitFails(m.channel, rs[i]);
      }
    }
  }

  /** The packet that does it: an INIT with an empty nonce, on any channel, between the first packet
      of a long message and the rest. The message is never dispatched. */
  lemma ShortInitEndsRun(a: Option<Assembly>, next: u32, m: Message, channel: u32, info: seq<byte>)
    requires AssemblyOk(a) && |info| < 0x1_0000 && m.command < 0x80 && FIRST_DATA < |m.payload| <= MAX_MESSAGE
    ensures var ps := Packets(m.channel, m.command, m.payload);
      Reactions(a, next, [ps[0]] + ([FirstPacket(channel, INIT, [])] + ps[1..]), info)
      == [Nothing, Failed(Message(channel, INIT, []))]
  {
    var ps := Packets(m.channel, m.command, m.payload);
    var killer := FirstPacket(channel, INIT, []);
    ReceiveFirstPacket(a, m.channel, m.command, m.payload);
    FirstReaction(a, next, ps[0], [killer] + ps[1..], info);
    ReceiveFirstPacket(Next(a, ps[0]), channel, INIT, []);
    FirstReaction(Next(a, ps[0]), next, killer, ps[1..], info);
  }

  /** So does a report of less than 5 bytes. */
  lemma ShortReportEndsRun(a: Option<Assembly>, next: u32, r: seq<byte>, later: seq<seq<byte>>, info: seq<byte>)
    requires AssemblyOk(a) && |info| < 0x1_0000 && |r| < 5
    ensures Reactions(a, next, [r] + later, info) == [TooShort]
  {
    FirstReaction(a, next, r, later, info);
  }

  // ---- From the events of the device -------------------------------------------------------

  /** An output event that brings this packet, with or without a report number in front. */
  predicate Brings(e: Event, p: seq<byte>) {
    && e.Output? && |e.data| == DATA_MAX && |p| == REPORT_SIZE
    && ((e.size == REPORT_SIZE && e.data[..REPORT_SIZE] == p)
        || (e.size == REPORT_SIZE + 1 && e.data[1..REPORT_SIZE + 1] == p))
  }

  lemma {:induction false} ReportsBrought(events: seq<Event>, rs: seq<seq<byte>>)
    requires |events| == |rs| && forall i :: 0 <= i < |rs| ==> Brings(events[i], rs[i])
    ensures Readable(events) && Reports(events) == rs
  {
    if rs != [] {
      ReportsBrought(events[1..], rs[1..]);
      assert rs == [rs[0]] + rs[1..];
    }
  }

  /** The whole run, from the events: whichever packets come with a report number. */
  lemma ServedExactly(
    a: Option<Assembly>, next: u32, m: Message, events: seq<Event>, rs: seq<seq<byte>>, own: seq<bool>, info: seq<byte>)
    requires AssemblyOk(a) && |info| < 0x1_0000 && m.command < 0x80 && |m.payload| <= MAX_MESSAGE
    requires Interleaved(m.channel, rs, own, Packets(m.channel, m.command, m.payload)) && own[0]
    requires |events| == |rs| && forall i :: 0 <= i < |rs| ==> Brings(events[i], rs[i])
    ensures Readable(events)
    ensures ReactsThroughout(Reactions(a, next, Reports(events), info), rs, own, m, info) <==> NoShortInit(rs, own)
  {
    ReportsBrought(events, rs);
    DeliveredExactly(a, next, m, rs, own, info);
  }

  /** A message alone on the wire is always dispatched, once and whole. */
  lemma ServedAlone(a: Option<Assembly>, next: u32, m: Message, events: seq<Event>, info: seq<byte>)
    requires AssemblyOk(a) && |info| < 0x1_0000 && m.command < 0x80 && |m.payload| <= MAX_MESSAGE
    requires var ps := Packets(m.channel, m.command, m.payload);
      |events| == |ps| && forall i :: 0 <= i < |ps| ==> Brings(events[i], ps[i])
    ensures Readable(events)
    ensures var xs := Reactions(a, next, Reports(events), info);
      && |xs| == |events|
      && forall i :: 0 <= i < |xs| ==> Reacts(xs[i], if i == |xs| - 1 then Some(m) else None, info)
  {
    var ps := Packets(m.channel, m.command, m.payload);
    var own := seq(|ps|, i => true);
    SelectAll(ps, own);
    ServedExactly(a, next, m, events, ps, own, info);
  }

  // ---- What the host hears of it -----------------------------------------------------------

  lemma {:induction false} QuietThenLast(a: Option<Assembly>, next: u32, rs: seq<seq<byte>>,
                                         phones: seq<seq<PhoneEvent>>, info: seq<byte>, m: Message)
    requires rs != [] && |rs| == |phones| && AllWhole(rs)
    requires forall i :: 0 <= i < |rs| ==> Dispatches(a, rs)[i] == if i == |rs| - 1 then Some(m) else None
    ensures AllDue(a, next, rs, phones, info) == Due(next, m, phones[|rs| - 1], info)
    decreases |rs|
  {
    var later := Dispatches(Next(a, rs[0]), rs[1..]);
    assert Dispatches(a, rs)[0] == Dispatched(a, rs[0]);
    assert forall i :: 0 <= i < |later| ==> later[i] == Dispatches(a, rs)[i + 1];
    assert !Receive(a, rs[0]).Short?;
    if |rs| > 1 {
      assert AllWhole(rs[1..]);
      QuietThenLast(Next(a, rs[0]), next, rs[1..], phones[1..], info, m);
    } else {
      assert Due(next, m, phones[0], info) + [] == Due(next, m, phones[0], info);
      assert rs[1..] == [];
    }
  }

  lemma {:induction false} PhonesBrought(events: seq<Event>)
    requires forall i :: 0 <= i < |events| ==> events[i].Output?
    ensures |Phones(events)| == |events| && forall i :: 0 <= i < |events| ==> Phones(events)[i] == events[i].phone
  {
    if events != [] {
      PhonesBrought(events[1..]);
    }
  }

  /** From the wire back to the wire: for a message alone a host hears, of all the helper sends it,
      exactly the one reply that is due, or keep-alives and the phone's answer. */
  lemma AnsweredAlone(a: Option<Assembly>, next: u32, m: Message, events: seq<Event>, info: seq<byte>, room: nat,
                      r: Result<(), Failure>, written: seq<Packet>)
    requires AssemblyOk(a) && |info| <= MAX_MESSAGE && m.command < 0x80 && |m.payload| <= MAX_MESSAGE
    requires var ps := Packets(m.channel, m.command, m.payload);
      |events| == |ps| && forall i :: 0 <= i < |ps| ==> Brings(events[i], ps[i]) && PhoneFits(events[i].phone)
    ensures Readable(events)
    ensures GetsOut(Conversation(a, next, events, info), room, r, written) ==>
      HostHears(Due(next, m, events[|events| - 1].phone, info), room, r, written)
  {
    var ps := Packets(m.channel, m.command, m.payload);
    ReportsBrought(events, ps);
    PhonesBrought(events);
    FrameRoundTrip(a, m);
    assert AllWhole(ps);
    QuietThenLast(a, next, ps, Phones(events), info, m);
    assert EventsFit(a, events);
    if GetsOut(Conversation(a, next, events, info), room, r, written) {
      ServedHeard(a, next, events, info, room, r, written);
    }
  }

  // ---- How a run ends ----------------------------------------------------------------------

  /** The run goes on after this report: no error, and an answer if the phone is asked. */
  predicate GoesOn(x: Reaction, phone: seq<PhoneEvent>) {
    !Stops(x) && (x.Answered? && x.outcome.Waiting? ==> PhoneFailure(phone) == None)
  }

  /** A run ends without an error if and only if no report is too short, every message completed can
      be dispatched, and the phone answers every request it is asked, at a length that fits. */
  lemma {:induction false} EndsWellExactly(xs: seq<Reaction>, phones: seq<seq<PhoneEvent>>)
    requires |xs| <= |phones|
    ensures Replies(xs, phones).1 == None <==> forall i :: 0 <= i < |xs| ==> GoesOn(xs[i], phones[i])
    decreases |xs|
  {
    if xs != [] {
      EndsWellExactly(xs[1..], phones[1..]);
      assert forall i :: 0 < i < |xs| ==> xs[i] == xs[1..][i - 1] && phones[i] == phones[1..][i - 1];
      assert Turn(xs[0], phones[0]).1 == None <==> GoesOn(xs[0], phones[0]);
    }
  }

  // ---- The channels in the replies ---------------------------------------------------------

  /** The channel that a reply to an INIT gives. */
  function ChannelIn(packets: seq<Packet>): u32
    requires packets != []
  {
    FromBe32(packets[0][15..19])
  }

  /** The channels that the replies of a run give out on the broadcast channel. */
  function ReplyChannels(xs: seq<Reaction>): seq<u32> {
    if xs == [] then []
    else
      (match xs[0]
       case Answered(m, Ready(packets)) => if Grants(m) && packets != [] then [ChannelIn(packets)] else []
       case _ => [])
      + ReplyChannels(xs[1..])
  }

  lemma InitReply(next: u32, m: Message, info: seq<byte>)
    requires Grants(m) && |m.payload| < 0x1_0000 && |info| < 0x1_0000
    ensures var (after, o) := Dispatch(next, m, info);
      && after == (next + 1) % 0x1_0000_0000
      && o.Some? && o.value.Ready? && o.value.packets != [] && ChannelIn(o.value.packets) == after
  {
    var after := (next + 1) % 0x1_0000_0000;
    var body := InitBody(m.payload[..8], after);
    var p := FirstPacket(BROADCAST, INIT, body);
    FirstPacketFields(BROADCAST, INIT, body);
    assert p[7..7 + 17] == body[..17] == body && body[8..12] == Be32(after);
    assert p[15..19] == p[7..7 + 17][8..12];
    Be32RoundTrip(after);
    assert Packets(BROADCAST, INIT, body)[0] == p;
  }

  lemma ReactionCounts(a: Option<Assembly>, next: u32, r: seq<byte>, info: seq<byte>)
    requires AssemblyOk(a) && |info| < 0x1_0000
    ensures var (after, x) := React(a, next, r, info);
      if ReplyChannels([x]) != [] then after == (next + 1) % 0x1_0000_0000 && ReplyChannels([x]) == [after]
      else after == next
  {
    ReportKeepsAssembly(a, r);
    var (after, x) := React(a, next, r, info);
    assert [x][1..] == [];
    if x.Answered? {
      CounterStep(next, x.message, info);
      if Grants(x.message) {
        InitReply(next, x.message, info);
        assert x.outcome.Ready? && ReplyChannels([x]) == [ChannelIn(x.outcome.packets)] + ReplyChannels([x][1..]);
      } else {
        assert ReplyChannels([x]) == [] + ReplyChannels([x][1..]);
      }
    } else {
      assert ReplyChannels([x]) == [] + ReplyChannels([x][1..]);
    }
  }

  lemma ReplyChannelsCons(x: Reaction, xs: seq<Reaction>)
    ensures ReplyChannels([x] + xs) == ReplyChannels([x]) + ReplyChannels(xs)
  {
    assert ([x] + xs)[1..] == xs && [x][1..] == [];
  }

  /** The channels count up from the counter. */
  predicate Counted(channels: seq<u32>, next: u32) {
    forall i :: 0 <= i < |channels| ==> channels[i] == (next + 1 + i) % 0x1_0000_0000
  }

  lemma CountedCons(channels: seq<u32>, next: u32)
    requires Counted(channels, (next + 1) % 0x1_0000_0000)
    ensures Counted([(next + 1) % 0x1_0000_0000] + channels, next)
  {
    var all := [(next + 1) % 0x1_0000_0000] + channels;
    forall i | 0 <= i < |all| ensures all[i] == (next + 1 + i) % 0x1_0000_0000 {
      if i > 0 {
        assert all[i] == channels[i - 1];
        CounterWraps(next, i);
      }
    }
  }

  lemma {:induction false} ReplyChannelsInOrder(a: Option<Assembly>, next: u32, rs: seq<seq<byte>>, info: seq<byte>)
    requires AssemblyOk(a) && |info| < 0x1_0000
    ensures Counted(ReplyChannels(Reactions(a, next, rs, info)), next)
    decreases |rs|
  {
    if rs != [] {
      var (after, x) := React(a, next, rs[0], info);
      ReactionCounts(a, next, rs[0], info);
      FirstReaction(a, next, rs[0], rs[1..], info);
      assert rs == [rs[0]] + rs[1..];
      var later := if Stops(x) then [] else Reactions(Next(a, rs[0]), after, rs[1..], info);
      ReplyChannelsCons(x, later);
      if !Stops(x) {
        ReplyChannelsInOrder(Next(a, rs[0]), after, rs[1..], info);
      }
      if ReplyChannels([x]) == [] {
        assert [] + ReplyChannels(later) == ReplyChannels(later);
      } else {
        CountedCons(ReplyChannels(later), next);
      }
    }
  }

  /** Over any run of reports from the start, the channels in the replies to INITs on the broadcast
      channel are pairwise distinct and never reserved if and only if fewer than 2^32 - 2 have been
      given. */
  lemma ReplyChannelsUsable(rs: seq<seq<byte>>, info: seq<byte>)
    requires |info| < 0x1_0000
    ensures var channels := ReplyChannels(Reactions(None, 1, rs, info));
      Usable(channels) <==> |channels| < 0xffff_fffe
  {
    var channels := ReplyChannels(Reactions(None, 1, rs, info));
    ReplyChannelsInOrder(None, 1, rs, info);
    CountedUsable(channels);
  }
}

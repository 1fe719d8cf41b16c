/** What one delivery does, from the first look-up to the last, with any steps of other tasks and
    readers in between; and the runs in which an answer does arrive. */
module Deliveries {
  import opened Wrappers
  import opened Numbers
  import opened Bytes
  import opened Json
  import opened Protocol
  import opened Routing
  import Base64

  /** The task listens, or has not yet removed its waiter, and no answer is on its way to it. */
  predicate Awaits(s: State, t: Ticket)
    requires t < |s.tasks|
  {
    && (Listening(s.tasks[t].phase) || s.tasks[t].phase.Leaving?)
    && s.tasks[t].slot.None? && NotHeld(s, t)
  }

  // ---- Steps of others ---------------------------------------------------------------------

  predicate IsStepOf(step: Step, r: Connection) {
    (step.LookUpJson? || step.LookUp? || step.HandOver?) && step.r == r
  }

  /** Any steps but those of one reader: what may happen between its two look-ups. */
  predicate Elsewhere(steps: seq<Step>, r: Connection) {
    forall i :: 0 <= i < |steps| ==> !IsStepOf(steps[i], r)
  }

  lemma StepKeepsReader(s: State, step: Step, r: Connection)
    requires Enabled(s, step) && !IsStepOf(step, r)
    ensures r in Apply(s, step).readers <==> r in s.readers
    ensures r in s.readers ==> Apply(s, step).readers[r] == s.readers[r]
  {
    if !step.LookUpJson? && !step.LookUp? && !step.HandOver? {
      OthersKeepReaders(s, step);
    }
  }

  lemma OthersKeepReaders(s: State, step: Step)
    requires Enabled(s, step) && !step.LookUpJson? && !step.LookUp? && !step.HandOver?
    ensures Apply(s, step).readers == s.readers
  {
  }

  lemma {:induction false} RunKeepsReader(s: State, steps: seq<Step>, r: Connection)
    requires Exec(s, steps).Some? && Elsewhere(steps, r)
    ensures r in Exec(s, steps).value.readers <==> r in s.readers
    ensures r in s.readers ==> Exec(s, steps).value.readers[r] == s.readers[r]
    decreases |steps|
  {
    if steps != [] {
      StepKeepsReader(s, steps[0], r);
      RunKeepsReader(Apply(s, steps[0]), steps[1..], r);
    }
  }

  /** What a delivery has come to when its second look-up is due: the first look-up is made in `s`,
      and then come steps of others. */
  predicate Pauses(s: State, r: Connection, reading: Reading, steps: seq<Step>) {
    && r !in s.readers && Elsewhere(steps, r)
    && Exec(Apply(s, LookUpJson(r, reading)), steps).Some?
  }

  function Paused(s: State, r: Connection, reading: Reading, steps: seq<Step>): State
    requires Pauses(s, r, reading, steps)
  {
    Exec(Apply(s, LookUpJson(r, reading)), steps).value
  }

  lemma PausedReader(s: State, r: Connection, reading: Reading, steps: seq<Step>)
    requires Pauses(s, r, reading, steps)
    ensures var v := Paused(s, r, reading, steps);
      r in v.readers && v.readers[r] == Apply(s, LookUpJson(r, reading)).readers[r]
  {
    RunKeepsReader(Apply(s, LookUpJson(r, reading)), steps, r);
  }

  lemma PausedNormal(s: State, r: Connection, reading: Reading, steps: seq<Step>)
    requires Normal(s) && Pauses(s, r, reading, steps) && |Paused(s, r, reading, steps).tasks| <= U64_LIMIT
    ensures Normal(Apply(s, LookUpJson(r, reading))) && Normal(Paused(s, r, reading, steps))
    ensures |s.tasks| <= |Paused(s, r, reading, steps).tasks|
  {
    ReachableStep(s, LookUpJson(r, reading));
    ReachableSteps(Apply(s, LookUpJson(r, reading)), steps);
    RunGrows(Apply(s, LookUpJson(r, reading)), steps);
  }

  /** A look-up has taken nobody's waiter, and only its reader has moved on. */
  predicate TakesNothing(v: State, r: Connection)
    requires Enabled(v, LookUp(r))
  {
    Apply(v, LookUp(r)) == v.(readers := v.readers - {r})
  }

  // ---- When a delivery takes a verification's waiter -----------------------------------------

  /** The object carries an answer to a verification: a denial, or a signature that decodes. */
  predicate Answers(o: Object) {
    || AsText(o, "denied").Some?
    || (AsText(o, "sig").Some? && Base64.Decode(Base64.Standard, Base64.Rust, AsText(o, "sig").value).Some?)
  }

  lemma ResponseOf(line: string)
    ensures ReadReply(line).response.Some? <==>
      ParseObject(line).Some? && Answers(ParseObject(line).value) && AsU64(ParseObject(line).value, "id").Some?
    ensures ReadReply(line).response.Some? ==>
      AsU64(ParseObject(line).value, "id") == Some(ReadReply(line).response.value.id)
  {
  }

  /** The line answers a verification whose waiter is still there at the second look-up, and was no
      credential request's at the first. */
  predicate Hits(s: State, v: State, line: string) {
    match ParseObject(line)
    case None => false
    case Some(o) =>
      && Answers(o)
      && match AsU64(o, "id") case None => false case Some(id) => id !in s.pendingJson && id in v.pending
  }

  /** One second look-up: it takes nothing exactly when its reply answers nobody's waiter. */
  lemma LookUpTakes(v: State, r: Connection)
    requires r in v.readers && v.readers[r].Missed?
    ensures var response := v.readers[r].reading.response;
      TakesNothing(v, r) <==> !(response.Some? && response.value.id in v.pending)
    ensures TakesNothing(v, r) <==> Apply(v, LookUp(r)).pending == v.pending
  {
  }

  lemma FirstLookUp(s: State, r: Connection, reading: Reading)
    requires r !in s.readers
    ensures var u := Apply(s, LookUpJson(r, reading));
      if reading.id.Some? && reading.id.value in s.pendingJson then u.readers[r].Carrying?
      else u.readers[r] == Missed(reading)
  {
  }

  /** The same, of the reading. */
  predicate ReadingHits(s: State, v: State, reading: Reading) {
    reading.response.Some? && reading.response.value.id !in s.pendingJson && reading.response.value.id in v.pending
  }

  lemma HitsRead(s: State, v: State, line: string)
    ensures Hits(s, v, line) <==> ReadingHits(s, v, ReadReply(line))
  {
    ResponseOf(line);
  }

  /** The reader has this reading in hand for its second look-up. */
  predicate Carries(v: State, r: Connection, reading: Reading) {
    r in v.readers && v.readers[r] == Missed(reading)
  }

  lemma SecondLookUp(s: State, r: Connection, reading: Reading, steps: seq<Step>)
    requires Pauses(s, r, reading, steps)
    ensures var v := Paused(s, r, reading, steps);
      && (Enabled(v, LookUp(r)) <==> !(reading.id.Some? && reading.id.value in s.pendingJson))
      && (Enabled(v, LookUp(r)) ==> Carries(v, r, reading))
  {
    PausedReader(s, r, reading, steps);
    FirstLookUp(s, r, reading);
  }

  lemma ReadingTakesExactly(s: State, v: State, r: Connection, reading: Reading)
    requires Enabled(v, LookUp(r)) ==> Carries(v, r, reading)
    requires Enabled(v, LookUp(r)) <==> !(reading.id.Some? && reading.id.value in s.pendingJson)
    requires Coherent(reading)
    ensures Enabled(v, LookUp(r)) && Apply(v, LookUp(r)).pending != v.pending <==> ReadingHits(s, v, reading)
    ensures Enabled(v, LookUp(r)) && !ReadingHits(s, v, reading) ==> TakesNothing(v, r)
  {
    if Enabled(v, LookUp(r)) {
      LookUpTakes(v, r);
    }
  }

  /** Whatever others do between its two look-ups, a delivery takes a verification's waiter if and
      only if its line hits one; otherwise it changes nothing but its own reader. */
  lemma DeliveryTakesExactly(s: State, r: Connection, line: string, steps: seq<Step>)
    requires Pauses(s, r, ReadReply(line), steps)
    ensures var v := Paused(s, r, ReadReply(line), steps);
      && (Enabled(v, LookUp(r)) && Apply(v, LookUp(r)).pending != v.pending <==> Hits(s, v, line))
      && (Enabled(v, LookUp(r)) && !Hits(s, v, line) ==> TakesNothing(v, r))
  {
    var v := Paused(s, r, ReadReply(line), steps);
    SecondLookUp(s, r, ReadReply(line), steps);
    ReadingTakesExactly(s, v, r, ReadReply(line));
    HitsRead(s, v, line);
  }

  /** And then the waiter taken is the one of the line's own id, to which the line's answer goes. */
  lemma DeliveryTakesOwner(s: State, r: Connection, line: string, steps: seq<Step>)
    requires Normal(s) && Pauses(s, r, ReadReply(line), steps)
    requires |Paused(s, r, ReadReply(line), steps).tasks| <= U64_LIMIT
    requires Hits(s, Paused(s, r, ReadReply(line), steps), line)
    ensures ParseResponse(line).Some?
    ensures var v := Paused(s, r, ReadReply(line), steps); var response := ParseResponse(line).value;
      && response.id in v.pending
      && var t := v.pending[response.id];
         && t < |v.tasks| && v.tasks[t].id == response.id && v.tasks[t].purpose.Check?
         && Enabled(v, LookUp(r))
         && Apply(v, LookUp(r)) == v.(pending := v.pending - {response.id},
                                      readers := v.readers[r := Carrying(t, Answered(response.answer))])
  {
    var v := Paused(s, r, ReadReply(line), steps);
    HitsRead(s, v, line);
    SecondLookUp(s, r, ReadReply(line), steps);
    PausedNormal(s, r, ReadReply(line), steps);
    MapsBelongToTasks(v);
    var response := ParseResponse(line).value;
    assert BelongsTo(v, response.id, v.pending[response.id], true);
    FindsVerification(v, r, ReadReply(line), response);
  }

  /** So a reply with neither a denial nor a signature that decodes never takes a verification's
      waiter, and neither does a line that is no object or has no id of 64 bits. */
  lemma GarbledReplyTakesNothing(s: State, r: Connection, line: string, steps: seq<Step>)
    requires Pauses(s, r, ReadReply(line), steps)
    requires ParseObject(line).Some? ==>
      !Answers(ParseObject(line).value) || AsU64(ParseObject(line).value, "id").None?
    ensures var v := Paused(s, r, ReadReply(line), steps); Enabled(v, LookUp(r)) ==> TakesNothing(v, r)
  {
    DeliveryTakesExactly(s, r, line, steps);
  }

  // ---- Late and early replies ----------------------------------------------------------------

  /** The id has been waited for, and its waiter is gone. */
  predicate Spent(s: State, t: Ticket) {
    t < |s.tasks| && s.tasks[t].phase != Drawn && !InMap(s, t)
  }

  /** A finished task is spent; a listening one is spent exactly when its answer has come or is on
      its way. One that is giving up is spent once its waiter has been removed or taken. */
  lemma SpentExactly(s: State, t: Ticket)
    requires Normal(s) && t < |s.tasks|
    ensures s.tasks[t].phase.Done? ==> Spent(s, t)
    ensures Listening(s.tasks[t].phase) ==> (Spent(s, t) <==> s.tasks[t].slot.Some? || !NotHeld(s, t))
  {
    NormalWaiters(s);
    assert WaiterOk(s, t);
  }

  /** Only an insertion adds to the maps. */
  lemma MapsShrink(s: State, step: Step)
    requires Enabled(s, step) && !step.Insert?
    ensures Apply(s, step).pending.Keys <= s.pending.Keys && Apply(s, step).pendingJson.Keys <= s.pendingJson.Keys
  {
  }

  lemma InsertKeepsSpent(s: State, v: Ticket, t: Ticket)
    requires Inv(s) && Has(s, v, Drawn) && |s.tasks| <= U64_LIMIT && Spent(s, t)
    ensures Spent(InsertWaiter(s, v), t)
  {
    AllIdsDistinct(s);
  }

  lemma StepKeepsPhase(s: State, step: Step, t: Ticket)
    requires Inv(s) && Enabled(s, step) && t < |s.tasks| && s.tasks[t].phase != Drawn
    ensures t < |Apply(s, step).tasks| && Apply(s, step).tasks[t].phase != Drawn
  {
    StepKeepsTask(s, step, t);
  }

  lemma StepKeepsSpent(s: State, step: Step, t: Ticket)
    requires Inv(s) && Enabled(s, step) && |Apply(s, step).tasks| <= U64_LIMIT && Spent(s, t)
    ensures Spent(Apply(s, step), t)
  {
    StepGrows(s, step);
    StepKeepsTask(s, step, t);
    if step.Insert? {
      InsertKeepsSpent(s, step.t, t);
    } else {
      StepKeepsPhase(s, step, t);
      MapsShrink(s, step);
    }
  }

  lemma {:induction false} RunKeepsSpent(s: State, steps: seq<Step>, t: Ticket)
    requires Inv(s) && Exec(s, steps).Some? && |Exec(s, steps).value.tasks| <= U64_LIMIT && Spent(s, t)
    ensures Spent(Exec(s, steps).value, t)
    decreases |steps|
  {
    if steps != [] {
      StepKeepsInv(s, steps[0]);
      RunGrows(Apply(s, steps[0]), steps[1..]);
      StepKeepsSpent(s, steps[0], t);
      RunKeepsSpent(Apply(s, steps[0]), steps[1..], t);
    }
  }

  lemma SpentMapsNothing(s: State, t: Ticket)
    requires Normal(s) && Spent(s, t)
    ensures s.tasks[t].id !in s.pending && s.tasks[t].id !in s.pendingJson
  {
    MapsBelongToTasks(s);
    var id := s.tasks[t].id;
    assert id in s.pending ==> BelongsTo(s, id, s.pending[id], true);
    assert id in s.pendingJson ==> BelongsTo(s, id, s.pendingJson[id], false);
  }

  /** A reply to a request whose waiter is gone (answered, denied, timed out, never sent) changes
      nothing but its own reader, at either look-up and whatever others do in between. */
  lemma LateReplyIgnored(s: State, r: Connection, reading: Reading, steps: seq<Step>, t: Ticket)
    requires Normal(s) && Spent(s, t) && reading.id == Some(s.tasks[t].id) && Coherent(reading)
    requires Pauses(s, r, reading, steps) && |Paused(s, r, reading, steps).tasks| <= U64_LIMIT
    ensures Apply(s, LookUpJson(r, reading)) == s.(readers := s.readers[r := Missed(reading)])
    ensures var v := Paused(s, r, reading, steps); Enabled(v, LookUp(r)) && TakesNothing(v, r)
  {
    var u := Apply(s, LookUpJson(r, reading));
    var v := Paused(s, r, reading, steps);
    SpentMapsNothing(s, t);
    PausedReader(s, r, reading, steps);
    PausedNormal(s, r, reading, steps);
    ReachableInv(u);
    RunKeepsSpent(u, steps, t);
    RunKeepsTask(u, steps, t);
    SpentMapsNothing(v, t);
    LookUpTakes(v, r);
  }

  /** A request that has given up stays so: no reply becomes its answer any more. */
  predicate StaysGivenUp(before: Task, after: Task) {
    before.phase.Leaving? ==>
      after.slot == before.slot && (after.phase == before.phase || after.phase == Done(Failed(before.phase.failure)))
  }

  lemma StepKeepsGivenUp(s: State, step: Step, t: Ticket)
    requires Inv(s) && Enabled(s, step) && t < |s.tasks|
    ensures t < |Apply(s, step).tasks| && StaysGivenUp(s.tasks[t], Apply(s, step).tasks[t])
  {
    StepKeepsTask(s, step, t);
  }

  lemma {:induction false} RunKeepsGivenUp(s: State, steps: seq<Step>, t: Ticket)
    requires Inv(s) && Exec(s, steps).Some? && t < |s.tasks|
    ensures t < |Exec(s, steps).value.tasks| && StaysGivenUp(s.tasks[t], Exec(s, steps).value.tasks[t])
    decreases |steps|
  {
    if steps != [] {
      StepKeepsInv(s, steps[0]);
      StepKeepsGivenUp(s, steps[0], t);
      RunKeepsGivenUp(Apply(s, steps[0]), steps[1..], t);
      RunKeepsTask(Apply(s, steps[0]), steps[1..], t);
    }
  }

  /** No request waits for the id yet: it has not been drawn, or its waiter not been inserted. */
  predicate Unawaited(s: State, id: nat) {
    forall t :: 0 <= t < |s.tasks| && s.tasks[t].id == id ==> s.tasks[t].phase == Drawn
  }

  lemma FirstMisses(s: State, r: Connection, reading: Reading, id: nat)
    requires Normal(s) && Unawaited(s, id) && reading.id == Some(id) && Enabled(s, LookUpJson(r, reading))
    ensures Apply(s, LookUpJson(r, reading)) == s.(readers := s.readers[r := Missed(reading)])
  {
    MapsBelongToTasks(s);
    assert id in s.pendingJson ==> BelongsTo(s, id, s.pendingJson[id], false);
  }

  /** Who waits under an id that nobody waited for before has begun since. */
  lemma OwnerIsNew(s: State, u: State, steps: seq<Step>, v: State, id: nat)
    requires Inv(u) && u.tasks == s.tasks && Exec(u, steps) == Some(v) && Normal(v)
    requires Unawaited(s, id) && id in v.pending
    ensures v.pending[id] < |v.tasks| && v.tasks[v.pending[id]].id == id
    ensures v.pending[id] < |s.tasks| ==> s.tasks[v.pending[id]].phase == Drawn
  {
    MapsBelongToTasks(v);
    assert BelongsTo(v, id, v.pending[id], true);
    var t := v.pending[id];
    if t < |s.tasks| {
      RunKeepsTask(u, steps, t);
    }
  }

  /** A reply that comes before its request: nothing is taken at the first look-up, and at the
      second exactly if a request with that id has begun to wait in between, which can only be one
      that had not inserted its waiter when the reply came. */
  lemma EarlyReplyExactly(s: State, r: Connection, reading: Reading, steps: seq<Step>, id: nat)
    requires Normal(s) && Unawaited(s, id) && reading.id == Some(id)
    requires Coherent(reading)
    requires Pauses(s, r, reading, steps) && |Paused(s, r, reading, steps).tasks| <= U64_LIMIT
    ensures Apply(s, LookUpJson(r, reading)) == s.(readers := s.readers[r := Missed(reading)])
    ensures var v := Paused(s, r, reading, steps);
      && Enabled(v, LookUp(r))
      && (TakesNothing(v, r) <==> reading.response.None? || id !in v.pending)
      && (id in v.pending ==>
            && v.pending[id] < |v.tasks| && v.tasks[v.pending[id]].id == id
            && (v.pending[id] < |s.tasks| ==> s.tasks[v.pending[id]].phase == Drawn))
  {
    var v := Paused(s, r, reading, steps);
    FirstMisses(s, r, reading, id);
    PausedReader(s, r, reading, steps);
    PausedNormal(s, r, reading, steps);
    LookUpTakes(v, r);
    if id in v.pending {
      ReachableInv(Apply(s, LookUpJson(r, reading)));
      OwnerIsNew(s, Apply(s, LookUpJson(r, reading)), steps, v, id);
    }
  }

  lemma DenialIsHeld(r: Connection, reason: string)
    ensures var line := DenialLine(1, reason);
      !IsPairRequest(line) && ReadReply(line).id == Some(1)
        && ReadReply(line).response == Some(Response(1, Refused(reason)))
  {
    DaemonReadsDenial(1, reason);
    ResponseOf(DenialLine(1, reason));
  }

  lemma HeldReplyTakesWaiter(key: string, r: Request, reading: Reading, answer: Answer)
    requires r.id == 1 && reading.response == Some(Response(1, answer))
    ensures Exec(INITIAL.(readers := map[0 := Missed(reading)]),
                 [StartVerification(key, r.challenge, r.user, r.host, r.action, r.detail), Insert(0), LookUp(0)])
      == Some(INITIAL.(tasks := [Task(1, Check(key, r), Inserted, None)],
        readers := map[0 := Carrying(0, Answered(answer))]))
  {
    var start := StartVerification(key, r.challenge, r.user, r.host, r.action, r.detail);
    var check := Check(key, r);
    var s1 := INITIAL.(readers := map[0 := Missed(reading)]);
    var s2 := s1.(tasks := [Task(1, check, Drawn, None)]);
    var s3 := s1.(tasks := [Task(1, check, Inserted, None)], pending := map[1 := 0]);
    var s4 := s3.(pending := map[], readers := map[0 := Carrying(0, Answered(answer))]);
    assert Leads(s1, start, s2);
    assert Leads(s2, Insert(0), s3);
    FindsVerification(s3, 0, reading, Response(1, answer));
    assert map[1 := 0] - {1} == map[];
    assert Leads(s3, LookUp(0), s4);
    ExecThree(s1, start, s2, Insert(0), s3, LookUp(0), s4);
  }

  /** And it does happen: a denial of the first id, sent before any request was made, takes the
      waiter of the first verification and is carried to it. */
  lemma EarlyReplyTakesWaiter(key: string, r: Request, reason: string)
    requires r.id == 1
    ensures !IsPairRequest(DenialLine(1, reason))
    ensures Exec(INITIAL, [LookUpJson(0, ReadReply(DenialLine(1, reason)))]
                    + [StartVerification(key, r.challenge, r.user, r.host, r.action, r.detail), Insert(0), LookUp(0)])
      == Some(INITIAL.(tasks := [Task(1, Check(key, r), Inserted, None)],
                       readers := map[0 := Carrying(0, Answered(Refused(reason)))]))
  {
    var reading := ReadReply(DenialLine(1, reason));
    DenialIsHeld(0, reason);
    MissesJson(INITIAL, 0, reading);
    HeldReplyTakesWaiter(key, r, reading, Refused(reason));
    var steps := [StartVerification(key, r.challenge, r.user, r.host, r.action, r.detail), Insert(0), LookUp(0)];
    var held := INITIAL.(readers := map[0 := Missed(reading)]);
    assert Exec(held, steps).Some?;
    assert Apply(INITIAL, LookUpJson(0, reading)) == held;
    ExecCons(INITIAL, LookUpJson(0, reading), steps);
    assert Exec(INITIAL, [LookUpJson(0, reading)] + steps) == Exec(held, steps);
  }

  /** It is the answer although the request has not even been written yet. */
  lemma HeldReplyIsAnswer(c: Connection, key: string, r: Request, reason: string)
    ensures Exec(INITIAL.(tasks := [Task(1, Check(key, r), Inserted, None)],
                          readers := map[0 := Carrying(0, Answered(Refused(reason)))]),
                 [HandOver(0), Adopt(c), Send(0, true)] + [Conclude(0)])
      == Some(INITIAL.(tasks := [Task(1, Check(key, r), Done(Denied(reason)), Some(Answered(Refused(reason))))],
        outbound := Some(c)))
  {
    var content := Answered(Refused(reason));
    var k := Task(1, Check(key, r), Inserted, Some(content));
    var s1 := INITIAL.(tasks := [k.(slot := None)], readers := map[0 := Carrying(0, content)]);
    var s2 := INITIAL.(tasks := [k]);
    var s3 := s2.(outbound := Some(c));
    var s4 := s3.(tasks := [k.(phase := Waiting)]);
    var s5 := s3.(tasks := [k.(phase := Done(Denied(reason)))]);
    assert s1.readers - {0} == map[];
    assert Leads(s1, HandOver(0), s2);
    assert Leads(s2, Adopt(c), s3);
    assert Leads(s3, Send(0, true), s4);
    assert Leads(s4, Conclude(0), s5);
    ExecThree(s1, HandOver(0), s2, Adopt(c), s3, Send(0, true), s4);
    ExecOne(s4, Conclude(0), s5);
    ExecAppend(s1, [HandOver(0), Adopt(c), Send(0, true)], [Conclude(0)]);
  }

  /** A write that fails, or an answer that does not come in time, ends the request as failed: its
      waiter leaves its map, and nothing else changes. */
  lemma GivingUpEnds(s: State, t: Ticket, step: Step, failure: Failure)
    requires (step == Send(t, false) && Has(s, t, Inserted) && failure == NoPhone)
          || (step == GiveUp(t) && Has(s, t, Waiting) && failure == TimedOut)
    ensures var k := s.tasks[t];
      var u := s.(tasks := s.tasks[t := k.(phase := Done(Failed(failure)))]);
      Exec(s, [step, Remove(t)])
      == Some(if k.purpose.Check? then u.(pending := s.pending - {k.id}) else u.(pendingJson := s.pendingJson - {k.id}))
  {
    var k := s.tasks[t];
    var s1 := s.(tasks := s.tasks[t := k.(phase := Leaving(failure))]);
    var s2 := s.(tasks := s.tasks[t := k.(phase := Done(Failed(failure)))]);
    var s3 := if k.purpose.Check? then s2.(pending := s.pending - {k.id})
              else s2.(pendingJson := s.pendingJson - {k.id});
    assert Leads(s, step, s1);
    assert s1.tasks[t := k.(phase := Done(Failed(failure)))] == s2.tasks;
    assert Leads(s1, Remove(t), s3);
    ExecTwo(s, step, s1, Remove(t), s3);
  }

  /** How a request is judged once it has its answer: approved exactly on a signature over its own
      line under its own key, and otherwise with the reason there is. */
  lemma ConcludesExactly(s: State, t: Ticket)
    requires Inv(s) && Has(s, t, Waiting) && s.tasks[t].slot.Some?
    ensures var k := s.tasks[t]; var phase := Apply(s, Conclude(t)).tasks[t].phase;
      && phase.Done? && !phase.verdict.Failed?
      && (phase.verdict.Received? <==> k.purpose.Ask? && AsText(k.slot.value.value, "denied") == None)
      && (phase.verdict.Denied? <==>
            if k.purpose.Ask? then AsText(k.slot.value.value, "denied").Some? else k.slot.value.answer.Refused?)
      && (phase.verdict.Approved? <==>
            && k.purpose.Check? && k.slot.value.answer.Signed?
            && Verifies(s.signed, k.purpose.key, ToLine(k.purpose.request), k.slot.value.answer.signature))
  {
    assert TaskOk(s.tasks[t], t, s.signed);
  }

  // ---- Answers that arrive -------------------------------------------------------------------

  lemma WaiterIsFound(s: State, t: Ticket)
    requires Normal(s) && Has(s, t, Waiting) && s.tasks[t].purpose.Check? && Awaits(s, t)
    ensures var id := s.tasks[t].id;
      id in s.pending && s.pending[id] == t && id !in s.pendingJson && id < U64_LIMIT
  {
    NormalWaiters(s);
    MapsBelongToTasks(s);
    AllIdsDistinct(s);
    var id := s.tasks[t].id;
    assert TaskOk(s.tasks[t], t, s.signed) && WaiterOk(s, t);
    assert EntryOk(s, s.pending[id], id, true);
  }

  lemma MissesJson(s: State, r: Connection, reading: Reading)
    requires reading.id.Some? && reading.id.value !in s.pendingJson && r !in s.readers
    ensures Apply(s, LookUpJson(r, reading)) == s.(readers := s.readers[r := Missed(reading)])
  {
  }

  lemma FindsVerification(s: State, r: Connection, reading: Reading, response: Response)
    requires r in s.readers && s.readers[r] == Missed(reading) && reading.response == Some(response)
        && response.id in s.pending
    ensures Apply(s, LookUp(r)) == s.(pending := s.pending - {response.id},
      readers := s.readers[r := Carrying(s.pending[response.id], Answered(response.answer))])
  {
  }

  lemma Deposits(s: State, r: Connection, t: Ticket, content: Content)
    requires Has(s, t, Waiting) && r in s.readers && s.readers[r] == Carrying(t, content)
    ensures Apply(s, HandOver(r)) == SetTask(s, t, s.tasks[t].(slot := Some(content))).(readers := s.readers - {r})
  {
  }

  /** Delivering a response whose waiter is in the verification map alone. */
  lemma DeliverySteps(s: State, t: Ticket, r: Connection, reading: Reading, answer: Answer)
    requires Has(s, t, Waiting) && s.tasks[t].purpose.Check? && r !in s.readers
    requires reading.response == Some(Response(s.tasks[t].id, answer)) && reading.id == Some(s.tasks[t].id)
    requires s.tasks[t].id in s.pending && s.pending[s.tasks[t].id] == t && s.tasks[t].id !in s.pendingJson
    ensures var k := s.tasks[t];
      var u := SetTask(s, t, k.(slot := Some(Answered(answer)))).(pending := s.pending - {k.id});
      Exec(s, [LookUpJson(r, reading), LookUp(r), HandOver(r)]) == Some(u)
  {
    var s1 := s.(readers := s.readers[r := Missed(reading)]);
    var s2 := s.(pending := s.pending - {s.tasks[t].id}, readers := s.readers[r := Carrying(t, Answered(answer))]);
    var s3 := SetTask(s2, t, s2.tasks[t].(slot := Some(Answered(answer)))).(readers := s.readers);
    MissesJson(s, r, reading);
    FindsVerification(s1, r, reading, Response(s.tasks[t].id, answer));
    assert s1.readers[r := Carrying(t, Answered(answer))] == s2.readers;
    Deposits(s2, r, t, Answered(answer));
    assert s2.readers - {r} == s.readers;
    ExecThree(s, LookUpJson(r, reading), s1, LookUp(r), s2, HandOver(r), s3);
  }

  /** The phone's approval completes the verification, whichever connection it comes back on. */
  lemma ApprovalCompletes(s: State, t: Ticket, r: Connection, signature: seq<byte>)
    requires Normal(s) && Has(s, t, Waiting) && s.tasks[t].purpose.Check? && Awaits(s, t) && r !in s.readers
    requires Verifies(s.signed, s.tasks[t].purpose.key, ToLine(s.tasks[t].purpose.request), signature)
    ensures var line := ApprovalLine(s.tasks[t].id, signature);
      var u := Exec(s, [LookUpJson(r, ReadReply(line)), LookUp(r), HandOver(r)]);
      && !IsPairRequest(line) && u.Some? && Enabled(u.value, Conclude(t))
      && Apply(u.value, Conclude(t)).tasks[t].phase == Done(Approved(signature))
  {
    WaiterIsFound(s, t);
    DaemonReadsApproval(s.tasks[t].id, signature);
    DeliverySteps(s, t, r, ReadReply(ApprovalLine(s.tasks[t].id, signature)), Signed(signature));
  }

  lemma AskerIsFound(s: State, t: Ticket)
    requires Normal(s) && Has(s, t, Waiting) && s.tasks[t].purpose.Ask? && Awaits(s, t)
    ensures var id := s.tasks[t].id;
      id in s.pendingJson && s.pendingJson[id] == t && id < U64_LIMIT
  {
    NormalWaiters(s);
    AllIdsDistinct(s);
    assert TaskOk(s.tasks[t], t, s.signed) && WaiterOk(s, t);
    assert EntryOk(s, s.pendingJson[s.tasks[t].id], s.tasks[t].id, false);
  }

  lemma JsonDeliverySteps(s: State, t: Ticket, r: Connection, reading: Reading)
    requires Has(s, t, Waiting) && s.tasks[t].purpose.Ask? && r !in s.readers
    requires reading.id == Some(s.tasks[t].id)
    requires s.tasks[t].id in s.pendingJson && s.pendingJson[s.tasks[t].id] == t
    ensures var u := SetTask(s, t, s.tasks[t].(slot := Some(Replied(reading.value)))).(
        pendingJson := s.pendingJson - {s.tasks[t].id});
      Exec(s, [LookUpJson(r, reading), HandOver(r)]) == Some(u)
  {
    var content := Replied(reading.value);
    var s1 := s.(pendingJson := s.pendingJson - {s.tasks[t].id}, readers := s.readers[r := Carrying(t, content)]);
    assert Leads(s, LookUpJson(r, reading), s1);
    assert s1.readers - {r} == s.readers;
    var u := SetTask(s, t, s.tasks[t].(slot := Some(content))).(pendingJson := s.pendingJson - {s.tasks[t].id});
    assert Leads(s1, HandOver(r), u);
    ExecTwo(s, LookUpJson(r, reading), s1, HandOver(r), u);
  }

  /** A new credential from the phone completes the request for it, with both texts as given. */
  lemma CredentialCompletes(s: State, t: Ticket, r: Connection, credId: string, pem: string)
    requires Normal(s) && Has(s, t, Waiting) && s.tasks[t].purpose.Ask? && Awaits(s, t) && r !in s.readers
    ensures var line := CredentialLine(s.tasks[t].id, credId, pem);
      var u := Exec(s, [LookUpJson(r, ReadReply(line)), HandOver(r)]);
      && !IsPairRequest(line) && u.Some? && Enabled(u.value, Conclude(t))
      && var phase := Apply(u.value, Conclude(t)).tasks[t].phase;
         && phase.Done? && phase.verdict.Received?
         && AsText(phase.verdict.value, "credId") == Some(credId)
           && AsText(phase.verdict.value, "publicKeyPem") == Some(pem)
  {
    AskerIsFound(s, t);
    DaemonReadsCredential(s.tasks[t].id, credId, pem);
    JsonDeliverySteps(s, t, r, ReadReply(CredentialLine(s.tasks[t].id, credId, pem)));
  }

  // ---- A run that approves -----------------------------------------------------------------

  /** The first `n` ids drawn, for credential requests that go no further. */
  function Draws(n: nat): (ks: seq<Task>)
    ensures |ks| == n && forall i :: 0 <= i < n ==> ks[i] == Task(IdOf(i), Ask, Drawn, None)
  {
    if n == 0 then [] else Draws(n - 1) + [Task(IdOf(n - 1), Ask, Drawn, None)]
  }

  lemma {:induction false} DrawsAreReached(n: nat)
    ensures Reachable(INITIAL.(tasks := Draws(n)))
  {
    if n == 0 {
      assert Exec(INITIAL, []) == Some(INITIAL);
      assert INITIAL.(tasks := Draws(0)) == INITIAL;
    } else {
      DrawsAreReached(n - 1);
      var before := INITIAL.(tasks := Draws(n - 1));
      ReachableStep(before, StartAsk);
      assert Apply(before, StartAsk) == INITIAL.(tasks := Draws(n));
    }
  }

  /** The verification with ticket `n`, at some phase, with all the others still to begin. */
  function Alone(n: nat, key: string, r: Request, phase: Phase): State {
    INITIAL.(tasks := Draws(n) + [Task(IdOf(n), Check(key, r), phase, None)])
  }

  lemma AloneMoves(n: nat, key: string, r: Request, phase: Phase, later: Phase)
    ensures SetPhase(Alone(n, key, r, phase), n, later) == Alone(n, key, r, later)
  {
  }

  lemma StartedIsReached(n: nat, key: string, r: Request)
    requires r.id == IdOf(n)
    ensures Reachable(Alone(n, key, r, Drawn))
  {
    var start := StartVerification(key, r.challenge, r.user, r.host, r.action, r.detail);
    DrawsAreReached(n);
    ReachableStep(INITIAL.(tasks := Draws(n)), start);
    assert Apply(INITIAL.(tasks := Draws(n)), start) == Alone(n, key, r, Drawn);
  }

  lemma InsertedIsReached(n: nat, key: string, r: Request)
    requires r.id == IdOf(n)
    ensures Reachable(Alone(n, key, r, Inserted).(pending := map[IdOf(n) := n], outbound := Some(0)))
  {
    var s1 := Alone(n, key, r, Drawn);
    var s2 := Alone(n, key, r, Inserted).(pending := map[IdOf(n) := n]);
    StartedIsReached(n, key, r);
    ReachableStep(s1, Insert(n));
    AloneMoves(n, key, r, Drawn, Inserted);
    assert Apply(s1, Insert(n)) == s2;
    ReachableStep(s2, Adopt(0));
    assert Apply(s2, Adopt(0)) == s2.(outbound := Some(0));
  }

  /** It waits for its answer, and the phone has signed. */
  function Asked(n: nat, key: string, r: Request, signature: seq<byte>): State {
    Alone(n, key, r, Waiting).(pending := map[IdOf(n) := n], outbound := Some(0),
                               signed := map[signature := (key, ToLine(r))])
  }

  lemma AskedIsReached(n: nat, key: string, r: Request, signature: seq<byte>)
    requires r.id == IdOf(n)
    ensures Reachable(Asked(n, key, r, signature))
  {
    var s2 := Alone(n, key, r, Inserted).(pending := map[IdOf(n) := n], outbound := Some(0));
    var s3 := Alone(n, key, r, Waiting).(pending := map[IdOf(n) := n], outbound := Some(0));
    InsertedIsReached(n, key, r);
    ReachableStep(s2, Send(n, true));
    AloneMoves(n, key, r, Inserted, Waiting);
    assert Apply(s2, Send(n, true)) == s3;
    ReachableStep(s3, Sign(signature, key, ToLine(r)));
    assert Apply(s3, Sign(signature, key, ToLine(r))) == Asked(n, key, r, signature);
  }

  /** From any state that waits for a signature the phone has made, an approval can follow. */
  lemma ApprovalFollows(s: State, t: Ticket, r: Connection, signature: seq<byte>) returns (done: State)
    requires Normal(s) && Has(s, t, Waiting) && s.tasks[t].purpose.Check? && Awaits(s, t) && r !in s.readers
    requires Verifies(s.signed, s.tasks[t].purpose.key, ToLine(s.tasks[t].purpose.request), signature)
    ensures Reachable(done) && IsApproved(done, t) && done.tasks[t].purpose == s.tasks[t].purpose
  {
    var reading := ReadReply(ApprovalLine(s.tasks[t].id, signature));
    var delivery := [LookUpJson(r, reading), LookUp(r), HandOver(r)];
    ApprovalCompletes(s, t, r, signature);
    ReachableSteps(s, delivery);
    ReachableInv(s);
    RunKeepsTask(s, delivery, t);
    var answered := Exec(s, delivery).value;
    ReachableStep(answered, Conclude(t));
    done := Apply(answered, Conclude(t));
  }

  /** Nothing above holds for want of approvals: any request whatever, with any id of 64 bits, can
      be approved. */
  lemma ApprovalIsPossible(key: string, r: Request, signature: seq<byte>) returns (done: State, t: Ticket)
    requires r.id < U64_LIMIT
    ensures Reachable(done) && IsApproved(done, t) && done.tasks[t].purpose == Check(key, r)
  {
    t := if r.id == 0 then U64_LIMIT - 1 else r.id - 1;
    AskedIsReached(t, key, r, signature);
    done := ApprovalFollows(Asked(t, key, r, signature), t, 0, signature);
  }
}

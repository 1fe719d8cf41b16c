/** Where answers come from: whatever a request is told, it is told by a line that came over some
    connection with that request's own id. The history is the run itself. */
module Provenance {
  import opened Wrappers
  import opened Json
  import opened Protocol
  import opened Routing

  /** What a run has been given to deliver. */
  function Heard(steps: seq<Step>): set<Reading>
    decreases |steps|
  {
    if steps == [] then {} else HeardAt(steps[0]) + Heard(steps[1..])
  }

  function HeardAt(step: Step): set<Reading> {
    match step case LookUpJson(_, reading) => {reading} case _ => {}
  }

  /** All of it was read from these lines, none of which asks for pairing. */
  predicate AllFrom(steps: seq<Step>, lines: set<string>) {
    forall reading :: reading in Heard(steps) ==> exists line :: line in lines && IsReadingOf(reading, line)
  }

  predicate IsReadingOf(reading: Reading, line: string) {
    reading == ReadReply(line) && !IsPairRequest(line)
  }

  /** A reply with this id that says this. */
  predicate Says(reading: Reading, id: nat, content: Content) {
    match content
    case Answered(answer) => reading.response == Some(Response(id, answer))
    case Replied(value) => reading.id == Some(id) && reading.value == value
  }

  predicate Said(heard: set<Reading>, id: nat, content: Content) {
    exists reading :: reading in heard && Says(reading, id, content)
  }

  /** A verdict that is not a failure is the one its answer asks for. */
  predicate VerdictFits(k: Task) {
    match k.phase
    case Done(Approved(signature)) => k.slot == Some(Answered(Signed(signature)))
    case Done(BadSignature) => k.slot.Some? && k.slot.value.Answered? && k.slot.value.answer.Signed?
    case Done(Denied(reason)) =>
      || k.slot == Some(Answered(Refused(reason)))
      || (k.slot.Some? && k.slot.value.Replied? && AsText(k.slot.value.value, "denied") == Some(reason))
    case Done(Received(value)) => k.slot == Some(Replied(value)) && AsText(value, "denied") == None
    case _ => true
  }

  predicate TaskSaid(k: Task, heard: set<Reading>) {
    (k.slot.Some? ==> Said(heard, k.id, k.slot.value)) && VerdictFits(k)
  }

  predicate ReaderSaid(s: State, reader: Reader, heard: set<Reading>) {
    match reader
    case Missed(reading) => reading in heard
    case Carrying(t, content) => t < |s.tasks| && Said(heard, s.tasks[t].id, content)
  }

  predicate TasksSaid(s: State, heard: set<Reading>) {
    forall t :: 0 <= t < |s.tasks| ==> TaskSaid(s.tasks[t], heard)
  }

  predicate ReadersSaid(s: State, heard: set<Reading>) {
    forall r :: r in s.readers ==> ReaderSaid(s, s.readers[r], heard)
  }

  lemma SaidStays(heard: set<Reading>, more: set<Reading>, id: nat, content: Content)
    requires heard <= more && Said(heard, id, content)
    ensures Said(more, id, content)
  {
  }

  lemma AllSaidStay(s: State, heard: set<Reading>, more: set<Reading>)
    requires heard <= more && TasksSaid(s, heard) && ReadersSaid(s, heard)
    ensures TasksSaid(s, more) && ReadersSaid(s, more)
  {
    forall t | 0 <= t < |s.tasks| ensures TaskSaid(s.tasks[t], more) {
      assert TaskSaid(s.tasks[t], heard);
    }
    forall r | r in s.readers ensures ReaderSaid(s, s.readers[r], more) {
      assert ReaderSaid(s, s.readers[r], heard);
    }
  }

  /** The readers left have what they had, and the tasks keep their ids. */
  predicate ReadersStay(s: State, u: State) {
    && |s.tasks| <= |u.tasks| && (forall t :: 0 <= t < |s.tasks| ==> u.tasks[t].id == s.tasks[t].id)
    && (forall r :: r in u.readers ==> r in s.readers && u.readers[r] == s.readers[r])
  }

  lemma ReadersKeepSaid(s: State, u: State, heard: set<Reading>)
    requires ReadersSaid(s, heard) && ReadersStay(s, u)
    ensures ReadersSaid(u, heard)
  {
    forall r | r in u.readers ensures ReaderSaid(u, u.readers[r], heard) {
      assert ReaderSaid(s, s.readers[r], heard);
    }
  }

  /** Steps that move readers or maps only, or a task to a phase without a verdict. */
  lemma MovesKeepSaid(s: State, u: State, heard: set<Reading>)
    requires TasksSaid(s, heard) && ReadersSaid(s, heard) && u.readers == s.readers && |s.tasks| <= |u.tasks|
    requires forall t :: 0 <= t < |s.tasks| ==>
      u.tasks[t].id == s.tasks[t].id && u.tasks[t].slot == s.tasks[t].slot && VerdictFits(u.tasks[t])
    requires forall t :: |s.tasks| <= t < |u.tasks| ==> u.tasks[t].slot == None && VerdictFits(u.tasks[t])
    ensures TasksSaid(u, heard) && ReadersSaid(u, heard)
  {
    forall t | 0 <= t < |u.tasks| ensures TaskSaid(u.tasks[t], heard) {
      if t < |s.tasks| { assert TaskSaid(s.tasks[t], heard); }
    }
    ReadersKeepSaid(s, u, heard);
  }

  lemma PhaseKeepsSaid(s: State, t: Ticket, phase: Phase, heard: set<Reading>)
    requires TasksSaid(s, heard) && ReadersSaid(s, heard) && t < |s.tasks|
    requires VerdictFits(s.tasks[t].(phase := phase))
    ensures TasksSaid(SetPhase(s, t, phase), heard) && ReadersSaid(SetPhase(s, t, phase), heard)
  {
    forall v | 0 <= v < |s.tasks| ensures VerdictFits(SetPhase(s, t, phase).tasks[v]) {
      assert TaskSaid(s.tasks[v], heard);
    }
    MovesKeepSaid(s, SetPhase(s, t, phase), heard);
  }

  lemma StartKeepsSaid(s: State, purpose: Purpose, heard: set<Reading>)
    requires TasksSaid(s, heard) && ReadersSaid(s, heard)
    ensures TasksSaid(Start(s, purpose), heard) && ReadersSaid(Start(s, purpose), heard)
  {
    forall t | 0 <= t < |s.tasks| ensures VerdictFits(s.tasks[t]) {
      assert TaskSaid(s.tasks[t], heard);
    }
    MovesKeepSaid(s, Start(s, purpose), heard);
  }

  /** The maps play no part. */
  lemma SameKeepSaid(s: State, u: State, heard: set<Reading>)
    requires TasksSaid(s, heard) && ReadersSaid(s, heard) && u.tasks == s.tasks && u.readers == s.readers
    ensures TasksSaid(u, heard) && ReadersSaid(u, heard)
  {
    forall r | r in u.readers ensures ReaderSaid(u, u.readers[r], heard) {
      assert ReaderSaid(s, s.readers[r], heard);
    }
  }

  lemma ReaderKeepsSaid(s: State, r: Connection, reader: Reader, u: State, heard: set<Reading>)
    requires TasksSaid(s, heard) && ReadersSaid(s, heard) && ReaderSaid(s, reader, heard)
    requires u.tasks == s.tasks && u.readers == s.readers[r := reader]
    ensures TasksSaid(u, heard) && ReadersSaid(u, heard)
  {
    forall q | q in u.readers ensures ReaderSaid(u, u.readers[q], heard) {
      if q != r { assert ReaderSaid(s, s.readers[q], heard); }
    }
  }

  lemma GoneKeepsSaid(s: State, r: Connection, u: State, heard: set<Reading>)
    requires TasksSaid(s, heard) && ReadersSaid(s, heard) && u.tasks == s.tasks && u.readers == s.readers - {r}
    ensures TasksSaid(u, heard) && ReadersSaid(u, heard)
  {
    forall q | q in u.readers ensures ReaderSaid(u, u.readers[q], heard) {
      assert ReaderSaid(s, s.readers[q], heard);
    }
  }

  lemma LookUpJsonKeepsSaid(s: State, r: Connection, reading: Reading, heard: set<Reading>)
    requires Inv(s) && TasksSaid(s, heard) && ReadersSaid(s, heard) && reading in heard
    ensures TasksSaid(LookUpJsonWaiter(s, r, reading), heard)
    ensures ReadersSaid(LookUpJsonWaiter(s, r, reading), heard)
  {
    var u := LookUpJsonWaiter(s, r, reading);
    if reading.id.Some? && reading.id.value in s.pendingJson {
      var id := reading.id.value;
      assert EntryOk(s, s.pendingJson[id], id, false);
      assert Says(reading, id, Replied(reading.value));
      ReaderKeepsSaid(s, r, Carrying(s.pendingJson[id], Replied(reading.value)), u, heard);
    } else {
      ReaderKeepsSaid(s, r, Missed(reading), u, heard);
    }
  }

  lemma LookUpKeepsSaid(s: State, r: Connection, heard: set<Reading>)
    requires Inv(s) && TasksSaid(s, heard) && ReadersSaid(s, heard) && r in s.readers && s.readers[r].Missed?
    ensures TasksSaid(LookUpWaiter(s, r, s.readers[r].reading), heard)
    ensures ReadersSaid(LookUpWaiter(s, r, s.readers[r].reading), heard)
  {
    var reading := s.readers[r].reading;
    var u := LookUpWaiter(s, r, reading);
    assert ReaderSaid(s, s.readers[r], heard);
    if reading.response.Some? && reading.response.value.id in s.pending {
      var response := reading.response.value;
      assert EntryOk(s, s.pending[response.id], response.id, true);
      assert Says(reading, response.id, Answered(response.answer));
      ReaderKeepsSaid(s, r, Carrying(s.pending[response.id], Answered(response.answer)), u, heard);
    } else {
      GoneKeepsSaid(s, r, u, heard);
    }
  }

  lemma HandOverKeepsSaid(s: State, r: Connection, heard: set<Reading>)
    requires Inv(s) && TasksSaid(s, heard) && ReadersSaid(s, heard) && r in s.readers && s.readers[r].Carrying?
    ensures TasksSaid(Deposit(s, r), heard) && ReadersSaid(Deposit(s, r), heard)
  {
    var t := s.readers[r].ticket;
    assert ReaderSaid(s, s.readers[r], heard) && ReaderOk(s, r) && TaskSaid(s.tasks[t], heard);
    if s.tasks[t].phase in {Inserted, Waiting} {
      var k := s.tasks[t].(slot := Some(s.readers[r].content));
      assert TaskSaid(k, heard);
      OneTaskSaid(s, t, k, Deposit(s, r), heard);
    } else {
      GoneKeepsSaid(s, r, Deposit(s, r), heard);
    }
  }

  lemma OneTaskSaid(s: State, t: Ticket, k: Task, u: State, heard: set<Reading>)
    requires TasksSaid(s, heard) && ReadersSaid(s, heard) && t < |s.tasks| && TaskSaid(k, heard)
    requires k.id == s.tasks[t].id && u.tasks == s.tasks[t := k]
    requires forall r :: r in u.readers ==> r in s.readers && u.readers[r] == s.readers[r]
    ensures TasksSaid(u, heard) && ReadersSaid(u, heard)
  {
    forall v | 0 <= v < |u.tasks| ensures TaskSaid(u.tasks[v], heard) {
      if v != t { assert TaskSaid(s.tasks[v], heard); }
    }
    ReadersKeepSaid(s, u, heard);
  }

  lemma ConcludeKeepsSaid(s: State, t: Ticket, heard: set<Reading>)
    requires Inv(s) && TasksSaid(s, heard) && ReadersSaid(s, heard) && Has(s, t, Waiting) && s.tasks[t].slot.Some?
    ensures TasksSaid(SetPhase(s, t, Done(VerdictOn(s, s.tasks[t]))), heard)
    ensures ReadersSaid(SetPhase(s, t, Done(VerdictOn(s, s.tasks[t]))), heard)
  {
    assert TaskOk(s.tasks[t], t, s.signed);
    PhaseKeepsSaid(s, t, Done(VerdictOn(s, s.tasks[t])), heard);
  }

  lemma MapStepKeepsSaid(s: State, step: Step, heard: set<Reading>)
    requires Enabled(s, step) && (step.Insert? || step.Remove?) && TasksSaid(s, heard) && ReadersSaid(s, heard)
    ensures TasksSaid(Apply(s, step), heard) && ReadersSaid(Apply(s, step), heard)
  {
    var t := step.t;
    var phase := if step.Insert? then Inserted else Done(Failed(s.tasks[t].phase.failure));
    PhaseKeepsSaid(s, t, phase, heard);
    SameKeepSaid(SetPhase(s, t, phase), Apply(s, step), heard);
  }

  lemma StepKeepsSaid(s: State, step: Step, heard: set<Reading>)
    requires Inv(s) && Enabled(s, step) && TasksSaid(s, heard) && ReadersSaid(s, heard) && HeardAt(step) <= heard
    ensures TasksSaid(Apply(s, step), heard) && ReadersSaid(Apply(s, step), heard)
  {
    match step
    case StartVerification(key, challenge, user, host, action, detail) =>
      StartKeepsSaid(s, Check(key, Request(IdOf(|s.tasks|), challenge, user, host, action, detail)), heard);
    case StartAsk => StartKeepsSaid(s, Ask, heard);
    case LoseChallenge(t) => PhaseKeepsSaid(s, t, Done(Failed(NoChallenge)), heard);
    case Insert(_) => MapStepKeepsSaid(s, step, heard);
    case Remove(_) => MapStepKeepsSaid(s, step, heard);
    case Send(t, ok) => PhaseKeepsSaid(s, t, if ok then Waiting else Leaving(NoPhone), heard);
    case GiveUp(t) => PhaseKeepsSaid(s, t, Leaving(TimedOut), heard);
    case Abandon(t) => PhaseKeepsSaid(s, t, Leaving(Abandoned), heard);
    case Conclude(t) => ConcludeKeepsSaid(s, t, heard);
    case LookUpJson(r, reading) => LookUpJsonKeepsSaid(s, r, reading, heard);
    case LookUp(r) => LookUpKeepsSaid(s, r, heard);
    case HandOver(r) => HandOverKeepsSaid(s, r, heard);
    case Adopt(_) => SameKeepSaid(s, Apply(s, step), heard);
    case Sign(_, _, _) => SameKeepSaid(s, Apply(s, step), heard);
  }

  lemma {:induction false} RunKeepsSaid(s: State, steps: seq<Step>, heard: set<Reading>)
    requires Inv(s) && Exec(s, steps).Some? && TasksSaid(s, heard) && ReadersSaid(s, heard) && Heard(steps) <= heard
    ensures TasksSaid(Exec(s, steps).value, heard) && ReadersSaid(Exec(s, steps).value, heard)
    decreases |steps|
  {
    if steps != [] {
      StepKeepsSaid(s, steps[0], heard);
      StepKeepsInv(s, steps[0]);
      RunKeepsSaid(Apply(s, steps[0]), steps[1..], heard);
    }
  }

  /** In every run the answer a request has been given was said by a line with that request's own
      id, for verifications and credential requests alike. */
  lemma AnswerIsOwn(steps: seq<Step>, lines: set<string>, s: State, t: Ticket)
    requires Exec(INITIAL, steps) == Some(s) && AllFrom(steps, lines) && t < |s.tasks|
    ensures s.tasks[t].slot.Some? ==>
      exists line :: line in lines && SaidBy(line, s.tasks[t].id, s.tasks[t].slot.value)
    ensures VerdictFits(s.tasks[t])
  {
    RunKeepsSaid(INITIAL, steps, Heard(steps));
    var k := s.tasks[t];
    assert TaskSaid(k, Heard(steps));
    if k.slot.Some? {
      var reading :| reading in Heard(steps) && Says(reading, k.id, k.slot.value);
      var line :| line in lines && IsReadingOf(reading, line);
      assert SaidBy(line, k.id, k.slot.value);
    }
  }

  /** The line does not ask for pairing, and says this with this id. */
  predicate SaidBy(line: string, id: nat, content: Content) {
    !IsPairRequest(line) && Says(ReadReply(line), id, content)
  }

  lemma RefusalSaid(line: string, id: nat, reason: string)
    requires SaidBy(line, id, Answered(Refused(reason)))
    ensures ReadReply(line).id == Some(id) && AsText(ReadReply(line).value, "denied") == Some(reason)
  {
  }

  /** What the line must hold for such a verdict. */
  predicate Gives(line: string, id: nat, verdict: Verdict) {
    match verdict
    case Denied(reason) => ReadReply(line).id == Some(id) && AsText(ReadReply(line).value, "denied") == Some(reason)
    case Received(value) => ReadReply(line).id == Some(id) && ReadReply(line).value == value
    case Approved(signature) => ParseResponse(line) == Some(Response(id, Signed(signature)))
    case _ => true
  }

  /** A request is denied, or a credential request granted, only by a line with its own id: the
      denial is that line's reason, and what is granted is all that line's object. */
  lemma VerdictIsOwn(steps: seq<Step>, lines: set<string>, s: State, t: Ticket)
    requires Exec(INITIAL, steps) == Some(s) && AllFrom(steps, lines) && t < |s.tasks| && s.tasks[t].phase.Done?
    ensures s.tasks[t].phase.verdict.Failed? || exists line :: line in lines && Gives(line, s.tasks[t].id,
      s.tasks[t].phase.verdict)
  {
    AnswerIsOwn(steps, lines, s, t);
    var k := s.tasks[t];
    if k.slot.Some? {
      var line :| line in lines && SaidBy(line, k.id, k.slot.value);
      if k.slot.value.Answered? && k.slot.value.answer.Refused? {
        RefusalSaid(line, k.id, k.slot.value.answer.reason);
      }
      assert !k.phase.verdict.Failed? ==> Gives(line, k.id, k.phase.verdict);
    }
  }
}

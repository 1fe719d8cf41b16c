/** How the daemon routes the phone's replies: every interleaving of verifications, credential
    requests, replies, timeouts and reconnects, one atomic section of the code a step. */
module Routing {
  import opened Wrappers
  import opened Numbers
  import opened Bytes
  import opened Json
  import opened Protocol

  type Ticket = nat
  type Connection = nat

  // ---- State -----------------------------------------------------------------------------

  /** A verification is checked against the key it loaded at its start and its own line. */
  datatype Purpose = Check(key: string, request: Request) | Ask

  datatype Content = Answered(answer: Answer) | Replied(value: Object)

  datatype Failure = NoChallenge | NoPhone | TimedOut | Abandoned

  datatype Verdict =
    | Approved(signature: seq<byte>)
    | BadSignature
    | Denied(reason: string)
    | Received(value: Object)
    | Failed(failure: Failure)

  /** Where a task stands: its id drawn, its waiter inserted, its request written, giving up (the
      waiter still to be removed), or finished. */
  datatype Phase = Drawn | Inserted | Waiting | Leaving(failure: Failure) | Done(verdict: Verdict)

  /** One run of `run_verification` or `ask_phone`; `slot` is its one-shot channel. */
  datatype Task = Task(id: nat, purpose: Purpose, phase: Phase, slot: Option<Content>)

  /** A reader in the middle of `deliver`: past the first map, or with a waiter in hand. */
  datatype Reader = Missed(reading: Reading) | Carrying(ticket: Ticket, content: Content)

  /** Tickets number the runs in the order they drew their ids. `signed` is the history of what
      the phones have signed, which is all that a signature can be checked against. */
  datatype State = State(
    pending: map<nat, Ticket>,
    pendingJson: map<nat, Ticket>,
    outbound: Option<Connection>,
    tasks: seq<Task>,
    readers: map<Connection, Reader>,
    signed: map<seq<byte>, (string, string)>)

  const INITIAL := State(map[], map[], None, [], map[], map[])

  /** The counter starts at 1 and wraps at 2^64. */
  function IdOf(t: Ticket): nat {
    (1 + t) % U64_LIMIT
  }

  /** The idealised check: a phone holding `key` has produced this signature over `line`. */
  predicate Verifies(signed: map<seq<byte>, (string, string)>, key: string, line: string, signature: seq<byte>) {
    signature in signed && signed[signature] == (key, line)
  }

  // ---- Steps -----------------------------------------------------------------------------

  /** `deliver` begins with what it learns from a line; a line that asks for pairing never gets there. */
  datatype Step =
    | StartVerification(key: string, challenge: seq<byte>, user: string, host: string, action: string, detail: string)
    | StartAsk
    | LoseChallenge(t: Ticket)
    | Insert(t: Ticket)
    | Send(t: Ticket, ok: bool)
    | GiveUp(t: Ticket)
    | Abandon(t: Ticket)
    | Remove(t: Ticket)
    | Conclude(t: Ticket)
    | LookUpJson(r: Connection, reading: Reading)
    | LookUp(r: Connection)
    | HandOver(r: Connection)
    | Adopt(connection: Connection)
    | Sign(signature: seq<byte>, key: string, line: string)

  predicate Has(s: State, t: Ticket, phase: Phase) {
    t < |s.tasks| && s.tasks[t].phase == phase
  }

  predicate Holds(s: State, r: Connection, t: Ticket) {
    r in s.readers && s.readers[r].Carrying? && s.readers[r].ticket == t
  }

  /** The task's sender is still somewhere: in its map, or with a reader. */
  predicate InMap(s: State, t: Ticket)
    requires t < |s.tasks|
  {
    s.tasks[t].id in (if s.tasks[t].purpose.Check? then s.pending else s.pendingJson)
  }

  predicate SenderLives(s: State, t: Ticket)
    requires t < |s.tasks|
  {
    InMap(s, t) || exists r | r in s.readers :: Holds(s, r, t)
  }

  predicate Enabled(s: State, step: Step) {
    match step
    case StartVerification(_, _, _, _, _, _) => true
    case StartAsk => true
    case LoseChallenge(t) => Has(s, t, Drawn) && s.tasks[t].purpose.Check?
    case Insert(t) => Has(s, t, Drawn)
    case Send(t, ok) => Has(s, t, Inserted) && (ok ==> s.outbound.Some?)
    case GiveUp(t) => Has(s, t, Waiting)
    case Abandon(t) => Has(s, t, Waiting) && s.tasks[t].slot.None? && !SenderLives(s, t)
    case Remove(t) => t < |s.tasks| && s.tasks[t].phase.Leaving?
    case Conclude(t) => Has(s, t, Waiting) && s.tasks[t].slot.Some?
    case LookUpJson(r, _) => r !in s.readers
    case LookUp(r) => r in s.readers && s.readers[r].Missed?
    case HandOver(r) => r in s.readers && s.readers[r].Carrying?
    case Adopt(_) => true
    case Sign(signature, _, _) => signature !in s.signed
  }

  function SetTask(s: State, t: Ticket, task: Task): State
    requires t < |s.tasks|
  {
    s.(tasks := s.tasks[t := task])
  }

  function SetPhase(s: State, t: Ticket, phase: Phase): State
    requires t < |s.tasks|
  {
    SetTask(s, t, s.tasks[t].(phase := phase))
  }

  function Start(s: State, purpose: Purpose): State {
    s.(tasks := s.tasks + [Task(IdOf(|s.tasks|), purpose, Drawn, None)])
  }

  function InsertWaiter(s: State, t: Ticket): State
    requires t < |s.tasks|
  {
    var id := s.tasks[t].id;
    var u := SetPhase(s, t, Inserted);
    if s.tasks[t].purpose.Check? then u.(pending := u.pending[id := t]) else u.(pendingJson := u.pendingJson[id := t])
  }

  function RemoveWaiter(s: State, t: Ticket): State
    requires t < |s.tasks| && s.tasks[t].phase.Leaving?
  {
    var id := s.tasks[t].id;
    var u := SetPhase(s, t, Done(Failed(s.tasks[t].phase.failure)));
    if s.tasks[t].purpose.Check? then u.(pending := u.pending - {id}) else u.(pendingJson := u.pendingJson - {id})
  }

  /** The verdict on what the one-shot channel yields. */
  function VerdictOn(s: State, task: Task): Verdict
    requires task.slot.Some?
  {
    match (task.purpose, task.slot.value)
    case (Check(key, request), Answered(Signed(signature))) =>
      if Verifies(s.signed, key, ToLine(request), signature) then Approved(signature) else BadSignature
    case (_, Answered(Refused(reason))) => Denied(reason)
    case (_, Replied(value)) =>
      (match AsText(value, "denied") case Some(reason) => Denied(reason) case None => Received(value))
    case (Ask, Answered(Signed(_))) => BadSignature
  }

  function LookUpJsonWaiter(s: State, r: Connection, reading: Reading): State {
    match reading.id
    case Some(id) =>
      if id in s.pendingJson then
        s.(pendingJson := s.pendingJson - {id},
           readers := s.readers[r := Carrying(s.pendingJson[id], Replied(reading.value))])
      else s.(readers := s.readers[r := Missed(reading)])
    case None => s.(readers := s.readers[r := Missed(reading)])
  }

  function LookUpWaiter(s: State, r: Connection, reading: Reading): State {
    match reading.response
    case Some(response) =>
      if response.id in s.pending then
        s.(pending := s.pending - {response.id},
           readers := s.readers[r := Carrying(s.pending[response.id], Answered(response.answer))])
      else s.(readers := s.readers - {r})
    case None => s.(readers := s.readers - {r})
  }

  /** Sending on the one-shot channel: lost when nobody listens any more. */
  function Deposit(s: State, r: Connection): State
    requires r in s.readers && s.readers[r].Carrying?
  {
    var t := s.readers[r].ticket;
    var u := s.(readers := s.readers - {r});
    if t < |s.tasks| && s.tasks[t].phase in {Inserted, Waiting} then
      SetTask(u, t, u.tasks[t].(slot := Some(s.readers[r].content)))
    else u
  }

  function Apply(s: State, step: Step): State
    requires Enabled(s, step)
  {
    match step
    case StartVerification(key, challenge, user, host, action, detail) =>
      Start(s, Check(key, Request(IdOf(|s.tasks|), challenge, user, host, action, detail)))
    case StartAsk => Start(s, Ask)
    case LoseChallenge(t) => SetPhase(s, t, Done(Failed(NoChallenge)))
    case Insert(t) => InsertWaiter(s, t)
    case Send(t, ok) => SetPhase(s, t, if ok then Waiting else Leaving(NoPhone))
    case GiveUp(t) => SetPhase(s, t, Leaving(TimedOut))
    case Abandon(t) => SetPhase(s, t, Leaving(Abandoned))
    case Remove(t) => RemoveWaiter(s, t)
    case Conclude(t) => SetPhase(s, t, Done(VerdictOn(s, s.tasks[t])))
    case LookUpJson(r, reading) => LookUpJsonWaiter(s, r, reading)
    case LookUp(r) => LookUpWaiter(s, r, s.readers[r].reading)
    case HandOver(r) => Deposit(s, r)
    case Adopt(connection) => s.(outbound := Some(connection))
    case Sign(signature, key, line) => s.(signed := s.signed[signature := (key, line)])
  }

  /** The state a run of steps leads to, if each step is possible when it comes. */
  function Exec(s: State, steps: seq<Step>): Option<State>
    decreases |steps|
  {
    if steps == [] then Some(s)
    else if Enabled(s, steps[0]) then Exec(Apply(s, steps[0]), steps[1..])
    else None
  }

  ghost predicate Reachable(s: State) {
    exists steps :: Exec(INITIAL, steps) == Some(s)
  }

  // ---- What every step keeps, whatever the number of ids drawn ----------------------------

  predicate Matches(purpose: Purpose, content: Content) {
    purpose.Check? <==> content.Answered?
  }

  predicate TaskOk(k: Task, t: Ticket, signed: map<seq<byte>, (string, string)>) {
    && k.id == IdOf(t)
    && (k.purpose.Check? ==> k.purpose.request.id == k.id)
    && (k.phase == Drawn ==> k.slot.None?)
    && (k.slot.Some? ==> Matches(k.purpose, k.slot.value))
    && (k.phase.Done? && k.phase.verdict.Approved? ==>
          && k.purpose.Check?
          && k.slot == Some(Answered(Signed(k.phase.verdict.signature)))
          && Verifies(signed, k.purpose.key, ToLine(k.purpose.request), k.phase.verdict.signature))
  }

  predicate TasksOk(s: State) {
    forall t :: 0 <= t < |s.tasks| ==> TaskOk(s.tasks[t], t, s.signed)
  }

  /** A sender that exists: its task has inserted it and has not been answered. */
  predicate SenderOk(s: State, t: Ticket) {
    t < |s.tasks| && s.tasks[t].phase != Drawn && s.tasks[t].slot.None?
  }

  predicate NotHeld(s: State, t: Ticket) {
    forall r :: r in s.readers ==> !Holds(s, r, t)
  }

  predicate EntryOk(s: State, t: Ticket, id: nat, check: bool) {
    && SenderOk(s, t) && NotHeld(s, t)
    && s.tasks[t].id == id && s.tasks[t].purpose.Check? == check
  }

  predicate EntriesOk(s: State, waiters: map<nat, Ticket>, check: bool) {
    forall id :: id in waiters ==> EntryOk(s, waiters[id], id, check)
  }

  predicate ReaderOk(s: State, r: Connection)
    requires r in s.readers
  {
    s.readers[r].Carrying? ==>
      && SenderOk(s, s.readers[r].ticket)
      && Matches(s.tasks[s.readers[r].ticket].purpose, s.readers[r].content)
      && forall q :: q in s.readers && q != r ==> !Holds(s, q, s.readers[r].ticket)
  }

  predicate ReadersOk(s: State) {
    forall r :: r in s.readers ==> ReaderOk(s, r)
  }

  predicate Inv(s: State) {
    && TasksOk(s)
    && EntriesOk(s, s.pending, true)
    && EntriesOk(s, s.pendingJson, false)
    && ReadersOk(s)
  }

  /** Steps that give no answer, no approval and no new task. */
  predicate AnswersStay(s: State, u: State) {
    && |u.tasks| == |s.tasks| && u.signed == s.signed
    && forall t :: 0 <= t < |s.tasks| ==>
         && u.tasks[t].id == s.tasks[t].id && u.tasks[t].purpose == s.tasks[t].purpose
         && u.tasks[t].slot == s.tasks[t].slot
         && (u.tasks[t].phase == s.tasks[t].phase
             || (u.tasks[t].phase != Drawn && (u.tasks[t].phase.Done? ==> u.tasks[t].phase.verdict.Failed?)))
  }

  lemma StayKeepsTasksOk(s: State, u: State)
    requires TasksOk(s) && AnswersStay(s, u)
    ensures TasksOk(u)
  {
  }

  lemma MoveKeepsTasksOk(s: State, t: Ticket, phase: Phase)
    requires TasksOk(s) && t < |s.tasks| && phase != Drawn && (phase.Done? ==> phase.verdict.Failed?)
    ensures TasksOk(SetPhase(s, t, phase))
  {
    StayKeepsTasksOk(s, SetPhase(s, t, phase));
  }

  lemma ConcludeKeepsTasksOk(s: State, t: Ticket)
    requires TasksOk(s) && Has(s, t, Waiting) && s.tasks[t].slot.Some?
    ensures TasksOk(SetPhase(s, t, Done(VerdictOn(s, s.tasks[t]))))
  {
    assert TaskOk(s.tasks[t], t, s.signed);
  }

  lemma HandOverKeepsTasksOk(s: State, r: Connection)
    requires Inv(s) && r in s.readers && s.readers[r].Carrying?
    ensures TasksOk(Deposit(s, r))
  {
    assert ReaderOk(s, r);
  }

  lemma StartKeepsTasksOk(s: State, purpose: Purpose)
    requires TasksOk(s) && (purpose.Check? ==> purpose.request.id == IdOf(|s.tasks|))
    ensures TasksOk(Start(s, purpose))
  {
  }

  lemma SignKeepsTasksOk(s: State, signature: seq<byte>, key: string, line: string)
    requires TasksOk(s) && signature !in s.signed
    ensures TasksOk(s.(signed := s.signed[signature := (key, line)]))
  {
  }

  lemma StepKeepsTasksOk(s: State, step: Step)
    requires Inv(s) && Enabled(s, step)
    ensures TasksOk(Apply(s, step))
  {
    match step
    case StartVerification(key, challenge, user, host, action, detail) =>
      StartKeepsTasksOk(s, Check(key, Request(IdOf(|s.tasks|), challenge, user, host, action, detail)));
    case StartAsk => StartKeepsTasksOk(s, Ask);
    case Conclude(t) => ConcludeKeepsTasksOk(s, t);
    case HandOver(r) => HandOverKeepsTasksOk(s, r);
    case Sign(signature, key, line) => SignKeepsTasksOk(s, signature, key, line);
    case LoseChallenge(t) => MoveKeepsTasksOk(s, t, Done(Failed(NoChallenge)));
    case Send(t, ok) => MoveKeepsTasksOk(s, t, if ok then Waiting else Leaving(NoPhone));
    case GiveUp(t) => MoveKeepsTasksOk(s, t, Leaving(TimedOut));
    case Abandon(t) => MoveKeepsTasksOk(s, t, Leaving(Abandoned));
    case Insert(t) => MoveKeepsTasksOk(s, t, Inserted);
    case Remove(t) => MoveKeepsTasksOk(s, t, Done(Failed(s.tasks[t].phase.failure)));
    case LookUpJson(_, _) =>
    case LookUp(_) =>
    case Adopt(_) =>
  }

  predicate Listening(phase: Phase) {
    phase == Inserted || phase == Waiting
  }

  predicate SendersOk(s: State) {
    EntriesOk(s, s.pending, true) && EntriesOk(s, s.pendingJson, false) && ReadersOk(s)
  }

  predicate Within(m: map<nat, Ticket>, n: map<nat, Ticket>) {
    forall id :: id in m ==> id in n && m[id] == n[id]
  }

  /** Steps that move no sender, though they may drop some. */
  predicate SendersStay(s: State, u: State) {
    && Within(u.pending, s.pending) && Within(u.pendingJson, s.pendingJson) && u.readers == s.readers
    && |s.tasks| <= |u.tasks|
    && forall t :: 0 <= t < |s.tasks| ==>
         && u.tasks[t].id == s.tasks[t].id && u.tasks[t].purpose == s.tasks[t].purpose
         && u.tasks[t].slot == s.tasks[t].slot
         && (u.tasks[t].phase == s.tasks[t].phase
             || (u.tasks[t].phase != Drawn && (Listening(u.tasks[t].phase) ==> Listening(s.tasks[t].phase))))
  }

  lemma StayKeepsSenders(s: State, u: State)
    requires SendersOk(s) && SendersStay(s, u)
    ensures SendersOk(u)
  {
  }

  lemma WakeKeepsSenders(s: State, t: Ticket)
    requires Inv(s) && Has(s, t, Drawn)
    ensures SendersOk(SetPhase(s, t, Inserted)) && NotHeld(SetPhase(s, t, Inserted), t)
  {
    forall r | r in s.readers ensures !Holds(s, r, t) {
      assert ReaderOk(s, r);
    }
  }

  lemma EntryKeepsSenders(u: State, t: Ticket)
    requires SendersOk(u) && NotHeld(u, t)
    requires Has(u, t, Inserted) && u.tasks[t].slot.None?
    ensures u.tasks[t].purpose.Check? ==> SendersOk(u.(pending := u.pending[u.tasks[t].id := t]))
    ensures u.tasks[t].purpose.Ask? ==> SendersOk(u.(pendingJson := u.pendingJson[u.tasks[t].id := t]))
  {
  }

  lemma InsertKeepsSenders(s: State, t: Ticket)
    requires Inv(s) && Has(s, t, Drawn)
    ensures SendersOk(InsertWaiter(s, t))
  {
    WakeKeepsSenders(s, t);
    assert TaskOk(s.tasks[t], t, s.signed);
    EntryKeepsSenders(SetPhase(s, t, Inserted), t);
  }

  lemma TakeJsonKeepsSenders(s: State, r: Connection, id: nat, content: Content)
    requires Inv(s) && r !in s.readers && id in s.pendingJson && content.Replied?
    ensures SendersOk(s.(pendingJson := s.pendingJson - {id},
        readers := s.readers[r := Carrying(s.pendingJson[id], content)]))
  {
    assert EntryOk(s, s.pendingJson[id], id, false);
  }

  lemma LookUpJsonKeepsSenders(s: State, r: Connection, reading: Reading)
    requires Inv(s) && r !in s.readers
    ensures SendersOk(LookUpJsonWaiter(s, r, reading))
  {
    if reading.id.Some? && reading.id.value in s.pendingJson {
      TakeJsonKeepsSenders(s, r, reading.id.value, Replied(reading.value));
    } else {
      var u := s.(readers := s.readers[r := Missed(reading)]);
      assert LookUpJsonWaiter(s, r, reading) == u;
    }
  }

  lemma LookUpKeepsSenders(s: State, r: Connection, reading: Reading)
    requires Inv(s) && r in s.readers && s.readers[r].Missed?
    ensures SendersOk(LookUpWaiter(s, r, reading))
  {
  }

  lemma HandOverKeepsSenders(s: State, r: Connection)
    requires Inv(s) && r in s.readers && s.readers[r].Carrying?
    ensures SendersOk(Deposit(s, r))
  {
  }

  lemma MoveKeepsSenders(s: State, t: Ticket, phase: Phase)
    requires SendersOk(s) && t < |s.tasks| && phase != Drawn
    requires Listening(phase) ==> Listening(s.tasks[t].phase)
    ensures SendersOk(SetPhase(s, t, phase))
  {
    StayKeepsSenders(s, SetPhase(s, t, phase));
  }

  lemma DropKeepsSenders(u: State, id: nat)
    requires SendersOk(u)
    ensures SendersOk(u.(pending := u.pending - {id})) && SendersOk(u.(pendingJson := u.pendingJson - {id}))
  {
    StayKeepsSenders(u, u.(pending := u.pending - {id}));
    StayKeepsSenders(u, u.(pendingJson := u.pendingJson - {id}));
  }

  lemma RemoveKeepsSenders(s: State, t: Ticket)
    requires SendersOk(s) && t < |s.tasks| && s.tasks[t].phase.Leaving?
    ensures SendersOk(RemoveWaiter(s, t))
  {
    var phase := Done(Failed(s.tasks[t].phase.failure));
    MoveKeepsSenders(s, t, phase);
    DropKeepsSenders(SetPhase(s, t, phase), s.tasks[t].id);
  }

  lemma StartKeepsSenders(s: State, purpose: Purpose)
    requires SendersOk(s)
    ensures SendersOk(Start(s, purpose))
  {
    StayKeepsSenders(s, Start(s, purpose));
  }

  lemma StepKeepsSenders(s: State, step: Step)
    requires Inv(s) && Enabled(s, step)
    ensures SendersOk(Apply(s, step))
  {
    match step
    case StartVerification(key, challenge, user, host, action, detail) =>
      StartKeepsSenders(s, Check(key, Request(IdOf(|s.tasks|), challenge, user, host, action, detail)));
    case StartAsk => StartKeepsSenders(s, Ask);
    case Insert(t) => InsertKeepsSenders(s, t);
    case Remove(t) => RemoveKeepsSenders(s, t);
    case LookUpJson(r, reading) => LookUpJsonKeepsSenders(s, r, reading);
    case LookUp(r) => LookUpKeepsSenders(s, r, s.readers[r].reading);
    case HandOver(r) => HandOverKeepsSenders(s, r);
    case LoseChallenge(t) => MoveKeepsSenders(s, t, Done(Failed(NoChallenge)));
    case Send(t, ok) => MoveKeepsSenders(s, t, if ok then Waiting else Leaving(NoPhone));
    case GiveUp(t) => MoveKeepsSenders(s, t, Leaving(TimedOut));
    case Abandon(t) => MoveKeepsSenders(s, t, Leaving(Abandoned));
    case Conclude(t) => MoveKeepsSenders(s, t, Done(VerdictOn(s, s.tasks[t])));
    case Adopt(_) =>
    case Sign(_, _, _) =>
  }

  lemma StepKeepsInv(s: State, step: Step)
    requires Inv(s) && Enabled(s, step)
    ensures Inv(Apply(s, step))
  {
    StepKeepsTasksOk(s, step);
    StepKeepsSenders(s, step);
  }

  lemma {:induction false} RunKeepsInv(s: State, steps: seq<Step>)
    requires Inv(s) && Exec(s, steps).Some?
    ensures Inv(Exec(s, steps).value)
    decreases |steps|
  {
    if steps != [] {
      StepKeepsInv(s, steps[0]);
      RunKeepsInv(Apply(s, steps[0]), steps[1..]);
    }
  }

  lemma ReachableInv(s: State)
    requires Reachable(s)
    ensures Inv(s)
  {
    var steps :| Exec(INITIAL, steps) == Some(s);
    RunKeepsInv(INITIAL, steps);
  }

  lemma ExecCons(s: State, step: Step, steps: seq<Step>)
    requires Enabled(s, step)
    ensures Exec(s, [step] + steps) == Exec(Apply(s, step), steps)
  {
    assert ([step] + steps)[1..] == steps;
  }

  /** One step leads there. */
  predicate Leads(s: State, step: Step, u: State) {
    Enabled(s, step) && Apply(s, step) == u
  }

  lemma ExecOne(s: State, a: Step, s1: State)
    requires Leads(s, a, s1)
    ensures Exec(s, [a]) == Some(s1)
  {
    ExecCons(s, a, []);
    assert [a] + [] == [a];
  }

  lemma ExecTwo(s: State, a: Step, s1: State, b: Step, s2: State)
    requires Leads(s, a, s1) && Leads(s1, b, s2)
    ensures Exec(s, [a, b]) == Some(s2)
  {
    ExecCons(s, a, [b]);
    ExecOne(s1, b, s2);
    assert [a] + [b] == [a, b];
  }

  lemma ExecThree(s: State, a: Step, s1: State, b: Step, s2: State, c: Step, s3: State)
    requires Leads(s, a, s1) && Leads(s1, b, s2) && Leads(s2, c, s3)
    ensures Exec(s, [a, b, c]) == Some(s3)
  {
    ExecCons(s, a, [b, c]);
    ExecTwo(s1, b, s2, c, s3);
    assert [a] + [b, c] == [a, b, c];
  }

  lemma {:induction false} ExecAppend(s: State, a: seq<Step>, b: seq<Step>)
    requires Exec(s, a).Some?
    ensures Exec(s, a + b) == Exec(Exec(s, a).value, b)
    decreases |a|
  {
    if a == [] {
      assert a + b == b;
    } else {
      assert (a + b)[1..] == a[1..] + b;
      ExecAppend(Apply(s, a[0]), a[1..], b);
    }
  }

  lemma ReachableSteps(s: State, steps: seq<Step>)
    requires Reachable(s) && Exec(s, steps).Some?
    ensures Reachable(Exec(s, steps).value)
  {
    var before :| Exec(INITIAL, before) == Some(s);
    ExecAppend(INITIAL, before, steps);
  }

  lemma ReachableStep(s: State, step: Step)
    requires Reachable(s) && Enabled(s, step)
    ensures Reachable(Apply(s, step))
  {
    ExecCons(s, step, []);
    ReachableSteps(s, [step] + []);
  }

  // ---- The connection written to ----------------------------------------------------------

  /** The connection adopted last, read off the steps alone. */
  function NewestConnection(steps: seq<Step>): Option<Connection> {
    if steps == [] then None
    else if steps[|steps| - 1].Adopt? then Some(steps[|steps| - 1].connection)
    else NewestConnection(steps[..|steps| - 1])
  }

  lemma OthersKeepOutbound(s: State, step: Step)
    requires Enabled(s, step)
    ensures Apply(s, step).outbound == if step.Adopt? then Some(step.connection) else s.outbound
  {
  }

  lemma ExecLast(s: State, steps: seq<Step>)
    requires Exec(s, steps).Some? && steps != []
    ensures var before := Exec(s, steps[..|steps| - 1]);
      before.Some? && Leads(before.value, steps[|steps| - 1], Exec(s, steps).value)
    decreases |steps|
  {
    var n := |steps| - 1;
    if n == 0 {
      assert steps[..0] == [] && steps[1..] == [];
    } else {
      ExecLast(Apply(s, steps[0]), steps[1..]);
      assert steps[..n][1..] == steps[1..][..n - 1];
    }
  }

  /** In every run requests go to the connection that was adopted last, and to none before that. */
  lemma {:induction false} OutboundIsNewest(steps: seq<Step>, s: State)
    requires Exec(INITIAL, steps) == Some(s)
    ensures s.outbound == NewestConnection(steps)
    decreases |steps|
  {
    if steps != [] {
      ExecLast(INITIAL, steps);
      var before := Exec(INITIAL, steps[..|steps| - 1]).value;
      OutboundIsNewest(steps[..|steps| - 1], before);
      OthersKeepOutbound(before, steps[|steps| - 1]);
    }
  }

  /** So a request is written only to the newest connection, however often the phone has come back. */
  lemma SentToNewest(steps: seq<Step>, s: State, t: Ticket)
    requires Exec(INITIAL, steps) == Some(s) && Has(s, t, Inserted)
    ensures Enabled(s, Send(t, true)) <==> NewestConnection(steps).Some?
    ensures s.outbound == NewestConnection(steps)
  {
    OutboundIsNewest(steps, s);
  }

  // ---- What a task keeps -------------------------------------------------------------------

  /** What a task keeps through any step: its id, its key and its line, the one answer it was
      given, and its verdict. */
  predicate Keeps(before: Task, after: Task) {
    && after.id == before.id && after.purpose == before.purpose
    && (before.slot.Some? ==> after.slot == before.slot)
    && (before.phase.Done? ==> after == before)
  }

  lemma StepKeepsTask(s: State, step: Step, t: Ticket)
    requires Inv(s) && Enabled(s, step) && t < |s.tasks|
    ensures t < |Apply(s, step).tasks| && Keeps(s.tasks[t], Apply(s, step).tasks[t])
  {
    match step
    case HandOver(r) => DepositKeepsTask(s, r, t);
    case Insert(v) => assert InsertWaiter(s, v).tasks == SetPhase(s, v, Inserted).tasks;
    case Remove(v) => assert RemoveWaiter(s, v).tasks == SetPhase(s, v, Done(Failed(s.tasks[v].phase.failure))).tasks;
    case _ =>
  }

  lemma DepositKeepsTask(s: State, r: Connection, t: Ticket)
    requires Inv(s) && r in s.readers && s.readers[r].Carrying? && t < |s.tasks|
    ensures t < |Deposit(s, r).tasks| && Keeps(s.tasks[t], Deposit(s, r).tasks[t])
  {
    assert ReaderOk(s, r);
  }

  /** A waiter is resolved at most once and a verdict is final: over any run, a task keeps the
      key and line it started with, its answer and its verdict. */
  lemma {:induction false} RunKeepsTask(s: State, steps: seq<Step>, t: Ticket)
    requires Inv(s) && Exec(s, steps).Some? && t < |s.tasks|
    ensures t < |Exec(s, steps).value.tasks| && Keeps(s.tasks[t], Exec(s, steps).value.tasks[t])
    decreases |steps|
  {
    if steps != [] {
      StepKeepsInv(s, steps[0]);
      StepKeepsTask(s, steps[0], t);
      RunKeepsTask(Apply(s, steps[0]), steps[1..], t);
    }
  }

  // ---- Approvals rest on the phone's signatures --------------------------------------------

  predicate IsApproved(s: State, t: Ticket) {
    t < |s.tasks| && s.tasks[t].phase.Done? && s.tasks[t].phase.verdict.Approved?
  }

  /** In every reachable state an approval rests on a signature over that request's own line,
      under the key the verification loaded at its start. */
  lemma ApprovalIsSigned(s: State, t: Ticket)
    requires Reachable(s) && IsApproved(s, t)
    ensures s.tasks[t].purpose.Check?
    ensures var check := s.tasks[t].purpose;
      Verifies(s.signed, check.key, ToLine(check.request), s.tasks[t].phase.verdict.signature)
  {
    ReachableInv(s);
    assert TaskOk(s.tasks[t], t, s.signed);
  }

  /** No signature approves two requests, unless the id counter has gone all the way round
      between them. */
  lemma SignatureApprovesOne(s: State, t: Ticket, u: Ticket)
    requires Reachable(s) && IsApproved(s, t) && IsApproved(s, u)
    requires s.tasks[t].phase.verdict.signature == s.tasks[u].phase.verdict.signature
    ensures t % U64_LIMIT == u % U64_LIMIT
    ensures |s.tasks| <= U64_LIMIT ==> t == u
  {
    ApprovalIsSigned(s, t);
    ApprovalIsSigned(s, u);
    LineDeterminesRequest(s.tasks[t].purpose.request, s.tasks[u].purpose.request);
    ReachableInv(s);
    assert TaskOk(s.tasks[t], t, s.signed) && TaskOk(s.tasks[u], u, s.signed);
    SameIdSameResidue(t, u);
  }

  lemma SameIdSameResidue(t: Ticket, u: Ticket)
    requires IdOf(t) == IdOf(u)
    ensures t % U64_LIMIT == u % U64_LIMIT
    ensures t < U64_LIMIT && u < U64_LIMIT ==> t == u
  {
  }

  /** The line a verification sent, and so the one it is checked against. */
  function LineOf(s: State, t: Ticket): string
    requires t < |s.tasks| && s.tasks[t].purpose.Check?
  {
    ToLine(s.tasks[t].purpose.request)
  }

  function SignedLines(s: State): set<string> {
    set p | p in s.signed.Values :: p.1
  }

  lemma ApprovedLineSigned(s: State, t: Ticket)
    requires Reachable(s) && IsApproved(s, t)
    ensures s.tasks[t].purpose.Check? && LineOf(s, t) in SignedLines(s)
  {
    ApprovalIsSigned(s, t);
    var signature := s.tasks[t].phase.verdict.signature;
    assert s.signed[signature] in s.signed.Values;
  }

  /** Two approvals rest on two different lines, unless the id counter has gone all the way round
      between them. */
  lemma ApprovalsHaveOwnLines(s: State, t: Ticket, u: Ticket)
    requires Reachable(s) && IsApproved(s, t) && IsApproved(s, u)
    ensures s.tasks[t].purpose.Check? && s.tasks[u].purpose.Check?
    ensures LineOf(s, t) in SignedLines(s) && LineOf(s, u) in SignedLines(s)
    ensures LineOf(s, t) == LineOf(s, u) ==> t % U64_LIMIT == u % U64_LIMIT
    ensures |s.tasks| <= U64_LIMIT && t != u ==> LineOf(s, t) != LineOf(s, u)
  {
    ApprovedLineSigned(s, t);
    ApprovedLineSigned(s, u);
    if LineOf(s, t) == LineOf(s, u) {
      LineDeterminesRequest(s.tasks[t].purpose.request, s.tasks[u].purpose.request);
      ReachableInv(s);
      assert TaskOk(s.tasks[t], t, s.signed) && TaskOk(s.tasks[u], u, s.signed);
      SameIdSameResidue(t, u);
    }
  }

  function ApprovedTickets(s: State): set<Ticket> {
    set t: Ticket | 0 <= t < |s.tasks| && IsApproved(s, t)
  }

  predicate AllChecks(s: State, ts: set<Ticket>) {
    forall t :: t in ts ==> t < |s.tasks| && s.tasks[t].purpose.Check?
  }

  lemma {:induction false} InjectionBounds(s: State, ts: set<Ticket>, lines: set<string>)
    requires AllChecks(s, ts) && forall t :: t in ts ==> LineOf(s, t) in lines
    requires forall t, u :: t in ts && u in ts && t != u ==> LineOf(s, t) != LineOf(s, u)
    ensures |ts| <= |lines|
  {
    if t :| t in ts {
      InjectionBounds(s, ts - {t}, lines - {LineOf(s, t)});
    }
  }

  /** So approvals never outnumber the distinct lines that the phones have signed. */
  lemma ApprovalsAreCounted(s: State)
    requires Reachable(s) && |s.tasks| <= U64_LIMIT
    ensures |ApprovedTickets(s)| <= |SignedLines(s)|
  {
    var ts := ApprovedTickets(s);
    forall t | t in ts ensures t < |s.tasks| && s.tasks[t].purpose.Check? && LineOf(s, t) in SignedLines(s) {
      ApprovedLineSigned(s, t);
    }
    forall t, u | t in ts && u in ts && t != u ensures LineOf(s, t) != LineOf(s, u) {
      ApprovalsHaveOwnLines(s, t, u);
    }
    InjectionBounds(s, ts, SignedLines(s));
  }

  // ---- The two maps, while ids are unique --------------------------------------------------

  predicate WaiterOk(s: State, t: Ticket)
    requires t < |s.tasks|
  {
    var k := s.tasks[t];
    && (InMap(s, t) ==> k.phase != Drawn && !k.phase.Done? && k.slot.None?)
    && (InMap(s, t) ==> NotHeld(s, t))
    && (Listening(k.phase) && k.slot.None? ==> SenderLives(s, t))
  }

  predicate WaitersOk(s: State) {
    forall t :: 0 <= t < |s.tasks| ==> WaiterOk(s, t)
  }

  lemma DistinctIds(s: State, t: Ticket, u: Ticket)
    requires Inv(s) && |s.tasks| <= U64_LIMIT
    requires t < |s.tasks| && u < |s.tasks| && s.tasks[t].id == s.tasks[u].id
    ensures t == u
  {
    assert TaskOk(s.tasks[t], t, s.signed) && TaskOk(s.tasks[u], u, s.signed);
    SameIdSameResidue(t, u);
  }

  lemma AllIdsDistinct(s: State)
    requires Inv(s) && |s.tasks| <= U64_LIMIT
    ensures forall t, u :: 0 <= t < |s.tasks| && 0 <= u < |s.tasks| && s.tasks[t].id == s.tasks[u].id ==> t == u
  {
    forall t, u | 0 <= t < |s.tasks| && 0 <= u < |s.tasks| && s.tasks[t].id == s.tasks[u].id ensures t == u {
      DistinctIds(s, t, u);
    }
  }

  lemma StayKeepsWaiters(s: State, u: State)
    requires WaitersOk(s) && SendersStay(s, u) && u.pending == s.pending && u.pendingJson == s.pendingJson
    requires forall t :: 0 <= t < |s.tasks| && u.tasks[t].phase.Done? && u.tasks[t] != s.tasks[t] ==> !InMap(s, t)
    requires forall t :: |s.tasks| <= t < |u.tasks| ==> u.tasks[t].phase == Drawn && !InMap(u, t)
    ensures WaitersOk(u)
  {
    forall t | 0 <= t < |u.tasks| ensures WaiterOk(u, t) {
      if t < |s.tasks| {
        assert WaiterOk(s, t);
        if r :| r in s.readers && Holds(s, r, t) { assert Holds(u, r, t); }
      }
    }
  }

  lemma InsertKeepsOthers(s: State, t: Ticket, v: Ticket)
    requires Inv(s) && WaitersOk(s) && |s.tasks| <= U64_LIMIT && Has(s, t, Drawn) && v < |s.tasks| && v != t
    ensures v < |InsertWaiter(s, t).tasks| && WaiterOk(InsertWaiter(s, t), v)
  {
    var u := InsertWaiter(s, t);
    if s.tasks[v].id == s.tasks[t].id { DistinctIds(s, v, t); }
    assert WaiterOk(s, v) && u.tasks[v] == s.tasks[v] && u.readers == s.readers;
    assert InMap(u, v) <==> InMap(s, v);
    if r :| r in s.readers && Holds(s, r, v) { assert Holds(u, r, v); }
  }

  lemma InsertKeepsWaiters(s: State, t: Ticket)
    requires Inv(s) && WaitersOk(s) && |s.tasks| <= U64_LIMIT && Has(s, t, Drawn)
    ensures WaitersOk(InsertWaiter(s, t))
  {
    var u := InsertWaiter(s, t);
    assert TaskOk(s.tasks[t], t, s.signed);
    WakeKeepsSenders(s, t);
    assert NotHeld(u, t) && u.tasks[t] == s.tasks[t].(phase := Inserted);
    forall v | 0 <= v < |u.tasks| ensures WaiterOk(u, v) {
      if v != t { InsertKeepsOthers(s, t, v); }
    }
  }

  lemma RemoveKeepsWaiters(s: State, t: Ticket)
    requires Inv(s) && WaitersOk(s) && |s.tasks| <= U64_LIMIT && t < |s.tasks| && s.tasks[t].phase.Leaving?
    ensures WaitersOk(RemoveWaiter(s, t))
  {
    AllIdsDistinct(s);
    var u := RemoveWaiter(s, t);
    forall v | 0 <= v < |u.tasks| ensures WaiterOk(u, v) {
      assert WaiterOk(s, v);
      if r :| r in s.readers && Holds(s, r, v) { assert Holds(u, r, v); }
    }
  }

  lemma MissKeepsWaiters(s: State, r: Connection, reading: Reading)
    requires WaitersOk(s) && r !in s.readers
    ensures WaitersOk(s.(readers := s.readers[r := Missed(reading)]))
  {
    var u := s.(readers := s.readers[r := Missed(reading)]);
    forall v | 0 <= v < |u.tasks| ensures WaiterOk(u, v) {
      assert WaiterOk(s, v);
      if q :| q in s.readers && Holds(s, q, v) { assert Holds(u, q, v); }
    }
  }

  lemma LookUpJsonKeepsWaiters(s: State, r: Connection, reading: Reading)
    requires Inv(s) && WaitersOk(s) && |s.tasks| <= U64_LIMIT && r !in s.readers
    ensures WaitersOk(LookUpJsonWaiter(s, r, reading))
  {
    if reading.id.None? || reading.id.value !in s.pendingJson {
      MissKeepsWaiters(s, r, reading);
      return;
    }
    AllIdsDistinct(s);
    var u := LookUpJsonWaiter(s, r, reading);
    forall v | 0 <= v < |u.tasks| ensures WaiterOk(u, v) {
      assert WaiterOk(s, v);
      if q :| q in s.readers && Holds(s, q, v) { assert Holds(u, q, v); }
      if InMap(s, v) && !InMap(u, v) { assert Holds(u, r, v); }
    }
  }

  lemma LookUpKeepsWaiters(s: State, r: Connection, reading: Reading)
    requires Inv(s) && WaitersOk(s) && |s.tasks| <= U64_LIMIT && r in s.readers && s.readers[r].Missed?
    ensures WaitersOk(LookUpWaiter(s, r, reading))
  {
    AllIdsDistinct(s);
    var u := LookUpWaiter(s, r, reading);
    forall v | 0 <= v < |u.tasks| ensures WaiterOk(u, v) {
      assert WaiterOk(s, v);
      if q :| q in s.readers && Holds(s, q, v) { assert Holds(u, q, v); }
      if InMap(s, v) && !InMap(u, v) { assert Holds(u, r, v); }
    }
  }

  lemma HandOverKeepsWaiters(s: State, r: Connection)
    requires Inv(s) && WaitersOk(s) && |s.tasks| <= U64_LIMIT && r in s.readers && s.readers[r].Carrying?
    ensures WaitersOk(Deposit(s, r))
  {
    AllIdsDistinct(s);
    var u := Deposit(s, r);
    forall v | 0 <= v < |u.tasks| ensures WaiterOk(u, v) {
      assert WaiterOk(s, v);
      if q :| q in s.readers && q != r && Holds(s, q, v) { assert Holds(u, q, v); }
      assert Holds(s, r, s.readers[r].ticket);
    }
  }

  lemma StartsFresh(s: State, purpose: Purpose)
    requires Inv(s) && |Start(s, purpose).tasks| <= U64_LIMIT
    ensures !InMap(Start(s, purpose), |s.tasks|)
  {
    var u := Start(s, purpose);
    if id :| id in s.pending && id == IdOf(|s.tasks|) { SameIdSameResidue(s.pending[id], |s.tasks|); }
    if id :| id in s.pendingJson && id == IdOf(|s.tasks|) { SameIdSameResidue(s.pendingJson[id], |s.tasks|); }
  }

  lemma StartKeepsWaiters(s: State, purpose: Purpose)
    requires Inv(s) && WaitersOk(s) && |Start(s, purpose).tasks| <= U64_LIMIT
    ensures WaitersOk(Start(s, purpose))
  {
    StartsFresh(s, purpose);
    StayKeepsWaiters(s, Start(s, purpose));
  }

  lemma MoveKeepsWaiters(s: State, t: Ticket, phase: Phase)
    requires WaitersOk(s) && t < |s.tasks| && phase != Drawn
    requires Listening(phase) ==> Listening(s.tasks[t].phase)
    requires phase.Done? ==> !InMap(s, t)
    ensures WaitersOk(SetPhase(s, t, phase))
  {
    StayKeepsWaiters(s, SetPhase(s, t, phase));
  }

  lemma FinishKeepsWaiters(s: State, t: Ticket, verdict: Verdict)
    requires WaitersOk(s) && t < |s.tasks| && (s.tasks[t].phase == Drawn || s.tasks[t].slot.Some?)
    ensures WaitersOk(SetPhase(s, t, Done(verdict)))
  {
    assert WaiterOk(s, t);
    MoveKeepsWaiters(s, t, Done(verdict));
  }

  lemma SameTasksKeepWaiters(s: State, u: State)
    requires WaitersOk(s) && u.tasks == s.tasks
    requires u.pending == s.pending && u.pendingJson == s.pendingJson && u.readers == s.readers
    ensures WaitersOk(u)
  {
    StayKeepsWaiters(s, u);
  }

  lemma PhaseStepKeepsWaiters(s: State, step: Step)
    requires WaitersOk(s) && Enabled(s, step)
    requires step.LoseChallenge? || step.Send? || step.GiveUp? || step.Abandon? || step.Conclude?
    ensures WaitersOk(Apply(s, step))
  {
    match step
    case LoseChallenge(t) => FinishKeepsWaiters(s, t, Failed(NoChallenge));
    case Send(t, ok) => MoveKeepsWaiters(s, t, if ok then Waiting else Leaving(NoPhone));
    case GiveUp(t) => MoveKeepsWaiters(s, t, Leaving(TimedOut));
    case Abandon(t) => MoveKeepsWaiters(s, t, Leaving(Abandoned));
    case Conclude(t) => FinishKeepsWaiters(s, t, VerdictOn(s, s.tasks[t]));
  }

  lemma ReaderStepKeepsWaiters(s: State, step: Step)
    requires Inv(s) && WaitersOk(s) && Enabled(s, step) && |s.tasks| <= U64_LIMIT
    requires step.LookUpJson? || step.LookUp? || step.HandOver?
    ensures WaitersOk(Apply(s, step))
  {
    match step
    case LookUpJson(r, reading) => LookUpJsonKeepsWaiters(s, r, reading);
    case LookUp(r) => LookUpKeepsWaiters(s, r, s.readers[r].reading);
    case HandOver(r) => HandOverKeepsWaiters(s, r);
  }

  lemma MapStepKeepsWaiters(s: State, step: Step)
    requires Inv(s) && WaitersOk(s) && Enabled(s, step) && |s.tasks| <= U64_LIMIT
    requires step.Insert? || step.Remove?
    ensures WaitersOk(Apply(s, step))
  {
    match step
    case Insert(t) => InsertKeepsWaiters(s, t);
    case Remove(t) => RemoveKeepsWaiters(s, t);
  }

  lemma StepKeepsWaiters(s: State, step: Step)
    requires Inv(s) && WaitersOk(s) && Enabled(s, step) && |Apply(s, step).tasks| <= U64_LIMIT
    ensures WaitersOk(Apply(s, step))
  {
    match step
    case StartVerification(key, challenge, user, host, action, detail) =>
      StartKeepsWaiters(s, Check(key, Request(IdOf(|s.tasks|), challenge, user, host, action, detail)));
    case StartAsk => StartKeepsWaiters(s, Ask);
    case Adopt(connection) => SameTasksKeepWaiters(s, s.(outbound := Some(connection)));
    case Sign(signature, key, line) => SameTasksKeepWaiters(s, s.(signed := s.signed[signature := (key, line)]));
    case _ =>
      StepGrows(s, step);
      if step.Insert? || step.Remove? {
        MapStepKeepsWaiters(s, step);
      } else if step.LookUpJson? || step.LookUp? || step.HandOver? {
        ReaderStepKeepsWaiters(s, step);
      } else {
        PhaseStepKeepsWaiters(s, step);
      }
  }

  lemma StepGrows(s: State, step: Step)
    requires Enabled(s, step)
    ensures |s.tasks| <= |Apply(s, step).tasks|
  {
  }

  lemma {:induction false} RunKeepsWaiters(s: State, steps: seq<Step>)
    requires Inv(s) && WaitersOk(s) && Exec(s, steps).Some? && |Exec(s, steps).value.tasks| <= U64_LIMIT
    ensures WaitersOk(Exec(s, steps).value)
    decreases |steps|
  {
    if steps != [] {
      StepKeepsInv(s, steps[0]);
      RunGrows(Apply(s, steps[0]), steps[1..]);
      StepKeepsWaiters(s, steps[0]);
      RunKeepsWaiters(Apply(s, steps[0]), steps[1..]);
    }
  }

  lemma {:induction false} RunGrows(s: State, steps: seq<Step>)
    requires Exec(s, steps).Some?
    ensures |s.tasks| <= |Exec(s, steps).value.tasks|
    decreases |steps|
  {
    if steps != [] {
      StepGrows(s, steps[0]);
      RunGrows(Apply(s, steps[0]), steps[1..]);
    }
  }

  /** Reachable before the id counter has come round to an id again. */
  ghost predicate Normal(s: State) {
    Reachable(s) && |s.tasks| <= U64_LIMIT
  }

  lemma NormalWaiters(s: State)
    requires Normal(s)
    ensures Inv(s) && WaitersOk(s)
  {
    var steps :| Exec(INITIAL, steps) == Some(s);
    RunKeepsInv(INITIAL, steps);
    RunKeepsWaiters(INITIAL, steps);
  }

  predicate BelongsTo(s: State, id: nat, t: Ticket, check: bool) {
    && t < |s.tasks| && s.tasks[t].id == id && s.tasks[t].purpose.Check? == check
    && s.tasks[t].phase != Drawn && !s.tasks[t].phase.Done?
    && id <= |s.tasks| && (id == 0 ==> t == U64_LIMIT - 1)
  }

  lemma EntriesBelong(s: State)
    requires Normal(s)
    ensures forall id :: id in s.pending ==> BelongsTo(s, id, s.pending[id], true)
    ensures forall id :: id in s.pendingJson ==> BelongsTo(s, id, s.pendingJson[id], false)
  {
    NormalWaiters(s);
    forall id | id in s.pending ensures BelongsTo(s, id, s.pending[id], true) {
      assert EntryOk(s, s.pending[id], id, true) && WaiterOk(s, s.pending[id]);
      assert TaskOk(s.tasks[s.pending[id]], s.pending[id], s.signed);
    }
    forall id | id in s.pendingJson ensures BelongsTo(s, id, s.pendingJson[id], false) {
      assert EntryOk(s, s.pendingJson[id], id, false) && WaiterOk(s, s.pendingJson[id]);
      assert TaskOk(s.tasks[s.pendingJson[id]], s.pendingJson[id], s.signed);
    }
  }

  /** The maps never share a key; each key belongs to one unfinished task of the right kind and
      has been drawn; a finished task has its id in neither map. */
  lemma MapsBelongToTasks(s: State)
    requires Normal(s)
    ensures s.pending.Keys !! s.pendingJson.Keys
    ensures forall id :: id in s.pending ==> BelongsTo(s, id, s.pending[id], true)
    ensures forall id :: id in s.pendingJson ==> BelongsTo(s, id, s.pendingJson[id], false)
    ensures forall t, u :: 0 <= t < |s.tasks| && 0 <= u < |s.tasks| && s.tasks[t].id == s.tasks[u].id ==> t == u
    ensures forall t :: 0 <= t < |s.tasks| && s.tasks[t].phase.Done? ==>
      s.tasks[t].id !in s.pending && s.tasks[t].id !in s.pendingJson
  {
    NormalWaiters(s);
    EntriesBelong(s);
    AllIdsDistinct(s);
  }

  /** A sender is never dropped unused, so the "abandoned" branches are dead. */
  lemma NeverAbandoned(s: State, t: Ticket)
    requires Normal(s)
    ensures !Enabled(s, Abandon(t))
  {
    NormalWaiters(s);
    if t < |s.tasks| { assert WaiterOk(s, t); }
  }
}

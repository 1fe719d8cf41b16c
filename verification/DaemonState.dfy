/** The daemon's shared state and the atomic sections of the tasks that share it. `tasks` and
    `readers` are the suspended runs of `run_verification`, `ask_phone` and `deliver`; every
    method is one section between two awaits, and does exactly one step of the protocol. */
module DaemonState {
  import opened Wrappers
  import opened Numbers
  import opened Bytes
  import opened Json
  import opened Protocol
  import opened Routing

  /** The counter keeps up with the number of ids drawn. */
  lemma CounterKeepsUp(t: nat)
    ensures (IdOf(t) + 1) % U64_LIMIT == IdOf(t + 1)
  {
  }

  class Daemon {
    var nextId: nat
    var outbound: Option<Connection>
    var pending: map<nat, Ticket>
    var pendingJson: map<nat, Ticket>
    var tasks: seq<Task>
    var readers: map<Connection, Reader>
    var signed: map<seq<byte>, (string, string)>

    ghost function View(): State
      reads this
    {
      State(pending, pendingJson, outbound, tasks, readers, signed)
    }

    ghost predicate Valid()
      reads this
    {
      nextId == IdOf(|tasks|) && Inv(View())
    }

    constructor ()
      ensures Valid() && View() == INITIAL
    {
      nextId := 1;
      outbound, pending, pendingJson := None, map[], map[];
      tasks, readers, signed := [], map[], map[];
    }

    /** `next_id.fetch_add(1)`: the id before the addition, which wraps. */
    method FetchId() returns (id: nat)
      modifies this`nextId
      ensures id == old(nextId) && nextId == (old(nextId) + 1) % U64_LIMIT
    {
      id := nextId;
      nextId := (nextId + 1) % U64_LIMIT;
    }

    /** The start of `run_verification`, once the active device's key is loaded. */
    method StartVerification(key: string, challenge: seq<byte>, user: string, host: string, action: string,
        detail: string)
      returns (t: Ticket)
      requires Valid()
      modifies this`nextId, this`tasks
      ensures Valid() && t == old(|tasks|)
      ensures View() == Apply(old(View()), Step.StartVerification(key, challenge, user, host, action, detail))
    {
      StepKeepsInv(View(), Step.StartVerification(key, challenge, user, host, action, detail));
      t := |tasks|;
      CounterKeepsUp(t);
      var id := FetchId();
      tasks := tasks + [Task(id, Check(key, Request(id, challenge, user, host, action, detail)), Drawn, None)];
    }

    method StartAsk() returns (t: Ticket)
      requires Valid()
      modifies this`nextId, this`tasks
      ensures Valid() && t == old(|tasks|) && View() == Apply(old(View()), Step.StartAsk)
    {
      StepKeepsInv(View(), Step.StartAsk);
      t := |tasks|;
      CounterKeepsUp(t);
      var id := FetchId();
      tasks := tasks + [Task(id, Ask, Drawn, None)];
    }

    /** The random source failed after the id was drawn. */
    method LoseChallenge(t: Ticket)
      requires Valid() && Enabled(View(), Step.LoseChallenge(t))
      modifies this`tasks
      ensures Valid() && View() == Apply(old(View()), Step.LoseChallenge(t))
    {
      StepKeepsInv(View(), Step.LoseChallenge(t));
      tasks := tasks[t := tasks[t].(phase := Done(Failed(NoChallenge)))];
    }

    method InsertWaiter(t: Ticket)
      requires Valid() && Enabled(View(), Insert(t))
      modifies this`tasks, this`pending, this`pendingJson
      ensures Valid() && View() == Apply(old(View()), Insert(t))
    {
      StepKeepsInv(View(), Insert(t));
      if tasks[t].purpose.Check? {
        pending := pending[tasks[t].id := t];
      } else {
        pendingJson := pendingJson[tasks[t].id := t];
      }
      tasks := tasks[t := tasks[t].(phase := Inserted)];
    }

    /** `send_line`: fails without a phone, and may fail with one; `written` says whether the
        socket took the line. */
    method SendLine(t: Ticket, written: bool) returns (ok: bool)
      requires Valid() && Has(View(), t, Inserted)
      modifies this`tasks
      ensures Valid() && ok == (outbound.Some? && written) && View() == Apply(old(View()), Send(t, ok))
    {
      ok := outbound.Some? && written;
      StepKeepsInv(View(), Send(t, ok));
      tasks := tasks[t := tasks[t].(phase := if ok then Waiting else Leaving(NoPhone))];
    }

    /** The timeout elapses, whether or not an answer has just been deposited. */
    method GiveUp(t: Ticket)
      requires Valid() && Enabled(View(), Step.GiveUp(t))
      modifies this`tasks
      ensures Valid() && View() == Apply(old(View()), Step.GiveUp(t))
    {
      StepKeepsInv(View(), Step.GiveUp(t));
      tasks := tasks[t := tasks[t].(phase := Leaving(TimedOut))];
    }

    method RemoveWaiter(t: Ticket)
      requires Valid() && Enabled(View(), Remove(t))
      modifies this`tasks, this`pending, this`pendingJson
      ensures Valid() && View() == Apply(old(View()), Remove(t))
    {
      StepKeepsInv(View(), Remove(t));
      if tasks[t].purpose.Check? {
        pending := pending - {tasks[t].id};
      } else {
        pendingJson := pendingJson - {tasks[t].id};
      }
      tasks := tasks[t := tasks[t].(phase := Done(Failed(tasks[t].phase.failure)))];
    }

    /** The one-shot channel yields its answer, and it is judged. */
    method Conclude(t: Ticket) returns (verdict: Verdict)
      requires Valid() && Enabled(View(), Step.Conclude(t))
      modifies this`tasks
      ensures Valid() && View() == Apply(old(View()), Step.Conclude(t)) && tasks[t].phase == Done(verdict)
    {
      StepKeepsInv(View(), Step.Conclude(t));
      assert TaskOk(tasks[t], t, signed);
      match tasks[t].slot.value {
        case Answered(Signed(signature)) =>
          var check := tasks[t].purpose;
          verdict := if Verifies(signed, check.key, ToLine(check.request), signature) then Approved(signature)
            else BadSignature;
        case Answered(Refused(reason)) =>
          verdict := Denied(reason);
        case Replied(value) =>
          var denied := AsText(value, "denied");
          verdict := if denied.Some? then Denied(denied.value) else Routing.Received(value);
      }
      tasks := tasks[t := tasks[t].(phase := Done(verdict))];
    }

    /** The first half of `deliver`: a reply with the id of a credential request goes there. */
    method LookUpJson(r: Connection, line: string)
      requires Valid() && r !in readers
      modifies this`readers, this`pendingJson
      ensures Valid() && View() == Apply(old(View()), Step.LookUpJson(r, ReadReply(line)))
    {
      var reading := ReadReply(line);
      StepKeepsInv(View(), Step.LookUpJson(r, reading));
      if reading.id.Some? && reading.id.value in pendingJson {
        var id := reading.id.value;
        readers := readers[r := Carrying(pendingJson[id], Replied(reading.value))];
        pendingJson := pendingJson - {id};
        return;
      }
      readers := readers[r := Missed(reading)];
    }

    /** The second half: any other reply that parses goes to the verification with its id. */
    method LookUp(r: Connection)
      requires Valid() && Enabled(View(), Step.LookUp(r))
      modifies this`readers, this`pending
      ensures Valid() && View() == Apply(old(View()), Step.LookUp(r))
    {
      StepKeepsInv(View(), Step.LookUp(r));
      var response := readers[r].reading.response;
      if response.Some? && response.value.id in pending {
        var id := response.value.id;
        readers := readers[r := Carrying(pending[id], Answered(response.value.answer))];
        pending := pending - {id};
        return;
      }
      readers := readers - {r};
    }

    /** `waiter.send(..).ok()`. */
    method HandOver(r: Connection)
      requires Valid() && Enabled(View(), Step.HandOver(r))
      modifies this`readers, this`tasks
      ensures Valid() && View() == Apply(old(View()), Step.HandOver(r))
    {
      StepKeepsInv(View(), Step.HandOver(r));
      assert ReaderOk(View(), r);
      var t, content := readers[r].ticket, readers[r].content;
      readers := readers - {r};
      if tasks[t].phase == Inserted || tasks[t].phase == Waiting {
        tasks := tasks[t := tasks[t].(slot := Some(content))];
      }
    }

    /** `adopt_phone`: the newest connection is the one written to; waiters are left alone. */
    method AdoptPhone(connection: Connection)
      requires Valid()
      modifies this`outbound
      ensures Valid() && View() == Apply(old(View()), Adopt(connection))
      ensures outbound == Some(connection)
    {
      StepKeepsInv(View(), Adopt(connection));
      outbound := Some(connection);
    }
  }
}

/**
 The Pi extension's command handling: each command id is executed at most once while its receipt is
 remembered, and a message is reported applied only on the evidence of its own input event. Pi
 itself is the environment: whether a surface is usable, whether the agent is idle, whether a call
 throws, and which input events arrive while a send is under way.
 */
module PiBridge {
  import opened Wrappers
  import opened PiReceipts
  import opened PiApplications

  datatype Kind = Prompt | Steer | FollowUp | Interrupt

  datatype Command = Command(commandId: string, kind: Kind, text: Option<string>)

  datatype Environment = Environment(usable: bool, idle: bool, throws: bool, inputs: seq<Input>)

  /** A call into Pi for a command, by when its receipt was inserted. */
  datatype Invocation = Invocation(commandId: string, stamp: int)

  datatype State = State(cache: Cache, work: Work, invoked: seq<Invocation>)

  const START := State(EMPTY, IDLE, [])
  const INPUT_EVIDENCE := "pi_input_event"

  function Behavior(kind: Kind): Option<string> {
    match kind
    case Steer => Some("steer")
    case FollowUp => Some("followUp")
    case _ => None
  }

  function Decide(s: State, commandId: string, receipt: Receipt): State {
    s.(cache := Remember(s.cache, commandId, receipt))
  }

  function Hears(s: State, input: Input): State
    requires Listed(s.work)
  {
    var applied := AppliedBy(s.work, input);
    var t := s.(work := Observe(s.work, input));
    if applied.Some? then Decide(t, applied.value, Applied(INPUT_EVIDENCE)) else t
  }

  /** Inputs arriving while send `t` is under way. */
  function HearsDuring(s: State, inputs: seq<Input>, t: nat): (r: State)
    requires Sending(s.work, t)
    ensures Sending(r.work, t)
  {
    if inputs == [] then s
    else
      var before := HearsDuring(s, inputs[..|inputs| - 1], t);
      ObserveKeepsSending(before.work, inputs[|inputs| - 1], t);
      Hears(before, inputs[|inputs| - 1])
  }

  lemma HearsOneMore(s: State, inputs: seq<Input>, k: nat, t: nat)
    requires Sending(s.work, t) && k < |inputs|
    ensures HearsDuring(s, inputs[..k + 1], t) == Hears(HearsDuring(s, inputs[..k], t), inputs[k])
  {
    assert inputs[..k + 1][..k] == inputs[..k];
  }

  /** The send under way has returned, or thrown. */
  function Settle(s: State, commandId: string, t: nat, throws: bool): (r: State)
    requires Sending(s.work, t)
    ensures Quiet(r.work)
  {
    var last := |s.work.pending| - 1;
    assert Tracks(s.work.pending[last], s.work.sends);
    var returned := if throws then s else Decide(s, commandId, Accepted);
    if s.work.pending[last].observed then
      ConfirmSettles(s.work, t);
      Decide(returned.(work := Confirm(s.work, last)), commandId, Applied(INPUT_EVIDENCE))
    else if !throws then
      AcceptSettles(s.work, t);
      returned.(work := Accept(s.work))
    else
      WithdrawSettles(s.work, t);
      Decide(s.(work := Withdraw(s.work)), commandId, Rejected("pi_rejected"))
  }

  function Deliver(s: State, commandId: string, m: Message, env: Environment): (r: State)
    requires Quiet(s.work)
    ensures Quiet(r.work)
  {
    var t := |s.work.sends|;
    PushStartsSending(s.work, commandId, m);
    Settle(HearsDuring(s.(work := Push(s.work, commandId, m)), env.inputs, t), commandId, t, env.throws)
  }

  function Abort(s: State, commandId: string, throws: bool): State {
    if throws then Decide(s, commandId, Rejected("abort_rejected"))
    else Decide(Decide(s, commandId, Accepted), commandId, Applied("pi_abort_invoked"))
  }

  function Noted(s: State, commandId: string): State {
    s.(invoked := s.invoked + [Invocation(commandId, StampOf(s.cache, commandId))])
  }

  /** Why a command is refused without calling Pi. */
  function Refusal(command: Command, env: Environment): Option<string> {
    if !env.usable then Some("adapter_unavailable")
    else if command.kind.Interrupt? then (if env.idle then Some("agent_not_active") else None)
    else if command.text.None? then Some("invalid_command")
    else if command.kind.Prompt? then (if env.idle then None else Some("agent_busy"))
    else if env.idle then Some("agent_not_active")
    else None
  }

  function Handle(s: State, command: Command, env: Environment): (r: State)
    requires Quiet(s.work)
    ensures Quiet(r.work)
  {
    var id := command.commandId;
    if Holds(s.cache, id) then s.(cache := Resend(s.cache, id))
    else if Refusal(command, env).Some? then Decide(s, id, Rejected(Refusal(command, env).value))
    else if command.kind.Interrupt? then Noted(Abort(s, id, env.throws), id)
    else Noted(Deliver(s, id, Message(command.text.value, Behavior(command.kind)), env), id)
  }

  datatype Event = Commanded(command: Command, env: Environment) | Heard(input: Input) | Stopped

  function Step(s: State, event: Event): (r: State)
    requires Quiet(s.work)
    ensures Quiet(r.work)
  {
    match event
    case Commanded(command, env) => Handle(s, command, env)
    case Heard(input) =>
      ObserveKeepsQuiet(s.work, input);
      Hears(s, input)
    case Stopped =>
      DropSettles(s.work);
      s.(work := Drop(s.work))
  }

  function Run(events: seq<Event>): (s: State)
    ensures Quiet(s.work)
  {
    if events == [] then START else Step(Run(events[..|events| - 1]), events[|events| - 1])
  }

  // ----- what hearing leaves alone

  /** The same send, whatever became of it. */
  predicate SameSend(a: Send, b: Send) {
    a.commandId == b.commandId && a.message == b.message && a.heardBefore == b.heardBefore
  }

  lemma HearsKeepsSend(s: State, input: Input, t: nat)
    requires Listed(s.work) && t < |s.work.sends|
    ensures Listed(Hear(s.work, input)) && |Hears(s, input).work.sends| == |s.work.sends|
    ensures SameSend(Hears(s, input).work.sends[t], s.work.sends[t])
  {
    HearKeepsListed(s.work, input);
    assert forall i | 0 <= i < |s.work.pending| :: Tracks(s.work.pending[i], s.work.sends);
  }

  /** Sends keep their command and message whatever is heard. */
  lemma {:induction false} HearsDuringKeepsSend(s: State, inputs: seq<Input>, t: nat)
    requires Sending(s.work, t)
    ensures SameSend(HearsDuring(s, inputs, t).work.sends[t], s.work.sends[t])
  {
    if inputs != [] {
      HearsDuringKeepsSend(s, inputs[..|inputs| - 1], t);
      HearsKeepsSend(HearsDuring(s, inputs[..|inputs| - 1], t), inputs[|inputs| - 1], t);
    }
  }

  // ----- the extension object

  /** The extension's fields, beside a record of what it has done. */
  class CiaoAgentBridge {
    var receipts: seq<Remembered>
    var pendingApplications: seq<Pending>
    var tickets: nat
    ghost var record: State

    ghost predicate Valid()
      reads this
    {
      && receipts == record.cache.receipts && pendingApplications == record.work.pending
      && tickets == |record.work.sends|
    }

    constructor ()
      ensures Valid() && record == START
    {
      receipts, pendingApplications, tickets, record := [], [], 0, START;
    }

    method RememberAndSend(commandId: string, receipt: Receipt)
      requires Valid()
      modifies this
      ensures Valid() && record == Decide(old(record), commandId, receipt)
    {
      var i := Find(receipts, commandId);
      if i == |receipts| && |receipts| >= MAX_RECEIPTS {
        receipts := receipts[1..];
        i := |receipts|;
      }
      var remembered := Remembered(commandId, receipt);
      receipts := if i < |receipts| then receipts[i := remembered] else receipts + [remembered];
      record := Decide(record, commandId, receipt);
    }

    method ApplyPending(i: nat)
      requires Valid() && i < |pendingApplications|
      requires Listed(record.work) && pendingApplications[i].observed
      modifies this
      ensures Tracks(old(record.work.pending[i]), old(record.work.sends))
      ensures Valid()
      ensures record == Decide(old(record).(work := Confirm(old(record.work), i)),
                               old(pendingApplications[i].commandId), Applied(INPUT_EVIDENCE))
    {
      var pending := pendingApplications[i];
      assert Tracks(pending, record.work.sends);
      pendingApplications := pendingApplications[..i] + pendingApplications[i + 1..];
      record := record.(work := Confirm(record.work, i));
      RememberAndSend(pending.commandId, Applied(INPUT_EVIDENCE));
    }

    method FindPending(m: Message) returns (i: nat)
      ensures i == Match(pendingApplications, m)
    {
      i := 0;
      assert pendingApplications[0..] == pendingApplications;
      while i < |pendingApplications|
        invariant i <= |pendingApplications|
        invariant i + Match(pendingApplications[i..], m) == Match(pendingApplications, m)
      {
        if !pendingApplications[i].observed && pendingApplications[i].message == m {
          return;
        }
        assert pendingApplications[i..][1..] == pendingApplications[i + 1..];
        i := i + 1;
      }
    }

    method ObserveInput(input: Input)
      requires Valid() && Listed(record.work)
      modifies this
      ensures Valid() && record == Hears(old(record), input)
    {
      ghost var heard := Hear(record.work, input);
      HearKeepsListed(record.work, input);
      if input.source != "extension" {
        record := record.(work := heard);
        return;
      }
      var i := FindPending(input.message);
      if i == |pendingApplications| {
        record := record.(work := heard);
        return;
      }
      pendingApplications := pendingApplications[i := pendingApplications[i].(observed := true)];
      record := record.(work := heard);
      if pendingApplications[i].accepted {
        ApplyPending(i);
      }
    }

    /** The pending message is handed to Pi; the inputs in `env` arrive before the call returns or throws. */
    method SendUserMessage(env: Environment, ghost t: nat)
      requires Valid() && Sending(record.work, t)
      modifies this
      ensures Valid() && record == HearsDuring(old(record), env.inputs, t)
    {
      var k := 0;
      while k < |env.inputs|
        invariant k <= |env.inputs| && Valid()
        invariant record == HearsDuring(old(record), env.inputs[..k], t)
      {
        ObserveInput(env.inputs[k]);
        HearsOneMore(old(record), env.inputs, k, t);
        k := k + 1;
      }
      assert env.inputs[..k] == env.inputs;
    }

    method Returned(commandId: string, throws: bool, ghost t: nat)
      requires Valid() && Sending(record.work, t) && record.work.sends[t].commandId == commandId
      modifies this
      ensures Valid() && record == Settle(old(record), commandId, t, throws)
    {
      var last := |pendingApplications| - 1;
      assert Tracks(pendingApplications[last], record.work.sends);
      if !throws {
        RememberAndSend(commandId, Accepted);
        if pendingApplications[last].observed {
          ApplyPending(last);
        } else {
          pendingApplications := pendingApplications[last := pendingApplications[last].(accepted := true)];
          record := record.(work := Accept(record.work));
        }
      } else if pendingApplications[last].observed {
        ApplyPending(last);
      } else {
        pendingApplications := pendingApplications[..last];
        record := record.(work := Withdraw(record.work));
        RememberAndSend(commandId, Rejected("pi_rejected"));
      }
    }

    method DeliverMessage(commandId: string, m: Message, env: Environment)
      requires Valid() && Quiet(record.work)
      modifies this
      ensures Valid() && record == Deliver(old(record), commandId, m, env)
    {
      ghost var t := tickets;
      PushStartsSending(record.work, commandId, m);
      pendingApplications := pendingApplications + [Pending(commandId, m, tickets, false, false)];
      tickets := tickets + 1;
      record := record.(work := Push(record.work, commandId, m));
      HearsDuringKeepsSend(record, env.inputs, t);
      SendUserMessage(env, t);
      Returned(commandId, env.throws, t);
    }

    method AbortRun(commandId: string, throws: bool)
      requires Valid()
      modifies this
      ensures Valid() && record == Abort(old(record), commandId, throws)
    {
      if throws {
        RememberAndSend(commandId, Rejected("abort_rejected"));
      } else {
        RememberAndSend(commandId, Accepted);
        RememberAndSend(commandId, Applied("pi_abort_invoked"));
      }
    }

    method HandleCommand(command: Command, env: Environment)
      requires Valid() && Quiet(record.work)
      modifies this
      ensures Valid() && record == Handle(old(record), command, env) && Quiet(record.work)
    {
      var id := command.commandId;
      if Find(receipts, id) < |receipts| {
        record := record.(cache := Resend(record.cache, id));
        return;
      }
      if !env.usable {
        RememberAndSend(id, Rejected("adapter_unavailable"));
      } else if command.kind.Interrupt? {
        if env.idle {
          RememberAndSend(id, Rejected("agent_not_active"));
          return;
        }
        AbortRun(id, env.throws);
        record := Noted(record, id);
      } else if command.text.None? {
        RememberAndSend(id, Rejected("invalid_command"));
      } else if command.kind.Prompt? && !env.idle {
        RememberAndSend(id, Rejected("agent_busy"));
      } else if !command.kind.Prompt? && env.idle {
        RememberAndSend(id, Rejected("agent_not_active"));
      } else {
        DeliverMessage(id, Message(command.text.value, Behavior(command.kind)), env);
        record := Noted(record, id);
      }
    }

    method Stop()
      requires Valid()
      modifies this
      ensures Valid() && record == old(record).(work := Drop(old(record.work)))
    {
      pendingApplications := [];
      record := record.(work := Drop(record.work));
    }
  }
}

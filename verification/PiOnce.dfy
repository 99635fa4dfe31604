/**
 Over every run of the Pi extension: a command is executed at most once while its receipt is
 remembered, exactly when it is executed at all, and a run in which a forgotten one runs again.
 */
module PiOnce {
  import opened Wrappers
  import opened PiReceipts
  import opened PiApplications
  import opened PiBridge

  /** From a state with a sound cache, receipts were decided and keys only inserted. */
  ghost predicate Extends(s: State, r: State) {
    Orderly(r.cache) && s.cache.inserted <= r.cache.inserted && r.invoked == s.invoked
  }

  lemma DecideExtends(s: State, commandId: string, receipt: Receipt)
    requires Orderly(s.cache)
    ensures Extends(s, Decide(s, commandId, receipt)) && Holds(Decide(s, commandId, receipt).cache, commandId)
  {
    RememberKeepsOrderly(s.cache, commandId, receipt);
  }

  lemma HearsExtends(s: State, input: Input)
    requires Orderly(s.cache) && Listed(s.work)
    ensures Extends(s, Hears(s, input))
  {
    var applied := AppliedBy(s.work, input);
    if applied.Some? {
      DecideExtends(s.(work := Observe(s.work, input)), applied.value, Applied(INPUT_EVIDENCE));
    }
  }

  lemma {:induction false} HearsDuringExtends(s: State, inputs: seq<Input>, t: nat)
    requires Orderly(s.cache) && Sending(s.work, t)
    ensures Extends(s, HearsDuring(s, inputs, t))
  {
    if inputs != [] {
      var front := inputs[..|inputs| - 1];
      HearsDuringExtends(s, front, t);
      HearsExtends(HearsDuring(s, front, t), inputs[|inputs| - 1]);
    }
  }

  lemma SettleExtends(s: State, commandId: string, t: nat, throws: bool)
    requires Orderly(s.cache) && Sending(s.work, t)
    ensures Extends(s, Settle(s, commandId, t, throws)) && Holds(Settle(s, commandId, t, throws).cache, commandId)
  {
    var returned := Decide(s, commandId, Accepted);
    DecideExtends(s, commandId, Accepted);
    DecideExtends(s, commandId, Applied(INPUT_EVIDENCE));
    DecideExtends(returned, commandId, Applied(INPUT_EVIDENCE));
    DecideExtends(s, commandId, Rejected("pi_rejected"));
  }

  lemma DeliverExtends(s: State, commandId: string, m: Message, env: Environment)
    requires Orderly(s.cache) && Quiet(s.work)
    ensures var r := Deliver(s, commandId, m, env); Extends(s, r) && Holds(r.cache, commandId)
  {
    var t := |s.work.sends|;
    PushStartsSending(s.work, commandId, m);
    var pushed := s.(work := Push(s.work, commandId, m));
    HearsDuringExtends(pushed, env.inputs, t);
    SettleExtends(HearsDuring(pushed, env.inputs, t), commandId, t, env.throws);
  }

  lemma AbortExtends(s: State, commandId: string, throws: bool)
    requires Orderly(s.cache)
    ensures var r := Abort(s, commandId, throws); Extends(s, r) && Holds(r.cache, commandId)
  {
    DecideExtends(s, commandId, Rejected("abort_rejected"));
    DecideExtends(s, commandId, Accepted);
    DecideExtends(Decide(s, commandId, Accepted), commandId, Applied("pi_abort_invoked"));
  }

  ghost predicate Stamped(s: State, i: nat)
    requires i < |s.invoked|
  {
    && 0 <= s.invoked[i].stamp < |s.cache.inserted|
    && s.cache.inserted[s.invoked[i].stamp] == s.invoked[i].commandId
  }

  /** Every call into Pi left a receipt, and a repeat came only after 128 newer ones. */
  ghost predicate Once(s: State) {
    && Orderly(s.cache)
    && (forall i | 0 <= i < |s.invoked| :: Stamped(s, i))
    && (forall i, j | 0 <= i < j < |s.invoked| && s.invoked[i].commandId == s.invoked[j].commandId ::
          s.invoked[i].stamp + MAX_RECEIPTS < s.invoked[j].stamp)
  }

  lemma ExtendsKeepsOnce(s: State, r: State)
    requires Once(s) && Extends(s, r)
    ensures Once(r)
  {
    forall i | 0 <= i < |r.invoked| ensures Stamped(r, i) {
      assert Stamped(s, i);
    }
  }

  /** A call for a command whose receipt was not held comes at least 128 insertions after the last. */
  lemma NotedKeepsOnce(s: State, r: State, commandId: string)
    requires Once(s) && Extends(s, r)
    requires !Holds(s.cache, commandId) && Holds(r.cache, commandId)
    ensures Once(Noted(r, commandId))
  {
    var n := Noted(r, commandId);
    HeldExactly(s.cache, commandId);
    HeldExactly(r.cache, commandId);
    NewlyHeldIsStampedLater(s.cache, r.cache, commandId);
    forall i | 0 <= i < |n.invoked| ensures Stamped(n, i) {
      if i < |s.invoked| {
        assert Stamped(s, i);
      }
    }
    forall i | 0 <= i < |s.invoked| && s.invoked[i].commandId == commandId
      ensures s.invoked[i].stamp + MAX_RECEIPTS < StampOf(r.cache, commandId)
    {
      assert Stamped(s, i);
    }
  }

  lemma HandleKeepsOnce(s: State, command: Command, env: Environment)
    requires Once(s) && Quiet(s.work)
    ensures Once(Handle(s, command, env))
  {
    var id := command.commandId;
    if Holds(s.cache, id) {
      ResendRepeatsTheLatest(s.cache, id);
      ExtendsKeepsOnce(s, s.(cache := Resend(s.cache, id)));
    } else if Refusal(command, env).Some? {
      DecideExtends(s, id, Rejected(Refusal(command, env).value));
      ExtendsKeepsOnce(s, Decide(s, id, Rejected(Refusal(command, env).value)));
    } else if command.kind.Interrupt? {
      AbortExtends(s, id, env.throws);
      NotedKeepsOnce(s, Abort(s, id, env.throws), id);
    } else {
      var m := Message(command.text.value, Behavior(command.kind));
      DeliverExtends(s, id, m, env);
      NotedKeepsOnce(s, Deliver(s, id, m, env), id);
    }
  }

  lemma {:induction false} RunKeepsOnce(events: seq<Event>)
    ensures Once(Run(events))
  {
    if events != [] {
      var s := Run(events[..|events| - 1]);
      RunKeepsOnce(events[..|events| - 1]);
      match events[|events| - 1] {
        case Commanded(command, env) =>
          HandleKeepsOnce(s, command, env);
        case Heard(input) =>
          HearsExtends(s, input);
          ExtendsKeepsOnce(s, Run(events));
        case Stopped =>
          ExtendsKeepsOnce(s, Run(events));
      }
    }
  }

  /** Over every run, Pi is called twice for one command only when 128 receipts newer than its own were inserted. */
  lemma CommandsRunAtMostOnceWhileRemembered(events: seq<Event>, i: nat, j: nat)
    requires i < j < |Run(events).invoked|
    requires Run(events).invoked[i].commandId == Run(events).invoked[j].commandId
    ensures Run(events).invoked[i].stamp + MAX_RECEIPTS < Run(events).invoked[j].stamp < |Run(events).cache.inserted|
  {
    RunKeepsOnce(events);
    assert Stamped(Run(events), j);
  }

  /** A retry of a remembered command calls nothing and repeats the latest receipt, whatever Pi is doing. */
  lemma RetryRepeatsTheReceipt(events: seq<Event>, command: Command, env: Environment)
    requires Holds(Run(events).cache, command.commandId)
    ensures var s, r := Run(events), Run(events + [Commanded(command, env)]);
            var latest := Latest(s.cache.decided, command.commandId);
            && r.invoked == s.invoked && r.work == s.work && r.cache.decided == s.cache.decided
            && latest.Some? && r.cache.wire == s.cache.wire + [Remembered(command.commandId, latest.value)]
  {
    var more := events + [Commanded(command, env)];
    assert more[..|more| - 1] == events;
    RunKeepsOnce(events);
    ResendRepeatsTheLatest(Run(events).cache, command.commandId);
  }

  /** The call made for a command, by when its receipt was inserted. */
  function CallFor(command: Command, after: State): Invocation {
    Invocation(command.commandId, StampOf(after.cache, command.commandId))
  }

  /**
   What Pi is called for: an interrupt of a busy agent, a prompt with a text to an idle one, and a steer or a
   follow-up with a text to a busy one.
   */
  predicate Acceptable(command: Command, env: Environment) {
    && env.usable
    && match command.kind
       case Interrupt => !env.idle
       case Prompt => command.text.Some? && env.idle
       case Steer => command.text.Some? && !env.idle
       case FollowUp => command.text.Some? && !env.idle
  }

  lemma HandleCalls(s: State, command: Command, env: Environment)
    requires Orderly(s.cache) && Quiet(s.work)
    ensures Handle(s, command, env).invoked ==
            s.invoked + if !Holds(s.cache, command.commandId) && Acceptable(command, env)
                        then [CallFor(command, Handle(s, command, env))] else []
  {
    var id := command.commandId;
    if !Holds(s.cache, id) && Acceptable(command, env) {
      if command.kind.Interrupt? {
        AbortExtends(s, id, env.throws);
      } else {
        DeliverExtends(s, id, Message(command.text.value, Behavior(command.kind)), env);
      }
    }
  }

  /** Pi is called for a command exactly when it is acceptable and its receipt is not among the newest 128. */
  lemma PiIsCalledExactlyWhen(events: seq<Event>, command: Command, env: Environment)
    ensures var s, r := Run(events), Run(events + [Commanded(command, env)]);
            var keys := s.cache.inserted;
            var held := exists p :: 0 <= p < |keys| && |keys| - MAX_RECEIPTS <= p && keys[p] == command.commandId;
            r.invoked == s.invoked + if !held && Acceptable(command, env) then [CallFor(command, r)] else []
  {
    var more := events + [Commanded(command, env)];
    assert more[..|more| - 1] == events;
    RunKeepsOnce(events);
    HeldExactly(Run(events).cache, command.commandId);
    HandleCalls(Run(events), command, env);
  }

  // ----- a forgotten command runs again

  /** A prompt to an idle agent that Pi takes without a word. */
  function Prompted(commandId: string, text: string): Event {
    Commanded(Command(commandId, Prompt, Some(text)), Environment(true, true, false, []))
  }

  /** A prompt that arrives while Pi cannot be reached. */
  function TurnedAway(commandId: string): Event {
    Commanded(Command(commandId, Prompt, Some("")), Environment(false, true, false, []))
  }

  function AllTurnedAway(ids: seq<string>): seq<Event> {
    if ids == [] then [] else AllTurnedAway(ids[..|ids| - 1]) + [TurnedAway(ids[|ids| - 1])]
  }

  /** These keys were inserted and nothing was called. */
  ghost predicate OnlyInserted(s: State, r: State, ids: seq<string>) {
    r.cache.inserted == s.cache.inserted + ids && r.invoked == s.invoked
  }

  lemma InsertedOneMore(s: State, m: State, r: State, front: seq<string>, last: string)
    requires OnlyInserted(s, m, front) && OnlyInserted(m, r, [last])
    ensures OnlyInserted(s, r, front + [last])
  {
  }

  /** A command refused for the first time inserts its receipt and calls nothing. */
  lemma TurnedAwayInserts(events: seq<Event>, id: string)
    requires id !in Run(events).cache.inserted
    ensures OnlyInserted(Run(events), Run(events + [TurnedAway(id)]), [id])
  {
    var more := events + [TurnedAway(id)];
    assert more[..|more| - 1] == events;
    RunKeepsOnce(events);
    HeldExactly(Run(events).cache, id);
  }

  ghost predicate InsertsWhenTurnedAway(run: seq<Event> -> State, events: seq<Event>, id: string) {
    id !in run(events).cache.inserted ==> OnlyInserted(run(events), run(events + [TurnedAway(id)]), [id])
  }

  /** So with any number of commands, for whatever runs events that way. */
  lemma {:induction false} AllTurnedAwayInsert(run: seq<Event> -> State, events: seq<Event>, ids: seq<string>)
    requires forall evs, id :: InsertsWhenTurnedAway(run, evs, id)
    requires forall i | 0 <= i < |ids| :: ids[i] !in run(events).cache.inserted
    requires forall i, j | 0 <= i < j < |ids| :: ids[i] != ids[j]
    ensures OnlyInserted(run(events), run(events + AllTurnedAway(ids)), ids)
  {
    if ids == [] {
      assert events + AllTurnedAway(ids) == events;
    } else {
      var front, last := ids[..|ids| - 1], ids[|ids| - 1];
      var mid := events + AllTurnedAway(front);
      AllTurnedAwayInsert(run, events, front);
      assert last !in run(events).cache.inserted + front;
      assert InsertsWhenTurnedAway(run, mid, last);
      assert events + AllTurnedAway(ids) == mid + [TurnedAway(last)];
      assert ids == front + [last];
      InsertedOneMore(run(events), run(mid), run(mid + [TurnedAway(last)]), front, last);
    }
  }

  lemma RunTurnsAway(events: seq<Event>, ids: seq<string>)
    requires forall i | 0 <= i < |ids| :: ids[i] !in Run(events).cache.inserted
    requires forall i, j | 0 <= i < j < |ids| :: ids[i] != ids[j]
    ensures OnlyInserted(Run(events), Run(events + AllTurnedAway(ids)), ids)
  {
    forall evs, id ensures InsertsWhenTurnedAway(Run, evs, id) {
      if id !in Run(evs).cache.inserted {
        TurnedAwayInserts(evs, id);
      }
    }
    AllTurnedAwayInsert(Run, events, ids);
  }

  /** A message Pi takes without a word is accepted, and nothing else is decided. */
  lemma SilentDelivery(s: State, id: string, m: Message, env: Environment)
    requires Quiet(s.work) && env.inputs == [] && !env.throws
    ensures Deliver(s, id, m, env).cache == Remember(s.cache, id, Accepted)
  {
    PushStartsSending(s.work, id, m);
  }

  lemma FirstPrompt(id: string, text: string)
    ensures var s := Run([Prompted(id, text)]);
            s.cache.inserted == [id] && |s.invoked| == 1 && s.invoked[0].commandId == id
  {
    var first := Prompted(id, text);
    FirstHandled(id, first.command, first.env);
    RunOfOne(first);
  }

  lemma RunOfOne(event: Event)
    ensures Quiet(IDLE) && Run([event]) == Step(START, event)
  {
    assert [event][..0] == [];
    assert Run([]) == START;
  }

  lemma FirstHandled(id: string, command: Command, env: Environment)
    requires command.commandId == id && command.kind == Prompt && command.text.Some?
    requires env == Environment(true, true, false, [])
    ensures Quiet(START.work)
    ensures var s := Handle(START, command, env);
            s.cache.inserted == [id] && |s.invoked| == 1 && s.invoked[0].commandId == id
  {
    assert Run([]) == START;
    RunKeepsOnce([]);
    HandleCalls(START, command, env);
    SilentDelivery(START, id, Message(command.text.value, None), env);
  }

  /** Sent again after 128 other commands, a command runs a second time. */
  lemma ForgottenCommandRunsAgain(id: string, text: string, ids: seq<string>)
    requires |ids| == MAX_RECEIPTS && id !in ids
    requires forall i, j | 0 <= i < j < |ids| :: ids[i] != ids[j]
    ensures var run := [Prompted(id, text)] + AllTurnedAway(ids) + [Prompted(id, text)];
            |Run(run).invoked| == 2 && Run(run).invoked[0].commandId == Run(run).invoked[1].commandId == id
  {
    var first, again := [Prompted(id, text)], Prompted(id, text);
    FirstPrompt(id, text);
    RunTurnsAway(first, ids);
    var events := first + AllTurnedAway(ids);
    var keys := Run(events).cache.inserted;
    assert keys == [id] + ids;
    assert forall p | 1 <= p < |keys| :: keys[p] == ids[p - 1];
    PiIsCalledExactlyWhen(events, again.command, again.env);
  }
}

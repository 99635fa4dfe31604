/**
 What the Pi extension answers to a command it does not remember: the receipts it decides and why, the
 message it hands to Pi, and what becomes of that message, by the inputs heard while it is handed over.
 */
module PiAnswers {
  import opened Wrappers
  import Sequences
  import opened PiReceipts
  import opened PiApplications
  import opened PiBridge
  import opened PiOnce

  // ----- without a message

  /** Why a command that is not acceptable is refused. */
  function ReasonFor(command: Command, env: Environment): string {
    if !env.usable then "adapter_unavailable"
    else if !command.kind.Interrupt? && command.text.None? then "invalid_command"
    else if command.kind.Prompt? then "agent_busy"
    else "agent_not_active"
  }

  lemma RefusalAnswers(s: State, command: Command, env: Environment)
    requires Quiet(s.work) && !Holds(s.cache, command.commandId) && !Acceptable(command, env)
    ensures var r := Handle(s, command, env);
            && r.cache.decided == s.cache.decided + [Remembered(command.commandId, Rejected(ReasonFor(command, env)))]
            && r.work == s.work
  {
  }

  /** The receipts an interrupt decides. */
  function AbortReceipts(id: string, throws: bool): seq<Remembered> {
    if throws then [Remembered(id, Rejected("abort_rejected"))]
    else [Remembered(id, Accepted), Remembered(id, Applied("pi_abort_invoked"))]
  }

  lemma DecidesBoth(s: State, id: string, a: Receipt, b: Receipt)
    ensures Decide(Decide(s, id, a), id, b).cache.decided == s.cache.decided + [Remembered(id, a), Remembered(id, b)]
  {
    Sequences.Associates(s.cache.decided, [Remembered(id, a)], [Remembered(id, b)]);
    assert [Remembered(id, a)] + [Remembered(id, b)] == [Remembered(id, a), Remembered(id, b)];
  }

  lemma InterruptAnswers(s: State, command: Command, env: Environment)
    requires Quiet(s.work) && !Holds(s.cache, command.commandId)
    requires command.kind.Interrupt? && Acceptable(command, env)
    ensures var r := Handle(s, command, env);
            && r.cache.decided == s.cache.decided + AbortReceipts(command.commandId, env.throws)
            && r.work == s.work
  {
    DecidesBoth(s, command.commandId, Accepted, Applied("pi_abort_invoked"));
  }

  // ----- with one

  /** How many pending applications wait for a message. */
  function Copies(pending: seq<Pending>, m: Message): nat {
    if pending == [] then 0
    else Copies(pending[..|pending| - 1], m) + if pending[|pending| - 1].message == m then 1 else 0
  }

  /** How many inputs are a message coming back from the extension. */
  function Echoes(inputs: seq<Input>, m: Message): nat {
    if inputs == [] then 0
    else Echoes(inputs[..|inputs| - 1], m) + if inputs[|inputs| - 1] == Input(m, "extension") then 1 else 0
  }

  lemma {:induction false} CopiesWithout(pending: seq<Pending>, i: nat, m: Message)
    requires i < |pending|
    ensures Copies(RemoveAt(pending, i), m) == Copies(pending, m) - if pending[i].message == m then 1 else 0
  {
    var rest, last := RemoveAt(pending, i), |pending| - 1;
    if i < last {
      CopiesWithout(pending[..last], i, m);
      assert rest[..|rest| - 1] == RemoveAt(pending[..last], i);
    } else {
      assert rest == pending[..last];
    }
  }

  lemma {:induction false} NoCopies(pending: seq<Pending>, m: Message)
    ensures Copies(pending, m) == 0 <==> forall i | 0 <= i < |pending| :: pending[i].message != m
  {
    if pending != [] {
      NoCopies(pending[..|pending| - 1], m);
    }
  }

  /** Where the message under way stands after `echoes` of it came back, `older` copies having waited before it. */
  ghost predicate Stands(pending: seq<Pending>, m: Message, older: nat, echoes: nat) {
    && |pending| > 0 && pending[|pending| - 1].message == m
    && Copies(pending[..|pending| - 1], m) == (if echoes <= older then older - echoes else 0)
    && (pending[|pending| - 1].observed <==> echoes > older)
  }

  lemma MatchIsOlder(pending: seq<Pending>, m: Message, t: nat)
    requires Underway(pending, t) && pending[|pending| - 1].message == m
    ensures var last := |pending| - 1;
            if Copies(pending[..last], m) > 0 then Match(pending, m) < last
            else Match(pending, m) == if pending[last].observed then |pending| else last
  {
    var last := |pending| - 1;
    NoCopies(pending[..last], m);
    if Copies(pending[..last], m) > 0 {
      var i :| 0 <= i < last && pending[..last][i].message == m;
      assert Settled(pending[i]);
    }
  }

  lemma RemoveBeforeLast<T>(xs: seq<T>, i: nat)
    requires i < |xs| - 1
    ensures var rest := RemoveAt(xs, i);
            && |rest| == |xs| - 1 && rest[|rest| - 1] == xs[|xs| - 1]
            && rest[..|rest| - 1] == RemoveAt(xs[..|xs| - 1], i)
  {
  }

  lemma RemainingStands(pending: seq<Pending>, i: nat, m: Message, t: nat)
    requires Underway(pending, t) && i < |pending| - 1
    ensures var rest := Remaining(pending, i);
            && |rest| > 0 && rest[|rest| - 1] == pending[|pending| - 1]
            && Copies(rest[..|rest| - 1], m) ==
               Copies(pending[..|pending| - 1], m) - if pending[i].message == m then 1 else 0
  {
    assert Settled(pending[i]);
    RemoveBeforeLast(pending, i);
    CopiesWithout(pending[..|pending| - 1], i, m);
  }

  /** One more echo goes to the oldest copy, or to the message under way when none is left before it. */
  lemma EchoStands(pending: seq<Pending>, t: nat, m: Message, older: nat, echoes: nat)
    requires Underway(pending, t) && Stands(pending, m, older, echoes)
    ensures Stands(Remaining(pending, Match(pending, m)), m, older, echoes + 1)
  {
    var i, last := Match(pending, m), |pending| - 1;
    MatchIsOlder(pending, m, t);
    if i < last {
      RemainingStands(pending, i, m, t);
    } else if i == last {
      assert Remaining(pending, i)[..last] == pending[..last];
    }
  }

  /** An input about anything else leaves the message where it stands. */
  lemma OtherStands(pending: seq<Pending>, i: nat, t: nat, m: Message, older: nat, echoes: nat)
    requires Underway(pending, t) && Stands(pending, m, older, echoes)
    requires i <= |pending| && (i < |pending| ==> pending[i].message != m)
    ensures Stands(Remaining(pending, i), m, older, echoes)
  {
    if i < |pending| {
      RemainingStands(pending, i, m, t);
    }
  }

  lemma TargetStands(w: Work, input: Input, t: nat, m: Message, older: nat, echoes: nat)
    requires Underway(w.pending, t) && Stands(w.pending, m, older, echoes)
    ensures Stands(Remaining(w.pending, Target(w, input)), m, older,
                   echoes + if input == Input(m, "extension") then 1 else 0)
  {
    if input == Input(m, "extension") {
      EchoStands(w.pending, t, m, older, echoes);
    } else {
      OtherStands(w.pending, Target(w, input), t, m, older, echoes);
    }
  }

  lemma HearsStands(s: State, input: Input, t: nat, m: Message, older: nat, echoes: nat)
    requires Sending(s.work, t) && Stands(s.work.pending, m, older, echoes)
    ensures Stands(Hears(s, input).work.pending, m, older, echoes + if input == Input(m, "extension") then 1 else 0)
  {
    ObservePending(s.work, input);
    TargetStands(s.work, input, t, m, older, echoes);
  }

  /** Where the message stands after some inputs. */
  ghost predicate StandsAfter(s: State, inputs: seq<Input>, t: nat, m: Message, older: nat)
    requires Sending(s.work, t)
  {
    Stands(HearsDuring(s, inputs, t).work.pending, m, older, Echoes(inputs, m))
  }

  lemma StandsAtFirst(s: State, t: nat, m: Message, older: nat)
    requires Sending(s.work, t) && Stands(s.work.pending, m, older, 0)
    ensures StandsAfter(s, [], t, m, older)
  {
  }

  lemma StandsOneMore(s: State, inputs: seq<Input>, t: nat, m: Message, older: nat)
    requires Sending(s.work, t) && inputs != [] && StandsAfter(s, inputs[..|inputs| - 1], t, m, older)
    ensures StandsAfter(s, inputs, t, m, older)
  {
    var front, last := inputs[..|inputs| - 1], inputs[|inputs| - 1];
    var before := HearsDuring(s, front, t);
    HearsStands(before, last, t, m, older, Echoes(front, m));
    assert HearsDuring(s, inputs, t) == Hears(before, last);
  }

  lemma {:induction false} DuringStands(s: State, inputs: seq<Input>, t: nat, m: Message, older: nat)
    requires Sending(s.work, t) && Stands(s.work.pending, m, older, 0)
    ensures StandsAfter(s, inputs, t, m, older)
  {
    if inputs == [] {
      StandsAtFirst(s, t, m, older);
    } else {
      DuringStands(s, inputs[..|inputs| - 1], t, m, older);
      StandsOneMore(s, inputs, t, m, older);
    }
  }

  /** Nothing but commands reported applied on an input event. */
  predicate Reports(decided: seq<Remembered>) {
    forall i | 0 <= i < |decided| :: decided[i].receipt == Applied("pi_input_event")
  }

  lemma HearsReports(s: State, input: Input) returns (more: seq<Remembered>)
    requires Listed(s.work)
    ensures Hears(s, input).cache.decided == s.cache.decided + more && Reports(more)
  {
    var applied := AppliedBy(s.work, input);
    more := if applied.Some? then [Remembered(applied.value, Applied("pi_input_event"))] else [];
  }

  /** While a message is handed over, only older sends can be reported applied. */
  lemma {:induction false} DuringReports(s: State, inputs: seq<Input>, t: nat) returns (earlier: seq<Remembered>)
    requires Sending(s.work, t)
    ensures HearsDuring(s, inputs, t).cache.decided == s.cache.decided + earlier && Reports(earlier)
  {
    if inputs == [] {
      earlier := [];
    } else {
      var front := inputs[..|inputs| - 1];
      var before := DuringReports(s, front, t);
      var more := HearsReports(HearsDuring(s, front, t), inputs[|inputs| - 1]);
      earlier := before + more;
      Sequences.Associates(s.cache.decided, before, more);
    }
  }

  /** The receipts a message's own send decides. */
  function OwnReceipts(id: string, throws: bool, seen: bool): seq<Remembered> {
    if !throws && seen then [Remembered(id, Accepted), Remembered(id, Applied("pi_input_event"))]
    else if !throws then [Remembered(id, Accepted)]
    else if seen then [Remembered(id, Applied("pi_input_event"))]
    else [Remembered(id, Rejected("pi_rejected"))]
  }

  /** What becomes of the message: confirmed if seen, still awaited if accepted unseen, withdrawn if refused. */
  predicate Becomes(fate: Fate, throws: bool, seen: bool) {
    if seen then fate.Confirmed? else if throws then fate.Withdrawn? else fate.Waiting?
  }

  lemma SettleDecides(s: State, id: string, t: nat, throws: bool)
    requires Sending(s.work, t)
    ensures var seen := s.work.pending[|s.work.pending| - 1].observed;
            Settle(s, id, t, throws).cache.decided == s.cache.decided + OwnReceipts(id, throws, seen)
  {
    DecidesBoth(s, id, Accepted, Applied("pi_input_event"));
  }

  lemma SettleFate(s: State, id: string, t: nat, throws: bool)
    requires Sending(s.work, t)
    ensures var r, seen := Settle(s, id, t, throws), s.work.pending[|s.work.pending| - 1].observed;
            && |r.work.sends| == t + 1
            && SameSend(r.work.sends[t], s.work.sends[t]) && Becomes(r.work.sends[t].fate, throws, seen)
  {
    assert Tracks(s.work.pending[|s.work.pending| - 1], s.work.sends);
  }

  /** The message under way is seen exactly when more echoes of it come back than older copies were waiting. */
  predicate SeenAtOnce(pending: seq<Pending>, inputs: seq<Input>, m: Message) {
    Echoes(inputs, m) > Copies(pending, m)
  }

  /** A message was handed over for a command: what was decided, what was sent, and what became of it. */
  ghost predicate HandedOver(s: State, r: State, id: string, m: Message, env: Environment, earlier: seq<Remembered>) {
    var t, seen := |s.work.sends|, SeenAtOnce(s.work.pending, env.inputs, m);
    && r.cache.decided == s.cache.decided + (earlier + OwnReceipts(id, env.throws, seen)) && Reports(earlier)
    && |r.work.sends| == t + 1
    && SameSend(r.work.sends[t], Send(id, m, |s.work.heard|, Waiting))
    && Becomes(r.work.sends[t].fate, env.throws, seen)
  }

  lemma DeliverAnswers(s: State, id: string, m: Message, env: Environment) returns (earlier: seq<Remembered>)
    requires Quiet(s.work)
    ensures HandedOver(s, Deliver(s, id, m, env), id, m, env, earlier)
  {
    var t, older := |s.work.sends|, Copies(s.work.pending, m);
    PushStartsSending(s.work, id, m);
    var pushed := s.(work := Push(s.work, id, m));
    assert pushed.work.pending[..|s.work.pending|] == s.work.pending;
    DuringStands(pushed, env.inputs, t, m, older);
    earlier := DuringReports(pushed, env.inputs, t);
    HearsDuringKeepsSend(pushed, env.inputs, t);
    var heard := HearsDuring(pushed, env.inputs, t);
    SettleDecides(heard, id, t, env.throws);
    SettleFate(heard, id, t, env.throws);
    Sequences.Associates(s.cache.decided, earlier,
                         OwnReceipts(id, env.throws, SeenAtOnce(s.work.pending, env.inputs, m)));
  }

  /** How Pi is to take a message: as a steer, as a follow-up, or as a prompt, which says nothing. */
  predicate CarriesKind(m: Message, kind: Kind) {
    m.behavior == if kind.Steer? then Some("steer") else if kind.FollowUp? then Some("followUp") else None
  }

  lemma SendAnswers(s: State, command: Command, env: Environment) returns (m: Message, earlier: seq<Remembered>)
    requires Quiet(s.work) && !Holds(s.cache, command.commandId)
    requires !command.kind.Interrupt? && Acceptable(command, env)
    ensures command.text == Some(m.text) && CarriesKind(m, command.kind)
    ensures HandedOver(s, Handle(s, command, env), command.commandId, m, env, earlier)
  {
    m := Message(command.text.value, Behavior(command.kind));
    earlier := DeliverAnswers(s, command.commandId, m, env);
  }

  /** None of the newest 128 receipts is for this command. */
  ghost predicate Forgotten(s: State, id: string) {
    var keys := s.cache.inserted;
    forall p | 0 <= p < |keys| && |keys| - MAX_RECEIPTS <= p :: keys[p] != id
  }

  /**
   Over every run, the answer to a command that is not remembered. If not acceptable it is refused for its own
   reason; an interrupt is accepted and applied, or rejected if aborting throws; anything else is handed to Pi
   with its text and its kind, and reported by whether the call throws and whether it is seen as input by then.
   */
  lemma AnswersExactly(events: seq<Event>, command: Command, env: Environment)
    returns (m: Message, earlier: seq<Remembered>)
    requires Forgotten(Run(events), command.commandId)
    ensures var s, r, id := Run(events), Run(events + [Commanded(command, env)]), command.commandId;
            if !Acceptable(command, env) then
              && r.cache.decided == s.cache.decided + [Remembered(id, Rejected(ReasonFor(command, env)))]
              && r.work == s.work
            else if command.kind.Interrupt? then
              && r.cache.decided == s.cache.decided + AbortReceipts(id, env.throws)
              && r.work == s.work
            else
              && command.text == Some(m.text) && CarriesKind(m, command.kind)
              && HandedOver(s, r, id, m, env, earlier)
  {
    var more, s := events + [Commanded(command, env)], Run(events);
    assert more[..|more| - 1] == events;
    RunKeepsOnce(events);
    HeldExactly(s.cache, command.commandId);
    m, earlier := Message("", None), [];
    if !Acceptable(command, env) {
      RefusalAnswers(s, command, env);
    } else if command.kind.Interrupt? {
      InterruptAnswers(s, command, env);
    } else {
      m, earlier := SendAnswers(s, command, env);
    }
  }

  // ----- inputs between commands

  /** Send `t` is the oldest one still waiting for this input. */
  ghost predicate OldestWaiting(sends: seq<Send>, input: Input, t: nat) {
    && t < |sends| && Awaits(sends[t], input)
    && forall u | 0 <= u < t :: !Awaits(sends[u], input)
  }

  predicate Awaits(send: Send, input: Input) {
    input == Input(send.message, "extension") && send.fate.Waiting?
  }

  lemma TargetIsOldest(w: Work, input: Input, t: nat)
    requires Quiet(w) && OldestWaiting(w.sends, input, t)
    ensures Target(w, input) < |w.pending| && w.pending[Target(w, input)].ticket == t
  {
    var j := AwaitedAt(w, t);
    assert Settled(w.pending[j]);
    forall i | 0 <= i < j ensures w.pending[i].message != input.message {
      assert Tracks(w.pending[i], w.sends) && Settled(w.pending[i]);
      assert !Awaits(w.sends[w.pending[i].ticket], input);
    }
  }

  lemma NoTarget(w: Work, input: Input)
    requires Quiet(w) && forall t | 0 <= t < |w.sends| :: !Awaits(w.sends[t], input)
    ensures Target(w, input) == |w.pending|
  {
    var i := Target(w, input);
    if i < |w.pending| {
      assert Tracks(w.pending[i], w.sends);
      assert Awaits(w.sends[w.pending[i].ticket], input);
    }
  }

  /** Over every run, an input applies the oldest message waiting for it at once, and nothing else. */
  lemma InputAnswers(events: seq<Event>, input: Input, t: nat)
    requires OldestWaiting(Run(events).work.sends, input, t)
    ensures var s, r := Run(events), Run(events + [Event.Heard(input)]);
            var send := s.work.sends[t];
            && r.cache.decided == s.cache.decided + [Remembered(send.commandId, Applied("pi_input_event"))]
            && r.work.sends == s.work.sends[t := send.(fate := Confirmed(|s.work.heard|))]
  {
    var more, s := events + [Event.Heard(input)], Run(events);
    assert more[..|more| - 1] == events;
    TargetIsOldest(s.work, input, t);
    var i := Target(s.work, input);
    assert Settled(s.work.pending[i]) && Tracks(s.work.pending[i], s.work.sends);
  }

  lemma UnawaitedInputAnswers(events: seq<Event>, input: Input)
    requires forall t | 0 <= t < |Run(events).work.sends| :: !Awaits(Run(events).work.sends[t], input)
    ensures var s, r := Run(events), Run(events + [Event.Heard(input)]);
            r.cache.decided == s.cache.decided && r.work.sends == s.work.sends
  {
    var more := events + [Event.Heard(input)];
    assert more[..|more| - 1] == events;
    NoTarget(Run(events).work, input);
  }
}

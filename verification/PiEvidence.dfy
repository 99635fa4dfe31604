/**
 Over every run of the Pi extension: a message is reported applied exactly as often as an input
 event of its own has been heard.
 */
module PiEvidence {
  import opened Wrappers
  import opened PiReceipts
  import opened PiApplications
  import opened PiBridge

  predicate IsConfirmed(send: Send, commandId: string) {
    send.commandId == commandId && send.fate.Confirmed?
  }

  /** Sends of a command that an input event has confirmed. */
  function ConfirmedSends(sends: seq<Send>, commandId: string): nat {
    if sends == [] then 0
    else ConfirmedSends(sends[..|sends| - 1], commandId) + if IsConfirmed(sends[|sends| - 1], commandId) then 1 else 0
  }

  predicate ReportsInput(r: Remembered, commandId: string) {
    r == Remembered(commandId, Applied(INPUT_EVIDENCE))
  }

  /** Receipts decided for a command that report it applied as input. */
  function AppliedReceipts(decided: seq<Remembered>, commandId: string): nat {
    if decided == [] then 0
    else
      AppliedReceipts(decided[..|decided| - 1], commandId)
      + if ReportsInput(decided[|decided| - 1], commandId) then 1 else 0
  }

  lemma {:induction false} ConfirmedSame(a: seq<Send>, b: seq<Send>, commandId: string)
    requires |a| == |b| && forall i | 0 <= i < |a| :: IsConfirmed(a[i], commandId) == IsConfirmed(b[i], commandId)
    ensures ConfirmedSends(a, commandId) == ConfirmedSends(b, commandId)
  {
    if a != [] {
      ConfirmedSame(a[..|a| - 1], b[..|b| - 1], commandId);
    }
  }

  lemma {:induction false} ConfirmedMore(a: seq<Send>, t: nat, fate: Fate, commandId: string)
    requires t < |a| && !a[t].fate.Confirmed? && fate.Confirmed?
    ensures ConfirmedSends(WithFate(a, t, fate), commandId) ==
            ConfirmedSends(a, commandId) + if a[t].commandId == commandId then 1 else 0
  {
    var b := WithFate(a, t, fate);
    if t == |a| - 1 {
      assert a[..t] == b[..t];
    } else {
      assert b[..|b| - 1] == WithFate(a[..|a| - 1], t, fate);
      ConfirmedMore(a[..|a| - 1], t, fate, commandId);
    }
  }

  /** As many applied receipts as confirmed sends. */
  ghost predicate Balanced(s: State, commandId: string) {
    AppliedReceipts(s.cache.decided, commandId) == ConfirmedSends(s.work.sends, commandId)
  }

  lemma DecidedBy(s: State, decidedId: string, receipt: Receipt, commandId: string)
    ensures AppliedReceipts(Decide(s, decidedId, receipt).cache.decided, commandId) ==
            AppliedReceipts(s.cache.decided, commandId)
            + if ReportsInput(Remembered(decidedId, receipt), commandId) then 1 else 0
  {
    var before := s.cache.decided;
    var r := Remembered(decidedId, receipt);
    assert Decide(s, decidedId, receipt).cache.decided == before + [r];
    assert (before + [r])[..|before|] == before;
  }

  lemma HearsKeepsBalanced(s: State, input: Input, commandId: string)
    requires Sound(s.work) && OnlyLastObserved(s.work) && Balanced(s, commandId)
    ensures Balanced(Hears(s, input), commandId)
  {
    var w, v, i := s.work, Hear(s.work, input), Target(s.work, input);
    HearKeepsListed(w, input);
    if i < |w.pending| {
      assert Tracks(w.pending[i], w.sends);
      ConfirmedSame(w.sends, v.sends, commandId);
      if w.pending[i].accepted {
        var t := w.pending[i].ticket;
        assert Tracks(v.pending[i], v.sends);
        ConfirmedMore(v.sends, t, Confirmed(v.sends[t].fate.input), commandId);
        DecidedBy(s.(work := Observe(w, input)), w.pending[i].commandId, Applied(INPUT_EVIDENCE), commandId);
      }
    }
  }

  lemma {:induction false} HearsDuringKeepsBalanced(s: State, inputs: seq<Input>, t: nat, commandId: string)
    requires Sending(s.work, t) && Balanced(s, commandId)
    ensures Balanced(HearsDuring(s, inputs, t), commandId)
  {
    if inputs != [] {
      HearsDuringKeepsBalanced(s, inputs[..|inputs| - 1], t, commandId);
      HearsKeepsBalanced(HearsDuring(s, inputs[..|inputs| - 1], t), inputs[|inputs| - 1], commandId);
    }
  }

  lemma SeenKeepsBalanced(s: State, sentId: string, t: nat, throws: bool, commandId: string)
    requires Sending(s.work, t) && s.work.sends[t].commandId == sentId && Balanced(s, commandId)
    requires s.work.sends[t].fate.Seen?
    ensures Balanced(Settle(s, sentId, t, throws), commandId)
  {
    var last := |s.work.pending| - 1;
    assert Tracks(s.work.pending[last], s.work.sends);
    var returned := if throws then s else Decide(s, sentId, Accepted);
    if !throws {
      DecidedBy(s, sentId, Accepted, commandId);
    }
    DecidedBy(returned, sentId, Applied(INPUT_EVIDENCE), commandId);
    ConfirmedMore(s.work.sends, t, Confirmed(s.work.sends[t].fate.input), commandId);
  }

  lemma SettleKeepsBalanced(s: State, sentId: string, t: nat, throws: bool, commandId: string)
    requires Sending(s.work, t) && s.work.sends[t].commandId == sentId && Balanced(s, commandId)
    ensures Balanced(Settle(s, sentId, t, throws), commandId)
  {
    assert Tracks(s.work.pending[|s.work.pending| - 1], s.work.sends);
    if s.work.sends[t].fate.Seen? {
      SeenKeepsBalanced(s, sentId, t, throws, commandId);
    } else if throws {
      DecidedBy(s, sentId, Rejected("pi_rejected"), commandId);
      ConfirmedSame(s.work.sends, WithFate(s.work.sends, t, Withdrawn), commandId);
    } else {
      DecidedBy(s, sentId, Accepted, commandId);
    }
  }

  lemma DeliverKeepsBalanced(s: State, sentId: string, m: Message, env: Environment, commandId: string)
    requires Quiet(s.work) && Balanced(s, commandId)
    ensures Balanced(Deliver(s, sentId, m, env), commandId)
  {
    var t := |s.work.sends|;
    PushStartsSending(s.work, sentId, m);
    var pushed := s.(work := Push(s.work, sentId, m));
    assert pushed.work.sends[..t] == s.work.sends;
    HearsDuringKeepsBalanced(pushed, env.inputs, t, commandId);
    HearsDuringKeepsSend(pushed, env.inputs, t);
    SettleKeepsBalanced(HearsDuring(pushed, env.inputs, t), sentId, t, env.throws, commandId);
  }

  lemma HandleKeepsBalanced(s: State, command: Command, env: Environment, commandId: string)
    requires Quiet(s.work) && Balanced(s, commandId)
    ensures Balanced(Handle(s, command, env), commandId)
  {
    var id := command.commandId;
    if Holds(s.cache, id) {
    } else if Refusal(command, env).Some? {
      DecidedBy(s, id, Rejected(Refusal(command, env).value), commandId);
    } else if command.kind.Interrupt? {
      DecidedBy(s, id, Rejected("abort_rejected"), commandId);
      DecidedBy(s, id, Accepted, commandId);
      DecidedBy(Decide(s, id, Accepted), id, Applied("pi_abort_invoked"), commandId);
    } else {
      DeliverKeepsBalanced(s, id, Message(command.text.value, Behavior(command.kind)), env, commandId);
    }
  }

  lemma {:induction false} RunKeepsBalanced(events: seq<Event>, commandId: string)
    ensures Balanced(Run(events), commandId)
  {
    if events != [] {
      var s := Run(events[..|events| - 1]);
      RunKeepsBalanced(events[..|events| - 1], commandId);
      match events[|events| - 1] {
        case Commanded(command, env) =>
          HandleKeepsBalanced(s, command, env, commandId);
        case Heard(input) =>
          HearsKeepsBalanced(s, input, commandId);
        case Stopped =>
          ConfirmedSame(s.work.sends, Drop(s.work).sends, commandId);
      }
    }
  }

  /**
   Over every run: a command is reported applied as input exactly as often as its sends are confirmed; each
   confirmed send has an input of its own, carrying its message, from the extension, heard after the send
   began; and of two sends of one message the older is never left waiting behind the newer.
   */
  lemma AppliedMeansHeard(events: seq<Event>, commandId: string)
    ensures var s := Run(events);
            && AppliedReceipts(s.cache.decided, commandId) == ConfirmedSends(s.work.sends, commandId)
            && (forall t | 0 <= t < |s.work.sends| ::
                  s.work.sends[t].fate.Confirmed? ==> Evidence(s.work, t, s.work.sends[t].fate.evidence))
            && (forall t, u | 0 <= t < u < |s.work.sends| ::
                  s.work.sends[t].fate.Confirmed? && s.work.sends[u].fate.Confirmed? ==>
                    s.work.sends[t].fate.evidence != s.work.sends[u].fate.evidence)
            && Fair(s.work)
  {
    RunKeepsBalanced(events, commandId);
    var w := Run(events).work;
    assert Quiet(w);
    forall t | 0 <= t < |w.sends| && w.sends[t].fate.Confirmed?
      ensures Evidence(w, t, w.sends[t].fate.evidence)
    {
      assert InputOf(w.sends[t].fate) == Some(w.sends[t].fate.evidence);
    }
  }
}

/**
 Messages the Pi extension has handed to Pi and not yet seen come back as input. A message counts as
 applied only on the evidence of an input event; the ledger of sends and inputs records which.
 */
module PiApplications {
  import opened Wrappers

  datatype Message = Message(text: string, behavior: Option<string>)

  /** What became of a message handed to Pi. `Seen` waits only for its own send to return. */
  datatype Fate = Waiting | Seen(input: nat) | Confirmed(evidence: nat) | Withdrawn | Dropped {
    predicate Open() {
      Waiting? || Seen?
    }
  }

  /** A send, with the number of inputs heard before it. */
  datatype Send = Send(commandId: string, message: Message, heardBefore: nat, fate: Fate)

  datatype Input = Input(message: Message, source: string)

  /** An input heard, and the send it is evidence for. */
  datatype Heard = Heard(input: Input, confirms: Option<nat>)

  /** A pending application; its ticket is its identity. */
  datatype Pending = Pending(commandId: string, message: Message, ticket: nat, accepted: bool, observed: bool)

  datatype Work = Work(pending: seq<Pending>, sends: seq<Send>, heard: seq<Heard>)

  const IDLE := Work([], [], [])

  /** The first pending application an input with this message could be evidence for. */
  function Match(pending: seq<Pending>, m: Message): (i: nat)
    ensures i <= |pending|
    ensures i < |pending| ==> !pending[i].observed && pending[i].message == m
    ensures forall j | 0 <= j < i :: pending[j].observed || pending[j].message != m
  {
    if pending == [] then 0
    else if !pending[0].observed && pending[0].message == m then 0
    else 1 + Match(pending[1..], m)
  }

  /** Where an input event lands; `|pending|` when it is evidence for nothing. */
  function Target(w: Work, input: Input): (i: nat)
    ensures i <= |w.pending|
  {
    if input.source == "extension" then Match(w.pending, input.message) else |w.pending|
  }

  function WithFate(sends: seq<Send>, t: nat, fate: Fate): seq<Send>
    requires t < |sends|
  {
    sends[t := sends[t].(fate := fate)]
  }

  // ----- the steps

  function Push(w: Work, commandId: string, m: Message): Work {
    Work(w.pending + [Pending(commandId, m, |w.sends|, false, false)],
         w.sends + [Send(commandId, m, |w.heard|, Waiting)], w.heard)
  }

  function Hear(w: Work, input: Input): Work
    requires forall i | 0 <= i < |w.pending| :: w.pending[i].ticket < |w.sends|
  {
    var i := Target(w, input);
    if i == |w.pending| then w.(heard := w.heard + [Heard(input, None)])
    else
      var t := w.pending[i].ticket;
      Work(w.pending[i := w.pending[i].(observed := true)], WithFate(w.sends, t, Seen(|w.heard|)),
           w.heard + [Heard(input, Some(t))])
  }

  function RemoveAt<T>(xs: seq<T>, i: nat): seq<T>
    requires i < |xs|
  {
    xs[..i] + xs[i + 1..]
  }

  /** Leaves the pending list with its input as evidence. */
  function Confirm(w: Work, i: nat): Work
    requires i < |w.pending| && w.pending[i].ticket < |w.sends| && w.sends[w.pending[i].ticket].fate.Seen?
  {
    var t := w.pending[i].ticket;
    w.(pending := RemoveAt(w.pending, i), sends := WithFate(w.sends, t, Confirmed(w.sends[t].fate.input)))
  }

  function Accept(w: Work): Work
    requires |w.pending| > 0
  {
    var last := |w.pending| - 1;
    w.(pending := w.pending[last := w.pending[last].(accepted := true)])
  }

  /** Pi refused the message and never showed it as input. */
  function Withdraw(w: Work): Work
    requires |w.pending| > 0 && w.pending[|w.pending| - 1].ticket < |w.sends|
  {
    var last := |w.pending| - 1;
    w.(pending := w.pending[..last], sends := WithFate(w.sends, w.pending[last].ticket, Withdrawn))
  }

  /** The extension stopped: nothing is awaited any more. */
  function Drop(w: Work): Work {
    w.(pending := [],
       sends := seq(|w.sends|, i requires 0 <= i < |w.sends| =>
                 if w.sends[i].fate.Open() then w.sends[i].(fate := Dropped) else w.sends[i]))
  }

  // ----- what every step keeps

  ghost predicate Awaited(pending: seq<Pending>, t: nat) {
    exists i :: 0 <= i < |pending| && pending[i].ticket == t
  }

  ghost predicate Tracks(p: Pending, sends: seq<Send>) {
    && p.ticket < |sends|
    && sends[p.ticket].commandId == p.commandId && sends[p.ticket].message == p.message
    && sends[p.ticket].fate.Open() && p.observed == sends[p.ticket].fate.Seen?
  }

  /** The pending list is exactly the open sends, oldest first. */
  ghost predicate Listed(w: Work) {
    && (forall i | 0 <= i < |w.pending| :: Tracks(w.pending[i], w.sends))
    && (forall i, j | 0 <= i < j < |w.pending| :: w.pending[i].ticket < w.pending[j].ticket)
    && (forall t | 0 <= t < |w.sends| :: w.sends[t].fate.Open() ==> Awaited(w.pending, t))
  }

  /** Input `n` is evidence for send `t`: it carries the same message, came from the extension, and came later. */
  ghost predicate Evidence(w: Work, t: nat, n: nat) {
    && t < |w.sends| && n < |w.heard|
    && w.heard[n].confirms == Some(t)
    && w.heard[n].input == Input(w.sends[t].message, "extension")
    && w.sends[t].heardBefore <= n
  }

  function InputOf(fate: Fate): Option<nat> {
    match fate
    case Seen(n) => Some(n)
    case Confirmed(n) => Some(n)
    case _ => None
  }

  /** Every confirmed send names an input that is evidence for it and for nothing else. */
  ghost predicate Evidenced(w: Work) {
    && (forall t | 0 <= t < |w.sends| :: w.sends[t].heardBefore <= |w.heard|)
    && (forall t | 0 <= t < |w.sends| ::
          InputOf(w.sends[t].fate).Some? ==> Evidence(w, t, InputOf(w.sends[t].fate).value))
  }

  /** An older copy of a message is never still waiting once a newer one has been matched. */
  ghost predicate Fair(w: Work) {
    forall t, u | 0 <= t < u < |w.sends| ::
      w.sends[t].message == w.sends[u].message && InputOf(w.sends[u].fate).Some? ==>
        && !w.sends[t].fate.Open()
        && (InputOf(w.sends[t].fate).Some? ==> InputOf(w.sends[t].fate).value < InputOf(w.sends[u].fate).value)
  }

  ghost predicate Sound(w: Work) {
    Listed(w) && Evidenced(w) && Fair(w)
  }

  ghost predicate Settled(p: Pending) {
    p.accepted && !p.observed
  }

  /** Between events, everything pending was accepted and is unobserved. */
  ghost predicate Quiet(w: Work) {
    Sound(w) && forall i | 0 <= i < |w.pending| :: Settled(w.pending[i])
  }

  /** While a send is under way, it is the last pending application. */
  ghost predicate Underway(pending: seq<Pending>, t: nat) {
    && |pending| > 0 && pending[|pending| - 1].ticket == t && !pending[|pending| - 1].accepted
    && forall i | 0 <= i < |pending| - 1 :: Settled(pending[i])
  }

  ghost predicate Sending(w: Work, t: nat) {
    Sound(w) && Underway(w.pending, t) && t + 1 == |w.sends|
  }

  lemma PushStartsSending(w: Work, commandId: string, m: Message)
    requires Quiet(w)
    ensures Sending(Push(w, commandId, m), |w.sends|)
  {
    var v := Push(w, commandId, m);
    assert forall i | 0 <= i < |w.pending| :: v.pending[i] == w.pending[i];
    forall t | 0 <= t < |v.sends| && v.sends[t].fate.Open() ensures Awaited(v.pending, t) {
      if t < |w.sends| {
        assert Awaited(w.pending, t);
        var i :| 0 <= i < |w.pending| && w.pending[i].ticket == t;
        assert v.pending[i].ticket == t;
      } else {
        assert v.pending[|w.pending|].ticket == t;
      }
    }
  }

  lemma AcceptKeepsListed(w: Work)
    requires Listed(w) && |w.pending| > 0
    ensures Listed(Accept(w))
  {
    var v := Accept(w);
    assert forall i | 0 <= i < |w.pending| ::
        Tracks(w.pending[i], w.sends) && v.pending[i].ticket == w.pending[i].ticket;
    forall u | 0 <= u < |v.sends| && v.sends[u].fate.Open() ensures Awaited(v.pending, u) {
      assert Awaited(w.pending, u);
      var i :| 0 <= i < |w.pending| && w.pending[i].ticket == u;
      assert v.pending[i].ticket == u;
    }
  }

  lemma AcceptSettles(w: Work, t: nat)
    requires Sending(w, t) && w.sends[t].fate.Waiting?
    ensures Quiet(Accept(w))
  {
    AcceptKeepsListed(w);
    assert Tracks(w.pending[|w.pending| - 1], w.sends);
    assert Evidenced(Accept(w)) by {
      assert forall u, n | Evidence(w, u, n) :: Evidence(Accept(w), u, n);
    }
  }

  lemma DropSettles(w: Work)
    requires Quiet(w)
    ensures Quiet(Drop(w))
  {
  }

  /** At most the newest pending application has been observed. */
  ghost predicate OnlyLastObserved(w: Work) {
    forall i | 0 <= i < |w.pending| - 1 :: !w.pending[i].observed
  }

  lemma AwaitedAt(w: Work, t: nat) returns (i: nat)
    requires Listed(w) && t < |w.sends| && w.sends[t].fate.Open()
    ensures i < |w.pending| && w.pending[i].ticket == t && Tracks(w.pending[i], w.sends)
  {
    assert Awaited(w.pending, t);
    i :| 0 <= i < |w.pending| && w.pending[i].ticket == t;
  }

  lemma HearKeepsListed(w: Work, input: Input)
    requires Listed(w)
    ensures Listed(Hear(w, input))
  {
    var i := Target(w, input);
    if i < |w.pending| {
      MarkKeepsListed(w, i, |w.heard|);
    }
  }

  /** Marking a pending application as observed, in the list and in the ledger. */
  lemma MarkKeepsListed(w: Work, i: nat, n: nat)
    requires Listed(w) && i < |w.pending|
    ensures w.pending[i].ticket < |w.sends|
    ensures Listed(Work(w.pending[i := w.pending[i].(observed := true)],
                        WithFate(w.sends, w.pending[i].ticket, Seen(n)), w.heard))
  {
    assert Tracks(w.pending[i], w.sends);
    var pending := w.pending[i := w.pending[i].(observed := true)];
    var sends := WithFate(w.sends, w.pending[i].ticket, Seen(n));
    forall j | 0 <= j < |pending| ensures Tracks(pending[j], sends) {
      assert Tracks(w.pending[j], w.sends);
    }
    forall t | 0 <= t < |sends| && sends[t].fate.Open() ensures Awaited(pending, t) {
      var j := AwaitedAt(w, t);
      assert pending[j].ticket == t;
    }
  }

  lemma HearKeepsEvidenced(w: Work, input: Input)
    requires Listed(w) && Evidenced(w)
    ensures Evidenced(Hear(w, input))
  {
    var v, i := Hear(w, input), Target(w, input);
    if i < |w.pending| {
      assert Tracks(w.pending[i], w.sends);
    }
    forall t | 0 <= t < |v.sends| && InputOf(v.sends[t].fate).Some?
      ensures Evidence(v, t, InputOf(v.sends[t].fate).value)
    {
      if i == |w.pending| || t != w.pending[i].ticket {
        assert Evidence(w, t, InputOf(w.sends[t].fate).value);
      }
    }
  }

  /** The oldest copy waiting is the one an input is matched to. */
  lemma OlderCopiesAreClosed(w: Work, input: Input, t: nat)
    requires Listed(w) && OnlyLastObserved(w) && Target(w, input) < |w.pending|
    requires t < w.pending[Target(w, input)].ticket && w.sends[t].message == input.message
    ensures !w.sends[t].fate.Open()
  {
    if w.sends[t].fate.Open() {
      var i := Target(w, input);
      var j := AwaitedAt(w, t);
      assert false;
    }
  }

  lemma HearKeepsFair(w: Work, input: Input)
    requires Sound(w) && OnlyLastObserved(w)
    ensures Fair(Hear(w, input))
  {
    var v, i := Hear(w, input), Target(w, input);
    if i < |w.pending| {
      var m := w.pending[i].ticket;
      assert Tracks(w.pending[i], w.sends);
      forall t, u | 0 <= t < u < |v.sends| && v.sends[t].message == v.sends[u].message && InputOf(v.sends[u].fate).Some?
        ensures !v.sends[t].fate.Open()
        ensures InputOf(v.sends[t].fate).Some? ==> InputOf(v.sends[t].fate).value < InputOf(v.sends[u].fate).value
      {
        if u == m {
          OlderCopiesAreClosed(w, input, t);
          assert InputOf(w.sends[t].fate).Some? ==> Evidence(w, t, InputOf(w.sends[t].fate).value);
        } else {
          assert InputOf(w.sends[u].fate).Some?;
        }
      }
    }
  }

  lemma HearKeepsSound(w: Work, input: Input)
    requires Sound(w) && OnlyLastObserved(w)
    ensures Sound(Hear(w, input))
  {
    HearKeepsListed(w, input);
    HearKeepsEvidenced(w, input);
    HearKeepsFair(w, input);
  }

  /** Closing one pending application leaves the others as they were. */
  lemma ClosingKeepsListed(w: Work, i: nat, fate: Fate)
    requires Listed(w) && i < |w.pending| && !fate.Open()
    ensures w.pending[i].ticket < |w.sends|
    ensures Listed(Work(RemoveAt(w.pending, i), WithFate(w.sends, w.pending[i].ticket, fate), w.heard))
  {
    assert Tracks(w.pending[i], w.sends);
    var rest, sends := RemoveAt(w.pending, i), WithFate(w.sends, w.pending[i].ticket, fate);
    assert forall k | 0 <= k < |rest| :: rest[k] == w.pending[if k < i then k else k + 1];
    forall k | 0 <= k < |rest| ensures Tracks(rest[k], sends) {
      assert Tracks(w.pending[if k < i then k else k + 1], w.sends);
    }
    forall t | 0 <= t < |sends| && sends[t].fate.Open() ensures Awaited(rest, t) {
      var j := AwaitedAt(w, t);
      assert rest[if j < i then j else j - 1].ticket == t;
    }
  }

  lemma ConfirmKeepsSound(w: Work, i: nat)
    requires Sound(w) && i < |w.pending| && w.pending[i].observed
    ensures Tracks(w.pending[i], w.sends) && Sound(Confirm(w, i))
  {
    var t := w.pending[i].ticket;
    assert Tracks(w.pending[i], w.sends);
    var v := Confirm(w, i);
    ClosingKeepsListed(w, i, v.sends[t].fate);
    forall u | 0 <= u < |v.sends| && InputOf(v.sends[u].fate).Some?
      ensures Evidence(v, u, InputOf(v.sends[u].fate).value)
    {
      assert InputOf(v.sends[u].fate) == InputOf(w.sends[u].fate);
      assert Evidence(w, u, InputOf(w.sends[u].fate).value);
    }
    assert forall u | 0 <= u < |v.sends| :: InputOf(v.sends[u].fate) == InputOf(w.sends[u].fate);
  }

  lemma WithdrawSettles(w: Work, t: nat)
    requires Sending(w, t) && w.sends[t].fate.Waiting?
    ensures Quiet(Withdraw(w))
  {
    var last := |w.pending| - 1;
    assert w.pending[..last] == RemoveAt(w.pending, last);
    ClosingKeepsListed(w, last, Withdrawn);
    var v := Withdraw(w);
    forall u | 0 <= u < |v.sends| && InputOf(v.sends[u].fate).Some?
      ensures Evidence(v, u, InputOf(v.sends[u].fate).value)
    {
      assert Evidence(w, u, InputOf(w.sends[u].fate).value);
    }
  }

  /** A send seen as input before it returned is confirmed when it does. */
  lemma ConfirmSettles(w: Work, t: nat)
    requires Sending(w, t) && w.sends[t].fate.Seen?
    ensures w.pending[|w.pending| - 1].observed && Quiet(Confirm(w, |w.pending| - 1))
  {
    var last := |w.pending| - 1;
    assert Tracks(w.pending[last], w.sends);
    ConfirmKeepsSound(w, last);
    assert Confirm(w, last).pending == w.pending[..last];
  }

  // ----- hearing an input

  /** An input event: noted on what it is evidence for, which is applied at once unless its send is still under way. */
  function Observe(w: Work, input: Input): Work
    requires Listed(w)
  {
    var i := Target(w, input);
    HearKeepsListed(w, input);
    if i < |w.pending| && w.pending[i].accepted then
      assert Tracks(Hear(w, input).pending[i], Hear(w, input).sends);
      Confirm(Hear(w, input), i)
    else Hear(w, input)
  }

  /** The send an input applies at once. */
  function AppliedBy(w: Work, input: Input): Option<string> {
    var i := Target(w, input);
    if i < |w.pending| && w.pending[i].accepted then Some(w.pending[i].commandId) else None
  }

  lemma ObserveKeepsSound(w: Work, input: Input)
    requires Sound(w) && OnlyLastObserved(w)
    ensures Sound(Observe(w, input))
  {
    HearKeepsSound(w, input);
    var i := Target(w, input);
    if i < |w.pending| && w.pending[i].accepted {
      ConfirmKeepsSound(Hear(w, input), i);
    }
  }

  /** What an input leaves pending. */
  function Remaining(pending: seq<Pending>, i: nat): seq<Pending>
    requires i <= |pending|
  {
    if i == |pending| then pending
    else if pending[i].accepted then RemoveAt(pending, i)
    else pending[i := pending[i].(observed := true)]
  }

  lemma ObservePending(w: Work, input: Input)
    requires Listed(w)
    ensures Observe(w, input).pending == Remaining(w.pending, Target(w, input))
    ensures |Observe(w, input).sends| == |w.sends|
  {
    var i := Target(w, input);
    if i < |w.pending| {
      assert RemoveAt(Hear(w, input).pending, i) == RemoveAt(w.pending, i);
    }
  }

  lemma RemainingUnderway(pending: seq<Pending>, i: nat, t: nat)
    requires Underway(pending, t) && i <= |pending|
    ensures Underway(Remaining(pending, i), t)
  {
    var rest := Remaining(pending, i);
    if i < |pending| - 1 {
      assert Settled(pending[i]);
      forall k | 0 <= k < |rest| - 1 ensures Settled(rest[k]) {
        assert rest[k] == pending[if k < i then k else k + 1];
      }
    }
  }

  lemma RemainingSettled(pending: seq<Pending>, i: nat)
    requires i <= |pending| && forall k | 0 <= k < |pending| :: Settled(pending[k])
    ensures forall k | 0 <= k < |Remaining(pending, i)| :: Settled(Remaining(pending, i)[k])
  {
    var rest := Remaining(pending, i);
    if i < |pending| {
      assert Settled(pending[i]);
      forall k | 0 <= k < |rest| ensures Settled(rest[k]) {
        assert rest[k] == pending[if k < i then k else k + 1];
      }
    }
  }

  lemma ObserveKeepsQuiet(w: Work, input: Input)
    requires Quiet(w)
    ensures Quiet(Observe(w, input))
  {
    assert OnlyLastObserved(w);
    ObserveKeepsSound(w, input);
    ObservePending(w, input);
    RemainingSettled(w.pending, Target(w, input));
  }

  lemma ObserveKeepsSending(w: Work, input: Input, t: nat)
    requires Sending(w, t)
    ensures Sending(Observe(w, input), t)
  {
    assert OnlyLastObserved(w);
    ObserveKeepsSound(w, input);
    ObservePending(w, input);
    RemainingUnderway(w.pending, Target(w, input), t);
  }
}

/**
 The one dispatcher of normalized adapter events: timeline content is ordered against a snapshot
 burst, session-level events are not. Supervisor calls are outside the model: each event says
 whether the call it makes is refused.
 */
module Dispatcher {
  import opened Wrappers
  import opened Numbers
  import opened Suffixes

  const MAX_ADAPTER_SNAPSHOT_BYTES := 4_194_304
  const MAX_ADAPTER_SNAPSHOT_ENTRIES := 4096
  const MAX_USIZE := 0xFFFF_FFFF_FFFF_FFFF
  const SNAPSHOT_BOUND := Bound(MAX_ADAPTER_SNAPSHOT_ENTRIES, MAX_ADAPTER_SNAPSHOT_BYTES)

  /** Events about the session as a whole, allowed at any time. */
  datatype SessionChange =
    | Turn(turn: string) | CommandCapabilities(commands: string) | PermissionMode(mode: string)
    | Model(model: string) | Effort(effort: string) | ModelCatalogue(models: string)
    | CommandReceipt(commandId: string, state: string) | VendorSession(vendorSessionId: string)
    | UpsertInteraction(interactionId: string) | ResolveInteraction(resolvedId: string, resolution: string)
    | Notification(kind: string)
  {
    /** Whether a refusal by the supervisor ends the connection; the others are fire and forget. */
    predicate Checked() {
      Turn? || UpsertInteraction? || ResolveInteraction?
    }
  }

  datatype Event<E> =
    | Registration
    | SnapshotStart
    | SnapshotEntry(entry: E)
    | SnapshotEnd(historyComplete: Option<bool>)
    | UpsertEntry(upserted: E)
    | AppendText(text: string)
    | Heartbeat
    | ContextReset
    | WhereaboutsQuery(queryId: string)
    | Session(change: SessionChange)
    | SessionEnded
    | Shutdown(processExited: bool)
    | Unknown

  /** An event, and whether the supervisor takes the call it leads to. */
  datatype Arrival<E> = Arrival(event: Event<E>, taken: bool)

  datatype Effect<E> =
    | Replaced(entries: seq<E>, historyComplete: Option<bool>)
    | Upserted(entry: E)
    | UpsertedUnsupported(sequence: nat)
    | Appended(text: string)
    | ResetWhereabouts
    | Answered(queryId: string)
    | Changed(change: SessionChange)

  datatype Outcome = Continue | End(processExited: bool) | Refused

  datatype Context<E> = Context(entries: seq<E>, bytes: nat, open: bool, unknownSequence: nat)

  function Fresh<E>(): Context<E> {
    Context([], 0, false, 0)
  }

  function SaturatingAdd(a: nat, b: nat): nat {
    if a + b <= MAX_USIZE then a + b else MAX_USIZE
  }

  datatype Reaction<E> = Reaction(context: Context<E>, effects: seq<Effect<E>>, outcome: Outcome)

  function Refuse<E>(c: Context<E>): Reaction<E> {
    Reaction(c, [], Refused)
  }

  function Call<E>(c: Context<E>, taken: bool, effect: Effect<E>): Reaction<E> {
    if taken then Reaction(c, [effect], Continue) else Refuse(c)
  }

  /** One event: what it leaves pending, what it tells the supervisor, and whether the connection goes on. */
  function Step<E>(w: E -> nat, queries: bool, c: Context<E>, a: Arrival<E>): Reaction<E> {
    match a.event
    case SnapshotStart => Reaction(c.(entries := [], bytes := 0, open := true), [], Continue)
    case SnapshotEntry(entry) =>
      if !c.open then Refuse(c)
      else
        var bytes := SaturatingAdd(c.bytes, w(entry));
        if bytes > MAX_ADAPTER_SNAPSHOT_BYTES || |c.entries| >= MAX_ADAPTER_SNAPSHOT_ENTRIES then
          Refuse(c.(bytes := bytes))
        else Reaction(c.(entries := c.entries + [entry], bytes := bytes), [], Continue)
    case SnapshotEnd(complete) =>
      if c.open then Call(c.(entries := [], open := false), a.taken, Replaced(c.entries, complete)) else Refuse(c)
    case UpsertEntry(entry) => if c.open then Refuse(c) else Call(c, a.taken, Upserted(entry))
    case AppendText(text) => if c.open then Refuse(c) else Call(c, a.taken, Appended(text))
    case Heartbeat => if c.open then Refuse(c) else Reaction(c, [], Continue)
    case ContextReset => if c.open then Refuse(c) else Reaction(c, [ResetWhereabouts], Continue)
    case WhereaboutsQuery(id) => if queries then Call(c, a.taken, Answered(id)) else Refuse(c)
    case Session(change) =>
      if change.Checked() then Call(c, a.taken, Changed(change)) else Reaction(c, [Changed(change)], Continue)
    case SessionEnded => Reaction(c, [], End(false))
    case Shutdown(processExited) => Reaction(c, [], End(processExited))
    case Unknown =>
      if c.open then Refuse(c)
      else
        var n := Max(SaturatingAdd(c.unknownSequence, 1), 1);
        Call(c.(unknownSequence := n), a.taken, UpsertedUnsupported(n))
    case Registration => Refuse(c)
  }

  /** Events in order, up to the first that does not continue. */
  function Run<E>(w: E -> nat, queries: bool, evs: seq<Arrival<E>>): Reaction<E> {
    if evs == [] then Reaction(Fresh(), [], Continue)
    else
      var before := Run(w, queries, evs[..|evs| - 1]);
      if !before.outcome.Continue? then before
      else
        var r := Step(w, queries, before.context, evs[|evs| - 1]);
        r.(effects := before.effects + r.effects)
  }

  /** The dispatcher's own state, and what it has told the supervisor so far. */
  class AdapterEventContext<E> {
    const bytesOf: E -> nat
    const queries: bool
    var snapshotEntries: seq<E>
    var snapshotBytes: nat
    var snapshotOpen: bool
    var unknownSequence: nat
    var told: seq<Effect<E>>

    constructor (bytesOf: E -> nat, queries: bool)
      ensures View() == Fresh() && told == [] && this.bytesOf == bytesOf && this.queries == queries
    {
      this.bytesOf, this.queries := bytesOf, queries;
      snapshotEntries, snapshotBytes, snapshotOpen, unknownSequence, told := [], 0, false, 0, [];
    }

    function View(): Context<E>
      reads this
    {
      Context(snapshotEntries, snapshotBytes, snapshotOpen, unknownSequence)
    }

    method Tell(taken: bool, effect: Effect<E>) returns (outcome: Outcome)
      modifies this`told
      ensures var r := Call(View(), taken, effect); outcome == r.outcome && told == old(told) + r.effects
    {
      if !taken {
        return Refused;
      }
      told := told + [effect];
      return Continue;
    }

    method ApplySnapshotEntry(entry: E) returns (outcome: Outcome)
      modifies this
      ensures var r := Step(bytesOf, queries, old(View()), Arrival(SnapshotEntry(entry), true));
              View() == r.context && outcome == r.outcome && told == old(told) + r.effects
    {
      if !snapshotOpen {
        return Refused;
      }
      snapshotBytes := SaturatingAdd(snapshotBytes, bytesOf(entry));
      if snapshotBytes > MAX_ADAPTER_SNAPSHOT_BYTES || |snapshotEntries| >= MAX_ADAPTER_SNAPSHOT_ENTRIES {
        return Refused;
      }
      snapshotEntries := snapshotEntries + [entry];
      return Continue;
    }

    method Apply(a: Arrival<E>) returns (outcome: Outcome)
      modifies this
      ensures var r := Step(bytesOf, queries, old(View()), a);
              View() == r.context && outcome == r.outcome && told == old(told) + r.effects
    {
      outcome := Continue;
      match a.event {
        case Registration =>
          outcome := Refused;
        case SnapshotStart =>
          snapshotEntries, snapshotBytes, snapshotOpen := [], 0, true;
        case SnapshotEntry(entry) =>
          outcome := ApplySnapshotEntry(entry);
        case WhereaboutsQuery(id) =>
          if !queries {
            return Refused;
          }
          outcome := Tell(a.taken, Answered(id));
        case Session(change) =>
          outcome := Tell(a.taken || !change.Checked(), Changed(change));
        case SessionEnded =>
          outcome := End(false);
        case Shutdown(processExited) =>
          outcome := End(processExited);
        case SnapshotEnd(complete) =>
          if !snapshotOpen {
            return Refused;
          }
          snapshotOpen := false;
          var taken := snapshotEntries;
          snapshotEntries := [];
          outcome := Tell(a.taken, Replaced(taken, complete));
        case UpsertEntry(_) =>
          outcome := ApplyOrdered(a);
        case AppendText(_) =>
          outcome := ApplyOrdered(a);
        case Heartbeat =>
          outcome := ApplyOrdered(a);
        case ContextReset =>
          outcome := ApplyOrdered(a);
        case Unknown =>
          outcome := ApplyOrdered(a);
      }
    }

    /** Timeline content, which no open snapshot burst may be interrupted by. */
    method ApplyOrdered(a: Arrival<E>) returns (outcome: Outcome)
      requires
        || a.event.UpsertEntry? || a.event.AppendText? || a.event.Heartbeat? || a.event.ContextReset?
        || a.event.Unknown?
      modifies this
      ensures var r := Step(bytesOf, queries, old(View()), a);
              View() == r.context && outcome == r.outcome && told == old(told) + r.effects
    {
      if snapshotOpen {
        return Refused;
      }
      match a.event {
        case UpsertEntry(entry) =>
          outcome := Tell(a.taken, Upserted(entry));
        case AppendText(text) =>
          outcome := Tell(a.taken, Appended(text));
        case Heartbeat =>
          outcome := Continue;
        case ContextReset =>
          outcome := Tell(true, ResetWhereabouts);
        case Unknown =>
          unknownSequence := Max(SaturatingAdd(unknownSequence, 1), 1);
          outcome := Tell(a.taken, UpsertedUnsupported(unknownSequence));
      }
    }
  }

  // ----- what a stream of events means, without any dispatcher state

  /** Whether the latest snapshot start has not been ended. */
  function OpenAfter<E>(evs: seq<Arrival<E>>): bool {
    evs != [] && Opens(OpenAfter(evs[..|evs| - 1]), evs[|evs| - 1].event)
  }

  predicate Opens<E>(open: bool, event: Event<E>) {
    event.SnapshotStart? || (open && !event.SnapshotEnd?)
  }

  /** The snapshot entries since the latest snapshot start, if it is still open. */
  function Collected<E>(evs: seq<Arrival<E>>): seq<E> {
    if evs == [] then [] else Gathers(Collected(evs[..|evs| - 1]), evs[|evs| - 1].event)
  }

  function Gathers<E>(collected: seq<E>, event: Event<E>): seq<E> {
    match event
    case SnapshotStart => []
    case SnapshotEnd(_) => []
    case SnapshotEntry(entry) => collected + [entry]
    case _ => collected
  }

  function Unknowns<E>(evs: seq<Arrival<E>>): nat {
    if evs == [] then 0 else Unknowns(evs[..|evs| - 1]) + if evs[|evs| - 1].event.Unknown? then 1 else 0
  }

  /** Whether the stream may go on with `a` after `before`. */
  predicate Allowed<E>(w: E -> nat, queries: bool, before: seq<Arrival<E>>, a: Arrival<E>) {
    match a.event
    case SnapshotStart => true
    case SnapshotEntry(entry) => OpenAfter(before) && Fits(w, SNAPSHOT_BOUND, Collected(before) + [entry])
    case SnapshotEnd(_) => OpenAfter(before) && a.taken
    case WhereaboutsQuery(_) => queries && a.taken
    case Session(change) =>
      change.Turn? || change.UpsertInteraction? || change.ResolveInteraction? ==> a.taken
    case UpsertEntry(_) => !OpenAfter(before) && a.taken
    case AppendText(_) => !OpenAfter(before) && a.taken
    case Unknown => !OpenAfter(before) && a.taken
    case Heartbeat => !OpenAfter(before)
    case ContextReset => !OpenAfter(before)
    case Registration => false
    case SessionEnded => false
    case Shutdown(_) => false
  }

  predicate WellOrdered<E>(w: E -> nat, queries: bool, evs: seq<Arrival<E>>) {
    forall i | 0 <= i < |evs| :: Allowed(w, queries, evs[..i], evs[i])
  }

  /** What one event tells the supervisor, given the entries collected and the unknown frames seen before it. */
  function Meaning<E>(collected: seq<E>, unknowns: nat, a: Arrival<E>): Option<Effect<E>> {
    match a.event
    case SnapshotEnd(complete) => Some(Replaced(collected, complete))
    case UpsertEntry(entry) => Some(Upserted(entry))
    case AppendText(text) => Some(Appended(text))
    case ContextReset => Some(ResetWhereabouts)
    case WhereaboutsQuery(id) => Some(Answered(id))
    case Session(change) => Some(Changed(change))
    case Unknown => Some(UpsertedUnsupported(SaturatingAdd(unknowns, 1)))
    case _ => None
  }

  function Listed<T>(x: Option<T>): seq<T> {
    if x.Some? then [x.value] else []
  }

  /** What the supervisor is told by a stream. */
  function Told<E>(evs: seq<Arrival<E>>): seq<Effect<E>> {
    if evs == [] then []
    else
      var front := evs[..|evs| - 1];
      Told(front) + Listed(Meaning(Collected(front), Unknowns(front), evs[|evs| - 1]))
  }

  // ----- the dispatcher is that meaning

  /** What the dispatcher holds after a stream it went along with. */
  ghost predicate Tracks<E>(w: E -> nat, evs: seq<Arrival<E>>, c: Context<E>) {
    && c.open == OpenAfter(evs)
    && c.entries == Collected(evs)
    && (c.open ==> c.bytes == Total(w, c.entries) && Fits(w, SNAPSHOT_BOUND, c.entries))
    && c.unknownSequence == SaturatingAdd(Unknowns(evs), 0)
  }

  lemma TotalAppend<E>(w: E -> nat, xs: seq<E>, x: E)
    ensures Total(w, xs + [x]) == Total(w, xs) + w(x)
  {
    TotalConcat(w, xs, [x]);
  }

  lemma StepTracks<E>(w: E -> nat, queries: bool, before: seq<Arrival<E>>, a: Arrival<E>, c: Context<E>)
    requires Tracks(w, before, c)
    ensures var r := Step(w, queries, c, a);
            && (r.outcome.Continue? <==> Allowed(w, queries, before, a))
            && (r.outcome.Continue? ==>
                  && Tracks(w, before + [a], r.context)
                  && r.effects == Listed(Meaning(Collected(before), Unknowns(before), a)))
  {
    assert (before + [a])[..|before|] == before;
    if a.event.SnapshotEntry? {
      EntryTracks(w, queries, before, a, c);
    }
  }

  lemma EntryTracks<E>(w: E -> nat, queries: bool, before: seq<Arrival<E>>, a: Arrival<E>, c: Context<E>)
    requires Tracks(w, before, c) && a.event.SnapshotEntry?
    ensures var r := Step(w, queries, c, a);
            && (r.outcome.Continue? <==> Allowed(w, queries, before, a))
            && (r.outcome.Continue? ==> Tracks(w, before + [a], r.context))
  {
    assert (before + [a])[..|before|] == before;
    TotalAppend(w, c.entries, a.event.entry);
  }

  lemma WellOrderedAppend<E>(w: E -> nat, queries: bool, before: seq<Arrival<E>>, a: Arrival<E>)
    ensures WellOrdered(w, queries, before + [a]) <==> WellOrdered(w, queries, before) && Allowed(w, queries, before, a)
  {
    var evs := before + [a];
    assert forall i | 0 <= i < |before| :: before[i] == evs[i] && before[..i] == evs[..i];
    assert evs[..|before|] == before && evs[|before|] == a;
  }

  /**
   The connection goes on exactly while the stream is well ordered, within bounds and taken by the
   supervisor; then each replacement holds exactly the entries since its snapshot start, in order,
   and everything else is told once, in order.
   */
  lemma {:induction false} RunIsMeaning<E>(w: E -> nat, queries: bool, evs: seq<Arrival<E>>)
    ensures var r := Run(w, queries, evs);
            && (r.outcome.Continue? <==> WellOrdered(w, queries, evs))
            && (r.outcome.Continue? ==> Tracks(w, evs, r.context) && r.effects == Told(evs))
  {
    if evs != [] {
      var before, a := evs[..|evs| - 1], evs[|evs| - 1];
      assert evs == before + [a];
      RunIsMeaning(w, queries, before);
      WellOrderedAppend(w, queries, before, a);
      var r := Run(w, queries, before);
      if r.outcome.Continue? {
        StepTracks(w, queries, before, a, r.context);
      }
    }
  }

  // ----- how a connection ends

  /** The adapter's own ending, with whether its process is gone; anything else that may not follow is refused. */
  function EndingOf<E>(event: Event<E>): Outcome {
    match event
    case SessionEnded => End(false)
    case Shutdown(processExited) => End(processExited)
    case _ => Refused
  }

  lemma StepEnds<E>(w: E -> nat, queries: bool, before: seq<Arrival<E>>, a: Arrival<E>, c: Context<E>)
    requires Tracks(w, before, c) && !Allowed(w, queries, before, a)
    ensures var r := Step(w, queries, c, a); r.outcome == EndingOf(a.event) && r.effects == []
  {
    StepTracks(w, queries, before, a, c);
  }

  /**
   A stream ends at the first event that may not follow: by that event, having told exactly what came before
   it, whatever comes after.
   */
  lemma {:induction false} RunEndsAt<E>(w: E -> nat, queries: bool, evs: seq<Arrival<E>>, n: nat)
    requires n < |evs| && WellOrdered(w, queries, evs[..n]) && !Allowed(w, queries, evs[..n], evs[n])
    ensures var r := Run(w, queries, evs);
            r.outcome == EndingOf(evs[n].event) && r.effects == Told(evs[..n])
    decreases |evs|
  {
    var front := evs[..|evs| - 1];
    if n < |front| {
      assert front[..n] == evs[..n];
      RunEndsAt(w, queries, front, n);
    } else {
      RunIsMeaning(w, queries, front);
      StepEnds(w, queries, front, evs[n], Run(w, queries, front).context);
    }
  }

  // ----- a replacement, by position

  /** The payloads of the snapshot entries in a stretch of the stream. */
  function Payloads<E>(evs: seq<Arrival<E>>): seq<E> {
    if evs == [] then []
    else
      var last := evs[|evs| - 1].event;
      Payloads(evs[..|evs| - 1]) + if last.SnapshotEntry? then [last.entry] else []
  }

  predicate Boundary<E>(event: Event<E>) {
    event.SnapshotStart? || event.SnapshotEnd?
  }

  /** From a start to before the next boundary, what is collected is the payloads since the start. */
  lemma {:induction false} CollectedSince<E>(evs: seq<Arrival<E>>, s: nat, e: nat)
    requires s < e <= |evs| && evs[s].event.SnapshotStart?
    requires forall i | s < i < e :: !Boundary(evs[i].event)
    ensures OpenAfter(evs[..e]) && Collected(evs[..e]) == Payloads(evs[s + 1..e])
    decreases e
  {
    assert evs[..e][..e - 1] == evs[..e - 1];
    if s + 1 < e {
      CollectedSince(evs, s, e - 1);
      assert evs[s + 1..e][..e - s - 2] == evs[s + 1..e - 1];
    }
  }

  lemma {:induction false} ToldPrefix<E>(evs: seq<Arrival<E>>, e: nat)
    requires e < |evs|
    ensures Told(evs[..e]) + Listed(Meaning(Collected(evs[..e]), Unknowns(evs[..e]), evs[e])) <= Told(evs)
    decreases |evs|
  {
    var front := evs[..|evs| - 1];
    if e < |front| {
      ToldPrefix(front, e);
      assert front[..e] == evs[..e];
    }
  }

  /**
   In a stream the dispatcher goes along with, between a snapshot start and the end that closes it there are
   only entries and session-level events, and the supervisor is told once at that end to replace the timeline
   with exactly those entries' payloads, in order.
   */
  lemma ReplacementByPosition<E>(w: E -> nat, queries: bool, evs: seq<Arrival<E>>, s: nat, e: nat)
    requires WellOrdered(w, queries, evs)
    requires s < e < |evs| && evs[s].event.SnapshotStart? && evs[e].event.SnapshotEnd?
    requires forall i | s < i < e :: !Boundary(evs[i].event)
    ensures forall i | s < i < e :: evs[i].event.SnapshotEntry? || IsSessionLevel(evs[i])
    ensures var at := |Told(evs[..e])|;
            && at < |Run(w, queries, evs).effects|
            && Run(w, queries, evs).effects[at] == Replaced(Payloads(evs[s + 1..e]), evs[e].event.historyComplete)
    ensures Fits(w, SNAPSHOT_BOUND, Payloads(evs[s + 1..e]))
  {
    forall i | s < i < e ensures evs[i].event.SnapshotEntry? || IsSessionLevel(evs[i]) {
      CollectedSince(evs, s, i);
      assert Allowed(w, queries, evs[..i], evs[i]);
    }
    CollectedSince(evs, s, e);
    ToldPrefix(evs, e);
    RunIsMeaning(w, queries, evs);
    WellOrderedPrefix(w, queries, evs, e);
    RunIsMeaning(w, queries, evs[..e]);
  }

  lemma WellOrderedPrefix<E>(w: E -> nat, queries: bool, evs: seq<Arrival<E>>, n: nat)
    requires WellOrdered(w, queries, evs) && n <= |evs|
    ensures WellOrdered(w, queries, evs[..n])
  {
    forall i | 0 <= i < n ensures Allowed(w, queries, evs[..n][..i], evs[..n][i]) {
      assert evs[..n][..i] == evs[..i];
    }
  }

  // ----- session-level events and snapshot bursts do not disturb each other

  predicate IsSessionLevel<E>(a: Arrival<E>) {
    a.event.Session? || a.event.WhereaboutsQuery?
  }

  /** The stream without its session-level events. */
  function Content<E>(evs: seq<Arrival<E>>): seq<Arrival<E>> {
    if evs == [] then []
    else Content(evs[..|evs| - 1]) + if IsSessionLevel(evs[|evs| - 1]) then [] else [evs[|evs| - 1]]
  }

  /** Session-level events wherever they fall change neither whether a burst is open nor what it holds. */
  lemma {:induction false} SessionLevelIsInvisible<E>(evs: seq<Arrival<E>>)
    ensures OpenAfter(Content(evs)) == OpenAfter(evs) && Collected(Content(evs)) == Collected(evs)
    ensures Unknowns(Content(evs)) == Unknowns(evs)
  {
    if evs != [] {
      var front, a := evs[..|evs| - 1], evs[|evs| - 1];
      SessionLevelIsInvisible(front);
      if IsSessionLevel(a) {
        assert Content(evs) == Content(front);
      } else {
        assert Content(evs)[..|Content(evs)| - 1] == Content(front);
      }
    }
  }

  function ContentEffects<E>(effects: seq<Effect<E>>): seq<Effect<E>> {
    if effects == [] then []
    else
      var last := effects[|effects| - 1];
      ContentEffects(effects[..|effects| - 1]) + if last.Changed? || last.Answered? then [] else [last]
  }

  /** A session-level event tells only session-level things, and content only timeline things. */
  lemma MeaningByLevel<E>(effects: seq<Effect<E>>, collected: seq<E>, unknowns: nat, a: Arrival<E>)
    ensures var m := Listed(Meaning(collected, unknowns, a));
            ContentEffects(effects + m) == ContentEffects(effects) + if IsSessionLevel(a) then [] else m
  {
    var m := Meaning(collected, unknowns, a);
    assert effects + [] == effects;
    if m.Some? {
      assert (effects + [m.value])[..|effects|] == effects;
    }
  }

  lemma ToldAppend<E>(before: seq<Arrival<E>>, a: Arrival<E>)
    ensures Told(before + [a]) == Told(before) + Listed(Meaning(Collected(before), Unknowns(before), a))
  {
    assert (before + [a])[..|before|] == before;
  }

  /** Timeline effects of a stream are those of its content alone. */
  lemma {:induction false} ContentEffectsOfStream<E>(evs: seq<Arrival<E>>)
    ensures ContentEffects(Told(evs)) == Told(Content(evs))
  {
    if evs != [] {
      var front, a := evs[..|evs| - 1], evs[|evs| - 1];
      ContentEffectsOfStream(front);
      SessionLevelIsInvisible(front);
      MeaningByLevel(Told(front), Collected(front), Unknowns(front), a);
      if IsSessionLevel(a) {
        assert Content(evs) == Content(front);
      } else {
        ToldAppend(Content(front), a);
      }
    }
  }

  /** A snapshot burst: a start, entries, an end. */
  function Burst<E>(entries: seq<E>, historyComplete: Option<bool>): seq<Arrival<E>> {
    Opening(entries) + [Arrival(SnapshotEnd(historyComplete), true)]
  }

  function Opening<E>(entries: seq<E>): seq<Arrival<E>> {
    if entries == [] then [Arrival(SnapshotStart, true)]
    else Opening(entries[..|entries| - 1]) + [Arrival(SnapshotEntry(entries[|entries| - 1]), true)]
  }

  lemma {:induction false} OpeningCollects<E>(entries: seq<E>)
    ensures OpenAfter(Opening(entries)) && Collected(Opening(entries)) == entries && Told(Opening(entries)) == []
  {
    if entries != [] {
      var front := entries[..|entries| - 1];
      OpeningCollects(front);
      assert Opening(entries)[..|Opening(entries)| - 1] == Opening(front);
    } else {
      assert Told<E>([Arrival(SnapshotStart, true)][..0]) == [];
    }
  }

  /** However session-level events are mixed into a burst, the supervisor gets one replacement: its entries. */
  lemma MixedBurstReplacesOnce<E>(entries: seq<E>, historyComplete: Option<bool>, evs: seq<Arrival<E>>)
    requires Content(evs) == Burst(entries, historyComplete)
    ensures ContentEffects(Told(evs)) == [Replaced(entries, historyComplete)]
  {
    ContentEffectsOfStream(evs);
    OpeningCollects(entries);
    var burst := Burst(entries, historyComplete);
    assert burst[..|burst| - 1] == Opening(entries);
  }

  /** A burst within the bounds is accepted to its end. */
  lemma {:induction false} OpeningIsAccepted<E>(w: E -> nat, queries: bool, entries: seq<E>)
    requires Fits(w, SNAPSHOT_BOUND, entries)
    ensures WellOrdered(w, queries, Opening(entries))
  {
    if entries != [] {
      var front, last := entries[..|entries| - 1], entries[|entries| - 1];
      assert entries == front + [last];
      TotalAppend(w, front, last);
      OpeningIsAccepted(w, queries, front);
      OpeningCollects(front);
      WellOrderedAppend(w, queries, Opening(front), Arrival(SnapshotEntry(last), true));
    }
  }

  lemma BurstIsAccepted<E>(w: E -> nat, queries: bool, entries: seq<E>, historyComplete: Option<bool>)
    requires Fits(w, SNAPSHOT_BOUND, entries)
    ensures var r := Run(w, queries, Burst(entries, historyComplete));
            r.outcome == Continue && r.effects == [Replaced(entries, historyComplete)]
  {
    var burst, before := Burst(entries, historyComplete), Opening(entries);
    OpeningIsAccepted(w, queries, entries);
    OpeningCollects(entries);
    WellOrderedAppend(w, queries, before, Arrival(SnapshotEnd(historyComplete), true));
    assert burst[..|burst| - 1] == before;
    RunIsMeaning(w, queries, burst);
  }
}

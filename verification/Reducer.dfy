/**
 The Agent Session reducer: one delta applied to one snapshot. `Reduce` is the whole transition,
 error paths included; `AgentSession` is the object the host updates in place.
 */
module Reducer {
  import opened Wrappers
  import opened Protocol
  import opened Sequences

  datatype Error = UnsupportedVersion | InvalidValue
  datatype Outcome = Applied | Duplicate | Stale | ResyncRequired(reason: string)

  function EntryKey(e: Entry): string { e.entryId }
  function SequenceKey(e: Entry): int { e.sequence }
  function InteractionKey(x: Interaction): string { x.interactionId }
  function ReceiptKey(r: Receipt): string { r.commandId }

  // ----- one change

  function Upserted(w: Window, e: Entry): Window {
    var i := IndexOfKey(EntryKey, w.entries, e.entryId);
    if i < |w.entries| then
      Marked(if e.entryRevision > w.entries[i].entryRevision then w.(entries := w.entries[i := e]) else w)
    else
      var sorted := StableSort(SequenceKey, w.entries + [e]);
      Marked(
        if |sorted| > MAX_WINDOW_ENTRIES then w.(entries := sorted[1..], hasOlder := true, truncated := true)
        else w.(entries := sorted))
  }

  function Marked(w: Window): Window {
    w.(oldestSequence := FirstSequence(w.entries), newestSequence := LastSequence(w.entries))
  }

  /** The interactions after an upsert, or `None` when a new one would exceed the bound. */
  function WithInteraction(xs: seq<Interaction>, x: Interaction): Option<seq<Interaction>> {
    var i := IndexOfKey(InteractionKey, xs, x.interactionId);
    if i < |xs| then
      Some(if x.interactionRevision > xs[i].interactionRevision then xs[i := x] else xs)
    else if |xs| >= MAX_INTERACTIONS then None
    else Some(xs + [x])
  }

  function WithoutInteraction(xs: seq<Interaction>, id: string): seq<Interaction> {
    if xs == [] then []
    else
      WithoutInteraction(xs[..|xs| - 1], id) +
      (if xs[|xs| - 1].interactionId != id then [xs[|xs| - 1]] else [])
  }

  /** The receipts after an update, or `None` when ambiguity would become success unproven. */
  function WithReceipt(s: Snapshot, r: Receipt): Option<seq<Receipt>> {
    var i := IndexOfKey(ReceiptKey, s.receipts, r.commandId);
    if !s.OwnsReceipt(r) then Some(s.receipts)
    else if i < |s.receipts| then
      var existing := s.receipts[i];
      if existing.state == "outcome_unknown" && r.state == "applied" && r.applicationEvidence.None? then None
      else Some(if r.updatedAt >= existing.updatedAt then s.receipts[i := r] else s.receipts)
    else
      var grown := s.receipts + [r];
      Some(if |grown| > MAX_RECEIPTS then grown[1..] else grown)
  }

  /** First pass: routes and capabilities only. */
  function RouteStep(s: Snapshot, c: Change): Snapshot {
    match c
    case SetTerminalFallback(fallback) =>
      s.(terminalFallback := fallback,
         capabilities := s.capabilities.(terminalContinuity := fallback.continuity))
    case SetCapabilities(capabilities) => s.(capabilities := capabilities)
    case _ => s
  }

  /** Second pass: everything else. `None` is the error that abandons the delta. */
  function ContentStep(s: Snapshot, c: Change): Option<Snapshot> {
    match c
    case UpsertEntry(entry) => Some(s.(window := Upserted(s.window, entry)))
    case SetObservation(observation) => Some(s.(observation := observation))
    case SetTurn(turn) => Some(s.(turn := turn))
    case SetPermissionMode(mode) => Some(s.(permissionMode := Some(mode)))
    case SetModel(model) => Some(s.(model := Some(model)))
    case SetEffort(effort) => Some(s.(effort := Some(effort)))
    case SetCatalogue(models) => Some(s.(models := Some(models)))
    case UpsertInteraction(interaction) =>
      var xs := WithInteraction(s.interactions, interaction);
      if xs.Some? then Some(s.(interactions := xs.value)) else None
    case RemoveInteraction(id, _) => Some(s.(interactions := WithoutInteraction(s.interactions, id)))
    case PutReceipt(receipt) =>
      var rs := WithReceipt(s, receipt);
      if rs.Some? then Some(s.(receipts := rs.value)) else None
    case UnknownChange => Some(s.(turn := UnknownTurn("unsupported_delta")))
    case SetCapabilities(_) => Some(s)
    case SetTerminalFallback(_) => Some(s)
  }

  // ----- one delta

  function Routed(s: Snapshot, changes: seq<Change>): Snapshot {
    if changes == [] then s
    else RouteStep(Routed(s, changes[..|changes| - 1]), changes[|changes| - 1])
  }

  /** Where a fold of content changes stands: it stops, keeping what it wrote, at an error. */
  datatype Progress = Progress(snapshot: Snapshot, failed: bool)

  function Filled(s: Snapshot, changes: seq<Change>): Progress {
    if changes == [] then Progress(s, false)
    else
      var before := Filled(s, changes[..|changes| - 1]);
      if before.failed then before
      else
        var next := ContentStep(before.snapshot, changes[|changes| - 1]);
        if next.Some? then Progress(next.value, false) else Progress(before.snapshot, true)
  }

  function Enforced(s: Snapshot): Snapshot {
    var awaited := if AnyUnresolvedBlocking(s.interactions) then s.(turn := AwaitingInteraction(None)) else s;
    awaited.(capabilities := awaited.capabilities.(terminalContinuity := awaited.terminalFallback.continuity))
  }

  predicate FabricatesRoute(s: Snapshot) {
    s.topology == "managed" && s.terminalFallback.continuity != "unavailable"
  }

  predicate SameIdentity(s: Snapshot, d: Delta) {
    && d.sessionId == s.sessionId
    && d.snapshotEpoch == s.snapshotEpoch
    && d.processGeneration == s.processGeneration
  }

  datatype Reduction = Reduction(after: Snapshot, result: Result<Outcome, Error>)

  function Reduce(s: Snapshot, d: Delta): Reduction {
    if d.v != PROTOCOL_VERSION then Reduction(s, Err(UnsupportedVersion))
    else if !d.Valid() then Reduction(s, Err(InvalidValue))
    else if !SameIdentity(s, d) then Reduction(s, Ok(ResyncRequired("identity_fence")))
    else if d.revision <= s.revision then Reduction(s, Ok(if d.revision == s.revision then Duplicate else Stale))
    else if d.baseRevision != s.revision || d.revision != s.revision + 1 then
      Reduction(s, Ok(ResyncRequired("revision_gap")))
    else
      var filled := Filled(Routed(s, d.changes), d.changes);
      if filled.failed then Reduction(filled.snapshot, Err(InvalidValue))
      else
        var enforced := Enforced(filled.snapshot.(revision := d.revision));
        Reduction(enforced, if FabricatesRoute(enforced) then Err(InvalidValue) else Ok(Applied))
  }

  // ----- the object

  class AgentSession {
    const v: nat
    const sessionId: string
    const snapshotEpoch: U64
    const processGeneration: U64
    const adapter: AdapterMetadata
    const topology: string
    const presence: string
    const storedReason: Option<string>
    const controlOwner: string
    const drift: Option<DriftNote>
    var revision: U64
    var observation: Observation
    var turn: TurnState
    var permissionMode: Option<string>
    var model: Option<string>
    var effort: Option<string>
    var models: Option<seq<ModelOption>>
    var capabilities: Capabilities
    var interactions: seq<Interaction>
    var window: Window
    var terminalFallback: TerminalFallback
    var receipts: seq<Receipt>

    function View(): Snapshot
      reads this
    {
      Snapshot(v, sessionId, snapshotEpoch, revision, processGeneration, adapter, topology, presence,
               storedReason, controlOwner, observation, turn, permissionMode, model, effort, models, drift,
               capabilities, interactions, window, terminalFallback, receipts)
    }

    constructor (s: Snapshot)
      ensures View() == s
    {
      v, sessionId, snapshotEpoch, processGeneration := s.v, s.sessionId, s.snapshotEpoch, s.processGeneration;
      adapter, topology, presence, storedReason := s.adapter, s.topology, s.presence, s.storedReason;
      controlOwner, drift := s.controlOwner, s.drift;
      revision, observation, turn := s.revision, s.observation, s.turn;
      permissionMode, model, effort, models := s.permissionMode, s.model, s.effort, s.models;
      capabilities, interactions, window := s.capabilities, s.interactions, s.window;
      terminalFallback, receipts := s.terminalFallback, s.receipts;
    }

    method UpsertEntry(entry: Entry)
      modifies this`window
      ensures window == Upserted(old(window), entry)
    {
      var entries := window.entries;
      var i := IndexOfKey(EntryKey, entries, entry.entryId);
      if i < |entries| {
        if entry.entryRevision > entries[i].entryRevision {
          window := window.(entries := entries[i := entry]);
        }
      } else {
        window := window.(entries := StableSort(SequenceKey, entries + [entry]));
        if |window.entries| > MAX_WINDOW_ENTRIES {
          window := window.(entries := window.entries[1..]);
          window := window.(hasOlder := true, truncated := true);
        }
      }
      window := window.(oldestSequence := FirstSequence(window.entries));
      window := window.(newestSequence := LastSequence(window.entries));
    }

    method PutInteraction(interaction: Interaction) returns (ok: bool)
      modifies this`interactions
      ensures ok == WithInteraction(old(interactions), interaction).Some?
      ensures interactions ==
              if ok then WithInteraction(old(interactions), interaction).value else old(interactions)
    {
      var i := IndexOfKey(InteractionKey, interactions, interaction.interactionId);
      if i < |interactions| {
        if interaction.interactionRevision > interactions[i].interactionRevision {
          interactions := interactions[i := interaction];
        }
        return true;
      }
      if |interactions| >= MAX_INTERACTIONS {
        return false;
      }
      interactions := interactions + [interaction];
      ok := true;
    }

    method DropInteraction(id: string)
      modifies this`interactions
      ensures interactions == WithoutInteraction(old(interactions), id)
    {
      var kept: seq<Interaction> := [];
      for i := 0 to |interactions|
        invariant kept == WithoutInteraction(interactions[..i], id)
        invariant interactions == old(interactions)
      {
        assert interactions[..i + 1][..i] == interactions[..i];
        if interactions[i].interactionId != id {
          kept := kept + [interactions[i]];
        }
      }
      assert interactions[..|interactions|] == interactions;
      interactions := kept;
    }

    method PutReceipt(receipt: Receipt) returns (ok: bool)
      modifies this`receipts
      ensures ok == WithReceipt(old(View()), receipt).Some?
      ensures receipts == if ok then WithReceipt(old(View()), receipt).value else old(receipts)
    {
      if receipt.sessionId != sessionId || receipt.snapshotEpoch != snapshotEpoch
         || receipt.processGeneration != processGeneration {
        return true;
      }
      var i := IndexOfKey(ReceiptKey, receipts, receipt.commandId);
      if i < |receipts| {
        if receipts[i].state == "outcome_unknown" && receipt.state == "applied"
           && receipt.applicationEvidence.None? {
          return false;
        }
        if receipt.updatedAt >= receipts[i].updatedAt {
          receipts := receipts[i := receipt];
        }
      } else {
        receipts := receipts + [receipt];
        if |receipts| > MAX_RECEIPTS {
          receipts := receipts[1..];
        }
      }
      ok := true;
    }

    method ApplyRoute(change: Change)
      modifies this`terminalFallback, this`capabilities
      ensures View() == RouteStep(old(View()), change)
    {
      match change {
        case SetTerminalFallback(fallback) =>
          terminalFallback := fallback;
          capabilities := capabilities.(terminalContinuity := fallback.continuity);
        case SetCapabilities(replacement) => capabilities := replacement;
        case _ =>
      }
    }

    method ApplyContent(change: Change) returns (ok: bool)
      modifies this
      ensures ok == ContentStep(old(View()), change).Some?
      ensures View() == if ok then ContentStep(old(View()), change).value else old(View())
    {
      ok := true;
      match change {
        case UpsertEntry(entry) => UpsertEntry(entry);
        case UpsertInteraction(interaction) => ok := PutInteraction(interaction);
        case RemoveInteraction(id, _) => DropInteraction(id);
        case PutReceipt(receipt) => ok := PutReceipt(receipt);
        case _ => ApplySetting(change);
      }
    }

    method ApplySetting(change: Change)
      requires !change.UpsertEntry? && !change.UpsertInteraction? && !change.RemoveInteraction? && !change.PutReceipt?
      modifies this
      ensures ContentStep(old(View()), change) == Some(View())
    {
      match change {
        case SetObservation(replacement) => observation := replacement;
        case SetTurn(replacement) => turn := replacement;
        case SetPermissionMode(mode) => permissionMode := Some(mode);
        case SetModel(name) => model := Some(name);
        case SetEffort(level) => effort := Some(level);
        case SetCatalogue(catalogue) => models := Some(catalogue);
        case UnknownChange => turn := UnknownTurn("unsupported_delta");
        case SetCapabilities(_) =>
        case SetTerminalFallback(_) =>
      }
    }

    method ApplyRoutes(changes: seq<Change>)
      modifies this`terminalFallback, this`capabilities
      ensures View() == Routed(old(View()), changes)
    {
      for i := 0 to |changes|
        invariant View() == Routed(old(View()), changes[..i])
      {
        assert changes[..i + 1][..i] == changes[..i];
        ApplyRoute(changes[i]);
      }
      assert changes[..|changes|] == changes;
    }

    method ApplyContents(changes: seq<Change>) returns (ok: bool)
      modifies this
      ensures Progress(View(), !ok) == Filled(old(View()), changes)
    {
      for i := 0 to |changes|
        invariant Progress(View(), false) == Filled(old(View()), changes[..i])
      {
        assert changes[..i + 1][..i] == changes[..i];
        ok := ApplyContent(changes[i]);
        if !ok {
          FailureSticks(old(View()), changes, i + 1);
          return;
        }
      }
      assert changes[..|changes|] == changes;
      ok := true;
    }

    method EnforceInvariants() returns (ok: bool)
      modifies this`turn, this`capabilities
      ensures View() == Enforced(old(View()))
      ensures ok == !FabricatesRoute(View())
    {
      if AnyUnresolvedBlocking(interactions) {
        turn := AwaitingInteraction(None);
      }
      if capabilities.terminalContinuity != terminalFallback.continuity {
        capabilities := capabilities.(terminalContinuity := terminalFallback.continuity);
      }
      ok := !(topology == "managed" && terminalFallback.continuity != "unavailable");
    }

    method ApplyDelta(d: Delta) returns (result: Result<Outcome, Error>)
      modifies this
      ensures Reduction(View(), result) == Reduce(old(View()), d)
    {
      if d.v != PROTOCOL_VERSION {
        return Err(UnsupportedVersion);
      }
      if !d.Valid() {
        return Err(InvalidValue);
      }
      if d.sessionId != sessionId || d.snapshotEpoch != snapshotEpoch || d.processGeneration != processGeneration {
        return Ok(ResyncRequired("identity_fence"));
      }
      if d.revision <= revision {
        return Ok(if d.revision == revision then Duplicate else Stale);
      }
      if d.baseRevision != revision || d.revision != revision + 1 {
        return Ok(ResyncRequired("revision_gap"));
      }
      ApplyRoutes(d.changes);
      var filled := ApplyContents(d.changes);
      if !filled {
        return Err(InvalidValue);
      }
      revision := d.revision;
      var ok := EnforceInvariants();
      result := if ok then Ok(Applied) else Err(InvalidValue);
    }
  }

  /** A fold that failed part way reports that same partial state at the end. */
  lemma {:induction false} FailureSticks(s: Snapshot, changes: seq<Change>, n: nat)
    requires n <= |changes|
    requires Filled(s, changes[..n]).failed
    ensures Filled(s, changes) == Filled(s, changes[..n])
    decreases |changes|
  {
    if n == |changes| {
      assert changes[..n] == changes;
    } else {
      var front := changes[..|changes| - 1];
      assert front[..n] == changes[..n];
      FailureSticks(s, front, n);
    }
  }
}

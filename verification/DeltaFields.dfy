/**
 What a delta's two passes leave in every field that is not a list: the value the last change to name
 it gives, or the one held before.
 */
module DeltaFields {
  import opened Wrappers
  import opened Protocol
  import opened Sequences
  import opened Reducer
  import PendingInteractions

  // ----- what each change names

  function NamesRoute(c: Change): Option<TerminalFallback> {
    if c.SetTerminalFallback? then Some(c.terminalFallback) else None
  }

  function NamesCapabilities(c: Change): Option<Capabilities> {
    if c.SetCapabilities? then Some(c.capabilities) else None
  }

  function NamesObservation(c: Change): Option<Observation> {
    if c.SetObservation? then Some(c.observation) else None
  }

  /** A change this version does not know names an unknown turn. */
  function NamesTurn(c: Change): Option<TurnState> {
    if c.SetTurn? then Some(c.turn)
    else if c.UnknownChange? then Some(UnknownTurn("unsupported_delta"))
    else None
  }

  function NamesMode(c: Change): Option<Option<string>> {
    if c.SetPermissionMode? then Some(Some(c.permissionMode)) else None
  }

  function NamesModel(c: Change): Option<Option<string>> {
    if c.SetModel? then Some(Some(c.model)) else None
  }

  function NamesEffort(c: Change): Option<Option<string>> {
    if c.SetEffort? then Some(Some(c.effort)) else None
  }

  function NamesCatalogue(c: Change): Option<Option<seq<ModelOption>>> {
    if c.SetCatalogue? then Some(Some(c.models)) else None
  }

  function LastFallback(changes: seq<Change>, held: TerminalFallback): TerminalFallback {
    Last(NamesRoute, changes, held)
  }

  function LastCapabilities(changes: seq<Change>, held: Capabilities): Capabilities {
    Last(NamesCapabilities, changes, held)
  }

  function LastTurn(changes: seq<Change>, held: TurnState): TurnState {
    Last(NamesTurn, changes, held)
  }

  // ----- the two passes

  /** The first pass leaves the last route and the last capabilities, and nothing else of its own. */
  lemma {:induction false} RoutedFields(s: Snapshot, changes: seq<Change>)
    ensures var r := Routed(s, changes);
            && r.terminalFallback == LastFallback(changes, s.terminalFallback)
            && r.capabilities == LastCapabilities(changes, s.capabilities).(
                                   terminalContinuity := r.capabilities.terminalContinuity)
            && r == s.(terminalFallback := r.terminalFallback, capabilities := r.capabilities)
  {
    if changes != [] {
      RoutedFields(s, changes[..|changes| - 1]);
    }
  }

  /** What the second pass names, each field by the last change that names it. */
  function Named(s: Snapshot, changes: seq<Change>): Snapshot {
    s.(observation := Last(NamesObservation, changes, s.observation),
       turn := LastTurn(changes, s.turn),
       permissionMode := Last(NamesMode, changes, s.permissionMode),
       model := Last(NamesModel, changes, s.model),
       effort := Last(NamesEffort, changes, s.effort),
       models := Last(NamesCatalogue, changes, s.models))
  }

  /** `s` with the lists of `r`. */
  function WithListsOf(s: Snapshot, r: Snapshot): Snapshot {
    s.(interactions := r.interactions, window := r.window, receipts := r.receipts)
  }

  /** The second pass leaves every field it names as the last change naming it says. */
  lemma {:induction false} FilledFields(s: Snapshot, changes: seq<Change>)
    requires !Filled(s, changes).failed
    ensures var f := Filled(s, changes).snapshot;
            f == WithListsOf(Named(s, changes), f) && f.window.historyBoundary == s.window.historyBoundary
  {
    if changes != [] {
      FilledFields(s, changes[..|changes| - 1]);
    }
  }

  // ----- the turn

  /** Some identifier's foremost interaction still blocks the turn. */
  ghost predicate StillBlocked(held: seq<Interaction>, changes: seq<Change>) {
    exists id :: AnyUnresolvedBlocking(PendingInteractions.Foremost(held, changes, id))
  }

  lemma {:induction false} BlockedById(xs: seq<Interaction>, x: Interaction)
    ensures x in xs <==> x in WithKey(InteractionKey, xs, x.interactionId)
  {
    if xs != [] {
      BlockedById(xs[..|xs| - 1], x);
    }
  }

  lemma {:induction false} WithKeyIsPart(xs: seq<Interaction>, id: string)
    ensures forall x | x in WithKey(InteractionKey, xs, id) :: x in xs
  {
    if xs != [] {
      WithKeyIsPart(xs[..|xs| - 1], id);
    }
  }

  lemma BlockedUnder(xs: seq<Interaction>, i: nat)
    requires i < |xs| && xs[i].UnresolvedBlocking()
    ensures AnyUnresolvedBlocking(WithKey(InteractionKey, xs, xs[i].interactionId))
  {
    BlockedById(xs, xs[i]);
    var under := WithKey(InteractionKey, xs, xs[i].interactionId);
    var j :| 0 <= j < |under| && under[j] == xs[i];
  }

  lemma BlockedOverall(xs: seq<Interaction>, id: string)
    requires AnyUnresolvedBlocking(WithKey(InteractionKey, xs, id))
    ensures AnyUnresolvedBlocking(xs)
  {
    WithKeyIsPart(xs, id);
    var under := WithKey(InteractionKey, xs, id);
    var j :| 0 <= j < |under| && under[j].UnresolvedBlocking();
    assert under[j] in under;
    var i :| 0 <= i < |xs| && xs[i] == under[j];
  }

  lemma BlocksExactly(s: Snapshot, changes: seq<Change>)
    requires !Filled(s, changes).failed
    ensures AnyUnresolvedBlocking(Filled(s, changes).snapshot.interactions) <==> StillBlocked(s.interactions, changes)
  {
    var xs := Filled(s, changes).snapshot.interactions;
    if AnyUnresolvedBlocking(xs) {
      var i :| 0 <= i < |xs| && xs[i].UnresolvedBlocking();
      BlockedUnder(xs, i);
      PendingInteractions.HeldIsTheBestOffered(s, changes, xs[i].interactionId);
      assert StillBlocked(s.interactions, changes);
    } else if StillBlocked(s.interactions, changes) {
      var id :| AnyUnresolvedBlocking(PendingInteractions.Foremost(s.interactions, changes, id));
      PendingInteractions.HeldIsTheBestOffered(s, changes, id);
      BlockedOverall(xs, id);
    }
  }
}

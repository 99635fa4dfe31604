/**
 When the reducer refuses a delta it was ready to apply, and what the refusal leaves written.
 Refusing is not undoing: routes are committed first, and the revision before the last check.
 */
module Refusals {
  import opened Wrappers
  import opened Protocol
  import opened Sequences
  import opened Reducer
  import opened DeltaFields
  import opened PendingInteractions
  import opened Validity

  /** The delta the snapshot is waiting for: valid, about this session, one revision on. */
  predicate IsNext(s: Snapshot, d: Delta) {
    d.Valid() && SameIdentity(s, d) && d.baseRevision == s.revision && d.revision == s.revision + 1
  }

  /** Whatever the content pass meets, it leaves the route, the revision and the identity alone. */
  lemma {:induction false} FilledKeepsFence(s: Snapshot, changes: seq<Change>)
    ensures var f := Filled(s, changes).snapshot;
            && f.terminalFallback == s.terminalFallback && f.revision == s.revision && f.topology == s.topology
            && f.sessionId == s.sessionId && f.snapshotEpoch == s.snapshotEpoch
            && f.processGeneration == s.processGeneration
  {
    if changes != [] {
      FilledKeepsFence(s, changes[..|changes| - 1]);
    }
  }

  // ----- refusals, exactly

  /** The changes leave a managed session with a terminal route, named by them or held before. */
  predicate KeepsRoute(s: Snapshot, changes: seq<Change>) {
    s.topology == "managed" && LastFallback(changes, s.terminalFallback).continuity != "unavailable"
  }

  lemma Passes(s: Snapshot, d: Delta)
    requires IsNext(s, d)
    ensures var filled := Filled(Routed(s, d.changes), d.changes);
            && (filled.failed <==> TooManyIn(Ids(s.interactions), d.changes))
            && filled.snapshot.terminalFallback == LastFallback(d.changes, s.terminalFallback)
            && filled.snapshot.topology == s.topology && filled.snapshot.revision == s.revision
            && SameIdentity(filled.snapshot, d)
  {
    RoutedFields(s, d.changes);
    FailsExactly(Routed(s, d.changes), d.changes);
    FilledKeepsFence(Routed(s, d.changes), d.changes);
  }

  /**
   The delta a snapshot is waiting for is applied if and only if it never raises a seventeenth interaction
   and leaves no route on a managed session; otherwise it is refused as invalid. Either way its last route is
   written. The revision is too, unless the content pass failed.
   */
  lemma RefusedExactly(s: Snapshot, d: Delta)
    requires IsNext(s, d)
    ensures Reduce(s, d).result ==
            if TooMany(s, d.changes) || KeepsRoute(s, d.changes) then Err(InvalidValue) else Ok(Applied)
    ensures Reduce(s, d).after.terminalFallback == LastFallback(d.changes, s.terminalFallback)
    ensures FabricatesRoute(Reduce(s, d).after) <==> KeepsRoute(s, d.changes)
    ensures Reduce(s, d).after.revision == if TooMany(s, d.changes) then s.revision else d.revision
  {
    Passes(s, d);
  }

  /** A refused route stays behind, and resending the delta that named it is answered as a duplicate. */
  lemma RefusedRouteStaysBehind(s: Snapshot, d: Delta)
    requires IsNext(s, d) && KeepsRoute(s, d.changes) && !TooMany(s, d.changes)
    ensures Reduce(s, d).result == Err(InvalidValue)
    ensures FabricatesRoute(Reduce(s, d).after) && Reduce(s, d).after.revision == d.revision
    ensures Reduce(Reduce(s, d).after, d) == Reduction(Reduce(s, d).after, Ok(Duplicate))
  {
    RefusedExactly(s, d);
    Passes(s, d);
  }

  /** A delta that fails part-way keeps what came before the failing change, and fails again when resent. */
  lemma FailedContentStaysBehind(s: Snapshot, d: Delta) returns (i: nat)
    requires IsNext(s, d) && TooMany(s, d.changes)
    ensures i < |d.changes| && OneTooMany(Ids(s.interactions), d.changes, i)
    ensures forall j | 0 <= j < i :: !OneTooMany(Ids(s.interactions), d.changes, j)
    ensures Reduce(s, d).after == Filled(Routed(s, d.changes), d.changes[..i]).snapshot
    ensures !Filled(Routed(s, d.changes), d.changes[..i]).failed
    ensures IsNext(Reduce(s, d).after, d) && TooMany(Reduce(s, d).after, d.changes)
    ensures Reduce(Reduce(s, d).after, d).result == Err(InvalidValue)
  {
    var ids, routed := Ids(s.interactions), Routed(s, d.changes);
    i := FirstTooMany(ids, d.changes);
    Passes(s, d);
    RoutedFields(s, d.changes);
    StopsAt(routed, d.changes, i);
    PendingTwice(ids, d.changes[..i]);
    SameLength(Pending(Pending(ids, d.changes[..i]), d.changes[..i]), Pending(ids, d.changes[..i]));
    var again := Reduce(s, d).after;
    assert Ids(again.interactions) == Pending(ids, d.changes[..i]);
    var held := Ids(again.interactions);
    SameMembers(Pending(held, d.changes[..i]), held, d.changes[i].interaction.interactionId);
    assert OneTooMany(Ids(again.interactions), d.changes, i);
    RefusedExactly(again, d);
  }

  lemma SameMembers(xs: seq<string>, ys: seq<string>, id: string)
    requires multiset(xs) == multiset(ys)
    ensures id in xs <==> id in ys
  {
    assert id in multiset(xs) <==> id in multiset(ys);
  }

  lemma FirstTooMany(ids: seq<string>, changes: seq<Change>) returns (i: nat)
    requires TooManyIn(ids, changes)
    ensures i < |changes| && OneTooMany(ids, changes, i)
    ensures forall j | 0 <= j < i :: !OneTooMany(ids, changes, j)
  {
    i := 0;
    while !OneTooMany(ids, changes, i)
      invariant i < |changes| && forall j | 0 <= j < i :: !OneTooMany(ids, changes, j)
      invariant exists k :: i <= k < |changes| && OneTooMany(ids, changes, k)
      decreases |changes| - i
    {
      i := i + 1;
    }
  }

  /** The pass stops at the first change that is one too many. */
  lemma StopsAt(s: Snapshot, changes: seq<Change>, i: nat)
    requires forall j | 0 <= j < |changes| :: changes[j].Valid()
    requires i < |changes| && OneTooMany(Ids(s.interactions), changes, i)
    requires forall j | 0 <= j < i :: !OneTooMany(Ids(s.interactions), changes, j)
    ensures !Filled(s, changes[..i]).failed
    ensures Filled(s, changes) == Filled(s, changes[..i]).(failed := true)
    ensures Ids(Filled(s, changes[..i]).snapshot.interactions) == Pending(Ids(s.interactions), changes[..i])
  {
    var ids := Ids(s.interactions);
    forall j | 0 <= j < i ensures !OneTooMany(ids, changes[..i], j) {
      assert changes[..i][..j] == changes[..j] && !OneTooMany(ids, changes, j);
    }
    FailsExactly(s, changes[..i]);
    FilledIds(s, changes[..i]);
    assert changes[..i + 1][..i] == changes[..i];
    ContentFails(Filled(s, changes[..i]).snapshot, changes[i]);
    FailureSticks(s, changes, i + 1);
  }

  /** A released session refuses every delta that names no route, though none of them fabricates one. */
  lemma ReleasedSessionRefusesEverything(s: Snapshot, d: Delta)
    requires s.Valid() && s.presence == "stored" && s.storedReason == Some("released")
    requires s.terminalFallback.continuity == "resumable_session"
    requires IsNext(s, d) && forall i | 0 <= i < |d.changes| :: !d.changes[i].SetTerminalFallback?
    ensures Reduce(s, d).result == Err(InvalidValue) && Reduce(s, d).after.terminalFallback == s.terminalFallback
    ensures !TooMany(s, d.changes) ==> Reduce(s, d).after.revision == d.revision
  {
    LastWhenUnnamed(NamesRoute, d.changes, s.terminalFallback);
    RefusedExactly(s, d);
  }

  lemma {:induction false} PendingGrows(ids: seq<string>, changes: seq<Change>)
    ensures |Pending(ids, changes)| <= |ids| + |changes|
  {
    if changes != [] {
      var front, last := changes[..|changes| - 1], changes[|changes| - 1];
      PendingGrows(ids, front);
      if last.RemoveInteraction? {
        ExceptShrinks(Pending(ids, front), last.interactionId);
      }
    }
  }

  lemma {:induction false} ExceptShrinks(ids: seq<string>, id: string)
    ensures |Except(ids, id)| <= |ids|
  {
    if ids != [] {
      ExceptShrinks(ids[..|ids| - 1], id);
    }
  }

  /** Changes that could not fill the list even by raising something each are never too many. */
  lemma FewFit(ids: seq<string>, changes: seq<Change>)
    requires |ids| + |changes| <= MAX_INTERACTIONS
    ensures !TooManyIn(ids, changes)
  {
    forall i | 0 <= i < |changes| ensures !OneTooMany(ids, changes, i) {
      PendingGrows(ids, changes[..i]);
    }
  }

  lemma RouteAlone(s: Snapshot, fallback: TerminalFallback)
    ensures !TooMany(s, [SetTerminalFallback(fallback)])
    ensures LastFallback([SetTerminalFallback(fallback)], s.terminalFallback) == fallback
  {
  }

  // ----- deltas that break what the rules say

  const UNAVAILABLE := TerminalFallback("unavailable", None, None, None, None)

  function NextDelta(s: Snapshot, changes: seq<Change>): Delta
    requires s.revision + 1 < 0x1_0000_0000_0000_0000
  {
    Delta(PROTOCOL_VERSION, s.sessionId, s.snapshotEpoch, s.processGeneration, s.revision, s.revision + 1, changes)
  }

  lemma NextDeltaIsNext(s: Snapshot, changes: seq<Change>)
    requires s.Valid() && s.revision + 1 < 0x1_0000_0000_0000_0000
    requires 1 <= |changes| <= MAX_CHANGES && forall i | 0 <= i < |changes| :: changes[i].Valid()
    ensures IsNext(s, NextDelta(s, changes))
  {
  }

  /**
   Naming any route to any valid managed session that is not stored, and so has none, is refused and
   leaves the session with that route.
   */
  lemma ManagedSessionGetsARoute(s: Snapshot, fallback: TerminalFallback)
    requires s.Valid() && s.topology == "managed" && s.presence != "stored"
    requires s.revision + 1 < 0x1_0000_0000_0000_0000
    requires fallback.Valid() && fallback.continuity != "unavailable"
    ensures var d := NextDelta(s, [SetTerminalFallback(fallback)]);
            && d.Valid() && !FabricatesRoute(s)
            && Reduce(s, d).result == Err(InvalidValue)
            && FabricatesRoute(Reduce(s, d).after) && Reduce(s, d).after.terminalFallback == fallback
  {
    var d := NextDelta(s, [SetTerminalFallback(fallback)]);
    NextDeltaIsNext(s, d.changes);
    RouteAlone(s, fallback);
    RefusedExactly(s, d);
  }

  /** Taking the route from any adopted session is applied, and leaves it invalid. */
  lemma AdoptedSessionLosesItsRoute(s: Snapshot)
    requires s.Valid() && s.topology == "adopted" && s.revision + 1 < 0x1_0000_0000_0000_0000
    ensures var d := NextDelta(s, [SetTerminalFallback(UNAVAILABLE)]);
            d.Valid() && Reduce(s, d).result == Ok(Applied) && !Reduce(s, d).after.Valid()
  {
    var d := NextDelta(s, [SetTerminalFallback(UNAVAILABLE)]);
    assert ValidToken("unavailable");
    NextDeltaIsNext(s, d.changes);
    RouteAlone(s, UNAVAILABLE);
    RefusedExactly(s, d);
    AppliedFields(s, d);
  }

  /** A stored session with something pending is not valid. */
  lemma StoredMeansNothingPending(s: Snapshot, changes: seq<Change>, r: Snapshot, id: string)
    requires s.Valid() && s.presence == "stored" && r.presence == "stored" && Quiet(s, changes, r)
    requires Lingers(changes, id)
    ensures !r.Valid()
  {
  }

  lemma RouteThenInteraction(s: Snapshot, x: Interaction)
    ensures var changes := [SetTerminalFallback(UNAVAILABLE), UpsertInteraction(x)];
            && LastFallback(changes, s.terminalFallback) == UNAVAILABLE
            && Lingers(changes, x.interactionId)
            && (s.interactions == [] ==> !TooMany(s, changes))
  {
    var changes := [SetTerminalFallback(UNAVAILABLE), UpsertInteraction(x)];
    LastByPosition(NamesRoute, changes, s.terminalFallback, 0);
    assert changes[..1] == [changes[0]];
    assert Raises(changes, 1, x.interactionId);
    if s.interactions == [] {
      FewFit(Ids(s.interactions), changes);
    }
  }

  lemma RouteThenInteractionIsNext(s: Snapshot, x: Interaction)
    requires s.Valid() && s.revision + 1 < 0x1_0000_0000_0000_0000 && x.Valid()
    ensures IsNext(s, NextDelta(s, [SetTerminalFallback(UNAVAILABLE), UpsertInteraction(x)]))
  {
    var changes := [SetTerminalFallback(UNAVAILABLE), UpsertInteraction(x)];
    assert ValidToken("unavailable");
    assert changes[0].Valid() && changes[1].Valid();
    NextDeltaIsNext(s, changes);
  }

  /** Raising any interaction on any stored session, its route given up, is applied, and leaves it invalid. */
  lemma StoredSessionTakesAnInteraction(s: Snapshot, x: Interaction)
    requires s.Valid() && s.presence == "stored" && s.revision + 1 < 0x1_0000_0000_0000_0000 && x.Valid()
    ensures var d := NextDelta(s, [SetTerminalFallback(UNAVAILABLE), UpsertInteraction(x)]);
            d.Valid() && Reduce(s, d).result == Ok(Applied) && !Reduce(s, d).after.Valid()
  {
    var d := NextDelta(s, [SetTerminalFallback(UNAVAILABLE), UpsertInteraction(x)]);
    RouteThenInteractionIsNext(s, x);
    RouteThenInteraction(s, x);
    RefusedExactly(s, d);
    AppliedFields(s, d);
    AppliedIsQuiet(s, d);
    StoredMeansNothingPending(s, d.changes, Reduce(s, d).after, x.interactionId);
  }
}

/**
 The reducer as a replicated state machine. The host writes a log of deltas; a phone receives
 some delivery of them with losses, repeats, reorderings, and frames that are malformed or belong
 to another incarnation. The replica always stands at a prefix of the log.
 */
module Replica {
  import opened Wrappers
  import opened Protocol
  import opened Sequences
  import opened Reducer

  /** What a replica holds after receiving `deltas`, whatever each one's outcome was. */
  function Received(s: Snapshot, deltas: seq<Delta>): Snapshot {
    if deltas == [] then s
    else Reduce(Received(s, deltas[..|deltas| - 1]), deltas[|deltas| - 1]).after
  }

  /** A log the host produced: every delta applies to the state its predecessors leave. */
  ghost predicate AppliesCleanly(s: Snapshot, log: seq<Delta>) {
    forall k | 0 <= k < |log| :: Reduce(Received(s, log[..k]), log[k]).result == Ok(Applied)
  }

  /** What the transport may hand over: log deltas in any order, foreign ones, malformed ones. */
  predicate Deliverable(s: Snapshot, log: seq<Delta>, d: Delta) {
    d in log || !SameIdentity(s, d) || !d.Valid()
  }

  /** How many log deltas a delivery yields when each is only taken as the next expected one. */
  function InOrder(log: seq<Delta>, delivery: seq<Delta>): (k: nat)
    ensures k <= |log|
  {
    if delivery == [] then 0
    else
      var k := InOrder(log, delivery[..|delivery| - 1]);
      if k < |log| && delivery[|delivery| - 1] == log[k] then k + 1 else k
  }

  // ----- the log

  lemma EveryOutcomeButAppliedIsInert(s: Snapshot, d: Delta)
    requires Reduce(s, d).result.Ok? && Reduce(s, d).result != Ok(Applied)
    ensures Reduce(s, d).after == s
  {
  }

  lemma {:induction false} RoutedKeepsIdentity(s: Snapshot, changes: seq<Change>)
    ensures var r := Routed(s, changes);
            r.sessionId == s.sessionId && r.snapshotEpoch == s.snapshotEpoch
            && r.processGeneration == s.processGeneration && r.revision == s.revision
  {
    if changes != [] {
      RoutedKeepsIdentity(s, changes[..|changes| - 1]);
    }
  }

  lemma {:induction false} FilledKeepsIdentity(s: Snapshot, changes: seq<Change>)
    ensures var f := Filled(s, changes).snapshot;
            f.sessionId == s.sessionId && f.snapshotEpoch == s.snapshotEpoch
            && f.processGeneration == s.processGeneration && f.revision == s.revision
  {
    if changes != [] {
      FilledKeepsIdentity(s, changes[..|changes| - 1]);
    }
  }

  /** No delta moves a snapshot to another identity, and applying one moves the revision by one. */
  lemma ReduceKeepsIdentity(s: Snapshot, d: Delta)
    ensures var r := Reduce(s, d);
            && r.after.sessionId == s.sessionId && r.after.snapshotEpoch == s.snapshotEpoch
            && r.after.processGeneration == s.processGeneration
            && (r.result == Ok(Applied) ==>
                  && d.Valid() && SameIdentity(s, d)
                  && d.baseRevision == s.revision && d.revision == r.after.revision == s.revision + 1)
  {
    RoutedKeepsIdentity(s, d.changes);
    FilledKeepsIdentity(Routed(s, d.changes), d.changes);
  }

  /** The k-th delta of a clean log is fenced to this session and carries revision start + k + 1. */
  lemma {:induction false} LogIsNumbered(s: Snapshot, log: seq<Delta>, k: nat)
    requires AppliesCleanly(s, log) && k <= |log|
    ensures var at := Received(s, log[..k]);
            && at.revision == s.revision + k
            && at.sessionId == s.sessionId && at.snapshotEpoch == s.snapshotEpoch
            && at.processGeneration == s.processGeneration
    ensures k < |log| ==>
              && log[k].Valid() && SameIdentity(s, log[k])
              && log[k].baseRevision == s.revision + k && log[k].revision == s.revision + k + 1
    decreases k
  {
    if k > 0 {
      LogIsNumbered(s, log, k - 1);
      assert log[..k][..k - 1] == log[..k - 1];
      ReduceKeepsIdentity(Received(s, log[..k - 1]), log[k - 1]);
    }
    if k < |log| {
      ReduceKeepsIdentity(Received(s, log[..k]), log[k]);
    }
  }

  // ----- one delivered delta

  /** The verdict on any log delta, at any point, is read off the two positions alone. */
  lemma OutcomeByPosition(s: Snapshot, log: seq<Delta>, k: nat, i: nat)
    requires AppliesCleanly(s, log) && k <= |log| && i < |log|
    ensures Reduce(Received(s, log[..k]), log[i]).result ==
            Ok(if i == k then Applied
               else if i + 1 == k then Duplicate
               else if i < k then Stale
               else ResyncRequired("revision_gap"))
  {
    LogIsNumbered(s, log, k);
    LogIsNumbered(s, log, i);
  }

  lemma LogDeltaMovesOnlyTheNext(s: Snapshot, log: seq<Delta>, k: nat, i: nat)
    requires AppliesCleanly(s, log) && k <= |log| && i < |log|
    ensures Reduce(Received(s, log[..k]), log[i]).after == Received(s, log[..if i == k then k + 1 else k])
  {
    if i == k {
      assert log[..k + 1][..k] == log[..k];
    } else {
      OutcomeByPosition(s, log, k, i);
      EveryOutcomeButAppliedIsInert(Received(s, log[..k]), log[i]);
    }
  }

  lemma FencedDeltaIsInert(s: Snapshot, d: Delta)
    requires !SameIdentity(s, d) || !d.Valid()
    ensures Reduce(s, d).after == s
  {
  }

  lemma OneDelivery(s: Snapshot, log: seq<Delta>, k: nat, d: Delta)
    requires AppliesCleanly(s, log) && k <= |log| && Deliverable(s, log, d)
    ensures Reduce(Received(s, log[..k]), d).after ==
            Received(s, log[..if k < |log| && d == log[k] then k + 1 else k])
  {
    LogIsNumbered(s, log, k);
    if i :| 0 <= i < |log| && log[i] == d {
      LogIsNumbered(s, log, i);
      LogDeltaMovesOnlyTheNext(s, log, k, i);
    } else {
      FencedDeltaIsInert(Received(s, log[..k]), d);
    }
  }

  // ----- whole deliveries

  lemma {:induction false} ReceivedIsAPrefix(s: Snapshot, log: seq<Delta>, delivery: seq<Delta>)
    requires AppliesCleanly(s, log)
    requires forall d | d in delivery :: Deliverable(s, log, d)
    ensures Received(s, delivery) == Received(s, log[..InOrder(log, delivery)])
  {
    if delivery == [] {
      assert log[..0] == [];
    } else {
      var front, d := delivery[..|delivery| - 1], delivery[|delivery| - 1];
      ReceivedIsAPrefix(s, log, front);
      OneDelivery(s, log, InOrder(log, front), d);
    }
  }

  /** Taking the next expected delta whenever it shows up finds the longest prefix there is. */
  lemma {:induction false} InOrderIsLongest(log: seq<Delta>, delivery: seq<Delta>, j: nat)
    requires j <= |log|
    requires forall a, b | 0 <= a < b < |log| :: log[a] != log[b]
    ensures IsSubsequence(log[..j], delivery) <==> j <= InOrder(log, delivery)
    decreases |delivery|
  {
    if delivery != [] && j > 0 {
      var front, d := delivery[..|delivery| - 1], delivery[|delivery| - 1];
      assert log[..j][..j - 1] == log[..j - 1];
      InOrderIsLongest(log, front, j);
      InOrderIsLongest(log, front, j - 1);
    }
  }

  /**
   Replica convergence. Under any loss, repetition and reordering of a clean log, mixed with
   foreign and malformed deltas, the replica equals the fold of exactly the first k deltas, where
   k is how far its revision moved; and k is the longest log prefix that arrived in order.
   */
  lemma ReplicaConverges(s: Snapshot, log: seq<Delta>, delivery: seq<Delta>)
    requires AppliesCleanly(s, log)
    requires forall d | d in delivery :: Deliverable(s, log, d)
    ensures 0 <= Received(s, delivery).revision - s.revision <= |log|
    ensures Received(s, delivery) == Received(s, log[..Received(s, delivery).revision - s.revision])
    ensures forall j | 0 <= j <= |log| ::
              IsSubsequence(log[..j], delivery) <==> j <= Received(s, delivery).revision - s.revision
  {
    var k := InOrder(log, delivery);
    ReceivedIsAPrefix(s, log, delivery);
    LogIsNumbered(s, log, k);
    LogIsDistinct(s, log);
    forall j | 0 <= j <= |log| ensures IsSubsequence(log[..j], delivery) <==> j <= k {
      InOrderIsLongest(log, delivery, j);
    }
  }

  /** In particular a delivery that contains the log, however polluted, reproduces the host. */
  lemma RedeliveryReproducesTheHost(s: Snapshot, log: seq<Delta>, delivery: seq<Delta>)
    requires AppliesCleanly(s, log)
    requires forall d | d in delivery :: Deliverable(s, log, d)
    requires IsSubsequence(log, delivery)
    ensures Received(s, delivery) == Received(s, log)
  {
    WholeLogArrives(s, log, delivery);
    ReceivedIsAPrefix(s, log, delivery);
    assert log[..|log|] == log;
  }

  lemma WholeLogArrives(s: Snapshot, log: seq<Delta>, delivery: seq<Delta>)
    requires AppliesCleanly(s, log) && IsSubsequence(log, delivery)
    ensures InOrder(log, delivery) == |log|
  {
    LogIsDistinct(s, log);
    assert log[..|log|] == log;
    InOrderIsLongest(log, delivery, |log|);
  }

  lemma LogIsDistinct(s: Snapshot, log: seq<Delta>)
    requires AppliesCleanly(s, log)
    ensures forall a, b | 0 <= a < b < |log| :: log[a] != log[b]
  {
    forall a, b | 0 <= a < b < |log| ensures log[a] != log[b] {
      LogIsNumbered(s, log, a);
      LogIsNumbered(s, log, b);
    }
  }
}

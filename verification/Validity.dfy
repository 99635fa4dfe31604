/**
 What an applied delta does to snapshot validity. Validation and reduction are separate passes in
 the protocol; here they are proved to agree, with the exact exceptions: stored and adopted
 sessions, which the reducer does not special-case.
 */
module Validity {
  import opened Wrappers
  import opened Protocol
  import opened Sequences
  import opened Reducer
  import CommandReceipts
  import opened DeltaFields
  import opened PendingInteractions
  import opened Replica
  import opened WindowRefinement

  // ----- each collection stays valid

  predicate ValidInteractions(xs: seq<Interaction>) {
    |xs| <= MAX_INTERACTIONS && forall i | 0 <= i < |xs| :: xs[i].Valid()
  }

  predicate ValidReceipts(s: Snapshot, rs: seq<Receipt>) {
    |rs| <= MAX_RECEIPTS && forall i | 0 <= i < |rs| :: rs[i].Valid() && s.OwnsReceipt(rs[i])
  }

  predicate ValidEntries(es: seq<Entry>) {
    forall i | 0 <= i < |es| :: es[i].Valid()
  }

  lemma {:induction false} RemovalKeepsValid(xs: seq<Interaction>, id: string)
    requires ValidInteractions(xs)
    ensures ValidInteractions(WithoutInteraction(xs, id)) && |WithoutInteraction(xs, id)| <= |xs|
  {
    if xs != [] {
      RemovalKeepsValid(xs[..|xs| - 1], id);
    }
  }

  lemma SortKeepsValid(es: seq<Entry>)
    requires ValidEntries(es)
    ensures ValidEntries(StableSort(SequenceKey, es))
  {
    StableSortSorts(SequenceKey, es);
    var sorted := StableSort(SequenceKey, es);
    forall i | 0 <= i < |sorted| ensures sorted[i].Valid() {
      assert sorted[i] in multiset(sorted);
      assert sorted[i] in multiset(es);
      assert sorted[i] in es;
    }
  }

  lemma UpsertKeepsEntriesValid(w: Window, e: Entry)
    requires ValidEntries(w.entries) && e.Valid()
    ensures ValidEntries(Upserted(w, e).entries)
  {
    SortKeepsValid(w.entries + [e]);
  }

  lemma ReceiptKeepsValid(s: Snapshot, r: Receipt)
    requires ValidReceipts(s, s.receipts) && r.Valid()
    ensures WithReceipt(s, r).Some? && ValidReceipts(s, WithReceipt(s, r).value)
  {
  }

  /** Validity without the order of the window, which single steps cannot promise on their own. */
  predicate Sound(s: Snapshot) {
    && s.ValidMetadata()
    && ValidInteractions(s.interactions)
    && ValidReceipts(s, s.receipts)
    && ValidEntries(s.window.entries)
  }

  lemma RouteKeepsSound(s: Snapshot, c: Change)
    requires Sound(s) && c.Valid()
    ensures Sound(RouteStep(s, c))
  {
  }

  predicate ChangesTables(c: Change) {
    c.UpsertEntry? || c.UpsertInteraction? || c.RemoveInteraction? || c.PutReceipt?
  }

  lemma TablesStaySound(s: Snapshot, c: Change)
    requires Sound(s) && c.Valid() && ChangesTables(c) && ContentStep(s, c).Some?
    ensures Sound(ContentStep(s, c).value)
  {
    match c {
      case UpsertEntry(entry) => UpsertKeepsEntriesValid(s.window, entry);
      case RemoveInteraction(id, _) => RemovalKeepsValid(s.interactions, id);
      case PutReceipt(receipt) => ReceiptKeepsValid(s, receipt);
      case UpsertInteraction(_) =>
    }
  }

  lemma ContentKeepsSound(s: Snapshot, c: Change)
    requires Sound(s) && c.Valid() && ContentStep(s, c).Some?
    ensures Sound(ContentStep(s, c).value)
  {
    if ChangesTables(c) {
      TablesStaySound(s, c);
    } else if c.UnknownChange? {
      assert ValidToken("unsupported_delta");
    }
  }

  lemma {:induction false} RoutedKeepsSound(s: Snapshot, changes: seq<Change>)
    requires Sound(s) && forall i | 0 <= i < |changes| :: changes[i].Valid()
    ensures Sound(Routed(s, changes))
  {
    if changes != [] {
      RoutedKeepsSound(s, changes[..|changes| - 1]);
      RouteKeepsSound(Routed(s, changes[..|changes| - 1]), changes[|changes| - 1]);
    }
  }

  lemma {:induction false} FilledKeepsSound(s: Snapshot, changes: seq<Change>)
    requires Sound(s) && !Filled(s, changes).failed
    requires forall i | 0 <= i < |changes| :: changes[i].Valid()
    ensures Sound(Filled(s, changes).snapshot)
  {
    if changes != [] {
      FilledKeepsSound(s, changes[..|changes| - 1]);
      ContentKeepsSound(Filled(s, changes[..|changes| - 1]).snapshot, changes[|changes| - 1]);
    }
  }

  // ----- the exact theorem

  /**
   What a caller checks before sending a delta: an adopted session keeps a resumable route, and a
   stored one stays quiet, powerless and without interactions. Every other session accepts anything.
   */
  ghost predicate Admissible(s: Snapshot, changes: seq<Change>) {
    && (s.topology == "adopted" ==>
          LastFallback(changes, s.terminalFallback).continuity == "resumable_session")
    && (s.presence == "stored" ==>
          && !LastTurn(changes, s.turn).MidTurn()
          && LastCapabilities(changes, s.capabilities).commands == NO_COMMANDS
          && LastCapabilities(changes, s.capabilities).interactions == NO_INTERACTIONS
          && forall id :: !Lingers(changes, id))
  }

  function Content(s: Snapshot, d: Delta): Snapshot {
    Filled(Routed(s, d.changes), d.changes).snapshot
  }

  /** An applied delta is its two passes and the enforcement that follows them. */
  lemma AppliedIs(s: Snapshot, d: Delta)
    requires Reduce(s, d).result == Ok(Applied)
    ensures d.Valid() && !Filled(Routed(s, d.changes), d.changes).failed
    ensures Reduce(s, d).after == Enforced(Content(s, d).(revision := d.revision))
    ensures !FabricatesRoute(Reduce(s, d).after)
  {
  }

  lemma EnforcedKeepsSound(s: Snapshot, revision: U64)
    requires Sound(s) && revision != 0
    ensures Sound(Enforced(s.(revision := revision)))
  {
  }

  lemma AppliedIsSound(s: Snapshot, d: Delta)
    requires s.Valid() && Reduce(s, d).result == Ok(Applied)
    ensures Sound(Reduce(s, d).after)
  {
    AppliedIs(s, d);
    RoutedKeepsSound(s, d.changes);
    FilledKeepsSound(Routed(s, d.changes), d.changes);
    EnforcedKeepsSound(Content(s, d), d.revision);
  }

  lemma WindowStaysValid(s: Snapshot, d: Delta)
    requires s.Valid() && Reduce(s, d).result == Ok(Applied)
    requires Numbered(s.window.entries + EntriesOf(d.changes))
    ensures Reduce(s, d).after.window.Valid()
  {
    AppliedIs(s, d);
    RoutedWindow(s, d.changes);
    FilledWindow(Routed(s, d.changes), d.changes);
    FilledFields(Routed(s, d.changes), d.changes);
    AppliedIsSound(s, d);
    UpsertsKeepMarks(s.window, EntriesOf(d.changes));
    WindowRefinesTimeline(s.window, EntriesOf(d.changes));
  }

  /**
   What an applied delta leaves, read off its changes. Each field is the one the last change naming it
   gives, or else the one held; a blocking interaction decides the turn; only the lists are left to say.
   */
  ghost function FieldsAfter(s: Snapshot, d: Delta): Snapshot {
    var fallback := LastFallback(d.changes, s.terminalFallback);
    Named(s, d.changes).(
      revision := d.revision,
      turn := if StillBlocked(s.interactions, d.changes) then AwaitingInteraction(None)
              else LastTurn(d.changes, s.turn),
      terminalFallback := fallback,
      capabilities := LastCapabilities(d.changes, s.capabilities).(terminalContinuity := fallback.continuity))
  }

  /** Every field of an applied delta's result. */
  lemma AppliedFields(s: Snapshot, d: Delta)
    requires Reduce(s, d).result == Ok(Applied)
    ensures var r := Reduce(s, d).after; r == WithListsOf(FieldsAfter(s, d), r)
  {
    AppliedIs(s, d);
    RoutedFields(s, d.changes);
    FilledFields(Routed(s, d.changes), d.changes);
    BlocksExactly(Routed(s, d.changes), d.changes);
  }

  /** The interactions an applied delta leaves: whose, in which order, and the foremost of each. */
  lemma AppliedInteractions(s: Snapshot, d: Delta, id: string)
    requires Reduce(s, d).result == Ok(Applied)
    ensures var r := Reduce(s, d).after;
            && Ids(r.interactions) == Pending(Ids(s.interactions), d.changes)
            && WithKey(InteractionKey, r.interactions, id) == Foremost(s.interactions, d.changes, id)
  {
    AppliedIs(s, d);
    RoutedFields(s, d.changes);
    FilledIds(Routed(s, d.changes), d.changes);
    HeldIsTheBestOffered(Routed(s, d.changes), d.changes, id);
  }

  /** The receipts an applied delta leaves: for the newest 128 commands, and the latest of each. */
  lemma AppliedReceipts(s: Snapshot, d: Delta, id: string)
    requires Reduce(s, d).result == Ok(Applied)
    requires |s.receipts| <= MAX_RECEIPTS && |WithKey(ReceiptKey, s.receipts, id)| <= 1
    ensures var r := Reduce(s, d).after;
            && Keys(ReceiptKey, r.receipts) == CommandReceipts.Newest(CommandReceipts.Inserted(s, d.changes))
            && WithKey(ReceiptKey, r.receipts, id) == CommandReceipts.Latest(s, d.changes, id)
  {
    AppliedIs(s, d);
    RoutedFields(s, d.changes);
    var routed := Routed(s, d.changes);
    CommandReceipts.OffersAlike(s, routed, d.changes, id);
    CommandReceipts.HeldIsTheNewest(routed, d.changes);
    CommandReceipts.HeldIsTheLatest(routed, d.changes, id);
  }

  /** What validity compares of the result's interactions. */
  ghost predicate Quiet(s: Snapshot, changes: seq<Change>, r: Snapshot) {
    && (s.interactions == [] ==> (r.interactions == [] <==> forall id :: !Lingers(changes, id)))
    && (AnyUnresolvedBlocking(r.interactions) <==> StillBlocked(s.interactions, changes))
  }

  lemma AppliedIsQuiet(s: Snapshot, d: Delta)
    requires Reduce(s, d).result == Ok(Applied)
    ensures Quiet(s, d.changes, Reduce(s, d).after)
  {
    AppliedIs(s, d);
    var routed := Routed(s, d.changes);
    RoutedFields(s, d.changes);
    BlocksExactly(routed, d.changes);
    if s.interactions == [] {
      var ids := Ids(Content(s, d).interactions);
      forall id ensures id in ids <==> Lingers(d.changes, id) {
        PendingIsWhatLingers(routed, d.changes, id);
      }
      assert ids != [] ==> ids[0] in ids;
    }
  }

  lemma ConsistentExactly(s: Snapshot, d: Delta, r: Snapshot)
    requires s.Valid() && r == WithListsOf(FieldsAfter(s, d), r) && Quiet(s, d.changes, r) && !FabricatesRoute(r)
    ensures r.ValidConsistency() && r.ValidTopology() <==> Admissible(s, d.changes)
  {
    if s.presence == "stored" {
      assert r.interactions == [] ==> !AnyUnresolvedBlocking(r.interactions);
    }
  }

  /**
   Validity preservation, exactly: an applied delta leaves a valid snapshot valid if and only if
   the delta is admissible for that session's topology and presence.
   */
  lemma AppliedIsValidExactly(s: Snapshot, d: Delta)
    requires s.Valid() && Reduce(s, d).result == Ok(Applied)
    requires Numbered(s.window.entries + EntriesOf(d.changes))
    ensures Reduce(s, d).after.Valid() <==> Admissible(s, d.changes)
  {
    var r := Reduce(s, d).after;
    AppliedIs(s, d);
    AppliedFields(s, d);
    AppliedIsQuiet(s, d);
    AppliedIsSound(s, d);
    WindowStaysValid(s, d);
    ConsistentExactly(s, d, r);
    assert r.ValidMetadata() && r.ValidTables();
  }

  // ----- whole runs

  function EntriesOfLog(log: seq<Delta>): seq<Entry> {
    if log == [] then [] else EntriesOfLog(log[..|log| - 1]) + EntriesOf(log[|log| - 1].changes)
  }

  lemma {:induction false} UpsertAllConcat(w: Window, a: seq<Entry>, b: seq<Entry>)
    ensures UpsertAll(UpsertAll(w, a), b) == UpsertAll(w, a + b)
  {
    if b == [] {
      assert a + b == a;
    } else {
      assert (a + b)[..|a + b| - 1] == a + b[..|b| - 1];
      UpsertAllConcat(w, a, b[..|b| - 1]);
    }
  }

  lemma {:induction false} UpsertsComeFromTheRun(w: Window, run: seq<Entry>)
    ensures forall e | e in UpsertAll(w, run).entries :: e in w.entries + run
  {
    if run != [] {
      var front, x := run[..|run| - 1], run[|run| - 1];
      var mid := UpsertAll(w, front);
      UpsertsComeFromTheRun(w, front);
      UpsertComesFromEither(mid, x);
      assert run == front + [x];
    }
  }

  lemma UpsertComesFromEither(w: Window, x: Entry)
    ensures forall e | e in Upserted(w, x).entries :: e in w.entries || e == x
  {
    var sorted := StableSort(SequenceKey, w.entries + [x]);
    StableSortSorts(SequenceKey, w.entries + [x]);
    forall e | e in sorted ensures e in w.entries || e == x {
      assert e in multiset(sorted);
      assert e in multiset(w.entries + [x]);
      assert e in w.entries + [x];
    }
  }

  lemma NumberedWithin(all: seq<Entry>, part: seq<Entry>)
    requires Numbered(all) && forall e | e in part :: e in all
    ensures Numbered(part)
  {
    forall i, j | 0 <= i < |part| && 0 <= j < |part|
      ensures part[i].entryId == part[j].entryId <==> part[i].sequence == part[j].sequence
    {
      assert part[i] in part && part[j] in part;
      var a :| 0 <= a < |all| && all[a] == part[i];
      var b :| 0 <= b < |all| && all[b] == part[j];
    }
  }

  lemma LogStep(s: Snapshot, log: seq<Delta>)
    requires AppliesCleanly(s, log) && log != []
    ensures AppliesCleanly(s, log[..|log| - 1])
    ensures Reduce(Received(s, log[..|log| - 1]), log[|log| - 1]).result == Ok(Applied)
  {
    var front := log[..|log| - 1];
    forall k | 0 <= k < |front| ensures Reduce(Received(s, front[..k]), front[k]).result == Ok(Applied) {
      assert front[..k] == log[..k] && front[k] == log[k];
    }
  }

  /** A log's window is the starting window with every entry of the log upserted in order. */
  lemma {:induction false} LogWindow(s: Snapshot, log: seq<Delta>)
    requires AppliesCleanly(s, log)
    ensures Received(s, log).window == UpsertAll(s.window, EntriesOfLog(log))
  {
    if log != [] {
      var front, d := log[..|log| - 1], log[|log| - 1];
      LogStep(s, log);
      LogWindow(s, front);
      var mid := Received(s, front);
      AppliedIs(mid, d);
      RoutedWindow(mid, d.changes);
      FilledWindow(Routed(mid, d.changes), d.changes);
      UpsertAllConcat(s.window, EntriesOfLog(front), EntriesOf(d.changes));
    }
  }

  /** Every delta of the log is admissible in the state it meets. */
  ghost predicate AdmissibleAlong(s: Snapshot, log: seq<Delta>) {
    log == [] ||
    (AdmissibleAlong(s, log[..|log| - 1]) && Admissible(Received(s, log[..|log| - 1]), log[|log| - 1].changes))
  }

  /** The starting state and the state after each delta are valid. */
  ghost predicate ValidAlong(s: Snapshot, log: seq<Delta>) {
    Received(s, log).Valid() && (log == [] || ValidAlong(s, log[..|log| - 1]))
  }

  /** The entries a log's last delta brings are numbered together with the window they meet. */
  lemma LastIsNumbered(s: Snapshot, log: seq<Delta>)
    requires AppliesCleanly(s, log) && log != [] && Numbered(s.window.entries + EntriesOfLog(log))
    ensures var front, d := log[..|log| - 1], log[|log| - 1];
            && Numbered(s.window.entries + EntriesOfLog(front))
            && Numbered(Received(s, front).window.entries + EntriesOf(d.changes))
  {
    var front, d := log[..|log| - 1], log[|log| - 1];
    var all := s.window.entries + EntriesOfLog(log);
    LogStep(s, log);
    NumberedWithin(all, s.window.entries + EntriesOfLog(front));
    LogWindow(s, front);
    UpsertsComeFromTheRun(s.window, EntriesOfLog(front));
    NumberedWithin(all, Received(s, front).window.entries + EntriesOf(d.changes));
  }

  /**
   Over any clean log, every state along the way is valid if and only if every delta is admissible where
   it arrives; and the window is the newest 64 of the whole log's timeline either way.
   */
  lemma {:induction false} EveryRunStaysValid(s: Snapshot, log: seq<Delta>)
    requires s.Valid() && AppliesCleanly(s, log)
    requires Numbered(s.window.entries + EntriesOfLog(log))
    ensures ValidAlong(s, log) <==> AdmissibleAlong(s, log)
    ensures IsNewest(Received(s, log).window.entries, LearnAll(Shown(s.window.entries), EntriesOfLog(log)))
  {
    LogWindow(s, log);
    WindowRefinesTimeline(s.window, EntriesOfLog(log));
    if log != [] {
      var front, d := log[..|log| - 1], log[|log| - 1];
      LogStep(s, log);
      LastIsNumbered(s, log);
      EveryRunStaysValid(s, front);
      if ValidAlong(s, front) {
        AppliedIsValidExactly(Received(s, front), d);
      }
    }
  }

  /** A session that is neither stored nor adopted admits everything, and keeps its topology and presence. */
  lemma {:induction false} UnrestrictedRun(s: Snapshot, log: seq<Delta>)
    requires s.presence != "stored" && s.topology != "adopted" && AppliesCleanly(s, log)
    ensures AdmissibleAlong(s, log)
    ensures Received(s, log).topology == s.topology && Received(s, log).presence == s.presence
  {
    if log != [] {
      LogStep(s, log);
      UnrestrictedRun(s, log[..|log| - 1]);
      AppliedFields(Received(s, log[..|log| - 1]), log[|log| - 1]);
    }
  }
}

/**
 Which interactions are pending, in terms of identifiers and changes alone, and when the reducer's
 content pass runs out of room for one.
 */
module PendingInteractions {
  import opened Wrappers
  import opened Protocol
  import opened Sequences
  import opened Best
  import opened Reducer

  // ----- what is pending, by identifier alone

  function Ids(xs: seq<Interaction>): (ids: seq<string>)
    ensures |ids| == |xs| && forall i | 0 <= i < |xs| :: ids[i] == xs[i].interactionId
  {
    if xs == [] then [] else Ids(xs[..|xs| - 1]) + [xs[|xs| - 1].interactionId]
  }

  function Except(ids: seq<string>, id: string): seq<string> {
    if ids == [] then []
    else Except(ids[..|ids| - 1], id) + if ids[|ids| - 1] == id then [] else [ids[|ids| - 1]]
  }

  /** The identifiers pending after some changes, were there no bound. */
  function Pending(ids: seq<string>, changes: seq<Change>): seq<string> {
    if changes == [] then ids
    else
      var before, last := Pending(ids, changes[..|changes| - 1]), changes[|changes| - 1];
      if last.RemoveInteraction? then Except(before, last.interactionId)
      else if last.UpsertInteraction? && last.interaction.interactionId !in before then
        before + [last.interaction.interactionId]
      else before
  }

  /** Change `i` raises an interaction that is not pending while as many as allowed are. */
  predicate OneTooMany(ids: seq<string>, changes: seq<Change>, i: nat)
    requires i < |changes|
  {
    && changes[i].UpsertInteraction?
    && changes[i].interaction.interactionId !in Pending(ids, changes[..i])
    && |Pending(ids, changes[..i])| >= MAX_INTERACTIONS
  }

  predicate TooManyIn(ids: seq<string>, changes: seq<Change>) {
    exists i | 0 <= i < |changes| :: OneTooMany(ids, changes, i)
  }

  /** Some change raises an interaction the session has no room for. */
  predicate TooMany(s: Snapshot, changes: seq<Change>) {
    TooManyIn(Ids(s.interactions), changes)
  }

  // ----- an identifier is pending by what the changes say about it

  /** Some change raises this interaction and none after it removes it. */
  predicate Lingers(changes: seq<Change>, id: string) {
    exists i | 0 <= i < |changes| :: Raises(changes, i, id)
  }

  predicate Raises(changes: seq<Change>, i: nat, id: string)
    requires i < |changes|
  {
    && changes[i].UpsertInteraction? && changes[i].interaction.interactionId == id
    && forall j | i < j < |changes| :: !(changes[j].RemoveInteraction? && changes[j].interactionId == id)
  }

  predicate Removes(changes: seq<Change>, id: string) {
    exists i | 0 <= i < |changes| :: changes[i].RemoveInteraction? && changes[i].interactionId == id
  }

  function Times(ids: seq<string>, id: string): nat {
    multiset(ids)[id]
  }

  lemma {:induction false} ExceptTimes(ids: seq<string>, gone: string, id: string)
    ensures Times(Except(ids, gone), id) == if id == gone then 0 else Times(ids, id)
  {
    if ids != [] {
      ExceptTimes(ids[..|ids| - 1], gone, id);
      assert ids == ids[..|ids| - 1] + [ids[|ids| - 1]];
    }
  }

  lemma LingersLast(front: seq<Change>, last: Change, id: string)
    ensures Lingers(front + [last], id) <==>
            || (last.UpsertInteraction? && last.interaction.interactionId == id)
            || (Lingers(front, id) && !(last.RemoveInteraction? && last.interactionId == id))
  {
    var all := front + [last];
    if last.UpsertInteraction? && last.interaction.interactionId == id {
      assert Raises(all, |front|, id);
    }
    if i :| 0 <= i < |front| && Raises(front, i, id) {
      if !(last.RemoveInteraction? && last.interactionId == id) {
        assert Raises(all, i, id);
      }
    }
    if i :| 0 <= i < |all| && Raises(all, i, id) {
      if i < |front| {
        assert all[|front|] == last;
        assert forall j | i < j < |front| :: all[j] == front[j];
        assert Raises(front, i, id);
      }
    }
  }

  lemma RemovesLast(front: seq<Change>, last: Change, id: string)
    ensures Removes(front + [last], id) <==> Removes(front, id) || (last.RemoveInteraction? && last.interactionId == id)
  {
    var all := front + [last];
    if i :| 0 <= i < |front| && front[i].RemoveInteraction? && front[i].interactionId == id {
      assert all[i] == front[i];
    }
    if last.RemoveInteraction? && last.interactionId == id {
      assert all[|front|] == last;
    }
  }

  function IfLingers(changes: seq<Change>, id: string): nat {
    if Lingers(changes, id) then 1 else 0
  }

  /** Pending is: held from the start and never removed, or else raised and not removed afterwards. */
  lemma {:induction false} PendingByChanges(ids: seq<string>, changes: seq<Change>, id: string)
    ensures Times(Pending(ids, changes), id) ==
            if id in ids && !Removes(changes, id) then Times(ids, id) else IfLingers(changes, id)
  {
    if changes != [] {
      var front, last := changes[..|changes| - 1], changes[|changes| - 1];
      assert changes == front + [last];
      PendingByChanges(ids, front, id);
      LingersLast(front, last, id);
      RemovesLast(front, last, id);
      PendingStep(ids, changes, id);
    }
  }

  lemma PendingStep(ids: seq<string>, changes: seq<Change>, id: string)
    requires changes != []
    ensures var before, last := Pending(ids, changes[..|changes| - 1]), changes[|changes| - 1];
            Times(Pending(ids, changes), id) ==
            if last.RemoveInteraction? && last.interactionId == id then 0
            else if last.UpsertInteraction? && last.interaction.interactionId == id && Times(before, id) == 0 then 1
            else Times(before, id)
  {
    var before, last := Pending(ids, changes[..|changes| - 1]), changes[|changes| - 1];
    if last.RemoveInteraction? {
      ExceptTimes(before, last.interactionId, id);
    }
  }

  /** Going through the same changes again leaves as many pending. */
  lemma PendingTwice(ids: seq<string>, changes: seq<Change>)
    ensures var once := Pending(ids, changes);
            multiset(Pending(once, changes)) == multiset(once)
  {
    var once := Pending(ids, changes);
    forall id ensures multiset(Pending(once, changes))[id] == multiset(once)[id] {
      assert Times(Pending(once, changes), id) == multiset(Pending(once, changes))[id];
      PendingByChanges(ids, changes, id);
      PendingByChanges(once, changes, id);
    }
  }

  // ----- the content pass fails exactly there

  lemma {:induction false} RemovalIds(xs: seq<Interaction>, id: string)
    ensures Ids(WithoutInteraction(xs, id)) == Except(Ids(xs), id)
  {
    if xs != [] {
      var front, last := xs[..|xs| - 1], xs[|xs| - 1];
      RemovalIds(front, id);
      IdsAppend(WithoutInteraction(front, id), last);
      assert Ids(xs)[..|xs| - 1] == Ids(front);
      if last.interactionId == id {
        assert WithoutInteraction(xs, id) == WithoutInteraction(front, id);
      }
    }
  }

  lemma IdsAppend(xs: seq<Interaction>, x: Interaction)
    ensures Ids(xs + [x]) == Ids(xs) + [x.interactionId]
  {
    assert (xs + [x])[..|xs|] == xs;
  }

  lemma FoundById(xs: seq<Interaction>, id: string)
    ensures IndexOfKey(InteractionKey, xs, id) < |xs| <==> id in Ids(xs)
  {
    var i, ids := IndexOfKey(InteractionKey, xs, id), Ids(xs);
    if i < |xs| {
      assert InteractionKey(xs[i]) == ids[i];
    } else {
      assert forall j | 0 <= j < |xs| :: InteractionKey(xs[j]) == ids[j];
    }
  }

  lemma IdsOfUpdate(xs: seq<Interaction>, i: nat, x: Interaction)
    requires i < |xs| && x.interactionId == xs[i].interactionId
    ensures Ids(xs[i := x]) == Ids(xs)
  {
  }

  lemma UpsertIds(xs: seq<Interaction>, x: Interaction)
    ensures WithInteraction(xs, x).None? <==> x.interactionId !in Ids(xs) && |xs| >= MAX_INTERACTIONS
    ensures WithInteraction(xs, x).Some? ==>
              Ids(WithInteraction(xs, x).value) ==
              if x.interactionId in Ids(xs) then Ids(xs) else Ids(xs) + [x.interactionId]
  {
    var i := IndexOfKey(InteractionKey, xs, x.interactionId);
    FoundById(xs, x.interactionId);
    if i < |xs| {
      assert InteractionKey(xs[i]) == x.interactionId;
      IdsOfUpdate(xs, i, x);
    } else {
      IdsAppend(xs, x);
    }
  }

  lemma PendingAfterOne(ids: seq<string>, c: Change)
    ensures Pending(ids, [c]) ==
            if c.RemoveInteraction? then Except(ids, c.interactionId)
            else if c.UpsertInteraction? && c.interaction.interactionId !in ids then
              ids + [c.interaction.interactionId]
            else ids
  {
    assert [c][..0] == [];
  }

  lemma OthersKeepInteractions(s: Snapshot, c: Change)
    requires !c.UpsertInteraction? && !c.RemoveInteraction? && ContentStep(s, c).Some?
    ensures ContentStep(s, c).value.interactions == s.interactions
  {
  }

  lemma ContentIds(s: Snapshot, c: Change)
    requires ContentStep(s, c).Some?
    ensures Ids(ContentStep(s, c).value.interactions) == Pending(Ids(s.interactions), [c])
  {
    PendingAfterOne(Ids(s.interactions), c);
    if c.UpsertInteraction? {
      UpsertIds(s.interactions, c.interaction);
    } else if c.RemoveInteraction? {
      RemovalIds(s.interactions, c.interactionId);
    } else {
      OthersKeepInteractions(s, c);
    }
  }

  lemma ContentFails(s: Snapshot, c: Change)
    requires c.Valid()
    ensures ContentStep(s, c).None? <==>
            && c.UpsertInteraction? && c.interaction.interactionId !in Ids(s.interactions)
            && |s.interactions| >= MAX_INTERACTIONS
  {
    if c.UpsertInteraction? {
      UpsertIds(s.interactions, c.interaction);
    }
  }

  lemma TooManyLast(ids: seq<string>, front: seq<Change>, last: Change)
    ensures TooManyIn(ids, front + [last]) <==> TooManyIn(ids, front) || OneTooMany(ids, front + [last], |front|)
  {
    var all := front + [last];
    forall i | 0 <= i < |front| ensures OneTooMany(ids, all, i) <==> OneTooMany(ids, front, i) {
      assert all[..i] == front[..i] && all[i] == front[i];
    }
    if i :| 0 <= i < |front| && OneTooMany(ids, front, i) {
      assert OneTooMany(ids, all, i);
    }
  }

  lemma PendingAppend(ids: seq<string>, front: seq<Change>, last: Change)
    ensures Pending(ids, front + [last]) == Pending(Pending(ids, front), [last])
  {
    assert (front + [last])[..|front|] == front && [last][..0] == [];
  }

  lemma ContentPending(ids: seq<string>, front: seq<Change>, s: Snapshot, last: Change)
    requires Ids(s.interactions) == Pending(ids, front) && ContentStep(s, last).Some?
    ensures Ids(ContentStep(s, last).value.interactions) == Pending(ids, front + [last])
  {
    ContentIds(s, last);
    PendingAppend(ids, front, last);
  }

  /** The identifiers a content pass leaves pending are read off its changes. */
  lemma {:induction false} FilledIds(s: Snapshot, changes: seq<Change>)
    requires !Filled(s, changes).failed
    ensures Ids(Filled(s, changes).snapshot.interactions) == Pending(Ids(s.interactions), changes)
  {
    if changes != [] {
      var front, last := changes[..|changes| - 1], changes[|changes| - 1];
      FilledIds(s, front);
      assert changes == front + [last];
      ContentPending(Ids(s.interactions), front, Filled(s, front).snapshot, last);
    }
  }

  /** Pending after the pass is: held and never removed, or raised and not removed since. */
  lemma PendingIsWhatLingers(s: Snapshot, changes: seq<Change>, id: string)
    requires !Filled(s, changes).failed
    ensures id in Ids(Filled(s, changes).snapshot.interactions) <==>
            Lingers(changes, id) || (id in Ids(s.interactions) && !Removes(changes, id))
  {
    FilledIds(s, changes);
    PendingByChanges(Ids(s.interactions), changes, id);
    var ids := Ids(Filled(s, changes).snapshot.interactions);
    assert id in ids <==> Times(ids, id) > 0;
  }

  /** The content pass fails exactly when some change is one interaction too many. */
  lemma {:induction false} FailsExactly(s: Snapshot, changes: seq<Change>)
    requires forall i | 0 <= i < |changes| :: changes[i].Valid()
    ensures Filled(s, changes).failed <==> TooManyIn(Ids(s.interactions), changes)
  {
    if changes != [] {
      var front, last, ids := changes[..|changes| - 1], changes[|changes| - 1], Ids(s.interactions);
      assert changes == front + [last];
      FailsExactly(s, front);
      TooManyLast(ids, front, last);
      if !Filled(s, front).failed {
        FilledIds(s, front);
        ContentFails(Filled(s, front).snapshot, last);
      }
    }
  }

  // ----- in what order

  /** The identifiers held from the start and never removed, in their order. */
  function Lasting(ids: seq<string>, changes: seq<Change>): seq<string> {
    if changes == [] then ids
    else
      var before, last := Lasting(ids, changes[..|changes| - 1]), changes[|changes| - 1];
      if last.RemoveInteraction? then Except(before, last.interactionId) else before
  }

  /** Where an identifier was first raised since it was last removed; the end when it was not. */
  function RaisedAt(changes: seq<Change>, id: string): (at: nat)
    ensures at <= |changes|
  {
    if changes == [] then 0
    else
      var front, last := changes[..|changes| - 1], changes[|changes| - 1];
      var at := RaisedAt(front, id);
      if last.RemoveInteraction? && last.interactionId == id then |changes|
      else if at < |front| then at
      else if last.UpsertInteraction? && last.interaction.interactionId == id then |front|
      else |changes|
  }

  /** It is a raise, no raise of it since the last removal comes before it, and no removal after it. */
  lemma {:induction false} RaisedAtIs(changes: seq<Change>, id: string)
    ensures var at := RaisedAt(changes, id);
            at < |changes| ==>
              && Raises(changes, at, id)
              && forall j | 0 <= j < at :: !Raises(changes, j, id)
    ensures RaisedAt(changes, id) == |changes| <==> !Lingers(changes, id)
  {
    if changes != [] {
      var front, last := changes[..|changes| - 1], changes[|changes| - 1];
      assert changes == front + [last];
      RaisedAtIs(front, id);
      LingersLast(front, last, id);
      var at := RaisedAt(changes, id);
      forall j | 0 <= j < |front| ensures Raises(changes, j, id) ==> Raises(front, j, id) {
        assert forall m | j < m < |front| :: front[m] == changes[m];
      }
      if at < |front| {
        assert Raises(front, at, id);
        assert forall m | at < m < |changes| :: m == |front| || changes[m] == front[m];
      }
    }
  }

  ghost predicate Rising(rank: string -> int, ids: seq<string>) {
    forall i, j | 0 <= i < j < |ids| :: rank(ids[i]) < rank(ids[j])
  }

  lemma RisingAppend(rank: string -> int, ids: seq<string>, last: string)
    requires Rising(rank, ids) && forall id | id in ids :: rank(id) < rank(last)
    ensures Rising(rank, ids + [last])
  {
  }

  lemma {:induction false} ExceptRises(rank: string -> int, ids: seq<string>, gone: string)
    requires Rising(rank, ids)
    ensures Rising(rank, Except(ids, gone))
    ensures forall id | id in Except(ids, gone) :: id in ids && id != gone
  {
    if ids != [] {
      var front, last := ids[..|ids| - 1], ids[|ids| - 1];
      ExceptRises(rank, front, gone);
      forall id | id in front ensures rank(id) < rank(last) {
        var i :| 0 <= i < |front| && front[i] == id;
        assert ids[i] == id;
      }
      RisingAppend(rank, Except(front, gone), last);
    }
  }

  lemma RisingAlike(was: string -> int, now: string -> int, ids: seq<string>)
    requires Rising(was, ids) && forall id | id in ids :: now(id) == was(id)
    ensures Rising(now, ids)
  {
  }

  lemma {:induction false} ExceptConcat(a: seq<string>, b: seq<string>, gone: string)
    ensures Except(a + b, gone) == Except(a, gone) + Except(b, gone)
  {
    if b == [] {
      assert a + b == a;
    } else {
      assert (a + b)[..|a + b| - 1] == a + b[..|b| - 1];
      ExceptConcat(a, b[..|b| - 1], gone);
    }
  }

  /** The part of what is pending that some change raised. */
  function Newcomers(ids: seq<string>, changes: seq<Change>): seq<string> {
    if changes == [] then []
    else
      var before, last := Newcomers(ids, changes[..|changes| - 1]), changes[|changes| - 1];
      if last.RemoveInteraction? then Except(before, last.interactionId)
      else if last.UpsertInteraction? && last.interaction.interactionId !in Pending(ids, changes[..|changes| - 1]) then
        before + [last.interaction.interactionId]
      else before
  }

  lemma {:induction false} PendingIsLastingThenNew(ids: seq<string>, changes: seq<Change>)
    ensures Pending(ids, changes) == Lasting(ids, changes) + Newcomers(ids, changes)
  {
    if changes != [] {
      var front, last := changes[..|changes| - 1], changes[|changes| - 1];
      PendingIsLastingThenNew(ids, front);
      if last.RemoveInteraction? {
        ExceptConcat(Lasting(ids, front), Newcomers(ids, front), last.interactionId);
      } else if last.UpsertInteraction? {
        Associates(Lasting(ids, front), Newcomers(ids, front), [last.interaction.interactionId]);
      }
    }
  }

  function ByRaise(changes: seq<Change>): string -> int {
    (id: string) => RaisedAt(changes, id)
  }

  ghost predicate AllRaised(changes: seq<Change>, ids: seq<string>) {
    forall id | id in ids :: RaisedAt(changes, id) < |changes|
  }

  /** Raised identifiers keep their place while they are not removed. */
  lemma StillRaised(front: seq<Change>, last: Change, ids: seq<string>)
    requires AllRaised(front, ids) && Rising(ByRaise(front), ids)
    requires forall id | id in ids :: !(last.RemoveInteraction? && last.interactionId == id)
    ensures AllRaised(front + [last], ids) && Rising(ByRaise(front + [last]), ids)
  {
    var changes := front + [last];
    assert changes[..|front|] == front;
    assert forall id | id in ids :: RaisedAt(changes, id) == RaisedAt(front, id);
    RisingAlike(ByRaise(front), ByRaise(changes), ids);
  }

  lemma NewlyRaised(ids: seq<string>, front: seq<Change>, last: Change)
    requires last.UpsertInteraction? && last.interaction.interactionId !in Pending(ids, front)
    ensures RaisedAt(front + [last], last.interaction.interactionId) == |front|
  {
    assert (front + [last])[..|front|] == front;
    NotPendingIsNotRaised(ids, front, last.interaction.interactionId);
  }

  /** What stays is what was there, less the removed; what comes after it is in the order it was raised. */
  lemma {:induction false} PendingInOrder(ids: seq<string>, changes: seq<Change>)
    ensures Pending(ids, changes) == Lasting(ids, changes) + Newcomers(ids, changes)
    ensures AllRaised(changes, Newcomers(ids, changes)) && Rising(ByRaise(changes), Newcomers(ids, changes))
  {
    PendingIsLastingThenNew(ids, changes);
    if changes != [] {
      var front, last := changes[..|changes| - 1], changes[|changes| - 1];
      assert changes == front + [last];
      var before := Newcomers(ids, front);
      PendingInOrder(ids, front);
      if last.RemoveInteraction? {
        ExceptRises(ByRaise(front), before, last.interactionId);
        StillRaised(front, last, Except(before, last.interactionId));
      } else {
        StillRaised(front, last, before);
        if last.UpsertInteraction? && last.interaction.interactionId !in Pending(ids, front) {
          NewlyRaised(ids, front, last);
          assert forall id | id in before :: RaisedAt(changes, id) < |front| by {
            assert changes[..|front|] == front;
          }
          RisingAppend(ByRaise(changes), before, last.interaction.interactionId);
        }
      }
    }
  }

  lemma NotPendingIsNotRaised(ids: seq<string>, changes: seq<Change>, id: string)
    requires id !in Pending(ids, changes)
    ensures RaisedAt(changes, id) == |changes|
  {
    PendingByChanges(ids, changes, id);
    RaisedAtIs(changes, id);
    assert Times(Pending(ids, changes), id) == 0;
  }

  // ----- which revision of an interaction is held

  function Revision(x: Interaction): int { x.interactionRevision }

  function UpToOne<T>(xs: seq<T>): seq<T> {
    if xs == [] then [] else [xs[0]]
  }

  function BeyondOne<T>(xs: seq<T>): seq<T> {
    if xs == [] then [] else xs[1..]
  }

  /** What has been offered for an identifier: the one held, then those raised, starting over at a removal. */
  function Offers(held: seq<Interaction>, changes: seq<Change>, id: string): seq<Interaction> {
    if changes == [] then UpToOne(WithKey(InteractionKey, held, id))
    else
      var before, last := Offers(held, changes[..|changes| - 1], id), changes[|changes| - 1];
      if last.RemoveInteraction? && last.interactionId == id then []
      else before + RaisedBy(last, id)
  }

  function RaisedBy(c: Change, id: string): seq<Interaction> {
    if c.UpsertInteraction? && c.interaction.interactionId == id then [c.interaction] else []
  }

  /** The interactions some changes raise for an identifier, in order. */
  function Raised(changes: seq<Change>, id: string): seq<Interaction> {
    if changes == [] then [] else Raised(changes[..|changes| - 1], id) + RaisedBy(changes[|changes| - 1], id)
  }

  /** By position: what is raised since the last removal, at `r - 1`; or with none, the one held and all raised. */
  lemma {:induction false} OffersByPosition(held: seq<Interaction>, changes: seq<Change>, id: string, r: nat)
    requires r <= |changes|
    requires r > 0 ==> changes[r - 1].RemoveInteraction? && changes[r - 1].interactionId == id
    requires forall j | r <= j < |changes| :: !(changes[j].RemoveInteraction? && changes[j].interactionId == id)
    ensures Offers(held, changes, id) ==
            (if r == 0 then UpToOne(WithKey(InteractionKey, held, id)) else []) + Raised(changes[r..], id)
  {
    if r < |changes| {
      var front, last := changes[..|changes| - 1], changes[|changes| - 1];
      OffersByPosition(held, front, id, r);
      assert changes[r..][..|changes| - r - 1] == front[r..];
      var base := if r == 0 then UpToOne(WithKey(InteractionKey, held, id)) else [];
      Associates(base, Raised(front[r..], id), RaisedBy(last, id));
    } else {
      assert changes[r..] == [];
    }
  }

  /**
   The interactions held for an identifier afterwards: the first of the highest revision among those offered,
   and any further copies the snapshot came with, unless removed.
   */
  function Foremost(held: seq<Interaction>, changes: seq<Change>, id: string): seq<Interaction> {
    var offers := Offers(held, changes, id);
    if offers == [] then []
    else
      [offers[FirstBest(Revision, offers)]]
      + if Removes(changes, id) then [] else BeyondOne(WithKey(InteractionKey, held, id))
  }

  lemma {:induction false} RemovalWithKey(xs: seq<Interaction>, gone: string, id: string)
    ensures WithKey(InteractionKey, WithoutInteraction(xs, gone), id) ==
            if id == gone then [] else WithKey(InteractionKey, xs, id)
  {
    if xs != [] {
      var front, last := xs[..|xs| - 1], xs[|xs| - 1];
      RemovalWithKey(front, gone, id);
      if last.interactionId == gone {
        assert WithoutInteraction(xs, gone) == WithoutInteraction(front, gone);
      } else {
        WithKeyAppend(InteractionKey, WithoutInteraction(front, gone), last, id);
      }
    }
  }

  /** What an upsert leaves under its own identifier, and under any other. */
  lemma UpsertWithKey(xs: seq<Interaction>, x: Interaction, id: string)
    requires WithInteraction(xs, x).Some?
    ensures var before := WithKey(InteractionKey, xs, id);
            WithKey(InteractionKey, WithInteraction(xs, x).value, id) ==
            if id != x.interactionId then before
            else if before == [] then [x]
            else if Revision(x) > Revision(before[0]) then [x] + before[1..]
            else before
  {
    var i := IndexOfKey(InteractionKey, xs, x.interactionId);
    WithKeyFirst(InteractionKey, xs, x.interactionId);
    if i < |xs| {
      assert InteractionKey(x) == InteractionKey(xs[i]);
      if id == x.interactionId {
        WithKeyReplaceFirst(InteractionKey, xs, x);
      } else {
        WithKeyUpdate(InteractionKey, xs, i, x, id);
      }
    } else {
      WithKeyAppend(InteractionKey, xs, x, id);
    }
  }

  lemma ForemostAfterRaise(held: seq<Interaction>, front: seq<Change>, x: Interaction)
    ensures var id := x.interactionId;
            var before := Foremost(held, front, id);
            Foremost(held, front + [UpsertInteraction(x)], id) ==
            if before == [] then [x] else if Revision(x) > Revision(before[0]) then [x] + before[1..] else before
  {
    var id, changes := x.interactionId, front + [UpsertInteraction(x)];
    var offers := Offers(held, front, id);
    assert changes[..|front|] == front;
    assert Offers(held, changes, id) == offers + [x];
    RemovesLast(front, UpsertInteraction(x), id);
    if offers == [] {
      NoOffersNothingHeld(held, front, id);
    } else {
      FirstBestAppend(Revision, offers, x);
    }
  }

  lemma {:induction false} NoOffersNothingHeld(held: seq<Interaction>, changes: seq<Change>, id: string)
    ensures Offers(held, changes, id) == [] ==> Removes(changes, id) || WithKey(InteractionKey, held, id) == []
  {
    if changes != [] {
      var front, last := changes[..|changes| - 1], changes[|changes| - 1];
      assert changes == front + [last];
      NoOffersNothingHeld(held, front, id);
      RemovesLast(front, last, id);
    }
  }

  lemma ForemostUntouched(held: seq<Interaction>, front: seq<Change>, last: Change, id: string)
    requires !(last.UpsertInteraction? && last.interaction.interactionId == id)
    ensures Foremost(held, front + [last], id) ==
            if last.RemoveInteraction? && last.interactionId == id then [] else Foremost(held, front, id)
  {
    assert (front + [last])[..|front|] == front;
    RemovesLast(front, last, id);
    assert Offers(held, front, id) + [] == Offers(held, front, id);
  }

  lemma ForemostAtFirst(held: seq<Interaction>, id: string)
    ensures Foremost(held, [], id) == WithKey(InteractionKey, held, id)
  {
  }

  /** After the content pass, each identifier holds the best of what was offered for it. */
  lemma {:induction false} HeldIsTheBestOffered(s: Snapshot, changes: seq<Change>, id: string)
    requires !Filled(s, changes).failed
    ensures WithKey(InteractionKey, Filled(s, changes).snapshot.interactions, id) ==
            Foremost(s.interactions, changes, id)
  {
    if changes == [] {
      ForemostAtFirst(s.interactions, id);
    } else {
      var front, last := changes[..|changes| - 1], changes[|changes| - 1];
      assert changes == front + [last];
      HeldIsTheBestOffered(s, front, id);
      ContentHolds(Filled(s, front).snapshot, last, id);
      if last.UpsertInteraction? && last.interaction.interactionId == id {
        ForemostAfterRaise(s.interactions, front, last.interaction);
      } else {
        ForemostUntouched(s.interactions, front, last, id);
      }
    }
  }

  lemma ContentHolds(s: Snapshot, c: Change, id: string)
    requires ContentStep(s, c).Some?
    ensures var before := WithKey(InteractionKey, s.interactions, id);
            WithKey(InteractionKey, ContentStep(s, c).value.interactions, id) ==
            if c.RemoveInteraction? && c.interactionId == id then []
            else if c.UpsertInteraction? && c.interaction.interactionId == id then
              if before == [] then [c.interaction]
              else if Revision(c.interaction) > Revision(before[0]) then [c.interaction] + before[1..]
              else before
            else before
  {
    if c.UpsertInteraction? {
      UpsertWithKey(s.interactions, c.interaction, id);
    } else if c.RemoveInteraction? {
      RemovalWithKey(s.interactions, c.interactionId, id);
    }
  }
}

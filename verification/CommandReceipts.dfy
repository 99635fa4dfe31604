/**
 Which command receipts a session holds, and which receipt for each command, in terms of the changes
 alone: the newest 128 commands by insertion, each at the latest receipt put since it was inserted.
 */
module CommandReceipts {
  import opened Wrappers
  import opened Protocol
  import opened Sequences
  import opened Best
  import opened Reducer
  import opened Replica

  function UpdatedAt(r: Receipt): int { r.updatedAt }

  /** The last 128 of a list. */
  function Newest<T>(log: seq<T>): seq<T> {
    if |log| <= MAX_RECEIPTS then log else log[|log| - MAX_RECEIPTS..]
  }

  /** The receipt a change puts for a command of this session. */
  function PutBy(s: Snapshot, c: Change, id: string): seq<Receipt> {
    if c.PutReceipt? && s.OwnsReceipt(c.receipt) && c.receipt.commandId == id then [c.receipt] else []
  }

  /** The commands inserted so far, those held first: one is inserted when it is not among the newest 128. */
  function Inserted(s: Snapshot, changes: seq<Change>): seq<string> {
    if changes == [] then Keys(ReceiptKey, s.receipts)
    else
      var before, last := Inserted(s, changes[..|changes| - 1]), changes[|changes| - 1];
      if last.PutReceipt? && s.OwnsReceipt(last.receipt) && last.receipt.commandId !in Newest(before) then
        before + [last.receipt.commandId]
      else before
  }

  /** The receipts put for a command since it was inserted, the one held first. */
  function Offers(s: Snapshot, changes: seq<Change>, id: string): seq<Receipt> {
    if changes == [] then WithKey(ReceiptKey, s.receipts, id)
    else
      var before, last := Offers(s, changes[..|changes| - 1], id), changes[|changes| - 1];
      if id !in Newest(Inserted(s, changes)) then [] else before + PutBy(s, last, id)
  }

  /** What is held for a command: the last of the most recent among them. */
  function Latest(s: Snapshot, changes: seq<Change>, id: string): seq<Receipt> {
    var offers := Offers(s, changes, id);
    if offers == [] then [] else [offers[LastBest(UpdatedAt, offers)]]
  }

  // ----- one receipt

  lemma KeysAppend(rs: seq<Receipt>, r: Receipt)
    ensures Keys(ReceiptKey, rs + [r]) == Keys(ReceiptKey, rs) + [r.commandId]
  {
    assert (rs + [r])[..|rs|] == rs;
  }

  lemma KeysDropFirst(rs: seq<Receipt>)
    requires rs != []
    ensures Keys(ReceiptKey, rs[1..]) == Keys(ReceiptKey, rs)[1..]
  {
  }

  lemma NewestAppend<T>(log: seq<T>, x: T)
    ensures Newest(log + [x]) ==
            if |Newest(log)| < MAX_RECEIPTS then Newest(log) + [x] else (Newest(log) + [x])[1..]
  {
  }

  /** The receipts after one of this session's. */
  function Placed(rs: seq<Receipt>, r: Receipt): seq<Receipt> {
    var i := IndexOfKey(ReceiptKey, rs, r.commandId);
    if i < |rs| then (if UpdatedAt(r) >= UpdatedAt(rs[i]) then rs[i := r] else rs)
    else if |rs| < MAX_RECEIPTS then rs + [r]
    else (rs + [r])[1..]
  }

  /** A valid receipt is never refused: ambiguity becomes success only with evidence, which it carries. */
  lemma ValidIsPlaced(s: Snapshot, r: Receipt)
    requires r.Valid()
    ensures WithReceipt(s, r) == Some(if s.OwnsReceipt(r) then Placed(s.receipts, r) else s.receipts)
  {
  }

  lemma KeysOfUpdate(rs: seq<Receipt>, i: nat, r: Receipt)
    requires i < |rs| && ReceiptKey(rs[i]) == r.commandId
    ensures Keys(ReceiptKey, rs[i := r]) == Keys(ReceiptKey, rs)
  {
  }

  /** What one receipt leaves held, by command. */
  lemma PlacedIds(rs: seq<Receipt>, r: Receipt)
    ensures var ids := Keys(ReceiptKey, rs);
            Keys(ReceiptKey, Placed(rs, r)) ==
            if r.commandId in ids then ids
            else if |ids| < MAX_RECEIPTS then ids + [r.commandId]
            else (ids + [r.commandId])[1..]
  {
    var i := IndexOfKey(ReceiptKey, rs, r.commandId);
    WithKeyFirst(ReceiptKey, rs, r.commandId);
    KeyListed(ReceiptKey, rs, r.commandId);
    if i < |rs| {
      KeysOfUpdate(rs, i, r);
    } else if |rs| < MAX_RECEIPTS {
      KeysAppend(rs, r);
    } else {
      KeysAppend(rs, r);
      KeysDropFirst(rs + [r]);
    }
  }

  /** A receipt for a command already held. */
  lemma ReplaceReceipt(rs: seq<Receipt>, r: Receipt, id: string)
    requires IndexOfKey(ReceiptKey, rs, r.commandId) < |rs| && |WithKey(ReceiptKey, rs, id)| <= 1
    ensures var i, before := IndexOfKey(ReceiptKey, rs, r.commandId), WithKey(ReceiptKey, rs, id);
            && WithKey(ReceiptKey, rs[i := r], id) == (if id == r.commandId then [r] else before)
            && (id == r.commandId ==> before == [rs[i]])
  {
    var i := IndexOfKey(ReceiptKey, rs, r.commandId);
    WithKeyFirst(ReceiptKey, rs, r.commandId);
    assert ReceiptKey(rs[i]) == r.commandId;
    if id == r.commandId {
      WithKeyReplaceFirst(ReceiptKey, rs, r);
    } else {
      WithKeyUpdate(ReceiptKey, rs, i, r, id);
    }
  }

  /** A receipt for a command not held, and the oldest given up for it. */
  lemma AppendReceipt(rs: seq<Receipt>, r: Receipt, id: string)
    requires IndexOfKey(ReceiptKey, rs, r.commandId) == |rs| && |WithKey(ReceiptKey, rs, id)| <= 1
    ensures var before, grown := WithKey(ReceiptKey, rs, id), rs + [r];
            && WithKey(ReceiptKey, grown, id) == (if id == r.commandId then [r] else before)
            && (id == r.commandId ==> before == [])
            && WithKey(ReceiptKey, grown[1..], id) ==
               (if ReceiptKey(grown[0]) == id then [] else WithKey(ReceiptKey, grown, id))
  {
    WithKeyFirst(ReceiptKey, rs, r.commandId);
    WithKeyAppend(ReceiptKey, rs, r, id);
    WithKeyDropFirst(ReceiptKey, rs + [r], id);
  }

  /** What one receipt leaves under one command, if the command is still held. */
  function After(before: seq<Receipt>, r: Receipt, id: string): seq<Receipt> {
    if id != r.commandId then before
    else if before == [] then [r]
    else [if UpdatedAt(r) >= UpdatedAt(before[0]) then r else before[0]]
  }

  /** The same for whatever `held` counts under the command, as long as it counts like that. */
  lemma PlacedCounts(held: seq<Receipt> -> seq<Receipt>, rs: seq<Receipt>, r: Receipt, id: string)
    requires var i := IndexOfKey(ReceiptKey, rs, r.commandId);
             if i < |rs| then
               && held(rs[i := r]) == (if id == r.commandId then [r] else held(rs))
               && (id == r.commandId ==> held(rs) == [rs[i]])
             else
               && held(rs + [r]) == (if id == r.commandId then [r] else held(rs))
               && (id == r.commandId ==> held(rs) == [])
               && (held((rs + [r])[1..]) == [] || held((rs + [r])[1..]) == held(rs + [r]))
    ensures held(Placed(rs, r)) == [] || held(Placed(rs, r)) == After(held(rs), r, id)
  {
  }

  lemma PlacedReceipts(rs: seq<Receipt>, r: Receipt, id: string)
    requires |WithKey(ReceiptKey, rs, id)| <= 1
    ensures var after := WithKey(ReceiptKey, Placed(rs, r), id);
            after == [] || after == After(WithKey(ReceiptKey, rs, id), r, id)
  {
    if IndexOfKey(ReceiptKey, rs, r.commandId) < |rs| {
      ReplaceReceipt(rs, r, id);
    } else {
      AppendReceipt(rs, r, id);
    }
    PlacedCounts((xs: seq<Receipt>) => WithKey(ReceiptKey, xs, id), rs, r, id);
  }

  // ----- the whole pass

  /** One change against the insertion log. */
  lemma NewestStep(s: Snapshot, log: seq<string>, c: Change)
    requires c.Valid() && ContentStep(s, c).Some? && Keys(ReceiptKey, s.receipts) == Newest(log)
    ensures Keys(ReceiptKey, ContentStep(s, c).value.receipts) ==
            if c.PutReceipt? && s.OwnsReceipt(c.receipt) && c.receipt.commandId !in Newest(log) then
              Newest(log + [c.receipt.commandId])
            else Newest(log)
  {
    ContentPlaces(s, c);
    if c.PutReceipt? {
      PlacedIds(s.receipts, c.receipt);
      NewestAppend(log, c.receipt.commandId);
    }
  }

  /** After the content pass, the commands held are the newest 128 by insertion, in that order. */
  lemma {:induction false} HeldIsTheNewest(s: Snapshot, changes: seq<Change>)
    requires |s.receipts| <= MAX_RECEIPTS && forall i | 0 <= i < |changes| :: changes[i].Valid()
    requires !Filled(s, changes).failed
    ensures Keys(ReceiptKey, Filled(s, changes).snapshot.receipts) == Newest(Inserted(s, changes))
  {
    if changes != [] {
      var front, last := changes[..|changes| - 1], changes[|changes| - 1];
      HeldIsTheNewest(s, front);
      FilledKeepsIdentity(s, front);
      NewestStep(Filled(s, front).snapshot, Inserted(s, front), last);
    }
  }

  /** Only an owned receipt changes the receipts. */
  lemma ContentPlaces(s: Snapshot, c: Change)
    requires c.Valid() && ContentStep(s, c).Some?
    ensures ContentStep(s, c).value.receipts ==
            if c.PutReceipt? && s.OwnsReceipt(c.receipt) then Placed(s.receipts, c.receipt) else s.receipts
  {
    if c.PutReceipt? {
      ValidIsPlaced(s, c.receipt);
    }
  }

  lemma OffersStep(s: Snapshot, front: seq<Change>, last: Change, id: string)
    ensures var changes := front + [last];
            Offers(s, changes, id) ==
            if id in Newest(Inserted(s, changes)) then Offers(s, front, id) + PutBy(s, last, id) else []
  {
    assert (front + [last])[..|front|] == front;
  }

  /** The best of one more: the newcomer unless something earlier is more recent. */
  lemma LatestAfterPut(offers: seq<Receipt>, r: Receipt)
    ensures var all := offers + [r];
            [all[LastBest(UpdatedAt, all)]] ==
            After(if offers == [] then [] else [offers[LastBest(UpdatedAt, offers)]], r, r.commandId)
  {
    if offers != [] {
      LastBestAppend(UpdatedAt, offers, r);
    }
  }

  /** After the content pass, each command held once holds the latest receipt put for it since it was inserted. */
  lemma {:induction false} HeldIsTheLatest(s: Snapshot, changes: seq<Change>, id: string)
    requires |s.receipts| <= MAX_RECEIPTS && forall i | 0 <= i < |changes| :: changes[i].Valid()
    requires !Filled(s, changes).failed && |WithKey(ReceiptKey, s.receipts, id)| <= 1
    ensures WithKey(ReceiptKey, Filled(s, changes).snapshot.receipts, id) == Latest(s, changes, id)
  {
    if changes == [] {
      if WithKey(ReceiptKey, s.receipts, id) != [] {
        assert LastBest(UpdatedAt, WithKey(ReceiptKey, s.receipts, id)) == 0;
      }
    } else {
      var front, last := changes[..|changes| - 1], changes[|changes| - 1];
      assert changes == front + [last];
      HeldIsTheLatest(s, front, id);
      LatestStep(s, front, last, id);
    }
  }

  lemma LatestStep(s: Snapshot, front: seq<Change>, last: Change, id: string)
    requires |s.receipts| <= MAX_RECEIPTS && last.Valid() && forall i | 0 <= i < |front| :: front[i].Valid()
    requires !Filled(s, front + [last]).failed
    requires WithKey(ReceiptKey, Filled(s, front).snapshot.receipts, id) == Latest(s, front, id)
    ensures WithKey(ReceiptKey, Filled(s, front + [last]).snapshot.receipts, id) == Latest(s, front + [last], id)
  {
    var changes, before := front + [last], Filled(s, front).snapshot;
    assert changes[..|front|] == front;
    FilledKeepsIdentity(s, front);
    HeldIsTheNewest(s, changes);
    ContentPlaces(before, last);
    LatestPlaced(s, front, last, id, before.receipts, Filled(s, changes).snapshot.receipts);
  }

  lemma LatestPlaced(s: Snapshot, front: seq<Change>, last: Change, id: string, rs: seq<Receipt>, after: seq<Receipt>)
    requires WithKey(ReceiptKey, rs, id) == Latest(s, front, id)
    requires after == if last.PutReceipt? && s.OwnsReceipt(last.receipt) then Placed(rs, last.receipt) else rs
    requires Keys(ReceiptKey, after) == Newest(Inserted(s, front + [last]))
    ensures WithKey(ReceiptKey, after, id) == Latest(s, front + [last], id)
  {
    OffersStep(s, front, last, id);
    KeyListed(ReceiptKey, after, id);
    if last.PutReceipt? && s.OwnsReceipt(last.receipt) {
      PlacedReceipts(rs, last.receipt, id);
      if id == last.receipt.commandId {
        LatestAfterPut(Offers(s, front, id), last.receipt);
      }
    }
    assert Offers(s, front, id) + [] == Offers(s, front, id);
  }

  // ----- what the definitions read

  /** Only the session, its generation and its receipts decide which receipts are offered. */
  lemma {:induction false} OffersAlike(s: Snapshot, t: Snapshot, changes: seq<Change>, id: string)
    requires t.receipts == s.receipts && forall r :: t.OwnsReceipt(r) == s.OwnsReceipt(r)
    ensures Inserted(t, changes) == Inserted(s, changes) && Offers(t, changes, id) == Offers(s, changes, id)
  {
    if changes != [] {
      OffersAlike(s, t, changes[..|changes| - 1], id);
    }
  }

  // ----- by position

  /** Change `n` adds what it puts to what was offered before it. */
  predicate Adds<C, T(==)>(offers: seq<C> -> seq<T>, more: C -> seq<T>, changes: seq<C>, n: nat)
    requires n < |changes|
  {
    offers(changes[..n + 1]) == offers(changes[..n]) + more(changes[n])
  }

  function Collect<C, T>(more: C -> seq<T>, changes: seq<C>): seq<T> {
    if changes == [] then [] else Collect(more, changes[..|changes| - 1]) + more(changes[|changes| - 1])
  }

  lemma {:induction false} AddsUp<C, T>(offers: seq<C> -> seq<T>, more: C -> seq<T>, changes: seq<C>, b: nat, n: nat)
    requires b <= n <= |changes| && forall m | b <= m < n :: Adds(offers, more, changes, m)
    ensures offers(changes[..n]) == offers(changes[..b]) + Collect(more, changes[b..n])
  {
    if n > b {
      AddsUp(offers, more, changes, b, n - 1);
      assert Adds(offers, more, changes, n - 1);
      assert changes[b..n][..n - b - 1] == changes[b..n - 1];
      Associates(offers(changes[..b]), Collect(more, changes[b..n - 1]), more(changes[n - 1]));
    }
  }

  /** The command is among the newest 128 after the first `j` changes. */
  predicate HeldAt(s: Snapshot, changes: seq<Change>, id: string, j: nat)
    requires j <= |changes|
  {
    id in Newest(Inserted(s, changes[..j]))
  }

  lemma AddsWhileHeld(s: Snapshot, changes: seq<Change>, id: string, n: nat)
    requires n < |changes| && HeldAt(s, changes, id, n + 1)
    ensures Adds((cs: seq<Change>) => Offers(s, cs, id), (c: Change) => PutBy(s, c, id), changes, n)
  {
    assert changes[..n + 1] == changes[..n] + [changes[n]];
    OffersStep(s, changes[..n], changes[n], id);
  }

  /**
   By position: while a command stays among the newest 128 from `b` on, what is offered for it is what was
   offered by then and every receipt put for it since, in order.
   */
  lemma OffersByPosition(s: Snapshot, changes: seq<Change>, id: string, b: nat)
    requires b <= |changes| && forall j | b < j <= |changes| :: HeldAt(s, changes, id, j)
    ensures Offers(s, changes, id) ==
            Offers(s, changes[..b], id) + Collect((c: Change) => PutBy(s, c, id), changes[b..])
  {
    var offers, more := (cs: seq<Change>) => Offers(s, cs, id), (c: Change) => PutBy(s, c, id);
    forall n | b <= n < |changes| ensures Adds(offers, more, changes, n) {
      AddsWhileHeld(s, changes, id, n);
    }
    AddsUp(offers, more, changes, b, |changes|);
    assert changes[..|changes|] == changes && changes[b..|changes|] == changes[b..];
  }

  /** A command that is not among the newest 128 has nothing to its name: the next receipt starts over. */
  lemma NothingOfferedWhenForgotten(s: Snapshot, changes: seq<Change>, id: string)
    requires |s.receipts| <= MAX_RECEIPTS && id !in Newest(Inserted(s, changes))
    ensures Offers(s, changes, id) == []
  {
    KeyListed(ReceiptKey, s.receipts, id);
  }
}

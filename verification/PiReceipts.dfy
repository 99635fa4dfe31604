/**
 The Pi extension's memory of command receipts: an insertion-ordered map of at most 128. A new key
 at the bound pushes out the oldest; a known key keeps its place.
 */
module PiReceipts {
  import opened Wrappers
  import opened Sequences

  const MAX_RECEIPTS := 128

  datatype Receipt = Accepted | Applied(evidence: string) | Rejected(reasonCode: string)

  datatype Remembered = Remembered(commandId: string, receipt: Receipt)

  /** The map, the keys ever inserted into it, every receipt decided, and every receipt sent. */
  datatype Cache = Cache(
    receipts: seq<Remembered>, inserted: seq<string>, decided: seq<Remembered>, wire: seq<Remembered>)

  const EMPTY := Cache([], [], [], [])

  function Find(receipts: seq<Remembered>, commandId: string): (i: nat)
    ensures i <= |receipts|
    ensures i < |receipts| ==> receipts[i].commandId == commandId
    ensures forall j | 0 <= j < i :: receipts[j].commandId != commandId
  {
    IndexOfKey((r: Remembered) => r.commandId, receipts, commandId)
  }

  predicate Holds(c: Cache, commandId: string) {
    Find(c.receipts, commandId) < |c.receipts|
  }

  function Remember(c: Cache, commandId: string, receipt: Receipt): Cache {
    var r, i := Remembered(commandId, receipt), Find(c.receipts, commandId);
    if i < |c.receipts| then
      c.(receipts := c.receipts[i := r], decided := c.decided + [r], wire := c.wire + [r])
    else
      var room := if |c.receipts| >= MAX_RECEIPTS then c.receipts[1..] else c.receipts;
      Cache(room + [r], c.inserted + [commandId], c.decided + [r], c.wire + [r])
  }

  function Resend(c: Cache, commandId: string): Cache
    requires Holds(c, commandId)
  {
    c.(wire := c.wire + [c.receipts[Find(c.receipts, commandId)]])
  }

  /** The receipt most recently decided for a command. */
  function Latest(decided: seq<Remembered>, commandId: string): Option<Receipt> {
    if decided == [] then None
    else if decided[|decided| - 1].commandId == commandId then Some(decided[|decided| - 1].receipt)
    else Latest(decided[..|decided| - 1], commandId)
  }

  /** When the receipt at a place in the map was inserted. */
  function StampAt(c: Cache, i: nat): int {
    |c.inserted| - |c.receipts| + i
  }

  ghost predicate Distinct(c: Cache) {
    forall i, j | 0 <= i < j < |c.receipts| :: c.receipts[i].commandId != c.receipts[j].commandId
  }

  ghost predicate Newest(c: Cache) {
    && |c.receipts| == (if |c.inserted| < MAX_RECEIPTS then |c.inserted| else MAX_RECEIPTS)
    && forall i | 0 <= i < |c.receipts| :: c.receipts[i].commandId == c.inserted[StampAt(c, i)]
  }

  ghost predicate Current(c: Cache) {
    forall i | 0 <= i < |c.receipts| :: Latest(c.decided, c.receipts[i].commandId) == Some(c.receipts[i].receipt)
  }

  /** The map holds the newest 128 inserted keys, in order, each with its command's latest receipt. */
  ghost predicate Orderly(c: Cache) {
    Newest(c) && Distinct(c) && Current(c)
  }

  lemma LatestAppend(decided: seq<Remembered>, r: Remembered, id: string)
    ensures Latest(decided + [r], id) == if r.commandId == id then Some(r.receipt) else Latest(decided, id)
  {
    assert (decided + [r])[..|decided|] == decided;
  }

  lemma RememberKeepsNewest(c: Cache, commandId: string, receipt: Receipt)
    requires Newest(c)
    ensures Newest(Remember(c, commandId, receipt)) && c.inserted <= Remember(c, commandId, receipt).inserted
  {
  }

  lemma RememberKeepsDistinct(c: Cache, commandId: string, receipt: Receipt)
    requires Distinct(c)
    ensures var d := Remember(c, commandId, receipt); Distinct(d) && Holds(d, commandId)
  {
    var d := Remember(c, commandId, receipt);
    var k := if Holds(c, commandId) then Find(c.receipts, commandId) else |d.receipts| - 1;
    assert d.receipts[k] == Remembered(commandId, receipt);
  }

  lemma RememberKeepsCurrent(c: Cache, commandId: string, receipt: Receipt)
    requires Current(c) && Distinct(c)
    ensures Current(Remember(c, commandId, receipt))
  {
    var r, d := Remembered(commandId, receipt), Remember(c, commandId, receipt);
    forall i | 0 <= i < |d.receipts|
      ensures Latest(d.decided, d.receipts[i].commandId) == Some(d.receipts[i].receipt)
    {
      LatestAppend(c.decided, r, d.receipts[i].commandId);
      assert d.receipts[i] == r || d.receipts[i] in c.receipts;
    }
  }

  lemma RememberKeepsOrderly(c: Cache, commandId: string, receipt: Receipt)
    requires Orderly(c)
    ensures var d := Remember(c, commandId, receipt);
            Orderly(d) && Holds(d, commandId) && c.inserted <= d.inserted
  {
    RememberKeepsNewest(c, commandId, receipt);
    RememberKeepsDistinct(c, commandId, receipt);
    RememberKeepsCurrent(c, commandId, receipt);
  }

  /** While its receipt is held, a command is answered with the receipt last decided for it. */
  lemma ResendRepeatsTheLatest(c: Cache, commandId: string)
    requires Orderly(c) && Holds(c, commandId)
    ensures Orderly(Resend(c, commandId))
    ensures Latest(c.decided, commandId).Some?
    ensures Resend(c, commandId).wire == c.wire + [Remembered(commandId, Latest(c.decided, commandId).value)]
  {
    var i := Find(c.receipts, commandId);
    assert c.receipts[i] == Remembered(commandId, c.receipts[i].receipt);
    assert Latest(c.decided, c.receipts[i].commandId) == Some(c.receipts[i].receipt);
  }

  function StampOf(c: Cache, commandId: string): int {
    StampAt(c, Find(c.receipts, commandId))
  }

  /** An inserted key is held exactly while fewer than 128 keys have been inserted since. */
  lemma HeldExactly(c: Cache, commandId: string)
    requires Orderly(c)
    ensures Holds(c, commandId) <==>
            exists p :: 0 <= p < |c.inserted| && |c.inserted| - MAX_RECEIPTS <= p && c.inserted[p] == commandId
    ensures Holds(c, commandId) ==>
              0 <= StampOf(c, commandId) < |c.inserted| && c.inserted[StampOf(c, commandId)] == commandId
  {
    if Holds(c, commandId) {
      var i := Find(c.receipts, commandId);
      assert c.inserted[StampAt(c, i)] == commandId;
    }
    forall p | 0 <= p < |c.inserted| && |c.inserted| - MAX_RECEIPTS <= p && c.inserted[p] == commandId
      ensures Holds(c, commandId)
    {
      var i := p - |c.inserted| + |c.receipts|;
      assert c.receipts[i].commandId == c.inserted[StampAt(c, i)];
    }
  }

  /** A key that was not held and now is was inserted in between. */
  lemma NewlyHeldIsStampedLater(c: Cache, d: Cache, commandId: string)
    requires Orderly(c) && Orderly(d) && c.inserted <= d.inserted
    requires !Holds(c, commandId) && Holds(d, commandId)
    ensures StampOf(d, commandId) >= |c.inserted|
  {
    HeldExactly(c, commandId);
    HeldExactly(d, commandId);
    var p := StampOf(d, commandId);
    assert d.inserted[p] == commandId;
  }
}

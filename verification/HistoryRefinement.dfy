/**
 Streaming against batch. The mapper's rows are always a suffix, with identical contents, of the
 unbounded mapping; where the suffix starts is the running maximum of where the bound cut.
 */
module HistoryRefinement {
  import opened Wrappers
  import opened Numbers
  import opened Protocol
  import opened Encoding
  import opened Sequences
  import opened Suffixes
  import opened HistoryEntries
  import opened HistoryMapper

  /** Where the retained suffix starts: past every cut so far, and past everything before a hole. */
  function Start(preview: Previewer, steps: seq<Step>): nat {
    if steps == [] then 0
    else if steps[|steps| - 1].Hole? then |Batch(preview, steps)|
    else Max(Start(preview, steps[..|steps| - 1]), KeptFrom(Batch(preview, steps)))
  }

  function Sources(rows: seq<Record>): set<string> {
    set i | 0 <= i < |rows| :: rows[i].sourceId
  }

  /** A stream standing at row `k` of a batch. */
  ghost predicate StandsAt(st: Stream, rows: seq<Record>, k: nat) {
    && k <= |rows|
    && st.rows == rows[k..] && st.base == k
    && st.evicted == Sources(rows[..k])
    && DistinctKeys(SourceOf, rows)
  }

  // ----- the batch

  lemma IndexOfAppend(rows: seq<Record>, row: Record)
    requires DistinctKeys(SourceOf, rows) && IndexOfKey(SourceOf, rows, row.sourceId) == |rows|
    ensures DistinctKeys(SourceOf, rows + [row])
  {
    var all := rows + [row];
    forall i, j | 0 <= i < j < |all| ensures SourceOf(all[i]) != SourceOf(all[j]) {
      if j == |rows| {
        assert SourceOf(rows[i]) != row.sourceId;
      }
    }
  }

  /** The batch keeps one row a source, never moves a row, and never drops one. */
  lemma BatchedKeepsRows(preview: Previewer, rows: seq<Record>, step: Step)
    requires DistinctKeys(SourceOf, rows)
    ensures var after := Batched(preview, rows, step);
            && DistinctKeys(SourceOf, after) && |rows| <= |after|
            && forall i | 0 <= i < |rows| :: after[i].sourceId == rows[i].sourceId
  {
    if step.Map? {
      var i := IndexOfKey(SourceOf, rows, step.op.source);
      if i < |rows| {
        assert SourceOf(rows[i]) == step.op.source;
        var after := Batched(preview, rows, step);
        assert forall j | 0 <= j < |rows| :: SourceOf(after[j]) == SourceOf(rows[j]);
      } else {
        IndexOfAppend(rows, Updated(preview, None, step.op));
      }
    }
  }

  lemma {:induction false} BatchIsDistinct(preview: Previewer, steps: seq<Step>)
    ensures DistinctKeys(SourceOf, Batch(preview, steps))
  {
    if steps != [] {
      BatchIsDistinct(preview, steps[..|steps| - 1]);
      BatchedKeepsRows(preview, Batch(preview, steps[..|steps| - 1]), steps[|steps| - 1]);
    }
  }

  // ----- one step

  lemma SourcesListed(rows: seq<Record>, source: string)
    ensures source in Sources(rows) <==> IndexOfKey(SourceOf, rows, source) < |rows|
  {
    var i := IndexOfKey(SourceOf, rows, source);
    if i < |rows| {
      assert SourceOf(rows[i]) == source;
    } else {
      assert forall j | 0 <= j < |rows| :: SourceOf(rows[j]) != source;
    }
  }

  /** Searching a suffix finds what searching the whole would, unless it lies before the suffix. */
  lemma IndexInSuffix(rows: seq<Record>, k: nat, source: string)
    requires k <= |rows|
    ensures source in Sources(rows[..k]) <==> IndexOfKey(SourceOf, rows, source) < k
    ensures source !in Sources(rows[..k]) ==>
              k + IndexOfKey(SourceOf, rows[k..], source) == IndexOfKey(SourceOf, rows, source)
  {
    assert rows == rows[..k] + rows[k..];
    IndexOfConcat(SourceOf, rows[..k], rows[k..], source);
    SourcesListed(rows[..k], source);
  }

  /** Mapping onto the suffix is the suffix of mapping onto the whole. */
  lemma BatchedSuffix(preview: Previewer, rows: seq<Record>, k: nat, op: Operation)
    requires k <= |rows| && DistinctKeys(SourceOf, rows)
    ensures op.source in Sources(rows[..k]) ==> Batched(preview, rows, Map(op))[k..] == rows[k..]
    ensures op.source !in Sources(rows[..k]) ==>
              Batched(preview, rows, Map(op))[k..] == Batched(preview, rows[k..], Map(op))
    ensures Sources(Batched(preview, rows, Map(op))[..k]) == Sources(rows[..k])
  {
    IndexInSuffix(rows, k, op.source);
    BatchedKeepsRows(preview, rows, Map(op));
    var after := Batched(preview, rows, Map(op));
    assert forall i | 0 <= i < k :: after[..k][i].sourceId == rows[..k][i].sourceId;
  }

  lemma {:induction false} TrimmedStands(st: Stream, rows: seq<Record>, k: nat)
    requires StandsAt(st, rows, k)
    ensures StandsAt(Trimmed(st), rows, Max(k, KeptFrom(rows)))
    ensures Trimmed(st).truncated == (st.truncated || Max(k, KeptFrom(rows)) > k)
    decreases |st.rows|
  {
    CutIsLongest(RecordBytes, HISTORY_BOUND, rows, k);
    if !Fits(RecordBytes, HISTORY_BOUND, st.rows) {
      EvictedStands(st, rows, k);
      TrimmedStands(EvictedOldest(st), rows, k + 1);
    }
  }

  lemma EvictedStands(st: Stream, rows: seq<Record>, k: nat)
    requires StandsAt(st, rows, k) && st.rows != []
    ensures StandsAt(EvictedOldest(st), rows, k + 1)
  {
    assert rows[k..][1..] == rows[k + 1..];
    assert rows[..k + 1] == rows[..k] + [rows[k]];
    SourcesAppend(rows[..k], rows[k]);
  }

  lemma SourcesAppend(rows: seq<Record>, row: Record)
    ensures Sources(rows + [row]) == Sources(rows) + {row.sourceId}
  {
    var all := rows + [row];
    forall s | s in Sources(rows) ensures s in Sources(all) {
      var i :| 0 <= i < |rows| && rows[i].sourceId == s;
      assert all[i].sourceId == s;
    }
    assert all[|rows|].sourceId == row.sourceId;
  }

  lemma {:induction false} EmptiedStands(st: Stream, rows: seq<Record>, k: nat)
    requires StandsAt(st, rows, k)
    ensures StandsAt(Emptied(st), rows, |rows|) && Emptied(st).truncated
    decreases |st.rows|
  {
    if st.rows != [] {
      EvictedStands(st, rows, k);
      EmptiedStands(EvictedOldest(st), rows, k + 1);
    }
  }

  lemma StepStands(preview: Previewer, st: Stream, rows: seq<Record>, k: nat, op: Operation)
    requires StandsAt(st, rows, k) && Fits(RecordBytes, HISTORY_BOUND, st.rows)
    ensures var after := Batched(preview, rows, Map(op));
            var next := Streamed(preview, st, Map(op));
            && StandsAt(next, after, Max(k, KeptFrom(after)))
            && next.truncated == (st.truncated || Max(k, KeptFrom(after)) > k)
  {
    var after := Batched(preview, rows, Map(op));
    BatchedKeepsRows(preview, rows, Map(op));
    BatchedSuffix(preview, rows, k, op);
    if op.source in st.evicted {
      CutIsLongest(RecordBytes, HISTORY_BOUND, after, k);
    } else {
      TrimmedStands(st.(rows := Batched(preview, st.rows, Map(op))), after, k);
    }
  }

  // ----- whole reads

  predicate HasHole(steps: seq<Step>) {
    exists i | 0 <= i < |steps| :: steps[i].Hole?
  }

  lemma HasHoleLast(front: seq<Step>, last: Step)
    ensures HasHole(front + [last]) <==> HasHole(front) || last.Hole?
  {
    var all := front + [last];
    if i :| 0 <= i < |front| && front[i].Hole? {
      assert all[i].Hole?;
    }
    if last.Hole? {
      assert all[|front|].Hole?;
    }
  }

  /** What every read keeps, at every moment. */
  ghost predicate Tracks(preview: Previewer, truncated: bool, steps: seq<Step>) {
    var st, rows, k := StreamAll(preview, truncated, steps), Batch(preview, steps), Start(preview, steps);
    && StandsAt(st, rows, k)
    && Fits(RecordBytes, HISTORY_BOUND, st.rows)
    && (st.truncated <==> truncated || k > 0 || HasHole(steps))
  }

  /**
   Streaming refines batch, for every read, holes included: at every moment the mapper's rows are
   the batch rows from `Start` on, with identical contents, they fit both bounds, everything before
   them is marked evicted, and `truncated` says exactly whether anything is missing.
   */
  lemma {:induction false} StreamingRefinesBatch(preview: Previewer, truncated: bool, steps: seq<Step>)
    ensures Tracks(preview, truncated, steps)
  {
    if steps == [] {
      assert Sources([]) == {};
    } else {
      var front, last := steps[..|steps| - 1], steps[|steps| - 1];
      StreamingRefinesBatch(preview, truncated, front);
      var st, rows, k := StreamAll(preview, truncated, front), Batch(preview, front), Start(preview, front);
      assert steps == front + [last];
      HasHoleLast(front, last);
      if last.Hole? {
        EmptiedStands(st, rows, k);
      } else {
        StepStands(preview, st, rows, k, last.op);
        var after := Batched(preview, rows, last);
        CutIsLongest(RecordBytes, HISTORY_BOUND, after, Max(k, KeptFrom(after)));
      }
    }
  }

  // ----- when streaming equals bounding at the end

  /** No step made any row smaller than it was. */
  ghost predicate NeverShrinks(preview: Previewer, steps: seq<Step>) {
    forall n, i | 0 <= n < |steps| && 0 <= i < |Batch(preview, steps[..n])| ::
      SizeAt(preview, steps, n, i) <= SizeAt(preview, steps, n + 1, i)
  }

  function SizeAt(preview: Previewer, steps: seq<Step>, n: nat, i: nat): nat {
    if n <= |steps| && i < |Batch(preview, steps[..n])| then RecordBytes(Batch(preview, steps[..n])[i]) else 0
  }

  lemma {:induction false} StartReachesEveryCut(preview: Previewer, steps: seq<Step>, n: nat)
    requires n <= |steps|
    ensures KeptFrom(Batch(preview, steps[..n])) <= Start(preview, steps) <= |Batch(preview, steps)|
    decreases |steps|
  {
    StreamingRefinesBatch(preview, false, steps);
    if steps == [] {
      assert steps[..n] == [];
    } else {
      var front := steps[..|steps| - 1];
      if n == |steps| {
        assert steps[..n] == steps;
      } else {
        assert front[..n] == steps[..n];
        StartReachesEveryCut(preview, front, n);
        BatchIsDistinct(preview, front);
        BatchedKeepsRows(preview, Batch(preview, front), steps[|steps| - 1]);
      }
    }
  }

  /** How many rows the last hole put out of reach. */
  function HoleFloor(preview: Previewer, steps: seq<Step>): nat {
    if steps == [] then 0
    else
      var front := steps[..|steps| - 1];
      if steps[|steps| - 1].Hole? then |Batch(preview, front)| else HoleFloor(preview, front)
  }

  /** Where bounding the finished batch would begin: past the last hole, and where the bound cuts. */
  function BoundedAtEnd(preview: Previewer, steps: seq<Step>): nat {
    Max(HoleFloor(preview, steps), KeptFrom(Batch(preview, steps)))
  }

  lemma {:induction false} StartIsPastTheHole(preview: Previewer, steps: seq<Step>)
    ensures HoleFloor(preview, steps) <= Start(preview, steps)
  {
    if steps != [] {
      StartIsPastTheHole(preview, steps[..|steps| - 1]);
    }
  }

  lemma {:induction false} StartIsSomeCut(preview: Previewer, steps: seq<Step>) returns (n: nat)
    ensures n <= |steps|
    ensures Start(preview, steps) == Max(HoleFloor(preview, steps), KeptFrom(Batch(preview, steps[..n])))
  {
    if steps == [] {
      n := 0;
    } else {
      var front, last := steps[..|steps| - 1], steps[|steps| - 1];
      n := StartIsSomeCut(preview, front);
      assert front[..n] == steps[..n];
      if last.Hole? {
        n := 0;
        StartReachesEveryCut(preview, front, 0);
      } else if KeptFrom(Batch(preview, steps)) >= Start(preview, front) {
        n := |steps|;
        assert steps[..n] == steps;
        StartIsPastTheHole(preview, front);
      }
    }
  }

  /**
   Exactly when the stream keeps what bounding the finished batch would keep, past the last hole: when the
   bound never cut later at some earlier moment than that.
   */
  lemma StreamingEqualsBatchExactly(preview: Previewer, truncated: bool, steps: seq<Step>)
    ensures BoundedAtEnd(preview, steps) <= |Batch(preview, steps)|
    ensures StreamAll(preview, truncated, steps).rows == Batch(preview, steps)[BoundedAtEnd(preview, steps)..]
            <==> forall n | 0 <= n <= |steps| :: KeptFrom(Batch(preview, steps[..n])) <= BoundedAtEnd(preview, steps)
  {
    var rows, end := Batch(preview, steps), BoundedAtEnd(preview, steps);
    StreamingRefinesBatch(preview, truncated, steps);
    var n := StartIsSomeCut(preview, steps);
    StartIsPastTheHole(preview, steps);
    StartReachesEveryCut(preview, steps, |steps|);
    assert steps[..|steps|] == steps;
    forall m | 0 <= m <= |steps| ensures KeptFrom(Batch(preview, steps[..m])) <= Start(preview, steps) {
      StartReachesEveryCut(preview, steps, m);
    }
    if StreamAll(preview, truncated, steps).rows == rows[end..] {
      assert |rows| - Start(preview, steps) == |rows| - end;
    }
  }

  lemma GrowthIsMonotone(preview: Previewer, steps: seq<Step>, n: nat)
    requires NeverShrinks(preview, steps) && n < |steps|
    ensures KeptFrom(Batch(preview, steps[..n])) <= KeptFrom(Batch(preview, steps[..n + 1]))
  {
    var before, after := Batch(preview, steps[..n]), Batch(preview, steps[..n + 1]);
    assert steps[..n + 1][..n] == steps[..n];
    BatchIsDistinct(preview, steps[..n]);
    BatchedKeepsRows(preview, before, steps[n]);
    forall i | 0 <= i < |before| ensures RecordBytes(before[i]) <= RecordBytes(after[i]) {
      assert SizeAt(preview, steps, n, i) <= SizeAt(preview, steps, n + 1, i);
    }
    CutMonotone(RecordBytes, HISTORY_BOUND, before, after);
  }

  lemma {:induction false} GrowthNeverUncuts(preview: Previewer, steps: seq<Step>, n: nat)
    requires NeverShrinks(preview, steps) && n <= |steps|
    ensures KeptFrom(Batch(preview, steps[..n])) <= KeptFrom(Batch(preview, steps))
    decreases |steps| - n
  {
    if n == |steps| {
      assert steps[..n] == steps;
    } else {
      GrowthIsMonotone(preview, steps, n);
      GrowthNeverUncuts(preview, steps, n + 1);
    }
  }

  /** If entries only ever grow, the stream keeps the longest suffix past the last hole that fits. */
  lemma StreamingEqualsBatchWhenEntriesGrow(preview: Previewer, truncated: bool, steps: seq<Step>)
    requires NeverShrinks(preview, steps)
    ensures BoundedAtEnd(preview, steps) <= |Batch(preview, steps)|
    ensures StreamAll(preview, truncated, steps).rows == Batch(preview, steps)[BoundedAtEnd(preview, steps)..]
  {
    forall n | 0 <= n <= |steps| ensures KeptFrom(Batch(preview, steps[..n])) <= BoundedAtEnd(preview, steps) {
      GrowthNeverUncuts(preview, steps, n);
    }
    StreamingEqualsBatchExactly(preview, truncated, steps);
  }

  // ----- holes

  /** Nothing older than a hole survives it. */
  lemma {:induction false} NothingBeforeAHoleSurvives(preview: Previewer, steps: seq<Step>, i: nat)
    requires i < |steps| && steps[i].Hole?
    ensures |Batch(preview, steps[..i])| <= Start(preview, steps)
    decreases |steps|
  {
    var front, last := steps[..|steps| - 1], steps[|steps| - 1];
    if i == |front| {
      assert steps[..i] == front;
    } else {
      assert front[..i] == steps[..i];
      NothingBeforeAHoleSurvives(preview, front, i);
      StartReachesEveryCut(preview, front, 0);
      BatchIsDistinct(preview, front);
      BatchedKeepsRows(preview, Batch(preview, front), last);
    }
  }

  // ----- tools over whole reads

  /** Calls and results never share a source with prose, which the source prefixes guarantee. */
  predicate ToolSourcesApart(steps: seq<Step>) {
    forall i, j | 0 <= i < |steps| && 0 <= j < |steps| && steps[i].Map? && steps[j].Map? ::
      steps[i].op.source == steps[j].op.source ==> steps[i].op.PutTool? == steps[j].op.PutTool?
  }

  predicate KnownStatuses(steps: seq<Step>) {
    forall i | 0 <= i < |steps| && steps[i].Map? && steps[i].op.PutTool? ::
      steps[i].op.status in ["running", "complete", "failed"]
  }

  /** Every tool row was put there by a tool operation on that source. */
  lemma {:induction false} ToolRowsComeFromTools(preview: Previewer, steps: seq<Step>, r: nat) returns (i: nat)
    requires r < |Batch(preview, steps)|
    ensures i < |steps| && steps[i].Map? && steps[i].op.source == Batch(preview, steps)[r].sourceId
    ensures steps[i].op.PutTool? == Batch(preview, steps)[r].body.ToolContent?
  {
    var front, last := steps[..|steps| - 1], steps[|steps| - 1];
    var rows := Batch(preview, front);
    if last.Map? && (r == |rows| || r == IndexOfKey(SourceOf, rows, last.op.source)) {
      i := |front|;
    } else {
      i := ToolRowsComeFromTools(preview, front, r);
      assert front[i] == steps[i];
    }
  }

  lemma ToolStep(preview: Previewer, steps: seq<Step>, r: nat)
    requires steps != [] && ToolSourcesApart(steps) && KnownStatuses(steps)
    requires var rows := Batch(preview, steps[..|steps| - 1]); r < |rows| && rows[r].body.ToolContent?
    ensures var before, after := Batch(preview, steps[..|steps| - 1])[r], Batch(preview, steps);
            && r < |after|
            && (FinishedTool(before) ==> FinishedTool(after[r]))
            && (before.truncation.truncated ==> after[r].truncation.truncated)
            && after[r].body.ToolContent?
  {
    var front, last := steps[..|steps| - 1], steps[|steps| - 1];
    var rows := Batch(preview, front);
    if last.Map? && r == IndexOfKey(SourceOf, rows, last.op.source) {
      assert SourceOf(rows[r]) == last.op.source;
      var i := ToolRowsComeFromTools(preview, front, r);
      assert front[i] == steps[i];
      assert last.op.PutTool?;
      if FinishedTool(rows[r]) {
        FinishedToolStaysFinished(preview, rows[r], last.op);
      }
      if rows[r].truncation.truncated {
        CutToolStaysCut(preview, rows[r], last.op);
      }
    }
  }

  /**
   Over any read, a tool row that finished is finished for good, and one that said it was cut says
   so for good: from any moment `n` to the end.
   */
  lemma {:induction false} ToolHistoryIsMonotone(preview: Previewer, steps: seq<Step>, n: nat, r: nat)
    requires ToolSourcesApart(steps) && KnownStatuses(steps) && n <= |steps|
    requires r < |Batch(preview, steps[..n])| && Batch(preview, steps[..n])[r].body.ToolContent?
    ensures r < |Batch(preview, steps)| && Batch(preview, steps)[r].body.ToolContent?
    ensures FinishedTool(Batch(preview, steps[..n])[r]) ==> FinishedTool(Batch(preview, steps)[r])
    ensures Batch(preview, steps[..n])[r].truncation.truncated ==> Batch(preview, steps)[r].truncation.truncated
    decreases |steps|
  {
    if n == |steps| {
      assert steps[..n] == steps;
    } else {
      var front := steps[..|steps| - 1];
      assert front[..n] == steps[..n];
      assert ToolSourcesApart(front) && KnownStatuses(front) by {
        assert forall i | 0 <= i < |front| :: front[i] == steps[i];
      }
      ToolHistoryIsMonotone(preview, front, n, r);
      ToolStep(preview, steps, r);
    }
  }

  // ----- the finished history

  ghost predicate ValidSteps(steps: seq<Step>) {
    forall i | 0 <= i < |steps| && steps[i].Map? :: ValidOperation(steps[i].op)
  }

  predicate ValidRows(rows: seq<Record>) {
    forall i | 0 <= i < |rows| :: ValidRecord(rows[i])
  }

  lemma {:induction false} EveryRowIsValid(preview: Previewer, steps: seq<Step>)
    requires Honest(preview) && ValidSteps(steps)
    ensures ValidRows(Batch(preview, steps))
  {
    if steps != [] {
      var front, last := steps[..|steps| - 1], steps[|steps| - 1];
      EveryRowIsValid(preview, front);
      var rows := Batch(preview, front);
      if last.Map? {
        var i := IndexOfKey(SourceOf, rows, last.op.source);
        UpdatedIsValid(preview, if i < |rows| then Some(rows[i]) else None, last.op);
      }
    }
  }

  function SettleEach(rows: seq<Record>): seq<Record> {
    seq(|rows|, i requires 0 <= i < |rows| => Settled(rows[i]))
  }

  lemma {:induction false} FinishedKeepsAll(st: Stream, n: nat)
    requires n <= |st.rows| && ValidRows(st.rows)
    ensures FinishedUpTo(st, n) == History(SettleEach(st.rows[..n]), !st.truncated)
  {
    if n > 0 {
      FinishedKeepsAll(st, n - 1);
      SettledIsValid(st.rows[n - 1]);
      assert SettleEach(st.rows[..n]) == SettleEach(st.rows[..n - 1]) + [Settled(st.rows[n - 1])];
    }
  }

  /**
   The finished history: no row is ever discarded as invalid, so the entries are the batch from
   `Start` on with running calls settled; none is left running; and `complete` holds exactly when
   the read began at the start and nothing was cut or unreadable, so nothing is missing.
   */
  lemma FinishedHistory(preview: Previewer, truncated: bool, steps: seq<Step>)
    requires Honest(preview) && ValidSteps(steps)
    ensures var h := Finished(StreamAll(preview, truncated, steps));
            && Start(preview, steps) <= |Batch(preview, steps)|
            && h.entries == SettleEach(Batch(preview, steps)[Start(preview, steps)..])
            && (h.complete <==> !truncated && Start(preview, steps) == 0 && !HasHole(steps))
            && (h.complete ==> |h.entries| == |Batch(preview, steps)|)
            && forall i | 0 <= i < |h.entries| ::
                 !(h.entries[i].body.ToolContent? && h.entries[i].body.tool.status == "running")
  {
    StreamingRefinesBatch(preview, truncated, steps);
    EveryRowIsValid(preview, steps);
    var st := StreamAll(preview, truncated, steps);
    FinishedKeepsAll(st, |st.rows|);
    assert st.rows[..|st.rows|] == st.rows;
    forall i | 0 <= i < |st.rows|
      ensures !(Settled(st.rows[i]).body.ToolContent? && Settled(st.rows[i]).body.tool.status == "running")
    {
      SettledIsValid(st.rows[i]);
    }
  }

  // ----- an entry can shrink

  function Prose(source: string, text: string): Operation {
    PutText(source, 1, "assistant_message", text)
  }

  function Letters(n: nat): string {
    seq(n, _ => 'x')
  }

  /** A row of plain prose weighs its text plus less than a kilobyte. */
  lemma ProseRowBytes(preview: Previewer, held: Option<Record>, source: string, n: nat)
    requires n <= MAX_RETAINED_BYTES && |source| <= 64 && forall i | 0 <= i < |source| :: Plain(source[i])
    ensures var row := Updated(preview, held, Prose(source, Letters(n)));
            n <= RecordBytes(row) <= n + 1000
  {
    var row := Updated(preview, held, Prose(source, Letters(n)));
    PlainLen(Letters(n));
    PlainLen(source);
    PlainLen("complete");
    PlainLen("assistant_message");
    DigitsOfU64(row.sourceRevision);
    DigitsOfU64(row.timestamp);
  }

  lemma BatchAppends(preview: Previewer, steps: seq<Step>, op: Operation)
    requires forall i | 0 <= i < |Batch(preview, steps)| :: Batch(preview, steps)[i].sourceId != op.source
    ensures Batch(preview, steps + [Map(op)]) == Batch(preview, steps) + [Updated(preview, None, op)]
  {
    assert (steps + [Map(op)])[..|steps|] == steps;
    var rows := Batch(preview, steps);
    assert forall i | 0 <= i < |rows| :: SourceOf(rows[i]) != op.source;
  }

  lemma BatchReplaces(preview: Previewer, steps: seq<Step>, op: Operation, i: nat)
    requires DistinctKeys(SourceOf, Batch(preview, steps))
    requires i < |Batch(preview, steps)| && Batch(preview, steps)[i].sourceId == op.source
    ensures var rows := Batch(preview, steps);
            Batch(preview, steps + [Map(op)]) == rows[i := Updated(preview, Some(rows[i]), op)]
  {
    assert (steps + [Map(op)])[..|steps|] == steps;
    var rows := Batch(preview, steps);
    assert SourceOf(rows[i]) == op.source;
    var j := IndexOfKey(SourceOf, rows, op.source);
    assert SourceOf(rows[j]) == op.source;
  }

  lemma TotalOfFive<T>(w: T -> nat, a: T, b: T, c: T, d: T, e: T)
    ensures Total(w, [a, b, c, d, e]) == w(a) + w(b) + w(c) + w(d) + w(e)
  {
    TotalConcat(w, [a, b, c, d], [e]);
    TotalConcat(w, [a, b, c], [d]);
    TotalConcat(w, [a, b], [c]);
    TotalConcat(w, [a], [b]);
    assert [a, b, c, d, e] == [a, b, c, d] + [e];
    assert [a, b, c, d] == [a, b, c] + [d];
    assert [a, b, c] == [a, b] + [c];
    assert [a, b] == [a] + [b];
  }

  function AsSteps(ops: seq<Operation>): seq<Step> {
    seq(|ops|, i requires 0 <= i < |ops| => Map(ops[i]))
  }

  function NewRows(preview: Previewer, ops: seq<Operation>): seq<Record> {
    seq(|ops|, i requires 0 <= i < |ops| => Updated(preview, None, ops[i]))
  }

  lemma NewRowsExtend(preview: Previewer, front: seq<Operation>, last: Operation)
    ensures NewRows(preview, front + [last]) == NewRows(preview, front) + [Updated(preview, None, last)]
  {
  }

  lemma NewRowsSources(preview: Previewer, ops: seq<Operation>)
    ensures var rows := NewRows(preview, ops);
            |rows| == |ops| && forall i | 0 <= i < |ops| :: rows[i].sourceId == ops[i].source
  {
  }

  lemma OneMoreRow(preview: Previewer, front: seq<Operation>, last: Operation)
    requires Batch(preview, AsSteps(front)) == NewRows(preview, front)
    requires forall i | 0 <= i < |front| :: front[i].source != last.source
    ensures Batch(preview, AsSteps(front + [last])) == NewRows(preview, front + [last])
  {
    assert AsSteps(front + [last]) == AsSteps(front) + [Map(last)];
    NewRowsExtend(preview, front, last);
    NewRowsSources(preview, front);
    BatchAppends(preview, AsSteps(front), last);
  }

  /** Operations on distinct sources each add a row. */
  lemma {:induction false} DistinctOperationsAppend(preview: Previewer, ops: seq<Operation>)
    requires forall i, j | 0 <= i < j < |ops| :: ops[i].source != ops[j].source
    ensures Batch(preview, AsSteps(ops)) == NewRows(preview, ops)
  {
    if ops != [] {
      var front, last := ops[..|ops| - 1], ops[|ops| - 1];
      DistinctOperationsAppend(preview, front);
      OneMoreRow(preview, front, last);
      assert ops == front + [last];
    }
  }

  /** The last message, as short as it can be. */
  function Shortened(): Operation {
    Prose("assistant-e", Letters(1))
  }

  lemma ShortenedBytes(preview: Previewer, held: Record)
    ensures RecordBytes(Updated(preview, Some(held), Shortened())) <= 1001
  {
    var source := "assistant-e";
    assert |source| == 11 && forall i | 0 <= i < 11 :: Plain(source[i]);
    ProseRowBytes(preview, Some(held), source, 1);
  }

  /** A short message, four of the largest, and the last of them again, short. */
  function Shrinking(): seq<Step> {
    AsSteps(Overflow()) + [Map(Shortened())]
  }

  lemma ShrinkingIsValid()
    ensures ValidSteps(Shrinking()) && !HasHole(Shrinking())
  {
    assert ValidToken("assistant_message");
    forall i | 0 <= i < |Shrinking()| ensures Shrinking()[i].Map? && ValidOperation(Shrinking()[i].op) {
    }
  }

  /**
   The growth hypothesis cannot be dropped. A short message and four of a mebibyte overflow the
   bound, so the stream evicts the oldest; the last message is then replaced by a short text under
   the same source, and bounding the batch at the end would have kept all five.
   */
  lemma ShrinkingLosesHistory(preview: Previewer)
    ensures ValidSteps(Shrinking()) && !HasHole(Shrinking())
    ensures KeptFrom(Batch(preview, Shrinking())) == 0
    ensures |StreamAll(preview, false, Shrinking()).rows| < |Batch(preview, Shrinking())| == 5
  {
    var ops, shorter := Overflow(), Shortened();
    var steps := AsSteps(ops);
    ShrinkingIsValid();
    DistinctOperationsAppend(preview, ops);
    BatchIsDistinct(preview, steps);
    BatchReplaces(preview, steps, shorter, 4);
    OverflowThenFits(preview);
    LaterCutSurvives(preview, steps, Shrinking());
  }

  lemma LaterCutSurvives(preview: Previewer, front: seq<Step>, steps: seq<Step>)
    requires front <= steps && !HasHole(steps)
    requires KeptFrom(Batch(preview, front)) > 0 && KeptFrom(Batch(preview, steps)) == 0
    ensures |StreamAll(preview, false, steps).rows| < |Batch(preview, steps)|
  {
    assert front == steps[..|front|];
    StartReachesEveryCut(preview, steps, |front|);
    StreamingRefinesBatch(preview, false, steps);
  }

  /** A short message and four of the largest. */
  function Overflow(): (ops: seq<Operation>)
    ensures |ops| == 5 && forall i, j | 0 <= i < j < 5 :: ops[i].source != ops[j].source
  {
    var big := Letters(MAX_RETAINED_BYTES);
    [Prose("assistant-a", Letters(1)), Prose("assistant-b", big), Prose("assistant-c", big),
     Prose("assistant-d", big), Shortened().(text := big)]
  }

  lemma OverflowRow(preview: Previewer, i: nat)
    requires i < 5
    ensures var n := if i == 0 then 1 else MAX_RETAINED_BYTES;
            n <= RecordBytes(NewRows(preview, Overflow())[i]) <= n + 1000
  {
    var op := Overflow()[i];
    assert |op.source| == 11 && forall j | 0 <= j < 11 :: Plain(op.source[j]);
    ProseRowBytes(preview, None, op.source, if i == 0 then 1 else MAX_RETAINED_BYTES);
  }

  /** One small and four large overflow the bound; two small and three large do not. */
  lemma FiveRows<T>(w: T -> nat, rows: seq<T>, shorter: T)
    requires |rows| == 5 && w(rows[0]) <= 1001 && w(shorter) <= 1001
    requires w(rows[0]) >= 1
    requires forall i | 1 <= i < 5 :: MAX_RETAINED_BYTES <= w(rows[i]) <= MAX_RETAINED_BYTES + 1000
    ensures Cut(w, HISTORY_BOUND, rows) > 0 && Cut(w, HISTORY_BOUND, rows[4 := shorter]) == 0
  {
    assert rows == [rows[0], rows[1], rows[2], rows[3], rows[4]];
    TotalOfFive(w, rows[0], rows[1], rows[2], rows[3], rows[4]);
    TotalOfUpdate(w, rows, 4, shorter);
  }

  lemma OverflowThenFits(preview: Previewer)
    ensures var rows := NewRows(preview, Overflow());
            && KeptFrom(rows) > 0
            && KeptFrom(rows[4 := Updated(preview, Some(rows[4]), Shortened())]) == 0
  {
    var rows := NewRows(preview, Overflow());
    OverflowRow(preview, 0);
    forall i | 1 <= i < 5 ensures MAX_RETAINED_BYTES <= RecordBytes(rows[i]) <= MAX_RETAINED_BYTES + 1000 {
      OverflowRow(preview, i);
    }
    ShortenedBytes(preview, rows[4]);
    FiveRows(RecordBytes, rows, Updated(preview, Some(rows[4]), Shortened()));
  }
}

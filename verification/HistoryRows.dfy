/**
 What a mapped transcript row holds, read off the records that name its source: the frame of every row,
 the text of a prose row, and the card of a tool row over its calls and results.
 */
module HistoryRows {
  import opened Wrappers
  import opened Text
  import opened Protocol
  import opened Encoding
  import opened Sequences
  import opened HistoryEntries
  import opened HistoryMapper
  import opened HistoryRefinement

  /** The operations on one source, in order. */
  function OpsOn(steps: seq<Step>, source: string): seq<Operation> {
    if steps == [] then []
    else OpsOn(steps[..|steps| - 1], source) + OpOn(steps[|steps| - 1], source)
  }

  function OpOn(step: Step, source: string): seq<Operation> {
    if step.Map? && step.op.source == source then [step.op] else []
  }

  /** Those operations mapped one onto the other. */
  function Folded(preview: Previewer, ops: seq<Operation>): Record
    requires ops != []
  {
    var front, last := ops[..|ops| - 1], ops[|ops| - 1];
    Updated(preview, if front == [] then None else Some(Folded(preview, front)), last)
  }

  // ----- a row is the fold of its own operations

  /** The row of a source, if there is one, is `record`. */
  predicate RowIs(rows: seq<Record>, source: string, record: Option<Record>) {
    var i := IndexOfKey(SourceOf, rows, source);
    if i < |rows| then record == Some(rows[i]) else record == None
  }

  lemma OtherRowsStay(preview: Previewer, rows: seq<Record>, op: Operation, source: string, record: Option<Record>)
    requires op.source != source && RowIs(rows, source, record)
    ensures RowIs(Batched(preview, rows, Map(op)), source, record)
  {
    var i, j := IndexOfKey(SourceOf, rows, op.source), IndexOfKey(SourceOf, rows, source);
    var after := Batched(preview, rows, Map(op));
    if i < |rows| {
      assert forall k | 0 <= k < |rows| :: SourceOf(after[k]) == SourceOf(rows[k]);
    } else {
      IndexOfConcat(SourceOf, rows, [Updated(preview, None, op)], source);
    }
  }

  lemma OwnRowIsUpdated(preview: Previewer, rows: seq<Record>, op: Operation, record: Option<Record>)
    requires RowIs(rows, op.source, record)
    ensures RowIs(Batched(preview, rows, Map(op)), op.source, Some(Updated(preview, record, op)))
  {
    var i := IndexOfKey(SourceOf, rows, op.source);
    var after := Batched(preview, rows, Map(op));
    if i < |rows| {
      assert forall k | 0 <= k < |rows| :: SourceOf(after[k]) == SourceOf(rows[k]);
    } else {
      IndexOfConcat(SourceOf, rows, [Updated(preview, None, op)], op.source);
    }
  }

  function RowFrom(preview: Previewer, ops: seq<Operation>): Option<Record> {
    if ops == [] then None else Some(Folded(preview, ops))
  }

  lemma RowFromAppend(preview: Previewer, ops: seq<Operation>, op: Operation)
    ensures RowFrom(preview, ops + [op]) == Some(Updated(preview, RowFrom(preview, ops), op))
  {
    assert (ops + [op])[..|ops|] == ops;
  }

  /** The batch has a row for a source exactly when a step names it, and that row is the fold of those steps. */
  lemma {:induction false} RowFollowsItsSteps(preview: Previewer, steps: seq<Step>, source: string)
    ensures RowIs(Batch(preview, steps), source, RowFrom(preview, OpsOn(steps, source)))
  {
    if steps != [] {
      var front, last := steps[..|steps| - 1], steps[|steps| - 1];
      RowFollowsItsSteps(preview, front, source);
      var rows, ops := Batch(preview, front), OpsOn(front, source);
      if last.Map? && last.op.source == source {
        OwnRowIsUpdated(preview, rows, last.op, RowFrom(preview, ops));
        RowFromAppend(preview, ops, last.op);
      } else {
        assert OpsOn(steps, source) == ops;
        if last.Map? {
          OtherRowsStay(preview, rows, last.op, source, RowFrom(preview, ops));
        }
      }
    }
  }

  lemma RowAt(preview: Previewer, steps: seq<Step>, i: nat)
    requires i < |Batch(preview, steps)|
    ensures var r := Batch(preview, steps)[i];
            OpsOn(steps, r.sourceId) != [] && r == Folded(preview, OpsOn(steps, r.sourceId))
  {
    var rows := Batch(preview, steps);
    RowFollowsItsSteps(preview, steps, rows[i].sourceId);
    BatchIsDistinct(preview, steps);
    assert SourceOf(rows[i]) == rows[i].sourceId;
  }

  predicate Names(step: Step, source: string) {
    step.Map? && step.op.source == source
  }

  /** The first step that names a source, or the number of steps. */
  function FirstAt(steps: seq<Step>, source: string): (n: nat)
    ensures n <= |steps| && (n < |steps| ==> Names(steps[n], source))
    ensures forall i | 0 <= i < n :: !Names(steps[i], source)
  {
    if steps == [] then 0
    else
      var front := steps[..|steps| - 1];
      var n := FirstAt(front, source);
      if n < |front| || Names(steps[|front|], source) then n else |steps|
  }

  lemma {:induction false} NamedWhenMapped(steps: seq<Step>, source: string)
    ensures OpsOn(steps, source) != [] <==> FirstAt(steps, source) < |steps|
  {
    if steps != [] {
      NamedWhenMapped(steps[..|steps| - 1], source);
    }
  }

  lemma FirstUse(preview: Previewer, steps: seq<Step>, i: nat)
    requires i < |Batch(preview, steps)|
    ensures FirstAt(steps, Batch(preview, steps)[i].sourceId) < |steps|
  {
    RowAt(preview, steps, i);
    NamedWhenMapped(steps, Batch(preview, steps)[i].sourceId);
  }

  /** Rows stand in the order their sources were first named. */
  lemma {:induction false} RowsInOrder(preview: Previewer, steps: seq<Step>, i: nat, j: nat)
    requires i < j < |Batch(preview, steps)|
    ensures var rows := Batch(preview, steps);
            FirstAt(steps, rows[i].sourceId) < FirstAt(steps, rows[j].sourceId)
  {
    if steps != [] {
      var front, last := steps[..|steps| - 1], steps[|steps| - 1];
      var before, rows := Batch(preview, front), Batch(preview, steps);
      BatchIsDistinct(preview, front);
      BatchedKeepsRows(preview, before, last);
      FirstUse(preview, front, i);
      if j < |before| {
        RowsInOrder(preview, front, i, j);
        FirstUse(preview, front, j);
      } else {
        RowFollowsItsSteps(preview, front, rows[j].sourceId);
        NamedWhenMapped(front, rows[j].sourceId);
      }
    }
  }

  // ----- the frame of every row

  lemma {:induction false} FoldedFrame(preview: Previewer, ops: seq<Operation>)
    requires ops != []
    ensures var r, last := Folded(preview, ops), ops[|ops| - 1];
            && r.sourceId == last.source && r.timestamp == last.timestamp
            && r.kind == (if last.PutText? then last.kind else if last.PutTool? then "tool" else "unsupported")
            && r.state == "complete"
            && r.sourceRevision == if |ops| <= MAX_U64 then |ops| else MAX_U64
  {
    if |ops| > 1 {
      FoldedFrame(preview, ops[..|ops| - 1]);
    }
  }

  // ----- prose

  lemma BoundedProseIsLongest(text: string, limit: nat)
    ensures BoundedProse(text, limit).text.Some? && LongestPrefix(BoundedProse(text, limit).text.value, text, limit)
    ensures BoundedProse(text, limit).truncated <==> ByteLen(text) > limit
    ensures BoundedProse(text, limit).originalBytes == ByteLen(text)
  {
    LongestWithinIsLongest(text, limit);
  }

  /** What a cut says: its reason, and the size of what was cut, in 64 bits. */
  predicate SaysCut(t: Truncation, reason: string, whole: nat) {
    t == Truncation(true, Some(reason), if whole > 0 then Some(whole % 0x1_0000_0000_0000_0000) else None)
  }

  /** A row last written as prose holds the longest prefix of that prose within the retained bound. */
  lemma ProseRow(preview: Previewer, ops: seq<Operation>)
    requires ops != [] && ops[|ops| - 1].PutText?
    ensures var r, text := Folded(preview, ops), ops[|ops| - 1].text;
            && r.body.TextContent? && LongestPrefix(r.body.text, text, MAX_RETAINED_BYTES)
            && if ByteLen(text) > MAX_RETAINED_BYTES then SaysCut(r.truncation, "adapter_bound", ByteLen(text))
               else r.truncation == NO_TRUNCATION
  {
    BoundedProseIsLongest(ops[|ops| - 1].text, MAX_RETAINED_BYTES);
  }

  lemma UnsupportedRow(preview: Previewer, ops: seq<Operation>)
    requires ops != [] && ops[|ops| - 1].PutUnsupported?
    ensures Folded(preview, ops).body == UnsupportedContent(ops[|ops| - 1].reason)
    ensures Folded(preview, ops).truncation == NO_TRUNCATION
  {
  }

  // ----- tool cards

  /** The calls and results since anything else was written under the source. */
  function Calls(ops: seq<Operation>): seq<Operation> {
    if ops == [] || !ops[|ops| - 1].PutTool? then [] else Calls(ops[..|ops| - 1]) + [ops[|ops| - 1]]
  }

  lemma {:induction false} CallsByPosition(ops: seq<Operation>) returns (k: nat)
    ensures k <= |ops| && Calls(ops) == ops[k..]
    ensures forall i | k <= i < |ops| :: ops[i].PutTool?
    ensures k > 0 ==> !ops[k - 1].PutTool?
  {
    if ops == [] || !ops[|ops| - 1].PutTool? {
      k := |ops|;
    } else {
      k := CallsByPosition(ops[..|ops| - 1]);
      assert ops[k..] == ops[..|ops| - 1][k..] + [ops[|ops| - 1]];
    }
  }

  function GivenName(op: Operation): Option<string> {
    if op.PutTool? then op.name else None
  }

  function GivenInput(op: Operation): Option<Option<string>> {
    if op.PutTool? && op.input.Some? then Some(op.input) else None
  }

  function GivenResult(op: Operation): Option<Option<string>> {
    if op.PutTool? && op.result.Some? then Some(op.result) else None
  }

  /** A status that is not merely "running". */
  function GivenStatus(op: Operation): Option<string> {
    if op.PutTool? && op.status != "running" then Some(op.status) else None
  }

  /** The last status; but a finished call is not running again. */
  function StatusOf(calls: seq<Operation>): string
    requires calls != [] && calls[|calls| - 1].PutTool?
  {
    var last, told := calls[|calls| - 1].status, Last(GivenStatus, calls, "running");
    if last == "running" && FinishedStatus(told) then told else last
  }

  /** What is shown of a tool's input: whole when it fits, else capped as JSON or cut as prose. */
  ghost predicate ShowsInput(preview: Previewer, shown: Option<string>, given: Option<string>) {
    if given.None? then shown == None
    else if ByteLen(given.value) <= MAX_INPUT_PREVIEW_BYTES then shown == given
    else if preview(given.value).Document? then shown == preview(given.value).capped
    else shown.Some? && LongestPrefix(shown.value, given.value, MAX_INPUT_PREVIEW_BYTES)
  }

  /** What is shown of a tool's result: its longest prefix that fits. */
  ghost predicate ShowsResult(shown: Option<string>, given: Option<string>) {
    if given.None? then shown == None
    else shown.Some? && LongestPrefix(shown.value, given.value, MAX_RESULT_PREVIEW_BYTES)
  }

  /** The card a source's calls and results make. */
  ghost predicate CardOf(preview: Previewer, tool: ToolBody, calls: seq<Operation>)
    requires calls != [] && calls[|calls| - 1].PutTool?
  {
    && tool.name == Last(GivenName, calls, "tool")
    && tool.status == StatusOf(calls)
    && ShowsInput(preview, tool.inputPreview, Last(GivenInput, calls, None))
    && ShowsResult(tool.resultPreview, Last(GivenResult, calls, None))
  }

  /** The input and the result a call is mapped with, bounded: its own, or the preview already shown. */
  function InputPart(preview: Previewer, input: Option<string>): Bounded {
    if input.Some? then BoundedJson(preview, input.value, MAX_INPUT_PREVIEW_BYTES) else Bounded(None, false, 0)
  }

  function ResultPart(result: Option<string>): Bounded {
    if result.Some? then BoundedProse(result.value, MAX_RESULT_PREVIEW_BYTES) else Bounded(None, false, 0)
  }

  function Bytes(text: Option<string>): nat {
    if text.Some? then ByteLen(text.value) else 0
  }

  lemma InputShown(preview: Previewer, own: Option<string>, shown: Option<string>, given: Option<string>)
    requires Honest(preview) && ShowsInput(preview, shown, given)
    ensures ShowsInput(preview, InputPart(preview, OrElse(own, shown)).text, OrElse(own, given))
    ensures var part := InputPart(preview, OrElse(own, shown));
            && (part.truncated <==> Bytes(own) > MAX_INPUT_PREVIEW_BYTES)
            && part.originalBytes == (if own.Some? then Bytes(own) else Bytes(part.text))
  {
    if own.Some? {
      BoundedProseIsLongest(own.value, MAX_INPUT_PREVIEW_BYTES);
    }
  }

  lemma ResultShown(own: Option<string>, shown: Option<string>, given: Option<string>)
    requires ShowsResult(shown, given)
    ensures ShowsResult(ResultPart(OrElse(own, shown)).text, OrElse(own, given))
    ensures var part := ResultPart(OrElse(own, shown));
            && (part.truncated <==> Bytes(own) > MAX_RESULT_PREVIEW_BYTES)
            && part.originalBytes == (if own.Some? then Bytes(own) else Bytes(part.text))
  {
    if own.Some? {
      BoundedProseIsLongest(own.value, MAX_RESULT_PREVIEW_BYTES);
    }
  }

  /** The tool card held before a call, if the row is one, is the card its calls make. */
  ghost predicate Carries(preview: Previewer, held: Option<Record>, calls: seq<Operation>) {
    if calls == [] then held.None? || !held.value.body.ToolContent?
    else
      && calls[|calls| - 1].PutTool? && held.Some? && held.value.body.ToolContent?
      && CardOf(preview, held.value.body.tool, calls)
  }

  lemma StatusAppend(calls: seq<Operation>, op: Operation)
    requires op.PutTool? && (calls != [] ==> calls[|calls| - 1].PutTool?)
    ensures StatusOf(calls + [op]) ==
            if calls != [] && op.status == "running" && FinishedStatus(StatusOf(calls)) then StatusOf(calls)
            else op.status
  {
    LastAppend(GivenStatus, calls, op, "running");
    if calls != [] {
      assert calls == calls[..|calls| - 1] + [calls[|calls| - 1]];
      LastAppend(GivenStatus, calls[..|calls| - 1], calls[|calls| - 1], "running");
    }
  }

  function HeldCard(held: Option<Record>): Option<ToolBody> {
    if held.Some? && held.value.body.ToolContent? then Some(held.value.body.tool) else None
  }

  function HeldInput(held: Option<Record>): Option<string> {
    if HeldCard(held).Some? then HeldCard(held).value.inputPreview else None
  }

  function HeldResult(held: Option<Record>): Option<string> {
    if HeldCard(held).Some? then HeldCard(held).value.resultPreview else None
  }

  lemma CarriedInput(preview: Previewer, held: Option<Record>, calls: seq<Operation>, op: Operation)
    requires Honest(preview) && op.PutTool? && Carries(preview, held, calls)
    ensures var part := InputPart(preview, OrElse(op.input, HeldInput(held)));
            && ShowsInput(preview, part.text, Last(GivenInput, calls + [op], None))
            && (part.truncated <==> Bytes(op.input) > MAX_INPUT_PREVIEW_BYTES)
            && part.originalBytes == (if op.input.Some? then Bytes(op.input) else Bytes(part.text))
  {
    LastAppend(GivenInput, calls, op, None);
    InputShown(preview, op.input, HeldInput(held), Last(GivenInput, calls, None));
  }

  lemma CarriedResult(preview: Previewer, held: Option<Record>, calls: seq<Operation>, op: Operation)
    requires op.PutTool? && Carries(preview, held, calls)
    ensures var part := ResultPart(OrElse(op.result, HeldResult(held)));
            && ShowsResult(part.text, Last(GivenResult, calls + [op], None))
            && (part.truncated <==> Bytes(op.result) > MAX_RESULT_PREVIEW_BYTES)
            && part.originalBytes == (if op.result.Some? then Bytes(op.result) else Bytes(part.text))
  {
    LastAppend(GivenResult, calls, op, None);
    ResultShown(op.result, HeldResult(held), Last(GivenResult, calls, None));
  }

  /** The call's own input or result is over its bound. */
  predicate Cuts(op: Operation) {
    op.PutTool? && (Bytes(op.input) > MAX_INPUT_PREVIEW_BYTES || Bytes(op.result) > MAX_RESULT_PREVIEW_BYTES)
  }

  /** The size behind the previews: of what the call gave, or else of what was already shown. */
  function WholeBytes(op: Operation, tool: ToolBody): nat
    requires op.PutTool?
  {
    (if op.input.Some? then Bytes(op.input) else Bytes(tool.inputPreview))
    + if op.result.Some? then Bytes(op.result) else Bytes(tool.resultPreview)
  }

  function HeldName(held: Option<Record>): string {
    if HeldCard(held).Some? then HeldCard(held).value.name else "tool"
  }

  /** What a row's cut leaves to the next card that cuts nothing. */
  function HeldCut(held: Option<Record>): Truncation {
    if held.Some? && held.value.truncation.truncated then held.value.truncation else NO_TRUNCATION
  }

  lemma MergedParts(preview: Previewer, held: Option<Record>, op: Operation)
    requires op.PutTool?
    ensures var m := Merged(preview, held, op);
            var input, result :=
              InputPart(preview, OrElse(op.input, HeldInput(held))), ResultPart(OrElse(op.result, HeldResult(held)));
            && m.body.ToolContent?
            && m.body.tool.name == (if op.name.Some? then op.name.value else HeldName(held))
            && m.body.tool.inputPreview == input.text && m.body.tool.resultPreview == result.text
            && m.truncation ==
               if input.truncated || result.truncated then
                 NamedCut(true, "preview_bounded", input.originalBytes + result.originalBytes)
               else HeldCut(held)
  {
  }

  lemma MergedStatus(preview: Previewer, held: Option<Record>, op: Operation)
    requires op.PutTool?
    ensures Merged(preview, held, op).body.ToolContent?
    ensures var before := HeldCard(held);
            Merged(preview, held, op).body.tool.status ==
            if before.Some? && op.status == "running" && FinishedStatus(before.value.status) then before.value.status
            else op.status
  {
  }

  /** One more call: the card its calls make. */
  lemma CardStep(preview: Previewer, held: Option<Record>, calls: seq<Operation>, op: Operation)
    requires Honest(preview) && op.PutTool? && Carries(preview, held, calls)
    ensures Merged(preview, held, op).body.ToolContent?
    ensures CardOf(preview, Merged(preview, held, op).body.tool, calls + [op])
  {
    CarriedInput(preview, held, calls, op);
    CarriedResult(preview, held, calls, op);
    MergedParts(preview, held, op);
    MergedStatus(preview, held, op);
    StatusAppend(calls, op);
    LastAppend(GivenName, calls, op, "tool");
  }

  lemma CutSays(m: Truncation, tool: ToolBody, held: Truncation, op: Operation, input: Bounded, result: Bounded)
    requires op.PutTool? && tool.inputPreview == input.text && tool.resultPreview == result.text
    requires input.truncated <==> Bytes(op.input) > MAX_INPUT_PREVIEW_BYTES
    requires input.originalBytes == if op.input.Some? then Bytes(op.input) else Bytes(input.text)
    requires result.truncated <==> Bytes(op.result) > MAX_RESULT_PREVIEW_BYTES
    requires result.originalBytes == if op.result.Some? then Bytes(op.result) else Bytes(result.text)
    requires m ==
             if input.truncated || result.truncated then
               NamedCut(true, "preview_bounded", input.originalBytes + result.originalBytes)
             else held
    ensures if Cuts(op) then SaysCut(m, "preview_bounded", WholeBytes(op, tool)) else m == held
  {
  }

  /** And what the row then says was cut. */
  lemma CutStep(preview: Previewer, held: Option<Record>, calls: seq<Operation>, op: Operation)
    requires Honest(preview) && op.PutTool? && Carries(preview, held, calls)
    ensures var m := Merged(preview, held, op);
            && m.body.ToolContent?
            && if Cuts(op) then SaysCut(m.truncation, "preview_bounded", WholeBytes(op, m.body.tool))
               else m.truncation == HeldCut(held)
  {
    CarriedInput(preview, held, calls, op);
    CarriedResult(preview, held, calls, op);
    MergedParts(preview, held, op);
    var m := Merged(preview, held, op);
    CutSays(m.truncation, m.body.tool, HeldCut(held), op,
            InputPart(preview, OrElse(op.input, HeldInput(held))), ResultPart(OrElse(op.result, HeldResult(held))));
  }

  lemma OtherRowsAreNotCards(preview: Previewer, ops: seq<Operation>)
    requires ops != [] && !ops[|ops| - 1].PutTool?
    ensures !Folded(preview, ops).body.ToolContent?
  {
  }

  lemma {:induction false} RowCarries(preview: Previewer, ops: seq<Operation>)
    requires Honest(preview)
    ensures Carries(preview, RowFrom(preview, ops), Calls(ops))
  {
    if ops == [] {
    } else if ops[|ops| - 1].PutTool? {
      var front, last := ops[..|ops| - 1], ops[|ops| - 1];
      RowCarries(preview, front);
      CardStep(preview, RowFrom(preview, front), Calls(front), last);
    } else {
      OtherRowsAreNotCards(preview, ops);
    }
  }

  /**
   A row last written by a call or a result is the card its calls make: the last name given, the last status
   with a finished call never running again, and the bounded forms of the last input and result given.
   */
  lemma ToolRow(preview: Previewer, ops: seq<Operation>)
    requires Honest(preview) && ops != [] && ops[|ops| - 1].PutTool?
    ensures Folded(preview, ops).body.ToolContent? && CardOf(preview, Folded(preview, ops).body.tool, Calls(ops))
  {
    RowCarries(preview, ops);
  }

  /** What such a row says was cut: its own cut, or else what the row said before. */
  lemma ToolRowCut(preview: Previewer, ops: seq<Operation>)
    requires Honest(preview) && ops != [] && ops[|ops| - 1].PutTool?
    ensures var r := Folded(preview, ops);
            && r.body.ToolContent?
            && if Cuts(ops[|ops| - 1]) then
                 SaysCut(r.truncation, "preview_bounded", WholeBytes(ops[|ops| - 1], r.body.tool))
               else r.truncation == HeldCut(RowFrom(preview, ops[..|ops| - 1]))
  {
    var front := ops[..|ops| - 1];
    RowCarries(preview, front);
    CutStep(preview, RowFrom(preview, front), Calls(front), ops[|ops| - 1]);
  }

  /** By position: a cut is still named after any number of calls that cut nothing. */
  lemma {:induction false} CutIsRemembered(preview: Previewer, ops: seq<Operation>, k: nat)
    requires Honest(preview) && k < |ops| && Folded(preview, ops[..k + 1]).truncation.truncated
    requires forall i | k < i < |ops| :: ops[i].PutTool? && !Cuts(ops[i])
    ensures Folded(preview, ops).truncation == Folded(preview, ops[..k + 1]).truncation
  {
    if k == |ops| - 1 {
      assert ops[..k + 1] == ops;
    } else {
      var front := ops[..|ops| - 1];
      assert front[..k + 1] == ops[..k + 1];
      CutIsRemembered(preview, front, k);
      ToolRowCut(preview, ops);
    }
  }

  // ----- the finished history

  /** A running call is settled as unknown; everything else is left alone. */
  predicate SettledFrom(e: Record, r: Record) {
    if r.body.ToolContent? && r.body.tool.status == "running" then
      && e.body.ToolContent? && e.body.tool.status == "unknown"
      && e.(body := r.body) == r && e.body.tool.(status := "running") == r.body.tool
    else e == r
  }

  lemma SettledAt(rows: seq<Record>, k: nat, i: nat)
    requires k + i < |rows|
    ensures i < |SettleEach(rows[k..])| && SettledFrom(SettleEach(rows[k..])[i], rows[k + i])
    ensures SettleEach(rows[k..])[i].sourceId == rows[k + i].sourceId
  {
    assert SettleEach(rows[k..])[i] == Settled(rows[k..][i]);
  }

  /** Every entry of a finished history is the fold of the steps on its source, settled. */
  lemma FinishedEntry(preview: Previewer, truncated: bool, steps: seq<Step>, i: nat)
    requires Honest(preview) && ValidSteps(steps)
    requires i < |Finished(StreamAll(preview, truncated, steps)).entries|
    ensures var e := Finished(StreamAll(preview, truncated, steps)).entries[i];
            && OpsOn(steps, e.sourceId) != []
            && SettledFrom(e, Folded(preview, OpsOn(steps, e.sourceId)))
  {
    FinishedHistory(preview, truncated, steps);
    var rows, k := Batch(preview, steps), Start(preview, steps);
    assert |SettleEach(rows[k..])| == |rows| - k;
    SettledAt(rows, k, i);
    RowAt(preview, steps, k + i);
  }
}

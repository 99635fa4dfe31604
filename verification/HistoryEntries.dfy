/**
 What one mapped transcript record does to one timeline entry: prose kept up to the retained
 bound, tool calls merged with their results, cuts named.
 */
module HistoryEntries {
  import opened Wrappers
  import opened Text
  import opened Protocol
  import opened Encoding

  datatype Record = Record(
    sourceId: string, sourceRevision: U64, timestamp: U64, state: string, kind: string,
    body: Body, truncation: Truncation)

  function SourceOf(r: Record): string { r.sourceId }

  const MAX_SOURCE_BYTES: nat := 128

  predicate ValidSource(s: string) {
    1 <= |s| <= MAX_SOURCE_BYTES && forall i | 0 <= i < |s| :: Plain(s[i]) || s[i] == ':'
  }

  /** What the host accepts from an adapter. */
  predicate ValidRecord(r: Record) {
    && ValidSource(r.sourceId)
    && ValidToken(r.state) && ValidToken(r.kind)
    && r.body.ValidWithin(MAX_RETAINED_BYTES)
    && r.truncation.Valid() && r.truncation.reasonCode != Some(BODY_AVAILABLE)
    && r.sourceRevision != 0 && r.timestamp != 0
  }

  const RECORD_KEYS: nat := 85

  lemma RecordKeysAreCounted()
    ensures RECORD_KEYS ==
            |"{\"source_id\":,\"source_revision\":,\"timestamp\":,\"state\":,\"kind\":"|
            + |",\"body\":,\"truncation\":}"|
  {
  }

  /** An entry is measured by its JSON encoding. */
  function RecordBytes(r: Record): nat {
    RECORD_KEYS + StringSize(r.sourceId) + Digits(r.sourceRevision) + Digits(r.timestamp)
    + StringSize(r.state) + StringSize(r.kind) + BodySize(r.body) + TruncationSize(r.truncation)
  }

  // ----- bounded text

  datatype Bounded = Bounded(text: Option<string>, truncated: bool, originalBytes: nat)

  function BoundedProse(text: string, limit: nat): Bounded {
    if ByteLen(text) <= limit then Bounded(Some(text), false, ByteLen(text))
    else Bounded(Some(text[..LongestWithin(CharBytes, text, limit)]), true, ByteLen(text))
  }

  /** What parsing a tool argument says: not JSON, or a document and its capped preview. */
  datatype Parsed = NotJson | Document(capped: Option<string>)

  type Previewer = string -> Parsed

  /** A capped preview is within the input bound, or omitted. */
  ghost predicate Honest(preview: Previewer) {
    forall s: string :: preview(s).Document? && preview(s).capped.Some? ==>
      ByteLen(preview(s).capped.value) <= MAX_INPUT_PREVIEW_BYTES
  }

  function BoundedJson(preview: Previewer, serialized: string, limit: nat): Bounded {
    match preview(serialized)
    case NotJson => BoundedProse(serialized, limit)
    case Document(capped) =>
      if ByteLen(serialized) <= limit then Bounded(Some(serialized), false, ByteLen(serialized))
      else Bounded(capped, true, ByteLen(serialized))
  }

  function NamedCut(truncated: bool, reason: string, originalBytes: nat): Truncation {
    if !truncated then NO_TRUNCATION
    else
      Truncation(true, Some(reason),
                 if originalBytes > 0 then Some(originalBytes % 0x1_0000_0000_0000_0000) else None)
  }

  datatype MappedBody = MappedBody(body: Body, truncation: Truncation)

  function TextBody(text: string): MappedBody {
    var bounded := BoundedProse(text, MAX_RETAINED_BYTES);
    MappedBody(TextContent(bounded.text.value), NamedCut(bounded.truncated, "adapter_bound", bounded.originalBytes))
  }

  function UnsupportedBody(reason: string): MappedBody {
    MappedBody(UnsupportedContent(reason), NO_TRUNCATION)
  }

  function ToolBodyOf(
    preview: Previewer, name: string, status: string, input: Option<string>, result: Option<string>): MappedBody
  {
    var boundedInput :=
      if input.Some? then BoundedJson(preview, input.value, MAX_INPUT_PREVIEW_BYTES) else Bounded(None, false, 0);
    var boundedResult :=
      if result.Some? then BoundedProse(result.value, MAX_RESULT_PREVIEW_BYTES) else Bounded(None, false, 0);
    MappedBody(
      ToolContent(ToolBody(name, status, boundedInput.text, boundedResult.text)),
      NamedCut(boundedInput.truncated || boundedResult.truncated, "preview_bounded",
               boundedInput.originalBytes + boundedResult.originalBytes))
  }

  // ----- what a record asks for

  datatype Operation =
    | PutText(source: string, timestamp: U64, kind: string, text: string)
    | PutUnsupported(source: string, timestamp: U64, reason: string)
    | PutTool(source: string, timestamp: U64, name: Option<string>, status: string,
              input: Option<string>, result: Option<string>)

  function OrElse<T>(a: Option<T>, b: Option<T>): Option<T> {
    if a.Some? then a else b
  }

  predicate FinishedStatus(status: string) {
    status == "complete" || status == "failed"
  }

  /** The tool card after a call or a result, merged with the card already there. */
  function Merged(preview: Previewer, held: Option<Record>, op: Operation): MappedBody
    requires op.PutTool?
  {
    var previous := if held.Some? && held.value.body.ToolContent? then Some(held.value.body.tool) else None;
    var status :=
      if previous.Some? && op.status == "running" && FinishedStatus(previous.value.status) then previous.value.status
      else op.status;
    var name := OrElse(op.name, if previous.Some? then Some(previous.value.name) else None);
    var card := ToolBodyOf(
      preview, if name.Some? then name.value else "tool", status,
      OrElse(op.input, if previous.Some? then previous.value.inputPreview else None),
      OrElse(op.result, if previous.Some? then previous.value.resultPreview else None));
    if held.Some? && held.value.truncation.truncated && !card.truncation.truncated then
      card.(truncation := held.value.truncation)
    else card
  }

  function BodyOf(preview: Previewer, held: Option<Record>, op: Operation): MappedBody {
    match op
    case PutText(_, _, _, text) => TextBody(text)
    case PutUnsupported(_, _, reason) => UnsupportedBody(reason)
    case PutTool(_, _, _, _, _, _) => Merged(preview, held, op)
  }

  function KindOf(op: Operation): string {
    match op
    case PutText(_, _, kind, _) => kind
    case PutUnsupported(_, _, _) => "unsupported"
    case PutTool(_, _, _, _, _, _) => "tool"
  }

  function Succ(revision: U64): U64 {
    if revision < MAX_U64 then revision + 1 else MAX_U64
  }

  /** The entry an operation leaves under its source, given the one held there. */
  function Updated(preview: Previewer, held: Option<Record>, op: Operation): (r: Record)
    ensures r.sourceId == op.source
  {
    var mapped := BodyOf(preview, held, op);
    Record(op.source, if held.Some? then Succ(held.value.sourceRevision) else 1, op.timestamp,
           "complete", KindOf(op), mapped.body, mapped.truncation)
  }

  // ----- finished tools, named cuts, validity

  predicate FinishedTool(r: Record) {
    r.body.ToolContent? && FinishedStatus(r.body.tool.status)
  }

  /** A finished tool never returns to running, whatever call or result is mapped onto it. */
  lemma FinishedToolStaysFinished(preview: Previewer, held: Record, op: Operation)
    requires op.PutTool? && op.status in ["running", "complete", "failed"] && FinishedTool(held)
    ensures FinishedTool(Updated(preview, Some(held), op))
  {
  }

  /** A tool card that said it was cut keeps saying so. */
  lemma CutToolStaysCut(preview: Previewer, held: Record, op: Operation)
    requires op.PutTool? && held.truncation.truncated
    ensures Updated(preview, Some(held), op).truncation.truncated
  {
  }

  predicate ValidOperation(op: Operation) {
    && ValidSource(op.source) && op.timestamp != 0
    && match op
       case PutText(_, _, kind, _) => ValidToken(kind)
       case PutUnsupported(_, _, reason) => ValidToken(reason)
       case PutTool(_, _, name, status, _, _) => ValidOptionalToken(name) && ValidToken(status)
  }

  lemma ProseBound(text: string, limit: nat)
    ensures ByteLen(BoundedProse(text, limit).text.value) <= limit
  {
  }

  lemma KnownWords()
    ensures ValidToken("complete") && ValidToken("tool") && ValidToken("unsupported")
    ensures ValidToken("adapter_bound") && ValidToken("preview_bounded") && ValidToken("unknown")
    ensures "adapter_bound" != BODY_AVAILABLE && "preview_bounded" != BODY_AVAILABLE
  {
  }

  lemma ToolBodyIsValid(preview: Previewer, name: string, status: string, input: Option<string>, result: Option<string>)
    requires Honest(preview) && ValidToken(name) && ValidToken(status)
    ensures var m := ToolBodyOf(preview, name, status, input, result);
            && m.body.ValidWithin(MAX_RETAINED_BYTES)
            && m.truncation.Valid() && m.truncation.reasonCode != Some(BODY_AVAILABLE)
  {
    KnownWords();
    if input.Some? {
      ProseBound(input.value, MAX_INPUT_PREVIEW_BYTES);
    }
    if result.Some? {
      ProseBound(result.value, MAX_RESULT_PREVIEW_BYTES);
    }
  }

  lemma BodyIsValid(preview: Previewer, held: Option<Record>, op: Operation)
    requires Honest(preview) && ValidOperation(op)
    requires held.Some? ==> ValidRecord(held.value)
    ensures var m := BodyOf(preview, held, op);
            && m.body.ValidWithin(MAX_RETAINED_BYTES)
            && m.truncation.Valid() && m.truncation.reasonCode != Some(BODY_AVAILABLE)
  {
    KnownWords();
    match op {
      case PutText(_, _, _, text) =>
        ProseBound(text, MAX_RETAINED_BYTES);
      case PutUnsupported(_, _, _) =>
      case PutTool(_, _, opName, opStatus, input, result) =>
        var previous := if held.Some? && held.value.body.ToolContent? then Some(held.value.body.tool) else None;
        var status :=
          if previous.Some? && opStatus == "running" && FinishedStatus(previous.value.status) then previous.value.status
          else opStatus;
        var name := OrElse(opName, if previous.Some? then Some(previous.value.name) else None);
        ToolBodyIsValid(preview, if name.Some? then name.value else "tool", status,
                        OrElse(input, if previous.Some? then previous.value.inputPreview else None),
                        OrElse(result, if previous.Some? then previous.value.resultPreview else None));
    }
  }

  /** Mapping a valid operation onto a valid entry leaves a valid entry. */
  lemma UpdatedIsValid(preview: Previewer, held: Option<Record>, op: Operation)
    requires Honest(preview) && ValidOperation(op)
    requires held.Some? ==> ValidRecord(held.value)
    ensures ValidRecord(Updated(preview, held, op))
  {
    KnownWords();
    BodyIsValid(preview, held, op);
  }

  // ----- finishing

  /** A call persisted with no result is no longer demonstrably running. */
  function Settled(r: Record): Record {
    if r.body.ToolContent? && r.body.tool.status == "running" then
      r.(body := ToolContent(r.body.tool.(status := "unknown")))
    else r
  }

  lemma SettledIsValid(r: Record)
    requires ValidRecord(r)
    ensures ValidRecord(Settled(r))
    ensures !(Settled(r).body.ToolContent? && Settled(r).body.tool.status == "running")
  {
    KnownWords();
  }
}

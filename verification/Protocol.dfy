/**
 The Agent Session v1 values and their validators. Vocabulary that the wire spells as a token
 (`topology`, `presence`, `state`, ...) stays a string, because the protocol keeps unknown words.
 */
module Protocol {
  import opened Wrappers
  import opened Text

  type U64 = n: int | 0 <= n < 0x1_0000_0000_0000_0000

  const PROTOCOL_VERSION: nat := 1
  const MAX_FRAME_BYTES: nat := 64 * 1024
  const MAX_SESSIONS: nat := 64
  const MAX_WINDOW_ENTRIES: nat := 64
  const MAX_INTERACTIONS: nat := 16
  const MAX_QUESTIONS: nat := 8
  const MAX_OPTIONS: nat := 16
  const MAX_RECEIPTS: nat := 128
  const MAX_CHANGES: nat := 64
  const MAX_ID_BYTES: nat := 64
  const MAX_PROMPT_BYTES: nat := 32 * 1024
  const MAX_INTERACTION_TEXT_BYTES: nat := 32 * 1024
  const MAX_INPUT_PREVIEW_BYTES: nat := 16 * 1024
  const MAX_RESULT_PREVIEW_BYTES: nat := 32 * 1024
  const MAX_HEAD_BYTES: nat := 48 * 1024
  const MAX_RETAINED_BYTES: nat := 1024 * 1024
  const BODY_AVAILABLE: string := "body_available"

  // ----- token grammars

  predicate Alphanumeric(c: char) {
    '0' <= c <= '9' || 'A' <= c <= 'Z' || 'a' <= c <= 'z'
  }

  predicate Plain(c: char) {
    Alphanumeric(c) || c == '.' || c == '_' || c == '-'
  }

  /** The shared grammar of tokens and opaque identifiers. */
  predicate ValidToken(s: string) {
    1 <= |s| <= MAX_ID_BYTES && forall i | 0 <= i < |s| :: Plain(s[i])
  }

  predicate ValidOptionalToken(s: Option<string>) {
    s.Some? ==> ValidToken(s.value)
  }

  predicate ValidModelId(s: string) {
    1 <= |s| <= 64 && forall i | 0 <= i < |s| :: Plain(s[i]) || s[i] == '[' || s[i] == ']'
  }

  predicate ValidSessionName(s: string) {
    && 1 <= |s| <= 64 && Alphanumeric(s[0])
    && forall i | 0 <= i < |s| :: Alphanumeric(s[i]) || s[i] == '_' || s[i] == '-'
  }

  predicate ValidResumeCommand(s: string) {
    && 1 <= |s| <= 128 && s[0] != ' ' && s[|s| - 1] != ' '
    && forall i | 0 <= i < |s| :: Plain(s[i]) || s[i] == ' '
  }

  predicate ValidPermissionMode(s: string) {
    s in ["default", "acceptEdits", "bypassPermissions", "plan", "dontAsk", "auto"]
  }

  // ----- capabilities and routes

  datatype Observation = Observation(coverage: string, reasonCode: string, lastAuthoritativeAt: Option<U64>) {
    predicate Valid() {
      ValidToken(coverage) && ValidToken(reasonCode)
    }
  }

  datatype CommandCapabilities = CommandCapabilities(
    prompt: bool, steer: bool, followUp: bool, interrupt: bool,
    permissionMode: bool, model: bool, effort: bool)

  const NO_COMMANDS := CommandCapabilities(false, false, false, false, false, false, false)

  datatype InteractionCapability = InteractionCapability(
    enabled: bool, maxQuestions: nat, maxOptions: nat, allowsFreeText: bool) {
    predicate Valid() {
      && maxQuestions <= MAX_QUESTIONS
      && maxOptions <= MAX_OPTIONS
      && (!enabled ==> maxQuestions == 0 && maxOptions == 0 && !allowsFreeText)
    }
  }

  const DISABLED := InteractionCapability(false, 0, 0, false)

  datatype InteractionCapabilities = InteractionCapabilities(
    permission: InteractionCapability, question: InteractionCapability,
    planDecision: InteractionCapability, reviewDecision: InteractionCapability,
    elicitation: InteractionCapability, genericChoice: InteractionCapability) {
    predicate Valid() {
      && permission.Valid() && question.Valid() && planDecision.Valid()
      && reviewDecision.Valid() && elicitation.Valid() && genericChoice.Valid()
    }
  }

  const NO_INTERACTIONS :=
    InteractionCapabilities(DISABLED, DISABLED, DISABLED, DISABLED, DISABLED, DISABLED)

  datatype Capabilities = Capabilities(
    history: string, commands: CommandCapabilities, interactions: InteractionCapabilities,
    pendingRehydration: string, terminalContinuity: string) {
    predicate Valid() {
      && ValidToken(history) && ValidToken(pendingRehydration) && ValidToken(terminalContinuity)
      && interactions.Valid()
    }
  }

  datatype TerminalFallback = TerminalFallback(
    continuity: string, routeId: Option<string>, availabilityReason: Option<string>,
    handbackSession: Option<string>, resumeCommand: Option<string>) {
    predicate Valid() {
      && ValidToken(continuity)
      && ValidOptionalToken(routeId)
      && (handbackSession.Some? ==> ValidSessionName(handbackSession.value))
      && ValidOptionalToken(availabilityReason)
      && (resumeCommand.Some? ==> ValidResumeCommand(resumeCommand.value))
      && (match continuity
          case "exact_live" => routeId.Some? && handbackSession.None? && resumeCommand.None?
          case "workspace_only" => routeId.Some? && handbackSession.None? && resumeCommand.None?
          case "resumable_session" =>
            && !(routeId.Some? && handbackSession.Some?)
            && (routeId.Some? || handbackSession.Some? || resumeCommand.Some?)
          case _ => routeId.None? && handbackSession.None? && resumeCommand.None?)
    }
  }

  // ----- turns

  datatype TurnState =
    | Idle
    | Running(runId: string, activity: string)
    | AwaitingInteraction(awaitedRun: Option<string>)
    | Stopping(runId: string)
    | Completed(endedRun: Option<string>)
    | Interrupted(endedRun: Option<string>)
    | Failed(endedRun: Option<string>, category: string)
    | UnknownTurn(reasonCode: string)
    | UnsupportedTurn
  {
    predicate Valid() {
      match this
      case Idle => true
      case Running(runId, activity) => ValidToken(runId) && ValidToken(activity)
      case AwaitingInteraction(runId) => ValidOptionalToken(runId)
      case Stopping(runId) => ValidToken(runId)
      case Completed(runId) => ValidOptionalToken(runId)
      case Interrupted(runId) => ValidOptionalToken(runId)
      case Failed(runId, category) => ValidOptionalToken(runId) && ValidToken(category)
      case UnknownTurn(reasonCode) => ValidToken(reasonCode)
      case UnsupportedTurn => true
    }

    predicate MidTurn() {
      Running? || AwaitingInteraction? || Stopping?
    }
  }

  // ----- the timeline

  datatype ToolBody = ToolBody(
    name: string, status: string, inputPreview: Option<string>, resultPreview: Option<string>) {
    predicate Valid() {
      && ValidToken(name) && ValidToken(status)
      && (inputPreview.Some? ==> ByteLen(inputPreview.value) <= MAX_INPUT_PREVIEW_BYTES)
      && (resultPreview.Some? ==> ByteLen(resultPreview.value) <= MAX_RESULT_PREVIEW_BYTES)
    }
  }

  function OptionBytes(s: Option<string>): nat {
    if s.Some? then ByteLen(s.value) else 0
  }

  datatype Body =
    | TextContent(text: string)
    | ToolContent(tool: ToolBody)
    | UnsupportedContent(reasonCode: string)
    | UnknownContent
  {
    predicate ValidWithin(textBytes: nat) {
      match this
      case TextContent(text) => ByteLen(text) <= textBytes
      case ToolContent(tool) => tool.Valid()
      case UnsupportedContent(reasonCode) => ValidToken(reasonCode)
      case UnknownContent => true
    }

    function DecodedBytes(): nat {
      match this
      case TextContent(text) => ByteLen(text)
      case ToolContent(tool) =>
        ByteLen(tool.name) + ByteLen(tool.status) + OptionBytes(tool.inputPreview) + OptionBytes(tool.resultPreview)
      case UnsupportedContent(reasonCode) => ByteLen(reasonCode)
      case UnknownContent => 0
    }
  }

  datatype Truncation = Truncation(truncated: bool, reasonCode: Option<string>, originalBytes: Option<U64>) {
    predicate Valid() {
      ValidOptionalToken(reasonCode) && truncated == reasonCode.Some?
    }
  }

  const NO_TRUNCATION := Truncation(false, None, None)

  datatype Entry = Entry(
    entryId: string, entryRevision: U64, sequence: U64, timestamp: U64,
    state: string, kind: string, body: Body, truncation: Truncation) {
    predicate Valid() {
      && ValidToken(entryId)
      && entryRevision != 0 && sequence != 0 && timestamp != 0
      && ValidToken(state) && ValidToken(kind)
      && body.ValidWithin(MAX_HEAD_BYTES)
      && truncation.Valid()
      && KeepsBodyPromise()
    }

    /** `body_available` names a body longer than the head and no larger than the host retains. */
    predicate KeepsBodyPromise() {
      truncation.reasonCode == Some(BODY_AVAILABLE) ==>
        && body.TextContent?
        && truncation.originalBytes.Some?
        && ByteLen(body.text) < truncation.originalBytes.value <= MAX_RETAINED_BYTES
    }

    function DecodedBytes(): nat {
      ByteLen(entryId) + ByteLen(state) + ByteLen(kind) + body.DecodedBytes()
    }
  }

  /** Strictly ascending by sequence, the order every window keeps. */
  predicate Ascending(entries: seq<Entry>) {
    forall i, j | 0 <= i < j < |entries| :: entries[i].sequence < entries[j].sequence
  }

  function FirstSequence(entries: seq<Entry>): Option<U64> {
    if entries == [] then None else Some(entries[0].sequence)
  }

  function LastSequence(entries: seq<Entry>): Option<U64> {
    if entries == [] then None else Some(entries[|entries| - 1].sequence)
  }

  datatype Window = Window(
    entries: seq<Entry>, hasOlder: bool, historyBoundary: Option<string>,
    oldestSequence: Option<U64>, newestSequence: Option<U64>, truncated: bool) {
    predicate Valid() {
      && |entries| <= MAX_WINDOW_ENTRIES
      && ValidOptionalToken(historyBoundary)
      && (forall i | 0 <= i < |entries| :: entries[i].Valid())
      && Ascending(entries)
      && oldestSequence == FirstSequence(entries)
      && newestSequence == LastSequence(entries)
    }
  }

  // ----- interactions and receipts

  datatype ResponseChoice = ResponseChoice(
    choiceId: string, caption: string, description: Option<string>, scope: Option<string>) {
    predicate Valid() {
      && ValidToken(choiceId)
      && 1 <= ByteLen(caption) <= 1024
      && (description.Some? ==> 1 <= ByteLen(description.value) <= MAX_INTERACTION_TEXT_BYTES)
      && ValidOptionalToken(scope)
    }
  }

  datatype Question = Question(
    questionId: string, prompt: string, responseKind: string, required: bool,
    header: Option<string>, options: seq<ResponseChoice>, maxTextBytes: Option<nat>) {
    predicate Valid() {
      && ValidToken(questionId) && ValidToken(responseKind)
      && (header.Some? ==> 1 <= ByteLen(header.value) <= MAX_INTERACTION_TEXT_BYTES)
      && 1 <= ByteLen(prompt) <= MAX_INTERACTION_TEXT_BYTES
      && |options| <= MAX_OPTIONS
      && (maxTextBytes.Some? ==> 1 <= maxTextBytes.value <= MAX_PROMPT_BYTES)
      && forall i | 0 <= i < |options| :: options[i].Valid()
    }
  }

  datatype ResponseSchema =
    | Choices(minimum: nat, maximum: nat, choices: seq<ResponseChoice>)
    | Questions(questions: seq<Question>)
    | FreeText(maximumBytes: nat)
    | UnsupportedSchema
    | UnknownSchema
  {
    predicate Valid() {
      match this
      case Choices(minimum, maximum, choices) =>
        && 1 <= |choices| <= MAX_OPTIONS
        && minimum <= maximum <= |choices|
        && forall i | 0 <= i < |choices| :: choices[i].Valid()
      case Questions(questions) =>
        1 <= |questions| <= MAX_QUESTIONS && forall i | 0 <= i < |questions| :: questions[i].Valid()
      case FreeText(maximumBytes) => 1 <= maximumBytes <= MAX_PROMPT_BYTES
      case UnsupportedSchema => true
      case UnknownSchema => true
    }
  }

  datatype Interaction = Interaction(
    interactionId: string, interactionRevision: U64, kind: string, blocking: bool,
    createdAt: U64, expiresAt: Option<U64>, title: Option<string>, body: string,
    responseSchema: ResponseSchema, terminalFallback: TerminalFallback, state: string) {
    predicate Valid() {
      && ValidToken(interactionId) && ValidToken(kind) && ValidToken(state)
      && interactionRevision != 0 && createdAt != 0
      && (expiresAt.Some? ==> createdAt <= expiresAt.value)
      && (title.Some? ==> ByteLen(title.value) <= MAX_INTERACTION_TEXT_BYTES)
      && ByteLen(body) <= MAX_INTERACTION_TEXT_BYTES
      && responseSchema.Valid()
      && terminalFallback.Valid()
    }

    predicate UnresolvedBlocking() {
      blocking && (state == "pending" || state == "submitting")
    }
  }

  predicate AnyUnresolvedBlocking(interactions: seq<Interaction>) {
    exists i | 0 <= i < |interactions| :: interactions[i].UnresolvedBlocking()
  }

  datatype Receipt = Receipt(
    commandId: string, sessionId: string, processGeneration: U64, snapshotEpoch: U64,
    state: string, updatedAt: U64, reasonCode: Option<string>, applicationEvidence: Option<string>) {
    predicate Valid() {
      && ValidToken(commandId) && ValidToken(sessionId) && ValidToken(state)
      && processGeneration != 0 && snapshotEpoch != 0 && updatedAt != 0
      && ValidOptionalToken(reasonCode)
      && ValidOptionalToken(applicationEvidence)
      && (state == "applied" ==> applicationEvidence.Some?)
    }
  }

  // ----- snapshots

  datatype ModelOption = ModelOption(
    value: string, displayName: string, supportsEffort: bool, supportedEffortLevels: seq<string>) {
    predicate Valid() {
      && ValidModelId(value)
      && 1 <= ByteLen(displayName) <= 48
      && |supportedEffortLevels| <= 8
      && forall i | 0 <= i < |supportedEffortLevels| :: ValidToken(supportedEffortLevels[i])
    }
  }

  predicate ValidCatalogue(models: seq<ModelOption>) {
    |models| <= 16 && forall i | 0 <= i < |models| :: models[i].Valid()
  }

  datatype DriftNote = DriftNote(
    state: string, vendorVersion: string, tested: string, gaps: nat, fix: Option<string>) {
    predicate Valid() {
      && state in ["ahead", "carried", "unsupported"]
      && (state == "unsupported" ==> fix.Some?)
      && ValidToken(vendorVersion) && ValidToken(tested)
      && gaps <= 4096
      && ValidOptionalToken(fix)
    }
  }

  datatype AdapterMetadata = AdapterMetadata(family: string, version: string, compatibility: string) {
    predicate Valid() {
      ValidToken(family) && ValidToken(version) && ValidToken(compatibility)
    }
  }

  datatype Snapshot = Snapshot(
    v: nat, sessionId: string, snapshotEpoch: U64, revision: U64, processGeneration: U64,
    adapter: AdapterMetadata, topology: string, presence: string, storedReason: Option<string>,
    controlOwner: string, observation: Observation, turn: TurnState,
    permissionMode: Option<string>, model: Option<string>, effort: Option<string>,
    models: Option<seq<ModelOption>>, drift: Option<DriftNote>, capabilities: Capabilities,
    interactions: seq<Interaction>, window: Window, terminalFallback: TerminalFallback,
    receipts: seq<Receipt>) {

    predicate Valid() {
      && ValidMetadata()
      && ValidTables()
      && ValidConsistency()
      && ValidTopology()
    }

    /** The fields that are checked one by one. */
    predicate ValidMetadata() {
      && v == PROTOCOL_VERSION
      && ValidToken(sessionId)
      && snapshotEpoch != 0 && revision != 0 && processGeneration != 0
      && adapter.Valid()
      && ValidToken(topology) && ValidToken(presence) && ValidToken(controlOwner)
      && observation.Valid() && turn.Valid()
      && (permissionMode.Some? ==> ValidPermissionMode(permissionMode.value))
      && (model.Some? ==> ValidModelId(model.value))
      && ValidOptionalToken(effort)
      && (models.Some? ==> ValidCatalogue(models.value))
      && (drift.Some? ==> drift.value.Valid())
      && capabilities.Valid()
      && terminalFallback.Valid()
    }

    /** The bounded collections. */
    predicate ValidTables() {
      && |interactions| <= MAX_INTERACTIONS
      && |receipts| <= MAX_RECEIPTS
      && (forall i | 0 <= i < |interactions| :: interactions[i].Valid())
      && (forall i | 0 <= i < |receipts| :: receipts[i].Valid() && OwnsReceipt(receipts[i]))
      && window.Valid()
    }

    /** What the fields must say about one another. */
    predicate ValidConsistency() {
      && capabilities.terminalContinuity == terminalFallback.continuity
      && (AnyUnresolvedBlocking(interactions) ==> turn.AwaitingInteraction?)
      && (presence == "stored" ==> interactions == [])
    }

    predicate ValidTopology() {
      && (storedReason.Some? ==> ValidToken(storedReason.value) && presence == "stored")
      && (presence == "stored" ==>
            && topology == "managed" && !turn.MidTurn()
            && capabilities.commands == NO_COMMANDS && capabilities.interactions == NO_INTERACTIONS)
      && (topology == "managed" ==>
            || capabilities.terminalContinuity == "unavailable"
            || (presence == "stored" && storedReason == Some("released")
                && capabilities.terminalContinuity == "resumable_session"))
      && (topology == "adopted" ==>
            presence == "live" && capabilities.terminalContinuity == "resumable_session")
    }

    predicate OwnsReceipt(receipt: Receipt) {
      && receipt.sessionId == sessionId
      && receipt.snapshotEpoch == snapshotEpoch
      && receipt.processGeneration == processGeneration
    }
  }

  // ----- deltas

  datatype Change =
    | UpsertEntry(entry: Entry)
    | SetObservation(observation: Observation)
    | SetTurn(turn: TurnState)
    | SetCapabilities(capabilities: Capabilities)
    | SetPermissionMode(permissionMode: string)
    | SetModel(model: string)
    | SetEffort(effort: string)
    | SetCatalogue(models: seq<ModelOption>)
    | SetTerminalFallback(terminalFallback: TerminalFallback)
    | UpsertInteraction(interaction: Interaction)
    | RemoveInteraction(interactionId: string, resolution: string)
    | PutReceipt(receipt: Receipt)
    | UnknownChange
  {
    predicate Valid() {
      match this
      case UpsertEntry(entry) => entry.Valid()
      case SetObservation(observation) => observation.Valid()
      case SetTurn(turn) => turn.Valid()
      case SetCapabilities(capabilities) => capabilities.Valid()
      case SetPermissionMode(mode) => ValidPermissionMode(mode)
      case SetModel(model) => ValidModelId(model)
      case SetEffort(effort) => ValidToken(effort)
      case SetCatalogue(models) => ValidCatalogue(models)
      case SetTerminalFallback(fallback) => fallback.Valid()
      case UpsertInteraction(interaction) => interaction.Valid()
      case RemoveInteraction(id, resolution) => ValidToken(id) && ValidToken(resolution)
      case PutReceipt(receipt) => receipt.Valid()
      case UnknownChange => true
    }
  }

  datatype Delta = Delta(
    v: nat, sessionId: string, snapshotEpoch: U64, processGeneration: U64,
    baseRevision: U64, revision: U64, changes: seq<Change>) {
    predicate Valid() {
      && v == PROTOCOL_VERSION
      && ValidToken(sessionId)
      && snapshotEpoch != 0 && processGeneration != 0
      && 0 < baseRevision < revision
      && 1 <= |changes| <= MAX_CHANGES
      && forall i | 0 <= i < |changes| :: changes[i].Valid()
    }
  }
}

/**
 The encoded size of the frames that carry entries, key by key, as serde_json writes them: the
 number the frame bound is compared with. Keys and punctuation are counted once, below.
 */
module Encoding {
  import opened Wrappers
  import opened Text
  import opened Protocol

  // ----- the keys and punctuation around the values

  const REASON_KEY: nat := 15
  const ORIGINAL_KEY: nat := 18
  const INPUT_KEY: nat := 17
  const RESULT_KEY: nat := 18
  const TRUNCATION_KEYS: nat := 14
  const TEXT_KEYS: nat := 23
  const TOOL_KEYS: nat := 42
  const UNSUPPORTED_KEYS: nat := 37
  const UNKNOWN_KEYS: nat := 18
  const ENTRY_KEYS: nat := 95
  const DELTA_KEYS: nat := 174
  const CHUNK_KEYS: nat := 67

  /** Each count is the length of what it stands for. */
  lemma KeysAreCounted()
    ensures REASON_KEY == |",\"reason_code\":"|
    ensures ORIGINAL_KEY == |",\"original_bytes\":"|
    ensures INPUT_KEY == |",\"input_preview\":"|
    ensures RESULT_KEY == |",\"result_preview\":"|
    ensures TRUNCATION_KEYS == |"{\"truncated\":}"|
    ensures TEXT_KEYS == |"{\"type\":\"text\",\"text\":}"|
    ensures TOOL_KEYS == |"{\"type\":\"tool\",\"tool\":{\"name\":,\"status\":}}"|
    ensures UNSUPPORTED_KEYS == |"{\"type\":\"unsupported\",\"reason_code\":}"|
    ensures UNKNOWN_KEYS == |"{\"type\":\"unknown\"}"|
  {
  }

  lemma EntryKeysAreCounted()
    ensures ENTRY_KEYS == |"{\"entry_id\":,\"entry_revision\":,\"sequence\":,\"timestamp\":,\"state\":,\"kind\":,\"body\":,\"truncation\":}"|
  {
  }

  lemma FrameKeysAreCounted()
    ensures DELTA_KEYS ==
            |"{\"type\":\"session_delta\",\"v\":1,\"delta\":{\"v\":1,\"session_id\":"|
            + |",\"snapshot_epoch\":,\"process_generation\":"|
            + |",\"base_revision\":,\"revision\":"|
            + |",\"changes\":[{\"type\":\"upsert_entry\",\"entry\":}]}}"|
    ensures CHUNK_KEYS == |"{\"type\":\"timeline_entry_chunk\",\"v\":1,\"entry_id\":,\"offset\":,\"text\":}"|
  {
  }

  function Digits(n: nat): nat {
    if n < 10 then 1 else 1 + Digits(n / 10)
  }

  function StringSize(s: string): nat {
    2 + JsonLen(s)
  }

  function OptionalString(key: nat, s: Option<string>): nat {
    if s.Some? then key + StringSize(s.value) else 0
  }

  function TruncationSize(t: Truncation): nat {
    TRUNCATION_KEYS + (if t.truncated then 4 else 5)
    + OptionalString(REASON_KEY, t.reasonCode)
    + (if t.originalBytes.Some? then ORIGINAL_KEY + Digits(t.originalBytes.value) else 0)
  }

  function BodySize(b: Body): nat {
    match b
    case TextContent(text) => TEXT_KEYS + StringSize(text)
    case ToolContent(tool) =>
      TOOL_KEYS + StringSize(tool.name) + StringSize(tool.status)
      + OptionalString(INPUT_KEY, tool.inputPreview)
      + OptionalString(RESULT_KEY, tool.resultPreview)
    case UnsupportedContent(reasonCode) => UNSUPPORTED_KEYS + StringSize(reasonCode)
    case UnknownContent => UNKNOWN_KEYS
  }

  function EntrySize(e: Entry): nat {
    ENTRY_KEYS
    + StringSize(e.entryId) + Digits(e.entryRevision) + Digits(e.sequence) + Digits(e.timestamp)
    + StringSize(e.state) + StringSize(e.kind) + BodySize(e.body) + TruncationSize(e.truncation)
  }

  /** A live delta that upserts one entry. */
  function DeltaFrameSize(sessionId: string, epoch: U64, generation: U64, base: U64, revision: U64, e: Entry): nat {
    DELTA_KEYS
    + StringSize(sessionId) + Digits(epoch) + Digits(generation) + Digits(base) + Digits(revision) + EntrySize(e)
  }

  /** One chunk of a retained body. */
  function ChunkFrameSize(entryId: string, offset: nat, text: string): nat {
    CHUNK_KEYS
    + StringSize(entryId) + Digits(offset) + StringSize(text)
  }

  const MAX_U64: U64 := 0xFFFF_FFFF_FFFF_FFFF

  /** The largest single-entry envelope: a live delta whose every identifier and counter is maximal. */
  function AloneSize(e: Entry): nat {
    DeltaFrameSize(seq(MAX_ID_BYTES, _ => 's'), MAX_U64, MAX_U64, MAX_U64, MAX_U64, e)
  }

  // ----- bounds

  function Pow10(k: nat): nat {
    if k == 0 then 1 else 10 * Pow10(k - 1)
  }

  lemma {:induction false} DigitsBelow(n: nat, k: nat)
    requires k > 0 && n < Pow10(k)
    ensures 1 <= Digits(n) <= k
  {
    if n >= 10 {
      DigitsBelow(n / 10, k - 1);
    }
  }

  lemma DigitsOfU64(n: U64)
    ensures 1 <= Digits(n) <= 20
  {
    assert Pow10(5) == 100000;
    assert Pow10(10) == 10000000000;
    assert Pow10(15) == 1000000000000000;
    assert Pow10(20) == 100000000000000000000;
    DigitsBelow(n, 20);
  }

  /** A plain identifier is written unescaped, one byte a character. */
  lemma {:induction false} PlainLen(s: string)
    requires forall i | 0 <= i < |s| :: Plain(s[i])
    ensures JsonLen(s) == ByteLen(s) == |s|
  {
    if s != "" {
      PlainLen(s[..|s| - 1]);
    }
  }

  lemma SizeBound(s: string)
    ensures StringSize(s) <= 2 + 6 * ByteLen(s)
  {
    JsonLenBounds(s);
  }

  lemma TruncationBound(t: Truncation)
    requires t.Valid()
    ensures TruncationSize(t) <= 140
  {
    if t.reasonCode.Some? {
      PlainLen(t.reasonCode.value);
    }
    if t.originalBytes.Some? {
      DigitsOfU64(t.originalBytes.value);
    }
  }

  lemma BodyBound(b: Body)
    ensures BodySize(b) <= 100 + 6 * b.DecodedBytes()
  {
    match b {
      case TextContent(text) => SizeBound(text);
      case ToolContent(tool) =>
        SizeBound(tool.name);
        SizeBound(tool.status);
        if tool.inputPreview.Some? { SizeBound(tool.inputPreview.value); }
        if tool.resultPreview.Some? { SizeBound(tool.resultPreview.value); }
      case UnsupportedContent(reasonCode) => SizeBound(reasonCode);
      case UnknownContent =>
    }
  }

  lemma EntryBound(e: Entry)
    requires e.truncation.Valid()
    ensures EntrySize(e) <= 450 + 6 * e.DecodedBytes()
  {
    DigitsOfU64(e.entryRevision);
    DigitsOfU64(e.sequence);
    DigitsOfU64(e.timestamp);
    SizeBound(e.entryId);
    SizeBound(e.state);
    SizeBound(e.kind);
    BodyBound(e.body);
    TruncationBound(e.truncation);
  }

  /** The slack the unmeasured path allows covers every envelope. */
  lemma AloneBound(e: Entry)
    requires e.truncation.Valid()
    ensures AloneSize(e) <= 4096 + 6 * e.DecodedBytes()
  {
    var id := seq(MAX_ID_BYTES, _ => 's');
    PlainLen(id);
    DigitsOfU64(MAX_U64);
    EntryBound(e);
  }
}

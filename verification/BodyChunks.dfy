/**
 Serving a retained body: the frames that answer `agent.timeline.entry`, and the phone's
 reassembly of them. Offsets are UTF-8 byte offsets; chunks are whole characters.
 */
module BodyChunks {
  import opened Wrappers
  import opened Numbers
  import opened Text
  import opened Protocol
  import opened Encoding
  import opened Fitting

  const MAX_CHUNK_BYTES: nat := 32 * 1024
  const MAX_U32: nat := 0xFFFF_FFFF

  datatype Frame =
    | EntryStart(v: nat, sessionId: string, snapshotEpoch: U64, processGeneration: U64,
                 entryId: string, entryRevision: U64, totalBytes: nat, truncation: Truncation)
    | EntryChunk(v: nat, entryId: string, offset: nat, text: string)
    | EntryEnd(v: nat, entryId: string)
    | OtherFrame

  function Saturated(n: nat): nat {
    if n <= MAX_U32 then n else MAX_U32
  }

  function ChunkEnvelope(entryId: string, offset: nat): nat {
    ChunkFrameSize(entryId, Saturated(offset), "")
  }

  /** The characters that fit both bounds, of which at least one is always sent. */
  function ChunkChars(rest: string, envelope: nat): (n: nat)
    requires rest != ""
    ensures 1 <= n <= |rest|
  {
    Max(1, Min(LongestWithin(CharBytes, rest, MAX_CHUNK_BYTES),
               LongestWithin(EscapedBytes, rest, SaturatingSub(MAX_FRAME_BYTES, envelope))))
  }

  /** A way of cutting a body: how many characters the chunk starting at each position takes. */
  type Cutting = nat -> nat

  ghost predicate CutsUp(cut: Cutting, body: string) {
    forall i | 0 <= i < |body| :: 1 <= cut(i) <= |body| - i
  }

  /** The host's cutting of a body under an identifier. */
  function HostCut(entryId: string, body: string): Cutting {
    (i: nat) => if i < |body| then ChunkChars(body[i..], ChunkEnvelope(entryId, ByteLen(body[..i]))) else 0
  }

  function Slice(entryId: string, body: string, i: nat, j: nat): Frame
    requires i <= j <= |body|
  {
    EntryChunk(PROTOCOL_VERSION, entryId, Saturated(ByteLen(body[..i])), body[i..j])
  }

  function ChunksFrom(entryId: string, body: string, cut: Cutting, i: nat): seq<Frame>
    requires CutsUp(cut, body) && i <= |body|
    decreases |body| - i
  {
    if i == |body| then [] else [Slice(entryId, body, i, i + cut(i))] + ChunksFrom(entryId, body, cut, i + cut(i))
  }

  datatype Answer = Answer(
    sessionId: string, snapshotEpoch: U64, processGeneration: U64,
    entryId: string, entryRevision: U64, truncation: Truncation)

  function StartOf(a: Answer, body: string): Frame {
    EntryStart(PROTOCOL_VERSION, a.sessionId, a.snapshotEpoch, a.processGeneration,
               a.entryId, a.entryRevision, Saturated(ByteLen(body)), a.truncation)
  }

  function Frames(a: Answer, body: string, cut: Cutting): seq<Frame>
    requires CutsUp(cut, body)
  {
    [StartOf(a, body)] + ChunksFrom(a.entryId, body, cut, 0) + [EntryEnd(PROTOCOL_VERSION, a.entryId)]
  }

  /** A chunk is cut for decoded bytes first, then re-measured until its frame fits. */
  method CutChunk(entryId: string, offset: nat, rest: string) returns (n: nat)
    requires rest != ""
    ensures n == ChunkChars(rest, ChunkEnvelope(entryId, offset))
  {
    ghost var envelope := ChunkEnvelope(entryId, offset);
    ghost var spare := SaturatingSub(MAX_FRAME_BYTES, envelope);
    ghost var fits := LongestWithin(EscapedBytes, rest, spare);
    assert JsonLen("") == 0;
    n := FloorCharBoundary(rest, MAX_CHUNK_BYTES);
    if n < 1 {
      n := 1;
    }
    while true
      invariant 1 <= n <= |rest|
      invariant Max(1, Min(n, fits)) == ChunkChars(rest, envelope)
      decreases n
    {
      var chunk := rest[..n];
      var size := ChunkFrameSize(entryId, Saturated(offset), chunk);
      assert size == envelope + JsonLen(chunk);
      FitsIffShorter(EscapedBytes, rest, spare, n);
      if size <= MAX_FRAME_BYTES || n == 1 {
        return;
      }
      var bytes := JsonPrefixWithin(chunk, SaturatingSub(MAX_FRAME_BYTES, SaturatingSub(size, JsonLen(chunk))));
      LongestOfPrefix(EscapedBytes, rest, n, spare);
      FloorOfBoundary(chunk, LongestWithin(EscapedBytes, chunk, spare));
      n := FloorCharBoundary(chunk, bytes);
      if n < 1 {
        n := 1;
      }
    }
  }

  lemma TakeOneChunk(entryId: string, body: string, cut: Cutting, i: nat, chunks: seq<Frame>)
    requires CutsUp(cut, body) && i < |body|
    ensures chunks + ChunksFrom(entryId, body, cut, i) ==
            (chunks + [Slice(entryId, body, i, i + cut(i))]) + ChunksFrom(entryId, body, cut, i + cut(i))
  {
  }

  predicate CutsLikeHost(cut: Cutting, entryId: string, body: string, i: nat)
    requires i < |body|
  {
    cut(i) == ChunkChars(body[i..], ChunkEnvelope(entryId, ByteLen(body[..i])))
  }

  lemma SliceBytes(body: string, i: nat, j: nat)
    requires i <= j <= |body|
    ensures ByteLen(body[..i]) + ByteLen(body[i..j]) == ByteLen(body[..j])
  {
    WeightSplit(CharBytes, body, i, j);
  }

  method NextChunk(entryId: string, body: string, i: nat, offset: nat, ghost cut: Cutting)
    returns (n: nat, chunk: Frame)
    requires CutsUp(cut, body) && i < |body|
    requires forall k | 0 <= k < |body| :: CutsLikeHost(cut, entryId, body, k)
    requires offset == ByteLen(body[..i])
    ensures n == cut(i) && i + n <= |body| && chunk == Slice(entryId, body, i, i + n)
    ensures offset + ByteLen(body[i..i + n]) == ByteLen(body[..i + n])
  {
    n := CutChunk(entryId, offset, body[i..]);
    assert CutsLikeHost(cut, entryId, body, i);
    SliceBytes(body, i, i + n);
    chunk := EntryChunk(PROTOCOL_VERSION, entryId, Saturated(offset), body[i..i + n]);
  }

  method CutBody(entryId: string, body: string, ghost cut: Cutting) returns (chunks: seq<Frame>)
    requires CutsUp(cut, body)
    requires forall i | 0 <= i < |body| :: CutsLikeHost(cut, entryId, body, i)
    ensures chunks == ChunksFrom(entryId, body, cut, 0)
  {
    chunks := [];
    var i, offset := 0, 0;
    assert body[..0] == "";
    while i < |body|
      invariant i <= |body| && offset == ByteLen(body[..i])
      invariant chunks + ChunksFrom(entryId, body, cut, i) == ChunksFrom(entryId, body, cut, 0)
    {
      TakeOneChunk(entryId, body, cut, i, chunks);
      var n, chunk := NextChunk(entryId, body, i, offset, cut);
      chunks := chunks + [chunk];
      offset := offset + ByteLen(body[i..i + n]);
      i := i + n;
    }
  }

  method EntryBodyFrames(a: Answer, body: string) returns (frames: seq<Frame>)
    ensures CutsUp(HostCut(a.entryId, body), body)
    ensures frames == Frames(a, body, HostCut(a.entryId, body))
  {
    var chunks := CutBody(a.entryId, body, HostCut(a.entryId, body));
    frames := [StartOf(a, body)] + chunks + [EntryEnd(PROTOCOL_VERSION, a.entryId)];
  }

  // ----- every chunk

  lemma InFront(x: Frame, ys: seq<Frame>, f: Frame)
    requires f in [x] + ys
    ensures f == x || f in ys
  {
  }

  /** Every chunk is a slice of the body under its own byte offset. */
  lemma {:induction false} ChunkIsASlice(entryId: string, body: string, cut: Cutting, from: nat, f: Frame)
    returns (i: nat)
    requires CutsUp(cut, body) && from <= |body| && f in ChunksFrom(entryId, body, cut, from)
    ensures i < |body| && f == Slice(entryId, body, i, i + cut(i))
    decreases |body| - from
  {
    var next := from + cut(from);
    InFront(Slice(entryId, body, from, next), ChunksFrom(entryId, body, cut, next), f);
    if f == Slice(entryId, body, from, next) {
      return from;
    }
    i := ChunkIsASlice(entryId, body, cut, next, f);
  }

  lemma ChunkEnvelopeIsSmall(entryId: string, offset: nat)
    requires ValidToken(entryId)
    ensures ChunkEnvelope(entryId, offset) <= 300
  {
    PlainLen(entryId);
    DigitsOfU64(Saturated(offset));
    assert JsonLen("") == 0;
  }

  /** What `ChunkChars` picks, in terms of what fits. */
  lemma ChunkCharsFit(rest: string, envelope: nat)
    requires rest != "" && envelope <= 300
    ensures var n := ChunkChars(rest, envelope);
            && ByteLen(rest[..n]) <= MAX_CHUNK_BYTES && envelope + JsonLen(rest[..n]) <= MAX_FRAME_BYTES
            && (n < |rest| ==>
                  ByteLen(rest[..n + 1]) > MAX_CHUNK_BYTES || envelope + JsonLen(rest[..n + 1]) > MAX_FRAME_BYTES)
  {
    var n := ChunkChars(rest, envelope);
    JsonLenBounds(rest[..1]);
    FitsIffShorter(CharBytes, rest, MAX_CHUNK_BYTES, 1);
    FitsIffShorter(EscapedBytes, rest, MAX_FRAME_BYTES - envelope, 1);
    FitsIffShorter(CharBytes, rest, MAX_CHUNK_BYTES, n);
    FitsIffShorter(EscapedBytes, rest, MAX_FRAME_BYTES - envelope, n);
    if n < |rest| {
      FitsIffShorter(CharBytes, rest, MAX_CHUNK_BYTES, n + 1);
      FitsIffShorter(EscapedBytes, rest, MAX_FRAME_BYTES - envelope, n + 1);
    }
  }

  lemma ChunkSize(entryId: string, offset: nat, text: string)
    ensures ChunkFrameSize(entryId, Saturated(offset), text) == ChunkEnvelope(entryId, offset) + JsonLen(text)
  {
    assert JsonLen("") == 0;
  }

  /** The slice `ChunkChars` picks at a position, in terms of the body. */
  lemma SliceFits(body: string, i: nat, n: nat, envelope: nat)
    requires i < |body| && envelope <= 300 && n == ChunkChars(body[i..], envelope)
    ensures ByteLen(body[i..i + n]) <= MAX_CHUNK_BYTES && envelope + JsonLen(body[i..i + n]) <= MAX_FRAME_BYTES
    ensures n < |body| - i ==>
              || ByteLen(body[i..i + n + 1]) > MAX_CHUNK_BYTES
              || envelope + JsonLen(body[i..i + n + 1]) > MAX_FRAME_BYTES
  {
    var rest := body[i..];
    ChunkCharsFit(rest, envelope);
    assert rest[..n] == body[i..i + n];
    if n < |rest| {
      assert rest[..n + 1] == body[i..i + n + 1];
    }
  }

  /**
   Every chunk the host cuts is non-empty, at most 32 KiB decoded and, under a valid identifier, at
   most 64 KiB encoded; and it could not have carried one more character.
   */
  lemma ChunksFitAndAreMaximal(entryId: string, body: string, i: nat)
    requires ValidToken(entryId) && i < |body|
    ensures var n := HostCut(entryId, body)(i);
            var offset := Saturated(ByteLen(body[..i]));
            && 1 <= n <= |body| - i
            && ByteLen(body[i..i + n]) <= MAX_CHUNK_BYTES
            && ChunkFrameSize(entryId, offset, body[i..i + n]) <= MAX_FRAME_BYTES
            && (n < |body| - i ==>
                  || ByteLen(body[i..i + n + 1]) > MAX_CHUNK_BYTES
                  || ChunkFrameSize(entryId, offset, body[i..i + n + 1]) > MAX_FRAME_BYTES)
  {
    var n, offset := HostCut(entryId, body)(i), ByteLen(body[..i]);
    ChunkEnvelopeIsSmall(entryId, offset);
    SliceFits(body, i, n, ChunkEnvelope(entryId, offset));
    ChunkSize(entryId, offset, body[i..i + n]);
    if n < |body| - i {
      ChunkSize(entryId, offset, body[i..i + n + 1]);
    }
  }

  // ----- reassembly

  datatype Request = Request(
    sessionId: string, snapshotEpoch: U64, processGeneration: U64, entryId: string, heldRevision: U64)

  datatype Fault = Order | Identity | StaleBody | OverBound | Gap | EmptyChunk | ChunkTooLarge | TotalMismatch

  datatype Assembly = Assembly(total: Option<nat>, body: string, done: bool)

  const FRESH := Assembly(None, "", false)

  datatype Accepted = Accepted(after: Assembly, result: Result<Option<string>, Fault>)

  function Accept(st: Assembly, request: Request, frame: Frame): Accepted {
    if st.done then Accepted(st, Err(Order))
    else match frame
      case EntryStart(v, sessionId, epoch, generation, entryId, revision, total, truncation) =>
        if st.total.Some? || v != PROTOCOL_VERSION then Accepted(st, Err(Order))
        else if sessionId != request.sessionId || epoch != request.snapshotEpoch
                || generation != request.processGeneration || entryId != request.entryId then
          Accepted(st, Err(Identity))
        else if revision < request.heldRevision then Accepted(st, Err(StaleBody))
        else if total > MAX_RETAINED_BYTES then Accepted(st, Err(OverBound))
        else if !truncation.Valid() || truncation.reasonCode == Some(BODY_AVAILABLE) then Accepted(st, Err(Identity))
        else Accepted(st.(total := Some(total)), Ok(None))
      case EntryChunk(_, entryId, offset, text) =>
        if st.total.None? then Accepted(st, Err(Order))
        else if entryId != request.entryId then Accepted(st, Err(Identity))
        else if offset != ByteLen(st.body) then Accepted(st, Err(Gap))
        else if text == "" then Accepted(st, Err(EmptyChunk))
        else if ByteLen(text) > MAX_CHUNK_BYTES then Accepted(st, Err(ChunkTooLarge))
        else if ByteLen(st.body) + ByteLen(text) > st.total.value then Accepted(st, Err(TotalMismatch))
        else Accepted(st.(body := st.body + text), Ok(None))
      case EntryEnd(_, entryId) =>
        if st.total.None? then Accepted(st, Err(Order))
        else if entryId != request.entryId then Accepted(st, Err(Identity))
        else if ByteLen(st.body) != st.total.value then Accepted(st, Err(TotalMismatch))
        else Accepted(st.(done := true, body := ""), Ok(Some(st.body)))
      case OtherFrame => Accepted(st, Err(Order))
  }

  /** The phone's assembly, updated in place frame by frame. */
  class EntryBodyAssembly {
    var total: Option<nat>
    var body: string
    var done: bool

    function View(): Assembly
      reads this
    {
      Assembly(total, body, done)
    }

    constructor ()
      ensures View() == FRESH
    {
      total, body, done := None, "", false;
    }

    method Receive(request: Request, frame: Frame) returns (result: Result<Option<string>, Fault>)
      modifies this
      ensures Accepted(View(), result) == Accept(old(View()), request, frame)
    {
      if done {
        return Err(Order);
      }
      match frame {
        case EntryStart(v, sessionId, epoch, generation, entryId, revision, bytes, truncation) =>
          if total.Some? || v != PROTOCOL_VERSION {
            return Err(Order);
          }
          if sessionId != request.sessionId || epoch != request.snapshotEpoch
             || generation != request.processGeneration || entryId != request.entryId {
            return Err(Identity);
          }
          if revision < request.heldRevision {
            return Err(StaleBody);
          }
          if bytes > MAX_RETAINED_BYTES {
            return Err(OverBound);
          }
          if !truncation.Valid() || truncation.reasonCode == Some(BODY_AVAILABLE) {
            return Err(Identity);
          }
          total := Some(bytes);
          return Ok(None);
        case EntryChunk(_, entryId, offset, text) =>
          if total.None? {
            return Err(Order);
          }
          if entryId != request.entryId {
            return Err(Identity);
          }
          if offset != ByteLen(body) {
            return Err(Gap);
          }
          if text == "" {
            return Err(EmptyChunk);
          }
          if ByteLen(text) > MAX_CHUNK_BYTES {
            return Err(ChunkTooLarge);
          }
          if ByteLen(body) + ByteLen(text) > total.value {
            return Err(TotalMismatch);
          }
          body := body + text;
          return Ok(None);
        case EntryEnd(_, entryId) =>
          if total.None? {
            return Err(Order);
          }
          if entryId != request.entryId {
            return Err(Identity);
          }
          if ByteLen(body) != total.value {
            return Err(TotalMismatch);
          }
          done := true;
          result := Ok(Some(body));
          body := "";
        case OtherFrame => return Err(Order);
      }
    }
  }

  function Assembled(st: Assembly, request: Request, frames: seq<Frame>): Assembly {
    if frames == [] then st
    else Accept(Assembled(st, request, frames[..|frames| - 1]), request, frames[|frames| - 1]).after
  }

  // ----- hostile delivery

  /** What a delivery may hold: this answer's frames in any order, and frames about other entries. */
  ghost predicate MayArrive(a: Answer, body: string, cut: Cutting, f: Frame)
    requires CutsUp(cut, body)
  {
    f in Frames(a, body, cut) || f.OtherFrame? || f.entryId != a.entryId
  }

  /**
   Frames of a second answer for the same entry are not among them, because a chunk names its entry and
   not its revision: started by one answer and filled by another, the assembly returns the other's text.
   */
  lemma MixedAnswersMislead(a: Answer, b: Answer, request: Request)
    requires Answers(a, request) && Answers(b, request)
    ensures var delivery := [StartOf(b, "y"), Slice(a.entryId, "x", 0, 1)];
            var end := EntryEnd(PROTOCOL_VERSION, b.entryId);
            Accept(Assembled(FRESH, request, delivery), request, end).result == Ok(Some("x"))
  {
    var delivery := [StartOf(b, "y"), Slice(a.entryId, "x", 0, 1)];
    assert delivery[..1] == [delivery[0]] && delivery[..1][..0] == [];
    OneLetter("x", 'x');
    OneLetter("y", 'y');
    assert "x"[0..1] == "x" && "x"[..0] == "";
    var started := Accept(FRESH, request, delivery[0]).after;
    assert Assembled(FRESH, request, delivery[..1]) == started == Assembly(Some(1), "", false);
    assert Assembled(FRESH, request, delivery) == Assembly(Some(1), "x", false);
  }

  lemma OneLetter(s: string, c: char)
    requires s == [c] && c as int < 0x80
    ensures ByteLen(s) == 1 && ByteLen("") == 0
  {
    assert s[..|s| - 1] == "";
    assert Weight(CharBytes, s) == Weight(CharBytes, "") + CharBytes(c);
  }

  /** What the assembly holds at any moment: nothing, or a prefix of the body it was promised. */
  predicate OnTrack(st: Assembly, body: string) {
    || st.done
    || (st.total.None? && st.body == "")
    || (st.total == Some(ByteLen(body)) && ByteLen(body) <= MAX_RETAINED_BYTES && st.body <= body)
  }

  lemma WholeBody(body: string, held: string)
    requires held <= body && ByteLen(held) == ByteLen(body)
    ensures held == body
  {
    assert body[..|held|] == held && body[..|body|] == body;
    ByteOffsetInjective(body, |held|, |body|);
  }

  lemma SliceExtends(body: string, held: string, i: nat, j: nat)
    requires held <= body && i <= j <= |body| && ByteLen(held) == ByteLen(body[..i])
    ensures held + body[i..j] == body[..j]
  {
    assert held == body[..|held|];
    ByteOffsetInjective(body, i, |held|);
  }

  lemma ChunkExtends(entryId: string, body: string, cut: Cutting, held: string, f: Frame)
    requires CutsUp(cut, body) && held <= body && ByteLen(body) <= MAX_RETAINED_BYTES
    requires f in ChunksFrom(entryId, body, cut, 0) && f.EntryChunk? && f.offset == ByteLen(held)
    ensures held + f.text <= body
  {
    var i := ChunkIsASlice(entryId, body, cut, 0, f);
    assert body[..|body|] == body;
    WeightMonotone(CharBytes, body, i, |body|);
    SliceExtends(body, held, i, i + cut(i));
  }

  lemma OneChunk(a: Answer, body: string, cut: Cutting, request: Request, st: Assembly, f: Frame)
    requires CutsUp(cut, body) && f in ChunksFrom(a.entryId, body, cut, 0) && f.EntryChunk? && OnTrack(st, body)
    ensures OnTrack(Accept(st, request, f).after, body)
  {
    if st.total.Some? && !st.done && f.offset == ByteLen(st.body) {
      ChunkExtends(a.entryId, body, cut, st.body, f);
    }
  }

  lemma OneStart(a: Answer, body: string, request: Request, st: Assembly)
    requires OnTrack(st, body)
    ensures OnTrack(Accept(st, request, StartOf(a, body)).after, body)
  {
    assert "" <= body;
  }

  lemma OneEnd(body: string, request: Request, st: Assembly, f: Frame)
    requires OnTrack(st, body) && f.EntryEnd?
    ensures OnTrack(Accept(st, request, f).after, body)
    ensures Accept(st, request, f).result.Ok? ==> Accept(st, request, f).result.value == Some(body)
  {
    if st.total.Some? && !st.done && ByteLen(st.body) == st.total.value {
      WholeBody(body, st.body);
    }
  }

  /** One frame keeps the assembly on track, and anything it completes is the body. */
  lemma OneFrame(a: Answer, body: string, cut: Cutting, request: Request, st: Assembly, f: Frame)
    requires CutsUp(cut, body) && request.entryId == a.entryId && MayArrive(a, body, cut, f) && OnTrack(st, body)
    ensures OnTrack(Accept(st, request, f).after, body)
    ensures Accept(st, request, f).result.Ok? && Accept(st, request, f).result.value.Some? ==>
              Accept(st, request, f).result.value.value == body
  {
    if f.EntryEnd? {
      OneEnd(body, request, st, f);
    } else if f == StartOf(a, body) {
      OneStart(a, body, request, st);
    } else if f in Frames(a, body, cut) {
      ChunksAreChunks(a.entryId, body, cut, 0, f);
      OneChunk(a, body, cut, request, st, f);
    }
  }

  lemma {:induction false} ChunksAreChunks(entryId: string, body: string, cut: Cutting, from: nat, f: Frame)
    requires CutsUp(cut, body) && from <= |body|
    ensures f in ChunksFrom(entryId, body, cut, from) ==> f.EntryChunk?
    decreases |body| - from
  {
    if from < |body| {
      ChunksAreChunks(entryId, body, cut, from + cut(from), f);
    }
  }

  lemma {:induction false} StaysOnTrack(a: Answer, body: string, cut: Cutting, request: Request, delivery: seq<Frame>)
    requires CutsUp(cut, body) && request.entryId == a.entryId
    requires forall i | 0 <= i < |delivery| :: MayArrive(a, body, cut, delivery[i])
    ensures OnTrack(Assembled(FRESH, request, delivery), body)
  {
    if delivery != [] {
      var front, f := delivery[..|delivery| - 1], delivery[|delivery| - 1];
      StaysOnTrack(a, body, cut, request, front);
      assert MayArrive(a, body, cut, f);
      OneFrame(a, body, cut, request, Assembled(FRESH, request, front), f);
    }
  }

  /**
   Under any loss, repetition or reordering of the answer's frames, mixed with frames about other
   entries, whatever frame completes the assembly completes it with exactly the body.
   */
  lemma HostileDeliveryNeverCorrupts(
    a: Answer, body: string, cut: Cutting, request: Request, delivery: seq<Frame>, f: Frame)
    requires CutsUp(cut, body) && request.entryId == a.entryId && MayArrive(a, body, cut, f)
    requires forall i | 0 <= i < |delivery| :: MayArrive(a, body, cut, delivery[i])
    ensures var result := Accept(Assembled(FRESH, request, delivery), request, f).result;
            result.Ok? && result.value.Some? ==> result.value.value == body
  {
    StaysOnTrack(a, body, cut, request, delivery);
    OneFrame(a, body, cut, request, Assembled(FRESH, request, delivery), f);
  }

  /** A body past the retained bound is refused outright: nothing of it is ever assembled. */
  lemma {:induction false} OverBoundNeverStarts(
    a: Answer, body: string, cut: Cutting, request: Request, delivery: seq<Frame>)
    requires CutsUp(cut, body) && request.entryId == a.entryId && ByteLen(body) > MAX_RETAINED_BYTES
    requires forall i | 0 <= i < |delivery| :: MayArrive(a, body, cut, delivery[i])
    ensures Assembled(FRESH, request, delivery) == FRESH
  {
    if delivery != [] {
      OverBoundNeverStarts(a, body, cut, request, delivery[..|delivery| - 1]);
      var f := delivery[|delivery| - 1];
      assert MayArrive(a, body, cut, f);
      ChunksAreChunks(a.entryId, body, cut, 0, f);
    }
  }

  // ----- in-order delivery

  predicate Answers(a: Answer, request: Request) {
    && request.sessionId == a.sessionId && request.snapshotEpoch == a.snapshotEpoch
    && request.processGeneration == a.processGeneration && request.entryId == a.entryId
    && request.heldRevision <= a.entryRevision
    && a.truncation.Valid() && a.truncation.reasonCode != Some(BODY_AVAILABLE)
  }

  function Holding(body: string, i: nat): Assembly
    requires i <= |body|
  {
    Assembly(Some(ByteLen(body)), body[..i], false)
  }

  lemma {:induction false} AssembledConcat(st: Assembly, request: Request, xs: seq<Frame>, ys: seq<Frame>)
    ensures Assembled(st, request, xs + ys) == Assembled(Assembled(st, request, xs), request, ys)
  {
    if ys == [] {
      assert xs + ys == xs;
    } else {
      assert (xs + ys)[..|xs + ys| - 1] == xs + ys[..|ys| - 1];
      AssembledConcat(st, request, xs, ys[..|ys| - 1]);
    }
  }

  lemma ChunkIsAccepted(a: Answer, request: Request, body: string, i: nat, j: nat)
    requires Answers(a, request) && ByteLen(body) <= MAX_RETAINED_BYTES
    requires i < j <= |body| && ByteLen(body[i..j]) <= MAX_CHUNK_BYTES
    ensures Accept(Holding(body, i), request, Slice(a.entryId, body, i, j)) == Accepted(Holding(body, j), Ok(None))
  {
    assert body[..i] + body[i..j] == body[..j] && body[..|body|] == body;
    WeightMonotone(CharBytes, body, i, |body|);
    WeightMonotone(CharBytes, body, j, |body|);
    WeightSplit(CharBytes, body, i, j);
  }

  lemma AssembledCons(st: Assembly, request: Request, f: Frame, rest: seq<Frame>)
    ensures Assembled(st, request, [f] + rest) == Assembled(Accept(st, request, f).after, request, rest)
  {
    AssembledConcat(st, request, [f], rest);
    assert [f][..0] == [];
  }

  ghost predicate SmallChunk(cut: Cutting, body: string, k: nat) {
    k + cut(k) <= |body| && ByteLen(body[k..k + cut(k)]) <= MAX_CHUNK_BYTES
  }

  lemma OneChunkAssembles(a: Answer, request: Request, body: string, cut: Cutting, i: nat)
    requires Answers(a, request) && ByteLen(body) <= MAX_RETAINED_BYTES && CutsUp(cut, body) && i < |body|
    requires SmallChunk(cut, body, i)
    ensures Assembled(Holding(body, i), request, ChunksFrom(a.entryId, body, cut, i)) ==
            Assembled(Holding(body, i + cut(i)), request, ChunksFrom(a.entryId, body, cut, i + cut(i)))
  {
    var j := i + cut(i);
    AssembledCons(Holding(body, i), request, Slice(a.entryId, body, i, j), ChunksFrom(a.entryId, body, cut, j));
    ChunkIsAccepted(a, request, body, i, j);
  }

  predicate Unmoved<T(==)>(g: nat -> T, cut: Cutting, k: nat) {
    g(k) == g(k + cut(k))
  }

  /** What no chunk changes is the same at the end as anywhere on the way. */
  lemma {:induction false} NoChunkMoves<T>(g: nat -> T, cut: Cutting, n: nat, i: nat)
    requires i <= n && forall k | 0 <= k < n :: 1 <= cut(k) <= n - k && Unmoved(g, cut, k)
    ensures g(i) == g(n)
    decreases n - i
  {
    if i < n {
      assert Unmoved(g, cut, i);
      NoChunkMoves(g, cut, n, i + cut(i));
    }
  }

  /** What assembling from position `i` comes to, having assembled everything before it. */
  function From(a: Answer, request: Request, body: string, cut: Cutting): nat -> Assembly
    requires CutsUp(cut, body)
  {
    (i: nat) =>
      if i <= |body| then Assembled(Holding(body, i), request, ChunksFrom(a.entryId, body, cut, i)) else FRESH
  }

  lemma ChunkDoesNotMove(a: Answer, request: Request, body: string, cut: Cutting, k: nat)
    requires Answers(a, request) && ByteLen(body) <= MAX_RETAINED_BYTES && CutsUp(cut, body) && k < |body|
    requires SmallChunk(cut, body, k)
    ensures Unmoved(From(a, request, body, cut), cut, k)
  {
    OneChunkAssembles(a, request, body, cut, k);
  }

  lemma ChunksAssemble(a: Answer, request: Request, body: string, cut: Cutting)
    requires Answers(a, request) && ByteLen(body) <= MAX_RETAINED_BYTES && CutsUp(cut, body)
    requires forall k | 0 <= k < |body| :: SmallChunk(cut, body, k)
    ensures Assembled(Holding(body, 0), request, ChunksFrom(a.entryId, body, cut, 0)) == Holding(body, |body|)
  {
    var g := From(a, request, body, cut);
    forall k | 0 <= k < |body| ensures Unmoved(g, cut, k) {
      ChunkDoesNotMove(a, request, body, cut, k);
    }
    NoChunkMoves(g, cut, |body|, 0);
  }

  lemma InOrder(a: Answer, request: Request, body: string, cut: Cutting)
    requires Answers(a, request) && ByteLen(body) <= MAX_RETAINED_BYTES && CutsUp(cut, body)
    requires forall k | 0 <= k < |body| :: SmallChunk(cut, body, k)
    ensures var frames := Frames(a, body, cut);
            var last := |frames| - 1;
            Accept(Assembled(FRESH, request, frames[..last]), request, frames[last]).result == Ok(Some(body))
  {
    var start, chunks := StartOf(a, body), ChunksFrom(a.entryId, body, cut, 0);
    var frames := Frames(a, body, cut);
    assert frames[..|frames| - 1] == [start] + chunks;
    AssembledCons(FRESH, request, start, chunks);
    assert body[..0] == "" && body[..|body|] == body;
    ChunksAssemble(a, request, body, cut);
  }

  lemma HostChunkIsSmall(entryId: string, body: string, k: nat)
    requires ValidToken(entryId) && k < |body|
    ensures SmallChunk(HostCut(entryId, body), body, k)
  {
    ChunksFitAndAreMaximal(entryId, body, k);
  }

  /** In order, the frames the host sends for any retained body assemble to it. */
  lemma InOrderDeliveryReturnsTheBody(a: Answer, request: Request, body: string)
    requires Answers(a, request) && ValidToken(a.entryId) && ByteLen(body) <= MAX_RETAINED_BYTES
    ensures var frames := Frames(a, body, HostCut(a.entryId, body));
            var last := |frames| - 1;
            Accept(Assembled(FRESH, request, frames[..last]), request, frames[last]).result == Ok(Some(body))
  {
    var cut := HostCut(a.entryId, body);
    forall k | 0 <= k < |body| ensures SmallChunk(cut, body, k) {
      HostChunkIsSmall(a.entryId, body, k);
    }
    InOrder(a, request, body, cut);
  }
}

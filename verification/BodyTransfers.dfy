/**
 What the phone's assembly returns, for any frames at all: exactly what one matching start, its chunks in
 order and an end spell. Anything else is refused and changes nothing.
 */
module BodyTransfers {
  import opened Wrappers
  import opened Text
  import opened Protocol
  import opened Encoding
  import opened Sequences
  import opened BodyChunks

  /** A start that answers the request: same session, epoch, generation and entry, not stale, within the bound. */
  predicate StartFor(f: Frame, request: Request, total: nat) {
    && f.EntryStart? && f.v == PROTOCOL_VERSION
    && f.sessionId == request.sessionId && f.snapshotEpoch == request.snapshotEpoch
    && f.processGeneration == request.processGeneration && f.entryId == request.entryId
    && f.entryRevision >= request.heldRevision
    && f.totalBytes == total <= MAX_RETAINED_BYTES
    && f.truncation.Valid() && f.truncation.reasonCode != Some(BODY_AVAILABLE)
  }

  /** A chunk that continues a body: of the same entry, at its end, with something in it, and not too long. */
  predicate ChunkFor(f: Frame, request: Request, before: string) {
    && f.EntryChunk? && f.entryId == request.entryId
    && f.offset == ByteLen(before)
    && f.text != "" && ByteLen(f.text) <= MAX_CHUNK_BYTES
  }

  predicate EndFor(f: Frame, request: Request) {
    f.EntryEnd? && f.entryId == request.entryId
  }

  /** What some chunks spell. */
  function Spelt(chunks: seq<Frame>): string {
    if chunks == [] then ""
    else
      var last := chunks[|chunks| - 1];
      Spelt(chunks[..|chunks| - 1]) + if last.EntryChunk? then last.text else ""
  }

  /** Each chunk continues what those before it spell. */
  predicate ChunksFor(chunks: seq<Frame>, request: Request) {
    forall i | 0 <= i < |chunks| :: ChunkFor(chunks[i], request, Spelt(chunks[..i]))
  }

  lemma OneMoreChunk(chunks: seq<Frame>, request: Request, f: Frame)
    ensures ChunksFor(chunks + [f], request) <==> ChunksFor(chunks, request) && ChunkFor(f, request, Spelt(chunks))
    ensures f.EntryChunk? ==> Spelt(chunks + [f]) == Spelt(chunks) + f.text
  {
    var all := chunks + [f];
    assert all[..|chunks|] == chunks && all[|chunks|] == f;
    assert forall i | 0 <= i < |chunks| :: all[i] == chunks[i] && all[..i] == chunks[..i];
  }

  // ----- one frame

  /** What an assembly takes next: a start that answers, then chunks up to the total, then an end at it. */
  predicate Continues(st: Assembly, request: Request, f: Frame) {
    if st.total.None? then f.EntryStart? && StartFor(f, request, f.totalBytes)
    else
      || (ChunkFor(f, request, st.body) && ByteLen(st.body) + ByteLen(f.text) <= st.total.value)
      || (EndFor(f, request) && ByteLen(st.body) == st.total.value)
  }

  /** A frame is taken exactly when it continues an assembly that is not done; refused, it changes nothing. */
  lemma TakenExactly(st: Assembly, request: Request, f: Frame)
    ensures var r := Accept(st, request, f);
            && (r.result.Ok? <==> !st.done && Continues(st, request, f))
            && (r.result.Err? ==> r.after == st)
            && (r.result.Ok? ==>
                  r == match f
                       case EntryStart(_, _, _, _, _, _, total, _) => Accepted(st.(total := Some(total)), Ok(None))
                       case EntryChunk(_, _, _, text) => Accepted(st.(body := st.body + text), Ok(None))
                       case _ => Accepted(st.(body := "", done := true), Ok(Some(st.body))))
  {
  }

  // ----- what is returned was sent

  /** The start and the chunks that an assembly under way has taken from some frames. */
  ghost predicate Took(st: Assembly, request: Request, frames: seq<Frame>, start: Frame, chunks: seq<Frame>) {
    && st.total.Some? && StartFor(start, request, st.total.value)
    && ChunksFor(chunks, request) && st.body == Spelt(chunks)
    && IsSubsequence([start] + chunks, frames)
  }

  lemma StartIsTaken(st: Assembly, request: Request, frames: seq<Frame>, f: Frame)
    requires st == FRESH && Accept(st, request, f).result == Ok(None)
    ensures Took(Accept(st, request, f).after, request, frames + [f], f, [])
  {
    TakenExactly(st, request, f);
    SubsequenceOfMore([], frames, f);
    assert [] + [f] == [f] + [];
  }

  lemma OneMoreTaken(frames: seq<Frame>, start: Frame, chunks: seq<Frame>, f: Frame)
    requires IsSubsequence([start] + chunks, frames)
    ensures IsSubsequence([start] + (chunks + [f]), frames + [f])
  {
    SubsequenceOfMore([start] + chunks, frames, f);
    Associates([start], chunks, [f]);
  }

  lemma ChunkIsTaken(st: Assembly, request: Request, frames: seq<Frame>, start: Frame, chunks: seq<Frame>, f: Frame)
    requires !st.done && Took(st, request, frames, start, chunks) && Accept(st, request, f).result == Ok(None)
    ensures Took(Accept(st, request, f).after, request, frames + [f], start, chunks + [f])
  {
    TakenExactly(st, request, f);
    OneMoreChunk(chunks, request, f);
    OneMoreTaken(frames, start, chunks, f);
  }

  /** Until it is done, an assembly holds nothing, or what a start and chunks among the frames spell. */
  lemma {:induction false} HoldsWhatItTook(request: Request, frames: seq<Frame>)
    returns (start: Frame, chunks: seq<Frame>)
    ensures var st := Assembled(FRESH, request, frames);
            st.done || st == FRESH || Took(st, request, frames, start, chunks)
  {
    start, chunks := OtherFrame, [];
    if frames != [] {
      var front, f := frames[..|frames| - 1], frames[|frames| - 1];
      assert frames == front + [f];
      var st := Assembled(FRESH, request, front);
      start, chunks := HoldsWhatItTook(request, front);
      TakenExactly(st, request, f);
      var r := Accept(st, request, f).result;
      if r == Ok(None) && st == FRESH {
        StartIsTaken(st, request, front, f);
        start, chunks := f, [];
      } else if r == Ok(None) {
        ChunkIsTaken(st, request, front, start, chunks, f);
        chunks := chunks + [f];
      } else if !st.done && st != FRESH {
        SubsequenceOfMore([start] + chunks, front, f);
      }
    }
  }

  /**
   Whatever frames arrive, a body that is returned is what one start answering the request and chunks after it,
   each continuing the ones before, spell; and its length is the one that start announced.
   */
  lemma ReturnedWasSent(request: Request, frames: seq<Frame>, end: Frame, body: string)
    returns (start: Frame, chunks: seq<Frame>)
    requires Accept(Assembled(FRESH, request, frames), request, end).result == Ok(Some(body))
    ensures IsSubsequence([start] + chunks, frames) && EndFor(end, request)
    ensures StartFor(start, request, ByteLen(body)) && ChunksFor(chunks, request) && Spelt(chunks) == body
  {
    start, chunks := HoldsWhatItTook(request, frames);
    TakenExactly(Assembled(FRESH, request, frames), request, end);
  }

  // ----- what is sent is returned

  lemma {:induction false} SpeltWithin(chunks: seq<Frame>, n: nat)
    requires n <= |chunks|
    ensures ByteLen(Spelt(chunks[..n])) <= ByteLen(Spelt(chunks))
  {
    if n == |chunks| {
      assert chunks[..n] == chunks;
    } else {
      var front, last := chunks[..|chunks| - 1], chunks[|chunks| - 1];
      SpeltWithin(front, n);
      assert front[..n] == chunks[..n];
      WeightConcat(CharBytes, Spelt(front), if last.EntryChunk? then last.text else "");
    }
  }

  lemma ChunkIsHeld(request: Request, before: string, f: Frame, total: nat)
    requires ChunkFor(f, request, before) && ByteLen(before + f.text) <= total
    ensures Accept(Assembly(Some(total), before, false), request, f).after ==
            Assembly(Some(total), before + f.text, false)
  {
    WeightConcat(CharBytes, before, f.text);
    TakenExactly(Assembly(Some(total), before, false), request, f);
  }

  lemma {:induction false} SentIsHeld(request: Request, start: Frame, chunks: seq<Frame>, total: nat)
    requires StartFor(start, request, total) && ChunksFor(chunks, request) && ByteLen(Spelt(chunks)) <= total
    ensures Assembled(FRESH, request, [start] + chunks) == Assembly(Some(total), Spelt(chunks), false)
  {
    var frames := [start] + chunks;
    if chunks == [] {
      assert frames[..0] == [];
      TakenExactly(FRESH, request, start);
    } else {
      var front, last := chunks[..|chunks| - 1], chunks[|chunks| - 1];
      assert chunks == front + [last] && frames[..|frames| - 1] == [start] + front;
      OneMoreChunk(front, request, last);
      SpeltWithin(chunks, |front|);
      SentIsHeld(request, start, front, total);
      ChunkIsHeld(request, Spelt(front), last, total);
    }
  }

  /** Any start that answers, with chunks that each continue the ones before and spell its length, is returned. */
  lemma SentIsReturned(request: Request, start: Frame, chunks: seq<Frame>, end: Frame)
    requires StartFor(start, request, ByteLen(Spelt(chunks))) && ChunksFor(chunks, request) && EndFor(end, request)
    ensures Accept(Assembled(FRESH, request, [start] + chunks), request, end).result == Ok(Some(Spelt(chunks)))
  {
    SentIsHeld(request, start, chunks, ByteLen(Spelt(chunks)));
  }
}

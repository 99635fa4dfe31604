/**
 Length-prefixed frames over a byte stream, read by a reader that is safe to drop between reads:
 what it delivers depends on the bytes that arrived, not on how they were split or when it was asked.
 */
module FrameReader {
  import opened Wrappers
  import Sequences

  type Byte = b: int | 0 <= b < 256
  type Bytes = seq<Byte>

  datatype Error = ZeroLength | FrameTooLarge

  const MAX_U32: nat := 0xFFFF_FFFF

  // ----- one frame

  function Header(n: nat): (h: Bytes)
    requires n <= MAX_U32
    ensures |h| == 4
  {
    [n / 0x100_0000, n / 0x1_0000 % 0x100, n / 0x100 % 0x100, n % 0x100]
  }

  function Length(h: Bytes): nat
    requires |h| >= 4
  {
    h[0] as int * 0x100_0000 + h[1] as int * 0x1_0000 + h[2] as int * 0x100 + h[3] as int
  }

  function Encode(body: Bytes): Bytes
    requires |body| <= MAX_U32
  {
    Header(|body|) + body
  }

  function EncodeWithin(body: Bytes, limit: nat): Result<Bytes, Error> {
    if body == [] then Err(ZeroLength)
    else if |body| > limit then Err(FrameTooLarge)
    else if |body| > MAX_U32 then Err(FrameTooLarge)
    else Ok(Encode(body))
  }

  /** Exactly the bodies a reader with the same bound delivers are encoded. */
  lemma EncodedExactlyWhenDeliverable(body: Bytes, more: Bytes, limit: nat)
    ensures EncodeWithin(body, limit).Ok? <==> Deliverable(body, limit)
    ensures EncodeWithin(body, limit).Ok? ==>
              Take(EncodeWithin(body, limit).value + more, limit) == Ok(Some(Taken(body, more)))
    ensures body == [] <==> EncodeWithin(body, limit) == Err(ZeroLength)
  {
    if Deliverable(body, limit) {
      TakeOfEncoded(body, more, limit);
    }
  }

  datatype Taken = Taken(body: Bytes, rest: Bytes)

  /** What the front of a buffer holds: no whole frame yet, a frame, or a header that is refused. */
  function Take(buffered: Bytes, limit: nat): Result<Option<Taken>, Error> {
    if |buffered| < 4 then Ok(None)
    else
      var length := Length(buffered);
      if length == 0 then Err(ZeroLength)
      else if length > limit then Err(FrameTooLarge)
      else if |buffered| < 4 + length then Ok(None)
      else Ok(Some(Taken(buffered[4..4 + length], buffered[4 + length..])))
  }

  predicate Deliverable(body: Bytes, limit: nat) {
    1 <= |body| <= limit && |body| <= MAX_U32
  }

  lemma HeaderRoundTrip(n: nat)
    requires n <= MAX_U32
    ensures Length(Header(n)) == n
  {
    var h, m := n / 0x1_0000, n / 0x100;
    assert m / 0x100 == h && h / 0x100 == n / 0x100_0000;
    assert n == m * 0x100 + n % 0x100;
    assert m == h * 0x100 + m % 0x100;
    assert h == h / 0x100 * 0x100 + h % 0x100;
  }

  lemma Digits256(a: int, b: int, c: int, d: int)
    requires 0 <= a < 0x100 && 0 <= b < 0x100 && 0 <= c < 0x100 && 0 <= d < 0x100
    ensures var n := a * 0x100_0000 + b * 0x1_0000 + c * 0x100 + d;
            n / 0x100_0000 == a && n / 0x1_0000 % 0x100 == b && n / 0x100 % 0x100 == c && n % 0x100 == d
  {
    var n := a * 0x100_0000 + b * 0x1_0000 + c * 0x100 + d;
    assert n / 0x100 == a * 0x1_0000 + b * 0x100 + c;
    assert n / 0x1_0000 == a * 0x100 + b;
  }

  lemma LengthRoundTrip(h: Bytes)
    requires |h| >= 4
    ensures Length(h) <= MAX_U32 && Header(Length(h)) == h[..4]
  {
    var a: int, b: int, c: int, d: int := h[0], h[1], h[2], h[3];
    Digits256(a, b, c, d);
  }

  /** Taking undoes encoding, whatever follows. */
  lemma TakeOfEncoded(body: Bytes, more: Bytes, limit: nat)
    requires Deliverable(body, limit)
    ensures Take(Encode(body) + more, limit) == Ok(Some(Taken(body, more)))
  {
    var buffered := Encode(body) + more;
    HeaderRoundTrip(|body|);
    assert Length(buffered) == |body|;
    assert buffered[4..4 + |body|] == body;
    assert buffered[4 + |body|..] == more;
  }

  /** Encoding undoes taking: nothing is lost or invented. */
  lemma TakenIsEncoded(buffered: Bytes, limit: nat)
    requires Take(buffered, limit).Ok? && Take(buffered, limit).value.Some?
    ensures var t := Take(buffered, limit).value.value;
            Deliverable(t.body, limit) && Encode(t.body) + t.rest == buffered
  {
    var t := Take(buffered, limit).value.value;
    LengthRoundTrip(buffered);
    assert Header(|t.body|) == buffered[..4];
    assert buffered == buffered[..4] + (t.body + t.rest);
  }

  // ----- whole streams

  function EncodeAll(bodies: seq<Bytes>, limit: nat): Bytes
    requires forall i | 0 <= i < |bodies| :: Deliverable(bodies[i], limit)
  {
    if bodies == [] then []
    else
      assert Deliverable(bodies[0], limit);
      Encode(bodies[0]) + EncodeAll(bodies[1..], limit)
  }

  datatype Decoded = Decoded(bodies: seq<Bytes>, rest: Bytes)

  /** Decoding everything at once: the frames, and what is left when no further one can be taken. */
  function DecodeAll(stream: Bytes, limit: nat): Decoded
    decreases |stream|
  {
    var front := Take(stream, limit);
    if front.Err? || front.value.None? then Decoded([], stream)
    else
      var later := DecodeAll(front.value.value.rest, limit);
      Decoded([front.value.value.body] + later.bodies, later.rest)
  }

  lemma DecodeOneMore(body: Bytes, tail: Bytes, limit: nat)
    requires Deliverable(body, limit)
    ensures DecodeAll(Encode(body) + tail, limit) ==
            Decoded([body] + DecodeAll(tail, limit).bodies, DecodeAll(tail, limit).rest)
  {
    TakeOfEncoded(body, tail, limit);
  }

  /** Frames written one after another decode to exactly those frames, and whatever follows them. */
  lemma {:induction false} DecodeOfEncoded(bodies: seq<Bytes>, more: Bytes, limit: nat)
    requires forall i | 0 <= i < |bodies| :: Deliverable(bodies[i], limit)
    ensures DecodeAll(EncodeAll(bodies, limit) + more, limit) ==
            Decoded(bodies + DecodeAll(more, limit).bodies, DecodeAll(more, limit).rest)
  {
    var later := DecodeAll(more, limit);
    if bodies == [] {
      assert EncodeAll(bodies, limit) + more == more;
      assert bodies + later.bodies == later.bodies;
    } else {
      var first, others := bodies[0], bodies[1..];
      assert Deliverable(first, limit);
      var tail := EncodeAll(others, limit) + more;
      Sequences.Associates(Encode(first), EncodeAll(others, limit), more);
      DecodeOneMore(first, tail, limit);
      DecodeOfEncoded(others, more, limit);
      Sequences.Associates([first], others, later.bodies);
      assert [first] + others == bodies;
    }
  }

  lemma {:induction false} EncodeAllConcat(xs: seq<Bytes>, ys: seq<Bytes>, limit: nat)
    requires forall i | 0 <= i < |xs| :: Deliverable(xs[i], limit)
    requires forall i | 0 <= i < |ys| :: Deliverable(ys[i], limit)
    ensures EncodeAll(xs + ys, limit) == EncodeAll(xs, limit) + EncodeAll(ys, limit)
  {
    if xs == [] {
      assert xs + ys == ys;
    } else {
      assert (xs + ys)[1..] == xs[1..] + ys;
      EncodeAllConcat(xs[1..], ys, limit);
    }
  }

  lemma EncodeOne(body: Bytes, limit: nat)
    requires Deliverable(body, limit)
    ensures EncodeAll([body], limit) == Encode(body)
  {
    assert EncodeAll([body], limit) == Encode(body) + EncodeAll([], limit);
  }

  // ----- the reader

  /** One completed read of the underlying stream; an empty one, or a failure that says so, is the end of it. */
  datatype Read = Data(bytes: Bytes) | Failed(unexpectedEof: bool) {
    predicate EndsStream() {
      this == Data([]) || this == Failed(true)
    }
  }

  function Joined(arrivals: seq<Read>): Bytes {
    if arrivals == [] then []
    else
      Joined(arrivals[..|arrivals| - 1]) +
      (if arrivals[|arrivals| - 1].Data? then arrivals[|arrivals| - 1].bytes else [])
  }

  /** Everything consumed before a call and by its first `n` reads. */
  function Consumed(before: Bytes, arrivals: seq<Read>, n: nat): Bytes
    requires n <= |arrivals|
  {
    before + Joined(arrivals[..n])
  }

  lemma ConsumedOneMore(before: Bytes, arrivals: seq<Read>, n: nat)
    requires n < |arrivals|
    ensures Consumed(before, arrivals, n + 1) ==
            if arrivals[n].Failed? || arrivals[n].EndsStream() then Consumed(before, arrivals, n)
            else Consumed(before, arrivals, n) + arrivals[n].bytes
  {
    assert arrivals[..n + 1][..n] == arrivals[..n];
  }

  /** How a call ended. `Cancelled` is a call dropped while waiting for its next read. */
  datatype Outcome = Frame(body: Bytes) | Refused(error: Error) | Truncated | IoFailed | Cancelled

  /** How a call ended, the reads it used, and what it left buffered. */
  datatype Call = Call(outcome: Outcome, used: nat, buffered: Bytes)

  /** One call, in terms of what was buffered and the reads that complete during it. */
  function NextCall(buffered: Bytes, arrivals: seq<Read>, limit: nat): Call
    decreases |arrivals|
  {
    match Take(buffered, limit)
    case Err(error) => Call(Refused(error), 0, buffered)
    case Ok(Some(t)) => Call(Frame(t.body), 0, t.rest)
    case Ok(None) =>
      if arrivals == [] then Call(Cancelled, 0, buffered)
      else if arrivals[0].EndsStream() then Call(Truncated, 1, buffered)
      else if arrivals[0].Failed? then Call(IoFailed, 1, buffered)
      else
        var rest := NextCall(buffered + arrivals[0].bytes, arrivals[1..], limit);
        rest.(used := rest.used + 1)
  }

  function After(n: nat, call: Call): Call {
    call.(used := n + call.used)
  }

  /** What a call does with its next read, when nothing is buffered to take or refuse. */
  lemma ReadsOn(buffered: Bytes, arrivals: seq<Read>, used: nat, limit: nat)
    requires Take(buffered, limit) == Ok(None) && used < |arrivals|
    ensures After(used, NextCall(buffered, arrivals[used..], limit)) ==
            var read := arrivals[used];
            if read.EndsStream() then Call(Truncated, used + 1, buffered)
            else if read.Failed? then Call(IoFailed, used + 1, buffered)
            else After(used + 1, NextCall(buffered + read.bytes, arrivals[used + 1..], limit))
  {
    assert arrivals[used..][1..] == arrivals[used + 1..];
  }

  class AgentFrameReader {
    var buffered: Bytes
    const limit: nat
    ghost var consumed: Bytes
    ghost var delivered: seq<Bytes>

    /** Conservation: the frames delivered, re-encoded, and the buffer are the bytes consumed. */
    ghost predicate Valid()
      reads this
    {
      && (forall i | 0 <= i < |delivered| :: Deliverable(delivered[i], limit))
      && EncodeAll(delivered, limit) + buffered == consumed
    }

    constructor (limit: nat)
      ensures Valid() && this.limit == limit && buffered == [] && consumed == [] && delivered == []
    {
      this.limit := limit;
      buffered, consumed, delivered := [], [], [];
    }

    method TakeFrame() returns (result: Result<Option<Bytes>, Error>)
      requires Valid()
      modifies this`buffered, this`delivered
      ensures Valid()
      ensures match Take(old(buffered), limit)
              case Err(error) => result == Err(error) && buffered == old(buffered) && delivered == old(delivered)
              case Ok(None) => result == Ok(None) && buffered == old(buffered) && delivered == old(delivered)
              case Ok(Some(t)) =>
                result == Ok(Some(t.body)) && buffered == t.rest && delivered == old(delivered) + [t.body]
    {
      if |buffered| < 4 {
        return Ok(None);
      }
      var length := Length(buffered);
      if length == 0 {
        return Err(ZeroLength);
      }
      if length > limit {
        return Err(FrameTooLarge);
      }
      if |buffered| < 4 + length {
        return Ok(None);
      }
      var body := buffered[4..4 + length];
      TakenIsEncoded(buffered, limit);
      EncodeAllConcat(delivered, [body], limit);
      EncodeOne(body, limit);
      buffered := buffered[4 + length..];
      delivered := delivered + [body];
      result := Ok(Some(body));
    }

    method Buffer(bytes: Bytes)
      requires Valid()
      modifies this`buffered, this`consumed
      ensures Valid() && buffered == old(buffered) + bytes && consumed == old(consumed) + bytes
    {
      Sequences.Associates(EncodeAll(delivered, limit), buffered, bytes);
      buffered := buffered + bytes;
      consumed := consumed + bytes;
    }

    /**
     Reads until a frame is whole, the stream ends, or the call is dropped. Whatever happens, no byte
     of a completed read is lost, and exactly the frame returned is delivered.
     */
    method Next(arrivals: seq<Read>) returns (outcome: Outcome, used: nat)
      requires Valid()
      modifies this`buffered, this`delivered, this`consumed
      ensures Valid()
      ensures used <= |arrivals| && consumed == Consumed(old(consumed), arrivals, used)
      ensures delivered == old(delivered) + if outcome.Frame? then [outcome.body] else []
      ensures Call(outcome, used, buffered) == NextCall(old(buffered), arrivals, limit)
    {
      used := 0;
      assert arrivals[0..] == arrivals;
      while true
        invariant Valid() && used <= |arrivals|
        invariant consumed == Consumed(old(consumed), arrivals, used)
        invariant delivered == old(delivered)
        invariant After(used, NextCall(buffered, arrivals[used..], limit)) == NextCall(old(buffered), arrivals, limit)
        decreases |arrivals| - used
      {
        var taken := TakeFrame();
        if taken.Err? {
          return Refused(taken.error), used;
        }
        if taken.value.Some? {
          return Frame(taken.value.value), used;
        }
        if used == |arrivals| {
          return Cancelled, used;
        }
        var read := arrivals[used];
        ConsumedOneMore(old(consumed), arrivals, used);
        ReadsOn(buffered, arrivals, used, limit);
        used := used + 1;
        if read.EndsStream() {
          return Truncated, used;
        }
        if read.Failed? {
          return IoFailed, used;
        }
        Buffer(read.bytes);
      }
    }

    /** What is delivered and what is buffered are read off the bytes consumed. */
    lemma DeliveredIsDecoded()
      requires Valid()
      ensures DecodeAll(consumed, limit) ==
              Decoded(delivered + DecodeAll(buffered, limit).bodies, DecodeAll(buffered, limit).rest)
    {
      DecodeOfEncoded(delivered, buffered, limit);
    }
  }

  /**
   Independence: two readers that consumed the same bytes, however those were split into reads and
   wherever calls were dropped, have delivered the same frames once neither has one left to deliver.
   */
  lemma SplittingIsInvisible(
    delivered: seq<Bytes>, buffered: Bytes, delivered': seq<Bytes>, buffered': Bytes, limit: nat)
    requires forall i | 0 <= i < |delivered| :: Deliverable(delivered[i], limit)
    requires forall i | 0 <= i < |delivered'| :: Deliverable(delivered'[i], limit)
    requires EncodeAll(delivered, limit) + buffered == EncodeAll(delivered', limit) + buffered'
    requires !(Take(buffered, limit).Ok? && Take(buffered, limit).value.Some?)
    requires !(Take(buffered', limit).Ok? && Take(buffered', limit).value.Some?)
    ensures delivered == delivered' && buffered == buffered'
  {
    DecodeOfEncoded(delivered, buffered, limit);
    DecodeOfEncoded(delivered', buffered', limit);
    assert delivered + [] == delivered && delivered' + [] == delivered';
  }

  /** Frames that were written are delivered as written, in order, and never a frame more. */
  lemma WrittenFramesAreDelivered(written: seq<Bytes>, delivered: seq<Bytes>, buffered: Bytes, limit: nat)
    requires forall i | 0 <= i < |written| :: Deliverable(written[i], limit)
    requires forall i | 0 <= i < |delivered| :: Deliverable(delivered[i], limit)
    requires EncodeAll(delivered, limit) + buffered <= EncodeAll(written, limit)
    ensures delivered <= written
  {
    var stream := EncodeAll(written, limit);
    var tail := stream[|EncodeAll(delivered, limit)|..];
    assert stream == EncodeAll(delivered, limit) + tail;
    DecodeOfEncoded(delivered, tail, limit);
    DecodeOfEncoded(written, [], limit);
    assert stream + [] == stream;
    assert DecodeAll([], limit) == Decoded([], []);
    assert written + [] == written;
  }

  // ----- runs of calls

  /** Calls made one after another, each with the reads that complete during it. */
  function Calls(buffered: Bytes, waits: seq<seq<Read>>, limit: nat): (calls: seq<Call>)
    ensures |calls| == |waits|
    decreases |waits|
  {
    if waits == [] then []
    else
      var first := NextCall(buffered, waits[0], limit);
      [first] + Calls(first.buffered, waits[1..], limit)
  }

  /** What each outcome says about the bytes a call leaves buffered, and the read that ended it. */
  lemma {:induction false} LeftBuffered(buffered: Bytes, arrivals: seq<Read>, limit: nat)
    ensures var call := NextCall(buffered, arrivals, limit);
            && call.used <= |arrivals|
            && (call.outcome.Refused? ==> Take(call.buffered, limit) == Err(call.outcome.error))
            && (call.outcome.Truncated? || call.outcome.IoFailed? || call.outcome.Cancelled? ==>
                  Take(call.buffered, limit) == Ok(None))
            && (call.outcome.Truncated? ==> call.used > 0 && arrivals[call.used - 1].EndsStream())
            && (call.outcome.IoFailed? ==> call.used > 0 && arrivals[call.used - 1] == Failed(false))
            && (call.outcome.Cancelled? ==> call.used == |arrivals|)
    decreases |arrivals|
  {
    if Take(buffered, limit) == Ok(None) && arrivals != [] && arrivals[0].Data? && arrivals[0].bytes != [] {
      LeftBuffered(buffered + arrivals[0].bytes, arrivals[1..], limit);
    }
  }

  /** Dropping a call loses nothing: the next one goes on as if it had been the same call. */
  lemma {:induction false} DroppedCallResumes(buffered: Bytes, before: seq<Read>, after: seq<Read>, limit: nat)
    requires NextCall(buffered, before, limit).outcome.Cancelled?
    ensures NextCall(buffered, before + after, limit) ==
            After(|before|, NextCall(NextCall(buffered, before, limit).buffered, after, limit))
    decreases |before|
  {
    if before == [] {
      assert before + after == after;
    } else {
      assert (before + after)[1..] == before[1..] + after;
      DroppedCallResumes(buffered + before[0].bytes, before[1..], after, limit);
    }
  }

  /** Over any run of calls, once one refuses a header every later one refuses it the same way and reads nothing. */
  lemma {:induction false} RefusalIsFinal(buffered: Bytes, waits: seq<seq<Read>>, limit: nat, i: nat, j: nat)
    requires i <= j < |waits| && Calls(buffered, waits, limit)[i].outcome.Refused?
    ensures i < j ==>
              Calls(buffered, waits, limit)[j] ==
              Call(Calls(buffered, waits, limit)[i].outcome, 0, Calls(buffered, waits, limit)[i].buffered)
    decreases j
  {
    var first := NextCall(buffered, waits[0], limit);
    LeftBuffered(buffered, waits[0], limit);
    if i > 0 {
      RefusalIsFinal(first.buffered, waits[1..], limit, i - 1, j - 1);
    } else if j > 0 {
      var second := NextCall(first.buffered, waits[1], limit);
      assert Calls(first.buffered, waits[1..], limit)[0] == second == Call(first.outcome, 0, first.buffered);
      RefusalIsFinal(first.buffered, waits[1..], limit, 0, j - 1);
    }
  }
}

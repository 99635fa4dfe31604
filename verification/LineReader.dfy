/**
 Transcript lines read through a buffer of any size, never holding more than a bounded amount of
 one: an over-long line is consumed and reported instead.
 */
module LineReader {
  import opened FrameReader

  const NEWLINE: Byte := 10

  // ----- the lines of a stream

  datatype RawLine = RawLine(text: Bytes, terminated: bool)

  /** The first `n` bytes hold no newline. */
  predicate Clean(stream: Bytes, n: nat) {
    n <= |stream| && forall i | 0 <= i < n :: stream[i] != NEWLINE
  }

  /** The position of the first newline, or the length of the stream. */
  function NewlineAt(stream: Bytes): (n: nat)
    ensures Clean(stream, n)
    ensures n < |stream| ==> stream[n] == NEWLINE
  {
    if stream == [] || stream[0] == NEWLINE then 0 else 1 + NewlineAt(stream[1..])
  }

  function FirstLine(stream: Bytes): RawLine {
    RawLine(stream[..NewlineAt(stream)], NewlineAt(stream) < |stream|)
  }

  function AfterFirst(stream: Bytes): Bytes {
    if NewlineAt(stream) < |stream| then stream[NewlineAt(stream) + 1..] else []
  }

  function Split(stream: Bytes): seq<RawLine>
    decreases |stream|
  {
    if stream == [] then [] else [FirstLine(stream)] + Split(AfterFirst(stream))
  }

  function Unsplit(lines: seq<RawLine>): Bytes {
    if lines == [] then []
    else lines[0].text + (if lines[0].terminated then [NEWLINE] else []) + Unsplit(lines[1..])
  }

  /** No line holds a newline, and only the last can lack one at its end, when it is not empty. */
  predicate WellSplit(lines: seq<RawLine>) {
    forall i | 0 <= i < |lines| ::
      && Clean(lines[i].text, |lines[i].text|)
      && (!lines[i].terminated ==> i == |lines| - 1 && lines[i].text != [])
  }

  lemma {:induction false} SplitIsWell(stream: Bytes)
    ensures WellSplit(Split(stream))
    decreases |stream|
  {
    if stream != [] {
      SplitIsWell(AfterFirst(stream));
      var lines, rest := Split(stream), Split(AfterFirst(stream));
      assert lines[0] == FirstLine(stream);
      assert forall i | 0 <= i < |rest| :: lines[i + 1] == rest[i];
    }
  }

  lemma FirstLineSpells(stream: Bytes)
    ensures var first := FirstLine(stream);
            stream == first.text + (if first.terminated then [NEWLINE] else []) + AfterFirst(stream)
  {
  }

  /** Splitting loses nothing and cuts exactly at newlines. */
  lemma {:induction false} SplitSpellsTheStream(stream: Bytes)
    ensures Unsplit(Split(stream)) == stream && WellSplit(Split(stream))
    decreases |stream|
  {
    SplitIsWell(stream);
    if stream != [] {
      SplitSpellsTheStream(AfterFirst(stream));
      FirstLineSpells(stream);
      assert Split(stream)[1..] == Split(AfterFirst(stream));
    }
  }

  // ----- bounded reading

  datatype Line = Record(terminated: bool) | Oversized | End

  datatype Reading = Reading(line: Line, held: Bytes, rest: Bytes)

  /** What reading one line yields, in terms of the stream alone. */
  function NextLine(stream: Bytes, limit: nat): Reading {
    if stream == [] then Reading(End, [], [])
    else
      var first := FirstLine(stream);
      if |first.text| > limit then Reading(Oversized, [], AfterFirst(stream))
      else Reading(Record(first.terminated), first.text, AfterFirst(stream))
  }

  function Concat(fills: seq<Bytes>): Bytes {
    if fills == [] then [] else fills[0] + Concat(fills[1..])
  }

  /** A buffered source: the buffers its successive fills will show, each of any non-zero size. */
  class BufferedSource {
    var fills: seq<Bytes>

    ghost predicate Valid()
      reads this
    {
      forall i | 0 <= i < |fills| :: fills[i] != []
    }

    function Content(): Bytes
      reads this
    {
      Concat(fills)
    }

    constructor (fills: seq<Bytes>)
      requires forall i | 0 <= i < |fills| :: fills[i] != []
      ensures Valid() && Content() == Concat(fills)
    {
      this.fills := fills;
    }

    /** What `fill_buf` shows: empty only at the end of the stream. */
    function Buffered(): Bytes
      reads this
    {
      if fills == [] then [] else fills[0]
    }

    method Consume(n: nat)
      requires Valid() && n <= |Buffered()|
      modifies this
      ensures Valid() && n <= |old(Content())| && Content() == old(Content())[n..]
    {
      if fills == [] {
        return;
      }
      var first, later := fills[0], fills[1..];
      assert (first + Concat(later))[n..] == first[n..] + Concat(later);
      if n == |first| {
        assert first[n..] + Concat(later) == Concat(later);
        fills := later;
      } else {
        fills := [first[n..]] + later;
      }
    }
  }

  lemma NewlineIs(stream: Bytes, n: nat)
    requires Clean(stream, n)
    requires n == |stream| || stream[n] == NEWLINE
    ensures NewlineAt(stream) == n
  {
  }

  lemma CleanExtends(stream: Bytes, seen: nat, available: Bytes, n: nat)
    requires Clean(stream, seen) && Clean(available, n)
    requires seen + |available| <= |stream| && available == stream[seen..seen + |available|]
    ensures Clean(stream, seen + n)
  {
    forall i | 0 <= i < seen + n ensures stream[i] != NEWLINE {
      if i >= seen {
        assert available[i - seen] == stream[i];
      }
    }
  }

  lemma Slices(stream: Bytes, i: nat, j: nat, n: nat)
    requires i + n <= j <= |stream|
    ensures stream[..i] + stream[i..j][..n] == stream[..i + n]
  {
  }

  /** What consuming the part of a buffer before its newline says about the stream it comes from. */
  lemma Advance(stream: Bytes, seen: nat, available: Bytes)
    requires Clean(stream, seen)
    requires seen + |available| <= |stream| && available == stream[seen..seen + |available|]
    ensures var chunk := NewlineAt(available);
            && Clean(stream, seen + chunk)
            && stream[..seen] + available[..chunk] == stream[..seen + chunk]
            && (chunk < |available| ==> NewlineAt(stream) == seen + chunk)
  {
    var chunk := NewlineAt(available);
    CleanExtends(stream, seen, available, chunk);
    Slices(stream, seen, seen + |available|, chunk);
    if chunk < |available| {
      FoundAt(stream, seen, available);
    }
  }

  lemma FoundAt(stream: Bytes, seen: nat, available: Bytes)
    requires Clean(stream, seen)
    requires seen + |available| <= |stream| && available == stream[seen..seen + |available|]
    requires NewlineAt(available) < |available|
    ensures NewlineAt(stream) == seen + NewlineAt(available)
  {
    var chunk := NewlineAt(available);
    CleanExtends(stream, seen, available, chunk);
    assert stream[seen + chunk] == available[chunk];
    NewlineIs(stream, seen + chunk);
  }

  /** What is held of a line after `seen` bytes of it. */
  predicate Holding(stream: Bytes, seen: nat, limit: nat, oversized: bool, held: Bytes) {
    && seen <= |stream|
    && oversized == (seen > limit)
    && held == if oversized then [] else stream[..seen]
  }

  method Hold(ghost stream: Bytes, ghost seen: nat, held: Bytes, oversized: bool, piece: Bytes, limit: nat)
    returns (held': Bytes, oversized': bool)
    requires Holding(stream, seen, limit, oversized, held) && seen + |piece| <= |stream|
    requires stream[..seen] + piece == stream[..seen + |piece|]
    ensures Holding(stream, seen + |piece|, limit, oversized', held') && |held'| <= limit
  {
    held', oversized' := held, oversized;
    if !oversized {
      if |held| + |piece| > limit {
        held', oversized' := [], true;
      } else {
        held' := held + piece;
      }
    }
  }

  lemma NextLineIs(stream: Bytes, limit: nat, oversized: bool, held: Bytes)
    requires stream != [] && Holding(stream, NewlineAt(stream), limit, oversized, held)
    ensures NextLine(stream, limit) ==
            Reading(if oversized then Oversized else Record(NewlineAt(stream) < |stream|), held, AfterFirst(stream))
  {
  }

  /** Takes what the buffer shows of the line: up to its newline, or all of it. */
  method ReadPiece(
    source: BufferedSource, ghost stream: Bytes, ghost seen: nat, held: Bytes, oversized: bool, limit: nat)
    returns (held': Bytes, oversized': bool, found: bool, ghost seen': nat)
    requires source.Valid() && source.Buffered() != []
    requires Clean(stream, seen) && source.Content() == stream[seen..]
    requires Holding(stream, seen, limit, oversized, held)
    modifies source
    ensures source.Valid() && Holding(stream, seen', limit, oversized', held') && |held'| <= limit
    ensures found ==> seen' == NewlineAt(stream) < |stream| && source.Content() == AfterFirst(stream)
    ensures !found ==> seen < seen' && Clean(stream, seen') && source.Content() == stream[seen'..]
  {
    var available := source.Buffered();
    var chunk := NewlineAt(available);
    Piece(source, stream, seen);
    held', oversized' := Hold(stream, seen, held, oversized, available[..chunk], limit);
    seen', found := seen + chunk, chunk < |available|;
    ConsumePiece(source, stream, seen, chunk, found);
  }

  /** What the buffer shows of the line, in terms of the stream. */
  lemma Piece(source: BufferedSource, stream: Bytes, seen: nat)
    requires Clean(stream, seen) && source.Content() == stream[seen..]
    ensures var available := source.Buffered();
            var chunk := NewlineAt(available);
            && seen + |available| <= |stream| && Clean(stream, seen + chunk)
            && stream[..seen] + available[..chunk] == stream[..seen + chunk]
            && (chunk < |available| ==> NewlineAt(stream) == seen + chunk)
  {
    BufferedIsNext(source, stream, seen);
    Advance(stream, seen, source.Buffered());
  }

  method ConsumePiece(source: BufferedSource, ghost stream: Bytes, ghost seen: nat, chunk: nat, found: bool)
    requires source.Valid() && seen <= |stream| && source.Content() == stream[seen..]
    requires chunk + (if found then 1 else 0) <= |source.Buffered()|
    modifies source
    ensures source.Valid() && seen + chunk + (if found then 1 else 0) <= |stream|
    ensures source.Content() == stream[seen + chunk + (if found then 1 else 0)..]
  {
    if found {
      source.Consume(chunk + 1);
      DropTwice(stream, seen, chunk + 1);
    } else {
      source.Consume(chunk);
      DropTwice(stream, seen, chunk);
    }
  }

  /**
   One line, for any buffering of the stream: what is returned and what is left depend on the stream
   alone, a line is oversized exactly when it is longer than the limit, and `peak`, the most ever
   held, stays within it.
   */
  method ReadBoundedLine(source: BufferedSource, limit: nat) returns (line: Line, held: Bytes, ghost peak: nat)
    requires source.Valid()
    modifies source
    ensures source.Valid()
    ensures Reading(line, held, source.Content()) == NextLine(old(source.Content()), limit)
    ensures peak <= limit
  {
    ghost var stream := source.Content();
    ghost var seen: nat := 0;
    held, peak := [], 0;
    var oversized, readAny := false, false;
    assert stream[0..] == stream;
    while source.Buffered() != []
      invariant source.Valid() && Clean(stream, seen) && source.Content() == stream[seen..]
      invariant readAny <==> seen > 0
      invariant Holding(stream, seen, limit, oversized, held)
      invariant |held| <= peak <= limit
      decreases |stream| - seen
    {
      readAny := true;
      var found: bool;
      held, oversized, found, seen := ReadPiece(source, stream, seen, held, oversized, limit);
      peak := if peak >= |held| then peak else |held|;
      if found {
        NextLineIs(stream, limit, oversized, held);
        line := if oversized then Oversized else Record(true);
        return;
      }
    }
    AtTheEnd(source, stream, seen);
    if readAny {
      NextLineIs(stream, limit, oversized, held);
    }
    line := if !readAny then End else if oversized then Oversized else Record(false);
  }

  lemma BufferedIsNext(source: BufferedSource, stream: Bytes, seen: nat)
    requires seen <= |stream| && source.Content() == stream[seen..]
    ensures seen + |source.Buffered()| <= |stream|
    ensures source.Buffered() == stream[seen..seen + |source.Buffered()|]
  {
    var available := source.Buffered();
    assert available == source.Content()[..|available|];
    assert stream[seen..][..|available|] == stream[seen..seen + |available|];
  }

  lemma AtTheEnd(source: BufferedSource, stream: Bytes, seen: nat)
    requires source.Valid() && source.Buffered() == [] && Clean(stream, seen) && source.Content() == stream[seen..]
    ensures source.Content() == [] && seen == |stream| && NewlineAt(stream) == |stream|
  {
    NewlineIs(stream, |stream|);
  }

  // ----- whole files

  /** A line as the bounded reader reports it, and what it holds of it. */
  datatype Report = Report(line: Line, held: Bytes)

  predicate Reports(got: Report, raw: RawLine, limit: nat) {
    got == if |raw.text| > limit then Report(Oversized, []) else Report(Record(raw.terminated), raw.text)
  }

  /** Every line of a stream as the bounded reader reports it. */
  function ReadAll(stream: Bytes, limit: nat): seq<Report>
    decreases |stream|
  {
    if stream == [] then []
    else
      var first := NextLine(stream, limit);
      [Report(first.line, first.held)] + ReadAll(first.rest, limit)
  }

  /** The lines read are the lines of the stream; exactly those past the limit are oversized. */
  lemma {:induction false} ReadAllIsSplit(stream: Bytes, limit: nat)
    ensures |ReadAll(stream, limit)| == |Split(stream)|
    ensures forall i | 0 <= i < |Split(stream)| :: Reports(ReadAll(stream, limit)[i], Split(stream)[i], limit)
    decreases |stream|
  {
    if stream != [] {
      var got, lines := ReadAll(AfterFirst(stream), limit), Split(AfterFirst(stream));
      ReadAllIsSplit(AfterFirst(stream), limit);
      forall i | 0 <= i < |Split(stream)| ensures Reports(ReadAll(stream, limit)[i], Split(stream)[i], limit) {
        if i > 0 {
          assert ReadAll(stream, limit)[i] == got[i - 1] && Split(stream)[i] == lines[i - 1];
        }
      }
    }
  }

  /** Reads to the end of the source. */
  method ReadRest(source: BufferedSource, limit: nat) returns (got: seq<Report>, ghost peak: nat)
    requires source.Valid()
    modifies source
    ensures source.Valid() && source.Content() == []
    ensures got == ReadAll(old(source.Content()), limit) && peak <= limit
  {
    got, peak := [], 0;
    while true
      invariant source.Valid() && peak <= limit
      invariant got + ReadAll(source.Content(), limit) == ReadAll(old(source.Content()), limit)
      decreases |source.Content()|
    {
      ghost var stream := source.Content();
      var line, held;
      ghost var most;
      line, held, most := ReadBoundedLine(source, limit);
      peak := if peak >= most then peak else most;
      if line == End {
        return;
      }
      OneMoreReport(stream, limit, got);
      got := got + [Report(line, held)];
    }
  }

  lemma OneMoreReport(stream: Bytes, limit: nat, got: seq<Report>)
    requires stream != []
    ensures var first := NextLine(stream, limit);
            && |first.rest| < |stream|
            && got + ReadAll(stream, limit) == (got + [Report(first.line, first.held)]) + ReadAll(first.rest, limit)
  {
  }

  /** What a read starting in the middle processes: the first line, which may be partial, is skipped. */
  function TailLines(file: Bytes, start: nat): seq<RawLine>
    requires start <= |file|
  {
    if start == 0 then Split(file)
    else
      var lines := Split(file[start..]);
      if lines == [] then [] else lines[1..]
  }

  lemma NewlineInSuffix(file: Bytes, start: nat)
    requires start <= NewlineAt(file)
    ensures NewlineAt(file[start..]) == NewlineAt(file) - start
  {
    var n := NewlineAt(file);
    assert Clean(file[start..], n - start);
    NewlineIs(file[start..], n - start);
  }

  lemma AfterFirstInSuffix(file: Bytes, start: nat)
    requires start <= NewlineAt(file)
    ensures AfterFirst(file[start..]) == AfterFirst(file)
  {
    var n := NewlineAt(file);
    NewlineInSuffix(file, start);
    if n < |file| {
      DropTwice(file, start, n - start + 1);
    }
  }

  lemma DropTwice<T>(xs: seq<T>, i: nat, j: nat)
    requires i + j <= |xs|
    ensures xs[i..][j..] == xs[i + j..]
  {
  }

  /** Starting inside the first line leaves the lines after it. */
  lemma TailFromFirstLine(file: Bytes, start: nat)
    requires 0 < start < |file| && start <= NewlineAt(file)
    ensures TailLines(file, start) == Split(AfterFirst(file))
  {
    AfterFirstInSuffix(file, start);
    DropPastFirst(FirstLine(file[start..]), Split(AfterFirst(file)), 0);
  }

  /** Starting after the first line is starting that much later in what follows it. */
  lemma TailAfterFirstLine(file: Bytes, start: nat)
    requires NewlineAt(file) < start < |file|
    ensures start - NewlineAt(file) - 1 < |AfterFirst(file)|
    ensures file[start..] == AfterFirst(file)[start - NewlineAt(file) - 1..]
  {
  }

  lemma DropPastFirst<T>(x: T, xs: seq<T>, k: nat)
    requires k <= |xs|
    ensures ([x] + xs)[k + 1..] == xs[k..]
  {
  }

  /** A tail read from any offset processes the whole file's lines from some line on. */
  lemma {:induction false} TailIsASuffix(file: Bytes, start: nat) returns (k: nat)
    requires start <= |file|
    ensures k <= |Split(file)| && TailLines(file, start) == Split(file)[k..] && (start == 0 ==> k == 0)
    decreases |file|
  {
    if start == 0 {
      k := 0;
    } else if start == |file| {
      k := |Split(file)|;
    } else {
      var later := AfterFirst(file);
      if start <= NewlineAt(file) {
        TailFromFirstLine(file, start);
        k := 1;
      } else {
        var rest := start - NewlineAt(file) - 1;
        TailAfterFirstLine(file, start);
        if rest == 0 {
          assert later[0..] == later;
          k := 2;
          DropPastFirst(FirstLine(file), Split(later), 1);
        } else {
          var n := TailIsASuffix(later, rest);
          k := n + 1;
          DropPastFirst(FirstLine(file), Split(later), n);
        }
      }
    }
  }

  /** What is left after the line a read that starts in the middle drops. */
  function AfterSkip(file: Bytes, start: nat): Bytes
    requires start <= |file|
  {
    if start == 0 then file else NextLine(file[start..], 0).rest
  }

  lemma TailIsSplit(file: Bytes, start: nat)
    requires start <= |file|
    ensures TailLines(file, start) == Split(AfterSkip(file, start))
  {
    if start > 0 && start < |file| {
      DropPastFirst(FirstLine(file[start..]), Split(AfterFirst(file[start..])), 0);
    }
  }

  /**
   Reading from an offset, through any buffering: one line dropped when the offset is not the beginning,
   then every line to the end. What is got is each line of the file from some line on, in order, and no
   more than the limit is ever held.
   */
  method ReadFrom(source: BufferedSource, ghost file: Bytes, start: nat, limit: nat)
    returns (got: seq<Report>, ghost k: nat, ghost peak: nat)
    requires source.Valid() && start <= |file| && source.Content() == file[start..]
    modifies source
    ensures k <= |Split(file)| && |got| == |Split(file)| - k && (start == 0 ==> k == 0)
    ensures forall i | 0 <= i < |got| :: Reports(got[i], Split(file)[k + i], limit)
    ensures peak <= limit
  {
    ghost var first := 0;
    if start > 0 {
      var line, held;
      line, held, first := ReadBoundedLine(source, limit);
    } else {
      assert file[0..] == file;
    }
    assert source.Content() == AfterSkip(file, start);
    got, peak := ReadRest(source, limit);
    peak := if peak >= first then peak else first;
    TailIsSplit(file, start);
    k := TailIsASuffix(file, start);
    ReadAllIsSplit(AfterSkip(file, start), limit);
    assert forall i | 0 <= i < |got| :: Split(file)[k..][i] == Split(file)[k + i];
  }
}

/**
 The streaming transcript mapper: an incremental bounded deque with a source index, against
 mapping everything first and then keeping the newest part that fits.
 */
module HistoryMapper {
  import opened Wrappers
  import opened Sequences
  import opened Suffixes
  import opened Indexing
  import opened HistoryEntries

  const HISTORY_BOUND := Bound(4096, 4 * 1024 * 1024)

  /** A step of the read: an operation, or a record that could not be read at all. */
  datatype Step = Map(op: Operation) | Hole

  // ----- mapping everything

  /** The unbounded mapping: one row a source, in order of first appearance, updated in place. */
  function Batched(preview: Previewer, rows: seq<Record>, step: Step): seq<Record> {
    match step
    case Hole => rows
    case Map(op) =>
      var i := IndexOfKey(SourceOf, rows, op.source);
      if i < |rows| then rows[i := Updated(preview, Some(rows[i]), op)]
      else rows + [Updated(preview, None, op)]
  }

  function Batch(preview: Previewer, steps: seq<Step>): seq<Record> {
    if steps == [] then [] else Batched(preview, Batch(preview, steps[..|steps| - 1]), steps[|steps| - 1])
  }

  function KeptFrom(rows: seq<Record>): (k: nat)
    ensures k <= |rows|
  {
    Cut(RecordBytes, HISTORY_BOUND, rows)
  }

  // ----- streaming

  datatype Stream = Stream(rows: seq<Record>, base: nat, evicted: set<string>, truncated: bool)

  function EvictedOldest(st: Stream): Stream
    requires st.rows != []
  {
    Stream(st.rows[1..], st.base + 1, st.evicted + {st.rows[0].sourceId}, true)
  }

  function Trimmed(st: Stream): Stream
    decreases |st.rows|
  {
    if Fits(RecordBytes, HISTORY_BOUND, st.rows) then st else Trimmed(EvictedOldest(st))
  }

  function Emptied(st: Stream): Stream
    decreases |st.rows|
  {
    if st.rows == [] then st.(truncated := true) else Emptied(EvictedOldest(st))
  }

  function Streamed(preview: Previewer, st: Stream, step: Step): Stream {
    match step
    case Hole => Emptied(st)
    case Map(op) =>
      if op.source in st.evicted then st else Trimmed(st.(rows := Batched(preview, st.rows, step)))
  }

  function Fresh(truncated: bool): Stream {
    Stream([], 0, {}, truncated)
  }

  function StreamAll(preview: Previewer, truncated: bool, steps: seq<Step>): Stream {
    if steps == [] then Fresh(truncated)
    else Streamed(preview, StreamAll(preview, truncated, steps[..|steps| - 1]), steps[|steps| - 1])
  }

  // ----- the object

  datatype History = History(entries: seq<Record>, complete: bool)

  /** `rows[i]` and `sizes[i]` are the two halves of one slot. */
  class Mapper {
    const preview: Previewer
    var rows: seq<Record>
    var sizes: seq<nat>
    var base: nat
    var bySource: map<string, nat>
    var evicted: set<string>
    var bytes: nat
    var truncated: bool

    /** The index names exactly the live rows, at base plus position; the counter is their size. */
    ghost predicate Valid()
      reads this
    {
      Booked(SourceOf, RecordBytes, rows, sizes, base, bySource, evicted, bytes)
    }

    function View(): Stream
      reads this
    {
      Stream(rows, base, evicted, truncated)
    }

    constructor (preview: Previewer, truncated: bool)
      ensures Valid() && View() == Fresh(truncated) && this.preview == preview
    {
      this.preview := preview;
      rows, sizes, base, bySource, evicted, bytes := [], [], 0, map[], {}, 0;
      this.truncated := truncated;
    }

    method EvictOldest()
      requires Valid() && rows != []
      modifies this
      ensures Valid() && View() == EvictedOldest(old(View()))
    {
      var source := rows[0].sourceId;
      BookedRest(SourceOf, RecordBytes, rows, sizes, base, bySource, evicted, bytes);
      bytes := bytes - sizes[0];
      rows, sizes := rows[1..], sizes[1..];
      base := base + 1;
      bySource := Without(bySource, source);
      evicted := evicted + {source};
      truncated := true;
    }

    method Trim()
      requires Valid()
      modifies this
      ensures Valid() && View() == Trimmed(old(View()))
    {
      while |rows| > HISTORY_BOUND.count || bytes > HISTORY_BOUND.total
        invariant Valid() && Trimmed(View()) == Trimmed(old(View()))
        decreases |rows|
      {
        EvictOldest();
      }
    }

    method ReadHole()
      requires Valid()
      modifies this
      ensures Valid() && View() == Streamed(preview, old(View()), Hole)
    {
      while rows != []
        invariant Valid() && Emptied(View()) == Emptied(old(View()))
        decreases |rows|
      {
        EvictOldest();
      }
      truncated := true;
    }

    method Replace(i: nat, record: Record)
      requires Valid() && i < |rows| && record.sourceId == rows[i].sourceId
      modifies this`rows, this`sizes, this`bytes
      ensures Valid() && rows == old(rows)[i := record]
    {
      var size := RecordBytes(record);
      BookedUpdate(SourceOf, RecordBytes, rows, sizes, base, bySource, evicted, bytes, i, record);
      bytes := bytes - sizes[i] + size;
      rows, sizes := rows[i := record], sizes[i := size];
    }

    method Append(record: Record)
      requires Valid() && record.sourceId !in bySource && record.sourceId !in evicted
      modifies this`rows, this`sizes, this`bytes, this`bySource
      ensures Valid() && rows == old(rows) + [record]
    {
      var size := RecordBytes(record);
      BookedAppend(SourceOf, RecordBytes, rows, sizes, base, bySource, evicted, bytes, record);
      bytes := bytes + size;
      bySource := bySource[record.sourceId := base + |rows|];
      rows, sizes := rows + [record], sizes + [size];
    }

    method Upsert(op: Operation)
      requires Valid()
      modifies this
      ensures Valid() && View() == Streamed(preview, old(View()), Map(op))
    {
      if op.source in evicted {
        return;
      }
      Place(op);
      Trim();
    }

    method Place(op: Operation)
      requires Valid() && op.source !in evicted
      modifies this`rows, this`sizes, this`bytes, this`bySource
      ensures Valid() && rows == Batched(preview, old(rows), Map(op))
    {
      IndexFinds(SourceOf, rows, base, bySource, op.source);
      if op.source in bySource {
        var i := bySource[op.source] - base;
        Replace(i, Updated(preview, Some(rows[i]), op));
      } else {
        Append(Updated(preview, None, op));
      }
    }

    method Finish() returns (history: History)
      ensures history == Finished(View())
    {
      history := History([], !truncated);
      for i := 0 to |rows|
        invariant history == FinishedUpTo(View(), i)
      {
        var record := Settled(rows[i]);
        var valid := ValidRecord(record);
        history := if valid then history.(entries := history.entries + [record]) else History([], false);
      }
    }
  }

  /** The history after finishing the first `n` rows: an invalid row discards what came before it. */
  function FinishedUpTo(st: Stream, n: nat): History
    requires n <= |st.rows|
  {
    if n == 0 then History([], !st.truncated)
    else
      var before := FinishedUpTo(st, n - 1);
      var record := Settled(st.rows[n - 1]);
      if ValidRecord(record) then before.(entries := before.entries + [record]) else History([], false)
  }

  function Finished(st: Stream): History {
    FinishedUpTo(st, |st.rows|)
  }
}

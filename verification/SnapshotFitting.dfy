/**
 A snapshot that encodes within one frame: every entry at its wire size, then the oldest dropped
 and said to be, then the newest cut against the snapshot itself.
 */
module SnapshotFitting {
  import opened Wrappers
  import opened Protocol
  import opened Encoding
  import opened Fitting

  type SnapshotMeasure = Snapshot -> nat

  function FitEach(entries: seq<Entry>): seq<Entry> {
    seq(|entries|, i requires 0 <= i < |entries| => FitAlone(entries[i]))
  }

  function WithEntries(s: Snapshot, entries: seq<Entry>): Snapshot {
    s.(window := s.window.(entries := entries))
  }

  /** The snapshot with its `k` oldest entries dropped, and said to be. */
  function Cropped(s: Snapshot, k: nat): Snapshot
    requires k <= |s.window.entries|
  {
    if k == 0 then s
    else
      var rest := s.window.entries[k..];
      s.(window := s.window.(entries := rest, hasOlder := true, truncated := true,
                             oldestSequence := FirstSequence(rest)))
  }

  /** Measures the snapshot around a candidate for its only entry. */
  function AroundNewest(s: Snapshot, measure: SnapshotMeasure): Measure {
    (e: Entry) => measure(WithEntries(s, [e]))
  }

  function Drop(s: Snapshot, measure: SnapshotMeasure): Snapshot
    decreases |s.window.entries|
  {
    var entries := s.window.entries;
    if measure(s) <= MAX_FRAME_BYTES || entries == [] then s
    else if |entries| == 1 then WithEntries(s, [Fit(entries[0], AroundNewest(s, measure))])
    else Drop(Cropped(s, 1), measure)
  }

  function FitSnapshot(s: Snapshot, measure: SnapshotMeasure): Snapshot {
    Drop(WithEntries(s, FitEach(s.window.entries)), measure)
  }

  method FitEveryEntry(entries: seq<Entry>) returns (wire: seq<Entry>)
    ensures wire == FitEach(entries)
  {
    wire := entries;
    for i := 0 to |entries|
      invariant |wire| == |entries|
      invariant forall j | 0 <= j < i :: wire[j] == FitAlone(entries[j])
      invariant forall j | i <= j < |entries| :: wire[j] == entries[j]
    {
      wire := wire[i := FitAlone(wire[i])];
    }
  }

  method FitSnapshotToFrame(s: Snapshot, measure: SnapshotMeasure) returns (fitted: Snapshot)
    ensures fitted == FitSnapshot(s, measure)
  {
    var wire := FitEveryEntry(s.window.entries);
    fitted := WithEntries(s, wire);
    while measure(fitted) > MAX_FRAME_BYTES
      invariant Drop(fitted, measure) == FitSnapshot(s, measure)
      decreases |fitted.window.entries|
    {
      var window := fitted.window;
      if |window.entries| <= 1 {
        if window.entries == [] {
          break;
        }
        var newest := FitEntryToFrame(window.entries[0], AroundNewest(fitted, measure));
        fitted := WithEntries(fitted, [newest]);
        return;
      }
      window := window.(entries := window.entries[1..]);
      window := window.(hasOlder := true, truncated := true, oldestSequence := FirstSequence(window.entries));
      fitted := fitted.(window := window);
    }
  }

  // ----- what is kept

  /** `r` is `s` with its `k` oldest dropped, the newest refitted only if it is the last one left. */
  predicate KeptFrom(s: Snapshot, k: nat, r: Snapshot, measure: SnapshotMeasure)
    requires k <= |s.window.entries|
  {
    var cropped := Cropped(s, k);
    if measure(cropped) <= MAX_FRAME_BYTES || cropped.window.entries == [] then r == cropped
    else
      && |cropped.window.entries| == 1
      && r == WithEntries(cropped, [Fit(cropped.window.entries[0], AroundNewest(cropped, measure))])
  }

  lemma CropTwice(s: Snapshot, k: nat)
    requires 1 <= |s.window.entries| && k + 1 <= |s.window.entries|
    ensures Cropped(Cropped(s, 1), k) == Cropped(s, k + 1)
  {
    assert s.window.entries[1..][k..] == s.window.entries[k + 1..];
  }

  lemma {:induction false} DropExactly(s: Snapshot, measure: SnapshotMeasure) returns (k: nat)
    ensures k <= |s.window.entries| && (s.window.entries != [] ==> k < |s.window.entries|)
    ensures KeptFrom(s, k, Drop(s, measure), measure)
    ensures forall j | 0 <= j < k :: measure(Cropped(s, j)) > MAX_FRAME_BYTES
    decreases |s.window.entries|
  {
    if measure(s) <= MAX_FRAME_BYTES || |s.window.entries| <= 1 {
      k := 0;
    } else {
      assert Drop(s, measure) == Drop(Cropped(s, 1), measure);
      var n := DropExactly(Cropped(s, 1), measure);
      k := n + 1;
      CropTwice(s, n);
      forall j | 0 <= j < k ensures measure(Cropped(s, j)) > MAX_FRAME_BYTES {
        if j > 0 {
          CropTwice(s, j - 1);
        }
      }
    }
  }

  /**
   Snapshot fitting: the entries kept are the individually fitted newest suffix, the drop stops at
   the first suffix that fits, and a non-empty window never loses its newest entry.
   */
  lemma FitSnapshotKeepsTheNewest(s: Snapshot, measure: SnapshotMeasure) returns (k: nat)
    ensures var wire := WithEntries(s, FitEach(s.window.entries));
            && k <= |wire.window.entries| && (s.window.entries != [] ==> k < |s.window.entries|)
            && KeptFrom(wire, k, FitSnapshot(s, measure), measure)
            && forall j | 0 <= j < k :: measure(Cropped(wire, j)) > MAX_FRAME_BYTES
  {
    k := DropExactly(WithEntries(s, FitEach(s.window.entries)), measure);
  }

  /** Either the frame fits, or all that is left is one entry with nothing more to give up. */
  lemma FitsOrIrreducible(s: Snapshot, measure: SnapshotMeasure)
    ensures var r := FitSnapshot(s, measure);
            || measure(r) <= MAX_FRAME_BYTES
            || r.window.entries == []
            || (|r.window.entries| == 1 && Shrinkable(r.window.entries[0]) == 0)
  {
    var wire := WithEntries(s, FitEach(s.window.entries));
    var k := DropExactly(wire, measure);
    var cropped := Cropped(wire, k);
    if |cropped.window.entries| == 1 {
      var newest := cropped.window.entries[0];
      var around := AroundNewest(cropped, measure);
      RefitShortens(Headed(newest), Whole(newest), around);
    }
  }

  /** An entry with nothing more to give up: no text, or no previews. */
  function Smallest(e: Entry): Body {
    match e.body
    case TextContent(_) => TextContent("")
    case ToolContent(tool) => ToolContent(tool.(inputPreview := None, resultPreview := None))
    case _ => e.body
  }

  /** What an entry says once something was cut from it. */
  function NamedAsCut(e: Entry, whole: nat): Truncation {
    if e.body.TextContent? then HeadOf(whole)
    else if e.body.ToolContent? && !e.truncation.truncated then PREVIEW_BOUNDED
    else e.truncation
  }

  /** The frame holds the entry at its smallest, named as cut or not. */
  ghost predicate SmallestFits(newest: Entry, around: Measure) {
    var h := Headed(newest);
    && around(h.(body := Smallest(h))) <= MAX_FRAME_BYTES
    && around(h.(body := Smallest(h), truncation := NamedAsCut(h, Whole(newest)))) <= MAX_FRAME_BYTES
  }

  lemma NothingLeftIsSmallest(e: Entry, r: Entry, whole: nat)
    requires Shortens(e, r, whole) && Shrinkable(r) == 0
    ensures r == e.(body := Smallest(e)) || r == e.(body := Smallest(e), truncation := NamedAsCut(e, whole))
  {
  }

  /** Any entry whose frame holds it at its smallest is fitted, whatever measures the frame. */
  lemma SmallestIsEnough(newest: Entry, around: Measure)
    requires SmallestFits(newest, around)
    ensures around(Fit(newest, around)) <= MAX_FRAME_BYTES
  {
    var h, r := Headed(newest), Fit(newest, around);
    RefitShortens(h, Whole(newest), around);
    if Shrinkable(r) == 0 {
      NothingLeftIsSmallest(h, r, Whole(newest));
    }
  }

  /** In particular the frame fits whenever it would fit with the newest entry at its smallest. */
  lemma FitsWhenTheSmallestDoes(s: Snapshot, measure: SnapshotMeasure)
    requires s.window.entries != []
    requires var newest := FitAlone(s.window.entries[|s.window.entries| - 1]);
             var last := Cropped(WithEntries(s, FitEach(s.window.entries)), |s.window.entries| - 1);
             SmallestFits(newest, AroundNewest(last, measure))
    ensures measure(FitSnapshot(s, measure)) <= MAX_FRAME_BYTES
  {
    var wire := WithEntries(s, FitEach(s.window.entries));
    var k := DropExactly(wire, measure);
    var cropped := Cropped(wire, k);
    if measure(cropped) > MAX_FRAME_BYTES {
      assert k == |s.window.entries| - 1;
      var newest := cropped.window.entries[0];
      assert newest == FitAlone(s.window.entries[k]);
      var around := AroundNewest(cropped, measure);
      SmallestIsEnough(newest, around);
      assert FitSnapshot(s, measure) == WithEntries(cropped, [Fit(newest, around)]);
    }
  }

  // ----- the window stays a window

  /** A window of what the host holds: valid but for bodies longer than a head. */
  predicate HeldWindow(w: Window) {
    && |w.entries| <= MAX_WINDOW_ENTRIES
    && ValidOptionalToken(w.historyBoundary)
    && (forall i | 0 <= i < |w.entries| :: Retained(w.entries[i]))
    && Ascending(w.entries)
    && w.oldestSequence == FirstSequence(w.entries)
    && w.newestSequence == LastSequence(w.entries)
  }

  lemma AloneIsValid(e: Entry)
    requires Retained(e)
    ensures FitAlone(e).Valid() && Retained(FitAlone(e)) && FitAlone(e).sequence == e.sequence
  {
    FastPathRefinesSlowPath(e);
    FitIsValid(e, AloneSize);
  }

  lemma EachIsValid(w: Window)
    requires HeldWindow(w)
    ensures w.(entries := FitEach(w.entries)).Valid()
  {
    EachEntryIsValid(w.entries);
    SameSequences(w, FitEach(w.entries));
  }

  /** Valid entries with the sequences of a held window make a valid one. */
  lemma SameSequences(w: Window, es: seq<Entry>)
    requires HeldWindow(w) && |es| == |w.entries|
    requires forall i | 0 <= i < |es| :: es[i].Valid() && es[i].sequence == w.entries[i].sequence
    ensures w.(entries := es).Valid()
  {
  }

  lemma EachEntryIsValid(es: seq<Entry>)
    requires forall i | 0 <= i < |es| :: Retained(es[i])
    ensures forall i | 0 <= i < |es| :: FitEach(es)[i].Valid() && FitEach(es)[i].sequence == es[i].sequence
  {
    forall i | 0 <= i < |es| ensures FitEach(es)[i].Valid() && FitEach(es)[i].sequence == es[i].sequence {
      AloneIsValid(es[i]);
    }
  }

  lemma CroppedIsValid(s: Snapshot, k: nat)
    requires s.window.Valid() && k <= |s.window.entries| && (s.window.entries != [] ==> k < |s.window.entries|)
    ensures Cropped(s, k).window.Valid()
  {
    var rest := s.window.entries[k..];
    assert forall i | 0 <= i < |rest| :: rest[i] == s.window.entries[k + i];
  }

  lemma LastFitIsValid(s: Snapshot, newest: Entry)
    requires s.window.Valid() && |s.window.entries| == 1
    requires newest.Valid() && newest.sequence == s.window.entries[0].sequence
    ensures WithEntries(s, [newest]).window.Valid()
  {
  }

  /**
   The fitted window is a valid wire window and says truthfully whether it has older entries; nothing outside
   the window changes.
   */
  lemma FitSnapshotIsValid(s: Snapshot, measure: SnapshotMeasure)
    requires HeldWindow(s.window)
    ensures var w := FitSnapshot(s, measure).window;
            && w.Valid()
            && (w.hasOlder <==> s.window.hasOlder || |w.entries| < |s.window.entries|)
            && (w.truncated <==> s.window.truncated || |w.entries| < |s.window.entries|)
            && w.newestSequence == s.window.newestSequence && w.historyBoundary == s.window.historyBoundary
            && FitSnapshot(s, measure) == s.(window := w)
  {
    var wire := WithEntries(s, FitEach(s.window.entries));
    EachIsValid(s.window);
    var k := DropExactly(wire, measure);
    CroppedIsValid(wire, k);
    var cropped := Cropped(wire, k);
    if measure(cropped) > MAX_FRAME_BYTES && cropped.window.entries != [] {
      var newest := cropped.window.entries[0];
      var around := AroundNewest(cropped, measure);
      AloneIsValid(s.window.entries[k]);
      FitIsValid(newest, around);
      LastFitIsValid(cropped, Fit(newest, around));
    }
  }
}

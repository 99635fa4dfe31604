/**
 The Pi extension's side of a snapshot: entries fitted to the daemon's frame, and the newest part
 of the history that fits the daemon's bound. Proved to be what the dispatcher accepts.
 */
module PiSnapshot {
  import opened Wrappers
  import opened Numbers
  import opened Text
  import Suffixes
  import Dispatcher

  const MAX_FRAME_BYTES := 65_536
  const MAX_TEXT_BYTES := 49_152
  const MAX_RETAINED_TEXT_BYTES := 1_048_576
  const MAX_SNAPSHOT_BYTES := 4_194_304
  const MAX_SNAPSHOT_ENTRIES := 4096

  datatype Body =
    | Prose(text: string)
    | Tool(name: string, status: string, inputPreview: Option<string>, resultPreview: Option<string>)
    | Unsupported(reasonCode: string)

  datatype Truncation = Truncation(truncated: bool, reasonCode: Option<string>, originalBytes: Option<nat>)

  datatype BridgeEntry = BridgeEntry(
    sourceId: string, sourceRevision: nat, timestamp: nat, state: string, kind: string,
    body: Body, truncation: Truncation)

  /** Encoded size of the frame carrying an entry. */
  type Measure = BridgeEntry -> nat

  function OptionBytes(s: Option<string>): nat {
    if s.Some? then ByteLen(s.value) else 0
  }

  /** What the daemon counts for an entry. */
  function DecodedBytes(e: BridgeEntry): nat {
    match e.body
    case Prose(text) => ByteLen(text)
    case Tool(name, status, input, result) => ByteLen(name) + ByteLen(status) + OptionBytes(input) + OptionBytes(result)
    case Unsupported(reasonCode) => ByteLen(reasonCode)
  }

  /** What the extension counts for it: text only as far as the daemon keeps it. */
  function ContentBytes(textBytes: nat): BridgeEntry -> nat {
    (e: BridgeEntry) => if e.body.Prose? && ByteLen(e.body.text) > textBytes then textBytes else DecodedBytes(e)
  }

  function TextBytesFor(frameBytes: nat): nat {
    if frameBytes > MAX_FRAME_BYTES then MAX_RETAINED_TEXT_BYTES else MAX_TEXT_BYTES
  }

  // ----- fitting one entry

  function NamedCut(previous: Truncation, originalBytes: nat): Truncation {
    var known := Max(if previous.originalBytes.Some? then previous.originalBytes.value else 0, originalBytes);
    Truncation(true, Some("adapter_bound"), if known > 0 then Some(known) else None)
  }

  const PREVIEW_BOUNDED := Truncation(true, Some("preview_bounded"), None)

  function Whole(e: BridgeEntry): nat {
    if e.body.Prose? then ByteLen(e.body.text) else 0
  }

  /** Text cut to what the daemon keeps. */
  function Headed(e: BridgeEntry, textBytes: nat): BridgeEntry {
    if e.body.Prose? && ByteLen(e.body.text) > textBytes then
      e.(body := Prose(e.body.text[..LongestWithin(CharBytes, e.body.text, textBytes)]),
         truncation := NamedCut(e.truncation, Whole(e)))
    else e
  }

  function Shrinkable(e: BridgeEntry): nat {
    match e.body
    case Prose(text) => |text|
    case Tool(_, _, input, result) => (if input.Some? then 1 else 0) + (if result.Some? then 1 else 0)
    case Unsupported(_) => 0
  }

  function Budget(frameBytes: nat, size: nat, text: string): nat {
    Max(0, if frameBytes + JsonLen(text) >= size then frameBytes + JsonLen(text) - size else 0)
  }

  function Shrunk(e: BridgeEntry, frameBytes: nat, whole: nat, size: nat): (r: BridgeEntry)
    requires Shrinkable(e) > 0
    ensures Shrinkable(r) < Shrinkable(e)
  {
    match e.body
    case Prose(text) =>
      var keep := LongestWithin(EscapedBytes, text, Budget(frameBytes, size, text));
      e.(body := Prose(if keep < |text| then text[..keep] else ""), truncation := NamedCut(e.truncation, whole))
    case Tool(name, status, input, result) =>
      e.(body := if result.Some? then e.body.(resultPreview := None) else e.body.(inputPreview := None),
         truncation := if e.truncation.truncated then e.truncation else PREVIEW_BOUNDED)
  }

  function Refit(measure: Measure, frameBytes: nat, whole: nat, e: BridgeEntry): BridgeEntry
    decreases Shrinkable(e)
  {
    if measure(e) <= frameBytes || Shrinkable(e) == 0 then e
    else Refit(measure, frameBytes, whole, Shrunk(e, frameBytes, whole, measure(e)))
  }

  function Fit(measure: Measure, frameBytes: nat, e: BridgeEntry): BridgeEntry {
    Refit(measure, frameBytes, Whole(e), Headed(e, TextBytesFor(frameBytes)))
  }

  method FitEntryFrame(measure: Measure, entry: BridgeEntry, frameBytes: nat) returns (fitted: BridgeEntry)
    ensures fitted == Fit(measure, frameBytes, entry)
  {
    var textBytes := TextBytesFor(frameBytes);
    fitted := entry;
    if fitted.body.Prose? && ByteLen(fitted.body.text) > textBytes {
      var k := FloorCharBoundary(fitted.body.text, textBytes);
      fitted := fitted.(body := Prose(fitted.body.text[..k]), truncation := NamedCut(fitted.truncation, Whole(entry)));
    }
    while true
      invariant Refit(measure, frameBytes, Whole(entry), fitted) == Fit(measure, frameBytes, entry)
      decreases Shrinkable(fitted)
    {
      var size := measure(fitted);
      if size <= frameBytes || Shrinkable(fitted) == 0 {
        return;
      }
      fitted := Shrunk(fitted, frameBytes, Whole(entry), size);
    }
  }

  /** What fitting keeps of an entry: a prefix of its text, or its tool with fewer previews. */
  ghost predicate Reduces(e: BridgeEntry, r: BridgeEntry) {
    && r.(body := e.body, truncation := e.truncation) == e
    && match e.body
       case Prose(text) => r.body.Prose? && r.body.text <= text
       case Tool(name, status, input, result) =>
         && r.body.Tool? && r.body.name == name && r.body.status == status
         && (r.body.inputPreview == input || r.body.inputPreview.None?)
         && (r.body.resultPreview == result || r.body.resultPreview.None?)
       case Unsupported(_) => r.body == e.body
  }

  /** Anything cut says so, and names the size of what it was cut from. */
  ghost predicate Named(e: BridgeEntry, r: BridgeEntry) {
    r.body != e.body ==>
      && r.truncation.truncated
      && (e.body.Prose? ==>
            && r.truncation.reasonCode == Some("adapter_bound")
            && r.truncation.originalBytes.Some? && r.truncation.originalBytes.value >= Whole(e))
  }

  lemma ReducesIsLighter(e: BridgeEntry, r: BridgeEntry)
    requires Reduces(e, r)
    ensures DecodedBytes(r) <= DecodedBytes(e)
  {
    if e.body.Prose? {
      var text, n := e.body.text, |r.body.text|;
      WeightMonotone(CharBytes, text, n, |text|);
      assert text[..n] == r.body.text && text[..|text|] == text;
    }
  }

  lemma ShrunkReduces(origin: BridgeEntry, e: BridgeEntry, frameBytes: nat, size: nat)
    requires Reduces(origin, e) && Shrinkable(e) > 0
    ensures var r := Shrunk(e, frameBytes, Whole(origin), size);
            Reduces(origin, r) && Named(origin, r) && DecodedBytes(r) <= DecodedBytes(e)
  {
    var r := Shrunk(e, frameBytes, Whole(origin), size);
    assert Reduces(e, r);
    ReducesIsLighter(e, r);
    if origin.body.Prose? {
      JsonLenBounds(origin.body.text);
    }
  }

  /** Fitting ends with a frame that fits or with nothing left to give up. */
  lemma {:induction false} RefitReduces(measure: Measure, frameBytes: nat, origin: BridgeEntry, e: BridgeEntry)
    requires Reduces(origin, e) && Named(origin, e)
    ensures var r := Refit(measure, frameBytes, Whole(origin), e);
            && Reduces(origin, r) && Named(origin, r) && DecodedBytes(r) <= DecodedBytes(e)
            && (measure(r) <= frameBytes || Shrinkable(r) == 0)
    decreases Shrinkable(e)
  {
    if !(measure(e) <= frameBytes || Shrinkable(e) == 0) {
      ShrunkReduces(origin, e, frameBytes, measure(e));
      RefitReduces(measure, frameBytes, origin, Shrunk(e, frameBytes, Whole(origin), measure(e)));
    }
  }

  /**
   Text longer than the daemon keeps, 48 KiB or one MiB by the frame it granted, is cut to the longest prefix
   it does keep, and says how long it was, or was said to be before.
   */
  lemma HeadedIsLongest(e: BridgeEntry, frameBytes: nat)
    ensures var textBytes := if frameBytes > 65_536 then 1_048_576 else 49_152;
            var h := Headed(e, TextBytesFor(frameBytes));
            if e.body.Prose? && ByteLen(e.body.text) > textBytes then
              && h.body.Prose? && LongestPrefix(h.body.text, e.body.text, textBytes)
              && h.truncation.truncated && h.truncation.reasonCode == Some("adapter_bound")
              && h.truncation.originalBytes ==
                 Some(Max(if e.truncation.originalBytes.Some? then e.truncation.originalBytes.value else 0,
                          ByteLen(e.body.text)))
              && h.(body := e.body, truncation := e.truncation) == e
            else h == e
  {
    if e.body.Prose? {
      LongestWithinIsLongest(e.body.text, TextBytesFor(frameBytes));
    }
  }

  /** What is counted for an entry is what is kept of it, or up to three bytes more. */
  lemma CountIsTight(e: BridgeEntry, textBytes: nat)
    ensures var kept, counted := DecodedBytes(Headed(e, textBytes)), ContentBytes(textBytes)(e);
            kept <= counted <= kept + 3
  {
    if e.body.Prose? && ByteLen(e.body.text) > textBytes {
      var text, k := e.body.text, LongestWithin(CharBytes, e.body.text, textBytes);
      assert text[..|text|] == text;
      FitsIffShorter(CharBytes, text, textBytes, k + 1);
      WeightSplit(CharBytes, text, k, k + 1);
      JsonLenBounds(text[k..k + 1]);
    }
  }

  /** A tool card with less to show, and the loss named. */
  function WithLess(e: BridgeEntry, input: Option<string>, result: Option<string>): BridgeEntry
    requires e.body.Tool?
  {
    var body := e.body.(inputPreview := input, resultPreview := result);
    e.(body := body,
       truncation := if body == e.body || e.truncation.truncated then e.truncation
                     else Truncation(true, Some("preview_bounded"), None))
  }

  /** A tool gives up its result first, then its input too, and neither unless the frame is too long with it. */
  lemma ToolGivesUpInOrder(measure: Measure, frameBytes: nat, e: BridgeEntry)
    requires e.body.Tool?
    ensures var input := e.body.inputPreview;
            Fit(measure, frameBytes, e) ==
            if measure(e) <= frameBytes then e
            else if measure(WithLess(e, input, None)) <= frameBytes then WithLess(e, input, None)
            else WithLess(e, None, None)
  {
    assert e.body == e.body.(inputPreview := e.body.inputPreview, resultPreview := e.body.resultPreview);
    if measure(e) > frameBytes && Shrinkable(e) > 0 {
      var once := Shrunk(e, frameBytes, 0, measure(e));
      if e.body.resultPreview.Some? {
        assert once == WithLess(e, e.body.inputPreview, None);
        if measure(once) > frameBytes && Shrinkable(once) > 0 {
          assert Shrunk(once, frameBytes, 0, measure(once)) == WithLess(e, None, None);
          assert Refit(measure, frameBytes, 0, once) == Refit(measure, frameBytes, 0, WithLess(e, None, None));
        }
      } else {
        assert once == WithLess(e, None, None);
      }
      assert Refit(measure, frameBytes, 0, e) == Refit(measure, frameBytes, 0, once);
      assert Refit(measure, frameBytes, 0, WithLess(e, None, None)) == WithLess(e, None, None);
    }
  }

  lemma HeadedReduces(e: BridgeEntry, textBytes: nat)
    ensures Reduces(e, Headed(e, textBytes)) && Named(e, Headed(e, textBytes))
    ensures DecodedBytes(Headed(e, textBytes)) <= ContentBytes(textBytes)(e)
  {
  }

  lemma FitReduces(measure: Measure, frameBytes: nat, e: BridgeEntry)
    ensures var r := Fit(measure, frameBytes, e);
            && Reduces(e, r) && Named(e, r)
            && (measure(r) <= frameBytes || Shrinkable(r) == 0)
            && DecodedBytes(r) <= ContentBytes(TextBytesFor(frameBytes))(e)
  {
    HeadedReduces(e, TextBytesFor(frameBytes));
    RefitReduces(measure, frameBytes, e, Headed(e, TextBytesFor(frameBytes)));
  }

  // ----- the budget is exact

  ghost predicate LinearAt(measure: Measure, e: BridgeEntry, envelope: nat, text: string) {
    measure(e.(body := Prose(text))) == envelope + JsonLen(text)
  }

  /** A frame costs its envelope and its text's JSON encoding. */
  ghost predicate TextLinear(measure: Measure, e: BridgeEntry, envelope: nat) {
    forall text: string :: LinearAt(measure, e, envelope, text)
  }

  function Left(frameBytes: nat, envelope: nat): nat {
    if frameBytes >= envelope then frameBytes - envelope else 0
  }

  lemma NamedCutSettles(t: Truncation, whole: nat)
    ensures NamedCut(NamedCut(t, whole), whole) == NamedCut(t, whole)
  {
  }

  function Prefix(e: BridgeEntry, named: Truncation, budget: nat): BridgeEntry
    requires e.body.Prose?
  {
    e.(body := Prose(e.body.text[..LongestWithin(EscapedBytes, e.body.text, budget)]), truncation := named)
  }

  /** One cut of an overlong frame is to the longest prefix its envelope leaves room for. */
  lemma OneCut(measure: Measure, frameBytes: nat, whole: nat, e: BridgeEntry, envelope: nat)
    requires e.body.Prose? && e.body.text != "" && measure(e) > frameBytes && TextLinear(measure, e, envelope)
    ensures Shrunk(e, frameBytes, whole, measure(e)) ==
            Prefix(e, NamedCut(e.truncation, whole), Left(frameBytes, envelope))
  {
    var text := e.body.text;
    assert e.(body := Prose(text)) == e;
    assert LinearAt(measure, e, envelope, text);
    assert Budget(frameBytes, measure(e), text) == Left(frameBytes, envelope);
    assert text[..|text|] == text;
    FitsIffShorter(EscapedBytes, text, Left(frameBytes, envelope), |text|);
    JsonLenBounds(text);
  }

  lemma LargerBudget(text: string, a: nat, b: nat)
    requires a <= b
    ensures LongestWithin(EscapedBytes, text, a) <= LongestWithin(EscapedBytes, text, b)
  {
    FitsIffShorter(EscapedBytes, text, b, LongestWithin(EscapedBytes, text, a));
  }

  lemma NoBudgetNoText(text: string)
    ensures LongestWithin(EscapedBytes, text, 0) == 0
  {
    JsonLenBounds(text[..LongestWithin(EscapedBytes, text, 0)]);
  }

  /** A prefix cut to what the envelope leaves is final: it fits, or it is empty. */
  lemma CutIsFinal(measure: Measure, frameBytes: nat, whole: nat, e: BridgeEntry, envelope: nat)
    requires e.body.Prose? && TextLinear(measure, e, envelope)
    ensures var r := Prefix(e, e.truncation, Left(frameBytes, envelope));
            Refit(measure, frameBytes, whole, r) == r
  {
    var r := Prefix(e, e.truncation, Left(frameBytes, envelope));
    assert LinearAt(measure, e, envelope, r.body.text);
    assert r == e.(body := Prose(r.body.text));
    NoBudgetNoText(e.body.text);
  }

  lemma LinearCarries(measure: Measure, e: BridgeEntry, text: string, envelope: nat)
    requires TextLinear(measure, e, envelope)
    ensures TextLinear(measure, e.(body := Prose(text)), envelope)
  {
    var r := e.(body := Prose(text));
    forall t: string ensures LinearAt(measure, r, envelope, t) {
      assert LinearAt(measure, e, envelope, t);
      assert r.(body := Prose(t)) == e.(body := Prose(t));
    }
  }

  /** A cut entry is cut again only because naming the cut made its envelope grow. */
  lemma NamedRefit(measure: Measure, frameBytes: nat, whole: nat, e: BridgeEntry, budget: nat, envelope: nat)
    requires e.body.Prose? && e.truncation == NamedCut(e.truncation, whole) && TextLinear(measure, e, envelope)
    ensures Refit(measure, frameBytes, whole, Prefix(e, e.truncation, budget)) ==
            Prefix(e, e.truncation, Min(budget, Left(frameBytes, envelope)))
  {
    var text, left := e.body.text, Left(frameBytes, envelope);
    var n := LongestWithin(EscapedBytes, text, budget);
    var cut := Prefix(e, e.truncation, budget);
    assert LinearAt(measure, e, envelope, text[..n]);
    assert cut == e.(body := Prose(text[..n]));
    LargerBudget(text, Min(budget, left), budget);
    if measure(cut) <= frameBytes {
      FitsIffShorter(EscapedBytes, text, left, n);
    } else if n > 0 {
      FitsIffShorter(EscapedBytes, text, left, n);
      NoBudgetNoText(text);
      LinearCarries(measure, e, text[..n], envelope);
      OneCut(measure, frameBytes, whole, cut, envelope);
      LongestOfPrefix(EscapedBytes, text, n, left);
      CutIsFinal(measure, frameBytes, whole, cut, envelope);
    }
  }

  /**
   An overlong entry keeps the longest prefix that fits beside the larger of its two envelopes, the one
   it came with and the one naming the cut.
   */
  lemma FitIsLongest(measure: Measure, frameBytes: nat, e: BridgeEntry, plain: nat, named: nat)
    requires e.body.Prose?
    requires var h := Headed(e, TextBytesFor(frameBytes));
             && TextLinear(measure, h, plain)
             && TextLinear(measure, h.(truncation := NamedCut(h.truncation, Whole(e))), named)
    ensures var h := Headed(e, TextBytesFor(frameBytes));
            Fit(measure, frameBytes, e) ==
            if measure(h) <= frameBytes || h.body.text == "" then h
            else Prefix(h, NamedCut(h.truncation, Whole(e)), Left(frameBytes, Max(plain, named)))
  {
    var h := Headed(e, TextBytesFor(frameBytes));
    if !(measure(h) <= frameBytes || h.body.text == "") {
      OneCut(measure, frameBytes, Whole(e), h, plain);
      NamedCutSettles(h.truncation, Whole(e));
      var cut := h.(truncation := NamedCut(h.truncation, Whole(e)));
      NamedRefit(measure, frameBytes, Whole(e), cut, Left(frameBytes, plain), named);
    }
  }

  // ----- the newest entries that fit the daemon's bound

  method BoundSnapshot(entries: seq<BridgeEntry>, textBytes: nat) returns (kept: seq<BridgeEntry>, complete: bool)
    ensures kept == entries[Suffixes.Cut(ContentBytes(textBytes), Dispatcher.SNAPSHOT_BOUND, entries)..]
    ensures complete <==> kept == entries
  {
    var w := ContentBytes(textBytes);
    var total, index := 0, |entries|;
    kept := [];
    while index > 0 && |kept| < MAX_SNAPSHOT_ENTRIES
      invariant 0 <= index <= |entries| && kept == entries[index..]
      invariant total == Suffixes.Total(w, kept)
      invariant Suffixes.Fits(w, Dispatcher.SNAPSHOT_BOUND, kept)
    {
      var bytes := w(entries[index - 1]);
      assert entries[index - 1..][1..] == kept;
      if total + bytes > MAX_SNAPSHOT_BYTES {
        break;
      }
      total := total + bytes;
      kept := [entries[index - 1]] + kept;
      index := index - 1;
    }
    assert index > 0 ==> entries[index - 1..][1..] == kept;
    Suffixes.CutIs(w, Dispatcher.SNAPSHOT_BOUND, entries, index);
    complete := |kept| == |entries|;
  }

  function FitAll(measure: Measure, frameBytes: nat, entries: seq<BridgeEntry>): seq<BridgeEntry> {
    if entries == [] then []
    else [Fit(measure, frameBytes, entries[0])] + FitAll(measure, frameBytes, entries[1..])
  }

  lemma {:induction false} FittedIsLighter(measure: Measure, frameBytes: nat, entries: seq<BridgeEntry>)
    ensures |FitAll(measure, frameBytes, entries)| == |entries|
    ensures Suffixes.Total(DecodedBytes, FitAll(measure, frameBytes, entries)) <=
            Suffixes.Total(ContentBytes(TextBytesFor(frameBytes)), entries)
  {
    if entries != [] {
      FitReduces(measure, frameBytes, entries[0]);
      FittedIsLighter(measure, frameBytes, entries[1..]);
    }
  }

  /** What the extension says about coverage: only a daemon that granted a larger frame is told. */
  function Coverage(frameBytes: nat, complete: bool): Option<bool> {
    if frameBytes > MAX_FRAME_BYTES then Some(complete) else None
  }

  /**
   Whatever history Pi holds, the burst it sends is accepted to its end, and the daemon's snapshot becomes
   the fitted newest entries: the longest suffix within the bound, reported complete exactly when it is all.
   */
  lemma PiSnapshotIsAccepted(measure: Measure, frameBytes: nat, entries: seq<BridgeEntry>, queries: bool)
    ensures var textBytes := TextBytesFor(frameBytes);
            var kept := entries[Suffixes.Cut(ContentBytes(textBytes), Dispatcher.SNAPSHOT_BOUND, entries)..];
            var sent := FitAll(measure, frameBytes, kept);
            var complete := if frameBytes > 65_536 then Some(kept == entries) else None;
            var r := Dispatcher.Run(DecodedBytes, queries, Dispatcher.Burst(sent, complete));
            r.outcome == Dispatcher.Continue && r.effects == [Dispatcher.Replaced(sent, complete)]
  {
    var w := ContentBytes(TextBytesFor(frameBytes));
    var cut := Suffixes.Cut(w, Dispatcher.SNAPSHOT_BOUND, entries);
    Suffixes.CutIsLongest(w, Dispatcher.SNAPSHOT_BOUND, entries, cut);
    FittedIsLighter(measure, frameBytes, entries[cut..]);
    Dispatcher.BurstIsAccepted(DecodedBytes, queries, FitAll(measure, frameBytes, entries[cut..]),
                               Coverage(frameBytes, entries[cut..] == entries));
  }
}

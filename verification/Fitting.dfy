/**
 The wire form of a host-held entry inside one frame: a head of at most 48 KiB, cut further until
 the encoded frame fits, with the cut named; a tool gives up its previews instead.
 */
module Fitting {
  import opened Wrappers
  import opened Numbers
  import opened Text
  import opened Protocol
  import opened Encoding

  /** Measures the frame an entry would travel in. */
  type Measure = Entry -> nat

  /** The size of the retained body a text entry stands for. */
  function Whole(e: Entry): nat {
    if !e.body.TextContent? then 0
    else if e.truncation.reasonCode == Some(BODY_AVAILABLE) && e.truncation.originalBytes.Some? then
      e.truncation.originalBytes.value
    else ByteLen(e.body.text)
  }

  /** What a head says about itself; the size is stored as a 64-bit number. */
  function HeadOf(whole: nat): Truncation {
    Truncation(true, Some(BODY_AVAILABLE), Some(whole % 0x1_0000_0000_0000_0000))
  }

  const PREVIEW_BOUNDED := Truncation(true, Some("preview_bounded"), None)

  function Cut(e: Entry, whole: nat, limit: nat): Entry {
    if !e.body.TextContent? then e
    else
      e.(body := TextContent(e.body.text[..LongestWithin(CharBytes, e.body.text, limit)]),
         truncation := HeadOf(whole))
  }

  /** The entry with at most a head's worth of text, before any frame is measured. */
  function Headed(e: Entry): Entry {
    var wire :=
      if e.body.TextContent? && ByteLen(e.body.text) > MAX_HEAD_BYTES then
        e.(body := TextContent(e.body.text[..LongestWithin(CharBytes, e.body.text, MAX_HEAD_BYTES)]))
      else e;
    if Whole(e) > MAX_HEAD_BYTES then Cut(wire, Whole(e), MAX_HEAD_BYTES) else wire
  }

  /** How much is left that fitting can give up: characters of text, or previews of a tool. */
  function Shrinkable(e: Entry): nat {
    match e.body
    case TextContent(text) => |text|
    case ToolContent(tool) =>
      (if tool.inputPreview.Some? then 1 else 0) + (if tool.resultPreview.Some? then 1 else 0)
    case _ => 0
  }

  function SaturatingSub(a: nat, b: nat): nat {
    if a >= b then a - b else 0
  }

  /** What the text may encode into, given the size its frame measured. */
  function Budget(size: nat, text: string): nat {
    SaturatingSub(MAX_FRAME_BYTES, SaturatingSub(size, JsonLen(text)))
  }

  function Shrunk(e: Entry, whole: nat, size: nat): (r: Entry)
    requires Shrinkable(e) > 0 && size > MAX_FRAME_BYTES
    ensures Shrinkable(r) < Shrinkable(e)
    ensures e.body.TextContent? ==>
              var keep := LongestWithin(EscapedBytes, e.body.text, Budget(size, e.body.text));
              r == e.(body := TextContent(e.body.text[..keep]), truncation := HeadOf(whole))
  {
    match e.body
    case TextContent(text) =>
      var keep := LongestWithin(EscapedBytes, text, Budget(size, text));
      assert keep < |text| by {
        assert text[..|text|] == text;
        FitsIffShorter(EscapedBytes, text, Budget(size, text), |text|);
        JsonLenBounds(text);
      }
      FloorOfBoundary(text, keep);
      Cut(e, whole, ByteLen(text[..keep]))
    case ToolContent(tool) =>
      var lighter :=
        if tool.resultPreview.Some? then tool.(resultPreview := None) else tool.(inputPreview := None);
      e.(body := ToolContent(lighter),
         truncation := if e.truncation.truncated then e.truncation else PREVIEW_BOUNDED)
  }

  function Refit(e: Entry, whole: nat, measure: Measure): (r: Entry)
    ensures r.body.TextContent? == e.body.TextContent?
    decreases Shrinkable(e)
  {
    if measure(e) <= MAX_FRAME_BYTES || Shrinkable(e) == 0 then e
    else Refit(Shrunk(e, whole, measure(e)), whole, measure)
  }

  function Fit(e: Entry, measure: Measure): Entry {
    Refit(Headed(e), Whole(e), measure)
  }

  /** How many times the loop has to cut. */
  function Cuts(e: Entry, whole: nat, measure: Measure): nat
    decreases Shrinkable(e)
  {
    if measure(e) <= MAX_FRAME_BYTES || Shrinkable(e) == 0 then 0
    else 1 + Cuts(Shrunk(e, whole, measure(e)), whole, measure)
  }

  // ----- the methods the host runs

  method CutToHead(e: Entry, whole: nat, limit: nat) returns (wire: Entry)
    ensures wire == Cut(e, whole, limit)
  {
    if !e.body.TextContent? {
      return e;
    }
    var k := FloorCharBoundary(e.body.text, limit);
    wire := e.(body := TextContent(e.body.text[..k]));
    wire := wire.(truncation := HeadOf(whole));
  }

  /** Terminates for any measuring function. */
  method FitEntryToFrame(entry: Entry, measure: Measure) returns (wire: Entry)
    ensures wire == Fit(entry, measure)
  {
    var whole := Whole(entry);
    wire := entry;
    if entry.body.TextContent? && ByteLen(entry.body.text) > MAX_HEAD_BYTES {
      var k := FloorCharBoundary(entry.body.text, MAX_HEAD_BYTES);
      wire := entry.(body := TextContent(entry.body.text[..k]));
    }
    if whole > MAX_HEAD_BYTES {
      wire := CutToHead(wire, whole, MAX_HEAD_BYTES);
    }
    while true
      invariant Refit(wire, whole, measure) == Fit(entry, measure)
      decreases Shrinkable(wire)
    {
      var size := measure(wire);
      if size <= MAX_FRAME_BYTES {
        return;
      }
      match wire.body {
        case TextContent(text) =>
          if text == "" {
            return;
          }
          var envelope := SaturatingSub(size, JsonLen(text));
          var keep := JsonPrefixWithin(text, SaturatingSub(MAX_FRAME_BYTES, envelope));
          FloorOfBoundary(text, LongestWithin(EscapedBytes, text, Budget(size, text)));
          wire := CutToHead(wire, whole, keep);
        case ToolContent(tool) =>
          if tool.resultPreview.None? && tool.inputPreview.None? {
            return;
          }
          var lighter := tool;
          if tool.resultPreview.Some? {
            lighter := tool.(resultPreview := None);
          } else {
            lighter := tool.(inputPreview := None);
          }
          wire := wire.(body := ToolContent(lighter));
          if !wire.truncation.truncated {
            wire := wire.(truncation := PREVIEW_BOUNDED);
          }
        case _ => return;
      }
    }
  }

  // ----- for every measuring function

  /** `r` is `e` with text or previews given up, and the loss named. */
  predicate Shortens(e: Entry, r: Entry, whole: nat) {
    && r == e.(body := r.body, truncation := r.truncation)
    && match e.body
       case TextContent(text) =>
         && r.body.TextContent? && r.body.text <= text
         && (r == e || (|r.body.text| < |text| && r.truncation == HeadOf(whole)))
       case ToolContent(tool) =>
         && r.body.ToolContent?
         && r.body.tool == tool.(inputPreview := r.body.tool.inputPreview, resultPreview := r.body.tool.resultPreview)
         && (r.body.tool.resultPreview == tool.resultPreview || r.body.tool.resultPreview.None?)
         && (r.body.tool.inputPreview == tool.inputPreview
             || (r.body.tool.inputPreview.None? && r.body.tool.resultPreview.None?))
         && r.truncation == (if r.body == e.body || e.truncation.truncated then e.truncation else PREVIEW_BOUNDED)
       case _ => r == e
  }

  /** Whatever measures the frame: the result fits, or has nothing left to give up. */
  lemma {:induction false} RefitShortens(e: Entry, whole: nat, measure: Measure)
    ensures var r := Refit(e, whole, measure);
            && (measure(r) <= MAX_FRAME_BYTES || Shrinkable(r) == 0)
            && Shortens(e, r, whole)
    decreases Shrinkable(e)
  {
    if measure(e) > MAX_FRAME_BYTES && Shrinkable(e) > 0 {
      RefitShortens(Shrunk(e, whole, measure(e)), whole, measure);
    } else if e.body.TextContent? {
      assert e.body.text <= e.body.text;
    }
  }

  /** A tool card with less to show, and the loss named. */
  function WithLess(e: Entry, input: Option<string>, result: Option<string>): Entry
    requires e.body.ToolContent?
  {
    var tool := e.body.tool.(inputPreview := input, resultPreview := result);
    e.(body := ToolContent(tool),
       truncation := if tool == e.body.tool || e.truncation.truncated then e.truncation else PREVIEW_BOUNDED)
  }

  /** A tool gives up its result first, then its input too, and neither unless the frame is too long with it. */
  lemma ToolGivesUpInOrder(e: Entry, whole: nat, measure: Measure)
    requires e.body.ToolContent?
    ensures var tool := e.body.tool;
            Refit(e, whole, measure) ==
            if measure(e) <= MAX_FRAME_BYTES then e
            else if measure(WithLess(e, tool.inputPreview, None)) <= MAX_FRAME_BYTES then
              WithLess(e, tool.inputPreview, None)
            else WithLess(e, None, None)
  {
    var tool := e.body.tool;
    assert tool == tool.(inputPreview := tool.inputPreview, resultPreview := tool.resultPreview);
    if measure(e) > MAX_FRAME_BYTES && Shrinkable(e) > 0 {
      var once := Shrunk(e, whole, measure(e));
      if tool.resultPreview.Some? {
        assert once == WithLess(e, tool.inputPreview, None);
        if measure(once) > MAX_FRAME_BYTES && Shrinkable(once) > 0 {
          assert Shrunk(once, whole, measure(once)) == WithLess(e, None, None);
          assert Refit(once, whole, measure) == Refit(WithLess(e, None, None), whole, measure);
        }
      } else {
        assert once == WithLess(e, None, None);
      }
      assert Refit(e, whole, measure) == Refit(once, whole, measure);
      assert Refit(WithLess(e, None, None), whole, measure) == WithLess(e, None, None);
    }
  }

  /** What the host may hold: a whole body up to the retained bound, its truncation consistent. */
  predicate Retained(e: Entry) {
    && ValidToken(e.entryId)
    && e.entryRevision != 0 && e.sequence != 0 && e.timestamp != 0
    && ValidToken(e.state) && ValidToken(e.kind)
    && e.body.ValidWithin(MAX_RETAINED_BYTES)
    && e.truncation.Valid()
    && e.KeepsBodyPromise()
  }

  lemma ShorterText(s: string, k: nat)
    requires k <= |s|
    ensures ByteLen(s[..k]) <= ByteLen(s)
    ensures k < |s| ==> ByteLen(s[..k]) < ByteLen(s)
  {
    assert s[..|s|] == s;
    WeightSplit(CharBytes, s, k, |s|);
    JsonLenBounds(s[k..|s|]);
  }

  /** Cutting a text to a head keeps at most the head's bytes, and cutting again changes nothing. */
  lemma HeadOfText(text: string)
    ensures var k := LongestWithin(CharBytes, text, MAX_HEAD_BYTES);
            && ByteLen(text[..k]) <= MAX_HEAD_BYTES && ByteLen(text[..k]) <= ByteLen(text)
            && (ByteLen(text) > MAX_HEAD_BYTES ==> ByteLen(text[..k]) < ByteLen(text))
            && text[..k][..LongestWithin(CharBytes, text[..k], MAX_HEAD_BYTES)] == text[..k]
  {
    var k := LongestWithin(CharBytes, text, MAX_HEAD_BYTES);
    ShorterText(text, k);
    LongestOfPrefix(CharBytes, text, k, MAX_HEAD_BYTES);
    assert text[..k][..k] == text[..k] && text[..|text|] == text;
    FitsIffShorter(CharBytes, text, MAX_HEAD_BYTES, |text|);
  }

  lemma HeadedIsValid(e: Entry)
    requires Retained(e)
    ensures Headed(e).Valid() && Whole(Headed(e)) == Whole(e)
    ensures Headed(e).body.TextContent? ==> ByteLen(Headed(e).body.text) <= Whole(e) <= MAX_RETAINED_BYTES
  {
    if e.body.TextContent? {
      HeadOfText(e.body.text);
      if ByteLen(e.body.text) <= MAX_HEAD_BYTES {
        CutOfShort(e.body.text);
      }
      KnownReasons();
    }
  }

  lemma CutOfShort(text: string)
    requires ByteLen(text) <= MAX_HEAD_BYTES
    ensures text[..LongestWithin(CharBytes, text, MAX_HEAD_BYTES)] == text
  {
    assert text[..|text|] == text;
    FitsIffShorter(CharBytes, text, MAX_HEAD_BYTES, |text|);
  }

  lemma KnownReasons()
    ensures ValidToken(BODY_AVAILABLE) && ValidToken("preview_bounded") && BODY_AVAILABLE != "preview_bounded"
  {
  }

  lemma ShortenedIsValid(h: Entry, r: Entry, whole: nat)
    requires h.Valid() && Shortens(h, r, whole)
    requires h.body.TextContent? ==> ByteLen(h.body.text) <= whole <= MAX_RETAINED_BYTES
    ensures r.Valid()
    ensures h.body.TextContent? && whole == Whole(h) ==> Whole(r) == whole
  {
    KnownReasons();
    if h.body.TextContent? {
      assert r.body.text == h.body.text[..|r.body.text|];
      ShorterText(h.body.text, |r.body.text|);
    }
  }

  /**
   A retained entry's wire form passes full entry validation, whatever measures the frame: the text
   is at most a head, a cut head keeps its promise, and it names the whole retained size.
   */
  lemma FitIsValid(e: Entry, measure: Measure)
    requires Retained(e)
    ensures Fit(e, measure).Valid()
    ensures Whole(Fit(e, measure)) == Whole(e)
    ensures Fit(e, measure).sequence == e.sequence
  {
    HeadedIsValid(e);
    RefitShortens(Headed(e), Whole(e), measure);
    ShortenedIsValid(Headed(e), Fit(e, measure), Whole(e));
  }

  /** A machine string: its length is a machine word. */
  predicate Addressable(e: Entry) {
    e.body.TextContent? ==> ByteLen(e.body.text) < 0x1_0000_0000_0000_0000
  }

  lemma HeadedIsAHead(e: Entry)
    ensures Headed(e).body.TextContent? ==> ByteLen(Headed(e).body.text) <= MAX_HEAD_BYTES
    ensures e.body.TextContent? <==> Headed(e).body.TextContent?
    ensures !e.body.TextContent? ==> Headed(e) == e
    ensures Whole(e) <= MAX_HEAD_BYTES && e.body.TextContent? && ByteLen(e.body.text) <= MAX_HEAD_BYTES ==>
              Headed(e) == e
    ensures Whole(e) > MAX_HEAD_BYTES ==> Headed(e).truncation == HeadOf(Whole(e))
    ensures Whole(e) <= MAX_HEAD_BYTES ==> Headed(e).truncation == e.truncation
  {
  }

  lemma CutOfHead(e: Entry, whole: nat)
    requires e.body.TextContent? && ByteLen(e.body.text) <= MAX_HEAD_BYTES && e.truncation == HeadOf(whole)
    ensures Cut(e, whole, MAX_HEAD_BYTES) == e
  {
    assert e.body.text[..|e.body.text|] == e.body.text;
    FitsIffShorter(CharBytes, e.body.text, MAX_HEAD_BYTES, |e.body.text|);
  }

  lemma HeadIsItsOwnHead(h: Entry, r: Entry, whole: nat)
    requires h.body.TextContent? && ByteLen(h.body.text) <= MAX_HEAD_BYTES
    requires Shortens(h, r, whole) && whole < 0x1_0000_0000_0000_0000
    requires h.truncation == HeadOf(whole) || Whole(h) <= MAX_HEAD_BYTES
    ensures Headed(r) == r
  {
    assert r.body.text == h.body.text[..|r.body.text|];
    ShorterText(h.body.text, |r.body.text|);
    if r.truncation == HeadOf(whole) {
      CutOfHead(r, whole);
    }
  }

  /** Fitting what was already fitted to the same frame changes nothing, for any measure. */
  lemma FitIsIdempotent(e: Entry, measure: Measure)
    requires Addressable(e)
    ensures Fit(Fit(e, measure), measure) == Fit(e, measure)
  {
    var h, r := Headed(e), Fit(e, measure);
    HeadedIsAHead(e);
    RefitShortens(h, Whole(e), measure);
    if h.body.TextContent? {
      if Whole(e) <= MAX_HEAD_BYTES {
        assert Whole(h) <= MAX_HEAD_BYTES;
      }
      HeadIsItsOwnHead(h, r, Whole(e));
    }
  }

  // ----- frames whose size is an envelope plus the escaped text

  predicate LinearAt(measure: Measure, e: Entry) {
    e.body.TextContent? ==> measure(e) == measure(e.(body := TextContent(""))) + JsonLen(e.body.text)
  }

  ghost predicate TextLinear(measure: Measure) {
    forall e: Entry :: LinearAt(measure, e)
  }

  /** The frame around an entry's text once the text is gone and the cut is named. */
  function CutEnvelope(e: Entry, whole: nat, measure: Measure): nat {
    measure(e.(body := TextContent(""), truncation := HeadOf(whole)))
  }

  function Envelope(e: Entry, measure: Measure): nat {
    measure(e.(body := TextContent("")))
  }

  /** The head an exact cut leaves: the longest that fits both the old envelope and the new one. */
  function ExactHead(e: Entry, whole: nat, measure: Measure): Entry
    requires e.body.TextContent?
  {
    var budget := SaturatingSub(MAX_FRAME_BYTES, Max(Envelope(e, measure), CutEnvelope(e, whole, measure)));
    e.(body := TextContent(e.body.text[..LongestWithin(EscapedBytes, e.body.text, budget)]),
       truncation := HeadOf(whole))
  }

  /** Measuring a cut head: the cut envelope plus what is left of the text. */
  lemma CutMeasures(e: Entry, whole: nat, measure: Measure, k: nat)
    requires TextLinear(measure) && e.body.TextContent? && k <= |e.body.text|
    ensures measure(e.(body := TextContent(e.body.text[..k]), truncation := HeadOf(whole))) ==
            CutEnvelope(e, whole, measure) + JsonLen(e.body.text[..k])
  {
    var head := e.(body := TextContent(e.body.text[..k]), truncation := HeadOf(whole));
    assert LinearAt(measure, head);
    assert head.(body := TextContent("")) == e.(body := TextContent(""), truncation := HeadOf(whole));
  }

  lemma FirstCut(e: Entry, whole: nat, measure: Measure) returns (k: nat)
    requires TextLinear(measure) && e.body.TextContent? && e.body.text != ""
    requires measure(e) > MAX_FRAME_BYTES
    ensures k == LongestWithin(EscapedBytes, e.body.text, SaturatingSub(MAX_FRAME_BYTES, Envelope(e, measure)))
    ensures Shrunk(e, whole, measure(e)) == e.(body := TextContent(e.body.text[..k]), truncation := HeadOf(whole))
  {
    assert LinearAt(measure, e);
    k := LongestWithin(EscapedBytes, e.body.text, SaturatingSub(MAX_FRAME_BYTES, Envelope(e, measure)));
  }

  /** A head that already names its cut needs at most one more cut, and it is exact. */
  lemma SecondCut(e: Entry, whole: nat, measure: Measure)
    requires TextLinear(measure) && e.body.TextContent? && e.truncation == HeadOf(whole)
    requires CutEnvelope(e, whole, measure) <= MAX_FRAME_BYTES
    ensures Refit(e, whole, measure) ==
            e.(body := TextContent(e.body.text[..LongestWithin(EscapedBytes, e.body.text,
                                                               MAX_FRAME_BYTES - CutEnvelope(e, whole, measure))]))
    ensures measure(Refit(e, whole, measure)) <= MAX_FRAME_BYTES
    ensures Cuts(e, whole, measure) <= 1
  {
    var text, cut := e.body.text, CutEnvelope(e, whole, measure);
    assert e.(truncation := HeadOf(whole)) == e && text[..|text|] == text;
    assert e.(body := TextContent(""), truncation := HeadOf(whole)) == e.(body := TextContent(""));
    CutMeasures(e, whole, measure, |text|);
    FitsIffShorter(EscapedBytes, text, MAX_FRAME_BYTES - cut, |text|);
    if measure(e) > MAX_FRAME_BYTES {
      assert text != "";
      var k := FirstCut(e, whole, measure);
      CutMeasures(e, whole, measure, k);
    }
  }

  /**
   When the frame is an envelope plus escaped text and the cut envelope fits, an over-long entry is
   cut exactly: at most two cuts, a head that fits, and the longest one both envelopes allow.
   */
  lemma ExactFit(e: Entry, whole: nat, measure: Measure)
    requires TextLinear(measure) && e.body.TextContent? && e.body.text != ""
    requires measure(e) > MAX_FRAME_BYTES && CutEnvelope(e, whole, measure) <= MAX_FRAME_BYTES
    ensures Refit(e, whole, measure) == ExactHead(e, whole, measure)
    ensures measure(Refit(e, whole, measure)) <= MAX_FRAME_BYTES
    ensures Cuts(e, whole, measure) <= 2
  {
    var text := e.body.text;
    var plain, cut := Envelope(e, measure), CutEnvelope(e, whole, measure);
    var k := FirstCut(e, whole, measure);
    var first := e.(body := TextContent(text[..k]), truncation := HeadOf(whole));
    assert first.(body := TextContent(""), truncation := HeadOf(whole))
        == e.(body := TextContent(""), truncation := HeadOf(whole));
    SecondCut(first, whole, measure);
    LongestOfPrefix(EscapedBytes, text, k, MAX_FRAME_BYTES - cut);
    BothBudgets(text, SaturatingSub(MAX_FRAME_BYTES, plain), MAX_FRAME_BYTES - cut);
    var l := LongestWithin(EscapedBytes, text[..k], MAX_FRAME_BYTES - cut);
    assert text[..k][..l] == text[..l];
  }

  /** Cutting for one budget and then another is cutting for the smaller. */
  lemma BothBudgets(s: string, a: nat, b: nat)
    ensures var k, l := LongestWithin(EscapedBytes, s, a), LongestWithin(EscapedBytes, s, b);
            LongestWithin(EscapedBytes, s, if a <= b then a else b) == if k <= l then k else l
  {
    var k, l := LongestWithin(EscapedBytes, s, a), LongestWithin(EscapedBytes, s, b);
    FitsIffShorter(EscapedBytes, s, b, k);
    FitsIffShorter(EscapedBytes, s, a, l);
  }

  lemma ExactLength(e: Entry, whole: nat, measure: Measure)
    requires TextLinear(measure) && e.body.TextContent? && e.body.text != ""
    requires measure(e) > MAX_FRAME_BYTES && CutEnvelope(e, whole, measure) <= MAX_FRAME_BYTES
    requires Envelope(e, measure) <= CutEnvelope(e, whole, measure)
    ensures var r := Refit(e, whole, measure);
            var spare := MAX_FRAME_BYTES - CutEnvelope(e, whole, measure);
            r.body.TextContent? && |r.body.text| == LongestWithin(EscapedBytes, e.body.text, spare)
  {
    ExactFit(e, whole, measure);
  }

  lemma SpareHolds(text: string, k: nat, longest: nat, envelope: nat)
    requires k <= |text| && envelope <= MAX_FRAME_BYTES
    requires longest == LongestWithin(EscapedBytes, text, MAX_FRAME_BYTES - envelope)
    ensures envelope + JsonLen(text[..k]) <= MAX_FRAME_BYTES <==> k <= longest
  {
    FitsIffShorter(EscapedBytes, text, MAX_FRAME_BYTES - envelope, k);
  }

  /** With no truncation to replace, that head is the longest that could have been sent. */
  lemma ExactFitIsLongest(e: Entry, whole: nat, measure: Measure, k: nat)
    requires TextLinear(measure) && e.body.TextContent? && e.body.text != ""
    requires measure(e) > MAX_FRAME_BYTES && CutEnvelope(e, whole, measure) <= MAX_FRAME_BYTES
    requires Envelope(e, measure) <= CutEnvelope(e, whole, measure)
    requires k <= |e.body.text|
    ensures measure(e.(body := TextContent(e.body.text[..k]), truncation := HeadOf(whole))) <= MAX_FRAME_BYTES
            <==> k <= |Refit(e, whole, measure).body.text|
  {
    ExactLength(e, whole, measure);
    CutMeasures(e, whole, measure, k);
    SpareHolds(e.body.text, k, |Refit(e, whole, measure).body.text|, CutEnvelope(e, whole, measure));
  }

  // ----- an entry on its own

  /** Small entries are returned unmeasured. */
  function FitAlone(e: Entry): Entry {
    if e.DecodedBytes() * 6 + 4 * 1024 <= MAX_FRAME_BYTES then e else Fit(e, AloneSize)
  }

  lemma AloneIsTextLinear()
    ensures TextLinear(AloneSize)
  {
    forall e: Entry ensures LinearAt(AloneSize, e) {
      assert JsonLen("") == 0;
    }
  }

  /** The unmeasured path returns what measured fitting would have. */
  lemma FastPathRefinesSlowPath(e: Entry)
    requires e.truncation.Valid()
    ensures FitAlone(e) == Fit(e, AloneSize)
  {
    if e.DecodedBytes() * 6 + 4 * 1024 <= MAX_FRAME_BYTES {
      AloneBound(e);
      HeadedIsAHead(e);
      if e.body.TextContent? && Whole(e) > MAX_HEAD_BYTES {
        CutOfHead(e, Whole(e));
      }
    }
  }

  /** Naming a cut never makes the envelope smaller when nothing was named before. */
  lemma NamingACutGrowsTheEnvelope(e: Entry, whole: nat)
    requires e.body.TextContent? && e.truncation == NO_TRUNCATION
    ensures Envelope(e, AloneSize) <= CutEnvelope(e, whole, AloneSize)
  {
    PlainLen(BODY_AVAILABLE);
  }

  lemma AloneEnvelopeFits(e: Entry, whole: nat)
    requires Retained(e) && e.body.TextContent?
    ensures CutEnvelope(e, whole, AloneSize) <= MAX_FRAME_BYTES
    ensures Envelope(e, AloneSize) <= MAX_FRAME_BYTES
  {
    KnownReasons();
    PlainLen(e.entryId);
    PlainLen(e.state);
    PlainLen(e.kind);
    AloneBound(e.(body := TextContent(""), truncation := HeadOf(whole)));
    AloneBound(e.(body := TextContent("")));
  }

  /** Alone, a text entry always ends up fitting, after at most two cuts. */
  lemma AloneAlwaysFits(e: Entry)
    requires Retained(e) && e.body.TextContent?
    ensures AloneSize(FitAlone(e)) <= MAX_FRAME_BYTES
    ensures Cuts(Headed(e), Whole(e), AloneSize) <= 2
  {
    FastPathRefinesSlowPath(e);
    AloneIsTextLinear();
    HeadedIsValid(e);
    var h, whole := Headed(e), Whole(e);
    AloneEnvelopeFits(h, whole);
    assert h.body.text == "" ==> h.(body := TextContent("")) == h;
    if AloneSize(h) > MAX_FRAME_BYTES {
      ExactFit(h, whole, AloneSize);
    }
  }

  // ----- the longest head, end to end

  /** The head of `k` characters, named as cut. */
  function HeadAt(e: Entry, k: nat): Entry
    requires e.body.TextContent? && k <= |e.body.text|
  {
    e.(body := TextContent(e.body.text[..k]), truncation := HeadOf(Whole(e)))
  }

  predicate HeadFits(e: Entry, measure: Measure, k: nat)
    requires e.body.TextContent? && k <= |e.body.text|
  {
    ByteLen(e.body.text[..k]) <= MAX_HEAD_BYTES && measure(HeadAt(e, k)) <= MAX_FRAME_BYTES
  }

  /** What fitting made of an uncut text: the whole of it when that fits, or else the longest head that does. */
  ghost predicate IsLongestHead(e: Entry, measure: Measure, r: Entry)
    requires e.body.TextContent?
  {
    if ByteLen(e.body.text) <= MAX_HEAD_BYTES && (measure(e) <= MAX_FRAME_BYTES || e.body.text == "") then r == e
    else
      && r.body.TextContent? && |r.body.text| < |e.body.text| && r == HeadAt(e, |r.body.text|)
      && forall k | 0 <= k <= |e.body.text| :: HeadFits(e, measure, k) <==> k <= |r.body.text|
  }

  /** A text no longer than a head: cut only for the frame. */
  lemma ShortTextIsLongest(e: Entry, measure: Measure)
    requires TextLinear(measure) && e.body.TextContent? && e.truncation == NO_TRUNCATION
    requires ByteLen(e.body.text) <= MAX_HEAD_BYTES
    requires Envelope(e, measure) <= CutEnvelope(e, Whole(e), measure) <= MAX_FRAME_BYTES
    ensures IsLongestHead(e, measure, Fit(e, measure))
  {
    HeadedIsAHead(e);
    var text, whole, r := e.body.text, Whole(e), Fit(e, measure);
    if measure(e) > MAX_FRAME_BYTES && text != "" {
      ExactLength(e, whole, measure);
      RefitShortens(e, whole, measure);
      forall k | 0 <= k <= |text| ensures HeadFits(e, measure, k) <==> k <= |r.body.text| {
        ShorterText(text, k);
        ExactFitIsLongest(e, whole, measure, k);
      }
      assert r.body.text == text[..|r.body.text|];
    }
  }

  /** A longer text: cut to a head first, and further for the frame. */
  lemma LongTextIsLongest(e: Entry, measure: Measure)
    requires TextLinear(measure) && e.body.TextContent? && e.truncation == NO_TRUNCATION
    requires ByteLen(e.body.text) > MAX_HEAD_BYTES
    requires CutEnvelope(e, Whole(e), measure) <= MAX_FRAME_BYTES
    ensures IsLongestHead(e, measure, Fit(e, measure))
  {
    var text, whole, r := e.body.text, Whole(e), Fit(e, measure);
    var m := LongestWithin(CharBytes, text, MAX_HEAD_BYTES);
    assert text[..|text|] == text;
    FitsIffShorter(CharBytes, text, MAX_HEAD_BYTES, |text|);
    LongestOfPrefix(CharBytes, text, m, MAX_HEAD_BYTES);
    assert text[..m][..m] == text[..m];
    var h := HeadAt(e, m);
    assert Headed(e) == h;
    RefitShortens(h, whole, measure);
    forall k | 0 <= k <= |text| ensures HeadFits(e, measure, k) <==> k <= |r.body.text| {
      FitsIffShorter(CharBytes, text, MAX_HEAD_BYTES, k);
      if k <= m {
        HeadWithinHead(e, measure, m, k);
      }
    }
    assert r.body.text == text[..|r.body.text|];
  }

  lemma HeadWithinHead(e: Entry, measure: Measure, m: nat, k: nat)
    requires TextLinear(measure) && e.body.TextContent? && k <= m <= |e.body.text|
    requires CutEnvelope(e, Whole(e), measure) <= MAX_FRAME_BYTES
    ensures var r := Refit(HeadAt(e, m), Whole(e), measure);
            r.body.TextContent? && (measure(HeadAt(e, k)) <= MAX_FRAME_BYTES <==> k <= |r.body.text|)
  {
    var text, whole, h := e.body.text, Whole(e), HeadAt(e, m);
    assert text[..m][..k] == text[..k];
    assert h.(body := TextContent(text[..k]), truncation := HeadOf(whole)) == HeadAt(e, k);
    assert h.(body := TextContent("")) == e.(body := TextContent(""), truncation := HeadOf(whole));
    if measure(h) > MAX_FRAME_BYTES && text[..m] != "" {
      ExactFitIsLongest(h, whole, measure, k);
    } else {
      CutMeasures(e, whole, measure, k);
      CutMeasures(e, whole, measure, m);
      WeightMonotone(EscapedBytes, text, k, m);
    }
  }

  /** Alone, an uncut text is sent whole, or as the longest head that its bound and its frame allow. */
  lemma AloneHeadIsLongest(e: Entry)
    requires Retained(e) && e.body.TextContent? && e.truncation == NO_TRUNCATION
    ensures IsLongestHead(e, AloneSize, FitAlone(e))
  {
    FastPathRefinesSlowPath(e);
    AloneIsTextLinear();
    AloneEnvelopeFits(e, Whole(e));
    if ByteLen(e.body.text) <= MAX_HEAD_BYTES {
      NamingACutGrowsTheEnvelope(e, Whole(e));
      ShortTextIsLongest(e, AloneSize);
    } else {
      LongTextIsLongest(e, AloneSize);
    }
  }
}

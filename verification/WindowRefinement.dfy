/**
 The bounded timeline window against an unbounded timeline. The host numbers entries so that an
 entry keeps one sequence for life and no two entries share one; under that discipline the
 64-entry window is exactly the newest 64 of everything ever upserted, at its newest revision.
 */
module WindowRefinement {
  import opened Wrappers
  import opened Protocol
  import opened Sequences
  import opened Best
  import opened Reducer

  type Timeline = map<string, Entry>

  /** The unbounded timeline learns an entry unless it already holds that revision or a later one. */
  function Learn(m: Timeline, e: Entry): Timeline {
    if e.entryId in m && e.entryRevision <= m[e.entryId].entryRevision then m else m[e.entryId := e]
  }

  function LearnAll(m: Timeline, run: seq<Entry>): Timeline {
    if run == [] then m else Learn(LearnAll(m, run[..|run| - 1]), run[|run| - 1])
  }

  function UpsertAll(w: Window, run: seq<Entry>): Window {
    if run == [] then w else Upserted(UpsertAll(w, run[..|run| - 1]), run[|run| - 1])
  }

  /** One sequence per entry, one entry per sequence. */
  predicate Numbered(entries: seq<Entry>) {
    forall i, j | 0 <= i < |entries| && 0 <= j < |entries| ::
      entries[i].entryId == entries[j].entryId <==> entries[i].sequence == entries[j].sequence
  }

  predicate NumberedWith(m: Timeline, e: Entry) {
    forall id | id in m :: id == e.entryId <==> m[id].sequence == e.sequence
  }

  predicate KeyedById(m: Timeline) {
    forall id | id in m :: m[id].entryId == id
  }

  /** Older than everything in a full window. */
  predicate Beyond(w: seq<Entry>, e: Entry) {
    |w| == MAX_WINDOW_ENTRIES && e.sequence < w[0].sequence
  }

  predicate Holds(w: seq<Entry>, e: Entry) {
    exists i | 0 <= i < |w| :: w[i] == e
  }

  /** `w` is the newest part of `m`: in order, at the held revisions, and leaving out only older entries. */
  predicate IsNewest(w: seq<Entry>, m: Timeline) {
    && |w| <= MAX_WINDOW_ENTRIES
    && Ascending(w)
    && (forall i | 0 <= i < |w| :: w[i].entryId in m && m[w[i].entryId] == w[i])
    && (forall id | id in m :: Holds(w, m[id]) || Beyond(w, m[id]))
  }

  // ----- one upsert

  /** Where a new entry lands in an ordered window. */
  lemma InsertionPoint(w: seq<Entry>, e: Entry) returns (p: nat)
    requires Ascending(w)
    requires forall i | 0 <= i < |w| :: w[i].sequence != e.sequence
    ensures p <= |w|
    ensures StableSort(SequenceKey, w + [e]) == Inserted(w, p, e)
    ensures forall i | 0 <= i < p :: w[i].sequence < e.sequence
    ensures forall i | p <= i < |w| :: e.sequence < w[i].sequence
  {
    assert (w + [e])[..|w|] == w;
    assert SortedBy(SequenceKey, w);
    StableSortFixes(SequenceKey, w);
    p := InsertPosition(SequenceKey, w, e);
    forall i | 0 <= i < p ensures w[i].sequence < e.sequence {
      assert SequenceKey(w[i]) <= SequenceKey(e);
    }
    forall i | p <= i < |w| ensures e.sequence < w[i].sequence {
      assert SequenceKey(e) < SequenceKey(w[i]);
    }
  }

  function Inserted(w: seq<Entry>, p: nat, e: Entry): (r: seq<Entry>)
    requires p <= |w|
    ensures |r| == |w| + 1 && r[p] == e
    ensures forall i | 0 <= i < p :: r[i] == w[i]
    ensures forall i | p < i < |r| :: r[i] == w[i - 1]
  {
    w[..p] + [e] + w[p..]
  }

  lemma InsertKeepsAscending(w: seq<Entry>, e: Entry, p: nat)
    requires Ascending(w) && p <= |w|
    requires forall i | 0 <= i < p :: w[i].sequence < e.sequence
    requires forall i | p <= i < |w| :: e.sequence < w[i].sequence
    ensures Ascending(Inserted(w, p, e))
  {
  }

  lemma UpsertHeld(w: Window, m: Timeline, e: Entry)
    requires IsNewest(w.entries, m) && KeyedById(m) && NumberedWith(m, e)
    requires IndexOfKey(EntryKey, w.entries, e.entryId) < |w.entries|
    ensures IsNewest(Upserted(w, e).entries, Learn(m, e))
    ensures Upserted(w, e).hasOlder == w.hasOlder
    ensures FirstSequence(Upserted(w, e).entries) == FirstSequence(w.entries)
  {
    var es := w.entries;
    var i := IndexOfKey(EntryKey, es, e.entryId);
    assert EntryKey(es[i]) == e.entryId;
    var after, m' := Upserted(w, e).entries, Learn(m, e);
    if e.entryRevision > es[i].entryRevision {
      assert after == es[i := e];
      ReplaceHeld(es, m, e, i);
    }
  }

  /** A newer revision takes its entry's place. */
  lemma ReplaceHeld(es: seq<Entry>, m: Timeline, e: Entry, i: nat)
    requires IsNewest(es, m) && KeyedById(m) && NumberedWith(m, e)
    requires i < |es| && es[i].entryId == e.entryId
    ensures es[i].sequence == e.sequence && IsNewest(es[i := e], m[e.entryId := e])
  {
    var after, m' := es[i := e], m[e.entryId := e];
    forall j | 0 <= j < |es| && j != i ensures es[j].entryId != e.entryId {
      assert es[j].sequence != es[i].sequence;
    }
    forall id | id in m' ensures Holds(after, m'[id]) || Beyond(after, m'[id]) {
      if id == e.entryId {
        assert after[i] == e;
      } else if j :| 0 <= j < |es| && es[j] == m[id] {
        assert after[j] == m[id];
      }
    }
  }

  /** A new entry in a window with room. */
  lemma UpsertIntoRoom(es: seq<Entry>, m: Timeline, e: Entry, p: nat)
    requires IsNewest(es, m) && p <= |es| < MAX_WINDOW_ENTRIES
    requires Ascending(Inserted(es, p, e))
    requires forall i | 0 <= i < |es| :: es[i].entryId != e.entryId
    ensures IsNewest(Inserted(es, p, e), m[e.entryId := e])
  {
    var m', after := m[e.entryId := e], Inserted(es, p, e);
    forall id | id in m' ensures Holds(after, m'[id]) {
      if id == e.entryId {
        assert after[p] == e;
      } else {
        var j :| 0 <= j < |es| && es[j] == m[id];
        assert after[if j < p then j else j + 1] == m[id];
      }
    }
  }

  /** Pushing one entry into a full window keeps every other entry or leaves it beyond. */
  lemma KeptOrBeyond(es: seq<Entry>, e: Entry, p: nat, x: Entry)
    requires p <= |es| == MAX_WINDOW_ENTRIES
    requires Ascending(Inserted(es, p, e))
    requires Holds(es, x) || Beyond(es, x)
    ensures Holds(Inserted(es, p, e)[1..], x) || Beyond(Inserted(es, p, e)[1..], x)
  {
    var sorted := Inserted(es, p, e);
    var after := sorted[1..];
    if j :| 0 <= j < |es| && es[j] == x {
      if p <= j {
        assert after[j] == x;
      } else if 0 < j {
        assert after[j - 1] == x;
      } else {
        assert sorted[0] == x;
      }
    } else {
      assert p > 0 ==> sorted[0] == es[0];
    }
  }

  /** A new entry in a full window pushes out the oldest, which may be itself. */
  lemma UpsertIntoFull(es: seq<Entry>, m: Timeline, e: Entry, p: nat)
    requires IsNewest(es, m) && p <= |es| == MAX_WINDOW_ENTRIES
    requires Ascending(Inserted(es, p, e))
    requires e.entryId in m ==> p == 0
    requires e.entryId in m ==> m[e.entryId].sequence == e.sequence
    requires forall i | 0 <= i < |es| :: es[i].entryId != e.entryId
    ensures IsNewest(Inserted(es, p, e)[1..], Learn(m, e))
  {
    var m', sorted := Learn(m, e), Inserted(es, p, e);
    var after := sorted[1..];
    forall id | id in m' ensures Holds(after, m'[id]) || Beyond(after, m'[id]) {
      if id != e.entryId {
        KeptOrBeyond(es, e, p, m[id]);
      } else if p > 0 {
        assert after[p - 1] == e;
      } else {
        assert sorted[0] == e && sorted[1] == after[0];
      }
    }
    forall i | 0 <= i < |after| ensures after[i].entryId in m' && m'[after[i].entryId] == after[i] {
      assert after[i] == sorted[i + 1];
    }
  }

  /** What upserting an entry the window does not hold does to the window. */
  lemma UpsertedNew(w: Window, e: Entry) returns (p: nat)
    requires Ascending(w.entries) && |w.entries| <= MAX_WINDOW_ENTRIES
    requires IndexOfKey(EntryKey, w.entries, e.entryId) == |w.entries|
    requires forall i | 0 <= i < |w.entries| :: w.entries[i].sequence != e.sequence
    ensures p <= |w.entries| && Ascending(Inserted(w.entries, p, e))
    ensures forall i | 0 <= i < p :: w.entries[i].sequence < e.sequence
    ensures Upserted(w, e).entries ==
            if |w.entries| < MAX_WINDOW_ENTRIES then Inserted(w.entries, p, e) else Inserted(w.entries, p, e)[1..]
  {
    p := InsertionPoint(w.entries, e);
    InsertKeepsAscending(w.entries, e, p);
  }

  /** An identifier the window does not list is either new to the timeline or beyond the window. */
  lemma UnlistedIsNewOrBeyond(es: seq<Entry>, m: Timeline, e: Entry)
    requires IsNewest(es, m) && KeyedById(m) && NumberedWith(m, e)
    requires IndexOfKey(EntryKey, es, e.entryId) == |es|
    ensures forall i | 0 <= i < |es| :: es[i].entryId != e.entryId && es[i].sequence != e.sequence
    ensures e.entryId in m ==> !Holds(es, m[e.entryId]) && Beyond(es, e) && m[e.entryId].sequence == e.sequence
  {
    forall i | 0 <= i < |es| ensures es[i].entryId != e.entryId && es[i].sequence != e.sequence {
      assert EntryKey(es[i]) != e.entryId;
    }
  }

  /** An entry a window with room does not list is new to the timeline. */
  lemma NewInRoom(es: seq<Entry>, m: Timeline, e: Entry, p: nat)
    requires IsNewest(es, m) && p <= |es| < MAX_WINDOW_ENTRIES && Ascending(Inserted(es, p, e))
    requires forall i | 0 <= i < |es| :: es[i].entryId != e.entryId
    requires e.entryId in m ==> Beyond(es, e)
    ensures IsNewest(Inserted(es, p, e), Learn(m, e))
  {
    UpsertIntoRoom(es, m, e, p);
  }

  lemma UpsertNew(w: Window, m: Timeline, e: Entry)
    requires IsNewest(w.entries, m) && KeyedById(m) && NumberedWith(m, e)
    requires IndexOfKey(EntryKey, w.entries, e.entryId) == |w.entries|
    ensures IsNewest(Upserted(w, e).entries, Learn(m, e))
    ensures |w.entries| == MAX_WINDOW_ENTRIES ==>
              && |Upserted(w, e).entries| == MAX_WINDOW_ENTRIES
              && w.entries[0].sequence <= Upserted(w, e).entries[0].sequence
  {
    UnlistedIsNewOrBeyond(w.entries, m, e);
    var p := UpsertedNew(w, e);
    if |w.entries| < MAX_WINDOW_ENTRIES {
      NewInRoom(w.entries, m, e, p);
    } else {
      UpsertIntoFull(w.entries, m, e, p);
      PushedUp(w.entries, e, p);
    }
  }

  lemma PushedUp(es: seq<Entry>, e: Entry, p: nat)
    requires p <= |es| && |es| > 0 && Ascending(Inserted(es, p, e))
    ensures es[0].sequence <= Inserted(es, p, e)[1..][0].sequence
  {
    assert Inserted(es, p, e)[1..][0] == Inserted(es, p, e)[1];
  }

  // ----- whole runs

  /** Entries in the window have distinct identifiers, so counting them counts timeline entries. */
  lemma {:induction false} WindowIds(w: seq<Entry>, m: Timeline) returns (ids: set<string>)
    requires Ascending(w)
    requires forall i | 0 <= i < |w| :: w[i].entryId in m && m[w[i].entryId] == w[i]
    ensures |ids| == |w| && ids <= m.Keys
    ensures forall id | id in ids :: Holds(w, m[id])
    ensures forall i | 0 <= i < |w| :: w[i].entryId in ids
  {
    if w == [] {
      ids := {};
    } else {
      var front, last := w[..|w| - 1], w[|w| - 1];
      var rest := WindowIds(front, m);
      assert last.entryId !in rest;
      ids := rest + {last.entryId};
      forall id | id in ids ensures Holds(w, m[id]) {
        if id in rest {
          var j :| 0 <= j < |front| && front[j] == m[id];
          assert w[j] == m[id];
        } else {
          assert w[|w| - 1] == m[id];
        }
      }
      forall i | 0 <= i < |w| ensures w[i].entryId in ids {
        if i < |front| {
          assert front[i] == w[i];
        }
      }
    }
  }

  /** A timeline entry the window does not hold means the timeline outgrew it. */
  lemma MissingMeansMore(w: seq<Entry>, m: Timeline, id: string)
    requires IsNewest(w, m) && id in m && !Holds(w, m[id])
    ensures |m| > MAX_WINDOW_ENTRIES
  {
    var ids := WindowIds(w, m);
    assert ids <= m.Keys - {id};
    SubsetSize(ids, m.Keys - {id});
    assert |m.Keys| == |m|;
  }

  /** The window holds min(64, timeline) entries. */
  lemma NewestSize(w: seq<Entry>, m: Timeline)
    requires IsNewest(w, m) && KeyedById(m)
    ensures |w| == if |m| <= MAX_WINDOW_ENTRIES then |m| else MAX_WINDOW_ENTRIES
  {
    var ids := WindowIds(w, m);
    if id :| id in m && !Holds(w, m[id]) {
      MissingMeansMore(w, m, id);
    } else {
      forall id | id in m ensures id in ids {
        var i :| 0 <= i < |w| && w[i] == m[id];
        assert w[i].entryId == id;
      }
      assert ids == m.Keys;
      assert |m.Keys| == |m|;
    }
  }

  lemma {:induction false} SubsetSize<T>(a: set<T>, b: set<T>)
    requires a <= b
    ensures |a| <= |b|
  {
    assert b == a + (b - a);
  }

  lemma LearnKeepsNumbering(m: Timeline, e: Entry, f: Entry)
    requires KeyedById(m) && NumberedWith(m, e) && NumberedWith(m, f)
    requires e.entryId == f.entryId <==> e.sequence == f.sequence
    ensures KeyedById(Learn(m, e)) && NumberedWith(Learn(m, e), f)
  {
  }

  lemma {:induction false} TimelineStaysNumbered(m: Timeline, run: seq<Entry>, f: Entry)
    requires KeyedById(m) && NumberedWith(m, f)
    requires forall i | 0 <= i < |run| :: NumberedWith(m, run[i])
    requires Numbered(run)
    requires forall i | 0 <= i < |run| :: run[i].entryId == f.entryId <==> run[i].sequence == f.sequence
    ensures KeyedById(LearnAll(m, run)) && NumberedWith(LearnAll(m, run), f)
  {
    if run != [] {
      var front, e := run[..|run| - 1], run[|run| - 1];
      TimelineStaysNumbered(m, front, f);
      TimelineStaysNumbered(m, front, e);
      LearnKeepsNumbering(LearnAll(m, front), e, f);
    }
  }

  /** What a window and its unbounded timeline keep in step, from any related pair. */
  ghost predicate Related(w: Window, m: Timeline, start: Window) {
    && IsNewest(w.entries, m)
    && KeyedById(m)
    && (w.hasOlder <==> start.hasOlder || |m| > MAX_WINDOW_ENTRIES)
    && (w.truncated <==> start.truncated || |m| > MAX_WINDOW_ENTRIES)
  }

  lemma LearnSize(m: Timeline, e: Entry)
    ensures |Learn(m, e)| == |m| + if e.entryId in m then 0 else 1
  {
    assert Learn(m, e).Keys == m.Keys + {e.entryId};
    assert |Learn(m, e).Keys| == |Learn(m, e)| && |m.Keys| == |m|;
  }

  /** A new entry meets a full window. */
  predicate Outgrows(w: Window, e: Entry) {
    IndexOfKey(EntryKey, w.entries, e.entryId) == |w.entries| && |w.entries| >= MAX_WINDOW_ENTRIES
  }

  lemma UpsertFlags(w: Window, e: Entry)
    ensures Upserted(w, e).hasOlder == (w.hasOlder || Outgrows(w, e))
    ensures Upserted(w, e).truncated == (w.truncated || Outgrows(w, e))
  {
    StableSortSorts(SequenceKey, w.entries + [e]);
    assert |multiset(w.entries + [e])| == |w.entries| + 1;
  }

  /** An upsert keeps the window the newest part, and makes the timeline outgrow it exactly when it outgrows it. */
  lemma UpsertKeepsNewest(w: Window, m: Timeline, e: Entry)
    requires IsNewest(w.entries, m) && KeyedById(m) && NumberedWith(m, e)
    ensures IsNewest(Upserted(w, e).entries, Learn(m, e)) && KeyedById(Learn(m, e))
    ensures |Learn(m, e)| > MAX_WINDOW_ENTRIES <==> |m| > MAX_WINDOW_ENTRIES || Outgrows(w, e)
  {
    NewestSize(w.entries, m);
    LearnSize(m, e);
    var i := IndexOfKey(EntryKey, w.entries, e.entryId);
    if i < |w.entries| {
      assert EntryKey(w.entries[i]) == e.entryId;
      UpsertHeld(w, m, e);
    } else {
      UpsertNew(w, m, e);
      if e.entryId in m {
        UnlistedIsNewOrBeyond(w.entries, m, e);
        MissingMeansMore(w.entries, m, e.entryId);
      }
    }
  }

  lemma UpsertKeepsRelated(w: Window, m: Timeline, e: Entry, start: Window)
    requires Related(w, m, start) && NumberedWith(m, e)
    ensures Related(Upserted(w, e), Learn(m, e), start)
  {
    UpsertFlags(w, e);
    UpsertKeepsNewest(w, m, e);
  }

  lemma {:induction false} RunKeepsRelated(w: Window, m: Timeline, run: seq<Entry>, start: Window)
    requires Related(w, m, start) && Numbered(run)
    requires forall i | 0 <= i < |run| :: NumberedWith(m, run[i])
    ensures Related(UpsertAll(w, run), LearnAll(m, run), start)
  {
    if run != [] {
      var front, e := run[..|run| - 1], run[|run| - 1];
      RunKeepsRelated(w, m, front, start);
      TimelineStaysNumbered(m, front, e);
      UpsertKeepsRelated(UpsertAll(w, front), LearnAll(m, front), e, start);
    }
  }

  function EntryRevision(e: Entry): int { e.entryRevision }

  /** What was offered for an entry: the one held first, then each upsert of it. */
  function Offered(m: Timeline, run: seq<Entry>, id: string): seq<Entry> {
    (if id in m then [m[id]] else []) + WithKey(EntryKey, run, id)
  }

  /** `m` holds the first of the highest revisions offered for an entry, if any was. */
  predicate HoldsTheBest(m: Timeline, offers: seq<Entry>, id: string) {
    && (id in m <==> offers != [])
    && (offers != [] ==> m[id] == offers[FirstBest(EntryRevision, offers)])
  }

  lemma LearnsTheBest(m: Timeline, offers: seq<Entry>, e: Entry)
    requires HoldsTheBest(m, offers, e.entryId)
    ensures HoldsTheBest(Learn(m, e), offers + [e], e.entryId)
  {
    if offers != [] {
      FirstBestAppend(EntryRevision, offers, e);
    }
  }

  lemma LearnsNothing(m: Timeline, offers: seq<Entry>, e: Entry, id: string)
    requires HoldsTheBest(m, offers, id) && e.entryId != id
    ensures HoldsTheBest(Learn(m, e), offers + [], id)
  {
    assert offers + [] == offers;
  }

  lemma OfferedAtFirst(m: Timeline, id: string)
    ensures HoldsTheBest(m, Offered(m, [], id), id)
  {
  }

  lemma OfferedStep(m: Timeline, front: seq<Entry>, e: Entry, id: string)
    ensures Offered(m, front + [e], id) == Offered(m, front, id) + if e.entryId == id then [e] else []
  {
    WithKeyAppend(EntryKey, front, e, id);
  }

  /** The timeline holds each entry offered, at the first of the highest revisions offered. */
  lemma {:induction false} TimelineHoldsTheBest(m: Timeline, run: seq<Entry>, id: string)
    ensures HoldsTheBest(LearnAll(m, run), Offered(m, run, id), id)
  {
    if run != [] {
      var front, e := run[..|run| - 1], run[|run| - 1];
      assert run == front + [e];
      TimelineHoldsTheBest(m, front, id);
      OfferedStep(m, front, e, id);
      if e.entryId == id {
        LearnsTheBest(LearnAll(m, front), Offered(m, front, id), e);
      } else {
        LearnsNothing(LearnAll(m, front), Offered(m, front, id), e, id);
      }
    } else {
      OfferedAtFirst(m, id);
    }
  }

  /** The timeline that holds exactly what a window shows. */
  function Shown(entries: seq<Entry>): Timeline {
    LearnAll(map[], entries)
  }

  /** `m` holds exactly the entries listed. */
  predicate Lists(m: Timeline, entries: seq<Entry>) {
    && KeyedById(m)
    && (forall i | 0 <= i < |entries| :: entries[i].entryId in m && m[entries[i].entryId] == entries[i])
    && (forall id | id in m :: Holds(entries, m[id]))
  }

  lemma LearnLists(m: Timeline, front: seq<Entry>, e: Entry)
    requires Lists(m, front) && e.entryId !in m
    ensures Lists(Learn(m, e), front + [e])
  {
    var m', all := Learn(m, e), front + [e];
    forall id | id in m' ensures Holds(all, m'[id]) {
      if id == e.entryId {
        assert all[|front|] == e;
      } else {
        var j :| 0 <= j < |front| && front[j] == m[id];
        assert all[j] == m[id];
      }
    }
  }

  lemma {:induction false} ShownLists(entries: seq<Entry>)
    requires Ascending(entries) && Numbered(entries)
    ensures Lists(Shown(entries), entries)
    ensures |Shown(entries)| == |entries|
  {
    if entries == [] {
      assert Lists(Shown([]), []);
    } else {
      var front, e := entries[..|entries| - 1], entries[|entries| - 1];
      assert entries == front + [e];
      ShownLists(front);
      NotListed(Shown(front), front, e);
      LearnSize(Shown(front), e);
      LearnLists(Shown(front), front, e);
    }
  }

  lemma NotListed(m: Timeline, front: seq<Entry>, e: Entry)
    requires Lists(m, front) && Ascending(front + [e]) && Numbered(front + [e])
    ensures e.entryId !in m
  {
    var all := front + [e];
    forall j | 0 <= j < |front| ensures front[j].entryId != e.entryId {
      assert all[j] == front[j] && all[|front|] == e;
    }
  }

  lemma RunIsNumbered(shown: seq<Entry>, run: seq<Entry>, i: nat)
    requires Ascending(shown) && Numbered(shown + run) && i < |run|
    ensures NumberedWith(Shown(shown), run[i])
  {
    var all, m0 := shown + run, Shown(shown);
    assert forall j | 0 <= j < |shown| :: shown[j] == all[j];
    ShownLists(shown);
    assert all[|shown| + i] == run[i];
    forall id | id in m0 ensures id == run[i].entryId <==> m0[id].sequence == run[i].sequence {
      var j :| 0 <= j < |shown| && shown[j] == m0[id];
      assert all[j].entryId == id;
    }
  }

  /**
   Window refinement. From any ordered window, after any numbered run of upserts, the window is the
   newest 64 of the unbounded timeline, each at its highest revision; `has_older` and `truncated` each
   say whether they said so before or the timeline outgrew the window.
   */
  lemma WindowRefinesTimeline(w: Window, run: seq<Entry>)
    requires Ascending(w.entries) && |w.entries| <= MAX_WINDOW_ENTRIES
    requires Numbered(w.entries + run)
    ensures var m := LearnAll(Shown(w.entries), run);
            && IsNewest(UpsertAll(w, run).entries, m)
            && |UpsertAll(w, run).entries| == (if |m| <= MAX_WINDOW_ENTRIES then |m| else MAX_WINDOW_ENTRIES)
            && (UpsertAll(w, run).hasOlder <==> w.hasOlder || |m| > MAX_WINDOW_ENTRIES)
            && (UpsertAll(w, run).truncated <==> w.truncated || |m| > MAX_WINDOW_ENTRIES)
  {
    var all := w.entries + run;
    assert forall i | 0 <= i < |w.entries| :: w.entries[i] == all[i];
    assert forall i | 0 <= i < |run| :: run[i] == all[|w.entries| + i];
    ShownLists(w.entries);
    var m0 := Shown(w.entries);
    forall i | 0 <= i < |run| ensures NumberedWith(m0, run[i]) {
      RunIsNumbered(w.entries, run, i);
    }
    RunKeepsRelated(w, m0, run, w);
    NewestSize(UpsertAll(w, run).entries, LearnAll(m0, run));
  }

  // ----- the newest part is unique

  /** A timeline entry no older than the window's oldest is in the window. */
  lemma HeldAt(w: seq<Entry>, m: Timeline, id: string) returns (k: nat)
    requires IsNewest(w, m) && id in m
    requires |w| > 0 && w[0].sequence <= m[id].sequence
    ensures k < |w| && w[k] == m[id]
  {
    assert !Beyond(w, m[id]);
    k :| 0 <= k < |w| && w[k] == m[id];
  }

  /** The entry `i` from the end. */
  function FromEnd(w: seq<Entry>, i: nat): Entry
    requires i < |w|
  {
    w[|w| - 1 - i]
  }

  /** If two newest parts agree on their last j entries, the next one of the first is no later. */
  lemma NextIsNoLater(w: seq<Entry>, w': seq<Entry>, m: Timeline, j: nat)
    requires IsNewest(w, m) && IsNewest(w', m)
    requires j < |w| && j < |w'|
    requires forall i | 0 <= i < j :: FromEnd(w, i) == FromEnd(w', i)
    ensures FromEnd(w, j).sequence < FromEnd(w', j).sequence || FromEnd(w, j) == FromEnd(w', j)
  {
    var x, y := FromEnd(w, j), FromEnd(w', j);
    if y.sequence <= x.sequence {
      assert w'[0].sequence <= y.sequence;
      var k := HeldAt(w', m, x.entryId);
      var i := |w'| - 1 - k;
      assert FromEnd(w', i) == x;
    }
  }

  lemma {:induction false} NewestFromTheEnd(w: seq<Entry>, w': seq<Entry>, m: Timeline, j: nat)
    requires IsNewest(w, m) && IsNewest(w', m)
    requires j <= |w| && j <= |w'|
    ensures forall i | 0 <= i < j :: FromEnd(w, i) == FromEnd(w', i)
  {
    if j > 0 {
      NewestFromTheEnd(w, w', m, j - 1);
      NextIsNoLater(w, w', m, j - 1);
      NextIsNoLater(w', w, m, j - 1);
    }
  }

  /** `IsNewest` picks out one window: there is no other newest part of a timeline. */
  lemma NewestIsUnique(w: seq<Entry>, w': seq<Entry>, m: Timeline)
    requires IsNewest(w, m) && IsNewest(w', m) && KeyedById(m)
    ensures w == w'
  {
    NewestSize(w, m);
    NewestSize(w', m);
    NewestFromTheEnd(w, w', m, |w|);
    forall i | 0 <= i < |w| ensures w[i] == w'[i] {
      assert FromEnd(w, |w| - 1 - i) == FromEnd(w', |w| - 1 - i);
    }
  }

  // ----- eviction is final

  lemma {:induction false} FloorOnlyRises(w: Window, m: Timeline, run: seq<Entry>, start: Window)
    requires Related(w, m, start) && Numbered(run)
    requires forall i | 0 <= i < |run| :: NumberedWith(m, run[i])
    requires |w.entries| == MAX_WINDOW_ENTRIES
    ensures |UpsertAll(w, run).entries| == MAX_WINDOW_ENTRIES
    ensures w.entries[0].sequence <= UpsertAll(w, run).entries[0].sequence
  {
    if run != [] {
      var front, e := run[..|run| - 1], run[|run| - 1];
      FloorOnlyRises(w, m, front, start);
      RunKeepsRelated(w, m, front, start);
      TimelineStaysNumbered(m, front, e);
      var mid := UpsertAll(w, front);
      if IndexOfKey(EntryKey, mid.entries, e.entryId) < |mid.entries| {
        UpsertHeld(mid, LearnAll(m, front), e);
      } else {
        UpsertNew(mid, LearnAll(m, front), e);
      }
    }
  }

  /** An entry older than a full window never comes back into it, however often it is upserted. */
  lemma EvictedNeverReturns(w: Window, m: Timeline, run: seq<Entry>, start: Window, gone: string)
    requires Related(w, m, start) && Numbered(run)
    requires forall i | 0 <= i < |run| :: NumberedWith(m, run[i])
    requires gone in m && !Holds(w.entries, m[gone])
    ensures forall i | 0 <= i < |UpsertAll(w, run).entries| :: UpsertAll(w, run).entries[i].entryId != gone
  {
    assert Beyond(w.entries, m[gone]);
    FloorOnlyRises(w, m, run, start);
    RunKeepsRelated(w, m, run, start);
    SequenceForLife(m, run, gone);
    var after := UpsertAll(w, run).entries;
    forall i | 0 <= i < |after| ensures after[i].entryId != gone {
      assert after[0].sequence <= after[i].sequence;
    }
  }

  lemma {:induction false} SequenceForLife(m: Timeline, run: seq<Entry>, id: string)
    requires id in m
    requires forall i | 0 <= i < |run| :: NumberedWith(m, run[i])
    ensures id in LearnAll(m, run) && LearnAll(m, run)[id].sequence == m[id].sequence
  {
    if run != [] {
      SequenceForLife(m, run[..|run| - 1], id);
    }
  }

  // ----- the window a delta leaves

  /** The entries a list of changes upserts, in order. */
  function EntriesOf(changes: seq<Change>): seq<Entry> {
    if changes == [] then []
    else
      EntriesOf(changes[..|changes| - 1]) +
      (var last := changes[|changes| - 1]; if last.UpsertEntry? then [last.entry] else [])
  }

  lemma {:induction false} FilledWindow(s: Snapshot, changes: seq<Change>)
    requires !Filled(s, changes).failed
    ensures Filled(s, changes).snapshot.window == UpsertAll(s.window, EntriesOf(changes))
  {
    if changes != [] {
      var front, last := changes[..|changes| - 1], changes[|changes| - 1];
      FilledWindow(s, front);
      if last.UpsertEntry? {
        assert EntriesOf(changes)[..|EntriesOf(front)|] == EntriesOf(front);
      } else {
        assert EntriesOf(changes) == EntriesOf(front);
      }
    }
  }

  lemma {:induction false} RoutedWindow(s: Snapshot, changes: seq<Change>)
    ensures Routed(s, changes).window == s.window
  {
    if changes != [] {
      RoutedWindow(s, changes[..|changes| - 1]);
    }
  }

  lemma {:induction false} UpsertsKeepMarks(w: Window, run: seq<Entry>)
    requires w.oldestSequence == FirstSequence(w.entries) && w.newestSequence == LastSequence(w.entries)
    ensures var u := UpsertAll(w, run);
            && u.oldestSequence == FirstSequence(u.entries) && u.newestSequence == LastSequence(u.entries)
            && u.historyBoundary == w.historyBoundary
  {
    if run != [] {
      UpsertsKeepMarks(w, run[..|run| - 1]);
    }
  }

  /** An applied delta refines the unbounded timeline by exactly the entries it carries. */
  lemma AppliedDeltaRefinesTimeline(s: Snapshot, d: Delta)
    requires s.window.Valid() && Reduce(s, d).result == Ok(Applied)
    requires Numbered(s.window.entries + EntriesOf(d.changes))
    ensures var m := LearnAll(Shown(s.window.entries), EntriesOf(d.changes));
            && IsNewest(Reduce(s, d).after.window.entries, m)
            && (Reduce(s, d).after.window.hasOlder <==> s.window.hasOlder || |m| > MAX_WINDOW_ENTRIES)
            && (Reduce(s, d).after.window.truncated <==> s.window.truncated || |m| > MAX_WINDOW_ENTRIES)
    ensures var w := Reduce(s, d).after.window;
            && w.oldestSequence == FirstSequence(w.entries) && w.newestSequence == LastSequence(w.entries)
            && w.historyBoundary == s.window.historyBoundary
  {
    UpsertsKeepMarks(s.window, EntriesOf(d.changes));
    RoutedWindow(s, d.changes);
    FilledWindow(Routed(s, d.changes), d.changes);
    WindowRefinesTimeline(s.window, EntriesOf(d.changes));
  }
}

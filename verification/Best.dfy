/** The best of what was offered, by rank: the first of the best, or the last of them. */
module Best {

  function FirstBest<T>(rank: T -> int, offers: seq<T>): (p: nat)
    requires offers != []
    ensures p < |offers|
  {
    if |offers| == 1 then 0
    else
      var p := FirstBest(rank, offers[..|offers| - 1]);
      if rank(offers[|offers| - 1]) > rank(offers[p]) then |offers| - 1 else p
  }

  /** Nothing offered ranks higher, and nothing offered earlier ranks as high. */
  lemma {:induction false} FirstBestIs<T>(rank: T -> int, offers: seq<T>)
    requires offers != []
    ensures forall q | 0 <= q < |offers| :: rank(offers[q]) <= rank(offers[FirstBest(rank, offers)])
    ensures forall q | 0 <= q < FirstBest(rank, offers) :: rank(offers[q]) < rank(offers[FirstBest(rank, offers)])
  {
    if |offers| > 1 {
      var front := offers[..|offers| - 1];
      FirstBestIs(rank, front);
      assert forall q | 0 <= q < |front| :: offers[q] == front[q];
    }
  }

  function LastBest<T>(rank: T -> int, offers: seq<T>): (p: nat)
    requires offers != []
    ensures p < |offers|
  {
    if |offers| == 1 then 0
    else
      var p := LastBest(rank, offers[..|offers| - 1]);
      if rank(offers[|offers| - 1]) >= rank(offers[p]) then |offers| - 1 else p
  }

  /** Nothing offered ranks higher, and nothing offered later ranks as high. */
  lemma {:induction false} LastBestIs<T>(rank: T -> int, offers: seq<T>)
    requires offers != []
    ensures forall q | 0 <= q < |offers| :: rank(offers[q]) <= rank(offers[LastBest(rank, offers)])
    ensures forall q | LastBest(rank, offers) < q < |offers| :: rank(offers[q]) < rank(offers[LastBest(rank, offers)])
  {
    if |offers| > 1 {
      var front := offers[..|offers| - 1];
      LastBestIs(rank, front);
      assert forall q | 0 <= q < |front| :: offers[q] == front[q];
    }
  }

  lemma FirstBestAppend<T>(rank: T -> int, offers: seq<T>, x: T)
    requires offers != []
    ensures FirstBest(rank, offers + [x]) ==
            if rank(x) > rank(offers[FirstBest(rank, offers)]) then |offers| else FirstBest(rank, offers)
  {
    assert (offers + [x])[..|offers|] == offers;
  }

  lemma LastBestAppend<T>(rank: T -> int, offers: seq<T>, x: T)
    requires offers != []
    ensures LastBest(rank, offers + [x]) ==
            if rank(x) >= rank(offers[LastBest(rank, offers)]) then |offers| else LastBest(rank, offers)
  {
    assert (offers + [x])[..|offers|] == offers;
  }
}

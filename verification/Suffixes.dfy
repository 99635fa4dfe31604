/**
 Keeping the newest part of a list within a count and a total weight. `Cut` is where the longest
 suffix that fits begins.
 */
module Suffixes {

  datatype Bound = Bound(count: nat, total: nat)

  function Total<T>(w: T -> nat, xs: seq<T>): nat {
    if xs == [] then 0 else w(xs[0]) + Total(w, xs[1..])
  }

  predicate Fits<T>(w: T -> nat, b: Bound, xs: seq<T>) {
    |xs| <= b.count && Total(w, xs) <= b.total
  }

  function Cut<T>(w: T -> nat, b: Bound, xs: seq<T>): (k: nat)
    ensures k <= |xs|
  {
    if Fits(w, b, xs) then 0 else 1 + Cut(w, b, xs[1..])
  }

  /** Each element's weight, kept beside it. */
  ghost predicate Sized<T>(w: T -> nat, xs: seq<T>, sizes: seq<nat>) {
    |sizes| == |xs| && forall i | 0 <= i < |xs| :: sizes[i] == w(xs[i])
  }

  lemma SizedAppend<T>(w: T -> nat, xs: seq<T>, sizes: seq<nat>, x: T)
    requires Sized(w, xs, sizes)
    ensures Sized(w, xs + [x], sizes + [w(x)]) && Total(w, xs + [x]) == Total(w, xs) + w(x)
  {
    TotalConcat(w, xs, [x]);
  }

  lemma SizedUpdate<T>(w: T -> nat, xs: seq<T>, sizes: seq<nat>, i: nat, x: T)
    requires Sized(w, xs, sizes) && i < |xs|
    ensures sizes[i] <= Total(w, xs) && Sized(w, xs[i := x], sizes[i := w(x)])
    ensures Total(w, xs[i := x]) == Total(w, xs) - sizes[i] + w(x)
  {
    TotalOfUpdate(w, xs, i, x);
    TotalOfSuffix(w, xs, i);
  }

  lemma SizedRest<T>(w: T -> nat, xs: seq<T>, sizes: seq<nat>)
    requires Sized(w, xs, sizes) && xs != []
    ensures Sized(w, xs[1..], sizes[1..]) && Total(w, xs) == sizes[0] + Total(w, xs[1..])
  {
  }

  lemma {:induction false} TotalConcat<T>(w: T -> nat, xs: seq<T>, ys: seq<T>)
    ensures Total(w, xs + ys) == Total(w, xs) + Total(w, ys)
  {
    if xs == [] {
      assert xs + ys == ys;
    } else {
      assert (xs + ys)[1..] == xs[1..] + ys;
      TotalConcat(w, xs[1..], ys);
    }
  }

  lemma TotalOfUpdate<T>(w: T -> nat, xs: seq<T>, i: nat, x: T)
    requires i < |xs|
    ensures Total(w, xs[i := x]) == Total(w, xs) - w(xs[i]) + w(x)
  {
    var front, back := xs[..i], xs[i + 1..];
    assert xs == front + ([xs[i]] + back);
    assert xs[i := x] == front + ([x] + back);
    TotalConcat(w, front, [xs[i]] + back);
    TotalConcat(w, front, [x] + back);
  }

  lemma TotalOfSuffix<T>(w: T -> nat, xs: seq<T>, k: nat)
    requires k <= |xs|
    ensures Total(w, xs[k..]) <= Total(w, xs)
  {
    assert xs == xs[..k] + xs[k..];
    TotalConcat(w, xs[..k], xs[k..]);
  }

  /** Everything from the cut on fits, and nothing longer does. */
  lemma {:induction false} CutIsLongest<T>(w: T -> nat, b: Bound, xs: seq<T>, k: nat)
    requires k <= |xs|
    ensures Fits(w, b, xs[k..]) <==> Cut(w, b, xs) <= k
  {
    if Fits(w, b, xs) {
      TotalOfSuffix(w, xs, k);
    } else if k == 0 {
      assert xs[0..] == xs;
    } else {
      assert xs[1..][k - 1..] == xs[k..];
      CutIsLongest(w, b, xs[1..], k - 1);
    }
  }

  lemma CutIs<T>(w: T -> nat, b: Bound, xs: seq<T>, k: nat)
    requires k <= |xs| && Fits(w, b, xs[k..])
    requires k > 0 ==> !Fits(w, b, xs[k - 1..])
    ensures k == Cut(w, b, xs)
  {
    CutIsLongest(w, b, xs, k);
    if k > 0 {
      CutIsLongest(w, b, xs, k - 1);
    }
  }

  lemma {:induction false} TotalMonotone<T>(w: T -> nat, xs: seq<T>, ys: seq<T>)
    requires |xs| <= |ys| && forall i | 0 <= i < |xs| :: w(xs[i]) <= w(ys[i])
    ensures Total(w, xs) <= Total(w, ys)
  {
    if xs != [] {
      TotalMonotone(w, xs[1..], ys[1..]);
    }
  }

  /** A list that grows, in length and in each entry, is never cut earlier than before. */
  lemma CutMonotone<T>(w: T -> nat, b: Bound, xs: seq<T>, ys: seq<T>)
    requires |xs| <= |ys| && forall i | 0 <= i < |xs| :: w(xs[i]) <= w(ys[i])
    ensures Cut(w, b, xs) <= Cut(w, b, ys)
  {
    var k := Cut(w, b, ys);
    if k <= |xs| {
      CutIsLongest(w, b, ys, k);
      TotalMonotone(w, xs[k..], ys[k..]);
      CutIsLongest(w, b, xs, k);
    }
  }
}

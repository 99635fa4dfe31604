/** An index from keys to absolute positions in a list whose front has been dropped `base` times. */
module Indexing {
  import opened Sequences
  import opened Suffixes

  /** The element at `i` is indexed under its key. */
  predicate Enters<T>(key: T -> string, xs: seq<T>, base: nat, index: map<string, nat>, i: int) {
    0 <= i < |xs| ==> key(xs[i]) in index && index[key(xs[i])] == base + i
  }

  /** An indexed key names an element that has it. */
  predicate Names<T>(key: T -> string, xs: seq<T>, base: nat, index: map<string, nat>, k: string) {
    k in index ==> base <= index[k] < base + |xs| && key(xs[index[k] - base]) == k
  }

  ghost predicate Indexed<T>(key: T -> string, xs: seq<T>, base: nat, index: map<string, nat>) {
    && (forall i {:trigger Enters(key, xs, base, index, i)} :: Enters(key, xs, base, index, i))
    && (forall k {:trigger Names(key, xs, base, index, k)} :: Names(key, xs, base, index, k))
  }

  function Without(index: map<string, nat>, k: string): map<string, nat> {
    map x | x in index && x != k :: index[x]
  }

  /** Looking a key up through the index finds what searching the list would. */
  lemma IndexFinds<T>(key: T -> string, xs: seq<T>, base: nat, index: map<string, nat>, k: string)
    requires Indexed(key, xs, base, index)
    ensures k in index ==> base <= index[k] < base + |xs|
    ensures IndexOfKey(key, xs, k) == if k in index then index[k] - base else |xs|
  {
    assert Enters(key, xs, base, index, IndexOfKey(key, xs, k));
    assert Names(key, xs, base, index, k);
  }

  lemma IndexDropsFirst<T>(key: T -> string, xs: seq<T>, base: nat, index: map<string, nat>)
    requires Indexed(key, xs, base, index) && xs != []
    ensures Indexed(key, xs[1..], base + 1, Without(index, key(xs[0])))
  {
    var rest, next, index' := xs[1..], base + 1, Without(index, key(xs[0]));
    assert Enters(key, xs, base, index, 0);
    forall i ensures Enters(key, rest, next, index', i) {
      assert Enters(key, xs, base, index, i + 1);
    }
    forall k ensures Names(key, rest, next, index', k) {
      assert Names(key, xs, base, index, k);
    }
  }

  lemma IndexKeepsUpdate<T>(key: T -> string, xs: seq<T>, base: nat, index: map<string, nat>, i: nat, x: T)
    requires Indexed(key, xs, base, index) && i < |xs| && key(x) == key(xs[i])
    ensures Indexed(key, xs[i := x], base, index)
  {
    var xs' := xs[i := x];
    forall j ensures Enters(key, xs', base, index, j) {
      assert Enters(key, xs, base, index, j);
    }
    forall k ensures Names(key, xs', base, index, k) {
      assert Names(key, xs, base, index, k);
    }
  }

  lemma IndexAppends<T>(key: T -> string, xs: seq<T>, base: nat, index: map<string, nat>, x: T)
    requires Indexed(key, xs, base, index) && key(x) !in index
    ensures Indexed(key, xs + [x], base, index[key(x) := base + |xs|])
  {
    var index' := index[key(x) := base + |xs|];
    forall j ensures Enters(key, xs + [x], base, index', j) {
      assert Enters(key, xs, base, index, j);
    }
    forall k ensures Names(key, xs + [x], base, index', k) {
      assert Names(key, xs, base, index, k);
    }
  }

  // ----- rows kept with their sizes, their total, an index, and the keys of rows already dropped

  ghost predicate Booked<T>(key: T -> string, w: T -> nat, rows: seq<T>, sizes: seq<nat>, base: nat,
                            index: map<string, nat>, dropped: set<string>, total: nat) {
    Sized(w, rows, sizes) && Indexed(key, rows, base, index) && index.Keys !! dropped && total == Total(w, rows)
  }

  lemma BookedRest<T>(key: T -> string, w: T -> nat, rows: seq<T>, sizes: seq<nat>, base: nat,
                      index: map<string, nat>, dropped: set<string>, total: nat)
    requires Booked(key, w, rows, sizes, base, index, dropped, total) && rows != []
    ensures sizes != [] && sizes[0] <= total
    ensures Booked(key, w, rows[1..], sizes[1..], base + 1, Without(index, key(rows[0])),
                   dropped + {key(rows[0])}, total - sizes[0])
  {
    SizedRest(w, rows, sizes);
    IndexDropsFirst(key, rows, base, index);
  }

  lemma BookedUpdate<T>(key: T -> string, w: T -> nat, rows: seq<T>, sizes: seq<nat>, base: nat,
                        index: map<string, nat>, dropped: set<string>, total: nat, i: nat, x: T)
    requires Booked(key, w, rows, sizes, base, index, dropped, total) && i < |rows| && key(x) == key(rows[i])
    ensures |sizes| == |rows| && sizes[i] <= total
    ensures Booked(key, w, rows[i := x], sizes[i := w(x)], base, index, dropped, total - sizes[i] + w(x))
  {
    SizedUpdate(w, rows, sizes, i, x);
    IndexKeepsUpdate(key, rows, base, index, i, x);
  }

  lemma BookedAppend<T>(key: T -> string, w: T -> nat, rows: seq<T>, sizes: seq<nat>, base: nat,
                        index: map<string, nat>, dropped: set<string>, total: nat, x: T)
    requires Booked(key, w, rows, sizes, base, index, dropped, total) && key(x) !in index && key(x) !in dropped
    ensures Booked(key, w, rows + [x], sizes + [w(x)], base, index[key(x) := base + |rows|], dropped, total + w(x))
  {
    SizedAppend(w, rows, sizes, x);
    IndexAppends(key, rows, base, index, x);
  }
}

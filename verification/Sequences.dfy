/** Sequence operations the host borrows from its standard library. */
module Sequences {
  import opened Wrappers

  /** The first position whose key is `k`, or `|xs|` when there is none. */
  function IndexOfKey<T>(key: T -> string, xs: seq<T>, k: string): (i: nat)
    ensures i <= |xs|
    ensures i < |xs| ==> key(xs[i]) == k
    ensures forall j | 0 <= j < i :: key(xs[j]) != k
  {
    if xs == [] then 0 else if key(xs[0]) == k then 0 else 1 + IndexOfKey(key, xs[1..], k)
  }

  /** Searching a concatenation searches the front first. */
  lemma {:induction false} IndexOfConcat<T>(key: T -> string, xs: seq<T>, ys: seq<T>, k: string)
    ensures IndexOfKey(key, xs + ys, k) ==
            if IndexOfKey(key, xs, k) < |xs| then IndexOfKey(key, xs, k) else |xs| + IndexOfKey(key, ys, k)
  {
    if xs == [] {
      assert xs + ys == ys;
    } else {
      assert (xs + ys)[1..] == xs[1..] + ys;
      IndexOfConcat(key, xs[1..], ys, k);
    }
  }

  function Keys<T, K>(key: T -> K, xs: seq<T>): (ks: seq<K>)
    ensures |ks| == |xs| && forall i | 0 <= i < |xs| :: ks[i] == key(xs[i])
  {
    if xs == [] then [] else Keys(key, xs[..|xs| - 1]) + [key(xs[|xs| - 1])]
  }

  predicate DistinctKeys<T>(key: T -> string, xs: seq<T>) {
    forall i, j | 0 <= i < j < |xs| :: key(xs[i]) != key(xs[j])
  }

  // ----- stable sorting by an integer key

  predicate SortedBy<T>(key: T -> int, xs: seq<T>) {
    forall i, j | 0 <= i < j < |xs| :: key(xs[i]) <= key(xs[j])
  }

  /** Places `x` after everything whose key is not larger. */
  function InsertSorted<T>(key: T -> int, xs: seq<T>, x: T): seq<T> {
    if xs == [] then [x]
    else if key(xs[|xs| - 1]) <= key(x) then xs + [x]
    else InsertSorted(key, xs[..|xs| - 1], x) + [xs[|xs| - 1]]
  }

  function StableSort<T>(key: T -> int, xs: seq<T>): seq<T> {
    if xs == [] then [] else InsertSorted(key, StableSort(key, xs[..|xs| - 1]), xs[|xs| - 1])
  }

  lemma InsertedBeforeLast<T>(front: seq<T>, p: nat, x: T, last: T)
    requires p <= |front|
    ensures var xs := front + [last];
            xs[..p] + [x] + xs[p..] == (front[..p] + [x] + front[p..]) + [last]
  {
  }

  /** Where an insertion into a sorted sequence lands. */
  lemma {:induction false} InsertPosition<T>(key: T -> int, xs: seq<T>, x: T) returns (p: nat)
    requires SortedBy(key, xs)
    ensures p <= |xs|
    ensures InsertSorted(key, xs, x) == xs[..p] + [x] + xs[p..]
    ensures forall i | 0 <= i < p :: key(xs[i]) <= key(x)
    ensures forall i | p <= i < |xs| :: key(x) < key(xs[i])
  {
    if xs == [] || key(xs[|xs| - 1]) <= key(x) {
      p := |xs|;
      assert xs[..p] + [x] + xs[p..] == xs + [x];
      assert forall i | 0 <= i < p :: key(xs[i]) <= key(xs[|xs| - 1]);
    } else {
      var front, last := xs[..|xs| - 1], xs[|xs| - 1];
      p := InsertPosition(key, front, x);
      assert xs == front + [last];
      InsertedBeforeLast(front, p, x, last);
      assert forall i | p <= i < |xs| :: xs[i] == if i < |front| then front[i] else last;
    }
  }

  predicate Below<T>(key: T -> int, xs: seq<T>, bound: int) {
    forall i | 0 <= i < |xs| :: key(xs[i]) <= bound
  }

  lemma SortedAppend<T>(key: T -> int, xs: seq<T>, x: T)
    requires SortedBy(key, xs) && Below(key, xs, key(x))
    ensures SortedBy(key, xs + [x])
  {
  }

  lemma {:induction false} InsertBelow<T>(key: T -> int, xs: seq<T>, x: T, bound: int)
    requires Below(key, xs, bound) && key(x) <= bound
    ensures Below(key, InsertSorted(key, xs, x), bound)
  {
    if xs != [] && key(xs[|xs| - 1]) > key(x) {
      InsertBelow(key, xs[..|xs| - 1], x, bound);
    }
  }

  lemma {:induction false} InsertKeepsSorted<T>(key: T -> int, xs: seq<T>, x: T)
    requires SortedBy(key, xs)
    ensures SortedBy(key, InsertSorted(key, xs, x))
  {
    if xs == [] {
    } else if key(xs[|xs| - 1]) <= key(x) {
      SortedAppend(key, xs, x);
    } else {
      var front, last := xs[..|xs| - 1], xs[|xs| - 1];
      InsertKeepsSorted(key, front, x);
      InsertBelow(key, front, x, key(last));
      SortedAppend(key, InsertSorted(key, front, x), last);
    }
  }

  lemma {:induction false} InsertPermutes<T>(key: T -> int, xs: seq<T>, x: T)
    ensures multiset(InsertSorted(key, xs, x)) == multiset(xs) + multiset{x}
  {
    if xs != [] && key(xs[|xs| - 1]) > key(x) {
      InsertPermutes(key, xs[..|xs| - 1], x);
      assert xs == xs[..|xs| - 1] + [xs[|xs| - 1]];
    }
  }

  /** The result is sorted and is a permutation of what was given. */
  lemma {:induction false} StableSortSorts<T>(key: T -> int, xs: seq<T>)
    ensures SortedBy(key, StableSort(key, xs)) && multiset(StableSort(key, xs)) == multiset(xs)
  {
    if xs == [] {
    } else {
      var front, x := xs[..|xs| - 1], xs[|xs| - 1];
      var sorted := StableSort(key, front);
      assert SortedBy(key, sorted) && multiset(sorted) == multiset(front) by {
        StableSortSorts(key, front);
      }
      InsertKeepsSorted(key, sorted, x);
      InsertPermutes(key, sorted, x);
      assert multiset(xs) == multiset(front) + multiset{x} by {
        assert xs == front + [x];
      }
    }
  }

  /** The elements whose key is `k`, in their order. */
  function WithKey<T, K(==)>(key: T -> K, xs: seq<T>, k: K): seq<T> {
    if xs == [] then [] else WithKey(key, xs[..|xs| - 1], k) + IfKey(key, xs[|xs| - 1], k)
  }

  function IfKey<T, K(==)>(key: T -> K, x: T, k: K): seq<T> {
    if key(x) == k then [x] else []
  }

  lemma WithKeyAppend<T, K>(key: T -> K, xs: seq<T>, x: T, k: K)
    ensures WithKey(key, xs + [x], k) == WithKey(key, xs, k) + IfKey(key, x, k)
  {
    assert (xs + [x])[..|xs|] == xs;
  }

  lemma Associates<T>(a: seq<T>, b: seq<T>, c: seq<T>)
    ensures (a + b) + c == a + (b + c)
  {
  }

  lemma {:induction false} WithKeyConcat<T, K>(key: T -> K, xs: seq<T>, ys: seq<T>, k: K)
    ensures WithKey(key, xs + ys, k) == WithKey(key, xs, k) + WithKey(key, ys, k)
  {
    if ys == [] {
      assert xs + ys == xs;
    } else {
      var front, last := ys[..|ys| - 1], ys[|ys| - 1];
      assert ys == front + [last];
      WithKeyConcat(key, xs, front, k);
      WithKeyAppend(key, xs + front, last, k);
      Associates(xs, front, [last]);
      Associates(WithKey(key, xs, k), WithKey(key, front, k), IfKey(key, last, k));
    }
  }

  lemma {:induction false} WithKeyAbsent<T, K>(key: T -> K, xs: seq<T>, k: K)
    requires forall i | 0 <= i < |xs| :: key(xs[i]) != k
    ensures WithKey(key, xs, k) == []
  {
    if xs != [] {
      WithKeyAbsent(key, xs[..|xs| - 1], k);
    }
  }

  lemma WithKeyOne<T, K>(key: T -> K, x: T, k: K)
    ensures WithKey(key, [x], k) == IfKey(key, x, k)
  {
    assert [x][..0] == [];
  }

  lemma WithKeyParts<T, K>(key: T -> K, a: seq<T>, x: T, b: seq<T>, k: K)
    ensures WithKey(key, (a + [x]) + b, k) == (WithKey(key, a, k) + IfKey(key, x, k)) + WithKey(key, b, k)
  {
    WithKeyConcat(key, a + [x], b, k);
    WithKeyAppend(key, a, x, k);
  }

  /** The elements with a key, on either side of a position and at it, whatever is put there. */
  lemma WithKeySplit<T, K>(key: T -> K, xs: seq<T>, i: nat, x: T, k: K)
    requires i < |xs|
    ensures WithKey(key, xs[i := x], k) ==
            (WithKey(key, xs[..i], k) + IfKey(key, x, k)) + WithKey(key, xs[i + 1..], k)
  {
    assert xs[i := x] == (xs[..i] + [x]) + xs[i + 1..];
    WithKeyParts(key, xs[..i], x, xs[i + 1..], k);
  }

  lemma NothingBefore<T>(before: seq<T>, at: seq<T>, after: seq<T>)
    requires before == []
    ensures (before + at) + after == at + after
  {
  }

  lemma WithKeyAtFirst<T, K>(key: T -> K, xs: seq<T>, i: nat, x: T)
    requires i < |xs| && forall j | 0 <= j < i :: key(xs[j]) != key(x)
    ensures WithKey(key, xs[i := x], key(x)) == [x] + WithKey(key, xs[i + 1..], key(x))
  {
    WithKeySplit(key, xs, i, x, key(x));
    WithKeyAbsent(key, xs[..i], key(x));
    NothingBefore(WithKey(key, xs[..i], key(x)), [x], WithKey(key, xs[i + 1..], key(x)));
  }

  /** The first of the elements with a key is the one a search finds. */
  lemma WithKeyFirst<T>(key: T -> string, xs: seq<T>, k: string)
    ensures var i := IndexOfKey(key, xs, k);
            WithKey(key, xs, k) == if i < |xs| then [xs[i]] + WithKey(key, xs[i + 1..], k) else []
  {
    var i := IndexOfKey(key, xs, k);
    if i < |xs| {
      assert xs[i := xs[i]] == xs;
      WithKeyAtFirst(key, xs, i, xs[i]);
    } else {
      WithKeyAbsent(key, xs, k);
    }
  }

  /** Replacing an element by one with its key leaves the elements with other keys. */
  lemma WithKeyUpdate<T, K>(key: T -> K, xs: seq<T>, i: nat, x: T, k: K)
    requires i < |xs| && key(x) == key(xs[i]) != k
    ensures WithKey(key, xs[i := x], k) == WithKey(key, xs, k)
  {
    assert xs[i := xs[i]] == xs;
    WithKeySplit(key, xs, i, xs[i], k);
    WithKeySplit(key, xs, i, x, k);
  }

  lemma Behead<T>(whole: seq<T>, first: T, rest: seq<T>)
    requires whole == [first] + rest
    ensures whole != [] && whole[1..] == rest
  {
  }

  /** Replacing the first element a search finds replaces the first of the elements with that key. */
  lemma WithKeyReplaceFirst<T>(key: T -> string, xs: seq<T>, x: T)
    requires IndexOfKey(key, xs, key(x)) < |xs|
    ensures WithKey(key, xs, key(x)) != []
    ensures WithKey(key, xs[IndexOfKey(key, xs, key(x)) := x], key(x)) == [x] + WithKey(key, xs, key(x))[1..]
  {
    var i, k := IndexOfKey(key, xs, key(x)), key(x);
    WithKeyFirst(key, xs, k);
    Behead(WithKey(key, xs, k), xs[i], WithKey(key, xs[i + 1..], k));
    WithKeyAtFirst(key, xs, i, x);
  }

  lemma KeyListed<T, K>(key: T -> K, xs: seq<T>, k: K)
    ensures k in Keys(key, xs) <==> WithKey(key, xs, k) != []
  {
    if k in Keys(key, xs) {
      var i :| 0 <= i < |xs| && Keys(key, xs)[i] == k;
      assert xs[i := xs[i]] == xs;
      WithKeySplit(key, xs, i, xs[i], k);
    } else {
      forall i | 0 <= i < |xs| ensures key(xs[i]) != k {
        assert Keys(key, xs)[i] == key(xs[i]);
      }
      WithKeyAbsent(key, xs, k);
    }
  }

  lemma WithKeyDropFirst<T, K>(key: T -> K, xs: seq<T>, k: K)
    requires xs != []
    ensures WithKey(key, xs, k) == IfKey(key, xs[0], k) + WithKey(key, xs[1..], k)
  {
    assert xs == [xs[0]] + xs[1..];
    WithKeyConcat(key, [xs[0]], xs[1..], k);
    WithKeyOne(key, xs[0], k);
  }

  lemma SwapWithEmpty<T>(a: seq<T>, b: seq<T>, c: seq<T>)
    requires b == [] || c == []
    ensures (a + b) + c == (a + c) + b
  {
  }

  /** An insertion goes behind every element with its key. */
  lemma {:induction false} InsertIsStable<T>(key: T -> int, xs: seq<T>, x: T, k: int)
    ensures WithKey(key, InsertSorted(key, xs, x), k) == WithKey(key, xs, k) + IfKey(key, x, k)
  {
    if xs == [] {
    } else if key(xs[|xs| - 1]) <= key(x) {
      WithKeyAppend(key, xs, x, k);
    } else {
      var front, last := xs[..|xs| - 1], xs[|xs| - 1];
      InsertIsStable(key, front, x, k);
      WithKeyAppend(key, InsertSorted(key, front, x), last, k);
      SwapWithEmpty(WithKey(key, front, k), IfKey(key, x, k), IfKey(key, last, k));
    }
  }

  /** Elements with equal keys keep the order they came in. */
  lemma {:induction false} StableSortIsStable<T>(key: T -> int, xs: seq<T>, k: int)
    ensures WithKey(key, StableSort(key, xs), k) == WithKey(key, xs, k)
  {
    if xs != [] {
      StableSortIsStable(key, xs[..|xs| - 1], k);
      InsertIsStable(key, StableSort(key, xs[..|xs| - 1]), xs[|xs| - 1], k);
    }
  }

  /** Sorting what is already sorted changes nothing. */
  lemma {:induction false} StableSortFixes<T>(key: T -> int, xs: seq<T>)
    requires SortedBy(key, xs)
    ensures StableSort(key, xs) == xs
  {
    if xs != [] {
      StableSortFixes(key, xs[..|xs| - 1]);
      assert xs == xs[..|xs| - 1] + [xs[|xs| - 1]];
    }
  }

  lemma SameLength<T>(xs: seq<T>, ys: seq<T>)
    requires multiset(xs) == multiset(ys)
    ensures |xs| == |ys|
  {
    assert |multiset(xs)| == |xs| && |multiset(ys)| == |ys|;
  }

  // ----- subsequences

  predicate IsSubsequence<T(==)>(xs: seq<T>, ys: seq<T>) {
    if xs == [] then true
    else if ys == [] then false
    else if xs[|xs| - 1] == ys[|ys| - 1] then IsSubsequence(xs[..|xs| - 1], ys[..|ys| - 1])
    else IsSubsequence(xs, ys[..|ys| - 1])
  }

  lemma {:induction false} SubsequenceWithoutLast<T>(xs: seq<T>, ys: seq<T>)
    requires IsSubsequence(xs, ys) && xs != []
    ensures IsSubsequence(xs[..|xs| - 1], ys)
    decreases |ys|
  {
    var front := xs[..|xs| - 1];
    if xs[|xs| - 1] == ys[|ys| - 1] {
      if front != [] && front[|front| - 1] == ys[|ys| - 1] {
        SubsequenceWithoutLast(front, ys[..|ys| - 1]);
      }
    } else {
      SubsequenceWithoutLast(xs, ys[..|ys| - 1]);
      if front != [] && front[|front| - 1] == ys[|ys| - 1] {
        SubsequenceWithoutLast(front, ys[..|ys| - 1]);
      }
    }
  }

  /** More to pick from, picked or not. */
  lemma SubsequenceOfMore<T>(xs: seq<T>, ys: seq<T>, y: T)
    requires IsSubsequence(xs, ys)
    ensures IsSubsequence(xs, ys + [y]) && IsSubsequence(xs + [y], ys + [y])
  {
    assert (ys + [y])[..|ys|] == ys && (xs + [y])[..|xs|] == xs;
    if xs != [] && xs[|xs| - 1] == y {
      SubsequenceWithoutLast(xs, ys);
    }
  }

  // ----- the last to name something

  /** The value given by the last element that names one, or the one held. */
  function Last<C, T>(names: C -> Option<T>, xs: seq<C>, held: T): T {
    if xs == [] then held
    else
      var named := names(xs[|xs| - 1]);
      if named.Some? then named.value else Last(names, xs[..|xs| - 1], held)
  }

  /** By position: the element at `i` names a value and none after it does. */
  lemma {:induction false} LastByPosition<C, T>(names: C -> Option<T>, xs: seq<C>, held: T, i: nat)
    requires i < |xs| && names(xs[i]).Some?
    requires forall j | i < j < |xs| :: names(xs[j]).None?
    ensures Last(names, xs, held) == names(xs[i]).value
  {
    if i < |xs| - 1 {
      LastByPosition(names, xs[..|xs| - 1], held, i);
    }
  }

  lemma {:induction false} LastWhenUnnamed<C, T>(names: C -> Option<T>, xs: seq<C>, held: T)
    requires forall j | 0 <= j < |xs| :: names(xs[j]).None?
    ensures Last(names, xs, held) == held
  {
    if xs != [] {
      LastWhenUnnamed(names, xs[..|xs| - 1], held);
    }
  }

  lemma LastAppend<C, T>(names: C -> Option<T>, xs: seq<C>, x: C, held: T)
    ensures Last(names, xs + [x], held) == if names(x).Some? then names(x).value else Last(names, xs, held)
  {
    assert (xs + [x])[..|xs|] == xs;
  }
}

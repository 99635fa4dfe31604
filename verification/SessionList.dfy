/**
 The session list a client is sent: newest first, at most sixty-four, cut until one frame holds it.
 The frame's encoded size is a parameter, for any way of writing a descriptor.
 */
module SessionList {
  import opened Numbers
  import opened Sequences
  import Protocol

  const U32_LIMIT := 0x1_0000_0000

  function SaturatingAdd(a: nat, b: nat): nat {
    if a + b < U32_LIMIT then a + b else U32_LIMIT - 1
  }

  /** Newest first. */
  function NewestFirst<D>(updatedAt: D -> nat): D -> int {
    d => 0 - updatedAt(d)
  }

  /** The omission count when the newest `k` of `n` descriptors are listed; the count past the bound is a u32 cast. */
  function Omitted(already: nat, n: nat, k: nat): nat
    requires k <= n && k <= Protocol.MAX_SESSIONS
  {
    var bounded := Min(n, Protocol.MAX_SESSIONS);
    SaturatingAdd(SaturatingAdd(already, (n - bounded) % U32_LIMIT), if k <= bounded then bounded - k else 0)
  }

  predicate TooLong<D>(frameBytes: (seq<D>, nat) -> nat, sorted: seq<D>, already: nat, k: nat)
    requires k <= |sorted| && k <= Protocol.MAX_SESSIONS
  {
    frameBytes(sorted[..k], Omitted(already, |sorted|, k)) > Protocol.MAX_FRAME_BYTES
  }

  /** Lists the longest newest-first prefix whose frame fits, or nothing when none does. */
  method BoundedSessionList<D>(updatedAt: D -> nat, frameBytes: (seq<D>, nat) -> nat,
                               descriptors: seq<D>, already: nat)
    returns (sessions: seq<D>, omitted: nat)
    requires already < U32_LIMIT
    ensures var sorted := StableSort(NewestFirst(updatedAt), descriptors);
            && |sessions| <= Min(|sorted|, Protocol.MAX_SESSIONS) && sessions == sorted[..|sessions|]
            && omitted == Omitted(already, |sorted|, |sessions|)
            && (sessions != [] ==> !TooLong(frameBytes, sorted, already, |sessions|))
            && forall k | |sessions| < k <= Min(|sorted|, Protocol.MAX_SESSIONS) ::
                 TooLong(frameBytes, sorted, already, k)
    ensures already + |descriptors| - |sessions| < U32_LIMIT ==> omitted + |sessions| == already + |descriptors|
  {
    var sorted := StableSort(NewestFirst(updatedAt), descriptors);
    assert |sorted| == |descriptors| by {
      StableSortSorts(NewestFirst(updatedAt), descriptors);
      SameLength(sorted, descriptors);
    }
    ghost var bounded := Min(|sorted|, Protocol.MAX_SESSIONS);
    var beyond := if |sorted| > Protocol.MAX_SESSIONS then |sorted| - Protocol.MAX_SESSIONS else 0;
    omitted := SaturatingAdd(already, beyond % U32_LIMIT);
    sessions := if |sorted| > Protocol.MAX_SESSIONS then sorted[..Protocol.MAX_SESSIONS] else sorted;
    while frameBytes(sessions, omitted) > Protocol.MAX_FRAME_BYTES
      invariant |sessions| <= bounded && sessions == sorted[..|sessions|]
      invariant omitted == Omitted(already, |sorted|, |sessions|)
      invariant forall k | |sessions| < k <= bounded :: TooLong(frameBytes, sorted, already, k)
      decreases |sessions|
    {
      if sessions == [] {
        break;
      }
      assert TooLong(frameBytes, sorted, already, |sessions|);
      sessions := sessions[..|sessions| - 1];
      omitted := SaturatingAdd(omitted, 1);
    }
  }

  /**
   Whatever prefix is listed, what is listed and what is left out are the descriptors given, nothing left out
   is newer than anything listed, and equally old descriptors keep their order.
   */
  lemma ListedAreTheNewest<D>(updatedAt: D -> nat, descriptors: seq<D>, k: nat, age: int)
    requires k <= |descriptors|
    ensures var sorted := StableSort(NewestFirst(updatedAt), descriptors);
            && |sorted| == |descriptors|
            && multiset(sorted[..k]) + multiset(sorted[k..]) == multiset(descriptors)
            && (forall i, j | 0 <= i < k <= j < |sorted| :: updatedAt(sorted[j]) <= updatedAt(sorted[i]))
            && WithKey(NewestFirst(updatedAt), sorted, age) == WithKey(NewestFirst(updatedAt), descriptors, age)
  {
    var key := NewestFirst(updatedAt);
    var sorted := StableSort(key, descriptors);
    StableSortSorts(key, descriptors);
    StableSortIsStable(key, descriptors, age);
    SameLength(sorted, descriptors);
    assert sorted == sorted[..k] + sorted[k..];
    forall i, j | 0 <= i < k <= j < |sorted| ensures updatedAt(sorted[j]) <= updatedAt(sorted[i]) {
      assert key(sorted[i]) <= key(sorted[j]);
    }
  }
}

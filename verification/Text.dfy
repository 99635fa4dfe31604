/**
 Text as the protocol measures it. A Dafny `char` is a Unicode scalar value, exactly a Rust
 `char`, so `string` stands for `str`. Two weights matter: the UTF-8 bytes of a character
 (section 3 of RFC 3629) and the bytes it occupies inside a JSON string (section 7 of RFC 8259).
 */
module Text {

  /** UTF-8 bytes of one character. */
  function CharBytes(c: char): nat {
    var p := c as int;
    if p < 0x80 then 1 else if p < 0x800 then 2 else if p < 0x1_0000 then 3 else 4
  }

  /** Bytes of one character inside a JSON string. */
  function EscapedBytes(c: char): nat {
    var p := c as int;
    if c == '\"' || c == '\\' || c == '\n' || c == '\r' || c == '\t' || p == 8 || p == 12 then 2
    else if p < 0x20 then 6
    else CharBytes(c)
  }

  function Weight(w: char -> nat, s: string): nat {
    if s == "" then 0 else Weight(w, s[..|s| - 1]) + w(s[|s| - 1])
  }

  function ByteLen(s: string): nat {
    Weight(CharBytes, s)
  }

  function JsonLen(s: string): nat {
    Weight(EscapedBytes, s)
  }

  /** The number of characters in the longest prefix of `s` weighing at most `budget`. */
  function LongestWithin(w: char -> nat, s: string, budget: nat): (k: nat)
    ensures k <= |s| && Weight(w, s[..k]) <= budget
  {
    if Weight(w, s) <= budget then
      assert s[..|s|] == s;
      |s|
    else
      var k := LongestWithin(w, s[..|s| - 1], budget);
      assert s[..|s| - 1][..k] == s[..k];
      k
  }

  lemma {:induction false} WeightConcat(w: char -> nat, a: string, b: string)
    ensures Weight(w, a + b) == Weight(w, a) + Weight(w, b)
    decreases |b|
  {
    if b == "" {
      assert a + b == a;
    } else {
      assert (a + b)[..|a + b| - 1] == a + b[..|b| - 1];
      WeightConcat(w, a, b[..|b| - 1]);
    }
  }

  lemma WeightSplit(w: char -> nat, s: string, i: nat, j: nat)
    requires i <= j <= |s|
    ensures Weight(w, s[..j]) == Weight(w, s[..i]) + Weight(w, s[i..j])
  {
    assert s[..j] == s[..i] + s[i..j];
    WeightConcat(w, s[..i], s[i..j]);
  }

  /** Growing a prefix never makes it lighter. */
  lemma WeightMonotone(w: char -> nat, s: string, i: nat, j: nat)
    requires i <= j <= |s|
    ensures Weight(w, s[..i]) <= Weight(w, s[..j])
  {
    WeightSplit(w, s, i, j);
  }

  /** A prefix fits a budget exactly when it is no longer than the longest one that does. */
  lemma {:induction false} FitsIffShorter(w: char -> nat, s: string, budget: nat, j: nat)
    requires j <= |s|
    ensures Weight(w, s[..j]) <= budget <==> j <= LongestWithin(w, s, budget)
    decreases |s|
  {
    assert s[..|s|] == s;
    if Weight(w, s) <= budget {
      WeightMonotone(w, s, j, |s|);
    } else if j < |s| {
      assert s[..|s| - 1][..j] == s[..j];
      FitsIffShorter(w, s[..|s| - 1], budget, j);
    }
  }

  /** The two properties of `LongestWithin` that identify it. */
  lemma LongestIs(w: char -> nat, s: string, budget: nat, k: nat)
    requires k <= |s| && Weight(w, s[..k]) <= budget
    requires k == |s| || budget < Weight(w, s[..k + 1])
    ensures k == LongestWithin(w, s, budget)
  {
    FitsIffShorter(w, s, budget, k);
    if k < |s| {
      FitsIffShorter(w, s, budget, k + 1);
    }
  }

  /** The longest prefix of a text that fits. */
  ghost predicate LongestPrefix(part: string, text: string, limit: nat) {
    && part <= text && ByteLen(part) <= limit
    && forall n | |part| < n <= |text| :: ByteLen(text[..n]) > limit
  }

  lemma LongestWithinIsLongest(text: string, limit: nat)
    ensures LongestPrefix(text[..LongestWithin(CharBytes, text, limit)], text, limit)
    ensures ByteLen(text) <= limit ==> LongestPrefix(text, text, limit)
  {
    var k := LongestWithin(CharBytes, text, limit);
    forall n | k < n <= |text| ensures ByteLen(text[..n]) > limit {
      FitsIffShorter(CharBytes, text, limit, n);
    }
  }

  /** The longest fitting prefix of a prefix is the shorter of the two. */
  lemma LongestOfPrefix(w: char -> nat, s: string, n: nat, budget: nat)
    requires n <= |s|
    ensures LongestWithin(w, s[..n], budget) ==
            if n <= LongestWithin(w, s, budget) then n else LongestWithin(w, s, budget)
  {
    var k := LongestWithin(w, s, budget);
    var r := if n <= k then n else k;
    assert s[..n][..r] == s[..r];
    FitsIffShorter(w, s, budget, r);
    if r < n {
      FitsIffShorter(w, s, budget, r + 1);
      assert s[..n][..r + 1] == s[..r + 1];
    }
    LongestIs(w, s[..n], budget, r);
  }

  /** No character takes fewer bytes in JSON than in UTF-8, nor more than six times as many. */
  lemma {:induction false} JsonLenBounds(s: string)
    ensures |s| <= ByteLen(s) <= JsonLen(s) <= 6 * ByteLen(s)
    ensures ByteLen(s) <= 4 * |s|
  {
    if s != "" {
      JsonLenBounds(s[..|s| - 1]);
    }
  }

  /** Distinct character counts have distinct byte offsets, so an offset names one cut. */
  lemma ByteOffsetInjective(s: string, i: nat, j: nat)
    requires i <= |s| && j <= |s|
    requires ByteLen(s[..i]) == ByteLen(s[..j])
    ensures i == j
  {
    if i < j {
      WeightSplit(CharBytes, s, i, j);
      JsonLenBounds(s[i..j]);
    } else if j < i {
      WeightSplit(CharBytes, s, j, i);
      JsonLenBounds(s[j..i]);
    }
  }

  /** Cutting at the byte offset of a character boundary keeps exactly those characters. */
  lemma FloorOfBoundary(s: string, k: nat)
    requires k <= |s|
    ensures LongestWithin(CharBytes, s, ByteLen(s[..k])) == k
  {
    if k < |s| {
      WeightSplit(CharBytes, s, k, k + 1);
      JsonLenBounds(s[k..k + 1]);
    }
    LongestIs(CharBytes, s, ByteLen(s[..k]), k);
  }

  predicate IsCharBoundary(s: string, offset: nat) {
    exists k | 0 <= k <= |s| :: ByteLen(s[..k]) == offset
  }

  /**
   Steps a byte limit down to a character boundary and keeps the characters before it. The
   result is the longest prefix within the limit, and it is returned by its character count.
   */
  method FloorCharBoundary(s: string, limit: nat) returns (k: nat)
    ensures k == LongestWithin(CharBytes, s, limit)
  {
    var boundary := if limit <= ByteLen(s) then limit else ByteLen(s);
    assert s[..0] == "" && s[..|s|] == s;
    ghost var floor := LongestWithin(CharBytes, s, limit);
    assert ByteLen(s[..floor]) <= boundary by {
      WeightMonotone(CharBytes, s, floor, |s|);
    }
    while !IsCharBoundary(s, boundary)
      invariant ByteLen(s[..floor]) <= boundary <= limit
      decreases boundary
    {
      assert ByteLen(s[..floor]) != boundary;
      boundary := boundary - 1;
    }
    k :| 0 <= k <= |s| && ByteLen(s[..k]) == boundary;
    FitsIffShorter(CharBytes, s, limit, k);
    if k < floor {
      WeightMonotone(CharBytes, s, k, floor);
      ByteOffsetInjective(s, k, floor);
    }
  }

  /** The byte length of the longest prefix of `s` whose JSON encoding fits `budget`. */
  method JsonPrefixWithin(s: string, budget: nat) returns (bytes: nat)
    ensures bytes == ByteLen(s[..LongestWithin(EscapedBytes, s, budget)])
  {
    var encoded, index := 0, 0;
    var i := 0;
    assert s[..0] == "";
    while i < |s|
      invariant i <= |s|
      invariant encoded == JsonLen(s[..i]) <= budget
      invariant index == ByteLen(s[..i])
    {
      assert s[..i + 1][..i] == s[..i];
      encoded := encoded + EscapedBytes(s[i]);
      if encoded > budget {
        LongestIs(EscapedBytes, s, budget, i);
        return index;
      }
      index := index + CharBytes(s[i]);
      i := i + 1;
    }
    LongestIs(EscapedBytes, s, budget, |s|);
    bytes := index;
  }
}

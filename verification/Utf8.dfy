/** UTF-8 character boundaries in a byte string (section 3 of RFC 3629: a byte that
    continues a character is 0x80..0xBF, and a character has at most three of them). */
module Utf8 {
  import opened Bytes
  import opened Wrappers

  predicate Continuation(b: Byte) {
    0x80 <= b <= 0xBF
  }

  /** A boundary inside `s`: either end, or a byte that starts a character. */
  predicate IsBoundary(s: Bytes, j: nat)
    requires j <= |s|
  {
    j == 0 || j == |s| || !Continuation(s[j])
  }

  /** A boundary of a stream that stays one however the stream is extended. */
  predicate StartsCharacter(s: Bytes, j: nat) {
    j == 0 || (j < |s| && !Continuation(s[j]))
  }

  /** One of the four bytes from `i` on starts a character. */
  predicate StartWithinFour(s: Bytes, i: nat)
    requires i + 3 < |s|
  {
    !(Continuation(s[i]) && Continuation(s[i + 1]) && Continuation(s[i + 2]) && Continuation(s[i + 3]))
  }

  /** No character of `s` has more than three continuation bytes. */
  ghost predicate ShortCharacters(s: Bytes) {
    forall i :: 0 <= i < |s| - 3 ==> StartWithinFour(s, i)
  }

  /** The largest boundary not above `i`; see PrevIsLargest. */
  function PrevBoundary(s: Bytes, i: nat): (j: nat)
    requires i <= |s|
    ensures j <= i
  {
    if IsBoundary(s, i) then i else PrevBoundary(s, i - 1)
  }

  lemma {:induction false} PrevIsLargest(s: Bytes, i: nat)
    requires i <= |s|
    ensures IsBoundary(s, PrevBoundary(s, i))
    ensures forall k :: PrevBoundary(s, i) < k <= i ==> !IsBoundary(s, k)
  {
    if IsBoundary(s, i) {
    } else {
      PrevIsLargest(s, i - 1);
    }
  }

  /** The search never passes a boundary. */
  lemma PrevNotBefore(s: Bytes, i: nat, j: nat)
    requires j <= i <= |s| && IsBoundary(s, j)
    ensures j <= PrevBoundary(s, i)
  {
    PrevIsLargest(s, i);
  }

  method PrevCharBoundary(s: Bytes, i: int) returns (r: Result<nat>)
    ensures r.Error? <==> i < 0 || |s| < i
    ensures r.Ok? ==> r.value == PrevBoundary(s, i)
    ensures r.Ok? ==> IsBoundary(s, r.value) && forall k :: r.value < k <= i ==> !IsBoundary(s, k)
  {
    if !(0 <= i <= |s|) {
      return Error;
    }
    PrevIsLargest(s, i);
    var j := i;
    while 0 <= j
      invariant 0 <= j <= i
      invariant PrevBoundary(s, j) == PrevBoundary(s, i)
    {
      var isBoundary := false;
      if j == 0 || j == |s| {
        isBoundary := true;
      } else if !(0x80 <= s[j] <= 0xBF) {
        isBoundary := true;
      }
      if isBoundary {
        return Ok(j);
      }
      j := j - 1;
    }
  }

  /** A later index never has an earlier boundary. */
  lemma PrevIsMonotone(s: Bytes, i: nat, j: nat)
    requires i <= j <= |s|
    ensures PrevBoundary(s, i) <= PrevBoundary(s, j)
  {
    PrevIsLargest(s, i);
    PrevNotBefore(s, j, PrevBoundary(s, i));
  }

  /** More bytes after the index do not move its boundary. */
  lemma {:induction false} PrevStays(s: Bytes, more: Bytes, i: nat)
    requires i < |s|
    ensures PrevBoundary(s + more, i) == PrevBoundary(s, i)
  {
    if i == 0 {
    } else {
      PrevStays(s, more, i - 1);
    }
  }

  lemma PrevIsUnique(s: Bytes, i: nat, j: nat)
    requires j <= i <= |s| && IsBoundary(s, j)
    requires forall k :: j < k <= i ==> !IsBoundary(s, k)
    ensures PrevBoundary(s, i) == j
  {
    PrevIsLargest(s, i);
  }

  /** Boundaries found in a window that starts at a character are those of the stream. */
  lemma PrevInWindow(s: Bytes, off: nat, i: nat)
    requires off <= i <= |s| && (off == |s| || StartsCharacter(s, off))
    ensures PrevBoundary(s, i) == off + PrevBoundary(s[off..], i - off)
  {
    var p := PrevBoundary(s[off..], i - off);
    PrevIsLargest(s[off..], i - off);
    forall k | off + p < k <= i ensures !IsBoundary(s, k) {
      assert !IsBoundary(s[off..], k - off);
    }
    PrevIsUnique(s, i, off + p);
  }

  /** In a window of a stream of short characters the search goes back three bytes at most. */
  lemma PrevIsNear(s: Bytes, off: nat, i: nat)
    requires off + i <= |s| && ShortCharacters(s)
    ensures i <= PrevBoundary(s[off..], i) + 3
  {
    var w := s[off..];
    PrevIsLargest(w, i);
    if 3 <= i && !IsBoundary(w, i) {
      assert StartWithinFour(s, off + i - 3);
      assert IsBoundary(w, i - 3) || IsBoundary(w, i - 2) || IsBoundary(w, i - 1);
    }
  }
}

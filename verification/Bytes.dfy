/** Byte strings, and lists of byte strings measured and joined. */
module Bytes {
  newtype Byte = x: int | 0 <= x < 256

  type Bytes = seq<Byte>

  function Total(chunks: seq<Bytes>): (n: nat)
    ensures chunks == [] ==> n == 0
  {
    if chunks == [] then 0 else |chunks[0]| + Total(chunks[1..])
  }

  function Concat(chunks: seq<Bytes>): (s: Bytes)
    ensures |s| == Total(chunks)
  {
    if chunks == [] then [] else chunks[0] + Concat(chunks[1..])
  }

  ghost predicate NonEmpty(chunks: seq<Bytes>) {
    forall i :: 0 <= i < |chunks| ==> chunks[i] != []
  }

  lemma {:induction false} TotalAppend(a: seq<Bytes>, b: seq<Bytes>)
    ensures Total(a + b) == Total(a) + Total(b)
  {
    if a == [] {
      assert a + b == b;
    } else {
      assert (a + b)[1..] == a[1..] + b;
      TotalAppend(a[1..], b);
    }
  }

  lemma {:induction false} ConcatAppend(a: seq<Bytes>, b: seq<Bytes>)
    ensures Concat(a + b) == Concat(a) + Concat(b)
  {
    if a == [] {
      assert a + b == b;
    } else {
      assert (a + b)[1..] == a[1..] + b;
      ConcatAppend(a[1..], b);
    }
  }

  lemma TotalSplit(chunks: seq<Bytes>, k: nat)
    requires k <= |chunks|
    ensures Total(chunks) == Total(chunks[..k]) + Total(chunks[k..])
  {
    assert chunks == chunks[..k] + chunks[k..];
    TotalAppend(chunks[..k], chunks[k..]);
  }

  lemma TotalSnoc(chunks: seq<Bytes>, c: Bytes)
    ensures Total(chunks + [c]) == Total(chunks) + |c|
  {
    TotalAppend(chunks, [c]);
    assert Total([c]) == |c|;
  }

  /** The size of a prefix, one chunk longer. */
  lemma TotalNext(chunks: seq<Bytes>, k: nat)
    requires k < |chunks|
    ensures Total(chunks[..k + 1]) == Total(chunks[..k]) + |chunks[k]|
  {
    assert chunks[..k + 1] == chunks[..k] + [chunks[k]];
    TotalSnoc(chunks[..k], chunks[k]);
  }

  /** The bytes of a prefix, one chunk longer. */
  lemma ConcatNext(chunks: seq<Bytes>, k: nat)
    requires k < |chunks|
    ensures Concat(chunks[..k + 1]) == Concat(chunks[..k]) + chunks[k]
  {
    assert chunks[..k + 1] == chunks[..k] + [chunks[k]];
    ConcatAppend(chunks[..k], [chunks[k]]);
    assert Concat([chunks[k]]) == chunks[k];
  }

  /** Longer prefixes of non-empty chunks are strictly larger. */
  lemma {:induction false} PrefixGrows(chunks: seq<Bytes>, i: nat, j: nat)
    requires i <= j <= |chunks| && NonEmpty(chunks)
    ensures Total(chunks[..i]) <= Total(chunks[..j])
    ensures i < j ==> Total(chunks[..i]) < Total(chunks[..j])
    decreases j - i
  {
    if i == j {
    } else {
      PrefixGrows(chunks, i, j - 1);
      TotalNext(chunks, j - 1);
    }
  }
}

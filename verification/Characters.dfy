/** Characters and their UTF-8 encoding (sections 3 and 4 of RFC 3629), by arithmetic alone.
    The boundaries that the terminal finds in an encoded text are where its characters
    meet. */
module Characters {
  import opened Bytes
  import opened Utf8

  /** A Unicode scalar value: any code point but the surrogates. */
  type Scalar = c: nat | c < 0xD800 || 0xE000 <= c <= 0x10FFFF

  function Encode(c: Scalar): Bytes {
    if c < 0x80 then [c as Byte]
    else if c < 0x800 then [(0xC0 + c / 0x40) as Byte, (0x80 + c % 0x40) as Byte]
    else if c < 0x10000 then
      [(0xE0 + c / 0x1000) as Byte, (0x80 + c / 0x40 % 0x40) as Byte, (0x80 + c % 0x40) as Byte]
    else
      [(0xF0 + c / 0x40000) as Byte, (0x80 + c / 0x1000 % 0x40) as Byte,
       (0x80 + c / 0x40 % 0x40) as Byte, (0x80 + c % 0x40) as Byte]
  }

  function Text(cs: seq<Scalar>): Bytes {
    if cs == [] then [] else Text(cs[..|cs| - 1]) + Encode(cs[|cs| - 1])
  }

  /** Where character `n` starts. */
  function At(cs: seq<Scalar>, n: nat): nat
    requires n <= |cs|
  {
    |Text(cs[..n])|
  }

  /** No character of the text lies across position `j`. */
  ghost predicate Between(cs: seq<Scalar>, j: nat) {
    exists n :: 0 <= n <= |cs| && j == At(cs, n)
  }

  lemma EncodedCharacter(c: Scalar)
    ensures 1 <= |Encode(c)| <= 4
    ensures forall k :: 0 <= k < |Encode(c)| ==> (Continuation(Encode(c)[k]) <==> k > 0)
  {
  }

  /** No character of a longer prefix starts earlier. */
  lemma {:induction false} AtGrows(cs: seq<Scalar>, n: nat, m: nat)
    requires n <= m <= |cs|
    ensures At(cs, n) <= At(cs, m)
    ensures n < m ==> At(cs, n) < At(cs, m)
    decreases m
  {
    if n == m {
    } else {
      assert cs[..m][..m - 1] == cs[..m - 1];
      EncodedCharacter(cs[m - 1]);
      AtGrows(cs, n, m - 1);
    }
  }

  lemma {:induction false} CharacterStarts(cs: seq<Scalar>, n: nat)
    requires n <= |cs|
    ensures At(cs, n) <= |Text(cs)| && IsBoundary(Text(cs), At(cs, n))
  {
    if n == |cs| {
      assert cs[..n] == cs;
    } else {
      var front := cs[..|cs| - 1];
      assert front[..n] == cs[..n];
      EncodedCharacter(cs[|cs| - 1]);
      CharacterStarts(front, n);
      AtGrows(front, n, |front|);
      assert front[..|front|] == front;
    }
  }

  lemma {:induction false} CharacterAt(cs: seq<Scalar>, j: nat) returns (n: nat)
    requires j <= |Text(cs)| && IsBoundary(Text(cs), j)
    ensures n <= |cs| && j == At(cs, n)
  {
    if j == |Text(cs)| {
      n := |cs|;
      assert cs[..n] == cs;
    } else {
      var front := cs[..|cs| - 1];
      EncodedCharacter(cs[|cs| - 1]);
      n := CharacterAt(front, j);
      assert front[..n] == cs[..n];
    }
  }

  /** Cutting an encoded text at a boundary is cutting it between two characters, and the
      other way round. */
  lemma BoundaryIff(cs: seq<Scalar>, j: nat)
    requires j <= |Text(cs)|
    ensures IsBoundary(Text(cs), j) <==> Between(cs, j)
  {
    if IsBoundary(Text(cs), j) {
      var n := CharacterAt(cs, j);
    } else {
      forall n | 0 <= n <= |cs| ensures j != At(cs, n) {
        CharacterStarts(cs, n);
      }
    }
  }

  /** The boundary that the search finds in a text is the start of the character that the
      index is in, or the end of the text. */
  lemma PrevIsCharacter(cs: seq<Scalar>, i: nat) returns (n: nat)
    requires i <= |Text(cs)|
    ensures n <= |cs| && PrevBoundary(Text(cs), i) == At(cs, n) <= i
    ensures forall m :: 0 <= m <= |cs| && At(cs, m) <= i ==> m <= n
  {
    PrevIsLargest(Text(cs), i);
    n := CharacterAt(cs, PrevBoundary(Text(cs), i));
    forall m | n < m <= |cs| ensures i < At(cs, m) {
      AtGrows(cs, n, m);
      CharacterStarts(cs, m);
    }
  }

  lemma {:induction false} TextIsShort(cs: seq<Scalar>)
    ensures ShortCharacters(Text(cs))
  {
    if cs == [] {
    } else {
      var front := Text(cs[..|cs| - 1]);
      TextIsShort(cs[..|cs| - 1]);
      EncodedCharacter(cs[|cs| - 1]);
      forall i | 0 <= i < |Text(cs)| - 3 ensures StartWithinFour(Text(cs), i) {
        if i + 3 < |front| {
          assert StartWithinFour(front, i);
        } else {
          assert !Continuation(Text(cs)[|front|]);
        }
      }
    }
  }

  // --- Output that ends inside a character ---

  /** What has been read of a text so far, the last character perhaps in part. */
  ghost predicate ReadsText(stream: Bytes, cs: seq<Scalar>) {
    stream <= Text(cs)
  }

  lemma PartialTextIsShort(stream: Bytes, cs: seq<Scalar>)
    requires ReadsText(stream, cs)
    ensures ShortCharacters(stream)
  {
    TextIsShort(cs);
    forall i | 0 <= i < |stream| - 3 ensures StartWithinFour(stream, i) {
      assert StartWithinFour(Text(cs), i);
    }
  }

  lemma StartIsCharacter(stream: Bytes, cs: seq<Scalar>, j: nat)
    requires ReadsText(stream, cs) && StartsCharacter(stream, j)
    ensures Between(cs, j)
  {
    var n := CharacterAt(cs, j);
  }
}

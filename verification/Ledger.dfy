/** What a server accepts of a stream of messages, with nothing ever pruned: every accepted
    chunk at its position in the stream. */
module Ledger {
  import opened Bytes
  import opened Numbers
  import opened Protocol
  import opened Wrappers

  datatype Ledger = Ledger(seqNum: nat, entries: seq<Message>)

  const EMPTY := Ledger(0, [])

  /** The part of a message that is new to a server that has got up to `seqNum`. */
  function NewPart(seqNum: nat, m: Message): Option<Message> {
    if m.data == [] || m.End() <= seqNum then None
    else if seqNum < m.seqNum then Some(m)
    else Some(Message(seqNum, m.data[seqNum - m.seqNum..]))
  }

  function Accept(l: Ledger, m: Message): Ledger {
    match NewPart(l.seqNum, m)
    case None => l
    case Some(e) => Ledger(e.End(), l.entries + [e])
  }

  function AcceptAll(l: Ledger, messages: seq<Message>): Ledger {
    if messages == [] then l
    else Accept(AcceptAll(l, messages[..|messages| - 1]), messages[|messages| - 1])
  }

  function Chunks(entries: seq<Message>): (cs: seq<Bytes>)
    ensures |cs| == |entries|
    ensures forall i :: 0 <= i < |entries| ==> cs[i] == entries[i].data
  {
    seq(|entries|, i requires 0 <= i < |entries| => entries[i].data)
  }

  /** Where chunk `i` would start if no bytes had been skipped. */
  function Previous(entries: seq<Message>, i: nat): nat
    requires i <= |entries|
  {
    if i == 0 then 0 else entries[i - 1].End()
  }

  predicate InOrder(entries: seq<Message>, i: nat)
    requires i < |entries|
  {
    entries[i].data != [] && Previous(entries, i) <= entries[i].seqNum
  }

  predicate Contiguous(entries: seq<Message>, i: nat)
    requires i < |entries|
  {
    Previous(entries, i) == entries[i].seqNum
  }

  /** Accepted chunks are not empty, start where the one before ended or later, and the
      last one ends at `seqNum`. */
  ghost predicate Ordered(l: Ledger) {
    && (forall i :: 0 <= i < |l.entries| ==> InOrder(l.entries, i))
    && l.seqNum == Previous(l.entries, |l.entries|)
  }

  lemma AcceptKeepsOrder(l: Ledger, m: Message)
    requires Ordered(l)
    ensures Ordered(Accept(l, m))
    ensures l.entries <= Accept(l, m).entries
    ensures Accept(l, m).seqNum == if m.data == [] then l.seqNum else Max(l.seqNum, m.End())
  {
    var r := Accept(l, m);
    forall i | 0 <= i < |r.entries| ensures InOrder(r.entries, i) {
      if i < |l.entries| {
        assert InOrder(l.entries, i);
      }
    }
  }

  lemma {:induction false} AcceptAllKeepsOrder(l: Ledger, messages: seq<Message>)
    requires Ordered(l)
    ensures Ordered(AcceptAll(l, messages)) && l.entries <= AcceptAll(l, messages).entries
    ensures l.seqNum <= AcceptAll(l, messages).seqNum
  {
    if messages == [] {
    } else {
      var before := messages[..|messages| - 1];
      AcceptAllKeepsOrder(l, before);
      AcceptKeepsOrder(AcceptAll(l, before), messages[|messages| - 1]);
    }
  }

  /** Two accepted chunks never share a position, and later chunks lie further on. */
  lemma {:induction false} EntriesDisjoint(l: Ledger, i: nat, j: nat)
    requires Ordered(l) && i < j < |l.entries|
    ensures l.entries[i].End() <= l.entries[j].seqNum
    decreases j
  {
    assert InOrder(l.entries, j);
    if i == j - 1 {
    } else {
      assert InOrder(l.entries, j - 1);
      EntriesDisjoint(l, i, j - 1);
    }
  }

  // --- Which byte is stored, on any network ---

  /** Messages with true bytes may be lost, duplicated, delayed and reordered at will: what
      is accepted is true, and its chunks lie at disjoint, strictly increasing positions. */
  lemma {:induction false} AcceptedIsTrue(messages: seq<Message>, stream: Bytes)
    requires forall m <- messages :: m.TrueOf(stream)
    ensures var l := AcceptAll(EMPTY, messages);
            && (forall e <- l.entries :: e.TrueOf(stream))
            && forall i, j :: 0 <= i < j < |l.entries| ==> l.entries[i].End() <= l.entries[j].seqNum
  {
    AcceptAllKeepsOrder(EMPTY, messages);
    var l := AcceptAll(EMPTY, messages);
    forall i, j | 0 <= i < j < |l.entries| ensures l.entries[i].End() <= l.entries[j].seqNum {
      EntriesDisjoint(l, i, j);
    }
    if messages == [] {
    } else {
      var before := messages[..|messages| - 1];
      assert forall m <- before :: m in messages;
      assert messages[|messages| - 1] in messages;
      AcceptedIsTrue(before, stream);
      var n := NewPart(AcceptAll(EMPTY, before).seqNum, messages[|messages| - 1]);
      assert n.Some? ==> n.value.TrueOf(stream);
    }
  }

  /** The accepted chunks have byte `b` at position `p` of the stream. */
  ghost predicate Holds(l: Ledger, p: nat, b: Byte) {
    exists e <- l.entries :: e.seqNum <= p < e.End() && e.data[p - e.seqNum] == b
  }

  predicate Passes(m: Message, p: nat) {
    m.data != [] && p < m.End()
  }

  /** Message `i` is the first to reach past position `p`, and it covers `p` with `b`. */
  ghost predicate FirstToPass(messages: seq<Message>, i: nat, p: nat, b: Byte) {
    && i < |messages| && Passes(messages[i], p)
    && (forall j :: 0 <= j < i ==> !Passes(messages[j], p))
    && messages[i].seqNum <= p && messages[i].data[p - messages[i].seqNum] == b
  }

  lemma {:induction false} SeqNumIsPast(messages: seq<Message>, p: nat)
    ensures p < AcceptAll(EMPTY, messages).seqNum <==> exists m <- messages :: Passes(m, p)
  {
    if messages == [] {
    } else {
      var before := messages[..|messages| - 1];
      var last := messages[|messages| - 1];
      SeqNumIsPast(before, p);
      AcceptAllKeepsOrder(EMPTY, before);
      AcceptKeepsOrder(AcceptAll(EMPTY, before), last);
      assert messages == before + [last];
      assert last in messages;
      assert (exists m <- messages :: Passes(m, p)) <==> (exists m <- before :: Passes(m, p)) || Passes(last, p);
    }
  }

  lemma HoldsAfterAccept(l: Ledger, m: Message, p: nat, b: Byte)
    requires Ordered(l)
    ensures Holds(Accept(l, m), p, b) <==>
            || Holds(l, p, b)
            || (l.seqNum <= p && Passes(m, p) && m.seqNum <= p && m.data[p - m.seqNum] == b)
  {
    var n := NewPart(l.seqNum, m);
    if n.Some? {
      var e := n.value;
      assert forall x :: x in l.entries + [e] <==> x in l.entries || x == e;
      assert e.seqNum <= p < e.End() ==> e.data[p - e.seqNum] == m.data[p - m.seqNum];
    }
  }

  lemma FirstInLonger(messages: seq<Message>, p: nat, b: Byte)
    requires messages != []
    ensures var n := |messages| - 1;
            (exists i :: FirstToPass(messages, i, p, b)) <==>
            || (exists i :: FirstToPass(messages[..n], i, p, b))
            || ((forall m <- messages[..n] :: !Passes(m, p)) && Passes(messages[n], p)
                && messages[n].seqNum <= p && messages[n].data[p - messages[n].seqNum] == b)
  {
    var n := |messages| - 1;
    forall i: nat | i < n
      ensures FirstToPass(messages, i, p, b) <==> FirstToPass(messages[..n], i, p, b)
    {
      assert messages[..n][i] == messages[i];
    }
    assert FirstToPass(messages, n, p, b) <==>
      (forall m <- messages[..n] :: !Passes(m, p)) && Passes(messages[n], p)
      && messages[n].seqNum <= p && messages[n].data[p - messages[n].seqNum] == b
    by {
      assert forall j :: 0 <= j < n ==> messages[..n][j] == messages[j];
      assert forall m <- messages[..n] :: exists j :: 0 <= j < n && messages[j] == m;
    }
  }

  /** Messages may be lost, duplicated, reordered, or overlap in any way: the byte stored
      for a position is that of the first message that reaches past the position, if that
      message covers it, and no byte is stored for it otherwise. */
  lemma {:induction false} StoredByteIsFirst(messages: seq<Message>, p: nat, b: Byte)
    ensures Holds(AcceptAll(EMPTY, messages), p, b) <==> exists i :: FirstToPass(messages, i, p, b)
  {
    if messages != [] {
      var n := |messages| - 1;
      var before := messages[..n];
      StoredByteIsFirst(before, p, b);
      SeqNumIsPast(before, p);
      AcceptAllKeepsOrder(EMPTY, before);
      HoldsAfterAccept(AcceptAll(EMPTY, before), messages[n], p, b);
      FirstInLonger(messages, p, b);
    } else {
      assert !exists i :: FirstToPass(messages, i, p, b);
    }
  }

  // --- Counting ---

  /** The bytes that a message skips. */
  function SkippedBy(seqNum: nat, m: Message): nat {
    if m.data != [] && seqNum < m.seqNum then m.seqNum - seqNum else 0
  }

  function Skipped(l: Ledger, messages: seq<Message>): nat {
    if messages == [] then 0
    else
      var before := messages[..|messages| - 1];
      Skipped(l, before) + SkippedBy(AcceptAll(l, before).seqNum, messages[|messages| - 1])
  }

  /** The position reached is the bytes accepted and the bytes skipped. */
  lemma {:induction false} AcceptedPlusSkipped(messages: seq<Message>)
    ensures var l := AcceptAll(EMPTY, messages);
            l.seqNum == Total(Chunks(l.entries)) + Skipped(EMPTY, messages)
  {
    if messages == [] {
    } else {
      var before := messages[..|messages| - 1];
      var l := AcceptAll(EMPTY, before);
      AcceptedPlusSkipped(before);
      var n := NewPart(l.seqNum, messages[|messages| - 1]);
      if n.Some? {
        assert Chunks(l.entries + [n.value]) == Chunks(l.entries) + [n.value.data];
        TotalSnoc(Chunks(l.entries), n.value.data);
      }
    }
  }

  /** The bytes accepted before chunk `i` number at most its position, and equal it exactly
      when nothing was skipped up to it. */
  lemma {:induction false} CountedPosition(l: Ledger, i: nat)
    requires Ordered(l) && i < |l.entries|
    ensures Total(Chunks(l.entries)[..i]) <= l.entries[i].seqNum
    ensures Total(Chunks(l.entries)[..i]) == l.entries[i].seqNum <==>
            forall j :: 0 <= j <= i ==> Contiguous(l.entries, j)
  {
    assert InOrder(l.entries, i);
    if i > 0 {
      CountedPosition(l, i - 1);
      TotalNext(Chunks(l.entries), i - 1);
      assert (forall j :: 0 <= j <= i ==> Contiguous(l.entries, j)) <==>
        (forall j :: 0 <= j <= i - 1 ==> Contiguous(l.entries, j)) && Contiguous(l.entries, i);
    } else {
      assert Chunks(l.entries)[..0] == [];
      assert (forall j :: 0 <= j <= i ==> Contiguous(l.entries, j)) <==> Contiguous(l.entries, 0);
    }
  }
}

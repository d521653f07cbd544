/** The server's bounded store of one shell's output. It keeps whole chunks and drops the
    oldest ones while 2 MiB remain, so that it is the ledger of everything accepted, cut
    at one place. */
module ShellStore {
  import opened Bytes
  import opened Ledger
  import opened Protocol

  const SHELL_STORED_BYTES := 0x20_0000

  datatype Store = Store(seqNum: nat, data: seq<Bytes>, chunkOffset: nat, byteOffset: nat, closed: bool)

  const NEW_STORE := Store(0, [], 0, 0, false)

  /** Without its first `k` chunks. */
  function Dropped(st: Store, k: nat): Store
    requires k <= |st.data|
  {
    Store(st.seqNum, st.data[k..], st.chunkOffset + k, st.byteOffset + Total(st.data[..k]), st.closed)
  }

  /** How many leading chunks go, one after the other, while they fit into `excess`. */
  function PruneCount(data: seq<Bytes>, excess: int): (k: nat)
    ensures k <= |data|
  {
    if data == [] || excess <= 0 || excess < |data[0]| then 0
    else 1 + PruneCount(data[1..], excess - |data[0]|)
  }

  function Manage(st: Store): Store {
    Dropped(st, PruneCount(st.data, st.seqNum - st.byteOffset - SHELL_STORED_BYTES))
  }

  function AfterAdd(st: Store, m: Message): Store {
    match NewPart(st.seqNum, m)
    case None => st
    case Some(e) => Manage(st.(seqNum := e.End(), data := st.data + [e.data]))
  }

  function AddAll(st: Store, messages: seq<Message>): Store {
    if messages == [] then st
    else AfterAdd(AddAll(st, messages[..|messages| - 1]), messages[|messages| - 1])
  }

  lemma AddOneMore(messages: seq<Message>, m: Message)
    ensures AcceptAll(EMPTY, messages + [m]) == Accept(AcceptAll(EMPTY, messages), m)
    ensures AddAll(NEW_STORE, messages + [m]) == AfterAdd(AddAll(NEW_STORE, messages), m)
  {
    assert (messages + [m])[..|messages|] == messages;
  }

  lemma PruneStep(chunks: seq<Bytes>, offset: nat, excess: int)
    requires offset < |chunks| && 0 < excess
    ensures Total(chunks[..offset + 1]) == Total(chunks[..offset]) + |chunks[offset]|
    ensures PruneCount(chunks[offset..], excess) ==
            if excess < |chunks[offset]| then 0
            else 1 + PruneCount(chunks[offset + 1..], excess - |chunks[offset]|)
  {
    TotalNext(chunks, offset);
    assert chunks[offset..][1..] == chunks[offset + 1..];
  }

  class ShellState {
    var seqNum: nat
    var data: seq<Bytes>
    var chunkOffset: nat
    var byteOffset: nat
    var closed: bool

    function View(): Store
      reads this
    {
      Store(seqNum, data, chunkOffset, byteOffset, closed)
    }

    constructor ()
      ensures View() == NEW_STORE
    {
      seqNum, data, chunkOffset, byteOffset, closed := 0, [], 0, 0, false;
    }

    /** Counts the chunks to remove and moves both offsets past them. */
    method SkipPruned(excess: int) returns (offset: nat)
      modifies `chunkOffset, `byteOffset
      ensures offset == PruneCount(data, excess)
      ensures chunkOffset == old(chunkOffset) + offset
      ensures byteOffset == old(byteOffset) + Total(data[..offset])
    {
      offset := 0;
      var bytesToRemove := excess;
      assert data[0..] == data;
      while offset < |data| && bytesToRemove > 0
        invariant offset <= |data|
        invariant offset + PruneCount(data[offset..], bytesToRemove) == PruneCount(data, excess)
        invariant chunkOffset == old(chunkOffset) + offset
        invariant byteOffset == old(byteOffset) + Total(data[..offset])
      {
        var chunkSize := |data[offset]|;
        PruneStep(data, offset, bytesToRemove);
        if chunkSize <= bytesToRemove {
          bytesToRemove := bytesToRemove - chunkSize;
          chunkOffset := chunkOffset + 1;
          byteOffset := byteOffset + chunkSize;
          offset := offset + 1;
        } else {
          break;
        }
      }
    }

    method ManageStorage()
      modifies this
      ensures View() == Manage(old(View()))
    {
      var storedBytes := seqNum - byteOffset;
      if storedBytes <= SHELL_STORED_BYTES {
        return;
      }
      var offset := SkipPruned(storedBytes - SHELL_STORED_BYTES);
      if offset > 0 {
        data := data[offset..];
      }
    }

    method AddData(bytes: Bytes, position: nat)
      modifies this
      ensures View() == AfterAdd(old(View()), Message(position, bytes))
    {
      if |bytes| == 0 {
        return;
      }
      var dataEnd := position + |bytes|;
      if dataEnd <= seqNum {
        return;
      }
      if position > seqNum {
        data := data + [bytes];
        seqNum := dataEnd;
      } else {
        var startOffset := seqNum - position;
        if startOffset < |bytes| {
          var newData := bytes[startOffset..];
          data := data + [newData];
          seqNum := seqNum + |newData|;
        } else {
          return;
        }
      }
      ManageStorage();
    }
  }

  // --- The store is a cut of the ledger ---

  function Cut(l: Ledger, k: nat, closed: bool): Store
    requires k <= |l.entries|
  {
    Store(l.seqNum, Chunks(l.entries)[k..], k, Total(Chunks(l.entries)[..k]), closed)
  }

  /** What `seq_num - byte_offset` is when the first `k` chunks are gone. */
  function Remaining(l: Ledger, k: nat): int
    requires k <= |l.entries|
  {
    l.seqNum - Total(Chunks(l.entries)[..k])
  }

  /** `k` is the greatest index from `least` on that leaves 2 MiB, or `least` itself. */
  ghost predicate IsCut(l: Ledger, least: nat, k: nat) {
    && least <= k <= |l.entries|
    && (k == least || 2097152 <= Remaining(l, k))
    && forall j :: k < j <= |l.entries| ==> Remaining(l, j) < 2097152
  }

  lemma {:induction false} PruneCountIsGreatest(data: seq<Bytes>, excess: int)
    requires NonEmpty(data)
    ensures var k := PruneCount(data, excess);
            && (k == 0 || Total(data[..k]) <= excess)
            && forall j :: k < j <= |data| ==> excess < Total(data[..j])
  {
    var k := PruneCount(data, excess);
    if data == [] {
    } else {
      if excess <= 0 || excess < |data[0]| {
        forall j | 0 < j <= |data| ensures excess < Total(data[..j]) {
          PrefixGrows(data, 1, j);
          assert data[..1] == [data[0]];
        }
      } else {
        PruneCountIsGreatest(data[1..], excess - |data[0]|);
        forall j | 0 < j <= |data| ensures Total(data[..j]) == |data[0]| + Total(data[1..][..j - 1]) {
          assert data[..j][1..] == data[1..][..j - 1];
        }
      }
    }
  }

  lemma ChunksNonEmpty(l: Ledger)
    requires Ordered(l)
    ensures NonEmpty(Chunks(l.entries))
  {
    forall i | 0 <= i < |l.entries| ensures Chunks(l.entries)[i] != [] {
      assert InOrder(l.entries, i);
    }
  }

  lemma CutTotal(chunks: seq<Bytes>, k: nat, j: nat)
    requires k + j <= |chunks|
    ensures Total(chunks[..k]) + Total(chunks[k..][..j]) == Total(chunks[..k + j])
  {
    assert chunks[..k + j] == chunks[..k] + chunks[k..][..j];
    TotalAppend(chunks[..k], chunks[k..][..j]);
  }

  lemma DropMovesCut(l: Ledger, k: nat, d: nat, closed: bool)
    requires k + d <= |l.entries|
    ensures Dropped(Cut(l, k, closed), d) == Cut(l, k + d, closed)
  {
    var chunks := Chunks(l.entries);
    CutTotal(chunks, k, d);
    assert chunks[k..][d..] == chunks[k + d..];
  }

  lemma RemainingAfter(l: Ledger, k: nat, j: nat)
    requires k <= j <= |l.entries|
    ensures Remaining(l, j) == Remaining(l, k) - Total(Chunks(l.entries)[k..][..j - k])
  {
    CutTotal(Chunks(l.entries), k, j - k);
  }

  lemma PruneReachesCut(l: Ledger, k: nat)
    requires Ordered(l) && k <= |l.entries|
    ensures IsCut(l, k, k + PruneCount(Chunks(l.entries)[k..], Remaining(l, k) - SHELL_STORED_BYTES))
  {
    var rest := Chunks(l.entries)[k..];
    var excess := Remaining(l, k) - SHELL_STORED_BYTES;
    var cut := k + PruneCount(rest, excess);
    ChunksNonEmpty(l);
    PruneCountIsGreatest(rest, excess);
    RemainingAfter(l, k, cut);
    forall j | cut < j <= |l.entries| ensures Remaining(l, j) < SHELL_STORED_BYTES {
      RemainingAfter(l, k, j);
    }
  }

  /** Pruning a cut moves it to the greatest index that leaves 2 MiB. */
  lemma ManageCuts(l: Ledger, k: nat, closed: bool) returns (cut: nat)
    requires Ordered(l) && k <= |l.entries|
    ensures IsCut(l, k, cut) && Manage(Cut(l, k, closed)) == Cut(l, cut, closed)
  {
    var d := PruneCount(Chunks(l.entries)[k..], Remaining(l, k) - SHELL_STORED_BYTES);
    cut := k + d;
    PruneReachesCut(l, k);
    DropMovesCut(l, k, d, closed);
  }

  lemma AddKeepsCut(l: Ledger, least: nat, k: nat, closed: bool, m: Message) returns (cut: nat)
    requires Ordered(l) && IsCut(l, least, k)
    ensures k <= cut && IsCut(Accept(l, m), least, cut)
    ensures AfterAdd(Cut(l, k, closed), m) == Cut(Accept(l, m), cut, closed)
  {
    cut := k;
    var n := NewPart(l.seqNum, m);
    if n.Some? {
      var grown := Accept(l, m);
      AcceptKeepsOrder(l, m);
      var chunks := Chunks(l.entries);
      assert Chunks(grown.entries) == chunks + [n.value.data];
      assert Chunks(grown.entries)[..k] == chunks[..k];
      assert Chunks(grown.entries)[k..] == chunks[k..] + [n.value.data];
      cut := ManageCuts(grown, k, closed);
    }
  }

  lemma {:induction false} CutAfter(l: Ledger, least: nat, k: nat, closed: bool, messages: seq<Message>)
    returns (cut: nat)
    requires Ordered(l) && IsCut(l, least, k)
    ensures k <= cut && IsCut(AcceptAll(l, messages), least, cut)
    ensures AddAll(Cut(l, k, closed), messages) == Cut(AcceptAll(l, messages), cut, closed)
  {
    if messages == [] {
      cut := k;
    } else {
      var before := messages[..|messages| - 1];
      cut := CutAfter(l, least, k, closed, before);
      AcceptAllKeepsOrder(l, before);
      cut := AddKeepsCut(AcceptAll(l, before), least, cut, closed, messages[|messages| - 1]);
    }
  }

  lemma FreshIsCut()
    ensures Ordered(EMPTY) && IsCut(EMPTY, 0, 0) && NEW_STORE == Cut(EMPTY, 0, false)
  {
  }

  /** After any messages, gaps included, the store is the ledger of all that was accepted,
      cut at the greatest index that leaves 2 MiB: when pruning ran makes no difference. */
  lemma StoreIsCutLedger(messages: seq<Message>)
    ensures exists cut :: IsCut(AcceptAll(EMPTY, messages), 0, cut)
                          && AddAll(NEW_STORE, messages) == Cut(AcceptAll(EMPTY, messages), cut, false)
  {
    FreshIsCut();
    var cut := CutAfter(EMPTY, 0, 0, false, messages);
  }

  /** There is only one such index. */
  lemma CutIsUnique(l: Ledger, least: nat, k: nat, j: nat)
    requires IsCut(l, least, k) && IsCut(l, least, j)
    ensures k == j
  {
  }

  // --- What the counters of a store count ---

  /** `chunk_offset + len(data)` counts the chunks ever accepted, `byte_offset` and the
      stored bytes count the bytes ever accepted, and `seq_num` exceeds them by exactly the
      bytes that were skipped. */
  lemma StoreCounts(messages: seq<Message>)
    ensures var st := AddAll(NEW_STORE, messages);
            var l := AcceptAll(EMPTY, messages);
            && st.chunkOffset + |st.data| == |l.entries|
            && st.byteOffset + Total(st.data) == Total(Chunks(l.entries))
            && st.seqNum == st.byteOffset + Total(st.data) + Skipped(EMPTY, messages)
  {
    FreshIsCut();
    var l := AcceptAll(EMPTY, messages);
    var k := CutAfter(EMPTY, 0, 0, false, messages);
    TotalSplit(Chunks(l.entries), k);
    AcceptedPlusSkipped(messages);
  }

  /** The store holds what it should: once anything has been accepted, 2 MiB or everything,
      counted with the skipped bytes. When 2 MiB have been skipped in all, it is empty
      after every message, and otherwise it never is. */
  lemma StoreIsEmptyIff(messages: seq<Message>)
    requires AcceptAll(EMPTY, messages).entries != []
    ensures var st := AddAll(NEW_STORE, messages);
            && (st.data == [] <==> 2097152 <= Skipped(EMPTY, messages))
            && (st.chunkOffset == 0 || 2097152 <= st.seqNum - st.byteOffset)
  {
    FreshIsCut();
    var l := AcceptAll(EMPTY, messages);
    var k := CutAfter(EMPTY, 0, 0, false, messages);
    AcceptedPlusSkipped(messages);
    assert Chunks(l.entries)[..|l.entries|] == Chunks(l.entries);
    assert Remaining(l, |l.entries|) == Skipped(EMPTY, messages);
  }

  lemma AddFirst(m: Message)
    ensures AddAll(NEW_STORE, [m]) == AfterAdd(NEW_STORE, m)
    ensures AcceptAll(EMPTY, [m]) == Accept(EMPTY, m) && Skipped(EMPTY, [m]) == SkippedBy(0, m)
  {
    assert [m][..0] == [];
  }

  /** One byte at position 2 MiB, and the store has dropped it. */
  lemma StoreCanBeEmpty()
    ensures AddAll(NEW_STORE, [Message(2097152, [97])]).data == []
  {
    var m := Message(2097152, [97]);
    AddFirst(m);
    StoreIsEmptyIff([m]);
  }
}

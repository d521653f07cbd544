/** Checkpoints of one shell: a short suffix of its store is saved, and a store rebuilt from
    it goes on as the original would have. */
module Checkpoint {
  import opened Bytes
  import opened Ledger
  import opened Protocol
  import opened ShellStore
  import opened Wrappers

  const SHELL_CHECKPOINT_BYTES := 0x8000

  /** Where a shell's window is and how large. */
  datatype WinSize = WinSize(x: int, y: int, rows: nat, cols: nat)

  /** The saved record of one shell. */
  datatype Snapshot = Snapshot(
    seqNum: nat, data: seq<Bytes>, chunkOffset: nat, byteOffset: nat, closed: bool, winSize: WinSize)

  /** How many leading chunks are left out of a checkpoint. */
  function TrimCount(data: seq<Bytes>, storedBytes: int): (k: nat)
    ensures k <= |data|
  {
    if data == [] || storedBytes < SHELL_CHECKPOINT_BYTES then 0
    else 1 + TrimCount(data[1..], storedBytes - |data[0]|)
  }

  function Trimmed(st: Store): Store {
    Dropped(st, TrimCount(st.data, st.seqNum - st.byteOffset))
  }

  lemma TrimStep(chunks: seq<Bytes>, offset: nat, storedBytes: int)
    requires offset < |chunks|
    ensures Total(chunks[..offset + 1]) == Total(chunks[..offset]) + |chunks[offset]|
    ensures TrimCount(chunks[offset..], storedBytes) ==
            if storedBytes < SHELL_CHECKPOINT_BYTES then 0
            else 1 + TrimCount(chunks[offset + 1..], storedBytes - |chunks[offset]|)
  {
    TotalNext(chunks, offset);
    assert chunks[offset..][1..] == chunks[offset + 1..];
  }

  /** The record that a checkpoint keeps of a shell: none when its window size is unknown. */
  method Capture(shell: ShellState, winSize: Option<WinSize>) returns (s: Option<Snapshot>)
    ensures s.Some? == winSize.Some?
    ensures s.Some? ==>
              var v := s.value;
              && Trimmed(shell.View()) == Store(v.seqNum, v.data, v.chunkOffset, v.byteOffset, v.closed)
              && v.winSize == winSize.value
  {
    var chunkOffset := shell.chunkOffset;
    var byteOffset := shell.byteOffset;
    var offset := 0;
    var storedBytes := shell.seqNum - shell.byteOffset;
    ghost var st := shell.View();
    ghost var trim := TrimCount(st.data, storedBytes);
    assert st.data[0..] == st.data;
    while offset < |shell.data| && storedBytes >= SHELL_CHECKPOINT_BYTES
      invariant offset <= |st.data|
      invariant chunkOffset == st.chunkOffset + offset
      invariant byteOffset == st.byteOffset + Total(st.data[..offset])
      invariant offset + TrimCount(st.data[offset..], storedBytes) == trim
    {
      var chunkSize := |shell.data[offset]|;
      TrimStep(st.data, offset, storedBytes);
      storedBytes := storedBytes - chunkSize;
      chunkOffset := chunkOffset + 1;
      byteOffset := byteOffset + chunkSize;
      offset := offset + 1;
    }
    assert offset == trim;
    if winSize.None? {
      return None;
    }
    return Some(Snapshot(shell.seqNum, shell.data[offset..], chunkOffset, byteOffset, shell.closed, winSize.value));
  }

  /** A new shell state filled from a record, and the window size beside it. */
  method Restore(s: Snapshot) returns (shell: ShellState, winSize: WinSize)
    ensures fresh(shell)
    ensures shell.View() == Store(s.seqNum, s.data, s.chunkOffset, s.byteOffset, s.closed) && winSize == s.winSize
  {
    winSize := s.winSize;
    shell := new ShellState();
    shell.seqNum := s.seqNum;
    shell.data := shell.data + s.data;
    shell.chunkOffset := s.chunkOffset;
    shell.byteOffset := s.byteOffset;
    shell.closed := s.closed;
  }

  // --- What is left out ---

  lemma {:induction false} TrimCountIsLeast(data: seq<Bytes>, storedBytes: int)
    requires NonEmpty(data)
    ensures var k := TrimCount(data, storedBytes);
            && (k == |data| || storedBytes - Total(data[..k]) < SHELL_CHECKPOINT_BYTES)
            && forall j :: 0 <= j < k ==> SHELL_CHECKPOINT_BYTES <= storedBytes - Total(data[..j])
  {
    if data == [] || storedBytes < SHELL_CHECKPOINT_BYTES {
    } else {
      TrimCountIsLeast(data[1..], storedBytes - |data[0]|);
      forall j | 0 < j <= |data| ensures Total(data[..j]) == |data[0]| + Total(data[1..][..j - 1]) {
        assert data[..j][1..] == data[1..][..j - 1];
      }
    }
  }

  lemma StoredChunksNonEmpty(messages: seq<Message>)
    ensures NonEmpty(AddAll(NEW_STORE, messages).data)
  {
    FreshIsCut();
    var cut := CutAfter(EMPTY, 0, 0, false, messages);
    AcceptAllKeepsOrder(EMPTY, messages);
    ChunksNonEmpty(AcceptAll(EMPTY, messages));
  }

  /** A checkpoint leaves out the fewest chunks that bring what it counts as stored below
      32 KiB. The counts of chunks and bytes ever accepted stay. */
  lemma TrimIsLeast(st: Store)
    requires NonEmpty(st.data)
    ensures var t := Trimmed(st);
            && t.chunkOffset + |t.data| == st.chunkOffset + |st.data|
            && t.byteOffset + Total(t.data) == st.byteOffset + Total(st.data)
            && (t.data == [] || t.seqNum - t.byteOffset < 32768)
            && forall j :: 0 <= j < t.chunkOffset - st.chunkOffset ==>
                 32768 <= st.seqNum - Dropped(st, j).byteOffset
  {
    TrimCountIsLeast(st.data, st.seqNum - st.byteOffset);
    TotalSplit(st.data, TrimCount(st.data, st.seqNum - st.byteOffset));
  }

  /** A checkpoint always stores less than 32 KiB. Its counters say so exactly when less than
      that has been skipped in all: they count the skipped bytes as stored. */
  lemma CheckpointIsSmall(messages: seq<Message>)
    ensures var t := Trimmed(AddAll(NEW_STORE, messages));
            && Total(t.data) < 32768
            && t.seqNum - t.byteOffset == Total(t.data) + Skipped(EMPTY, messages)
            && (t.seqNum - t.byteOffset < 32768 <==> Skipped(EMPTY, messages) < 32768)
  {
    StoredChunksNonEmpty(messages);
    StoreCounts(messages);
    TrimIsLeast(AddAll(NEW_STORE, messages));
  }

  /** One byte at position 32 KiB, and the counters claim more than the bound. */
  lemma CheckpointCanMiscount()
    ensures var t := Trimmed(AddAll(NEW_STORE, [Message(32768, [97])]));
            t.seqNum - t.byteOffset >= 32768
  {
    var m := Message(32768, [97]);
    AddFirst(m);
    CheckpointIsSmall([m]);
  }

  // --- A restored store goes on like the original ---

  lemma TrimReachesCut(l: Ledger, k: nat)
    requires Ordered(l) && k <= |l.entries|
    ensures var trim := k + TrimCount(Chunks(l.entries)[k..], Remaining(l, k));
            IsCut(l, trim, trim)
  {
    var rest := Chunks(l.entries)[k..];
    var trim := k + TrimCount(rest, Remaining(l, k));
    ChunksNonEmpty(l);
    TrimCountIsLeast(rest, Remaining(l, k));
    RemainingAfter(l, k, trim);
    forall j | trim < j <= |l.entries| ensures Remaining(l, j) < 2097152 {
      RemainingAfter(l, trim, j);
    }
  }

  lemma TrimmedIsCut(l: Ledger, k: nat, closed: bool) returns (trim: nat)
    requires Ordered(l) && k <= |l.entries|
    ensures k <= trim && IsCut(l, trim, trim) && Trimmed(Cut(l, k, closed)) == Cut(l, trim, closed)
  {
    var n := TrimCount(Chunks(l.entries)[k..], Remaining(l, k));
    trim := k + n;
    TrimReachesCut(l, k);
    DropMovesCut(l, k, n, closed);
  }

  lemma LaterCut(l: Ledger, least: nat, k: nat, trim: nat, cut: nat)
    requires IsCut(l, least, k) && IsCut(l, trim, cut) && least <= trim
    ensures k <= cut
    ensures trim <= k || 2097152 <= Remaining(l, cut) ==> k == cut
    ensures k == cut && least < trim ==> 2097152 <= Remaining(l, cut)
  {
  }

  ghost predicate IsSuffix(part: seq<Bytes>, whole: seq<Bytes>) {
    |part| <= |whole| && part == whole[|whole| - |part|..]
  }

  lemma LaterViewIsSuffix(l: Ledger, k: nat, cut: nat, closed: bool)
    requires k <= cut <= |l.entries|
    ensures IsSuffix(Cut(l, cut, closed).data, Cut(l, k, closed).data)
  {
    assert Chunks(l.entries)[cut..] == Chunks(l.entries)[k..][cut - k..];
  }

  /** Stop a server after any messages, restore it from the checkpoint, and feed both the
      same messages from then on. They stay at the same position and chunk number, the
      restored store holds the last chunks of the original one, and the two are equal
      exactly when nothing was left out or the restored store counts 2 MiB. */
  lemma RestoredFollowsOriginal(earlier: seq<Message>, later: seq<Message>)
    ensures var st := AddAll(NEW_STORE, earlier);
            var original := AddAll(st, later);
            var restored := AddAll(Trimmed(st), later);
            && restored.seqNum == original.seqNum
            && restored.chunkOffset + |restored.data| == original.chunkOffset + |original.data|
            && IsSuffix(restored.data, original.data)
            && (restored == original <==>
                  Trimmed(st) == st || 2097152 <= restored.seqNum - restored.byteOffset)
  {
    var l := AcceptAll(EMPTY, earlier);
    var all := AcceptAll(l, later);
    FreshIsCut();
    AcceptAllKeepsOrder(EMPTY, earlier);
    var k := CutAfter(EMPTY, 0, 0, false, earlier);
    var trim := TrimmedIsCut(l, k, false);
    var o := CutAfter(l, 0, k, false, later);
    var r := CutAfter(l, trim, trim, false, later);
    LaterCut(all, 0, o, trim, r);
    LaterViewIsSuffix(all, o, r, false);
    assert Cut(l, trim, false) == Cut(l, k, false) <==> trim == k;
  }
}

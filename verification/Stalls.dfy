/** Output that is not UTF-8 can stop the replication for good, and when it does. */
module Stalls {
  import opened Bytes
  import opened Characters
  import opened HostRuns
  import opened HostSender
  import opened Numbers
  import opened Protocol
  import opened StreamSender
  import opened Utf8

  /** From position `b`, where a character starts, nothing but continuation bytes follow for
      a whole chunk. */
  ghost predicate Plug(stream: Bytes, b: nat) {
    && StartsCharacter(stream, b) && b + 65536 < |stream|
    && forall k :: b < k <= b + 65536 ==> Continuation(stream[k])
  }

  ghost predicate Plugged(stream: Bytes) {
    exists b :: Plug(stream, b)
  }

  /** Output that is a text in UTF-8, its last character perhaps in part, has no plug. */
  lemma TextIsNeverPlugged(stream: Bytes, cs: seq<Scalar>)
    requires ReadsText(stream, cs)
    ensures !Plugged(stream)
  {
    PartialTextIsShort(stream, cs);
    forall b: nat ensures !Plug(stream, b) {
      if b + 65536 < |stream| {
        assert StartWithinFour(stream, b + 1);
      }
    }
  }

  // --- One read ---

  lemma PlugIff(stream: Bytes, start: nat)
    requires start <= |stream| && StartsCharacter(stream, start)
    ensures Plug(stream, start) <==>
            start + 65536 < |stream| && PrevBoundary(stream, start + 65536) == start
  {
    if start + 65536 < |stream| {
      var end := PrevBoundary(stream, start + 65536);
      PrevIsLargest(stream, start + 65536);
      if end == start {
        forall k | start < k <= start + 65536 ensures Continuation(stream[k]) {
          assert !IsBoundary(stream, k);
        }
      } else {
        PrevNotBefore(stream, start + 65536, start);
        assert IsBoundary(stream, end);
      }
    }
  }

  /** A message is empty exactly when the last character start not after the cursor is a
      plug. */
  lemma EmptyMessageIff(s: Sender, data: Bytes)
    requires s.Valid() && data != []
    ensures Emit(s, data).message.data == [] <==> Plug(s.stream + data, PrevBoundary(s.stream + data, s.seqNum))
  {
    var stream := s.stream + data;
    PrevIsLargest(stream, s.seqNum);
    assert IsBoundary(stream, PrevBoundary(stream, s.seqNum));
    PlugIff(stream, PrevBoundary(stream, s.seqNum));
  }

  /** A read empties the backlog or moves the cursor forward, unless there is a plug there. */
  lemma ProgressIff(s: Sender, data: Bytes)
    requires s.Valid() && data != []
    ensures var r := Emit(s, data).sender;
            r.Backlog() == 0 || s.seqNum < r.seqNum <==>
            !Plug(s.stream + data, PrevBoundary(s.stream + data, s.seqNum))
  {
    var stream := s.stream + data;
    var start := PrevBoundary(stream, s.seqNum);
    var end := Emit(s, data).sender.seqNum;
    EmptyMessageIff(s, data);
    PrevIsLargest(stream, s.seqNum);
    PrevIsLargest(stream, Min(start + CONTENT_CHUNK_SIZE, |stream|));
    assert IsBoundary(stream, end);
  }

  lemma PrevInPlug(stream: Bytes, b: nat, i: nat)
    requires Plug(stream, b) && i <= b + CONTENT_CHUNK_SIZE
    ensures PrevBoundary(stream, i) <= b
  {
    PrevIsLargest(stream, i);
    forall k | b < k <= i ensures !IsBoundary(stream, k) {
    }
  }

  /** A cursor that is not past a plug is never past its start again after a read. */
  lemma PlugBlocks(s: Sender, data: Bytes, b: nat)
    requires s.Valid() && data != []
    requires Plug(s.stream + data, b) && s.seqNum <= b + CONTENT_CHUNK_SIZE
    ensures Emit(s, data).sender.seqNum <= b
  {
    var stream := s.stream + data;
    var end := Emit(s, data).sender.seqNum;
    PrevInPlug(stream, b, s.seqNum);
    var limit := Min(PrevBoundary(stream, s.seqNum) + CONTENT_CHUNK_SIZE, |stream|);
    PrevInPlug(stream, b, limit);
  }

  // --- Whole runs ---

  lemma PlugWasThere(stream: Bytes, more: Bytes, b: nat)
    requires Plug(stream + more, b) && b + CONTENT_CHUNK_SIZE < |stream|
    ensures Plug(stream, b)
  {
    forall k | b < k <= b + CONTENT_CHUNK_SIZE ensures Continuation(stream[k]) {
      assert (stream + more)[k] == stream[k];
    }
  }

  /** A plug at `b` that the stream has now ends every run: no message, before or after,
      reaches past the chunk that follows it. */
  lemma {:induction false} PlugEndsRun(actions: seq<Action>, b: nat)
    requires Plug(Run(START, actions).sender.stream, b)
    ensures forall m <- Run(START, actions).sent :: m.End() <= b + CONTENT_CHUNK_SIZE
    ensures Run(START, actions).sender.highest <= b + CONTENT_CHUNK_SIZE
  {
    if actions == [] {
      assert false;
    } else {
      var before := actions[..|actions| - 1];
      var s := Run(START, before).sender;
      match actions[|actions| - 1]
      case Sync(_) => PlugEndsRun(before, b);
      case Read(data) =>
        if data == [] {
          PlugEndsRun(before, b);
        } else if |s.stream| <= b + CONTENT_CHUNK_SIZE {
          AllMessagesFramed(START, before);
          PlugBlocks(s, data, b);
        } else {
          PlugWasThere(s.stream, data, b);
          PlugEndsRun(before, b);
          PlugBlocks(s, data, b);
        }
    }
  }

  lemma PlugStays(stream: Bytes, more: Bytes, b: nat)
    requires Plug(stream, b)
    ensures Plug(stream + more, b)
  {
    forall k | b < k <= b + CONTENT_CHUNK_SIZE ensures Continuation((stream + more)[k]) {
      assert (stream + more)[k] == stream[k];
    }
  }

  /** The stream of a longer run, and its plugs. */
  lemma {:induction false} StreamGrows(actions: seq<Action>, more: seq<Action>)
    ensures Run(START, actions).sender.stream <= Run(START, actions + more).sender.stream
  {
    if more == [] {
      assert actions + more == actions;
    } else {
      assert (actions + more)[..|actions + more| - 1] == actions + more[..|more| - 1];
      StreamGrows(actions, more[..|more| - 1]);
    }
  }

  const LETTER: Bytes := [97]

  function Letters(n: nat): (actions: seq<Action>)
    ensures |actions| == n
  {
    if n == 0 then [] else Letters(n - 1) + [Read(LETTER)]
  }

  lemma LetterMakesNoPlug(stream: Bytes)
    requires !Plugged(stream)
    ensures !Plugged(stream + LETTER)
  {
    forall b: nat ensures !Plug(stream + LETTER, b) {
      if Plug(stream + LETTER, b) {
        assert Continuation((stream + LETTER)[b + CONTENT_CHUNK_SIZE]);
        PlugWasThere(stream, LETTER, b);
      }
    }
  }

  lemma LetterAdvances(s: Sender)
    requires s.Valid() && !Plugged(s.stream)
    ensures var r := Emit(s, LETTER).sender;
            !Plugged(r.stream) && (r.seqNum == |r.stream| || s.seqNum < r.seqNum)
  {
    LetterMakesNoPlug(s.stream);
    ProgressIff(s, LETTER);
  }

  /** Without a plug, one letter after another moves the cursor on to any position that the
      stream has reached. */
  lemma {:induction false} LettersAdvance(actions: seq<Action>, target: nat, n: nat)
    requires !Plugged(Run(START, actions).sender.stream) && target <= |Run(START, actions).sender.stream|
    ensures var s := Run(START, actions + Letters(n)).sender;
            && !Plugged(s.stream) && target <= |s.stream|
            && (target <= s.seqNum || n <= s.seqNum)
  {
    if n == 0 {
      assert actions + Letters(0) == actions;
    } else {
      assert (actions + Letters(n))[..|actions + Letters(n)| - 1] == actions + Letters(n - 1);
      LettersAdvance(actions, target, n - 1);
      var s := Run(START, actions + Letters(n - 1)).sender;
      LetterAdvances(s);
    }
  }

  /** Replication of what has been produced stops for good, whatever is read or reported
      later, exactly when the stream has a plug. */
  lemma StallsForGoodIff(actions: seq<Action>)
    ensures var produced := Run(START, actions).sender.stream;
            Plugged(produced) <==>
            forall more :: Run(START, actions + more).sender.seqNum < |produced|
  {
    var produced := Run(START, actions).sender.stream;
    if Plugged(produced) {
      var b :| Plug(produced, b);
      forall more ensures Run(START, actions + more).sender.seqNum < |produced| {
        StreamGrows(actions, more);
        var longer := Run(START, actions + more).sender.stream;
        assert longer == produced + longer[|produced|..];
        PlugStays(produced, longer[|produced|..], b);
        PlugEndsRun(actions + more, b);
      }
    } else {
      LettersAdvance(actions, |produced|, |produced|);
      assert !(Run(START, actions + Letters(|produced|)).sender.seqNum < |produced|);
    }
  }

  /** The terminal with a window fares no better: its messages end where the plug ends, and
      as long as it has not failed it keeps all that was produced after that in memory. */
  lemma PluggedTerminal(actions: seq<Action>, b: nat)
    requires Plug(Run(START, actions).sender.stream, b)
    ensures var r := RunHost(INITIAL, actions);
            && (forall m <- r.sent :: m.End() <= b + CONTENT_CHUNK_SIZE)
            && (!r.host.failed ==>
                  && r.host.seqNum <= b + CONTENT_CHUNK_SIZE < r.host.Produced()
                  && r.host.Produced() - (b + CONTENT_CHUNK_SIZE) <= |r.host.content|)
  {
    PlugEndsRun(actions, b);
    RunRefines(INITIAL, START, actions);
    forall m <- RunHost(INITIAL, actions).sent ensures m in Run(START, actions).sent {
    }
  }

  // --- A program that writes continuation bytes only ---

  ghost predicate AllContinuation(stream: Bytes) {
    forall k :: 0 <= k < |stream| ==> Continuation(stream[k])
  }

  lemma PrevInFlood(stream: Bytes, i: nat)
    requires AllContinuation(stream) && i <= |stream|
    ensures PrevBoundary(stream, i) == if i < |stream| then 0 else i
  {
    if i < |stream| {
      assert IsBoundary(stream, 0);
      PrevIsUnique(stream, i, 0);
    }
  }

  /** A program that writes only continuation bytes stops the replication for good: once it
      has written more than one chunk the cursor is back at 0, where it stays, the message
      is empty, and the window keeps every byte. No message ever reaches past 65536. */
  lemma {:induction false} FloodStalls(actions: seq<Action>, readSize: nat)
    requires Reads(actions, readSize) && AllContinuation(Run(START, actions).sender.stream)
    ensures var r := RunHost(INITIAL, actions);
            && !r.host.failed && r.host.contentOffset == 0 && r.host.content == Run(START, actions).sender.stream
            && (forall m <- r.sent :: m.seqNum == 0 && m.End() <= CONTENT_CHUNK_SIZE)
            && (CONTENT_CHUNK_SIZE < |r.host.content| ==>
                  r.host.seqNum == 0 && r.sent[|r.sent| - 1..] == [Message(0, [])])
  {
    if actions == [] {
    } else {
      var before := actions[..|actions| - 1];
      var last := actions[|actions| - 1];
      assert last in actions;
      assert forall a <- before :: a in actions;
      var s := Run(START, before).sender;
      var stream := s.stream + last.data;
      assert AllContinuation(s.stream) by {
        forall k | 0 <= k < |s.stream| ensures Continuation(s.stream[k]) {
          assert stream[k] == s.stream[k];
        }
      }
      FloodStalls(before, readSize);
      RunRefines(INITIAL, START, before);
      ReadRefines(RunHost(INITIAL, before).host, s, last.data);
      PrevInFlood(stream, s.seqNum);
      PrevInFlood(stream, Min(CONTENT_CHUNK_SIZE, |stream|));
    }
  }
}

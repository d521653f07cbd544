/** The windowed terminal over whole runs: it sends what the unbounded sender sends, its
    window follows the highest position reached, its memory is bounded, and a terminal that
    was moved back catches up. */
module HostRuns {
  import opened Bytes
  import opened Characters
  import opened HostSender
  import opened Numbers
  import opened Protocol
  import opened StreamSender
  import opened Utf8
  import opened Wrappers

  /** The window holds the end of the stream, from the first byte of a character on, and
      that is at least `CONTENT_ROLLING_BYTES` behind the highest position reached. */
  ghost predicate Windows(h: Host, s: Sender) {
    && s.Valid() && !h.failed
    && h.contentOffset <= |s.stream|
    && h.content == s.stream[h.contentOffset..]
    && StartsCharacter(s.stream, h.contentOffset)
    && (h.contentOffset == 0 || h.contentOffset + CONTENT_ROLLING_BYTES <= s.highest)
    && h.seqNum == s.seqNum && h.seqOutdated == s.outdated
  }

  datatype HostTrace = HostTrace(host: Host, sent: seq<Message>)

  function RunHost(h: Host, actions: seq<Action>): HostTrace {
    if actions == [] then HostTrace(h, [])
    else
      var t := RunHost(h, actions[..|actions| - 1]);
      match actions[|actions| - 1]
      case Sync(position) => t.(host := AfterSync(t.host, position))
      case Read(data) =>
        var r := AfterRead(t.host, data);
        HostTrace(r.host, t.sent + (if r.sent.Some? then [r.sent.value] else []))
  }

  /** Where the window starts after a read that leaves the sender at `s`, when it started at
      `off` before: at the last character start 8 MiB or more before the cursor if the
      window holds more than 12 MiB, and where it was otherwise. */
  function WindowStart(off: nat, s: Sender): nat
    requires s.Valid()
  {
    if 12582912 < |s.stream| - off && off < s.seqNum - 8388608 then PrevBoundary(s.stream, s.seqNum - 8388608)
    else off
  }

  function WindowStartAfter(off: nat, s: Sender, actions: seq<Action>): nat
    requires s.Valid()
  {
    if actions == [] then off
    else
      var last := actions[|actions| - 1];
      var before := WindowStartAfter(off, s, actions[..|actions| - 1]);
      if last.Read? && last.data != [] then WindowStart(before, Run(s, actions).sender) else before
  }

  // --- One step ---

  /** The piece to send is found in the window as in the whole stream. */
  lemma SpanInWindow(stream: Bytes, off: nat, from: nat)
    requires off <= from < |stream| && StartsCharacter(stream, off)
    ensures var p := NextSpan(stream[off..], from - off);
            NextSpan(stream, from) == Span(off + p.start, off + p.end)
  {
    PrevInWindow(stream, off, from);
    var start := PrevBoundary(stream[off..], from - off);
    PrevInWindow(stream, off, Min(off + start + CONTENT_CHUNK_SIZE, |stream|));
  }

  lemma PieceInWindow(stream: Bytes, off: nat, p: Span)
    requires off <= p.start <= p.end <= |stream|
    ensures stream[off..][p.start - off..p.end - off] == stream[p.start..p.end]
  {
  }

  lemma SendFromWindow(h: Host, stream: Bytes)
    requires h.contentOffset <= h.seqNum < |stream|
    requires StartsCharacter(stream, h.contentOffset) && h.content == stream[h.contentOffset..]
    ensures var p := NextSpan(stream, h.seqNum);
            && h.contentOffset <= p.start
            && Send(h) == ReadResult(h.(seqNum := p.end, seqOutdated := 0),
                                     Some(Message(p.start, stream[p.start..p.end])))
  {
    var p := NextSpan(stream, h.seqNum);
    SpanInWindow(stream, h.contentOffset, h.seqNum);
    PieceInWindow(stream, h.contentOffset, p);
  }

  lemma SendRefines(h: Host, s: Sender, data: Bytes)
    requires Windows(h, s) && data != [] && h.contentOffset <= h.seqNum
    ensures var r := Send(h.(content := h.content + data));
            && r.sent == Some(Emit(s, data).message)
            && r.host.contentOffset <= r.host.seqNum
            && Windows(r.host, Emit(s, data).sender)
  {
    var stream := s.stream + data;
    assert h.content + data == stream[h.contentOffset..];
    StartStays(s.stream, data, h.contentOffset);
    SendFromWindow(h.(content := h.content + data), stream);
  }

  lemma RestOfWindow(stream: Bytes, off: nat, k: nat)
    requires off + k <= |stream|
    ensures stream[off..][k..] == stream[off + k..]
  {
  }

  lemma PruneCutsAt(h: Host, s: Sender)
    requires Windows(h, s) && h.contentOffset <= h.seqNum
    ensures Prune(h) == h.(contentOffset := WindowStart(h.contentOffset, s),
                           content := s.stream[WindowStart(h.contentOffset, s)..])
    ensures h.contentOffset <= WindowStart(h.contentOffset, s) <= h.seqNum
  {
    var excess := h.seqNum - CONTENT_ROLLING_BYTES - h.contentOffset;
    if CONTENT_PRUNE_BYTES < |h.content| && 0 < excess {
      PrevInWindow(s.stream, h.contentOffset, h.seqNum - CONTENT_ROLLING_BYTES);
      RestOfWindow(s.stream, h.contentOffset, PrevBoundary(h.content, excess));
    }
  }

  lemma WindowStartsWell(off: nat, s: Sender)
    requires s.Valid() && StartsCharacter(s.stream, off)
    ensures StartsCharacter(s.stream, WindowStart(off, s))
  {
    if off < s.seqNum - 8388608 {
      PrevIsLargest(s.stream, s.seqNum - 8388608);
      assert IsBoundary(s.stream, PrevBoundary(s.stream, s.seqNum - 8388608));
    }
  }

  lemma PruneKeepsWindow(h: Host, s: Sender)
    requires Windows(h, s) && h.contentOffset <= h.seqNum
    ensures Windows(Prune(h), s) && Prune(h).contentOffset <= h.seqNum
    ensures Prune(h).contentOffset == WindowStart(h.contentOffset, s)
  {
    PruneCutsAt(h, s);
    WindowStartsWell(h.contentOffset, s);
  }

  /** A window of short characters that is cut is cut to 8 MiB before the cursor, and at most
      three bytes more. */
  lemma WindowIsCutBack(off: nat, s: Sender)
    requires s.Valid() && ShortCharacters(s.stream)
    ensures var start := WindowStart(off, s);
            if 12582912 < |s.stream| - off && off < s.seqNum - 8388608
              then s.seqNum - 8388611 <= start <= s.seqNum - 8388608
              else start == off
  {
    if off < s.seqNum - 8388608 {
      assert s.stream[0..] == s.stream;
      PrevIsNear(s.stream, 0, s.seqNum - 8388608);
    }
  }

  /** A read fails exactly when the cursor is before the window. Otherwise the terminal
      sends the message that the unbounded sender sends, and its window starts exactly where
      the stream and the cursor say. */
  lemma ReadRefines(h: Host, s: Sender, data: Bytes)
    requires Windows(h, s) && data != []
    ensures var r := AfterRead(h, data);
            var e := Emit(s, data);
            && (r.host.failed <==> h.seqNum < h.contentOffset)
            && (r.host.failed ==> r.sent == None)
            && (!r.host.failed ==> r.sent == Some(e.message) && Windows(r.host, e.sender))
            && (!r.host.failed ==> r.host.contentOffset <= r.host.seqNum)
            && (!r.host.failed ==> r.host.contentOffset == WindowStart(h.contentOffset, e.sender))
  {
    if h.contentOffset <= h.seqNum {
      SendRefines(h, s, data);
      PruneKeepsWindow(Send(h.(content := h.content + data)).host, Emit(s, data).sender);
    }
  }

  /** What a read that does not fail leaves in the window, when no character is longer than
      four bytes. */
  lemma ReadCutsBack(h: Host, s: Sender, data: Bytes)
    requires Windows(h, s) && data != [] && h.contentOffset <= h.seqNum && ShortCharacters(s.stream + data)
    ensures var r := AfterRead(h, data).host;
            var unsent := r.Produced() - r.seqNum;
            && (if 12582912 < |h.content| + |data| && h.contentOffset < r.seqNum - 8388608
                  then unsent + 8388608 <= |r.content| <= unsent + 8388611
                  else r.content == h.content + data)
            && (|r.content| <= 12582912 || |r.content| <= unsent + 8388611)
  {
    var t := Emit(s, data).sender;
    ReadRefines(h, s, data);
    WindowIsCutBack(h.contentOffset, t);
  }

  // --- Whole runs ---

  /** Whatever is read and whatever the server reports, the terminal's messages are those
      of the unbounded sender, all of them as long as it has not failed. */
  lemma {:induction false} RunRefines(h: Host, s: Sender, actions: seq<Action>)
    requires Windows(h, s)
    ensures RunHost(h, actions).sent <= Run(s, actions).sent
    ensures var t := RunHost(h, actions);
            !t.host.failed ==>
              && t.sent == Run(s, actions).sent && Windows(t.host, Run(s, actions).sender)
              && t.host.contentOffset == WindowStartAfter(h.contentOffset, s, actions)
  {
    if actions == [] {
    } else {
      var before := actions[..|actions| - 1];
      RunRefines(h, s, before);
      match actions[|actions| - 1]
      case Sync(_) =>
      case Read(data) =>
        if data != [] && !RunHost(h, before).host.failed {
          ReadRefines(RunHost(h, before).host, Run(s, before).sender, data);
        }
    }
  }

  /** Over every run of the windowed terminal, prunes and rewinds included: a message carries
      true bytes of the stream, starts where a character starts, and ends where one starts or
      at the end of what had been read. The next message starts at the last character start
      not after that end, or earlier: a character that was cut is sent again whole. */
  lemma TerminalMessagesFramed(actions: seq<Action>, exact: bool)
    requires exact ==> forall a <- actions :: a.Read?
    ensures var stream := Run(START, actions).sender.stream;
            var sent := RunHost(INITIAL, actions).sent;
            && (forall m <- sent :: m.TrueOf(stream) && StartsCharacter(stream, m.seqNum) && EndsWell(actions, m))
            && Resuming(stream, sent, exact)
  {
    var stream := Run(START, actions).sender.stream;
    var sent := RunHost(INITIAL, actions).sent;
    RunRefines(INITIAL, START, actions);
    AllMessagesFramed(START, actions);
    MessagesEndWell(actions);
    MessagesResume(actions, exact);
    forall m <- sent ensures m in Run(START, actions).sent {
    }
    forall i | 0 < i < |sent| ensures Resumes(stream, sent[i - 1], sent[i], exact) {
      assert Resumes(stream, Run(START, actions).sent[i - 1], Run(START, actions).sent[i], exact);
    }
  }

  /** When what is read is a text in UTF-8, its last character perhaps in part: every message
      starts between two characters, and ends between two or at the end of what had been
      read at some time of the run. */
  lemma TextMessages(actions: seq<Action>, cs: seq<Scalar>)
    requires ReadsText(Run(START, actions).sender.stream, cs)
    ensures forall m <- RunHost(INITIAL, actions).sent ::
              && Between(cs, m.seqNum)
              && (Between(cs, m.End()) ||
                  exists n :: 0 <= n <= |actions| && m.End() == |Run(START, actions[..n]).sender.stream|)
  {
    var stream := Run(START, actions).sender.stream;
    TerminalMessagesFramed(actions, false);
    forall m <- RunHost(INITIAL, actions).sent
      ensures Between(cs, m.seqNum) && (StartsCharacter(stream, m.End()) ==> Between(cs, m.End()))
    {
      StartIsCharacter(stream, cs, m.seqNum);
      if StartsCharacter(stream, m.End()) {
        StartIsCharacter(stream, cs, m.End());
      }
    }
  }

  /** Every report of the server is at most 8 MiB behind the highest
      position the sender had reached when the report came in. */
  ghost predicate LagsLittle(s: Sender, actions: seq<Action>)
    requires s.Valid()
  {
    forall i :: 0 <= i < |actions| && actions[i].Sync? ==>
      Run(s, actions[..i]).sender.highest <= actions[i].position + 8388608
  }

  /** Then no read fails and the cursor is always inside the window. */
  lemma {:induction false} LittleLagNeverFails(h: Host, s: Sender, actions: seq<Action>)
    requires Windows(h, s) && h.contentOffset <= h.seqNum && LagsLittle(s, actions)
    ensures var r := RunHost(h, actions).host;
            !r.failed && r.contentOffset <= r.seqNum <= r.Produced()
  {
    RunRefines(h, s, actions);
    if actions == [] {
    } else {
      var before := actions[..|actions| - 1];
      assert LagsLittle(s, before) by {
        forall i | 0 <= i < |before| && before[i].Sync?
          ensures Run(s, before[..i]).sender.highest <= before[i].position + 8388608
        {
          assert before[..i] == actions[..i];
        }
      }
      LittleLagNeverFails(h, s, before);
      RunRefines(h, s, before);
      match actions[|actions| - 1]
      case Sync(position) =>
        assert Run(s, actions[..|actions| - 1]).sender.highest <= position + 8388608;
      case Read(data) =>
        if data != [] {
          ReadRefines(RunHost(h, before).host, Run(s, before).sender, data);
          RunRefines(h, s, actions);
        }
    }
  }

  // --- Catching up ---

  ghost predicate Reads(actions: seq<Action>, readSize: nat) {
    forall a <- actions :: a.Read? && 1 <= |a.data| <= readSize
  }

  lemma ShortPrefix(stream: Bytes, more: Bytes)
    requires ShortCharacters(stream + more)
    ensures ShortCharacters(stream)
  {
    forall i | 0 <= i < |stream| - 3 ensures StartWithinFour(stream, i) {
      assert StartWithinFour(stream + more, i);
    }
  }

  /** One read empties the backlog or shrinks it by 65530 bytes less what was read: by at
      least 49146 bytes when a read returns at most 16384, and 61434 when at most 4096. */
  lemma EmitCatchesUp(s: Sender, data: Bytes)
    requires s.Valid() && data != [] && ShortCharacters(s.stream + data)
    ensures var r := Emit(s, data).sender;
            || r.Backlog() == 0
            || r.Backlog() + 65530 <= s.Backlog() + |data|
    ensures s.Backlog() + |data| <= 65533 ==> Emit(s, data).sender.Backlog() == 0
  {
    var stream := s.stream + data;
    assert stream[0..] == stream;
    PrevIsNear(stream, 0, s.seqNum);
    var start := PrevBoundary(stream, s.seqNum);
    if start + CONTENT_CHUNK_SIZE < |stream| {
      PrevIsNear(stream, 0, start + CONTENT_CHUNK_SIZE);
    }
  }

  /** A backlog of `start` bytes is gone after `n` reads, or smaller by what they gain. */
  predicate CaughtUp(start: int, now: int, n: nat, readSize: nat) {
    (now == 0 && n > 0) || now + n * (65530 - readSize) <= start
  }

  lemma GainOnce(start: int, before: int, after: int, n: nat, readSize: nat)
    requires CaughtUp(start, before, n, readSize) && readSize < 65530
    requires after == 0 || (after + 65530 - readSize <= before && before > 0)
    ensures CaughtUp(start, after, n + 1, readSize)
  {
    assert (n + 1) * (65530 - readSize) == n * (65530 - readSize) + (65530 - readSize);
  }

  lemma ReadGains(start: int, s: Sender, data: Bytes, n: nat, readSize: nat)
    requires s.Valid() && 0 < |data| <= readSize < 65530 && ShortCharacters(s.stream + data)
    requires CaughtUp(start, s.Backlog(), n, readSize)
    ensures CaughtUp(start, Emit(s, data).sender.Backlog(), n + 1, readSize)
  {
    EmitCatchesUp(s, data);
    GainOnce(start, s.Backlog(), Emit(s, data).sender.Backlog(), n, readSize);
  }

  lemma {:induction false} SenderCatchesUp(s: Sender, actions: seq<Action>, readSize: nat)
    requires s.Valid() && readSize < 65530 && Reads(actions, readSize)
    requires ShortCharacters(Run(s, actions).sender.stream)
    ensures CaughtUp(s.Backlog(), Run(s, actions).sender.Backlog(), |actions|, readSize)
  {
    if actions == [] {
    } else {
      var before := actions[..|actions| - 1];
      var last := actions[|actions| - 1];
      assert last in actions;
      assert Reads(before, readSize) by {
        assert forall a <- before :: a in actions;
      }
      var t := Run(s, before).sender;
      ShortPrefix(t.stream, last.data);
      SenderCatchesUp(s, before, readSize);
      ReadGains(s.Backlog(), t, last.data, |before|, readSize);
    }
  }

  /** A terminal whose cursor is inside its window, wherever the server moved it, has sent
      everything after that many non-empty reads of up to `readSize` bytes. */
  lemma TerminalCatchesUp(h: Host, s: Sender, actions: seq<Action>, readSize: nat)
    requires Windows(h, s) && h.contentOffset <= h.seqNum
    requires readSize < 65530 && Reads(actions, readSize) && actions != []
    requires ShortCharacters(Run(s, actions).sender.stream)
    requires s.Backlog() <= |actions| * (65530 - readSize)
    ensures var r := RunHost(h, actions).host;
            !r.failed && r.seqNum == r.Produced()
  {
    forall i | 0 <= i < |actions| ensures !actions[i].Sync? {
      assert actions[i] in actions;
    }
    LittleLagNeverFails(h, s, actions);
    RunRefines(h, s, actions);
    SenderCatchesUp(s, actions, readSize);
  }

  // --- Memory ---

  /** A terminal that is never moved back keeps at most 12 MiB, and has sent everything
      after every read. */
  lemma {:induction false} MemoryWithoutRewinds(actions: seq<Action>, readSize: nat)
    requires readSize < 65530 && Reads(actions, readSize)
    requires ShortCharacters(Run(START, actions).sender.stream)
    ensures var r := RunHost(INITIAL, actions).host;
            !r.failed && r.seqNum == r.Produced() && |r.content| <= 12582912
  {
    if actions == [] {
    } else {
      var before := actions[..|actions| - 1];
      var last := actions[|actions| - 1];
      assert last in actions;
      assert forall a <- before :: a in actions;
      ShortPrefix(Run(START, before).sender.stream, last.data);
      MemoryWithoutRewinds(before, readSize);
      RunRefines(INITIAL, START, before);
      ReadRefines(RunHost(INITIAL, before).host, Run(START, before).sender, last.data);
      ReadCutsBack(RunHost(INITIAL, before).host, Run(START, before).sender, last.data);
      EmitCatchesUp(Run(START, before).sender, last.data);
    }
  }

  /** After any read of any run that has not failed, rewinds included, the window has grown by
      what was read, or it held more than 12 MiB and is cut back to what is unsent and 8 MiB,
      give or take three bytes. */
  lemma MemoryAfterRead(actions: seq<Action>, data: Bytes)
    requires data != []
    requires ShortCharacters(Run(START, actions + [Read(data)]).sender.stream)
    ensures var h := RunHost(INITIAL, actions).host;
            var r := RunHost(INITIAL, actions + [Read(data)]).host;
            var unsent := r.Produced() - r.seqNum;
            || r.failed
            || (&& (if 12582912 < |h.content| + |data| && h.contentOffset < r.seqNum - 8388608
                      then unsent + 8388608 <= |r.content| <= unsent + 8388611
                      else r.content == h.content + data)
                && (|r.content| <= 12582912 || |r.content| <= unsent + 8388611))
  {
    var all := actions + [Read(data)];
    assert all[..|all| - 1] == actions;
    RunRefines(INITIAL, START, actions);
    if !RunHost(INITIAL, actions).host.failed {
      ReadRefines(RunHost(INITIAL, actions).host, Run(START, actions).sender, data);
      if !RunHost(INITIAL, all).host.failed {
        ReadCutsBack(RunHost(INITIAL, actions).host, Run(START, actions).sender, data);
      }
    }
  }

  // --- Failure is final ---

  lemma {:induction false} FailedForGood(h: Host, actions: seq<Action>)
    requires h.failed
    ensures RunHost(h, actions).host.failed && RunHost(h, actions).sent == []
  {
    if actions == [] {
    } else {
      FailedForGood(h, actions[..|actions| - 1]);
    }
  }
}

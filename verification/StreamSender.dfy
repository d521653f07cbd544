/** The sender with its memory limits taken away: it remembers the whole stream. It is what
    the windowed terminal of `HostSender` must be indistinguishable from. */
module StreamSender {
  import opened Bytes
  import opened HostSender
  import opened Numbers
  import opened Protocol
  import opened Utf8

  /** `highest` is the largest value the cursor ever had. */
  datatype Sender = Sender(stream: Bytes, seqNum: nat, outdated: nat, highest: nat) {
    ghost predicate Valid() {
      seqNum <= highest <= |stream|
    }

    function Backlog(): int {
      |stream| - seqNum
    }
  }

  const START := Sender([], 0, 0, 0)

  datatype Action = Read(data: Bytes) | Sync(position: nat)

  datatype Emission = Emission(sender: Sender, message: Message)

  /** Non-empty `data` is read and one message is sent. */
  function Emit(s: Sender, data: Bytes): (e: Emission)
    requires s.Valid() && data != []
    ensures e.sender.Valid()
    ensures e.message.TrueOf(e.sender.stream) && e.sender.seqNum == e.message.End()
  {
    var stream := s.stream + data;
    var p := NextSpan(stream, s.seqNum);
    Emission(Sender(stream, p.end, 0, if s.highest < p.end then p.end else s.highest),
             Message(p.start, stream[p.start..p.end]))
  }

  function Retreat(s: Sender, position: nat): (r: Sender)
    requires s.Valid()
    ensures r.Valid()
  {
    if s.seqNum <= position then s
    else s.(outdated := s.outdated + 1, seqNum := if s.outdated >= 2 then position else s.seqNum)
  }

  datatype Trace = Trace(sender: Sender, sent: seq<Message>)

  function Run(s: Sender, actions: seq<Action>): (t: Trace)
    requires s.Valid()
    ensures t.sender.Valid()
  {
    if actions == [] then Trace(s, [])
    else
      var t := Run(s, actions[..|actions| - 1]);
      match actions[|actions| - 1]
      case Sync(position) => t.(sender := Retreat(t.sender, position))
      case Read(data) =>
        if data == [] then t
        else
          var e := Emit(t.sender, data);
          Trace(e.sender, t.sent + [e.message])
  }

  // --- UTF-8 framing ---

  /** A message starts at the last character not after the cursor: a character that the
      previous message cut is sent again from its first byte. It has at most 65536 bytes and
      ends where a character starts or at the end of what has been read, as late as that
      allows. */
  lemma MessageIsFramed(s: Sender, data: Bytes)
    requires s.Valid() && data != []
    ensures var e := Emit(s, data);
            var stream := e.sender.stream;
            var m := e.message;
            && StartsCharacter(stream, m.seqNum) && m.seqNum <= s.seqNum
            && (forall k :: m.seqNum < k <= s.seqNum ==> !StartsCharacter(stream, k))
            && (m.End() == |stream| || StartsCharacter(stream, m.End()))
            && |m.data| <= 65536
            && (forall k :: m.End() < k <= Min(m.seqNum + 65536, |stream|) ==>
                  k < |stream| && !StartsCharacter(stream, k))
  {
    var stream := Emit(s, data).sender.stream;
    var m := Emit(s, data).message;
    PrevIsLargest(stream, s.seqNum);
    PrevIsLargest(stream, Min(m.seqNum + CONTENT_CHUNK_SIZE, |stream|));
    forall k | m.seqNum < k <= s.seqNum ensures !StartsCharacter(stream, k) {
      assert !IsBoundary(stream, k);
    }
    forall k | m.End() < k <= Min(m.seqNum + 65536, |stream|)
      ensures k < |stream| && !StartsCharacter(stream, k)
    {
      assert !IsBoundary(stream, k);
    }
  }

  lemma {:induction false} StartStays(stream: Bytes, more: Bytes, j: nat)
    requires StartsCharacter(stream, j)
    ensures StartsCharacter(stream + more, j)
  {
  }

  /** Over every run the messages carry true bytes of the stream and start at characters. */
  lemma {:induction false} AllMessagesFramed(s: Sender, actions: seq<Action>)
    requires s.Valid()
    ensures forall m <- Run(s, actions).sent ::
              m.TrueOf(Run(s, actions).sender.stream) && StartsCharacter(Run(s, actions).sender.stream, m.seqNum)
  {
    if actions == [] {
    } else {
      var before := actions[..|actions| - 1];
      AllMessagesFramed(s, before);
      var t := Run(s, before);
      match actions[|actions| - 1]
      case Sync(_) =>
      case Read(data) =>
        if data != [] {
          MessageIsFramed(t.sender, data);
          forall m <- t.sent
            ensures m.TrueOf(t.sender.stream + data) && StartsCharacter(t.sender.stream + data, m.seqNum)
          {
            StaysTrue(m, t.sender.stream, data);
            StartStays(t.sender.stream, data, m.seqNum);
          }
        }
    }
  }

  /** The message ends where a character of the whole stream starts, or at the end of what
      had been read at some time of the run. */
  ghost predicate EndsWell(actions: seq<Action>, m: Message) {
    || StartsCharacter(Run(START, actions).sender.stream, m.End())
    || exists n :: 0 <= n <= |actions| && m.End() == |Run(START, actions[..n]).sender.stream|
  }

  /** The next message starts at the last character start not after the end of this one, or
      before it if the cursor may have been moved back in between. */
  predicate Resumes(stream: Bytes, m: Message, next: Message, exact: bool) {
    && m.End() < |stream|
    && next.seqNum <= PrevBoundary(stream, m.End())
    && (exact ==> next.seqNum == PrevBoundary(stream, m.End()))
  }

  predicate Resuming(stream: Bytes, sent: seq<Message>, exact: bool) {
    forall i :: 0 < i < |sent| ==> Resumes(stream, sent[i - 1], sent[i], exact)
  }

  function LastEnd(sent: seq<Message>): nat {
    if sent == [] then 0 else sent[|sent| - 1].End()
  }

  lemma ResumingStays(stream: Bytes, more: Bytes, sent: seq<Message>, exact: bool)
    requires Resuming(stream, sent, exact)
    ensures Resuming(stream + more, sent, exact)
  {
    forall i | 0 < i < |sent| ensures Resumes(stream + more, sent[i - 1], sent[i], exact) {
      assert Resumes(stream, sent[i - 1], sent[i], exact);
      PrevStays(stream, more, sent[i - 1].End());
    }
  }

  /** Over every run each message resumes at a character start not after the end of the one
      before, so that a character cut there is sent again from its first byte; without
      reports it resumes exactly at the cut character or the end. */
  lemma {:induction false} MessagesResume(actions: seq<Action>, exact: bool)
    requires exact ==> forall a <- actions :: a.Read?
    ensures var t := Run(START, actions);
            && Resuming(t.sender.stream, t.sent, exact)
            && t.sender.seqNum <= LastEnd(t.sent) <= |t.sender.stream|
            && (exact ==> t.sender.seqNum == LastEnd(t.sent))
  {
    if actions == [] {
    } else {
      var before := actions[..|actions| - 1];
      var last := actions[|actions| - 1];
      assert last in actions;
      assert forall a <- before :: a in actions;
      MessagesResume(before, exact);
      var t := Run(START, before);
      if last.Read? && last.data != [] {
        ResumingStays(t.sender.stream, last.data, t.sent, exact);
        PrevIsMonotone(t.sender.stream + last.data, t.sender.seqNum, LastEnd(t.sent));
      }
    }
  }

  lemma EndsWellStays(actions: seq<Action>, m: Message)
    requires actions != [] && EndsWell(actions[..|actions| - 1], m)
    ensures EndsWell(actions, m)
  {
    var before := actions[..|actions| - 1];
    var stream := Run(START, before).sender.stream;
    if StartsCharacter(stream, m.End()) {
      if actions[|actions| - 1].Read? {
        StartStays(stream, actions[|actions| - 1].data, m.End());
      }
    } else {
      var n :| 0 <= n <= |before| && m.End() == |Run(START, before[..n]).sender.stream|;
      assert before[..n] == actions[..n];
    }
  }

  lemma {:induction false} MessagesEndWell(actions: seq<Action>)
    ensures forall m <- Run(START, actions).sent :: EndsWell(actions, m)
  {
    if actions == [] {
    } else {
      var before := actions[..|actions| - 1];
      var last := actions[|actions| - 1];
      MessagesEndWell(before);
      forall m <- Run(START, before).sent ensures EndsWell(actions, m) {
        EndsWellStays(actions, m);
      }
      if last.Read? && last.data != [] {
        MessageIsFramed(Run(START, before).sender, last.data);
        assert actions[..|actions|] == actions;
      }
    }
  }

  // --- Three outdated syncs ---

  function CountBelow(positions: seq<nat>, limit: nat): nat {
    if positions == [] then 0
    else
      CountBelow(positions[..|positions| - 1], limit)
      + (if positions[|positions| - 1] < limit then 1 else 0)
  }

  function SyncAll(s: Sender, positions: seq<nat>): (r: Sender)
    requires s.Valid()
    ensures r.Valid()
  {
    if positions == [] then s
    else Retreat(SyncAll(s, positions[..|positions| - 1]), positions[|positions| - 1])
  }

  /** Two of the reports before number `j` were outdated. */
  predicate TwoBefore(positions: seq<nat>, limit: nat, j: nat)
    requires j <= |positions|
  {
    2 <= CountBelow(positions[..j], limit)
  }

  lemma {:induction false} SyncsAfterSend(s: Sender, positions: seq<nat>)
    requires s.Valid() && s.outdated == 0
    ensures var r := SyncAll(s, positions);
            && r.seqNum <= s.seqNum && r.stream == s.stream
            && (r.seqNum < s.seqNum <==> 3 <= CountBelow(positions, s.seqNum))
            && (if CountBelow(positions, s.seqNum) < 3 then r.outdated == CountBelow(positions, s.seqNum)
                else r.outdated >= 3)
            && (forall j :: 0 <= j < |positions| && TwoBefore(positions, s.seqNum, j) ==> r.seqNum <= positions[j])
            && (r.seqNum < s.seqNum ==>
                  exists j :: 0 <= j < |positions| && TwoBefore(positions, s.seqNum, j) && r.seqNum == positions[j])
  {
    if positions == [] {
    } else {
      var n := |positions| - 1;
      var before := positions[..n];
      SyncsAfterSend(s, before);
      assert forall j :: 0 <= j <= n ==> before[..j] == positions[..j];
      assert forall j :: 0 <= j < n ==> TwoBefore(before, s.seqNum, j) == TwoBefore(positions, s.seqNum, j);
      assert TwoBefore(positions, s.seqNum, n) == (2 <= CountBelow(before, s.seqNum));
    }
  }

  /** Whatever came before a send: after it the cursor moves back if and only if three syncs
      report less than it, and then to the least report from the third such one on. */
  lemma RewindNeedsThreeSyncs(s: Sender, data: Bytes, positions: seq<nat>)
    requires s.Valid() && data != []
    ensures var sent := Emit(s, data).sender;
            var r := SyncAll(sent, positions);
            && r.seqNum <= sent.seqNum && r.stream == sent.stream
            && (r.seqNum < sent.seqNum <==> 3 <= CountBelow(positions, sent.seqNum))
            && (forall j :: 0 <= j < |positions| && TwoBefore(positions, sent.seqNum, j) ==> r.seqNum <= positions[j])
            && (r.seqNum < sent.seqNum ==>
                  exists j :: 0 <= j < |positions| && TwoBefore(positions, sent.seqNum, j) && r.seqNum == positions[j])
  {
    SyncsAfterSend(Emit(s, data).sender, positions);
  }
}
